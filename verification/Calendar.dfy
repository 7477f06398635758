/** Instants are whole nanoseconds since 1970-01-01T00:00Z; a zone is a fixed offset
    added to the instant to obtain local time. */
module Calendar {
  const SECOND := 1_000_000_000
  const MINUTE := 60_000_000_000
  const DAY := 86_400_000_000_000
  const WEEK := 604_800_000_000_000

  lemma QuotientExists(n: int, d: int)
    requires d > 0
    ensures exists q :: q * d <= n < q * d + d
  {
    assert n / d * d <= n < n / d * d + d;
  }

  /** The local calendar day a local instant falls on, day 0 being 1970-01-01. */
  function DayNumber(local: int): int {
    QuotientExists(local, DAY);
    var q :| q * DAY <= local < q * DAY + DAY;
    q
  }

  /** Weeks begin on Sundays. */
  function WeekNumber(day: int): int {
    QuotientExists(day + 4, 7);
    var q :| q * 7 <= day + 4 < q * 7 + 7;
    q
  }

  /** 0 is Sunday; day 0 was a Thursday. */
  function Weekday(day: int): int {
    day + 4 - WeekNumber(day) * 7
  }

  /** Weekdays follow each other, starting from a Thursday. */
  lemma WeekdaysInTurn(day: int)
    ensures 0 <= Weekday(day) < 7 && Weekday(0) == 4 && Weekday(day + 1) == (Weekday(day) + 1) % 7
  {
  }

  /** The position of an instant in the week. */
  function WeekPosition(t: int): int {
    t % WEEK
  }

  lemma DayNumberIs(local: int, day: int)
    requires day * DAY <= local < (day + 1) * DAY
    ensures DayNumber(local) == day
  {
  }

  lemma DayBounds(local: int)
    ensures DayNumber(local) * DAY <= local < (DayNumber(local) + 1) * DAY
  {
  }

  lemma WeekPositionShift(t: int, k: int)
    ensures WeekPosition(t + k * WEEK) == WeekPosition(t)
  {
  }

  lemma SamePosition(t: int, u: int)
    requires WeekPosition(t) == WeekPosition(u)
    ensures u == t + (u / WEEK - t / WEEK) * WEEK
  {
  }

  /** Days and weekdays of the same moment `k` weeks later. */
  lemma WeeksLater(local: int, k: int)
    ensures DayNumber(local + k * WEEK) == DayNumber(local) + 7 * k
    ensures Weekday(DayNumber(local + k * WEEK)) == Weekday(DayNumber(local))
  {
    DayBounds(local);
    DayNumberIs(local + k * WEEK, DayNumber(local) + 7 * k);
  }

  /** A day is a whole number of weeks away from the first day with the same weekday. */
  lemma WeekdayWeeks(day: int)
    ensures day == WeekNumber(day) * 7 + Weekday(day) - 4
  {
  }
}
