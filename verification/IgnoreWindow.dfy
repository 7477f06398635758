/** cmd/feed-reader/ignore_window.go: weekly windows during which a feed is not fetched,
    and the loop that pushes a fetch time past them. */
module IgnoreWindow {
  import opened Wrappers
  import opened Calendar
  import opened Sets
  import opened WindowSweep

  type StartMinute = m: int | 0 <= m < 1440
  type EndMinute = m: int | 0 <= m <= 1440
  type Day = d: int | 0 <= d <= 6

  /** A window's times in minutes after midnight, and the weekdays it starts on. */
  datatype Hours = Hours(start: StartMinute, end: EndMinute, days: seq<Day>)

  /** A window as its text reads: no hours when any part of the text does not parse.
      `offset` is the zone's offset in seconds. */
  datatype Window = Window(hours: Option<Hours>, offset: int)

  /** When the window is active at `t`, the instant at which it ends. `time.Date` carries
      hour 24 into the next day, so every instant it builds is midnight plus minutes. */
  function ActiveUntil(t: int, h: Hours, offset: int): Option<int> {
    var local := t + offset * SECOND;
    var weekday := Weekday(DayNumber(local));
    var yesterday := if weekday == 0 then 6 else weekday - 1;
    var midnight := DayNumber(local) * DAY - offset * SECOND;
    var startToday := midnight + h.start * MINUTE;
    var endToday := midnight + h.end * MINUTE;
    if h.start == 0 && (h.end == 0 || h.end == 1440) then
      if weekday in h.days then Some(midnight + DAY) else None
    else if h.start < h.end then
      if weekday in h.days && startToday <= t < endToday then Some(endToday) else None
    else if h.start > h.end then
      if weekday in h.days && startToday <= t then Some(endToday + DAY)
      else if yesterday in h.days && t < endToday then Some(endToday)
      else None
    else None
  }

  /** Whether `t` falls in the window, and if so when the window ends. */
  function IsTimeInIgnoreWindow(t: int, w: Window): Option<int> {
    match w.hours
    case None => None
    case Some(h) => ActiveUntil(t, h, w.offset)
  }

  function ActivityOf(w: Window): Activity {
    t => IsTimeInIgnoreWindow(t, w)
  }

  function Activities(windows: seq<Window>): (activities: seq<Activity>)
    ensures |activities| == |windows|
  {
    seq(|windows|, i requires 0 <= i < |windows| => ActivityOf(windows[i]))
  }

  const MAX_ITERATIONS := 500

  /** Pushes `t` past the windows active at it, at most 500 times. */
  method AdjustNextFetchForIgnoreWindows(t: int, windows: seq<Window>) returns (current: int)
    ensures current == Advanced(t, Activities(windows), MAX_ITERATIONS)
  {
    hide IsTimeInIgnoreWindow, Regular, AllEndPositions, WindowDays, BlockedThroughout;
    ghost var activities := Activities(windows);
    current := t;
    if |windows| == 0 {
      return;
    }
    var i := 0;
    while i < MAX_ITERATIONS
      invariant 0 <= i <= MAX_ITERATIONS
      invariant Advanced(current, activities, MAX_ITERATIONS - i) == Advanced(t, activities, MAX_ITERATIONS)
    {
      var advanced, furthestNext := false, 0;
      for k := 0 to |windows|
        invariant FurthestEnd(current, activities, k) == if advanced then Some(furthestNext) else None
      {
        var active := IsTimeInIgnoreWindow(current, windows[k]);
        assert active == activities[k](current);
        if active.Some? {
          if !advanced || active.value > furthestNext {
            furthestNext, advanced := active.value, true;
          }
        }
      }
      if !advanced {
        break;
      }
      WindowsAreRegular(windows);
      FurthestEndIsLater(current, activities, AllEndPositions(windows));
      if furthestNext <= current {
        break;
      }
      current := furthestNext;
      i := i + 1;
    }
  }

  // ----- one window

  /** An active window ends later, and is active with the same end until then, also across midnight. */
  lemma ActiveRun(t: int, u: int, h: Hours, offset: int)
    requires ActiveUntil(t, h, offset).Some?
    ensures ActiveUntil(t, h, offset).value > t
    ensures t <= u < ActiveUntil(t, h, offset).value ==> ActiveUntil(u, h, offset) == ActiveUntil(t, h, offset)
  {
    var end := ActiveUntil(t, h, offset).value;
    var day := DayNumber(t + offset * SECOND);
    DayBounds(t + offset * SECOND);
    if t <= u < end {
      DayNumberIs(u + offset * SECOND, if u + offset * SECOND < (day + 1) * DAY then day else day + 1);
    }
  }

  /** Windows repeat every week, and so do their ends. */
  lemma Weekly(t: int, k: int, h: Hours, offset: int)
    ensures ActiveUntil(t + k * WEEK, h, offset).Some? == ActiveUntil(t, h, offset).Some?
    ensures ActiveUntil(t, h, offset).Some? ==>
              ActiveUntil(t + k * WEEK, h, offset).value == ActiveUntil(t, h, offset).value + k * WEEK
  {
    var local := t + offset * SECOND;
    WeeksLater(local, k);
    assert t + k * WEEK + offset * SECOND == local + k * WEEK;
  }

  /** From the midnight that begins a window's starting day to the window's end. */
  function EndOffset(h: Hours): int {
    if h.start == 0 && (h.end == 0 || h.end == 1440) then DAY
    else if h.start < h.end then h.end * MINUTE
    else DAY + h.end * MINUTE
  }

  /** An active window's occurrence began today or yesterday, on one of its weekdays. */
  lemma OccurrenceStart(t: int, h: Hours, offset: int) returns (day: int)
    requires ActiveUntil(t, h, offset).Some?
    ensures Weekday(day) in h.days
    ensures ActiveUntil(t, h, offset).value == day * DAY + EndOffset(h) - offset * SECOND
  {
    day := DayNumber(t + offset * SECOND);
    var startToday := day * DAY - offset * SECOND + h.start * MINUTE;
    if h.start > h.end && !(Weekday(day) in h.days && startToday <= t) {
      day := day - 1;
    }
  }

  /** The window as its settings read: on each of its weekdays it opens at the start time and stays
      open to the end time, on the same or the next day; equal times other than midnight never open it. */
  ghost predicate OpenFrom(h: Hours, offset: int, day: int, t: int) {
    && Weekday(day) in h.days && (h.start == h.end ==> h.start == 0)
    && day * DAY + h.start * MINUTE <= t + offset * SECOND < day * DAY + EndOffset(h)
  }

  /** The window is active exactly while an occurrence of it lasts, and reports the end of that one. */
  lemma ActiveExactlyWhenOpen(t: int, h: Hours, offset: int, end: int)
    ensures ActiveUntil(t, h, offset) == Some(end) <==>
              exists day :: OpenFrom(h, offset, day, t) && end == day * DAY + EndOffset(h) - offset * SECOND
  {
    DayBounds(t + offset * SECOND);
    var today := DayNumber(t + offset * SECOND);
    WeekdayBefore(today);
    if ActiveUntil(t, h, offset) == Some(end) {
      assert OpenFrom(h, offset, today, t) || OpenFrom(h, offset, today - 1, t);
    }
    if day :| OpenFrom(h, offset, day, t) && end == day * DAY + EndOffset(h) - offset * SECOND {
      assert day == today || day == today - 1;
    }
  }

  lemma WeekdayBefore(day: int)
    ensures Weekday(day - 1) == if Weekday(day) == 0 then 6 else Weekday(day) - 1
  {}

  // ----- the positions in the week at which windows end

  /** The position in the week at which the occurrence starting on weekday `d` ends. */
  function EndPosition(h: Hours, offset: int, d: int): int {
    WeekPosition((d - 4) * DAY + EndOffset(h) - offset * SECOND)
  }

  function Weekdays(w: Window): set<int> {
    if w.hours.None? then {} else set d | d in w.hours.value.days
  }

  function Image<A, B>(f: A -> B, s: set<A>): set<B> {
    set x | x in s :: f(x)
  }

  function EndPositions(w: Window): set<int> {
    if w.hours.None? then {} else Image(d => EndPosition(w.hours.value, w.offset, d), Weekdays(w))
  }

  function AllEndPositions(windows: seq<Window>): set<int> {
    if windows == [] then {} else EndPositions(windows[0]) + AllEndPositions(windows[1..])
  }

  /** The number of (window, weekday) pairs. */
  function WindowDays(windows: seq<Window>): nat {
    if windows == [] then 0 else |Weekdays(windows[0])| + WindowDays(windows[1..])
  }

  lemma {:induction false} ImageSize<A, B>(f: A -> B, s: set<A>)
    ensures |Image(f, s)| <= |s|
  {
    if s != {} {
      var x :| x in s;
      ImageSize(f, s - {x});
      assert Image(f, s) == Image(f, s - {x}) + {f(x)};
    }
  }

  lemma {:induction false} AtMostOneEndPerDay(windows: seq<Window>)
    ensures |AllEndPositions(windows)| <= WindowDays(windows)
  {
    if windows != [] {
      AtMostOneEndPerDay(windows[1..]);
      var w := windows[0];
      if w.hours.Some? {
        ImageSize(d => EndPosition(w.hours.value, w.offset, d), Weekdays(w));
      }
    }
  }

  lemma AtMostSevenDays(w: Window)
    ensures |Weekdays(w)| <= 7
  {
    var week := {0, 1, 2, 3, 4, 5, 6};
    assert |week| == 7;
    SubsetSize(Weekdays(w), week);
  }

  /** A window has at most seven weekdays however its list repeats them. */
  lemma {:induction false} SevenDaysEach(windows: seq<Window>)
    ensures WindowDays(windows) <= 7 * |windows|
  {
    if windows != [] {
      SevenDaysEach(windows[1..]);
      AtMostSevenDays(windows[0]);
    }
  }

  lemma PositionOfDay(day: int, h: Hours, offset: int)
    ensures WeekPosition(day * DAY + EndOffset(h) - offset * SECOND) == EndPosition(h, offset, Weekday(day))
  {
    WeekdayWeeks(day);
    WeekPositionShift((Weekday(day) - 4) * DAY + (EndOffset(h) - offset * SECOND), WeekNumber(day));
  }

  lemma EndsAtPosition(t: int, w: Window)
    requires IsTimeInIgnoreWindow(t, w).Some?
    ensures WeekPosition(IsTimeInIgnoreWindow(t, w).value) in EndPositions(w)
  {
    var h := w.hours.value;
    var day := OccurrenceStart(t, h, w.offset);
    PositionOfDay(day, h, w.offset);
    assert Weekday(day) in Weekdays(w);
  }

  lemma {:induction false} PositionAmongAll(position: int, windows: seq<Window>, k: nat)
    requires k < |windows| && position in EndPositions(windows[k])
    ensures position in AllEndPositions(windows)
  {
    if k > 0 {
      PositionAmongAll(position, windows[1..], k - 1);
    }
  }

  lemma WindowRunsOn(t: int, u: int, w: Window)
    ensures RunsOn(ActivityOf(w), t, u)
  {
    if IsTimeInIgnoreWindow(t, w).Some? {
      ActiveRun(t, u, w.hours.value, w.offset);
    }
  }

  lemma WindowRepeats(t: int, u: int, w: Window)
    ensures RepeatsWeekly(ActivityOf(w), t, u)
  {
    if w.hours.Some? && WeekPosition(t) == WeekPosition(u) {
      SamePosition(t, u);
      Weekly(t, u / WEEK - t / WEEK, w.hours.value, w.offset);
    }
  }

  lemma WindowEndsWithin(t: int, windows: seq<Window>, k: nat)
    requires k < |windows|
    ensures EndsWithin(ActivityOf(windows[k]), t, AllEndPositions(windows))
  {
    if IsTimeInIgnoreWindow(t, windows[k]).Some? {
      EndsAtPosition(t, windows[k]);
      PositionAmongAll(WeekPosition(IsTimeInIgnoreWindow(t, windows[k]).value), windows, k);
    }
  }

  /** Every window runs on until it ends, repeats weekly, and ends once per weekday it starts on. */
  lemma WindowsAreRegular(windows: seq<Window>)
    ensures AllRegular(Activities(windows), AllEndPositions(windows))
    ensures |AllEndPositions(windows)| <= WindowDays(windows)
  {
    AtMostOneEndPerDay(windows);
    forall k | 0 <= k < |windows| ensures Regular(Activities(windows)[k], AllEndPositions(windows)) {
      forall t, u ensures RunsOn(ActivityOf(windows[k]), t, u) { WindowRunsOn(t, u, windows[k]); }
      forall t, u ensures RepeatsWeekly(ActivityOf(windows[k]), t, u) { WindowRepeats(t, u, windows[k]); }
      forall t ensures EndsWithin(ActivityOf(windows[k]), t, AllEndPositions(windows)) {
        WindowEndsWithin(t, windows, k);
      }
    }
  }

  // ----- what the loop achieves

  /** With at most 500 (window, weekday) pairs the result is the earliest free instant from `t` on,
      unless the windows leave no instant of the week free. */
  lemma AdjustedIsEarliestFree(t: int, windows: seq<Window>)
    requires WindowDays(windows) <= MAX_ITERATIONS && !CoverEverything(Activities(windows))
    ensures var r := Advanced(t, Activities(windows), MAX_ITERATIONS);
            && t <= r && !Blocked(r, Activities(windows))
            && forall u :: t <= u < r ==> Blocked(u, Activities(windows))
  {
    WindowsAreRegular(windows);
    EarliestFreeInstant(t, Activities(windows), AllEndPositions(windows), MAX_ITERATIONS);
  }

  /** In particular for up to 71 windows, however many weekdays each has. */
  lemma SeventyOneWindows(t: int, windows: seq<Window>)
    requires |windows| <= 71
    ensures Blocked(Advanced(t, Activities(windows), MAX_ITERATIONS), Activities(windows))
       <==> CoverEverything(Activities(windows))
  {
    SevenDaysEach(windows);
    if !CoverEverything(Activities(windows)) {
      AdjustedIsEarliestFree(t, windows);
    }
  }

  // ----- the iteration cap is exactly enough for 500 (window, weekday) pairs

  /** `n` windows of one minute each, end to end from midnight on Thursdays, in UTC. */
  function MinuteWindows(n: nat): (windows: seq<Window>)
    requires n < 1440
    ensures |windows| == n
  {
    seq(n, i requires 0 <= i < n => Window(Some(Hours(i, i + 1, [4])), 0))
  }

  lemma MinuteWindowActive(t: int, k: nat)
    requires k + 1 < 1440 && 0 <= t < DAY
    ensures IsTimeInIgnoreWindow(t, Window(Some(Hours(k, k + 1, [4])), 0))
         == if k * MINUTE <= t < (k + 1) * MINUTE then Some((k + 1) * MINUTE) else None
  {
    DayNumberIs(t, 0);
  }

  lemma MinuteActivity(n: nat, j: nat, k: nat)
    requires j < n < 1440 && k < n
    ensures Activities(MinuteWindows(n))[j](k * MINUTE) == if j == k then Some((k + 1) * MINUTE) else None
  {
    assert MinuteWindows(n)[j] == Window(Some(Hours(j, j + 1, [4])), 0);
    MinuteWindowActive(k * MINUTE, j);
    hide IsTimeInIgnoreWindow;
  }

  lemma MinuteWindowsAt(n: nat, k: nat)
    requires k < n < 1440
    ensures FurthestEnd(k * MINUTE, Activities(MinuteWindows(n)), n) == Some((k + 1) * MINUTE)
  {
    hide MinuteWindows, Activities, FurthestEnd;
    var activities := Activities(MinuteWindows(n));
    forall j: nat | j < n
      ensures activities[j](k * MINUTE) == if j == k then Some((k + 1) * MINUTE) else None
    {
      MinuteActivity(n, j, k);
    }
    assert activities[k](k * MINUTE).Some?;
  }

  lemma MinuteByMinute(n: nat, moves: nat)
    requires moves <= n < 1440
    ensures Advanced(0, Activities(MinuteWindows(n)), moves) == moves * MINUTE
  {
    hide FurthestEnd, Advanced, Activities;
    var activities := Activities(MinuteWindows(n));
    var stops := seq(moves + 1, k => k * MINUTE);
    forall k | 0 <= k < moves ensures MovesOn(stops, k, activities) {
      MinuteWindowsAt(n, k);
    }
    PassesThrough(stops, activities);
  }

  lemma {:induction false} OneDayEach(windows: seq<Window>)
    requires forall i :: 0 <= i < |windows| ==> windows[i].hours.Some? && windows[i].hours.value.days == [4]
    ensures WindowDays(windows) == |windows|
  {
    if windows != [] {
      OneDayEach(windows[1..]);
      assert Weekdays(windows[0]) == {4};
    }
  }

  lemma MinuteWindowsLeaveRoom(n: nat)
    requires n < 1439
    ensures !Blocked(n * MINUTE, Activities(MinuteWindows(n)))
  {
    var activities := Activities(MinuteWindows(n));
    forall j | 0 <= j < n ensures activities[j](n * MINUTE).None? {
      MinuteWindowActive(n * MINUTE, j);
    }
  }

  /** One pair more than the cap is too many: from midnight the loop stops inside the last
      window, although most of the week is free. */
  lemma OnePairTooMany(n: nat)
    requires n == MAX_ITERATIONS + 1
    ensures WindowDays(MinuteWindows(n)) == n && !CoverEverything(Activities(MinuteWindows(n)))
    ensures Blocked(Advanced(0, Activities(MinuteWindows(n)), MAX_ITERATIONS), Activities(MinuteWindows(n)))
  {
    OneDayEach(MinuteWindows(n));
    MinuteWindowsLeaveRoom(n);
    MinuteByMinute(n, MAX_ITERATIONS);
    MinuteWindowActive(MAX_ITERATIONS * MINUTE, MAX_ITERATIONS);
    assert Activities(MinuteWindows(n))[MAX_ITERATIONS](MAX_ITERATIONS * MINUTE).Some?;
  }

  /** The promise that the result falls outside all windows, for windows with at most `pairs` pairs. */
  ghost predicate AlwaysEscapes(pairs: nat) {
    forall t, windows ::
      WindowDays(windows) <= pairs && !CoverEverything(Activities(windows)) ==>
        !Blocked(Advanced(t, Activities(windows), MAX_ITERATIONS), Activities(windows))
  }

  /** The cap of 500 iterations keeps the promise for exactly up to 500 (window, weekday) pairs. */
  lemma CapThreshold(pairs: nat)
    ensures AlwaysEscapes(pairs) <==> pairs <= MAX_ITERATIONS
  {
    if pairs <= MAX_ITERATIONS {
      forall t, windows | WindowDays(windows) <= pairs && !CoverEverything(Activities(windows))
        ensures !Blocked(Advanced(t, Activities(windows), MAX_ITERATIONS), Activities(windows))
      {
        AdjustedIsEarliestFree(t, windows);
      }
    } else {
      OnePairTooMany(MAX_ITERATIONS + 1);
    }
  }
}
