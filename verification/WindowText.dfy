/** The text of ignore windows: what the API lets through
    (internal/httpapi/handler.go:574-720, 845-885), how the fetcher reads it
    (cmd/feed-reader/ignore_window.go:14-111), and how the browser reads it
    (frontend/src/lib/ignore-window-db.ts:153-256). */
module WindowText {
  import opened Wrappers
  import opened Text
  import opened Calendar
  import opened IgnoreWindow

  /** A stored window. `days` is the decoded JSON list: text that does not decode reads as the
      empty list, for which both sides answer "not active". */
  datatype StoredWindow = StoredWindow(startTime: string, endTime: string, days: seq<int>, offset: int)

  // ----- the fetcher's reading

  function ParseDaysOfWeek(days: seq<int>): Option<seq<Day>> {
    if forall i :: 0 <= i < |days| ==> 0 <= days[i] <= 6 then Some(days) else None
  }

  /** Hour and minute of "HH:MM" text; "24:00" is allowed. */
  function ParseTimeOfDay(s: string): (r: Option<(nat, nat)>)
    ensures r.Some? ==> r.value.1 <= 59 && (r.value.0 <= 23 || r.value == (24, 0))
  {
    var trimmed := Trim(s, GoSpace);
    if trimmed == "24:00" then Some((24, 0))
    else
      var parts := Split(trimmed, ':');
      if |parts| != 2 then None
      else match (Atoi(parts[0]), Atoi(parts[1]))
        case (Some(h), Some(m)) =>
          if h == 24 && m == 0 then Some((24, 0))
          else if h < 0 || h > 23 || m < 0 || m > 59 then None
          else Some((h, m))
        case _ => None
  }

  /** A window with any part that does not parse is never active; a start of 24:00 reads as 00:00. */
  function Parse(w: StoredWindow): Window {
    var days := ParseDaysOfWeek(w.days);
    if days.None? || |days.value| == 0 then Window(None, w.offset)
    else match (ParseTimeOfDay(w.startTime), ParseTimeOfDay(w.endTime))
      case (Some((sh, sm)), Some((eh, em))) =>
        Window(Some(Hours(if sh == 24 then 0 else sh * 60 + sm, eh * 60 + em, days.value)), w.offset)
      case _ => Window(None, w.offset)
  }

  // ----- the API's validation

  /** Minutes after midnight, 0 to 1440. */
  function ParseAndValidateTimeOfDay(s: string): Option<nat> {
    var trimmed := Trim(s, GoSpace);
    if trimmed == "24:00" then Some(1440)
    else
      var parts := Split(trimmed, ':');
      if |parts| != 2 then None
      else match (Atoi(parts[0]), Atoi(parts[1]))
        case (Some(h), Some(m)) =>
          if h == 24 && m == 0 then Some(1440)
          else if h < 0 || h > 23 || m < 0 || m > 59 then None
          else Some(h * 60 + m)
        case _ => None
  }

  predicate StrictlyIncreasing(days: seq<int>) {
    forall i, j :: 0 <= i < j < |days| ==> days[i] < days[j]
  }

  /** Inserts into a strictly increasing list, dropping a repetition. */
  function InsertDay(d: int, days: seq<int>): (r: seq<int>)
    requires StrictlyIncreasing(days)
    ensures StrictlyIncreasing(r) && forall x :: x in r <==> x == d || x in days
  {
    if days == [] || d < days[0] then [d] + days
    else if d == days[0] then days
    else
      var rest := InsertDay(d, days[1..]);
      assert forall i :: 0 <= i < |rest| ==> rest[i] in rest;
      assert days == [days[0]] + days[1..];
      [days[0]] + rest
  }

  /** The library's sort and compact: the list's days once each, in increasing order. */
  function SortCompact(days: seq<int>): (r: seq<int>)
    ensures StrictlyIncreasing(r) && forall x :: x in r <==> x in days
  {
    if days == [] then [] else InsertDay(days[0], SortCompact(days[1..]))
  }

  function NormalizeAndValidateDaysOfWeek(days: seq<int>): (r: Option<seq<int>>)
    ensures r.Some? <==> days != [] && forall d :: d in days ==> 0 <= d <= 6
    ensures r.Some? ==> StrictlyIncreasing(r.value) && forall d :: d in r.value <==> d in days
  {
    if days == [] then None
    else
      var compacted := SortCompact(days);
      assert days[0] in days;
      if forall d :: d in compacted ==> 0 <= d <= 6 then Some(compacted) else None
  }

  /** A change request; `zone` is the offset of the named zone, None when no such zone exists. */
  datatype Change = Change(startTime: Option<string>, endTime: Option<string>,
                           days: Option<seq<int>>, zone: Option<Option<int>>)

  /** The checks on the two times, shared by creating and updating. */
  predicate TimesAccepted(startTime: string, endTime: string) {
    var start := ParseAndValidateTimeOfDay(startTime);
    var end := ParseAndValidateTimeOfDay(endTime);
    && start.Some? && start.value != 1440
    && end.Some? && !(start == end && start.value != 0)
  }

  /** What IgnoreWindowsCreate stores, None when it rejects the request. The times are stored as sent. */
  function Create(startTime: string, endTime: string, days: seq<int>, zone: Option<int>): Option<StoredWindow> {
    var normalized := NormalizeAndValidateDaysOfWeek(days);
    if !TimesAccepted(startTime, endTime) || normalized.None? || zone.None? then None
    else Some(StoredWindow(startTime, endTime, normalized.value, zone.value))
  }

  /** What IgnoreWindowsUpdate stores, None when it rejects the request. */
  function Update(existing: StoredWindow, change: Change): Option<StoredWindow> {
    var startTime := if change.startTime.Some? then change.startTime.value else existing.startTime;
    var endTime := if change.endTime.Some? then change.endTime.value else existing.endTime;
    if !TimesAccepted(startTime, endTime) then None
    else
      var days := if change.days.Some? then NormalizeAndValidateDaysOfWeek(change.days.value) else Some(existing.days);
      var zone := if change.zone.Some? then change.zone.value else Some(existing.offset);
      if days.None? || zone.None? then None
      else Some(StoredWindow(startTime, endTime, days.value, zone.value))
  }

  /** The stored window after a history of updates; a rejected update changes nothing. */
  function AfterUpdates(w: StoredWindow, changes: seq<Change>): StoredWindow
    decreases |changes|
  {
    if changes == [] then w
    else
      var updated := Update(w, changes[0]);
      AfterUpdates(if updated.Some? then updated.value else w, changes[1..])
  }

  predicate Storable(w: StoredWindow) {
    && TimesAccepted(w.startTime, w.endTime)
    && w.days != [] && StrictlyIncreasing(w.days)
    && forall d :: d in w.days ==> 0 <= d <= 6
  }

  lemma {:induction false} UpdatesKeepStorable(w: StoredWindow, changes: seq<Change>)
    requires Storable(w)
    ensures Storable(AfterUpdates(w, changes))
    decreases |changes|
  {
    if changes != [] {
      var updated := Update(w, changes[0]);
      UpdatesKeepStorable(if updated.Some? then updated.value else w, changes[1..]);
    }
  }

  lemma {:induction false} SortCompactUnchanged(days: seq<int>)
    requires StrictlyIncreasing(days)
    ensures SortCompact(days) == days
  {
    if days != [] {
      SortCompactUnchanged(days[1..]);
      assert days == [days[0]] + days[1..];
    }
  }

  /** The windows some history of requests stores. */
  ghost predicate CanBeStored(w: StoredWindow) {
    exists startTime, endTime, days, zone, changes ::
      Create(startTime, endTime, days, zone).Some?
      && w == AfterUpdates(Create(startTime, endTime, days, zone).value, changes)
  }

  lemma CreatedIsStorable(startTime: string, endTime: string, days: seq<int>, zone: Option<int>)
    requires Create(startTime, endTime, days, zone).Some?
    ensures Storable(Create(startTime, endTime, days, zone).value)
  {
    hide TimesAccepted, SortCompact;
    assert days[0] in NormalizeAndValidateDaysOfWeek(days).value;
  }

  lemma StorableIsCreated(w: StoredWindow)
    requires Storable(w)
    ensures Create(w.startTime, w.endTime, w.days, Some(w.offset)) == Some(w)
  {
    SortCompactUnchanged(w.days);
    hide TimesAccepted, SortCompact;
  }

  /** Through any sequence of creates and partial updates, exactly the storable windows are stored. */
  lemma StoredExactly(w: StoredWindow)
    ensures CanBeStored(w) <==> Storable(w)
  {
    hide Create, Storable;
    if CanBeStored(w) {
      var startTime, endTime, days, zone, changes :|
        Create(startTime, endTime, days, zone).Some?
        && w == AfterUpdates(Create(startTime, endTime, days, zone).value, changes);
      CreatedIsStorable(startTime, endTime, days, zone);
      UpdatesKeepStorable(Create(startTime, endTime, days, zone).value, changes);
    }
    if Storable(w) {
      StorableIsCreated(w);
      assert AfterUpdates(w, []) == w;
    }
  }

  // ----- the browser's reading

  const MILLISECOND := 1_000_000
  const DAY_MILLIS := 86_400_000
  const MINUTE_MILLIS := 60_000

  /** A JavaScript number that is an integer; None is NaN. Of the numeral syntaxes only signed
      decimal integers are modelled; no stored time has any other. */
  type JsNumber = Option<int>

  function Number(s: string): JsNumber {
    var trimmed := Trim(s, JsSpace);
    if trimmed == "" then Some(0) else Atoi(trimmed)
  }

  /** `h * 60 + m` of the first two parts of a split time. */
  function JsMinutes(h: JsNumber, m: JsNumber): JsNumber {
    if h.Some? && m.Some? then Some(h.value * 60 + m.value) else None
  }

  function HourPart(s: string): JsNumber {
    Number(Split(s, ':')[0])
  }

  function MinutePart(s: string): JsNumber {
    if |Split(s, ':')| > 1 then Number(Split(s, ':')[1]) else None
  }

  function StartMinutes(w: StoredWindow): JsNumber {
    JsMinutes(HourPart(w.startTime), MinutePart(w.startTime))
  }

  function EndMinutes(w: StoredWindow): JsNumber {
    var h, m := HourPart(w.endTime), MinutePart(w.endTime);
    if w.endTime == "24:00" || (h == Some(24) && m == Some(0)) then Some(1440) else JsMinutes(h, m)
  }

  /** NaN is neither below nor above anything. */
  predicate Below(a: JsNumber, b: JsNumber) {
    a.Some? && b.Some? && a.value < b.value
  }

  /** The test on the local weekday and minute. */
  predicate ActiveAtMinute(days: seq<int>, weekday: int, minute: int, start: JsNumber, end: JsNumber) {
    if start == Some(0) && (end == Some(0) || end == Some(1440)) then weekday in days
    else if Below(start, end) then
      weekday in days && !Below(Some(minute), start) && Below(Some(minute), end)
    else if Below(end, start) then
      || (weekday in days && !Below(Some(minute), start))
      || ((if weekday == 0 then 6 else weekday - 1) in days && Below(Some(minute), end))
    else false
  }

  /** Whether the window is active at a `Date`, a whole number of milliseconds. */
  predicate IsIgnoreWindowActive(w: StoredWindow, date: int) {
    var local := date + w.offset * 1000;
    w.days != []
    && ActiveAtMinute(w.days, Weekday(local / DAY_MILLIS), local % DAY_MILLIS / MINUTE_MILLIS,
                      StartMinutes(w), EndMinutes(w))
  }

  // ----- the two readings of a time

  /** The two validators in Go read every text alike. */
  lemma GoReadersAgree(s: string)
    ensures ParseAndValidateTimeOfDay(s).Some? == ParseTimeOfDay(s).Some?
    ensures ParseTimeOfDay(s).Some? ==>
              ParseAndValidateTimeOfDay(s) == Some(ParseTimeOfDay(s).value.0 * 60 + ParseTimeOfDay(s).value.1)
  {
  }

  lemma TwentyFour(h: string, m: string)
    requires ':' !in h && ':' !in m && h + ":" + m == "24:00"
    ensures Atoi(h) == Some(24) && Atoi(m) == Some(0)
  {
    var s := "24:00";
    assert s[|h|] == ':';
    assert h == s[..2] == "24" && m == s[3..] == "00";
    assert IsNumeral(h) && IsNumeral(m);
    TwoDigits(h);
    TwoDigits(m);
    hide Digits;
  }

  lemma TwoDigits(s: string)
    requires |s| == 2 && IsNumeral(s)
    ensures Digits(s) == (s[0] as int - '0' as int) * 10 + (s[1] as int - '0' as int)
  {
    assert IsDigit(s[0]) && IsDigit(s[1]);
    var first := s[..1];
    assert first[..0] == "" && Digits("") == 0;
    assert Digits(first) == s[0] as int - '0' as int;
  }

  /** A time that Go reads is padding around "h:m" without further white space or colon. */
  lemma TimeShape(s: string) returns (lead: string, h: string, m: string, tail: string)
    requires ParseTimeOfDay(s).Some?
    ensures s == lead + h + ":" + m + tail && All(lead, GoSpace) && All(tail, GoSpace)
    ensures Atoi(h) == Some(ParseTimeOfDay(s).value.0) && Atoi(m) == Some(ParseTimeOfDay(s).value.1)
  {
    hide Trim, Split, Atoi, IsNumeral;
    lead, tail := TrimSplits(s, GoSpace);
    var trimmed := Trim(s, GoSpace);
    SplitThenJoin(trimmed, ':');
    var parts := Split(trimmed, ':');
    if trimmed == "24:00" {
      assert "24" + [':'] + "00" == trimmed;
      SplitAtFirst("24", "00", ':');
      SplitWhole("00", ':');
    }
    h, m := parts[0], parts[1];
    assert parts[1..] == [m];
    assert trimmed == h + ":" + m;
    if trimmed == "24:00" {
      TwentyFour(h, m);
    }
  }

  /** The converse of TimeShape: padding is allowed around any "h:m" in range. */
  lemma ReadsPadded(lead: string, h: string, m: string, tail: string)
    requires All(lead, GoSpace) && All(tail, GoSpace)
    requires Atoi(h).Some? && Atoi(m).Some? && InRange(Atoi(h).value, Atoi(m).value)
    ensures ParseTimeOfDay(lead + h + ":" + m + tail) == Some((Atoi(h).value, Atoi(m).value))
  {
    AtoiCharacters(h);
    AtoiCharacters(m);
    var core := h + ":" + m;
    assert core[0] == h[0] && h[0] in h && core[|core| - 1] == m[|m| - 1] && m[|m| - 1] in m;
    TrimOf(lead, core, tail, GoSpace);
    assert lead + core + tail == lead + h + ":" + m + tail;
    SplitAtFirst(h, m, ':');
    SplitWhole(m, ':');
    if core == "24:00" {
      TwentyFour(h, m);
    }
  }

  predicate InRange(h: int, m: int) {
    (0 <= h <= 23 && 0 <= m <= 59) || (h == 24 && m == 0)
  }

  /** The text is white space around an hour, a colon and a minute. */
  ghost predicate Reads(s: string, h: int, m: int) {
    && InRange(h, m)
    && exists lead, hour, minute, tail ::
         s == lead + hour + ":" + minute + tail && All(lead, GoSpace) && All(tail, GoSpace)
         && Atoi(hour) == Some(h) && Atoi(minute) == Some(m)
  }

  /** The fetcher reads a time exactly where the text has that shape. */
  lemma ParsesExactly(s: string, h: nat, m: nat)
    ensures ParseTimeOfDay(s) == Some((h, m)) <==> Reads(s, h, m)
  {
    hide Atoi;
    if ParseTimeOfDay(s) == Some((h, m)) {
      var lead, hour, minute, tail := TimeShape(s);
      assert Reads(s, h, m);
    }
    hide ParseTimeOfDay;
    if Reads(s, h, m) {
      var lead, hour, minute, tail :| s == lead + hour + ":" + minute + tail && All(lead, GoSpace) && All(tail, GoSpace)
        && Atoi(hour) == Some(h as int) && Atoi(minute) == Some(m as int);
      ReadsPadded(lead, hour, minute, tail);
    }
  }

  ghost predicate ReadsAsTime(s: string) {
    exists h, m :: Reads(s, h, m)
  }

  ghost predicate Weekdays(days: seq<int>) {
    days != [] && forall d :: d in days ==> 0 <= d <= 6
  }

  /** The fetcher takes a stored window for one with hours exactly if both texts are times and there are
      days, all of them weekdays. */
  lemma ParsedWindow(w: StoredWindow)
    ensures Parse(w).hours.Some? <==> ReadsAsTime(w.startTime) && ReadsAsTime(w.endTime) && Weekdays(w.days)
  {
    TimesRead(w.startTime);
    TimesRead(w.endTime);
    assert Weekdays(w.days) <==> w.days != [] && ParseDaysOfWeek(w.days).Some? by {
      assert forall i :: 0 <= i < |w.days| ==> w.days[i] in w.days;
    }
    hide ParseTimeOfDay, ReadsAsTime, Weekdays, ParseDaysOfWeek;
  }

  /** Its times count from midnight; as a start, 24:00 is midnight. */
  lemma ParsedHours(w: StoredWindow, h: int, m: int, h': int, m': int)
    requires Weekdays(w.days) && Reads(w.startTime, h, m) && Reads(w.endTime, h', m')
    ensures Parse(w).hours.Some?
    ensures var hours := Parse(w).hours.value;
            && hours.start == (if h == 24 then 0 else h * 60 + m) && hours.end == h' * 60 + m'
            && hours.days == w.days && Parse(w).offset == w.offset
  {
    TimesRead(w.startTime);
    TimesRead(w.endTime);
    ParsedWindow(w);
    hide ParseTimeOfDay, Reads;
  }

  lemma TimesRead(s: string)
    ensures ParseTimeOfDay(s).Some? <==> ReadsAsTime(s)
    ensures forall h, m :: Reads(s, h, m) ==> InRange(h, m) && ParseTimeOfDay(s) == Some((h as nat, m as nat))
  {
    if ParseTimeOfDay(s).Some? {
      ParsesExactly(s, ParseTimeOfDay(s).value.0, ParseTimeOfDay(s).value.1);
    }
    forall h, m | Reads(s, h, m) ensures InRange(h, m) && ParseTimeOfDay(s) == Some((h as nat, m as nat)) {
      ParsesExactly(s, h, m);
    }
  }

  // ----- what one request stores

  /** Both texts are times, the window does not start at 24:00, and it starts and ends at the same time
      only at midnight. */
  ghost predicate GoodTimes(startTime: string, endTime: string) {
    exists h, m, h', m' :: Reads(startTime, h, m) && Reads(endTime, h', m')
      && h != 24 && ((h, m) == (h', m') ==> (h, m) == (0, 0))
  }

  lemma AcceptedTimes(startTime: string, endTime: string)
    ensures TimesAccepted(startTime, endTime) <==>
              && ParseTimeOfDay(startTime).Some? && ParseTimeOfDay(endTime).Some?
              && ParseTimeOfDay(startTime).value.0 != 24
              && (ParseTimeOfDay(startTime) == ParseTimeOfDay(endTime) ==> ParseTimeOfDay(startTime) == Some((0, 0)))
  {
    GoReadersAgree(startTime);
    GoReadersAgree(endTime);
    hide ParseTimeOfDay, ParseAndValidateTimeOfDay;
  }

  /** A text that reads as a time reads as one time only. */
  lemma ReadsAs(s: string)
    ensures forall h, m :: Reads(s, h, m) ==> h >= 0 && m >= 0 && ParseTimeOfDay(s) == Some((h, m))
    ensures ParseTimeOfDay(s).Some? ==> Reads(s, ParseTimeOfDay(s).value.0, ParseTimeOfDay(s).value.1)
  {
    if ParseTimeOfDay(s).Some? {
      ParsesExactly(s, ParseTimeOfDay(s).value.0, ParseTimeOfDay(s).value.1);
    }
    hide ParseTimeOfDay;
    forall h, m | Reads(s, h, m) ensures h >= 0 && m >= 0 && ParseTimeOfDay(s) == Some((h, m)) {
      ParsesExactly(s, h, m);
    }
  }

  lemma GoodTimesAre(startTime: string, endTime: string)
    ensures TimesAccepted(startTime, endTime) <==> GoodTimes(startTime, endTime)
  {
    AcceptedTimes(startTime, endTime);
    ReadsAs(startTime);
    ReadsAs(endTime);
    hide ParseTimeOfDay, TimesAccepted, Reads;
    if TimesAccepted(startTime, endTime) {
      var (h, m) := ParseTimeOfDay(startTime).value;
      var (h', m') := ParseTimeOfDay(endTime).value;
      assert Reads(startTime, h, m) && Reads(endTime, h', m');
    }
  }

  /** The days stored are those requested, once each and in increasing order. */
  ghost predicate SameDays(stored: seq<int>, requested: seq<int>) {
    StrictlyIncreasing(stored) && forall d :: d in stored <==> d in requested
  }

  ghost predicate GoodDays(days: seq<int>) {
    days != [] && forall d :: d in days ==> 0 <= d <= 6
  }

  /** A new window is rejected exactly for its times, its days or its zone, and otherwise stored as
      requested. */
  lemma CreateStores(startTime: string, endTime: string, days: seq<int>, zone: Option<int>)
    ensures Create(startTime, endTime, days, zone).Some? <==>
              GoodTimes(startTime, endTime) && GoodDays(days) && zone.Some?
    ensures Create(startTime, endTime, days, zone).Some? ==>
              var w := Create(startTime, endTime, days, zone).value;
              w.startTime == startTime && w.endTime == endTime && SameDays(w.days, days) && Some(w.offset) == zone
  {
    GoodTimesAre(startTime, endTime);
    hide TimesAccepted, GoodTimes, SortCompact;
  }

  /** An update is rejected exactly when the times it leads to, the days it gives or the zone it gives
      are no good. */
  lemma UpdateRejects(existing: StoredWindow, change: Change)
    ensures Update(existing, change).None? <==>
              || !GoodTimes(if change.startTime.Some? then change.startTime.value else existing.startTime,
                            if change.endTime.Some? then change.endTime.value else existing.endTime)
              || (change.days.Some? && !GoodDays(change.days.value))
              || change.zone == Some(None)
  {
    hide TimesAccepted, GoodTimes, NormalizeAndValidateDaysOfWeek, StrictlyIncreasing;
    GoodTimesAre(if change.startTime.Some? then change.startTime.value else existing.startTime,
                 if change.endTime.Some? then change.endTime.value else existing.endTime);
  }

  /** Otherwise every field it gives is stored as requested and every other stays. */
  lemma UpdateStores(existing: StoredWindow, change: Change, w: StoredWindow)
    requires Update(existing, change) == Some(w)
    ensures if change.startTime.Some? then w.startTime == change.startTime.value else w.startTime == existing.startTime
    ensures if change.endTime.Some? then w.endTime == change.endTime.value else w.endTime == existing.endTime
    ensures if change.days.Some? then SameDays(w.days, change.days.value) else w.days == existing.days
    ensures if change.zone.Some? then Some(w.offset) == change.zone.value else w.offset == existing.offset
  {
    hide TimesAccepted, SortCompact;
  }

  /** A sequence of updates is one after another: what the first stores, or what was there if it is
      rejected, is what the others change. */
  lemma {:induction false} UpdatesInTurn(w: StoredWindow, changes: seq<Change>, change: Change)
    ensures AfterUpdates(w, changes + [change]) ==
              var before := AfterUpdates(w, changes);
              if Update(before, change).Some? then Update(before, change).value else before
    decreases |changes|
  {
    hide Update;
    if changes == [] {
      assert ([] + [change])[1..] == [];
    } else {
      assert (changes + [change])[1..] == changes[1..] + [change];
      var updated := Update(w, changes[0]);
      UpdatesInTurn(if updated.Some? then updated.value else w, changes[1..], change);
    }
  }

  lemma NumberOfPadded(lead: string, core: string, tail: string)
    requires All(lead, GoSpace) && All(tail, GoSpace) && NEXT_LINE !in lead && NEXT_LINE !in tail
    requires Atoi(core).Some?
    ensures Number(lead + core + tail) == Atoi(core)
  {
    AtoiCharacters(core);
    assert core[0] in core && core[|core| - 1] in core;
    TrimOf(lead, core, tail, JsSpace);
  }

  /** JavaScript does not strip U+0085, and no numeral contains it. */
  lemma NumberOfNextLine(s: string)
    requires NEXT_LINE in s
    ensures Number(s) == None
  {
    var lead, tail := TrimSplits(s, JsSpace);
    var trimmed := Trim(s, JsSpace);
    assert NEXT_LINE in trimmed;
    if Atoi(trimmed).Some? {
      AtoiCharacters(trimmed);
    }
  }

  /** The browser reads every time that Go reads alike, except one with U+0085 in its padding,
      of which it can read no number. */
  lemma JsReads(s: string)
    requires ParseTimeOfDay(s).Some?
    ensures NEXT_LINE !in s ==>
              HourPart(s) == Some(ParseTimeOfDay(s).value.0) && MinutePart(s) == Some(ParseTimeOfDay(s).value.1)
    ensures NEXT_LINE in s ==> HourPart(s).None? || MinutePart(s).None?
  {
    var lead, h, m, tail := TimeShape(s);
    AtoiCharacters(h);
    AtoiCharacters(m);
    assert s == (lead + h) + [':'] + (m + tail);
    SplitAtFirst(lead + h, m + tail, ':');
    SplitWhole(m + tail, ':');
    assert Split(s, ':') == [lead + h, m + tail];
    if NEXT_LINE in s {
      if NEXT_LINE in lead + h {
        NumberOfNextLine(lead + h);
      } else {
        NumberOfNextLine(m + tail);
      }
    } else {
      NumberOfPadded(lead, h, "");
      NumberOfPadded("", m, tail);
      assert lead + h + "" == lead + h && "" + m + tail == m + tail;
    }
  }

  // ----- the two predicates

  /** The test on nanoseconds and the test on whole minutes give the same answer. */
  lemma MinuteTestAgrees(t: int, h: Hours, offset: int)
    ensures var local := t / MILLISECOND + offset * 1000;
            ActiveUntil(t, h, offset).Some? ==
            ActiveAtMinute(h.days, Weekday(local / DAY_MILLIS), local % DAY_MILLIS / MINUTE_MILLIS,
                           Some(h.start), Some(h.end))
  {
    var local := t / MILLISECOND + offset * 1000;
    var day := local / DAY_MILLIS;
    DayNumberIs(t + offset * SECOND, day);
    var minute := local % DAY_MILLIS / MINUTE_MILLIS;
    var midnight := day * DAY - offset * SECOND;
    assert midnight + minute * MINUTE <= t < midnight + (minute + 1) * MINUTE;
  }

  lemma StorableParses(w: StoredWindow)
    requires Storable(w)
    ensures ParseTimeOfDay(w.startTime).Some? && ParseTimeOfDay(w.endTime).Some?
    ensures var (sh, sm) := ParseTimeOfDay(w.startTime).value;
            var (eh, em) := ParseTimeOfDay(w.endTime).value;
            var h := Parse(w).hours;
            && h.Some? && h.value.days == w.days && h.value.start == sh * 60 + sm && h.value.end == eh * 60 + em
            && (h.value.start == h.value.end ==> h.value.start == 0)
  {
    GoReadersAgree(w.startTime);
    GoReadersAgree(w.endTime);
    assert forall i :: 0 <= i < |w.days| ==> w.days[i] in w.days;
  }

  /** Every window that can be stored is active at some instant. */
  lemma ActiveSometime(w: StoredWindow) returns (t: int)
    requires Storable(w)
    ensures IsTimeInIgnoreWindow(t, Parse(w)).Some?
  {
    StorableParses(w);
    var h := Parse(w).hours.value;
    var day := w.days[0] - 4;
    assert w.days[0] == h.days[0];
    t := day * DAY - w.offset * SECOND + h.start * MINUTE;
    DayNumberIs(t + w.offset * SECOND, day);
  }

  ghost predicate SameAnswer(w: StoredWindow, t: int) {
    IsIgnoreWindowActive(w, t / MILLISECOND) <==> IsTimeInIgnoreWindow(t, Parse(w)).Some?
  }

  lemma MidnightReads()
    ensures ParseTimeOfDay("24:00") == Some((24, 0))
  {
    TrimOf("", "24:00", "", GoSpace);
    assert "" + "24:00" + "" == "24:00";
  }

  /** The browser computes the fetcher's minutes, or NaN for a time with U+0085. */
  lemma BrowserMinutes(w: StoredWindow)
    requires Storable(w)
    ensures Parse(w).hours.Some?
    ensures NEXT_LINE !in w.startTime && NEXT_LINE !in w.endTime ==>
              StartMinutes(w) == Some(Parse(w).hours.value.start) && EndMinutes(w) == Some(Parse(w).hours.value.end)
    ensures NEXT_LINE in w.startTime || NEXT_LINE in w.endTime ==> StartMinutes(w).None? || EndMinutes(w).None?
  {
    hide ParseTimeOfDay, Parse, HourPart, MinutePart, Storable;
    MidnightReads();
    StorableParses(w);
    JsReads(w.startTime);
    JsReads(w.endTime);
  }

  lemma SameWithoutNextLine(w: StoredWindow, t: int)
    requires Storable(w) && NEXT_LINE !in w.startTime && NEXT_LINE !in w.endTime
    ensures SameAnswer(w, t)
  {
    StorableParses(w);
    BrowserMinutes(w);
    MinuteTestAgrees(t, Parse(w).hours.value, w.offset);
    hide ParseTimeOfDay, Parse, ActiveUntil, ActiveAtMinute, StartMinutes, EndMinutes, Storable;
  }

  /** For every window the API can store, the fetcher and the browser agree at every instant
      if and only if neither time carries a U+0085 in its padding: Go trims that character,
      JavaScript reads NaN and calls the window inactive for ever. */
  lemma PredicatesAgree(w: StoredWindow)
    requires CanBeStored(w)
    ensures (forall t :: SameAnswer(w, t)) <==> NEXT_LINE !in w.startTime && NEXT_LINE !in w.endTime
  {
    StoredExactly(w);
    if NEXT_LINE !in w.startTime && NEXT_LINE !in w.endTime {
      forall t ensures SameAnswer(w, t) {
        SameWithoutNextLine(w, t);
      }
    } else {
      var t := ActiveSometime(w);
      BrowserMinutes(w);
      hide Parse, IsTimeInIgnoreWindow, StartMinutes, EndMinutes;
      assert !SameAnswer(w, t);
    }
  }

  /** Padding a start time with U+0085 changes nothing for Go. */
  lemma PaddedStart(s: string)
    requires ParseTimeOfDay(s).Some? && ParseTimeOfDay(s).value.0 <= 23
    ensures ParseTimeOfDay(s + [NEXT_LINE]) == ParseTimeOfDay(s)
  {
    var lead, h, m, tail := TimeShape(s);
    ReadsPadded(lead, h, m, tail + [NEXT_LINE]);
    assert s + [NEXT_LINE] == lead + h + ":" + m + (tail + [NEXT_LINE]);
  }

  /** Every stored window has a twin, also stored and equal for the fetcher, that the browser
      calls inactive for ever: its start time ends in U+0085. */
  lemma NextLineTwin(w: StoredWindow, twin: StoredWindow)
    requires Storable(w) && twin == w.(startTime := w.startTime + [NEXT_LINE])
    ensures CanBeStored(twin) && Parse(twin) == Parse(w)
    ensures forall date :: !IsIgnoreWindowActive(twin, date)
  {
    hide ParseTimeOfDay, ParseAndValidateTimeOfDay, CanBeStored, StartMinutes, EndMinutes;
    StorableParses(w);
    GoReadersAgree(w.startTime);
    PaddedStart(w.startTime);
    GoReadersAgree(twin.startTime);
    assert Storable(twin);
    assert NEXT_LINE in twin.startTime;
    BrowserMinutes(twin);
    StoredExactly(twin);
  }
}
