/** When a feed is fetched next: cmd/feed-reader/scheduler.go:56-128 and
    cmd/feed-reader/fetcher_service.go:146-204, 314-368. */
module NextFetch {
  import opened Wrappers
  import opened Calendar
  import opened WindowSweep
  import opened IgnoreWindow

  const MIN_INTERVAL := 900 * SECOND
  const MAX_INTERVAL := DAY

  predicate Descending(dates: seq<int>) {
    forall i, j :: 0 <= i < j < |dates| ==> dates[i] >= dates[j]
  }

  function InsertDescending(date: int, dates: seq<int>): (r: seq<int>)
    ensures |r| == |dates| + 1
  {
    if dates == [] || date >= dates[0] then [date] + dates
    else [dates[0]] + InsertDescending(date, dates[1..])
  }

  /** The library's sort, newest first. */
  function SortDescending(dates: seq<int>): (r: seq<int>)
    ensures |r| == |dates|
  {
    if dates == [] then [] else InsertDescending(dates[0], SortDescending(dates[1..]))
  }

  lemma {:induction false} InsertPermutes(date: int, dates: seq<int>)
    ensures multiset(InsertDescending(date, dates)) == multiset(dates) + multiset{date}
  {
    if dates != [] && date < dates[0] {
      InsertPermutes(date, dates[1..]);
      assert dates == [dates[0]] + dates[1..];
    }
  }

  lemma {:induction false} InsertedAtMost(date: int, dates: seq<int>, bound: int)
    requires date <= bound && forall i :: 0 <= i < |dates| ==> dates[i] <= bound
    ensures forall i :: 0 <= i < |InsertDescending(date, dates)| ==> InsertDescending(date, dates)[i] <= bound
  {
    if dates != [] && date < dates[0] {
      InsertedAtMost(date, dates[1..], bound);
    }
  }

  lemma {:induction false} InsertKeepsOrder(date: int, dates: seq<int>)
    requires Descending(dates)
    ensures Descending(InsertDescending(date, dates))
  {
    if dates != [] && date < dates[0] {
      InsertKeepsOrder(date, dates[1..]);
      InsertedAtMost(date, dates[1..], dates[0]);
    }
  }

  lemma {:induction false} SortsDescending(dates: seq<int>)
    ensures Descending(SortDescending(dates)) && multiset(SortDescending(dates)) == multiset(dates)
  {
    if dates != [] {
      SortsDescending(dates[1..]);
      InsertKeepsOrder(dates[0], SortDescending(dates[1..]));
      InsertPermutes(dates[0], SortDescending(dates[1..]));
      assert dates == [dates[0]] + dates[1..];
    }
  }

  function Clamp(x: int, lo: int, hi: int): int {
    if x < lo then lo else if x > hi then hi else x
  }

  /** Durations divide toward zero; the dividend here is never negative. */
  function CalculateAdaptiveInterval(pubDates: seq<int>, default: int, lo: int, hi: int): int {
    if |pubDates| < 2 then default
    else
      var dates := SortDescending(pubDates);
      var count := if |dates| < 10 then |dates| else 10;
      Clamp((dates[0] - dates[count - 1]) / (count - 1), lo, hi)
  }

  /** One bucket of past updates, by UTC weekday and hour. */
  datatype Bucket = Bucket(dayOfWeek: int, hourOfDay: int, count: nat)

  function HourOfDay(t: int): int {
    (t - DayNumber(t) * DAY) / (3600 * SECOND)
  }

  /** The hour that has begun last since midnight. */
  lemma HourOfDayIs(t: int)
    ensures 0 <= HourOfDay(t) < 24
    ensures var midnight := DayNumber(t) * DAY;
            midnight + HourOfDay(t) * 3600 * SECOND <= t < midnight + (HourOfDay(t) + 1) * 3600 * SECOND
  {
    DayBounds(t);
  }

  /** The count of the last bucket for a weekday and hour. */
  function CountAt(distribution: seq<Bucket>, day: int, hour: int): nat {
    if distribution == [] then 0
    else
      var last := distribution[|distribution| - 1];
      if last.dayOfWeek == day && last.hourOfDay == hour then last.count
      else CountAt(distribution[..|distribution| - 1], day, hour)
  }

  predicate IsFor(bucket: Bucket, day: int, hour: int) {
    bucket.dayOfWeek == day && bucket.hourOfDay == hour
  }

  lemma {:induction false} CountAtLast(distribution: seq<Bucket>, day: int, hour: int, i: nat)
    requires i < |distribution| && IsFor(distribution[i], day, hour)
    requires forall j :: i < j < |distribution| ==> !IsFor(distribution[j], day, hour)
    ensures CountAt(distribution, day, hour) == distribution[i].count
  {
    if i < |distribution| - 1 {
      CountAtLast(distribution[..|distribution| - 1], day, hour, i);
    }
  }

  lemma {:induction false} CountAtNone(distribution: seq<Bucket>, day: int, hour: int)
    requires forall j :: 0 <= j < |distribution| ==> !IsFor(distribution[j], day, hour)
    ensures CountAt(distribution, day, hour) == 0
  {
    if distribution != [] {
      CountAtNone(distribution[..|distribution| - 1], day, hour);
    }
  }

  predicate IsGreatestCount(distribution: seq<Bucket>, greatest: nat) {
    && (forall i :: 0 <= i < |distribution| ==> distribution[i].count <= greatest)
    && (greatest == 0 || exists i :: 0 <= i < |distribution| && distribution[i].count == greatest)
  }

  /** A peak: at least two updates, and at least half of the fullest bucket. */
  ghost predicate IsPeak(distribution: seq<Bucket>, t: int) {
    var count := CountAt(distribution, Weekday(DayNumber(t)), HourOfDay(t));
    count >= 2 && forall i :: 0 <= i < |distribution| ==> distribution[i].count <= 2 * count
  }

  method AdjustIntervalForPeak(distribution: seq<Bucket>, base: int, lo: int, nextFetchTime: int)
    returns (interval: int)
    requires base >= 0
    ensures interval == if IsPeak(distribution, nextFetchTime) then (if base / 2 < lo then lo else base / 2) else base
  {
    if |distribution| == 0 {
      return base;
    }
    var day, hour := Weekday(DayNumber(nextFetchTime)), HourOfDay(nextFetchTime);
    var currentCount, maxCount := 0, 0;
    for i := 0 to |distribution|
      invariant currentCount == CountAt(distribution[..i], day, hour)
      invariant IsGreatestCount(distribution[..i], maxCount)
    {
      var row := distribution[i];
      assert distribution[..i + 1][..i] == distribution[..i];
      assert forall k :: 0 <= k < i ==> distribution[..i + 1][k] == distribution[..i][k];
      if row.dayOfWeek == day && row.hourOfDay == hour {
        currentCount := row.count;
      }
      if row.count > maxCount {
        maxCount := row.count;
        assert distribution[..i + 1][i].count == maxCount;
      }
    }
    assert distribution[..|distribution|] == distribution;
    if currentCount == 0 {
      return base;
    }
    // currentCount >= maxCount * 0.5, on counts that a float64 holds exactly
    if currentCount >= 2 && 2 * currentCount >= maxCount {
      var adjusted := base / 2;
      return if adjusted < lo then lo else adjusted;
    }
    return base;
  }

  /** The interval until the next fetch. `recent` and `distribution` are None when their query
      fails; `clock` is the time read for each new item without a publication date. */
  method GetNextFetchInterval(recent: Option<seq<int>>, newItems: seq<Option<int>>, clock: int -> int,
                              distribution: Option<seq<Bucket>>, fetchInterval: int, now: int)
    returns (interval: int)
    requires MIN_INTERVAL <= fetchInterval <= MAX_INTERVAL
    ensures MIN_INTERVAL <= interval <= MAX_INTERVAL
    ensures recent.Some? ==>
              var dates := recent.value + Dates(newItems, clock);
              var base := CalculateAdaptiveInterval(dates, fetchInterval, MIN_INTERVAL, MAX_INTERVAL);
              interval == if distribution.Some? && IsPeak(distribution.value, now + base)
                          then (if base / 2 < MIN_INTERVAL then MIN_INTERVAL else base / 2) else base
    ensures recent.None? ==> interval == fetchInterval
  {
    hide SortDescending, IsPeak;
    if recent.None? {
      return fetchInterval;
    }
    var pubDates := recent.value;
    for i := 0 to |newItems|
      invariant pubDates == recent.value + Dates(newItems[..i], clock)
    {
      assert newItems[..i + 1][..i] == newItems[..i];
      pubDates := pubDates + [if newItems[i].Some? then newItems[i].value else clock(i)];
    }
    assert newItems[..|newItems|] == newItems;
    var base := CalculateAdaptiveInterval(pubDates, fetchInterval, MIN_INTERVAL, MAX_INTERVAL);
    if distribution.None? {
      return base;
    }
    interval := AdjustIntervalForPeak(distribution.value, base, MIN_INTERVAL, now + base);
  }

  /** The publication date of each item, or the time read for it. */
  function Dates(items: seq<Option<int>>, clock: int -> int): (dates: seq<int>)
    ensures |dates| == |items|
    ensures forall i :: 0 <= i < |items| ==> match items[i] case Some(date) => dates[i] == date
                                                            case None => dates[i] == clock(i)
  {
    if items == [] then []
    else
      var last := |items| - 1;
      Dates(items[..last], clock) + [if items[last].Some? then items[last].value else clock(last)]
  }

  // ----- the adaptive interval is the mean gap between the newest dates

  lemma SameNewest(a: seq<int>, b: seq<int>)
    requires Descending(a) && Descending(b) && multiset(a) == multiset(b) && a != []
    ensures b != [] && a[0] == b[0]
  {
    assert a[0] in multiset(b);
    assert b[0] in multiset(a);
  }

  lemma TailDescending(a: seq<int>)
    requires Descending(a) && a != []
    ensures Descending(a[1..]) && multiset(a[1..]) == multiset(a) - multiset{a[0]}
  {
    assert a == [a[0]] + a[1..];
  }

  lemma {:induction false} SortedUnique(a: seq<int>, b: seq<int>)
    requires Descending(a) && Descending(b) && multiset(a) == multiset(b)
    ensures a == b
  {
    hide Descending;
    if a != [] {
      SameNewest(a, b);
      TailDescending(a);
      TailDescending(b);
      SortedUnique(a[1..], b[1..]);
      assert a == [a[0]] + a[1..] && b == [b[0]] + b[1..];
    } else if b != [] {
      SameNewest(b, a);
    }
  }

  /** The interval depends only on the multiset of dates. */
  lemma OrderIsIrrelevant(a: seq<int>, b: seq<int>, default: int, lo: int, hi: int)
    requires multiset(a) == multiset(b)
    ensures CalculateAdaptiveInterval(a, default, lo, hi) == CalculateAdaptiveInterval(b, default, lo, hi)
  {
    assert |a| == |multiset(a)| == |b|;
    SortsDescending(a);
    SortsDescending(b);
    SortedUnique(SortDescending(a), SortDescending(b));
  }

  /** `newest` are the at most ten newest of the dates, newest first, and `older` the others. */
  ghost predicate AreNewest(newest: seq<int>, older: seq<int>, dates: seq<int>) {
    && Descending(newest) && multiset(newest) + multiset(older) == multiset(dates)
    && |newest| == (if |dates| < 10 then |dates| else 10)
    && forall i, j :: 0 <= i < |newest| && 0 <= j < |older| ==> older[j] <= newest[i]
  }

  function SumOfGaps(dates: seq<int>): int {
    if |dates| < 2 then 0 else dates[0] - dates[1] + SumOfGaps(dates[1..])
  }

  lemma {:induction false} GapsTelescope(dates: seq<int>)
    requires dates != []
    ensures SumOfGaps(dates) == dates[0] - dates[|dates| - 1]
  {
    if |dates| >= 2 {
      GapsTelescope(dates[1..]);
    }
  }

  lemma DescendingJoin(a: seq<int>, b: seq<int>)
    requires Descending(a) && Descending(b)
    requires forall i, j :: 0 <= i < |a| && 0 <= j < |b| ==> b[j] <= a[i]
    ensures Descending(a + b)
  {
  }

  lemma SortedElements(s: seq<int>)
    ensures forall j :: 0 <= j < |SortDescending(s)| ==> SortDescending(s)[j] in s
  {
    SortsDescending(s);
    forall j | 0 <= j < |SortDescending(s)| ensures SortDescending(s)[j] in s {
      assert SortDescending(s)[j] in multiset(s);
    }
  }

  lemma NewestIsPrefix(newest: seq<int>, older: seq<int>, dates: seq<int>)
    requires AreNewest(newest, older, dates)
    ensures |newest| <= |SortDescending(dates)| == |dates| && newest == SortDescending(dates)[..|newest|]
  {
    hide SortDescending;
    var sorted := SortDescending(older);
    SortedElements(older);
    SortsDescending(older);
    SortsDescending(dates);
    DescendingJoin(newest, sorted);
    hide Descending;
    assert multiset(newest + sorted) == multiset(dates);
    SortedUnique(newest + sorted, SortDescending(dates));
    assert |multiset(newest + sorted)| == |multiset(dates)|;
  }

  /** With fewer than two dates the interval is the default. Otherwise it is the mean of the gaps
      between the newest ten, unless that lies beyond a limit. */
  lemma IntervalIsMeanGap(newest: seq<int>, older: seq<int>, dates: seq<int>, default: int, lo: int, hi: int)
    requires AreNewest(newest, older, dates)
    ensures |dates| < 2 ==> CalculateAdaptiveInterval(dates, default, lo, hi) == default
    ensures |dates| >= 2 ==>
              var mean := SumOfGaps(newest) / (|newest| - 1);
              var interval := CalculateAdaptiveInterval(dates, default, lo, hi);
              && (mean < lo ==> interval == lo) && (lo <= mean <= hi ==> interval == mean)
              && (mean >= lo && mean > hi ==> interval == hi)
  {
    hide SortDescending, Descending, SumOfGaps;
    NewestIsPrefix(newest, older, dates);
    if |dates| >= 2 {
      GapsTelescope(newest);
    }
  }

  // ----- the stored next fetch time

  /** time.RFC3339 drops fractions of a second. */
  function WholeSecond(t: int): int {
    t / SECOND * SECOND
  }

  /** The next fetch time markFetched stores; `windows` is None when they cannot be read. */
  method MarkFetched(now: int, interval: int, windows: Option<seq<Window>>) returns (nextFetch: int)
    ensures nextFetch == WholeSecond(match windows
                                     case None => now + interval
                                     case Some(ws) => Advanced(now + interval, Activities(ws), MAX_ITERATIONS))
  {
    var nextFetchTime := now + interval;
    if windows.Some? && |windows.value| > 0 {
      nextFetchTime := AdjustNextFetchForIgnoreWindows(nextFetchTime, windows.value);
    }
    nextFetch := WholeSecond(nextFetchTime);
  }

  lemma SecondBounds(t: int)
    ensures WholeSecond(t) <= t < WholeSecond(t) + SECOND && WholeSecond(t) % SECOND == 0
  {}

  /** Cutting off fractions does not carry an instant over the beginning of a second. */
  lemma SameSide(t: int, second: int)
    ensures t >= second * SECOND <==> WholeSecond(t) >= second * SECOND
  {}

  /** Windows begin and end on whole seconds. */
  lemma ActiveAllSecond(t: int, h: Hours, offset: int)
    ensures ActiveUntil(WholeSecond(t), h, offset).Some? == ActiveUntil(t, h, offset).Some?
  {
    var day := DayNumber(t + offset * SECOND);
    var midnight := day * 86400 - offset;
    SameSide(t, midnight);
    SameSide(t, midnight + 86400);
    SameSide(t, midnight + h.start * 60);
    SameSide(t, midnight + h.end * 60);
    hide WholeSecond;
    DayBounds(t + offset * SECOND);
    DayNumberIs(WholeSecond(t) + offset * SECOND, day);
  }

  lemma BlockedAllSecond(t: int, windows: seq<Window>)
    ensures Blocked(WholeSecond(t), Activities(windows)) <==> Blocked(t, Activities(windows))
  {
    forall k | 0 <= k < |windows|
      ensures Activities(windows)[k](WholeSecond(t)).Some? == Activities(windows)[k](t).Some?
    {
      if windows[k].hours.Some? {
        ActiveAllSecond(t, windows[k].hours.value, windows[k].offset);
      }
    }
  }

  /** `stored` is a whole second outside all windows, in which falls the earliest instant from `t`
      on that is outside all windows. */
  ghost predicate FirstFreeSecond(stored: int, t: int, windows: seq<Window>) {
    && stored % SECOND == 0 && !Blocked(stored, Activities(windows))
    && exists free :: t <= free && stored <= free < stored + SECOND && !Blocked(free, Activities(windows))
                      && BlockedThroughout(t, free, Activities(windows))
  }

  lemma AdvancedToFree(t: int, windows: seq<Window>)
    requires |windows| <= 71 && !CoverEverything(Activities(windows))
    ensures FirstFreeSecond(WholeSecond(Advanced(t, Activities(windows), MAX_ITERATIONS)), t, windows)
  {
    var free := Advanced(t, Activities(windows), MAX_ITERATIONS);
    SecondBounds(free);
    hide Advanced, Blocked, Activities, CoverEverything, WindowDays, WholeSecond;
    SevenDaysEach(windows);
    AdjustedIsEarliestFree(t, windows);
    BlockedAllSecond(free, windows);
  }

  /** With up to 71 windows that leave some instant free, the stored time is later than now and the
      whole second of the earliest free instant after the interval. */
  lemma StoredTimeIsFree(now: int, interval: int, windows: seq<Window>)
    requires |windows| <= 71 && !CoverEverything(Activities(windows)) && interval >= MIN_INTERVAL
    ensures var stored := WholeSecond(Advanced(now + interval, Activities(windows), MAX_ITERATIONS));
            stored > now && FirstFreeSecond(stored, now + interval, windows)
  {
    hide Advanced, Blocked, Activities, CoverEverything, WindowDays, WholeSecond, BlockedThroughout;
    AdvancedToFree(now + interval, windows);
  }

  // ----- which due feeds are fetched

  /** A feed that is due; `windows` is None when its windows cannot be read. */
  datatype DueFeed = DueFeed(id: string, windows: Option<seq<Window>>)

  /** A postponement written instead of a fetch. */
  datatype Postponed = Postponed(id: string, nextFetch: int)

  ghost predicate InWindow(feed: DueFeed, now: int) {
    feed.windows.Some? && Blocked(now, Activities(feed.windows.value))
  }

  /** Neither unreadable nor inside a window. */
  ghost predicate FetchedNow(feed: DueFeed, now: int) {
    feed.windows.Some? && !Blocked(now, Activities(feed.windows.value))
  }

  ghost function Fetched(feeds: seq<DueFeed>, now: int): seq<string> {
    if feeds == [] then []
    else
      var last := feeds[|feeds| - 1];
      Fetched(feeds[..|feeds| - 1], now) + (if FetchedNow(last, now) then [last.id] else [])
  }

  ghost function Delayed(feeds: seq<DueFeed>, now: int): seq<Postponed> {
    if feeds == [] then []
    else
      var last := feeds[|feeds| - 1];
      Delayed(feeds[..|feeds| - 1], now) +
      (if InWindow(last, now)
       then [Postponed(last.id, WholeSecond(Advanced(now, Activities(last.windows.value), MAX_ITERATIONS)))]
       else [])
  }

  /** Being moved at all is the same as being blocked. */
  lemma MovedIffBlocked(t: int, windows: seq<Window>)
    ensures Advanced(t, Activities(windows), MAX_ITERATIONS) > t <==> Blocked(t, Activities(windows))
  {
    WindowsAreRegular(windows);
    var activities := Activities(windows);
    var end := FurthestEnd(t, activities, |activities|);
    if end.Some? {
      FurthestEndIsLater(t, activities, AllEndPositions(windows));
      SkipsOnlyBlocked(end.value, activities, AllEndPositions(windows), MAX_ITERATIONS - 1);
    }
  }

  /** A due feed is fetched, postponed because it is inside a window, or passed over because its
      windows cannot be read. One `now` stands for the clock readings of the whole pass. */
  method FetchAllFeeds(feeds: seq<DueFeed>, now: int) returns (tasks: seq<string>, jobs: seq<Postponed>)
    ensures tasks == Fetched(feeds, now) && jobs == Delayed(feeds, now)
  {
    tasks, jobs := [], [];
    for i := 0 to |feeds|
      invariant tasks == Fetched(feeds[..i], now) && jobs == Delayed(feeds[..i], now)
    {
      var row := feeds[i];
      assert feeds[..i + 1][..i] == feeds[..i];
      if row.windows.None? {
        continue;
      }
      if |row.windows.value| > 0 {
        var adjusted := AdjustNextFetchForIgnoreWindows(now, row.windows.value);
        MovedIffBlocked(now, row.windows.value);
        if adjusted > now {
          jobs := jobs + [Postponed(row.id, WholeSecond(adjusted))];
          continue;
        }
      }
      tasks := tasks + [row.id];
    }
    assert feeds[..|feeds|] == feeds;
  }

  lemma {:induction false} FetchedOnlyOutsideWindows(feeds: seq<DueFeed>, now: int, id: string)
    ensures id in Fetched(feeds, now) <==>
              exists i :: 0 <= i < |feeds| && feeds[i].id == id && FetchedNow(feeds[i], now)
  {
    hide FetchedNow;
    if feeds != [] {
      var front := feeds[..|feeds| - 1];
      FetchedOnlyOutsideWindows(front, now, id);
      if exists i :: 0 <= i < |front| && front[i].id == id && FetchedNow(front[i], now) {
        var i :| 0 <= i < |front| && front[i].id == id && FetchedNow(front[i], now);
        assert feeds[i] == front[i];
      }
    }
  }

  ghost predicate IsPostponement(job: Postponed, feed: DueFeed, now: int) {
    && job.id == feed.id && InWindow(feed, now)
    && job.nextFetch == WholeSecond(Advanced(now, Activities(feed.windows.value), MAX_ITERATIONS))
  }

  lemma {:induction false} PostponedOnlyInWindows(feeds: seq<DueFeed>, now: int, job: Postponed)
    ensures job in Delayed(feeds, now) <==> exists i :: 0 <= i < |feeds| && IsPostponement(job, feeds[i], now)
  {
    hide InWindow, WholeSecond;
    if feeds != [] {
      var front := feeds[..|feeds| - 1];
      PostponedOnlyInWindows(front, now, job);
      if exists i :: 0 <= i < |front| && IsPostponement(job, front[i], now) {
        var i :| 0 <= i < |front| && IsPostponement(job, front[i], now);
        assert feeds[i] == front[i];
      }
    }
  }

  /** Every postponement is of a feed inside its windows, to the first second outside them. */
  lemma PostponedUntilFree(feeds: seq<DueFeed>, now: int, job: Postponed)
    requires job in Delayed(feeds, now)
    ensures exists i :: 0 <= i < |feeds| && feeds[i].id == job.id && InWindow(feeds[i], now)
                        && (|feeds[i].windows.value| <= 71 && !CoverEverything(Activities(feeds[i].windows.value)) ==>
                              FirstFreeSecond(job.nextFetch, now, feeds[i].windows.value))
  {
    hide Delayed, Blocked, Advanced, Activities, WholeSecond, CoverEverything, FirstFreeSecond;
    PostponedOnlyInWindows(feeds, now, job);
    var i :| 0 <= i < |feeds| && IsPostponement(job, feeds[i], now);
    var windows := feeds[i].windows.value;
    if |windows| <= 71 && !CoverEverything(Activities(windows)) {
      AdvancedToFree(now, windows);
    }
  }

  /** Fetches and postponements are in the order of the feeds. */
  lemma {:induction false} PassInOrder(a: seq<DueFeed>, b: seq<DueFeed>, now: int)
    ensures Fetched(a + b, now) == Fetched(a, now) + Fetched(b, now)
    ensures Delayed(a + b, now) == Delayed(a, now) + Delayed(b, now)
  {
    hide FetchedNow, InWindow, WholeSecond;
    if b == [] {
      assert a + b == a;
    } else {
      var front := b[..|b| - 1];
      assert (a + b)[..|a + b| - 1] == a + front;
      PassInOrder(a, front, now);
    }
  }

  /** No due feed is fetched and postponed at once, and one whose windows can be read is one or the other. */
  lemma {:induction false} FetchedOrPostponed(feeds: seq<DueFeed>, now: int)
    ensures |Fetched(feeds, now)| + |Delayed(feeds, now)| <= |feeds|
    ensures (forall i :: 0 <= i < |feeds| ==> feeds[i].windows.Some?) ==>
              |Fetched(feeds, now)| + |Delayed(feeds, now)| == |feeds|
  {
    hide Blocked, Activities, Advanced;
    if feeds != [] {
      FetchedOrPostponed(feeds[..|feeds| - 1], now);
    }
  }
}
