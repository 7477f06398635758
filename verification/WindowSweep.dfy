/** The loop of cmd/feed-reader/ignore_window.go:162-196, for windows of which it knows only
    when they are active and until when. */
module WindowSweep {
  import opened Wrappers
  import opened Calendar
  import opened Sets

  /** At an instant, when the period of activity that contains it ends. */
  type Activity = int -> Option<int>

  ghost predicate Blocked(t: int, windows: seq<Activity>) {
    exists k :: 0 <= k < |windows| && windows[k](t).Some?
  }

  /** The windows together cover every instant. */
  ghost predicate CoverEverything(windows: seq<Activity>) {
    forall t :: Blocked(t, windows)
  }

  ghost predicate BlockedThroughout(from: int, to: int, windows: seq<Activity>) {
    forall u :: from <= u < to ==> Blocked(u, windows)
  }

  /** The furthest end among the first `n` windows that are active at `t`. */
  function FurthestEnd(t: int, windows: seq<Activity>, n: nat): (end: Option<int>)
    requires n <= |windows|
    ensures end.None? <==> forall k :: 0 <= k < n ==> windows[k](t).None?
    ensures end.Some? ==>
              && (exists k :: 0 <= k < n && windows[k](t) == end)
              && (forall k :: 0 <= k < n && windows[k](t).Some? ==> windows[k](t).value <= end.value)
  {
    if n == 0 then None
    else
      var furthest := FurthestEnd(t, windows, n - 1);
      var active := windows[n - 1](t);
      if active.Some? && (furthest.None? || active.value > furthest.value) then active else furthest
  }

  /** `t` moved at most `n` times to the furthest end of the windows active at it. */
  function Advanced(t: int, windows: seq<Activity>, n: nat): int
    decreases n
  {
    var end := FurthestEnd(t, windows, |windows|);
    if n == 0 || end.None? then t else Advanced(end.value, windows, n - 1)
  }

  ghost predicate MovesOn(stops: seq<int>, k: int, windows: seq<Activity>)
    requires 0 <= k < |stops| - 1
  {
    FurthestEnd(stops[k], windows, |windows|) == Some(stops[k + 1])
  }

  /** The instants passed through when each is the furthest end at the one before. */
  lemma {:induction false} PassesThrough(stops: seq<int>, windows: seq<Activity>)
    requires stops != []
    requires forall k :: 0 <= k < |stops| - 1 ==> MovesOn(stops, k, windows)
    ensures Advanced(stops[0], windows, |stops| - 1) == stops[|stops| - 1]
  {
    if |stops| > 1 {
      assert MovesOn(stops, 0, windows);
      forall k | 0 <= k < |stops| - 2 ensures MovesOn(stops[1..], k, windows) {
        assert MovesOn(stops, k + 1, windows);
      }
      PassesThrough(stops[1..], windows);
    }
  }

  /** A window active at `t` ends later, and stays active with the same end until then. */
  ghost predicate RunsOn(w: Activity, t: int, u: int) {
    w(t).Some? && t <= u ==> w(t).value > t && (u < w(t).value ==> w(u) == w(t))
  }

  ghost predicate RepeatsWeekly(w: Activity, t: int, u: int) {
    w(t).Some? && WeekPosition(t) == WeekPosition(u) ==> w(u).Some?
  }

  ghost predicate EndsWithin(w: Activity, t: int, positions: set<int>) {
    w(t).Some? ==> WeekPosition(w(t).value) in positions
  }

  /** What the loop relies on: windows run on, repeat weekly, and end at known positions of the week. */
  ghost predicate Regular(w: Activity, positions: set<int>) {
    && (forall t, u :: RunsOn(w, t, u))
    && (forall t, u :: RepeatsWeekly(w, t, u))
    && (forall t :: EndsWithin(w, t, positions))
  }

  ghost predicate AllRegular(windows: seq<Activity>, positions: set<int>) {
    forall k :: 0 <= k < |windows| ==> Regular(windows[k], positions)
  }

  lemma FurthestEndIsLater(t: int, windows: seq<Activity>, positions: set<int>)
    requires AllRegular(windows, positions) && FurthestEnd(t, windows, |windows|).Some?
    ensures FurthestEnd(t, windows, |windows|).value > t
    ensures BlockedThroughout(t, FurthestEnd(t, windows, |windows|).value, windows)
    ensures WeekPosition(FurthestEnd(t, windows, |windows|).value) in positions
  {
    var end := FurthestEnd(t, windows, |windows|);
    var k :| 0 <= k < |windows| && windows[k](t) == end;
    assert Regular(windows[k], positions);
    assert RunsOn(windows[k], t, t) && EndsWithin(windows[k], t, positions);
    forall u | t <= u < end.value ensures Blocked(u, windows) {
      assert RunsOn(windows[k], t, u);
    }
  }

  /** Only blocked instants are skipped: a free result is the earliest free instant. */
  lemma {:induction false} SkipsOnlyBlocked(t: int, windows: seq<Activity>, positions: set<int>, n: nat)
    requires AllRegular(windows, positions)
    ensures t <= Advanced(t, windows, n) && BlockedThroughout(t, Advanced(t, windows, n), windows)
    decreases n
  {
    var end := FurthestEnd(t, windows, |windows|);
    if n > 0 && end.Some? {
      FurthestEndIsLater(t, windows, positions);
      SkipsOnlyBlocked(end.value, windows, positions, n - 1);
    }
  }

  /** Ending twice at the same position of the week means having skipped a whole blocked week. */
  lemma RepeatedEnd(first: int, second: int, windows: seq<Activity>, positions: set<int>)
    requires AllRegular(windows, positions)
    requires first < second && WeekPosition(first) == WeekPosition(second)
    requires BlockedThroughout(first, second, windows)
    ensures CoverEverything(windows)
  {
    SamePosition(first, second);
    forall t ensures Blocked(t, windows) {
      var u := first + WeekPosition(t - first);
      WeekPositionShift(u, (t - first) / WEEK);
      assert Blocked(u, windows);
      var k :| 0 <= k < |windows| && windows[k](u).Some?;
      assert Regular(windows[k], positions) && RepeatsWeekly(windows[k], u, t);
    }
  }

  /** The week positions reached so far, each with an instant from which everything is blocked. */
  ghost predicate Visited(ends: map<int, int>, t: int, windows: seq<Activity>, positions: set<int>) {
    && ends.Keys <= positions
    && forall p :: p in ends ==> ends[p] <= t && WeekPosition(ends[p]) == p && BlockedThroughout(ends[p], t, windows)
  }

  /** Each further move ends at a position of the week not ended at before. */
  lemma NewEnd(t: int, windows: seq<Activity>, positions: set<int>, ends: map<int, int>) returns (more: map<int, int>)
    requires AllRegular(windows, positions) && Visited(ends, t, windows, positions)
    requires !CoverEverything(windows) && FurthestEnd(t, windows, |windows|).Some?
    ensures Visited(more, FurthestEnd(t, windows, |windows|).value, windows, positions)
    ensures |more| == |ends| + 1 <= |positions|
  {
    var end := FurthestEnd(t, windows, |windows|).value;
    FurthestEndIsLater(t, windows, positions);
    var p := WeekPosition(end);
    if p in ends {
      RepeatedEnd(ends[p], end, windows, positions);
    }
    more := ends[p := end];
    SubsetSize(more.Keys, positions);
  }

  lemma {:induction false} EnoughMoves(t: int, windows: seq<Activity>, positions: set<int>, n: nat, ends: map<int, int>)
    requires AllRegular(windows, positions) && Visited(ends, t, windows, positions)
    requires !CoverEverything(windows) && |positions| <= |ends| + n
    ensures !Blocked(Advanced(t, windows, n), windows)
    decreases n
  {
    var end := FurthestEnd(t, windows, |windows|);
    if end.Some? {
      var more := NewEnd(t, windows, positions, ends);
      EnoughMoves(end.value, windows, positions, n - 1, more);
    }
  }

  /** As many moves as there are positions to end at reach the earliest free instant from `t` on,
      unless the windows leave no instant free. */
  lemma EarliestFreeInstant(t: int, windows: seq<Activity>, positions: set<int>, n: nat)
    requires AllRegular(windows, positions) && |positions| <= n && !CoverEverything(windows)
    ensures var r := Advanced(t, windows, n);
            t <= r && !Blocked(r, windows) && forall u :: t <= u < r ==> Blocked(u, windows)
  {
    SkipsOnlyBlocked(t, windows, positions, n);
    EnoughMoves(t, windows, positions, n, map[]);
  }
}
