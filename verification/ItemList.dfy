/** Which items the browser's list for one combination of filters holds, frontend/src/lib/item-db.ts:99-200:
    the first poll asks for everything since a chosen time, later ones only since the newest item so far. */
module ItemList {
  import opened Order
  import opened Paging
  import opened Wrappers

  /** The rows a poll asks for. */
  function Selected<T(==, !new)>(table: set<Row<T>>, wanted: Row<T> -> bool, since: Option<int>): (rows: set<Row<T>>)
    ensures rows <= table
  {
    set r | r in table && wanted(r) && (since.Some? ==> r.key.stamp >= since.value)
  }

  ghost predicate IsNewest<T(!new)>(rows: set<Row<T>>, newest: int) {
    (forall r :: r in rows ==> r.key.stamp <= newest) && exists r :: r in rows && r.key.stamp == newest
  }

  /** The anchor moves to the newest item received, never back. */
  ghost predicate AnchorMoves<T(!new)>(before: Option<int>, rows: set<Row<T>>, after: Option<int>) {
    if rows == {} then after == before
    else exists newest :: IsNewest(rows, newest)
           && after == if newest > (if before.Some? then before.value else 0) then Some(newest) else before
  }

  /** The rows received override what was there under their identifiers. */
  ghost predicate Overridden<T(!new)>(before: map<string, T>, rows: set<Row<T>>, after: map<string, T>) {
    && (forall r :: r in rows ==> r.key.id in after && after[r.key.id] == r.body)
    && (forall id :: (forall r :: r in rows ==> r.key.id != id) ==>
          (id in after <==> id in before) && (id in before ==> after[id] == before[id]))
  }

  class ItemCache<T(==, !new)> {
    var lastFetched: Option<int>
    var data: map<string, T>

    /** One poll whose pages all see one table. The first one discards what was there. */
    method QueryFn(table: set<Row<T>>, wanted: Row<T> -> bool, first: Option<int>)
      requires PrimaryKey(table) && NamedRows(table)
      modifies this
      ensures var since := if old(lastFetched).Some? then old(lastFetched) else first;
              var rows := Selected(table, wanted, since);
              && Overridden(if old(lastFetched).Some? then old(data) else map[], rows, data)
              && AnchorMoves(old(lastFetched), rows, lastFetched)
    {
      var existing := if lastFetched.Some? then data else map[];
      var since := if lastFetched.Some? then lastFetched else first;
      var filter := (r: Row<T>) => wanted(r) && (since.Some? ==> r.key.stamp >= since.value);
      ghost var rows := Selected(table, wanted, since);
      assert Matching(table, filter) == rows;
      var allNewItems, _ := FetchItems(table, filter);
      OrderByLists(rows);
      hide OrderBy, PrimaryKey, NamedRows, Sorted, Selected, Matching, ListsThose;
      if |allNewItems| > 0 {
        var maxTime := MaxTime(allNewItems);
        assert IsNewest(rows, maxTime);
        if maxTime > (if lastFetched.Some? then lastFetched.value else 0) {
          lastFetched := Some(maxTime);
        }
      } else {
        assert rows == {};
      }
      data := MergeItems(existing, allNewItems);
      assert Overridden(existing, rows, data) by {
        MergedRows(existing, allNewItems, rows);
      }
    }
  }

  method MaxTime<T>(items: seq<Row<T>>) returns (maxTime: int)
    requires items != []
    ensures forall k :: 0 <= k < |items| ==> items[k].key.stamp <= maxTime
    ensures exists k :: 0 <= k < |items| && items[k].key.stamp == maxTime
  {
    maxTime := items[0].key.stamp;
    for i := 1 to |items|
      invariant forall k :: 0 <= k < i ==> items[k].key.stamp <= maxTime
      invariant exists k :: 0 <= k < i && items[k].key.stamp == maxTime
    {
      if items[i].key.stamp > maxTime {
        maxTime := items[i].key.stamp;
      }
    }
  }

  function Merged<T>(existing: map<string, T>, items: seq<Row<T>>): map<string, T> {
    if items == [] then existing
    else
      var last := items[|items| - 1];
      Merged(existing, items[..|items| - 1])[last.key.id := last.body]
  }

  method MergeItems<T>(existing: map<string, T>, items: seq<Row<T>>) returns (itemMap: map<string, T>)
    ensures itemMap == Merged(existing, items)
  {
    itemMap := existing;
    for i := 0 to |items|
      invariant itemMap == Merged(existing, items[..i])
    {
      assert items[..i + 1][..i] == items[..i];
      itemMap := itemMap[items[i].key.id := items[i].body];
    }
    assert items[..|items|] == items;
  }

  lemma {:induction false} MergedOther<T>(existing: map<string, T>, items: seq<Row<T>>, id: string)
    requires forall k :: 0 <= k < |items| ==> items[k].key.id != id
    ensures id in Merged(existing, items) <==> id in existing
    ensures id in existing ==> Merged(existing, items)[id] == existing[id]
    decreases |items|
  {
    if items != [] {
      MergedOther(existing, items[..|items| - 1], id);
    }
  }

  lemma {:induction false} MergedRow<T>(existing: map<string, T>, items: seq<Row<T>>, k: nat)
    requires k < |items| && forall j :: k < j < |items| ==> items[j].key.id != items[k].key.id
    ensures items[k].key.id in Merged(existing, items) && Merged(existing, items)[items[k].key.id] == items[k].body
    decreases |items|
  {
    if k < |items| - 1 {
      MergedRow(existing, items[..|items| - 1], k);
    }
  }

  lemma MergedRows<T(!new)>(existing: map<string, T>, items: seq<Row<T>>, rows: set<Row<T>>)
    requires PrimaryKey(rows) && Sorted(items) && forall r :: r in items <==> r in rows
    ensures Overridden(existing, rows, Merged(existing, items))
  {
    forall r | r in rows
      ensures r.key.id in Merged(existing, items) && Merged(existing, items)[r.key.id] == r.body
    {
      var k :| 0 <= k < |items| && items[k] == r;
      forall j | k < j < |items| ensures items[j].key.id != r.key.id {
        assert items[j] in rows && KeyLess(r.key, items[j].key);
        KeyIrreflexive(r.key);
      }
      MergedRow(existing, items, k);
    }
    forall id | forall r :: r in rows ==> r.key.id != id
      ensures (id in Merged(existing, items) <==> id in existing)
              && (id in existing ==> Merged(existing, items)[id] == existing[id])
    {
      assert forall k :: 0 <= k < |items| ==> items[k] in rows;
      MergedOther(existing, items, id);
    }
  }

  // ----- what the list holds over a run of changes and polls

  /** The server's clock and items, and the list of the browser, by identifiers. */
  datatype System<T(==)> = System(now: int, table: set<Row<T>>, anchor: Option<int>, listed: set<string>)

  /** An item is created, changes in anything but its key, or the list is polled. */
  datatype Step<T> = Tick(to: int) | Create(row: Row<T>) | Change(row: Row<T>) | Poll(anchor: Option<int>)

  /** The filters of the list, and the time the first poll asks for. */
  datatype Query<!T> = Query(wanted: Row<T> -> bool, first: Option<int>)

  ghost function Received<T(!new)>(s: System<T>, q: Query<T>): set<Row<T>> {
    Selected(s.table, q.wanted, if s.anchor.Some? then s.anchor else q.first)
  }

  ghost predicate Enabled<T(!new)>(s: System<T>, q: Query<T>, step: Step<T>) {
    match step
    case Tick(to) => to >= s.now
    case Create(row) =>
      row.key.stamp == s.now && row.key.id != "" && forall r :: r in s.table ==> r.key.id != row.key.id
    case Change(row) => exists r :: r in s.table && r.key == row.key
    case Poll(anchor) => AnchorMoves(s.anchor, Received(s, q), anchor)
  }

  ghost function Apply<T(!new)>(s: System<T>, q: Query<T>, step: Step<T>): System<T> {
    match step
    case Tick(to) => s.(now := to)
    case Create(row) => s.(table := s.table + {row})
    case Change(row) => s.(table := (set r | r in s.table && r.key != row.key) + {row})
    case Poll(anchor) =>
      s.(anchor := anchor,
         listed := (if s.anchor.Some? then s.listed else {}) + set r | r in Received(s, q) :: r.key.id)
  }

  ghost predicate ValidRun<T(!new)>(s: System<T>, q: Query<T>, run: seq<Step<T>>)
    decreases |run|
  {
    run == [] || (Enabled(s, q, run[0]) && ValidRun(Apply(s, q, run[0]), q, run[1..]))
  }

  ghost function Execute<T(!new)>(s: System<T>, q: Query<T>, run: seq<Step<T>>): System<T>
    decreases |run|
  {
    if run == [] then s else Execute(Apply(s, q, run[0]), q, run[1..])
  }

  ghost predicate Fits<T(!new)>(q: Query<T>, r: Row<T>) {
    q.wanted(r) && (q.first.Some? ==> r.key.stamp >= q.first.value)
  }

  /** No poll will ask for this row again: it is older than the anchor. */
  ghost predicate PastAnchor<T(!new)>(s: System<T>, r: Row<T>) {
    s.anchor.Some? && r.key.stamp < s.anchor.value
  }

  /** A poll lists a row that fits exactly when it asks for it or has it already. */
  lemma PollLists<T(!new)>(s: System<T>, q: Query<T>, anchor: Option<int>, r: Row<T>)
    requires PrimaryKey(s.table) && r in s.table && Fits(q, r)
    ensures r.key.id in Apply(s, q, Poll(anchor)).listed <==> !PastAnchor(s, r) || r.key.id in s.listed
  {
    if r.key.id in Apply(s, q, Poll(anchor)).listed && r.key.id !in s.listed {
      var got :| got in Received(s, q) && got.key.id == r.key.id;
      assert got == r;
    }
    if !PastAnchor(s, r) {
      assert r in Received(s, q);
    }
  }

  /** A change makes an item fit that was never listed and that no poll asks for any more. */
  ghost predicate Late<T(!new)>(s: System<T>, q: Query<T>, step: Step<T>) {
    step.Change? && Fits(q, step.row) && PastAnchor(s, step.row) && step.row.key.id !in s.listed
  }

  ghost predicate NeverLate<T(!new)>(s: System<T>, q: Query<T>, run: seq<Step<T>>)
    decreases |run|
  {
    run == [] || (!Late(s, q, run[0]) && NeverLate(Apply(s, q, run[0]), q, run[1..]))
  }

  ghost predicate Tracked<T(!new)>(s: System<T>, q: Query<T>, r: Row<T>) {
    Fits(q, r) && PastAnchor(s, r) ==> r.key.id in s.listed
  }

  /** Whatever fits is listed already or will be asked for. */
  ghost predicate Inv<T(!new)>(s: System<T>, q: Query<T>) {
    && PrimaryKey(s.table)
    && (forall r :: r in s.table ==> r.key.stamp <= s.now)
    && (s.anchor.Some? ==> s.anchor.value <= s.now)
    && (forall r :: r in s.table ==> Tracked(s, q, r))
  }

  lemma PollListsAll<T(!new)>(s: System<T>, q: Query<T>, anchor: Option<int>)
    requires Inv(s, q)
    ensures forall r :: r in s.table && Fits(q, r) ==> r.key.id in Apply(s, q, Poll(anchor)).listed
  {
    forall r | r in s.table && Fits(q, r) ensures r.key.id in Apply(s, q, Poll(anchor)).listed {
      PollLists(s, q, anchor, r);
      assert Tracked(s, q, r);
    }
  }

  lemma ChangeKeepsInv<T(!new)>(s: System<T>, q: Query<T>, row: Row<T>)
    requires Inv(s, q) && Enabled(s, q, Change(row)) && !Late(s, q, Change(row))
    ensures Inv(Apply(s, q, Change(row)), q)
  {
    var s' := Apply(s, q, Change(row));
    forall r | r in s'.table ensures Tracked(s', q, r) && r.key.stamp <= s'.now {
      if r != row {
        assert r in s.table && Tracked(s, q, r);
      }
    }
  }

  lemma StepKeepsInv<T(!new)>(s: System<T>, q: Query<T>, step: Step<T>)
    requires Inv(s, q) && Enabled(s, q, step) && !Late(s, q, step)
    ensures Inv(Apply(s, q, step), q)
  {
    var s' := Apply(s, q, step);
    match step
    case Tick(_) =>
      forall r | r in s'.table ensures Tracked(s', q, r) {
        assert Tracked(s, q, r);
      }
    case Create(row) =>
      forall r | r in s'.table ensures Tracked(s', q, r) {
        assert r in s.table ==> Tracked(s, q, r);
      }
    case Change(row) => ChangeKeepsInv(s, q, row);
    case Poll(anchor) => PollListsAll(s, q, anchor);
  }

  lemma {:induction false} RunKeepsInv<T(!new)>(s: System<T>, q: Query<T>, run: seq<Step<T>>)
    requires Inv(s, q) && ValidRun(s, q, run) && NeverLate(s, q, run)
    ensures Inv(Execute(s, q, run), q)
    decreases |run|
  {
    hide Inv, Enabled, Apply, Late;
    if run != [] {
      StepKeepsInv(s, q, run[0]);
      RunKeepsInv(Apply(s, q, run[0]), q, run[1..]);
    }
  }

  ghost function Start<T(!new)>(now: int): System<T> {
    System(now, {}, None, {})
  }

  /** Over every run in which no change is late, each poll leaves every item that fits the filters in
      the list, although all polls but the first ask only for what is new. */
  lemma EveryPollListsAll<T(!new)>(now: int, q: Query<T>, run: seq<Step<T>>, anchor: Option<int>)
    requires ValidRun(Start(now), q, run) && NeverLate(Start(now), q, run)
    ensures var s := Execute(Start(now), q, run);
            forall r :: r in s.table && Fits(q, r) ==> r.key.id in Apply(s, q, Poll(anchor)).listed
  {
    RunKeepsInv(Start(now), q, run);
    PollListsAll(Execute(Start(now), q, run), q, anchor);
  }

  /** A new item that fits appears with the next poll, and every item of the run is in the table. */
  lemma NewItemIsListed<T(!new)>(now: int, q: Query<T>, run: seq<Step<T>>, row: Row<T>, anchor: Option<int>)
    requires ValidRun(Start(now), q, run) && NeverLate(Start(now), q, run)
    requires Enabled(Execute(Start(now), q, run), q, Create(row))
    ensures var before := Execute(Start(now), q, run);
            var s := Apply(before, q, Create(row));
            && (forall r :: r in s.table <==> r in before.table || r == row)
            && (Fits(q, row) ==> row.key.id in Apply(s, q, Poll(anchor)).listed)
  {
    RunKeepsInv(Start(now), q, run);
    var before := Execute(Start(now), q, run);
    StepKeepsInv(before, q, Create(row));
    PollListsAll(Apply(before, q, Create(row)), q, anchor);
    hide Execute, Inv, Fits;
  }

  /** A change replaces the row with its key and no other. */
  lemma ChangeReplaces<T(!new)>(s: System<T>, q: Query<T>, row: Row<T>)
    requires Enabled(s, q, Change(row))
    ensures forall r :: r in Apply(s, q, Change(row)).table <==> r == row || (r in s.table && r.key != row.key)
    ensures Apply(s, q, Change(row)).listed == s.listed && Apply(s, q, Change(row)).anchor == s.anchor
  {
  }

  /** A poll is always possible, and afterwards nothing it has received is newer than the anchor. */
  lemma PollMovesAnchor<T(!new)>(s: System<T>, q: Query<T>) returns (anchor: Option<int>)
    requires forall r :: r in s.table ==> r.key.stamp > 0
    ensures Enabled(s, q, Poll(anchor)) && Apply(s, q, Poll(anchor)).anchor == anchor
    ensures Received(s, q) == {} ==> anchor == s.anchor
    ensures forall r :: r in Received(s, q) ==> anchor.Some? && r.key.stamp <= anchor.value
    ensures anchor == s.anchor || exists r :: r in Received(s, q) && anchor == Some(r.key.stamp)
  {
    var rows := Received(s, q);
    if rows == {} {
      anchor := s.anchor;
    } else {
      var newest := NewestOf(rows);
      anchor := if newest > (if s.anchor.Some? then s.anchor.value else 0) then Some(newest) else s.anchor;
      assert IsNewest(rows, newest);
    }
  }

  lemma {:induction false} NewestOf<T(!new)>(rows: set<Row<T>>) returns (newest: int)
    requires rows != {}
    ensures IsNewest(rows, newest)
  {
    var r :| r in rows;
    var others := rows - {r};
    assert forall x :: x in rows ==> x == r || x in others;
    if others == {} {
      newest := r.key.stamp;
    } else {
      newest := NewestOf(others);
      if r.key.stamp > newest {
        newest := r.key.stamp;
      }
    }
  }

  /** Such changes happen: an item of the first second begins to fit when one of the second second has
      been listed. */
  lemma LateChangeHappens() returns (q: Query<bool>, run: seq<Step<bool>>, change: Step<bool>)
    ensures ValidRun(Start(1), q, run) && NeverLate(Start(1), q, run)
    ensures var s := Execute(Start(1), q, run); Enabled(s, q, change) && Late(s, q, change)
  {
    q := Query((r: Row<bool>) => r.body, None);
    var a, b := Row(Key(1, "a"), false), Row(Key(2, "b"), true);
    var s0, s1 := Start<bool>(1), System(1, {a}, None, {});
    var s3, s4 := System(2, {a, b}, None, {}), System(2, {a, b}, Some(2), {"b"});
    run := [Create(a), Tick(2), Create(b), Poll(Some(2))];
    change := Change(Row(Key(1, "a"), true));
    assert Apply(s0, q, run[0]) == s1;
    assert Apply(s1, q, run[1]) == s1.(now := 2) && Apply(s1.(now := 2), q, run[2]) == s3;
    assert Received(s3, q) == {b};
    assert IsNewest({b}, 2);
    assert Apply(s3, q, run[3]) == s4;
    var none: seq<Step<bool>> := [];
    RunsOn(s3, q, run[3..], none, s4);
    RunsOn(s1.(now := 2), q, run[2..], run[3..], s3);
    RunsOn(s1, q, run[1..], run[2..], s1.(now := 2));
    RunsOn(s0, q, run, run[1..], s1);
    assert change.row.key == a.key;
  }

  lemma RunsOn<T(!new)>(s: System<T>, q: Query<T>, run: seq<Step<T>>, rest: seq<Step<T>>, next: System<T>)
    requires run != [] && rest == run[1..]
    requires Enabled(s, q, run[0]) && !Late(s, q, run[0]) && Apply(s, q, run[0]) == next
    requires ValidRun(next, q, rest) && NeverLate(next, q, rest)
    ensures ValidRun(s, q, run) && NeverLate(s, q, run) && Execute(s, q, run) == Execute(next, q, rest)
  {}

  /** And a late change is always missed: of an item that a change makes fit, the next poll takes
      notice if and only if the change is not late. */
  lemma LateIsMissed<T(!new)>(s: System<T>, q: Query<T>, row: Row<T>, anchor: Option<int>)
    requires PrimaryKey(s.table) && Enabled(s, q, Change(row)) && Fits(q, row)
    ensures row.key.id in Apply(Apply(s, q, Change(row)), q, Poll(anchor)).listed <==> !Late(s, q, Change(row))
  {
    var s' := Apply(s, q, Change(row));
    assert PrimaryKey(s'.table);
    PollLists(s', q, anchor, row);
  }
}
