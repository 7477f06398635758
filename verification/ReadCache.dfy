/** The browser's cache of read states, frontend/src/lib/item-read-db.ts:15-118: the loops that
    compute the steps StartReads, EndReads and LocalMark of ReadSync. */
module ReadCache {
  import opened ItemReads
  import opened Wrappers
  import opened Order
  import opened Paging
  import opened ReadSync

  /** The rows of item_reads as the paged query sees them. */
  function TableOf(rows: map<Id, ReadRow>): set<Row<bool>> {
    set id | id in rows :: Row(Key(rows[id].updatedAt, id), rows[id].isRead)
  }

  lemma TableIsKeyed(rows: map<Id, ReadRow>)
    requires "" !in rows
    ensures PrimaryKey(TableOf(rows)) && NamedRows(TableOf(rows))
  {
  }

  ghost predicate DistinctIds(listing: seq<Row<bool>>) {
    forall i, j :: 0 <= i < j < |listing| ==> listing[i].key.id != listing[j].key.id
  }

  ghost predicate IsRow(r: Row<bool>, rows: map<Id, ReadRow>, since: int) {
    r.key.id in rows && rows[r.key.id] == ReadRow(r.body, r.key.stamp) && r.key.stamp >= since
  }

  ghost predicate Lists(listing: seq<Row<bool>>, id: Id) {
    exists i :: 0 <= i < |listing| && listing[i].key.id == id
  }

  /** The list holds exactly the rows since an instant, each once. */
  ghost predicate ListsSince(listing: seq<Row<bool>>, rows: map<Id, ReadRow>, since: int) {
    && DistinctIds(listing)
    && (forall i :: 0 <= i < |listing| ==> IsRow(listing[i], rows, since))
    && (forall id :: id in rows && rows[id].updatedAt >= since ==> Lists(listing, id))
  }

  lemma OrderByListsSince(rows: map<Id, ReadRow>, since: int)
    requires "" !in rows && PrimaryKey(TableOf(rows))
    ensures ListsSince(OrderBy(FromSecond(TableOf(rows), since)), rows, since)
  {
    var selected := FromSecond(TableOf(rows), since);
    var listing := OrderBy(selected);
    OrderByLists(selected);
    hide OrderBy, PrimaryKey, FromSecond, TableOf, Sorted, DistinctIds;
    SortedIdsDiffer(selected, listing);
    forall i | 0 <= i < |listing| ensures IsRow(listing[i], rows, since) {
      assert listing[i] in selected;
      SelectedRow(rows, since, listing[i]);
    }
    forall id | id in rows && rows[id].updatedAt >= since ensures Lists(listing, id) {
      RowSelected(rows, since, id);
    }
  }

  lemma SelectedRow(rows: map<Id, ReadRow>, since: int, r: Row<bool>)
    requires r in FromSecond(TableOf(rows), since)
    ensures IsRow(r, rows, since)
  {}

  lemma RowSelected(rows: map<Id, ReadRow>, since: int, id: Id)
    requires id in rows && rows[id].updatedAt >= since
    ensures Row(Key(rows[id].updatedAt, id), rows[id].isRead) in FromSecond(TableOf(rows), since)
  {}

  lemma SortedIdsDiffer(selected: set<Row<bool>>, listing: seq<Row<bool>>)
    requires Sorted(listing) && PrimaryKey(selected) && forall r :: r in listing <==> r in selected
    ensures DistinctIds(listing)
  {
    forall i, j | 0 <= i < j < |listing| ensures listing[i].key.id != listing[j].key.id {
      assert listing[i] in selected && listing[j] in selected;
      assert KeyLess(listing[i].key, listing[j].key);
      KeyIrreflexive(listing[i].key);
    }
  }

  /** The greatest timestamp of a list of reads. */
  method Newest(allNewReads: seq<Row<bool>>) returns (newest: Option<int>)
    ensures newest.None? <==> allNewReads == []
    ensures forall i :: 0 <= i < |allNewReads| ==> allNewReads[i].key.stamp <= newest.value
    ensures newest.Some? ==> exists i :: 0 <= i < |allNewReads| && allNewReads[i].key.stamp == newest.value
  {
    newest := None;
    for k := 0 to |allNewReads|
      invariant newest.None? <==> k == 0
      invariant forall i :: 0 <= i < k ==> allNewReads[i].key.stamp <= newest.value
      invariant newest.Some? ==> exists i :: 0 <= i < k && allNewReads[i].key.stamp == newest.value
    {
      if newest.None? || allNewReads[k].key.stamp > newest.value {
        newest := Some(allNewReads[k].key.stamp);
      }
    }
  }

  /** The cached reads after the first `n` new ones are set, one after another. */
  function Merged(existing: map<Id, bool>, newer: seq<Row<bool>>, n: nat): map<Id, bool>
    requires n <= |newer|
  {
    if n == 0 then existing else Merged(existing, newer, n - 1)[newer[n - 1].key.id := newer[n - 1].body]
  }

  lemma {:induction false} MergedNew(existing: map<Id, bool>, newer: seq<Row<bool>>, n: nat, i: nat)
    requires i < n <= |newer| && forall j :: i < j < n ==> newer[j].key.id != newer[i].key.id
    ensures newer[i].key.id in Merged(existing, newer, n)
    ensures Merged(existing, newer, n)[newer[i].key.id] == newer[i].body
  {
    if i < n - 1 {
      MergedNew(existing, newer, n - 1, i);
    }
  }

  lemma {:induction false} MergedOld(existing: map<Id, bool>, newer: seq<Row<bool>>, n: nat, id: Id)
    requires n <= |newer| && forall i :: 0 <= i < n ==> newer[i].key.id != id
    ensures id in Merged(existing, newer, n) <==> id in existing
    ensures id in existing ==> Merged(existing, newer, n)[id] == existing[id]
  {
    if n > 0 {
      MergedOld(existing, newer, n - 1, id);
    }
  }

  lemma MergedAt(existing: map<Id, bool>, newer: seq<Row<bool>>, rows: map<Id, ReadRow>, since: int, id: Id)
    requires ListsSince(newer, rows, since)
    ensures var merged := Merged(existing, newer, |newer|);
            && (id in merged <==> id in existing + Recent(rows, since))
            && (id in merged ==> merged[id] == (existing + Recent(rows, since))[id])
  {
    if Lists(newer, id) {
      var i :| 0 <= i < |newer| && newer[i].key.id == id;
      assert IsRow(newer[i], rows, since);
      MergedNew(existing, newer, |newer|, i);
    } else {
      assert id !in Recent(rows, since);
      MergedOld(existing, newer, |newer|, id);
    }
  }

  /** Setting the rows since an instant, in whatever order they are listed. */
  lemma MergedIsRecent(existing: map<Id, bool>, newer: seq<Row<bool>>, rows: map<Id, ReadRow>, since: int)
    requires ListsSince(newer, rows, since)
    ensures Merged(existing, newer, |newer|) == existing + Recent(rows, since)
  {
    hide ListsSince, Merged, Recent;
    forall id
      ensures id in Merged(existing, newer, |newer|) <==> id in existing + Recent(rows, since)
      ensures id in Merged(existing, newer, |newer|) ==>
                Merged(existing, newer, |newer|)[id] == (existing + Recent(rows, since))[id]
    {
      MergedAt(existing, newer, rows, since, id);
    }
  }

  /** The merge of new reads into the cached ones. */
  method Merge(existingData: map<Id, bool>, allNewReads: seq<Row<bool>>) returns (readMap: map<Id, bool>)
    ensures readMap == Merged(existingData, allNewReads, |allNewReads|)
  {
    readMap := existingData;
    for k := 0 to |allNewReads|
      invariant readMap == Merged(existingData, allNewReads, k)
    {
      readMap := readMap[allNewReads[k].key.id := allNewReads[k].body];
    }
  }

  function SetOf(ids: seq<Id>): set<Id> {
    set id | id in ids
  }

  lemma FlagOneMore(ids: seq<Id>, k: nat, isRead: bool)
    requires k < |ids|
    ensures FlagAll(SetOf(ids[..k + 1]), isRead) == FlagAll(SetOf(ids[..k]), isRead)[ids[k] := isRead]
  {
    assert forall id :: id in ids[..k + 1] <==> id in ids[..k] || id == ids[k];
  }

  /** The requests of a poll, all of which see one snapshot of the table. */
  method FetchNewReads(rows: map<Id, ReadRow>, since: int) returns (allNewReads: seq<Row<bool>>)
    requires "" !in rows
    ensures ListsSince(allNewReads, rows, since)
  {
    TableIsKeyed(rows);
    var all, _ := FetchReads(TableOf(rows), since);
    hide ListsThose;
    OrderByListsSince(rows, since);
    return all;
  }

  class ReadCache {
    var anchor: Option<int>
    var cached: map<Id, bool>

    /** The beginning of a poll: it takes the anchor and the cache as they are, or, without an anchor,
        ends at once with nothing. */
    method StartPoll() returns (poll: Option<ReadPoll>)
      modifies this`cached
      ensures anchor.None? ==> poll == None && cached == map[]
      ensures anchor.Some? ==> poll == Some(ReadPoll(anchor.value, cached, None, true)) && cached == old(cached)
    {
      if anchor.None? {
        cached := map[];
        return None;
      }
      return Some(ReadPoll(anchor.value, cached, None, true));
    }

    /** The end of a poll, whatever has been marked since it began: the anchor moves to the newest row
        received, and the cache the poll began with takes the new reads and replaces the present one. */
    method FinishPoll(poll: ReadPoll, allNewReads: seq<Row<bool>>)
      requires poll.snapshot.Some? && ListsSince(allNewReads, poll.snapshot.value, poll.anchor)
      requires anchor == Some(poll.anchor)
      modifies this
      ensures anchor == Some(NextAnchor(poll))
      ensures cached == NextCache(poll)
      ensures poll.anchor <= anchor.value
      ensures forall i :: 0 <= i < |allNewReads| ==> allNewReads[i].key.stamp <= anchor.value
      ensures anchor.value == poll.anchor
              || exists i :: 0 <= i < |allNewReads| && allNewReads[i].key.stamp == anchor.value
    {
      var maxServerUpdatedAt := Newest(allNewReads);
      if maxServerUpdatedAt.Some? && maxServerUpdatedAt.value > poll.anchor {
        anchor := maxServerUpdatedAt;
      }
      LatestIs(allNewReads, poll.snapshot.value, poll.anchor, anchor.value);
      MergedIsRecent(poll.existing, allNewReads, poll.snapshot.value, poll.anchor);
      cached := Merge(poll.existing, allNewReads);
    }

    /** A whole poll during which nothing else happens: every page of the rows since the anchor. */
    method QueryFn(rows: map<Id, ReadRow>)
      requires "" !in rows
      modifies this
      ensures old(anchor).None? ==> anchor == None && cached == map[]
      ensures old(anchor).Some? ==>
                var poll := ReadPoll(old(anchor).value, old(cached), Some(rows), true);
                anchor == Some(NextAnchor(poll)) && cached == NextCache(poll)
    {
      var poll := StartPoll();
      if poll.None? {
        return;
      }
      var allNewReads := FetchNewReads(rows, poll.value.anchor);
      FinishPoll(poll.value.(snapshot := Some(rows)), allNewReads);
    }

    /** A mark appears in the cache at once; if the server refuses it, the cache is as before. */
    method UpdateItemReadStatus(ids: seq<Id>, isRead: bool, accepted: bool)
      modifies this`cached
      ensures accepted ==> cached == old(cached) + FlagAll(SetOf(ids), isRead)
      ensures accepted ==> forall id :: id in ids ==> id in cached && cached[id] == isRead
      ensures forall id :: id !in ids ==>
                (id in cached <==> id in old(cached)) && (id in old(cached) ==> cached[id] == old(cached)[id])
      ensures !accepted ==> cached == old(cached)
    {
      var previousStates := map id | id in cached && id in ids :: cached[id];
      MarkCached(ids, isRead);
      if !accepted {
        RollBack(ids, previousStates, old(cached));
      }
    }

    method MarkCached(ids: seq<Id>, isRead: bool)
      modifies this`cached
      ensures cached == old(cached) + FlagAll(SetOf(ids), isRead)
    {
      for k := 0 to |ids|
        invariant cached == old(cached) + FlagAll(SetOf(ids[..k]), isRead)
      {
        FlagOneMore(ids, k, isRead);
        cached := cached[ids[k] := isRead];
      }
      assert ids[..|ids|] == ids;
    }

    method RollBack(ids: seq<Id>, previousStates: map<Id, bool>, ghost before: map<Id, bool>)
      requires previousStates == map id | id in before && id in ids :: before[id]
      requires forall id :: id !in ids ==>
                 (id in cached <==> id in before) && (id in before ==> cached[id] == before[id])
      modifies this`cached
      ensures cached == before
    {
      for k := 0 to |ids|
        invariant forall id :: id in ids[..k] || id !in ids ==>
                    (id in cached <==> id in before) && (id in before ==> cached[id] == before[id])
      {
        assert forall id :: id in ids[..k + 1] <==> id in ids[..k] || id == ids[k];
        if ids[k] in previousStates {
          cached := cached[ids[k] := previousStates[ids[k]]];
        } else {
          cached := cached - {ids[k]};
        }
      }
      assert ids[..|ids|] == ids;
      assert forall id :: id in cached <==> id in before;
    }
  }

  lemma LatestIs(allNewReads: seq<Row<bool>>, rows: map<Id, ReadRow>, since: int, newest: int)
    requires ListsSince(allNewReads, rows, since)
    requires forall i :: 0 <= i < |allNewReads| ==> allNewReads[i].key.stamp <= newest
    requires newest >= since
    requires newest == since || exists i :: 0 <= i < |allNewReads| && allNewReads[i].key.stamp == newest
    ensures newest == Latest(RecentStamps(rows, since), since)
  {
    hide DistinctIds, Latest;
    var stamps := RecentStamps(rows, since);
    var latest := Latest(stamps, since);
    if latest in stamps {
      var id :| id in rows && rows[id].updatedAt >= since && rows[id].updatedAt == latest;
      assert Lists(allNewReads, id);
      var i :| 0 <= i < |allNewReads| && allNewReads[i].key.id == id;
      assert IsRow(allNewReads[i], rows, since);
    }
    if newest != since {
      var i :| 0 <= i < |allNewReads| && allNewReads[i].key.stamp == newest;
      assert IsRow(allNewReads[i], rows, since);
      assert rows[allNewReads[i].key.id].updatedAt in stamps;
    }
  }
}
