/** What the item list and the tag list show, frontend/src/lib/queries/item-queries.ts:16-114. */
module Views {
  import opened Wrappers

  /** Objects of the page: looked up by identity, never changed. */
  class ListItem {
    const id: string
    const feedId: string
    const publishedAt: Option<int>
    const createdAt: Option<int>
    const isRead: bool

    constructor (id: string, feedId: string, publishedAt: Option<int>, createdAt: Option<int>, isRead: bool)
      ensures this.id == id && this.feedId == feedId && this.publishedAt == publishedAt
      ensures this.createdAt == createdAt && this.isRead == isRead
    {
      this.id, this.feedId, this.publishedAt, this.createdAt, this.isRead := id, feedId, publishedAt, createdAt, isRead;
    }
  }

  class ItemList {
    const items: seq<ListItem>

    constructor (items: seq<ListItem>)
      ensures this.items == items
    {
      this.items := items;
    }
  }

  datatype MergedItem = MergedItem(item: ListItem, isRead: bool)

  datatype ItemRead = ItemRead(id: string, isRead: bool)

  datatype FeedTag = FeedTag(feedId: string, tagId: string)

  /** An empty identifier asks for no filter. */
  datatype Options = Options(tagId: string, itemId: string, unreadOnly: bool)

  const MAX_SAFE_INTEGER := 9007199254740991

  // ----- sorting

  function Published(item: ListItem): int {
    if item.publishedAt.Some? then item.publishedAt.value else MAX_SAFE_INTEGER
  }

  function Created(item: ListItem): int {
    if item.createdAt.Some? then item.createdAt.value else 0
  }

  /** The comparison of the sort: undated items come last. */
  predicate Before(a: ListItem, b: ListItem) {
    Published(a) < Published(b) || (Published(a) == Published(b) && Created(a) < Created(b))
  }

  function Insert(sorted: seq<ListItem>, item: ListItem): seq<ListItem> {
    if sorted != [] && Before(item, sorted[|sorted| - 1]) then
      Insert(sorted[..|sorted| - 1], item) + [sorted[|sorted| - 1]]
    else sorted + [item]
  }

  /** JavaScript's sort, which is stable. */
  function SortItems(items: seq<ListItem>): seq<ListItem> {
    if items == [] then [] else Insert(SortItems(items[..|items| - 1]), items[|items| - 1])
  }

  ghost predicate Ordered(items: seq<ListItem>) {
    forall i, j :: 0 <= i < j < |items| ==> !Before(items[j], items[i])
  }

  /** The items that compare equal to `key`, in order. */
  function Alike(items: seq<ListItem>, key: ListItem): seq<ListItem> {
    if items == [] then []
    else
      var last := items[|items| - 1];
      Alike(items[..|items| - 1], key) + if Before(last, key) || Before(key, last) then [] else [last]
  }

  lemma {:induction false} InsertPermutes(sorted: seq<ListItem>, item: ListItem)
    ensures multiset(Insert(sorted, item)) == multiset(sorted + [item])
  {
    if sorted != [] && Before(item, sorted[|sorted| - 1]) {
      var init, last := sorted[..|sorted| - 1], sorted[|sorted| - 1];
      InsertPermutes(init, item);
      assert sorted + [item] == init + [last] + [item];
    }
  }

  lemma {:induction false} InsertKeepsOrder(sorted: seq<ListItem>, item: ListItem)
    requires Ordered(sorted)
    ensures Ordered(Insert(sorted, item))
  {
    if sorted != [] && Before(item, sorted[|sorted| - 1]) {
      var init, last := sorted[..|sorted| - 1], sorted[|sorted| - 1];
      InsertKeepsOrder(init, item);
      var inserted := Insert(init, item);
      forall i | 0 <= i < |inserted| ensures !Before(last, inserted[i]) {
        InsertPermutes(init, item);
        assert inserted[i] in multiset(inserted);
        assert inserted[i] in init || inserted[i] == item;
      }
      hide Before;
    } else {
      forall i | 0 <= i < |sorted| ensures !Before(item, sorted[i]) {
        assert i < |sorted| - 1 ==> !Before(sorted[|sorted| - 1], sorted[i]);
      }
    }
  }

  lemma {:induction false} InsertIsStable(sorted: seq<ListItem>, item: ListItem, key: ListItem)
    ensures Alike(Insert(sorted, item), key) ==
            Alike(sorted, key) + if Before(item, key) || Before(key, item) then [] else [item]
    decreases |sorted|
  {
    if sorted != [] && Before(item, sorted[|sorted| - 1]) {
      var init, last := sorted[..|sorted| - 1], sorted[|sorted| - 1];
      InsertIsStable(init, item, key);
      assert (Insert(init, item) + [last])[..|Insert(init, item)|] == Insert(init, item);
    } else {
      assert (sorted + [item])[..|sorted|] == sorted;
    }
  }

  /** The list in order of publication and creation, items that compare equal keeping their order. */
  lemma {:induction false} SortIsStable(items: seq<ListItem>, key: ListItem)
    ensures Ordered(SortItems(items)) && multiset(SortItems(items)) == multiset(items)
    ensures Alike(SortItems(items), key) == Alike(items, key)
    decreases |items|
  {
    if items != [] {
      var init, last := items[..|items| - 1], items[|items| - 1];
      assert items == init + [last];
      SortIsStable(init, key);
      InsertKeepsOrder(SortItems(init), last);
      InsertPermutes(SortItems(init), last);
      InsertIsStable(SortItems(init), last, key);
    }
  }

  lemma SortIsOrdered(items: seq<ListItem>)
    ensures Ordered(SortItems(items))
  {
    if items != [] {
      SortIsStable(items, items[0]);
    }
  }

  // ----- merging

  /** The flag of the last entry for an item. */
  function ReadOf(flags: seq<ItemRead>, id: string): Option<bool> {
    if flags == [] then None
    else if flags[|flags| - 1].id == id then Some(flags[|flags| - 1].isRead)
    else ReadOf(flags[..|flags| - 1], id)
  }

  function Merged(item: ListItem, flags: seq<ItemRead>): MergedItem {
    MergedItem(item, if ReadOf(flags, item.id).Some? then ReadOf(flags, item.id).value else item.isRead)
  }

  function AllMerged(items: seq<ListItem>, flags: seq<ItemRead>): (merged: seq<MergedItem>)
    ensures |merged| == |items|
  {
    if items == [] then [] else AllMerged(items[..|items| - 1], flags) + [Merged(items[|items| - 1], flags)]
  }

  predicate Tagged(feedTags: seq<FeedTag>, feedId: string, tagId: string) {
    FeedTag(feedId, tagId) in feedTags
  }

  predicate Wanted(m: MergedItem, feedTags: seq<FeedTag>, options: Options) {
    && (options.itemId != "" ==> m.item.id == options.itemId)
    && (options.tagId != "" ==> Tagged(feedTags, m.item.feedId, options.tagId))
    && (options.unreadOnly ==> !m.isRead)
  }

  function Filter(items: seq<MergedItem>, feedTags: seq<FeedTag>, options: Options): seq<MergedItem> {
    if items == [] then []
    else
      Filter(items[..|items| - 1], feedTags, options)
      + if Wanted(items[|items| - 1], feedTags, options) then [items[|items| - 1]] else []
  }

  /** The view without any cache. */
  function View(items: seq<ListItem>, flags: seq<ItemRead>, feedTags: seq<FeedTag>, options: Options): seq<MergedItem> {
    Filter(AllMerged(SortItems(items), flags), feedTags, options)
  }

  /** Filtering by one option after another is filtering by all at once. */
  lemma {:induction false} FilterTwice(items: seq<MergedItem>, feedTags: seq<FeedTag>, p: Options, q: Options,
                                       both: Options)
    requires both == Options(if p.tagId != "" then p.tagId else q.tagId, if p.itemId != "" then p.itemId else q.itemId,
                             p.unreadOnly || q.unreadOnly)
    requires (p.tagId == "" || q.tagId == "") && (p.itemId == "" || q.itemId == "")
    ensures Filter(Filter(items, feedTags, p), feedTags, q) == Filter(items, feedTags, both)
    decreases |items|
  {
    if items != [] {
      var init, last := items[..|items| - 1], items[|items| - 1];
      FilterTwice(init, feedTags, p, q, both);
      var kept := Filter(init, feedTags, p);
      if Wanted(last, feedTags, p) {
        assert (kept + [last])[..|kept|] == kept;
      } else {
        assert kept + [] == kept;
      }
    }
  }

  lemma {:induction false} NoFilter(items: seq<MergedItem>, feedTags: seq<FeedTag>)
    ensures Filter(items, feedTags, Options("", "", false)) == items
    decreases |items|
  {
    if items != [] {
      NoFilter(items[..|items| - 1], feedTags);
    }
  }

  // ----- what the view is, item by item

  /** The last entry for an item. */
  ghost predicate LastEntry(flags: seq<ItemRead>, id: string, k: int) {
    0 <= k < |flags| && flags[k].id == id && forall j :: k < j < |flags| ==> flags[j].id != id
  }

  /** The item is shown with the flag of the last entry for it, or with its own if there is none. */
  ghost predicate Shows(m: MergedItem, flags: seq<ItemRead>) {
    && (forall k :: LastEntry(flags, m.item.id, k) ==> m.isRead == flags[k].isRead)
    && ((forall k :: 0 <= k < |flags| ==> flags[k].id != m.item.id) ==> m.isRead == m.item.isRead)
  }

  lemma {:induction false} ReadOfIs(flags: seq<ItemRead>, id: string)
    ensures ReadOf(flags, id).None? <==> forall k :: 0 <= k < |flags| ==> flags[k].id != id
    ensures ReadOf(flags, id).Some? ==>
              exists k :: LastEntry(flags, id, k) && flags[k].isRead == ReadOf(flags, id).value
    decreases |flags|
  {
    if flags != [] {
      var init, last := flags[..|flags| - 1], |flags| - 1;
      ReadOfIs(init, id);
      if flags[last].id == id {
        assert LastEntry(flags, id, last);
      } else if ReadOf(init, id).Some? {
        var k :| LastEntry(init, id, k) && init[k].isRead == ReadOf(init, id).value;
        assert LastEntry(flags, id, k);
      }
    }
  }

  lemma ShowsIs(m: MergedItem, flags: seq<ItemRead>)
    ensures m == Merged(m.item, flags) <==> Shows(m, flags)
  {
    ReadOfIs(flags, m.item.id);
    if ReadOf(flags, m.item.id).Some? {
      var k :| LastEntry(flags, m.item.id, k) && flags[k].isRead == ReadOf(flags, m.item.id).value;
      assert forall j :: LastEntry(flags, m.item.id, j) ==> j == k;
    }
  }

  lemma {:induction false} CountMerged(items: seq<ListItem>, flags: seq<ItemRead>, m: MergedItem)
    ensures multiset(AllMerged(items, flags))[m] == if m == Merged(m.item, flags) then multiset(items)[m.item] else 0
    decreases |items|
  {
    if items != [] {
      var init, last := items[..|items| - 1], items[|items| - 1];
      assert items == init + [last];
      CountMerged(init, flags, m);
    }
  }

  lemma {:induction false} CountFiltered(items: seq<MergedItem>, feedTags: seq<FeedTag>, options: Options,
                                         m: MergedItem)
    ensures multiset(Filter(items, feedTags, options))[m] ==
            if Wanted(m, feedTags, options) then multiset(items)[m] else 0
    decreases |items|
  {
    if items != [] {
      var init, last := items[..|items| - 1], items[|items| - 1];
      assert items == init + [last];
      CountFiltered(init, feedTags, options, m);
    }
  }

  /** Which items the view holds, and how often: those of the list, shown with their flags, that pass
      every filter given. */
  lemma ViewHolds(items: seq<ListItem>, flags: seq<ItemRead>, feedTags: seq<FeedTag>, options: Options, m: MergedItem)
    ensures multiset(View(items, flags, feedTags, options))[m] ==
              if Shows(m, flags) && (options.itemId != "" ==> m.item.id == options.itemId)
                 && (options.tagId != "" ==> FeedTag(m.item.feedId, options.tagId) in feedTags)
                 && (options.unreadOnly ==> !m.isRead)
              then multiset(items)[m.item] else 0
  {
    hide AllMerged, Filter, Merged, Shows, SortItems;
    CountFiltered(AllMerged(SortItems(items), flags), feedTags, options, m);
    CountMerged(SortItems(items), flags, m);
    ShowsIs(m, flags);
    SortIsStable(items, m.item);
  }

  ghost predicate InOrder(items: seq<MergedItem>) {
    forall i, j :: 0 <= i < j < |items| ==> !Before(items[j].item, items[i].item)
  }

  lemma {:induction false} MergedInOrder(items: seq<ListItem>, flags: seq<ItemRead>)
    requires Ordered(items)
    ensures InOrder(AllMerged(items, flags))
    ensures forall k :: 0 <= k < |items| ==> AllMerged(items, flags)[k].item == items[k]
    decreases |items|
  {
    hide Before;
    if items != [] {
      MergedInOrder(items[..|items| - 1], flags);
    }
  }

  lemma {:induction false} FilteredInOrder(items: seq<MergedItem>, feedTags: seq<FeedTag>, options: Options)
    requires InOrder(items)
    ensures InOrder(Filter(items, feedTags, options))
    ensures forall m :: m in Filter(items, feedTags, options) ==> m in items
    decreases |items|
  {
    hide Before, Wanted;
    if items != [] {
      var init, last := items[..|items| - 1], items[|items| - 1];
      FilteredInOrder(init, feedTags, options);
      var kept := Filter(init, feedTags, options);
      forall i | 0 <= i < |kept| ensures !Before(last.item, kept[i].item) {
        assert kept[i] in init;
      }
    }
  }

  /** The order of the view: ascending publication times, items without one last, and at equal times
      ascending creation times, a missing one counting as zero. */
  lemma ViewOrder(items: seq<ListItem>, flags: seq<ItemRead>, feedTags: seq<FeedTag>, options: Options, i: nat, j: nat)
    requires i < j < |View(items, flags, feedTags, options)|
    ensures var view := View(items, flags, feedTags, options);
            var (a, b) := (view[i].item, view[j].item);
            && (a.publishedAt.Some? && b.publishedAt.Some? ==> a.publishedAt.value <= b.publishedAt.value)
            && (a.publishedAt.None? && b.publishedAt.Some? ==> b.publishedAt.value >= MAX_SAFE_INTEGER)
            && (a.publishedAt == b.publishedAt ==>
                  (if a.createdAt.Some? then a.createdAt.value else 0)
                  <= (if b.createdAt.Some? then b.createdAt.value else 0))
  {
    SortIsOrdered(items);
    MergedInOrder(SortItems(items), flags);
    FilteredInOrder(AllMerged(SortItems(items), flags), feedTags, options);
    hide SortItems, AllMerged, Filter;
    assert !Before(View(items, flags, feedTags, options)[j].item, View(items, flags, feedTags, options)[i].item);
  }

  lemma ViewMembers(items: seq<ListItem>, flags: seq<ItemRead>, feedTags: seq<FeedTag>, options: Options, m: MergedItem)
    ensures var result := View(items, flags, feedTags, options);
            && (m in result <==>
                  m.item in items && Shows(m, flags) && (options.itemId != "" ==> m.item.id == options.itemId)
                  && (options.tagId != "" ==> FeedTag(m.item.feedId, options.tagId) in feedTags)
                  && (options.unreadOnly ==> !m.isRead))
            && (m in result ==> multiset(result)[m] == multiset(items)[m.item])
  {
    hide View, Shows;
    var result := View(items, flags, feedTags, options);
    ViewHolds(items, flags, feedTags, options, m);
    assert m in result <==> m in multiset(result);
    assert m.item in items <==> m.item in multiset(items);
  }

  /** The two caches that survive from call to call. */
  class MergedItems {
    var mergedItemCache: map<ListItem, (bool, MergedItem)>
    var sortedItemsCache: map<ItemList, seq<ListItem>>

    constructor ()
      ensures Valid()
    {
      mergedItemCache, sortedItemsCache := map[], map[];
    }

    ghost predicate Valid()
      reads this
    {
      && (forall item :: item in mergedItemCache ==>
            mergedItemCache[item].1 == MergedItem(item, mergedItemCache[item].0))
      && (forall list :: list in sortedItemsCache ==> sortedItemsCache[list] == SortItems(list.items))
    }

    method Sorted(list: ItemList) returns (sorted: seq<ListItem>)
      requires Valid()
      modifies this
      ensures Valid() && sorted == SortItems(list.items)
    {
      if list in sortedItemsCache {
        return sortedItemsCache[list];
      }
      sorted := SortItems(list.items);
      sortedItemsCache := sortedItemsCache[list := sorted];
    }

    method Merge(items: seq<ListItem>, flags: seq<ItemRead>) returns (result: seq<MergedItem>)
      requires Valid()
      modifies this
      ensures Valid() && result == AllMerged(items, flags)
    {
      var readMap: map<string, bool> := map[];
      for i := 0 to |flags|
        invariant Valid()
        invariant forall id :: (if id in readMap then Some(readMap[id]) else None) == ReadOf(flags[..i], id)
      {
        assert flags[..i + 1][..i] == flags[..i];
        readMap := readMap[flags[i].id := flags[i].isRead];
      }
      assert flags[..|flags|] == flags;
      result := [];
      for i := 0 to |items|
        invariant Valid() && result == AllMerged(items[..i], flags)
      {
        assert items[..i + 1][..i] == items[..i];
        var item := items[i];
        assert (if item.id in readMap then Some(readMap[item.id]) else None) == ReadOf(flags, item.id);
        var isRead := if item.id in readMap then readMap[item.id] else item.isRead;
        if item in mergedItemCache && mergedItemCache[item].0 == isRead {
          result := result + [mergedItemCache[item].1];
        } else {
          var merged := MergedItem(item, isRead);
          mergedItemCache := mergedItemCache[item := (isRead, merged)];
          result := result + [merged];
        }
      }
      assert items[..|items|] == items;
    }

    /** The result of the caches and filters is the uncached view. */
    method Filtered(list: ItemList, flags: seq<ItemRead>, feedTags: seq<FeedTag>, options: Options)
      returns (result: seq<MergedItem>)
      requires Valid()
      modifies this
      ensures Valid() && result == View(list.items, flags, feedTags, options)
    {
      if |list.items| == 0 {
        return [];
      }
      var sorted := Sorted(list);
      result := Merge(sorted, flags);
      ghost var all := result;
      NoFilter(all, feedTags);
      ghost var used := Options("", "", false);
      if options.itemId != "" {
        FilterTwice(all, feedTags, used, Options("", options.itemId, false), used.(itemId := options.itemId));
        used := used.(itemId := options.itemId);
        result := Filter(result, feedTags, Options("", options.itemId, false));
      }
      if options.tagId != "" {
        FilterTwice(all, feedTags, used, Options(options.tagId, "", false), used.(tagId := options.tagId));
        used := used.(tagId := options.tagId);
        result := Filter(result, feedTags, Options(options.tagId, "", false));
      }
      if options.unreadOnly {
        FilterTwice(all, feedTags, used, Options("", "", true), used.(unreadOnly := true));
        used := used.(unreadOnly := true);
        result := Filter(result, feedTags, Options("", "", true));
      }
      assert used == options;
    }

    /** Whatever calls came before: the items of the list that pass the filters given, each with the flag
        of its last entry or else its own, as often as the list has it; by ascending publication time,
        items without one last, and then by creation time, a missing one counting as zero. */
    method GetItemsWithReadState(list: ItemList, flags: seq<ItemRead>, feedTags: seq<FeedTag>, options: Options)
      returns (result: seq<MergedItem>)
      requires Valid()
      modifies this
      ensures Valid() && result == View(list.items, flags, feedTags, options)
      ensures forall m :: m in result <==>
                m.item in list.items && Shows(m, flags) && (options.itemId != "" ==> m.item.id == options.itemId)
                && (options.tagId != "" ==> FeedTag(m.item.feedId, options.tagId) in feedTags)
                && (options.unreadOnly ==> !m.isRead)
      ensures forall m :: m in result ==> multiset(result)[m] == multiset(list.items)[m.item]
      ensures forall i, j :: 0 <= i < j < |result| ==>
                var (a, b) := (result[i].item, result[j].item);
                && (a.publishedAt.Some? && b.publishedAt.Some? ==> a.publishedAt.value <= b.publishedAt.value)
                && (a.publishedAt.None? && b.publishedAt.Some? ==> b.publishedAt.value >= MAX_SAFE_INTEGER)
                && (a.publishedAt == b.publishedAt ==>
                      (if a.createdAt.Some? then a.createdAt.value else 0)
                      <= (if b.createdAt.Some? then b.createdAt.value else 0))
    {
      hide View, Shows;
      result := Filtered(list, flags, feedTags, options);
      forall m: MergedItem
        ensures (m in result <==>
                  m.item in list.items && Shows(m, flags) && (options.itemId != "" ==> m.item.id == options.itemId)
                  && (options.tagId != "" ==> FeedTag(m.item.feedId, options.tagId) in feedTags)
                  && (options.unreadOnly ==> !m.isRead))
                && (m in result ==> multiset(result)[m] == multiset(list.items)[m.item])
      {
        ViewMembers(list.items, flags, feedTags, options, m);
      }
      forall i: nat, j: nat | i < j < |result|
        ensures var (a, b) := (result[i].item, result[j].item);
                && (a.publishedAt.Some? && b.publishedAt.Some? ==> a.publishedAt.value <= b.publishedAt.value)
                && (a.publishedAt.None? && b.publishedAt.Some? ==> b.publishedAt.value >= MAX_SAFE_INTEGER)
                && (a.publishedAt == b.publishedAt ==>
                      (if a.createdAt.Some? then a.createdAt.value else 0)
                      <= (if b.createdAt.Some? then b.createdAt.value else 0))
      {
        ViewOrder(list.items, flags, feedTags, options, i, j);
      }
    }
  }

  // ----- unread counts of tags

  function Occurrences(feeds: seq<string>, feedId: string): nat {
    if feeds == [] then 0
    else Occurrences(feeds[..|feeds| - 1], feedId) + if feeds[|feeds| - 1] == feedId then 1 else 0
  }

  /** The feeds with a tag, in the order of the associations. */
  function FeedsWith(feedTags: seq<FeedTag>, tagId: string): seq<string> {
    if feedTags == [] then []
    else
      FeedsWith(feedTags[..|feedTags| - 1], tagId)
      + if feedTags[|feedTags| - 1].tagId == tagId then [feedTags[|feedTags| - 1].feedId] else []
  }

  /** What the loop accumulates: for each association, the unread items of its feed. */
  function Accumulated(feeds: seq<string>, unread: seq<string>): nat {
    if feeds == [] then 0
    else Accumulated(feeds[..|feeds| - 1], unread) + Occurrences(unread, feeds[|feeds| - 1])
  }

  /** The number of unread items whose feed carries the tag. */
  function UnreadWith(feedTags: seq<FeedTag>, tagId: string, unread: seq<string>): nat {
    if unread == [] then 0
    else
      UnreadWith(feedTags, tagId, unread[..|unread| - 1])
      + if Tagged(feedTags, unread[|unread| - 1], tagId) then 1 else 0
  }

  function Counts(tags: seq<string>, feedTags: seq<FeedTag>, unread: seq<string>): seq<nat> {
    if tags == [] then []
    else
      Counts(tags[..|tags| - 1], feedTags, unread)
      + [Accumulated(FeedsWith(feedTags, tags[|tags| - 1]), unread)]
  }

  method CountByFeed(unread: seq<string>) returns (counts: map<string, nat>)
    ensures forall feedId :: (if feedId in counts then counts[feedId] else 0) == Occurrences(unread, feedId)
  {
    counts := map[];
    for i := 0 to |unread|
      invariant forall feedId :: (if feedId in counts then counts[feedId] else 0) == Occurrences(unread[..i], feedId)
    {
      assert unread[..i + 1][..i] == unread[..i];
      counts := counts[unread[i] := (if unread[i] in counts then counts[unread[i]] else 0) + 1];
    }
    assert unread[..|unread|] == unread;
  }

  lemma {:induction false} OneMoreItem(feeds: seq<string>, unread: seq<string>, feedId: string)
    ensures Accumulated(feeds, unread + [feedId]) == Accumulated(feeds, unread) + Occurrences(feeds, feedId)
    decreases |feeds|
  {
    if feeds != [] {
      OneMoreItem(feeds[..|feeds| - 1], unread, feedId);
      assert (unread + [feedId])[..|unread|] == unread;
    }
  }

  lemma {:induction false} NoItems(feeds: seq<string>)
    ensures Accumulated(feeds, []) == 0
    decreases |feeds|
  {
    if feeds != [] {
      NoItems(feeds[..|feeds| - 1]);
    }
  }

  ghost predicate DistinctPairs(feedTags: seq<FeedTag>, tagId: string) {
    forall i, j :: 0 <= i < j < |feedTags| && feedTags[i].tagId == feedTags[j].tagId == tagId ==>
      feedTags[i].feedId != feedTags[j].feedId
  }

  lemma {:induction false} OccurrencesOfFeed(feedTags: seq<FeedTag>, tagId: string, feedId: string)
    ensures Occurrences(FeedsWith(feedTags, tagId), feedId) >= 1 <==> Tagged(feedTags, feedId, tagId)
    ensures DistinctPairs(feedTags, tagId) ==> Occurrences(FeedsWith(feedTags, tagId), feedId) <= 1
    decreases |feedTags|
  {
    if feedTags != [] {
      var init, last := feedTags[..|feedTags| - 1], feedTags[|feedTags| - 1];
      assert feedTags == init + [last];
      OccurrencesOfFeed(init, tagId, feedId);
      var feeds := FeedsWith(init, tagId);
      if last.tagId == tagId {
        assert (feeds + [last.feedId])[..|feeds|] == feeds;
      } else {
        assert feeds + [] == feeds;
      }
    }
  }

  lemma {:induction false} RepeatedPairCountsTwice(feedTags: seq<FeedTag>, tagId: string, i: nat, j: nat)
    requires i < j < |feedTags| && feedTags[i] == feedTags[j] && feedTags[i].tagId == tagId
    ensures Occurrences(FeedsWith(feedTags, tagId), feedTags[i].feedId) >= 2
    decreases |feedTags|
  {
    var init, last := feedTags[..|feedTags| - 1], feedTags[|feedTags| - 1];
    var feeds := FeedsWith(init, tagId);
    if j < |init| {
      RepeatedPairCountsTwice(init, tagId, i, j);
    } else {
      assert init[i] == feedTags[i];
      OccurrencesOfFeed(init, tagId, last.feedId);
    }
    if last.tagId == tagId {
      assert (feeds + [last.feedId])[..|feeds|] == feeds;
    } else {
      assert feeds + [] == feeds;
    }
  }

  lemma {:induction false} DistinctPairsCountExactly(feedTags: seq<FeedTag>, tagId: string, unread: seq<string>)
    requires DistinctPairs(feedTags, tagId)
    ensures Accumulated(FeedsWith(feedTags, tagId), unread) == UnreadWith(feedTags, tagId, unread)
    decreases |unread|
  {
    if unread == [] {
      NoItems(FeedsWith(feedTags, tagId));
    } else {
      var init, last := unread[..|unread| - 1], unread[|unread| - 1];
      assert unread == init + [last];
      DistinctPairsCountExactly(feedTags, tagId, init);
      OneMoreItem(FeedsWith(feedTags, tagId), init, last);
      OccurrencesOfFeed(feedTags, tagId, last);
    }
  }

  lemma {:induction false} CountsAre(tags: seq<string>, feedTags: seq<FeedTag>, unread: seq<string>)
    ensures |Counts(tags, feedTags, unread)| == |tags|
    ensures forall i :: 0 <= i < |tags| ==>
              Counts(tags, feedTags, unread)[i] == Accumulated(FeedsWith(feedTags, tags[i]), unread)
    decreases |tags|
  {
    hide FeedsWith, Accumulated;
    if tags != [] {
      CountsAre(tags[..|tags| - 1], feedTags, unread);
    }
  }

  /** The positions of the unread items whose feed is associated with the tag. */
  ghost function ItemsTagged(feedTags: seq<FeedTag>, tagId: string, unread: seq<string>): set<nat> {
    set k: nat | k < |unread| && FeedTag(unread[k], tagId) in feedTags
  }

  lemma {:induction false} UnreadWithIs(feedTags: seq<FeedTag>, tagId: string, unread: seq<string>)
    ensures UnreadWith(feedTags, tagId, unread) == |ItemsTagged(feedTags, tagId, unread)|
    decreases |unread|
  {
    if unread == [] {
      assert ItemsTagged(feedTags, tagId, unread) == {};
    } else {
      var n: nat := |unread| - 1;
      UnreadWithIs(feedTags, tagId, unread[..n]);
      assert Tagged(feedTags, unread[n], tagId) <==> FeedTag(unread[n], tagId) in feedTags;
      assert ItemsTagged(feedTags, tagId, unread) ==
             ItemsTagged(feedTags, tagId, unread[..n])
             + if FeedTag(unread[n], tagId) in feedTags then {n} else {};
    }
  }

  lemma CountsExact(tags: seq<string>, feedTags: seq<FeedTag>, unread: seq<string>)
    ensures |Counts(tags, feedTags, unread)| == |tags|
    ensures forall i :: 0 <= i < |tags| && DistinctPairs(feedTags, tags[i]) ==>
              Counts(tags, feedTags, unread)[i] == |ItemsTagged(feedTags, tags[i], unread)|
  {
    CountsAre(tags, feedTags, unread);
    hide Counts, DistinctPairs, ItemsTagged, Accumulated, FeedsWith, UnreadWith;
    forall i | 0 <= i < |tags| && DistinctPairs(feedTags, tags[i])
      ensures Counts(tags, feedTags, unread)[i] == |ItemsTagged(feedTags, tags[i], unread)|
    {
      DistinctPairsCountExactly(feedTags, tags[i], unread);
      UnreadWithIs(feedTags, tags[i], unread);
    }
  }

  /** `unread` holds the feed of each unread item. */
  method GetTagUnreadCounts(tags: seq<string>, feedTags: seq<FeedTag>, unread: seq<string>) returns (counts: seq<nat>)
    ensures counts == Counts(tags, feedTags, unread) && |counts| == |tags|
    ensures forall i :: 0 <= i < |tags| && DistinctPairs(feedTags, tags[i]) ==>
              counts[i] == |ItemsTagged(feedTags, tags[i], unread)|
  {
    CountsExact(tags, feedTags, unread);
    hide DistinctPairs, ItemsTagged;
    var byFeed := CountByFeed(unread);
    counts := [];
    for i := 0 to |tags|
      invariant counts == Counts(tags[..i], feedTags, unread)
    {
      assert tags[..i + 1][..i] == tags[..i];
      var matched := FeedsWith(feedTags, tags[i]);
      var count: nat := 0;
      for k := 0 to |matched|
        invariant count == Accumulated(matched[..k], unread)
      {
        assert matched[..k + 1][..k] == matched[..k];
        count := count + if matched[k] in byFeed then byFeed[matched[k]] else 0;
      }
      assert matched[..|matched|] == matched;
      counts := counts + [count];
    }
    assert tags[..|tags|] == tags;
  }

  /** A tag's count is the number of unread items whose feed carries it, whatever is unread, exactly
      when no association of the tag is listed twice. */
  lemma TagCountsAreExact(feedTags: seq<FeedTag>, tagId: string)
    ensures (forall unread :: Accumulated(FeedsWith(feedTags, tagId), unread) == UnreadWith(feedTags, tagId, unread))
            <==> DistinctPairs(feedTags, tagId)
  {
    if DistinctPairs(feedTags, tagId) {
      forall unread ensures Accumulated(FeedsWith(feedTags, tagId), unread) == UnreadWith(feedTags, tagId, unread) {
        DistinctPairsCountExactly(feedTags, tagId, unread);
      }
    } else {
      var i: nat, j: nat :| i < j < |feedTags| && feedTags[i].tagId == feedTags[j].tagId == tagId
                            && feedTags[i].feedId == feedTags[j].feedId;
      RepeatedPairCountsTwice(feedTags, tagId, i, j);
      var feedId := feedTags[i].feedId;
      OneMoreItem(FeedsWith(feedTags, tagId), [], feedId);
      NoItems(FeedsWith(feedTags, tagId));
      assert [] + [feedId] == [feedId];
      assert UnreadWith(feedTags, tagId, [feedId]) <= 1 by {
        assert [feedId][..0] == [];
        assert UnreadWith(feedTags, tagId, []) == 0;
      }
    }
  }
}
