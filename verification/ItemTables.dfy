/** What saving items again and again keeps: store/query.sql.go:298-309, 388-413, 517-524 and
    cmd/feed-reader/write_queue.go:144-238. */
module ItemTables {
  import opened FeedStore
  import opened ItemReads
  import opened Wrappers

  ghost predicate Linked(db: Db, id: string) {
    exists feed :: feed in db.feeds && (feed, id) in db.links
  }

  ghost predicate Keyed(db: Db) {
    forall url :: url in db.items ==> db.items[url].url == url && db.items[url].id in db.readRows
  }

  ghost predicate DistinctIds(db: Db) {
    forall u, v :: u in db.items && v in db.items && db.items[u].id == db.items[v].id ==> u == v
  }

  ghost predicate ReadsBelong(db: Db) {
    forall id :: id in db.readRows ==> id in ItemIds(db)
  }

  ghost predicate AllLinked(db: Db) {
    forall url :: url in db.items ==> Linked(db, db.items[url].id)
  }

  /** One item for each URL and identifier, exactly one read row for each item and none besides, and
      a feed for every item. */
  ghost predicate Tables(db: Db) {
    Keyed(db) && DistinctIds(db) && ReadsBelong(db) && AllLinked(db)
  }

  /** Nothing disappears, and items keep what identifies them. */
  ghost predicate Kept(a: Db, b: Db) {
    && (forall url :: url in a.items ==> url in b.items && SameIdentity(a.items[url], b.items[url]))
    && a.readRows.Keys <= b.readRows.Keys && a.feeds <= b.feeds && a.links <= b.links && a.blocks <= b.blocks
    && a.rules <= b.rules
  }

  ghost predicate SameIdentity(a: Item, b: Item) {
    a.id == b.id && a.createdAt == b.createdAt && a.publishedAt == b.publishedAt
  }

  /** Read rows are as they were, and new ones start unread. */
  ghost predicate ReadsKept(a: Db, b: Db) {
    && (forall id :: id in a.readRows ==> id in b.readRows && b.readRows[id] == a.readRows[id])
    && (forall id :: id in b.readRows && id !in a.readRows ==> !b.readRows[id].isRead)
  }

  lemma KeptItself(a: Db)
    ensures Kept(a, a)
  {}

  lemma KeptTransitive(a: Db, b: Db, c: Db)
    requires Kept(a, b) && Kept(b, c)
    ensures Kept(a, c)
  {}

  /** What saving one item changes: its row, a link, at most one read row and its blocks. */
  lemma SaveOneShape(db: Db, st: Setting, f: Fetched, id: string, now: int, db': Db)
    requires Tables(db) && SaveOne(db, st, f, id, now) == Ok(db')
    ensures var url := if st.lib.clean(f.url).Some? then st.lib.clean(f.url).value else f.url;
            && url in db'.items && f.feed in db.feeds
            && var item := db'.items[url];
            && item == (if url in db.items then db.items[url].(details := f.details, updatedAt := now)
                        else Item(id, url, f.details, f.publishedAt, now, now))
            && db' == Db(db.feeds, db.items[url := item],
                         if url in db.items then db.readRows else db.readRows[id := ReadRow(false, now)],
                         db.links + {(f.feed, item.id)}, db.rules,
                         db.blocks + BlocksBy(st, item, db.rules, |db.rules|))
            && id !in db.readRows
  {
    hide BlocksBy, ItemIds, Linked;
  }

  /** Saving fails for a publication time that is none, an identifier that is taken, and a feed that
      does not exist, and for nothing else. */
  lemma SaveOneFails(db: Db, st: Setting, f: Fetched, id: string, now: int)
    ensures SaveOne(db, st, f, id, now).Err? <==>
              (f.publishedAt.Some? && !st.lib.isTime(f.publishedAt.value)) || id in db.readRows || f.feed !in db.feeds
    ensures SaveOne(db, st, f, id, now) == Err(InvalidTime) <==>
              f.publishedAt.Some? && !st.lib.isTime(f.publishedAt.value)
  {
    hide BlocksBy;
  }

  lemma SaveOneKeeps(db: Db, st: Setting, f: Fetched, id: string, now: int, db': Db)
    requires Tables(db) && SaveOne(db, st, f, id, now) == Ok(db')
    ensures Kept(db, db')
  {
    SaveOneShape(db, st, f, id, now, db');
    hide SaveOne, BlocksBy, Tables, CleanedUrl;
  }

  lemma SaveOneKeepsReads(db: Db, st: Setting, f: Fetched, id: string, now: int, db': Db)
    requires Tables(db) && SaveOne(db, st, f, id, now) == Ok(db')
    ensures ReadsKept(db, db')
  {
    SaveOneShape(db, st, f, id, now, db');
    hide SaveOne, BlocksBy, Tables, CleanedUrl;
  }

  /** The saved item has a read row afterwards, even if it had lost its own, and no other changes. */
  lemma SaveOneReads(db: Db, st: Setting, f: Fetched, id: string, now: int, db': Db)
    requires SaveOne(db, st, f, id, now) == Ok(db')
    ensures var url := if st.lib.clean(f.url).Some? then st.lib.clean(f.url).value else f.url;
            && url in db'.items && db'.items[url].id in db'.readRows && db.readRows.Keys <= db'.readRows.Keys
            && forall i :: i in db'.readRows ==>
                 db'.readRows[i] == if i in db.readRows then db.readRows[i] else ReadRow(false, now)
  {
    hide BlocksBy;
  }

  lemma SaveOneTables(db: Db, st: Setting, f: Fetched, id: string, now: int, db': Db)
    requires Tables(db) && SaveOne(db, st, f, id, now) == Ok(db')
    ensures Tables(db')
  {
    SaveOneShape(db, st, f, id, now, db');
    var url := if st.lib.clean(f.url).Some? then st.lib.clean(f.url).value else f.url;
    hide SaveOne, BlocksBy, Linked, ItemIds, ReadsBelong, AllLinked, Keyed, DistinctIds;
    if url in db.items {
      IdIsKnown(db, url);
    }
    KeysAfter(db, db', url);
    LinksAfter(db, db', url, f.feed);
    ReadsAfter(db, db', url);
  }

  lemma KeysAfter(db: Db, db': Db, url: string)
    requires Keyed(db) && DistinctIds(db) && url in db'.items && db'.items == db.items[url := db'.items[url]]
    requires db'.items[url].url == url && db.readRows.Keys + {db'.items[url].id} == db'.readRows.Keys
    requires if url in db.items then db'.items[url].id == db.items[url].id else db'.items[url].id !in db.readRows
    ensures Keyed(db') && DistinctIds(db')
  {}

  lemma IdIsKnown(db: Db, url: string)
    requires Keyed(db) && url in db.items
    ensures db.items[url].id in db.readRows && db.items[url].url == url
  {}

  lemma LinksAfter(db: Db, db': Db, url: string, feed: string)
    requires AllLinked(db) && url in db'.items && db'.items == db.items[url := db'.items[url]]
    requires feed in db.feeds && db'.feeds == db.feeds && db'.links == db.links + {(feed, db'.items[url].id)}
    ensures AllLinked(db')
  {
    forall u | u in db'.items ensures Linked(db', db'.items[u].id) {
      if u == url {
        assert (feed, db'.items[url].id) in db'.links;
      } else {
        LinkStays(db, db', db.items[u].id);
      }
    }
  }

  lemma ReadsAfter(db: Db, db': Db, url: string)
    requires ReadsBelong(db) && url in db'.items && db'.items == db.items[url := db'.items[url]]
    requires url in db.items ==> db'.items[url].id == db.items[url].id
    requires db'.readRows.Keys <= db.readRows.Keys + {db'.items[url].id}
    ensures ReadsBelong(db')
  {
    forall r | r in db'.readRows ensures r in ItemIds(db') {
      if r in db.readRows {
        IdStays(db, db', r);
      } else {
        assert db'.items[url].id == r;
      }
    }
  }

  lemma LinkStays(db: Db, db': Db, id: string)
    requires Linked(db, id) && db.feeds <= db'.feeds && db.links <= db'.links
    ensures Linked(db', id)
  {
    var feed :| feed in db.feeds && (feed, id) in db.links;
    assert (feed, id) in db'.links;
  }

  lemma IdStays(db: Db, db': Db, id: string)
    requires id in ItemIds(db)
    requires forall url :: url in db.items ==> url in db'.items && db'.items[url].id == db.items[url].id
    ensures id in ItemIds(db')
  {
    var url :| url in db.items && db.items[url].id == id;
    assert db'.items[url].id == id;
  }

  /** Over a whole job. */
  lemma {:induction false} SaveKeeps(db: Db, st: Setting, items: seq<Fetched>, ids: seq<string>, now: int, n: nat,
                                     db': Db)
    requires n <= |items| == |ids| && Tables(db) && SaveFirst(db, st, items, ids, now, n) == Ok(db')
    ensures Tables(db') && Kept(db, db') && ReadsKept(db, db') && db'.rules == db.rules
  {
    hide SaveOne, Tables, Kept;
    if n == 0 {
      KeptItself(db);
    } else {
      var before := SaveFirst(db, st, items, ids, now, n - 1).value;
      SaveKeeps(db, st, items, ids, now, n - 1, before);
      SaveOneTables(before, st, items[n - 1], ids[n - 1], now, db');
      SaveOneKeeps(before, st, items[n - 1], ids[n - 1], now, db');
      SaveOneKeepsReads(before, st, items[n - 1], ids[n - 1], now, db');
      SaveOneKeepsRules(before, st, items[n - 1], ids[n - 1], now);
      KeptTransitive(db, before, db');
    }
  }

  /** After a job every one of its items is stored under its cleaned URL with a link to its feed, and
      with the details that came last under that URL. */
  lemma {:induction false} SaveStoresAll(db: Db, st: Setting, items: seq<Fetched>, ids: seq<string>, now: int, n: nat,
                                         db': Db, k: nat)
    requires k < n <= |items| == |ids| && Tables(db) && SaveFirst(db, st, items, ids, now, n) == Ok(db')
    ensures var url := CleanedUrl(st, items[k].url);
            && url in db'.items && (items[k].feed, db'.items[url].id) in db'.links
            && ((forall j :: k < j < n ==> CleanedUrl(st, items[j].url) != url) ==>
                  db'.items[url].details == items[k].details)
  {
    hide SaveOne, BlocksBy, Tables, Kept, CleanedUrl;
    var before := SaveFirst(db, st, items, ids, now, n - 1).value;
    SaveKeeps(db, st, items, ids, now, n - 1, before);
    SavedOneStored(before, st, items[n - 1], ids[n - 1], now, db');
    if k < n - 1 {
      SaveStoresAll(db, st, items, ids, now, n - 1, before, k);
    }
  }

  lemma SavedOneStored(db: Db, st: Setting, f: Fetched, id: string, now: int, db': Db)
    requires Tables(db) && SaveOne(db, st, f, id, now) == Ok(db')
    ensures var url := CleanedUrl(st, f.url);
            && url in db'.items && (f.feed, db'.items[url].id) in db'.links && db'.items[url].details == f.details
            && (forall u :: u in db.items ==> u in db'.items && db'.items[u].id == db.items[u].id)
            && (forall u :: u in db.items && u != url ==> db'.items[u] == db.items[u])
            && db.links <= db'.links
  {
    SaveOneShape(db, st, f, id, now, db');
    hide SaveOne, BlocksBy, Tables;
  }

  // ----- marking items

  /** SetItemRead for each identifier, in one transaction: all of them, or none when one is unknown. */
  function SetReads(db: Db, ids: set<string>, isRead: bool, now: int): Db {
    if ids <= ItemIds(db) then
      db.(readRows := map id | id in db.readRows.Keys + ids ::
            if id in ids then ReadRow(isRead, now) else db.readRows[id])
    else db
  }

  lemma SetReadsKeeps(db: Db, ids: set<string>, isRead: bool, now: int)
    requires Tables(db)
    ensures Tables(SetReads(db, ids, isRead, now)) && Kept(db, SetReads(db, ids, isRead, now))
    ensures forall id :: id in db.readRows ==>
              SetReads(db, ids, isRead, now).readRows[id]
              == if id in ids && ids <= ItemIds(db) then ReadRow(isRead, now) else db.readRows[id]
  {
    var db' := SetReads(db, ids, isRead, now);
    if ids <= ItemIds(db) {
      assert AllLinked(db') by {
        hide ItemIds;
        forall url | url in db.items ensures Linked(db', db'.items[url].id) {
          LinkStays(db, db', db.items[url].id);
        }
      }
      assert ItemIds(db') == ItemIds(db);
      hide ItemIds, AllLinked, Linked;
    }
  }
}
