/** Keyset paging: internal/httpapi/handler.go:216-310, 343-420 over the queries
    store/query.sql.go:1717-1746, 1789-1825, and the loops that follow the page tokens,
    frontend/src/lib/item-db.ts:123-142 and frontend/src/lib/item-read-db.ts:27-59. */
module Paging {
  import opened Wrappers
  import opened Order

  /** A table row: its compound key and the rest. The identifier is the table's primary key. */
  datatype Row<T> = Row(key: Key, body: T)

  ghost predicate PrimaryKey<T(!new)>(table: set<Row<T>>) {
    forall r, q :: r in table && q in table && r.key.id == q.key.id ==> r == q
  }

  ghost predicate Sorted<T>(rows: seq<Row<T>>) {
    forall i, j :: 0 <= i < j < |rows| ==> KeyLess(rows[i].key, rows[j].key)
  }

  predicate IsFirst<T(==)>(r: Row<T>, rows: set<Row<T>>) {
    r in rows && forall q :: q in rows ==> q == r || KeyLess(r.key, q.key)
  }

  lemma {:induction false} FirstExists<T(!new)>(rows: set<Row<T>>)
    requires rows != {} && PrimaryKey(rows)
    ensures exists r :: IsFirst(r, rows)
  {
    var r :| r in rows;
    var others := rows - {r};
    assert forall q :: q in rows ==> q == r || q in others;
    if others == {} {
      assert IsFirst(r, rows);
    } else {
      FirstExists(others);
      var f :| IsFirst(f, others);
      KeyTotal(r.key, f.key);
      if KeyLess(f.key, r.key) {
        assert IsFirst(f, rows);
      } else {
        forall q | q in rows ensures q == r || KeyLess(r.key, q.key) {
          if q != r && q != f {
            KeyTransitive(r.key, f.key, q.key);
          }
        }
        assert IsFirst(r, rows);
      }
    }
  }

  lemma FirstUnique<T(!new)>(r: Row<T>, q: Row<T>, rows: set<Row<T>>)
    requires IsFirst(r, rows) && IsFirst(q, rows)
    ensures r == q
  {
    if r != q {
      KeyTransitive(r.key, q.key, r.key);
      KeyIrreflexive(r.key);
    }
  }

  function First<T(==, !new)>(rows: set<Row<T>>): (r: Row<T>)
    requires rows != {} && PrimaryKey(rows)
    ensures IsFirst(r, rows)
  {
    FirstExists(rows);
    assert forall r, q :: IsFirst(r, rows) && IsFirst(q, rows) ==> r == q by {
      forall r, q | IsFirst(r, rows) && IsFirst(q, rows) ensures r == q { FirstUnique(r, q, rows); }
    }
    var r :| IsFirst(r, rows);
    r
  }

  /** ORDER BY the compound key. */
  function OrderBy<T(==, !new)>(rows: set<Row<T>>): (listing: seq<Row<T>>)
    requires PrimaryKey(rows)
    ensures |listing| == |rows|
  {
    if rows == {} then []
    else
      var r := First(rows);
      [r] + OrderBy(rows - {r})
  }

  lemma {:induction false} OrderByLists<T(!new)>(rows: set<Row<T>>)
    requires PrimaryKey(rows)
    ensures forall r :: r in OrderBy(rows) <==> r in rows
    ensures Sorted(OrderBy(rows))
  {
    if rows != {} {
      var first := First(rows);
      var rest := rows - {first};
      OrderByLists(rest);
      assert OrderBy(rows) == [first] + OrderBy(rest);
      hide OrderBy, PrimaryKey;
      assert forall r :: r in rows <==> r == first || r in rest;
      SortedAfter(first, OrderBy(rest), rest);
    }
  }

  lemma SortedAfter<T(!new)>(first: Row<T>, listing: seq<Row<T>>, rest: set<Row<T>>)
    requires Sorted(listing) && (forall r :: r in listing <==> r in rest)
    requires forall q :: q in rest ==> KeyLess(first.key, q.key)
    ensures Sorted([first] + listing)
  {
    assert forall i :: 0 <= i < |listing| ==> listing[i] in rest;
  }

  lemma InTail<T>(a: seq<Row<T>>, r: Row<T>)
    requires Sorted(a) && a != []
    ensures r in a[1..] <==> r in a && r != a[0]
  {
    KeyIrreflexive(a[0].key);
    if r in a && r != a[0] {
      var i :| 0 <= i < |a| && a[i] == r;
      assert a[1..][i - 1] == r;
    }
  }

  /** A set has one listing in key order. */
  lemma {:induction false} ListingUnique<T(!new)>(a: seq<Row<T>>, b: seq<Row<T>>)
    requires Sorted(a) && Sorted(b) && forall r :: r in a <==> r in b
    ensures a == b
  {
    assert a != [] ==> a[0] in b;
    assert b != [] ==> b[0] in a;
    if a != [] {
      if a[0] != b[0] {
        KeyTransitive(a[0].key, b[0].key, a[0].key);
        KeyIrreflexive(a[0].key);
      }
      forall r ensures r in a[1..] <==> r in b[1..] {
        InTail(a, r);
        InTail(b, r);
      }
      ListingUnique(a[1..], b[1..]);
    }
  }

  // ----- the server

  datatype Page<T> = Page(rows: seq<Row<T>>, next: Option<Key>)

  predicate After(key: Key, cursor: Option<Key>) {
    cursor.None? || KeyLess(cursor.value, key)
  }

  /** The rows that a query with this cursor may return. */
  function Above<T(==, !new)>(rows: set<Row<T>>, cursor: Option<Key>): (above: set<Row<T>>)
    ensures above <= rows
    ensures PrimaryKey(rows) ==> PrimaryKey(above)
  {
    set r | r in rows && After(r.key, cursor)
  }

  /** The rows that pass the request's filters. */
  function Matching<T(==, !new)>(table: set<Row<T>>, matches: Row<T> -> bool): (rows: set<Row<T>>)
    ensures rows <= table
    ensures PrimaryKey(table) ==> PrimaryKey(rows)
  {
    set r | r in table && matches(r)
  }

  /** One page of the selected rows. The query asks for one row more than fits, which only
      tells whether there is a next page; its token is the key of the last row returned. */
  function PageOf<T(==, !new)>(selected: set<Row<T>>, pageSize: nat): Page<T>
    requires PrimaryKey(selected) && pageSize >= 1
  {
    var rows := OrderBy(selected);
    if |rows| > pageSize then Page(rows[..pageSize], Some(rows[pageSize - 1].key)) else Page(rows, None)
  }

  /** The requests' errors. */
  datatype PageError = BadPageSize | BadPageToken | TokenAndSince

  /** ItemsList: every request carries the same filters; `matches` includes the `since` filter. */
  function ItemsList<T(==, !new)>(table: set<Row<T>>, matches: Row<T> -> bool, pageSize: int, token: Option<Key>)
    : Result<Page<T>, PageError>
    requires PrimaryKey(table)
  {
    if pageSize <= 0 || pageSize > 1000 then Err(BadPageSize)
    else if token.Some? && token.value.id == "" then Err(BadPageToken)
    else Ok(PageOf(Above(Matching(table, matches), token), pageSize))
  }

  /** ItemReadsList: a request carries a token or a start time, not both. The start time selects
      the rows above (since, ""). */
  function ItemReadsList<T(==, !new)>(table: set<Row<T>>, pageSize: int, token: Option<Key>, since: Option<int>)
    : Result<Page<T>, PageError>
    requires PrimaryKey(table)
  {
    if pageSize <= 0 || pageSize > 1000 then Err(BadPageSize)
    else if token.Some? && since.Some? then Err(TokenAndSince)
    else if token.Some? && token.value.id == "" then Err(BadPageToken)
    else
      var cursor := if token.Some? then token else if since.Some? then Some(Key(since.value, "")) else None;
      Ok(PageOf(Above(table, cursor), pageSize))
  }

  /** A request fails exactly when its page size or its token is not usable. */
  lemma RequestErrors<T(!new)>(table: set<Row<T>>, matches: Row<T> -> bool, pageSize: int, token: Option<Key>,
                               since: Option<int>)
    requires PrimaryKey(table)
    ensures var usable := token.Some? ==> token.value.id != "";
            && (ItemsList(table, matches, pageSize, token).Ok? <==> 1 <= pageSize <= 1000 && usable)
            && (ItemReadsList(table, pageSize, token, since).Ok? <==>
                  1 <= pageSize <= 1000 && usable && (token.None? || since.None?))
  {
  }

  /** Timestamps ascend, and so do the identifiers under each timestamp. */
  ghost predicate InKeyOrder<T>(rows: seq<Row<T>>) {
    forall i, j :: 0 <= i < j < |rows| ==>
      rows[i].key.stamp < rows[j].key.stamp
      || (rows[i].key.stamp == rows[j].key.stamp && Precedes(rows[i].key.id, rows[j].key.id))
  }

  lemma SortedIsInOrder<T>(rows: seq<Row<T>>)
    requires Sorted(rows)
    ensures InKeyOrder(rows)
  {
    hide Precedes;
    forall i, j | 0 <= i < j < |rows|
      ensures rows[i].key.stamp < rows[j].key.stamp
              || (rows[i].key.stamp == rows[j].key.stamp && Precedes(rows[i].key.id, rows[j].key.id))
    {
      LessIs(rows[i].key.id, rows[j].key.id);
    }
  }

  /** Exactly the rows of a table with some property, in key order. */
  ghost predicate ListsThose<T(!new)>(listing: seq<Row<T>>, table: set<Row<T>>, those: Row<T> -> bool) {
    InKeyOrder(listing) && forall r :: r in listing <==> r in table && those(r)
  }

  lemma OrderByListsThose<T(!new)>(table: set<Row<T>>, those: Row<T> -> bool, rows: set<Row<T>>)
    requires PrimaryKey(rows) && forall r :: r in rows <==> r in table && those(r)
    ensures ListsThose(OrderBy(rows), table, those)
  {
    OrderByLists(rows);
    hide OrderBy, Sorted, InKeyOrder;
    SortedIsInOrder(OrderBy(rows));
  }

  // ----- one page after another

  /** In a listing, the rows from position `k` on are those above the row before. */
  lemma AfterCut<T(!new)>(rows: seq<Row<T>>, k: nat, r: Row<T>)
    requires Sorted(rows) && 1 <= k <= |rows|
    ensures r in rows[k..] <==> r in rows && KeyLess(rows[k - 1].key, r.key)
  {
    if r in rows {
      var i :| 0 <= i < |rows| && rows[i] == r;
      KeyIrreflexive(r.key);
      if i < k - 1 && KeyLess(rows[k - 1].key, r.key) {
        KeyTransitive(rows[i].key, rows[k - 1].key, r.key);
      }
    }
  }

  ghost predicate NamedRows<T>(table: set<Row<T>>) {
    forall r :: r in table ==> r.key.id != ""
  }

  /** A page is either the whole rest, or full with a usable token behind which lies the rest. */
  lemma PageStep<T(!new)>(rows: set<Row<T>>, cursor: Option<Key>, pageSize: nat)
    requires PrimaryKey(rows) && NamedRows(rows) && pageSize >= 1
    ensures var here := Above(rows, cursor);
            var page := PageOf(here, pageSize);
            && (page.next.None? ==> page.rows == OrderBy(here) && |page.rows| == |here| <= pageSize)
            && (page.next.Some? ==>
                  var left := Above(rows, page.next);
                  && page.next.value.id != "" && After(page.next.value, cursor)
                  && |page.rows| == pageSize && |here| == pageSize + |left| && |left| > 0
                  && OrderBy(here) == page.rows + OrderBy(left))
  {
    hide OrderBy;
    var here := Above(rows, cursor);
    var listing := OrderBy(here);
    OrderByLists(here);
    if |listing| > pageSize {
      var last := listing[pageSize - 1];
      assert last in here;
      var rest, left := listing[pageSize..], Above(rows, Some(last.key));
      forall r ensures r in rest <==> r in left {
        AfterCut(listing, pageSize, r);
        if cursor.Some? && KeyLess(last.key, r.key) {
          KeyTransitive(cursor.value, last.key, r.key);
        }
      }
      OrderByLists(left);
      ListingUnique(rest, OrderBy(left));
    }
  }

  // ----- following the tokens to the end

  const CLIENT_PAGE := 1000

  lemma Regroup<T>(a: seq<T>, b: seq<T>, c: seq<T>)
    ensures a + (b + c) == (a + b) + c
  {
  }

  /** What is collected so far and the rows after the cursor make up the listing. */
  ghost predicate Remains<T(!new)>(listing: seq<Row<T>>, collected: seq<Row<T>>, rows: set<Row<T>>, cursor: Option<Key>)
    requires PrimaryKey(rows)
  {
    listing == collected + OrderBy(Above(rows, cursor))
  }

  /** One more page of a listing collected page by page. */
  lemma PageCollected<T(!new)>(rows: set<Row<T>>, cursor: Option<Key>, listing: seq<Row<T>>, collected: seq<Row<T>>)
    requires PrimaryKey(rows) && NamedRows(rows) && Remains(listing, collected, rows, cursor)
    ensures var page := PageOf(Above(rows, cursor), CLIENT_PAGE);
            && (page.next.None? ==>
                  listing == collected + page.rows && |page.rows| == |Above(rows, cursor)| <= CLIENT_PAGE)
            && (page.next.Some? ==>
                  && Remains(listing, collected + page.rows, rows, page.next)
                  && page.next.value.id != "" && |page.rows| == CLIENT_PAGE
                  && 0 < |Above(rows, page.next)| < |Above(rows, cursor)|)
  {
    PageStep(rows, cursor, CLIENT_PAGE);
    var page := PageOf(Above(rows, cursor), CLIENT_PAGE);
    hide OrderBy, PageOf, Above, PrimaryKey, NamedRows;
    Regroup(collected, page.rows, OrderBy(Above(rows, page.next)));
  }

  /** One more answer to the item list's requests. */
  lemma ItemsCollected<T(!new)>(table: set<Row<T>>, matches: Row<T> -> bool, token: Option<Key>,
                                listing: seq<Row<T>>, collected: seq<Row<T>>)
    requires PrimaryKey(table) && NamedRows(table) && (token.Some? ==> token.value.id != "")
    requires Remains(listing, collected, Matching(table, matches), token)
    ensures var rows := Matching(table, matches);
            var response := ItemsList(table, matches, CLIENT_PAGE, token);
            response.Ok? && var page := response.value;
            && (page.next.None? ==>
                  listing == collected + page.rows && |page.rows| == |Above(rows, token)| <= CLIENT_PAGE)
            && (page.next.Some? ==>
                  && Remains(listing, collected + page.rows, rows, page.next)
                  && page.next.value.id != "" && |page.rows| == CLIENT_PAGE
                  && 0 < |Above(rows, page.next)| < |Above(rows, token)|)
  {
    assert NamedRows(Matching(table, matches));
    PageCollected(Matching(table, matches), token, listing, collected);
    hide OrderBy, PageOf, Above, PrimaryKey, NamedRows, Remains, Matching;
  }

  lemma NothingCollected<T(!new)>(table: set<Row<T>>, matches: Row<T> -> bool)
    requires PrimaryKey(table)
    ensures var rows := Matching(table, matches);
            ListsThose(OrderBy(rows), table, matches) && Remains(OrderBy(rows), [], rows, None)
  {
    OrderByListsThose(table, matches, Matching(table, matches));
    assert Above(Matching(table, matches), None) == Matching(table, matches);
  }

  /** The item list's request loop on a fixed table: exactly the matching rows, each once, in key order. */
  method FetchItems<T(==, !new)>(table: set<Row<T>>, matches: Row<T> -> bool)
    returns (all: seq<Row<T>>, requests: nat)
    requires PrimaryKey(table) && NamedRows(table)
    ensures all == OrderBy(Matching(table, matches))
    ensures ListsThose(all, table, matches)
    ensures requests >= 1 && |all| <= requests * 1000 && (requests > 1 ==> (requests - 1) * 1000 < |all|)
  {
    ghost var listing := OrderBy(Matching(table, matches));
    NothingCollected(table, matches);
    hide *;
    var pageToken: Option<Key> := None;
    var allNewItems := [];
    requests := 0;
    while true
      invariant Remains(listing, allNewItems, Matching(table, matches), pageToken)
      invariant pageToken.Some? ==> pageToken.value.id != "" && |Above(Matching(table, matches), pageToken)| > 0
      invariant pageToken.None? ==> requests == 0
      invariant |allNewItems| == requests * 1000
      decreases |Above(Matching(table, matches), pageToken)|
    {
      var response := ItemsList(table, matches, CLIENT_PAGE, pageToken);
      ItemsCollected(table, matches, pageToken, listing, allNewItems);
      requests := requests + 1;
      allNewItems := allNewItems + response.value.rows;
      if response.value.next.None? {
        return allNewItems, requests;
      }
      pageToken := response.value.next;
    }
  }

  function FromSecond<T(==, !new)>(table: set<Row<T>>, since: int): (rows: set<Row<T>>)
    ensures rows <= table
    ensures PrimaryKey(table) ==> PrimaryKey(rows)
  {
    set r | r in table && r.key.stamp >= since
  }

  function StampedSince<T>(since: int): Row<T> -> bool {
    (r: Row<T>) => r.key.stamp >= since
  }

  /** A start time, sent as the cursor (since, ""), selects the rows from that second on. */
  lemma SinceIsInclusive<T(!new)>(table: set<Row<T>>, since: int)
    requires NamedRows(table)
    ensures Above(table, Some(Key(since, ""))) == FromSecond(table, since)
  {
  }

  /** What a request for read states with this token asks for: without one, the rows since a start time. */
  function ReadsCursor(token: Option<Key>, since: int): Option<Key> {
    if token.Some? then token else Some(Key(since, ""))
  }

  /** One more answer to such requests. */
  lemma ReadsCollected<T(!new)>(table: set<Row<T>>, token: Option<Key>, since: int, listing: seq<Row<T>>,
                                collected: seq<Row<T>>)
    requires PrimaryKey(table) && NamedRows(table) && (token.Some? ==> token.value.id != "")
    requires Remains(listing, collected, table, ReadsCursor(token, since))
    ensures var response := ItemReadsList(table, CLIENT_PAGE, token, if token.None? then Some(since) else None);
            response.Ok? && var page := response.value;
            && (page.next.None? ==>
                  listing == collected + page.rows
                  && |page.rows| == |Above(table, ReadsCursor(token, since))| <= CLIENT_PAGE)
            && (page.next.Some? ==>
                  && Remains(listing, collected + page.rows, table, page.next)
                  && page.next.value.id != "" && |page.rows| == CLIENT_PAGE
                  && 0 < |Above(table, page.next)| < |Above(table, ReadsCursor(token, since))|)
  {
    PageCollected(table, ReadsCursor(token, since), listing, collected);
    hide OrderBy, PageOf, Above, PrimaryKey, NamedRows, Remains;
  }

  lemma NoReadsCollected<T(!new)>(table: set<Row<T>>, since: int)
    requires PrimaryKey(table) && NamedRows(table)
    ensures ListsThose(OrderBy(FromSecond(table, since)), table, StampedSince(since))
    ensures Remains(OrderBy(FromSecond(table, since)), [], table, ReadsCursor(None, since))
  {
    OrderByListsThose(table, StampedSince(since), FromSecond(table, since));
    SinceIsInclusive(table, since);
  }

  /** The read states' request loop: only the first request carries the start time. */
  method FetchReads<T(==, !new)>(table: set<Row<T>>, since: int)
    returns (all: seq<Row<T>>, requests: nat)
    requires PrimaryKey(table) && NamedRows(table)
    ensures all == OrderBy(FromSecond(table, since))
    ensures ListsThose(all, table, StampedSince(since))
    ensures requests >= 1 && |all| <= requests * 1000 && (requests > 1 ==> (requests - 1) * 1000 < |all|)
  {
    ghost var listing := OrderBy(FromSecond(table, since));
    NoReadsCollected(table, since);
    hide *;
    var pageToken: Option<Key> := None;
    var allNewReads := [];
    requests := 0;
    while true
      invariant Remains(listing, allNewReads, table, ReadsCursor(pageToken, since))
      invariant pageToken.Some? ==> pageToken.value.id != "" && |Above(table, ReadsCursor(pageToken, since))| > 0
      invariant pageToken.None? ==> requests == 0
      invariant |allNewReads| == requests * 1000
      decreases |Above(table, ReadsCursor(pageToken, since))|
    {
      var response := ItemReadsList(table, CLIENT_PAGE, pageToken, if pageToken.None? then Some(since) else None);
      ReadsCollected(table, pageToken, since, listing, allNewReads);
      requests := requests + 1;
      allNewReads := allNewReads + response.value.rows;
      if response.value.next.None? {
        return allNewReads, requests;
      }
      pageToken := response.value.next;
      assert ReadsCursor(pageToken, since) == pageToken by { TokenIsCursor(pageToken, since); }
    }
  }

  lemma TokenIsCursor(token: Option<Key>, since: int)
    requires token.Some?
    ensures ReadsCursor(token, since) == token
  {}

  // ----- pages of a table that changes between requests

  /** The pages of a request loop whose requests see one table after another, from `cursor` on. */
  ghost predicate PageRun<T(!new)>(tables: seq<set<Row<T>>>, matches: Row<T> -> bool, cursor: Option<Key>,
                                   pageSize: nat, pages: seq<Page<T>>)
    requires pageSize >= 1
    decreases |pages|
  {
    && |tables| == |pages| >= 1
    && PrimaryKey(tables[0]) && NamedRows(tables[0])
    && pages[0] == PageOf(Above(Matching(tables[0], matches), cursor), pageSize)
    && if pages[0].next.None? then |pages| == 1
       else |pages| > 1 && PageRun(tables[1..], matches, pages[0].next, pageSize, pages[1..])
  }

  function Collected<T>(pages: seq<Page<T>>): seq<Row<T>> {
    if pages == [] then [] else pages[0].rows + Collected(pages[1..])
  }

  ghost predicate HasKey<T>(rows: seq<Row<T>>, key: Key) {
    exists i :: 0 <= i < |rows| && rows[i].key == key
  }

  ghost predicate HasMatch<T(!new)>(table: set<Row<T>>, matches: Row<T> -> bool, key: Key) {
    exists r :: r in table && matches(r) && r.key == key
  }

  /** Some matching row has this key in every one of the tables. */
  ghost predicate StaysMatching<T(!new)>(tables: seq<set<Row<T>>>, matches: Row<T> -> bool, key: Key) {
    forall k :: 0 <= k < |tables| ==> HasMatch(tables[k], matches, key)
  }

  lemma HasKeyInEither<T>(a: seq<Row<T>>, b: seq<Row<T>>, key: Key)
    requires HasKey(a, key) || HasKey(b, key)
    ensures HasKey(a + b, key)
  {
    if HasKey(a, key) {
      var i :| 0 <= i < |a| && a[i].key == key;
      assert (a + b)[i].key == key;
    } else {
      var i :| 0 <= i < |b| && b[i].key == key;
      assert (a + b)[|a| + i].key == key;
    }
  }

  ghost predicate AllAfter<T>(rows: seq<Row<T>>, cursor: Option<Key>) {
    forall i :: 0 <= i < |rows| ==> After(rows[i].key, cursor)
  }

  lemma SortedJoin<T(!new)>(a: seq<Row<T>>, b: seq<Row<T>>, cursor: Option<Key>)
    requires Sorted(a) && Sorted(b) && a != [] && AllAfter(a, cursor) && AllAfter(b, Some(a[|a| - 1].key))
    ensures Sorted(a + b) && AllAfter(a + b, cursor)
  {
    var cut := a[|a| - 1].key;
    forall i, j | 0 <= i < j < |a + b| ensures KeyLess((a + b)[i].key, (a + b)[j].key) {
      if i < |a| - 1 && j >= |a| {
        KeyTransitive(a[i].key, cut, b[j - |a|].key);
      }
    }
    forall j | |a| <= j < |a + b| ensures After((a + b)[j].key, cursor) {
      if cursor.Some? {
        KeyTransitive(cursor.value, cut, b[j - |a|].key);
      }
    }
  }

  /** A page lists the first rows after its cursor, and every other such row lies after its token. */
  lemma PageLists<T(!new)>(rows: set<Row<T>>, cursor: Option<Key>, pageSize: nat)
    requires PrimaryKey(rows) && pageSize >= 1
    ensures var page := PageOf(Above(rows, cursor), pageSize);
            && Sorted(page.rows) && AllAfter(page.rows, cursor)
            && (page.next.Some? ==> page.rows != [] && page.rows[|page.rows| - 1].key == page.next.value)
  {
    hide OrderBy, PrimaryKey;
    var here := Above(rows, cursor);
    OrderByLists(here);
    var listing := OrderBy(here);
    assert forall i :: 0 <= i < |listing| ==> listing[i] in here;
  }

  /** What the page leaves out lies behind its token. */
  lemma PageCovers<T(!new)>(rows: set<Row<T>>, cursor: Option<Key>, pageSize: nat, r: Row<T>)
    requires PrimaryKey(rows) && pageSize >= 1 && r in rows && After(r.key, cursor)
    ensures var page := PageOf(Above(rows, cursor), pageSize);
            HasKey(page.rows, r.key) || (page.next.Some? && After(r.key, page.next))
  {
    hide OrderBy, PrimaryKey;
    var here := Above(rows, cursor);
    OrderByLists(here);
    var listing := OrderBy(here);
    var page := PageOf(here, pageSize);
    assert r in here;
    var i :| 0 <= i < |listing| && listing[i] == r;
    if i < |page.rows| {
      assert page.rows[i].key == r.key;
    }
  }

  /** Whatever is written between the requests, the pages are in key order without repetition. */
  lemma {:induction false} CollectedSorted<T(!new)>(tables: seq<set<Row<T>>>, matches: Row<T> -> bool,
      cursor: Option<Key>, pageSize: nat, pages: seq<Page<T>>)
    requires pageSize >= 1 && PageRun(tables, matches, cursor, pageSize, pages)
    ensures Sorted(Collected(pages)) && AllAfter(Collected(pages), cursor)
    decreases |pages|
  {
    hide PageOf, Above, Matching, Sorted, AllAfter, PrimaryKey, NamedRows;
    PageLists(Matching(tables[0], matches), cursor, pageSize);
    if pages[0].next.Some? {
      CollectedSorted(tables[1..], matches, pages[0].next, pageSize, pages[1..]);
      SortedJoin(pages[0].rows, Collected(pages[1..]), cursor);
    } else {
      assert Collected(pages) == pages[0].rows;
    }
  }

  /** A row that stays matching is not skipped. */
  lemma {:induction false} StableRowListed<T(!new)>(tables: seq<set<Row<T>>>, matches: Row<T> -> bool,
      cursor: Option<Key>, pageSize: nat, pages: seq<Page<T>>, key: Key)
    requires pageSize >= 1 && PageRun(tables, matches, cursor, pageSize, pages)
    requires StaysMatching(tables, matches, key) && After(key, cursor)
    ensures HasKey(Collected(pages), key)
    decreases |pages|
  {
    assert HasMatch(tables[0], matches, key);
    var r :| r in tables[0] && matches(r) && r.key == key;
    assert r in Matching(tables[0], matches);
    hide PageOf, Above, Matching, Sorted, AllAfter, PrimaryKey, NamedRows, After, HasKey, HasMatch;
    PageCovers(Matching(tables[0], matches), cursor, pageSize, r);
    if !HasKey(pages[0].rows, key) {
      StableRowListed(tables[1..], matches, pages[0].next, pageSize, pages[1..], key);
    }
    HasKeyInEither(pages[0].rows, Collected(pages[1..]), key);
  }

  /** Every row that stays matching while others come and go appears exactly once. */
  lemma StableRowOnce<T(!new)>(tables: seq<set<Row<T>>>, matches: Row<T> -> bool, pageSize: nat,
                               pages: seq<Page<T>>, key: Key)
    requires pageSize >= 1 && PageRun(tables, matches, None, pageSize, pages)
    requires StaysMatching(tables, matches, key)
    ensures exists i :: 0 <= i < |Collected(pages)| && Collected(pages)[i].key == key
                        && forall j :: 0 <= j < |Collected(pages)| && Collected(pages)[j].key == key ==> j == i
  {
    CollectedSorted(tables, matches, None, pageSize, pages);
    StableRowListed(tables, matches, None, pageSize, pages, key);
    KeyIrreflexive(key);
    var i :| 0 <= i < |Collected(pages)| && Collected(pages)[i].key == key;
  }
}
