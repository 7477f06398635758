/** The transaction that ends an import, cmd/feed-reader/opml_importer.go:116-189: tags are found or
    created by name, then the feeds, then the associations. */
module ImportTables {
  import opened Wrappers
  import opened Opml

  datatype FeedRow = FeedRow(id: string, title: Option<string>)

  /** Feeds by their unique URL, tag identifiers by unique name, and pairs of feed and tag. */
  datatype Tables = Tables(feeds: map<string, FeedRow>, tags: map<string, string>, feedTags: set<(string, string)>)

  /** An entry that was fetched, the title its feed has, and the identifier drawn for it. */
  datatype Win = Win(entry: Feed, fetchedTitle: string, id: string)

  /** An identifier already exists, or a feed's URL does. */
  datatype Failure = Conflict

  function Title(w: Win): Option<string> {
    var title := if w.entry.title != "" then w.entry.title else w.fetchedTitle;
    if title == "" then None else Some(title)
  }

  function NamesOf(wins: seq<Win>): set<string> {
    set w, name | w in wins && name in w.entry.tags :: name
  }

  function UrlsOf(wins: seq<Win>): set<string> {
    set w | w in wins :: w.entry.url
  }

  ghost predicate DistinctUrls(wins: seq<Win>) {
    forall i, j :: 0 <= i < j < |wins| ==> wins[i].entry.url != wins[j].entry.url
  }

  /** The identifiers drawn for new tags are new, and different for different names. */
  ghost predicate NewIds(tags: map<string, string>, draw: string -> string) {
    && (forall name :: draw(name) !in tags.Values)
    && (forall a, b :: draw(a) == draw(b) ==> a == b)
  }

  ghost predicate OneIdPerTag(tags: map<string, string>) {
    forall a, b :: a in tags && b in tags && tags[a] == tags[b] ==> a == b
  }

  /** The tag table with every name of a set: names it has keep their identifier. */
  function WithTags(tags: map<string, string>, names: set<string>, draw: string -> string): map<string, string> {
    map name | name in tags.Keys + names :: if name in tags then tags[name] else draw(name)
  }

  /** The feed table with the first `n` feeds. */
  function WithFeeds(feeds: map<string, FeedRow>, wins: seq<Win>, n: nat): map<string, FeedRow>
    requires n <= |wins|
  {
    if n == 0 then feeds
    else WithFeeds(feeds, wins, n - 1)[wins[n - 1].entry.url := FeedRow(wins[n - 1].id, Title(wins[n - 1]))]
  }

  /** Each feed with each tag its entry names. */
  function Pairs(wins: seq<Win>, tags: map<string, string>): set<(string, string)> {
    set w, name | w in wins && name in w.entry.tags && name in tags :: (w.id, tags[name])
  }

  function TagSet(tags: seq<string>): set<string> {
    set name | name in tags
  }

  lemma NamesStep(wins: seq<Win>, i: nat)
    requires i < |wins|
    ensures NamesOf(wins[..i + 1]) == NamesOf(wins[..i]) + TagSet(wins[i].entry.tags)
  {
    assert wins[..i + 1] == wins[..i] + [wins[i]];
  }

  lemma PairsStep(wins: seq<Win>, tags: map<string, string>, i: nat)
    requires i < |wins|
    ensures Pairs(wins[..i + 1], tags) == Pairs(wins[..i], tags) + Pairs([wins[i]], tags)
  {
    assert wins[..i + 1] == wins[..i] + [wins[i]];
  }

  lemma WithTagsStep(tags: map<string, string>, names: set<string>, draw: string -> string, name: string)
    ensures WithTags(tags, names + {name}, draw) ==
            if name in WithTags(tags, names, draw) then WithTags(tags, names, draw)
            else WithTags(tags, names, draw)[name := draw(name)]
  {}

  /** The names met so far have their identifiers in the table. */
  ghost predicate Mapped(tagNameToId: map<string, string>, names: set<string>, table: map<string, string>) {
    tagNameToId.Keys == names && forall name :: name in names ==> name in table && tagNameToId[name] == table[name]
  }

  method HandleTags(tags: map<string, string>, wins: seq<Win>, draw: string -> string)
    returns (table: map<string, string>, tagNameToId: map<string, string>)
    ensures table == WithTags(tags, NamesOf(wins), draw)
    ensures Mapped(tagNameToId, NamesOf(wins), table)
  {
    table, tagNameToId := tags, map[];
    for i := 0 to |wins|
      invariant table == WithTags(tags, NamesOf(wins[..i]), draw)
      invariant Mapped(tagNameToId, NamesOf(wins[..i]), table)
    {
      hide NamesOf, WithTags, Mapped;
      table, tagNameToId := HandleNames(tags, NamesOf(wins[..i]), table, tagNameToId, wins[i].entry.tags, draw);
      NamesStep(wins, i);
    }
    assert wins[..|wins|] == wins;
  }

  /** The tags of one feed. */
  method HandleNames(ghost tags: map<string, string>, ghost before: set<string>, table0: map<string, string>,
                     tagNameToId0: map<string, string>, given: seq<string>, draw: string -> string)
    returns (table: map<string, string>, tagNameToId: map<string, string>)
    requires table0 == WithTags(tags, before, draw) && Mapped(tagNameToId0, before, table0)
    ensures table == WithTags(tags, before + TagSet(given), draw) && Mapped(tagNameToId, before + TagSet(given), table)
  {
    table, tagNameToId := table0, tagNameToId0;
    ghost var names := before;
    for k := 0 to |given|
      invariant names == before + TagSet(given[..k])
      invariant table == WithTags(tags, names, draw) && Mapped(tagNameToId, names, table)
    {
      hide WithTags, Mapped;
      assert given[..k + 1] == given[..k] + [given[k]];
      table, tagNameToId := HandleName(tags, names, table, tagNameToId, given[k], draw);
      names := names + {given[k]};
    }
    assert given[..|given|] == given;
  }

  /** Finds or creates one tag, unless its name has come up before. */
  method HandleName(ghost tags: map<string, string>, ghost before: set<string>, table0: map<string, string>,
                    tagNameToId0: map<string, string>, name: string, draw: string -> string)
    returns (table: map<string, string>, tagNameToId: map<string, string>)
    requires table0 == WithTags(tags, before, draw) && Mapped(tagNameToId0, before, table0)
    ensures table == WithTags(tags, before + {name}, draw) && Mapped(tagNameToId, before + {name}, table)
  {
    hide WithTags;
    table, tagNameToId := table0, tagNameToId0;
    WithTagsStep(tags, before, draw, name);
    if name !in tagNameToId {
      if name !in table {
        table := table[name := draw(name)];
      }
      tagNameToId := tagNameToId[name := table[name]];
    }
  }

  lemma {:induction false} OtherFeeds(feeds: map<string, FeedRow>, wins: seq<Win>, n: nat, url: string)
    requires n <= |wins| && forall k :: 0 <= k < n ==> wins[k].entry.url != url
    ensures url in WithFeeds(feeds, wins, n) <==> url in feeds
    ensures url in feeds ==> WithFeeds(feeds, wins, n)[url] == feeds[url]
  {
    if n > 0 {
      OtherFeeds(feeds, wins, n - 1, url);
    }
  }

  /** The feed's URL is in the table only if it was there from the start. */
  lemma NextFeed(feeds: map<string, FeedRow>, wins: seq<Win>, i: nat)
    requires i < |wins| && DistinctUrls(wins)
    ensures wins[i].entry.url in WithFeeds(feeds, wins, i) <==> wins[i].entry.url in feeds
    ensures WithFeeds(feeds, wins, i + 1) ==
            WithFeeds(feeds, wins, i)[wins[i].entry.url := FeedRow(wins[i].id, Title(wins[i]))]
  {
    OtherFeeds(feeds, wins, i, wins[i].entry.url);
  }

  /** Fails at the first feed whose URL is there already. */
  method CreateFeeds(feeds: map<string, FeedRow>, wins: seq<Win>)
    returns (result: Result<map<string, FeedRow>, Failure>)
    requires DistinctUrls(wins)
    ensures result.Err? <==> exists w :: w in wins && w.entry.url in feeds
    ensures result.Ok? ==> result.value == WithFeeds(feeds, wins, |wins|)
  {
    hide DistinctUrls, Title;
    var table := feeds;
    assert table == WithFeeds(feeds, wins, 0);
    for i := 0 to |wins|
      invariant table == WithFeeds(feeds, wins, i)
      invariant forall k :: 0 <= k < i ==> wins[k].entry.url !in feeds
    {
      hide WithFeeds;
      NextFeed(feeds, wins, i);
      var w := wins[i];
      if w.entry.url in table {
        assert w in wins;
        return Err(Conflict);
      }
      table := table[w.entry.url := FeedRow(w.id, Title(w))];
    }
    return Ok(table);
  }

  method Associate(feedTags: set<(string, string)>, wins: seq<Win>, tags: map<string, string>,
                   tagNameToId: map<string, string>)
    returns (table: set<(string, string)>)
    requires Mapped(tagNameToId, NamesOf(wins), tags)
    ensures table == feedTags + Pairs(wins, tags)
  {
    table := feedTags;
    for i := 0 to |wins|
      invariant table == feedTags + Pairs(wins[..i], tags)
    {
      assert forall name :: name in wins[i].entry.tags ==> name in NamesOf(wins) by {
        assert wins[i] in wins;
      }
      hide NamesOf;
      PairsStep(wins, tags, i);
      var pairs := AssociateOne(wins[i], tags, tagNameToId);
      table := table + pairs;
    }
    assert wins[..|wins|] == wins;
  }

  /** The associations of one feed, each once. */
  method AssociateOne(w: Win, tags: map<string, string>, tagNameToId: map<string, string>)
    returns (pairs: set<(string, string)>)
    requires forall name :: name in w.entry.tags ==>
               name in tags && name in tagNameToId && tagNameToId[name] == tags[name]
    ensures pairs == Pairs([w], tags)
  {
    var given := w.entry.tags;
    var seen: set<string> := {};
    pairs := {};
    for k := 0 to |given|
      invariant seen == set name | name in given[..k] && name in tags :: tags[name]
      invariant pairs == set id | id in seen :: (w.id, id)
    {
      assert given[..k + 1] == given[..k] + [given[k]];
      var id := tagNameToId[given[k]];
      if id !in seen {
        seen := seen + {id};
        pairs := pairs + {(w.id, id)};
      }
    }
    assert given[..|given|] == given;
  }

  method Import(t: Tables, wins: seq<Win>, draw: string -> string) returns (result: Result<Tables, Failure>)
    requires DistinctUrls(wins)
    ensures result.Err? <==> exists w :: w in wins && w.entry.url in t.feeds
    ensures result.Ok? ==>
              var tags := WithTags(t.tags, NamesOf(wins), draw);
              result.value == Tables(WithFeeds(t.feeds, wins, |wins|), tags, t.feedTags + Pairs(wins, tags))
  {
    var tags, tagNameToId := HandleTags(t.tags, wins, draw);
    var feeds := CreateFeeds(t.feeds, wins);
    if feeds.Err? {
      return Err(Conflict);
    }
    var feedTags := Associate(t.feedTags, wins, tags, tagNameToId);
    return Ok(Tables(feeds.value, tags, feedTags));
  }

  // ----- what it amounts to

  lemma {:induction false} FeedOf(feeds: map<string, FeedRow>, wins: seq<Win>, n: nat, k: nat)
    requires k < n <= |wins| && DistinctUrls(wins)
    ensures wins[k].entry.url in WithFeeds(feeds, wins, n)
    ensures WithFeeds(feeds, wins, n)[wins[k].entry.url] == FeedRow(wins[k].id, Title(wins[k]))
  {
    if k < n - 1 {
      FeedOf(feeds, wins, n - 1, k);
    }
  }

  /** An import adds each won feed and leaves the others alone. */
  lemma FeedsImported(feeds: map<string, FeedRow>, wins: seq<Win>)
    requires DistinctUrls(wins)
    ensures forall w :: w in wins ==>
              (w.entry.url in WithFeeds(feeds, wins, |wins|)
               && WithFeeds(feeds, wins, |wins|)[w.entry.url] == FeedRow(w.id, Title(w)))
    ensures forall w :: w in wins ==>
              Title(w) == if w.entry.title != "" then Some(w.entry.title)
                          else if w.fetchedTitle != "" then Some(w.fetchedTitle) else None
    ensures forall url :: url !in UrlsOf(wins) ==>
              (url in WithFeeds(feeds, wins, |wins|) <==> url in feeds)
              && (url in feeds ==> WithFeeds(feeds, wins, |wins|)[url] == feeds[url])
  {
    hide WithFeeds;
    forall w | w in wins
      ensures w.entry.url in WithFeeds(feeds, wins, |wins|)
              && WithFeeds(feeds, wins, |wins|)[w.entry.url] == FeedRow(w.id, Title(w))
    {
      var k :| 0 <= k < |wins| && wins[k] == w;
      FeedOf(feeds, wins, |wins|, k);
    }
    forall url | url !in UrlsOf(wins)
      ensures (url in WithFeeds(feeds, wins, |wins|) <==> url in feeds)
              && (url in feeds ==> WithFeeds(feeds, wins, |wins|)[url] == feeds[url])
    {
      OtherFeeds(feeds, wins, |wins|, url);
    }
  }

  /** There is one tag row for each name, old rows unchanged, and a new feed carries exactly the tags
      its entry names. */
  lemma TagsImported(t: Tables, wins: seq<Win>, draw: string -> string, tags: map<string, string>)
    requires NewIds(t.tags, draw) && OneIdPerTag(t.tags) && tags == WithTags(t.tags, NamesOf(wins), draw)
    requires forall i, j :: 0 <= i < j < |wins| ==> wins[i].id != wins[j].id
    requires forall w, tag :: w in wins ==> (w.id, tag) !in t.feedTags
    ensures OneIdPerTag(tags) && forall name :: name in t.tags ==> name in tags && tags[name] == t.tags[name]
    ensures forall name :: name in NamesOf(wins) ==> name in tags
    ensures forall k, name :: 0 <= k < |wins| && name in tags ==>
              ((wins[k].id, tags[name]) in t.feedTags + Pairs(wins, tags) <==> name in wins[k].entry.tags)
  {
    TagsStayDistinct(t.tags, NamesOf(wins), draw);
    hide NamesOf, OneIdPerTag, Pairs;
    forall k, name | 0 <= k < |wins| && name in tags
      ensures (wins[k].id, tags[name]) in t.feedTags + Pairs(wins, tags) <==> name in wins[k].entry.tags
    {
      PairOf(wins, tags, k, name);
      assert wins[k] in wins;
    }
  }

  lemma TagsStayDistinct(tags: map<string, string>, names: set<string>, draw: string -> string)
    requires NewIds(tags, draw) && OneIdPerTag(tags)
    ensures OneIdPerTag(WithTags(tags, names, draw))
  {
    var all := WithTags(tags, names, draw);
    forall a, b | a in all && b in all && all[a] == all[b] ensures a == b {
      assert a in tags ==> tags[a] in tags.Values;
      assert b in tags ==> tags[b] in tags.Values;
    }
  }

  lemma PairOf(wins: seq<Win>, tags: map<string, string>, k: nat, name: string)
    requires k < |wins| && name in tags && OneIdPerTag(tags)
    requires forall i, j :: 0 <= i < j < |wins| ==> wins[i].id != wins[j].id
    ensures (wins[k].id, tags[name]) in Pairs(wins, tags) <==> name in wins[k].entry.tags
  {
    if name in wins[k].entry.tags {
      assert wins[k] in wins;
    }
    if (wins[k].id, tags[name]) in Pairs(wins, tags) {
      var w, other :| w in wins && other in w.entry.tags && other in tags
                      && (w.id, tags[other]) == (wins[k].id, tags[name]);
      var m :| 0 <= m < |wins| && wins[m] == w;
    }
  }
}
