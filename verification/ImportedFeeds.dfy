/** An import from end to end, cmd/feed-reader/opml_importer.go:20-198: what the workers have
    classified becomes the feeds, tags and associations of the final transaction. */
module ImportedFeeds {
  import I = Import
  import opened ImportTables
  import opened Opml
  import opened Wrappers

  datatype ImportResults = ImportResults(total: nat, success: nat, skipped: nat, failed: seq<string>)

  /** The entries to create, with the title each feed has and the identifier drawn for it. */
  function WinsOf(entries: seq<Feed>, fetched: seq<nat>, titles: nat -> string, ids: nat -> string): (wins: seq<Win>)
    requires forall k :: 0 <= k < |fetched| ==> fetched[k] < |entries|
    ensures |wins| == |fetched|
    ensures forall k :: 0 <= k < |wins| ==> wins[k] == Win(entries[fetched[k]], titles(fetched[k]), ids(fetched[k]))
  {
    seq(|fetched|, k requires 0 <= k < |fetched| => Win(entries[fetched[k]], titles(fetched[k]), ids(fetched[k])))
  }

  /** The identifiers drawn for feeds are different and new. */
  ghost predicate NewFeedIds(t: Tables, ids: nat -> string) {
    && (forall i, j :: ids(i) == ids(j) ==> i == j)
    && (forall i, tag :: (ids(i), tag) !in t.feedTags)
  }

  /** The feed of an entry is in the table under its own identifier, with the title of the file or else
      its own, and carries exactly the tags that the entry names. */
  ghost predicate Created(entry: Feed, title: string, id: string, t: Tables) {
    && entry.url in t.feeds && t.feeds[entry.url].id == id
    && (entry.title != "" ==> t.feeds[entry.url].title == Some(entry.title))
    && (entry.title == "" && title != "" ==> t.feeds[entry.url].title == Some(title))
    && (entry.title == "" && title == "" ==> t.feeds[entry.url].title == None)
    && (forall name :: name in entry.tags ==> name in t.tags)
    && (forall name :: name in t.tags ==> ((id, t.tags[name]) in t.feedTags <==> name in entry.tags))
  }

  /** All fetched entries are created and nothing else about feeds and tags has changed. */
  ghost predicate Imported(entries: seq<Feed>, s: I.State, titles: nat -> string, ids: nat -> string,
                           t: Tables, t': Tables)
    requires |s.phases| == |entries|
  {
    && (forall i: nat :: I.At(s, i, I.Fetched) ==> Created(entries[i], titles(i), ids(i), t'))
    && (forall url :: (forall i: nat :: I.At(s, i, I.Fetched) ==> entries[i].url != url) ==>
          (url in t'.feeds <==> url in t.feeds) && (url in t.feeds ==> t'.feeds[url] == t.feeds[url]))
    && (forall id, tag :: (forall i: nat :: I.At(s, i, I.Fetched) ==> ids(i) != id) ==>
          ((id, tag) in t'.feedTags <==> (id, tag) in t.feedTags))
    && OneIdPerTag(t'.tags) && (forall name :: name in t.tags ==> name in t'.tags && t'.tags[name] == t.tags[name])
    && (forall name :: name in t'.tags && name !in t.tags ==> Names(entries, s, name))
  }

  /** Some fetched entry names the tag. */
  ghost predicate Names(entries: seq<Feed>, s: I.State, name: string)
    requires |s.phases| == |entries|
  {
    exists i: nat :: I.At(s, i, I.Fetched) && name in entries[i].tags
  }

  lemma WinsDiffer(entries: seq<Feed>, s: I.State, titles: nat -> string, ids: nat -> string)
    requires I.Inv(entries, s) && I.AddsUp(entries, s) && forall i, j :: ids(i) == ids(j) ==> i == j
    ensures var wins := WinsOf(entries, s.fetched, titles, ids);
            DistinctUrls(wins) && forall i, j :: 0 <= i < j < |wins| ==> wins[i].id != wins[j].id
  {
    hide I.Counted, I.Owners;
    var wins := WinsOf(entries, s.fetched, titles, ids);
    forall i, j | 0 <= i < j < |wins| ensures wins[i].entry.url != wins[j].entry.url && wins[i].id != wins[j].id {
      assert s.fetched[i] != s.fetched[j];
    }
  }

  lemma FetchedIsWin(entries: seq<Feed>, s: I.State, titles: nat -> string, ids: nat -> string, i: nat)
    requires I.Inv(entries, s) && I.AddsUp(entries, s) && I.At(s, i, I.Fetched)
    ensures exists k :: 0 <= k < |s.fetched| && s.fetched[k] == i
                        && WinsOf(entries, s.fetched, titles, ids)[k] == Win(entries[i], titles(i), ids(i))
  {
    assert i in s.fetched;
  }

  /** The tables the transaction leaves. */
  ghost function TablesAfter(t: Tables, wins: seq<Win>, draw: string -> string): Tables {
    var tags := WithTags(t.tags, NamesOf(wins), draw);
    Tables(WithFeeds(t.feeds, wins, |wins|), tags, t.feedTags + Pairs(wins, tags))
  }

  lemma WinIsCreated(t: Tables, wins: seq<Win>, draw: string -> string, k: nat)
    requires k < |wins| && DistinctUrls(wins) && NewIds(t.tags, draw) && OneIdPerTag(t.tags)
    requires forall i, j :: 0 <= i < j < |wins| ==> wins[i].id != wins[j].id
    requires forall w, tag :: w in wins ==> (w.id, tag) !in t.feedTags
    ensures Created(wins[k].entry, wins[k].fetchedTitle, wins[k].id, TablesAfter(t, wins, draw))
  {
    hide WithFeeds, WithTags, Pairs, OneIdPerTag, NewIds, NamesOf, DistinctUrls, UrlsOf;
    var tags := WithTags(t.tags, NamesOf(wins), draw);
    FeedsImported(t.feeds, wins);
    TagsImported(t, wins, draw, tags);
    NamesOfWin(wins, k);
    var w, t' := wins[k], TablesAfter(t, wins, draw);
    assert w in wins;
    assert forall name :: name in t'.tags ==> ((w.id, t'.tags[name]) in t'.feedTags <==> name in w.entry.tags);
  }

  lemma NamesOfWin(wins: seq<Win>, k: nat)
    requires k < |wins|
    ensures forall name :: name in wins[k].entry.tags ==> name in NamesOf(wins)
  {
    assert wins[k] in wins;
  }

  lemma WinsAreImported(entries: seq<Feed>, s: I.State, titles: nat -> string, ids: nat -> string,
                        t: Tables, draw: string -> string, t': Tables)
    requires I.Inv(entries, s) && I.AddsUp(entries, s)
    requires NewIds(t.tags, draw) && OneIdPerTag(t.tags) && NewFeedIds(t, ids)
    requires t' == TablesAfter(t, WinsOf(entries, s.fetched, titles, ids), draw)
    ensures Imported(entries, s, titles, ids, t, t')
  {
    hide I.Inv, I.AddsUp, WithFeeds, WithTags, Pairs, OneIdPerTag, NewIds, Created, NamesOf, UrlsOf, DistinctUrls;
    hide NewFeedIds, Title;
    InRange(entries, s);
    var wins := WinsOf(entries, s.fetched, titles, ids);
    WinsAreNew(entries, s, t, titles, ids);
    forall i: nat | I.At(s, i, I.Fetched) ensures Created(entries[i], titles(i), ids(i), t') {
      FetchedIsCreated(entries, s, titles, ids, t, draw, i);
    }
    FeedsImported(t.feeds, wins);
    TagsImported(t, wins, draw, t'.tags);
    forall url | forall i: nat :: I.At(s, i, I.Fetched) ==> entries[i].url != url ensures url !in UrlsOf(wins) {
      OthersStay(entries, s, titles, ids, url);
    }
    OtherTagsStay(entries, s, titles, ids, t, draw);
  }

  /** Associations of other feeds stay as they are, and only names of fetched entries become tags. */
  lemma OtherTagsStay(entries: seq<Feed>, s: I.State, titles: nat -> string, ids: nat -> string,
                      t: Tables, draw: string -> string)
    requires I.Inv(entries, s) && I.AddsUp(entries, s)
    ensures var t' := TablesAfter(t, WinsOf(entries, s.fetched, titles, ids), draw);
            && (forall id, tag :: (forall i: nat :: I.At(s, i, I.Fetched) ==> ids(i) != id) ==>
                  ((id, tag) in t'.feedTags <==> (id, tag) in t.feedTags))
            && forall name :: name in t'.tags && name !in t.tags ==> Names(entries, s, name)
  {
    var wins := WinsOf(entries, s.fetched, titles, ids);
    hide WithFeeds, I.Inv;
    forall w | w in wins ensures exists i: nat :: I.At(s, i, I.Fetched) && w == Win(entries[i], titles(i), ids(i)) {
      var k :| 0 <= k < |wins| && wins[k] == w;
      assert s.fetched[k] in s.fetched;
      assert I.At(s, s.fetched[k], I.Fetched);
    }
  }

  lemma WinsAreNew(entries: seq<Feed>, s: I.State, t: Tables, titles: nat -> string, ids: nat -> string)
    requires I.Inv(entries, s) && I.AddsUp(entries, s) && NewFeedIds(t, ids)
    ensures var wins := WinsOf(entries, s.fetched, titles, ids);
            && DistinctUrls(wins) && (forall i, j :: 0 <= i < j < |wins| ==> wins[i].id != wins[j].id)
            && (forall w, tag :: w in wins ==> (w.id, tag) !in t.feedTags)
  {
    WinsDiffer(entries, s, titles, ids);
  }

  lemma FetchedIsCreated(entries: seq<Feed>, s: I.State, titles: nat -> string, ids: nat -> string,
                         t: Tables, draw: string -> string, i: nat)
    requires I.Inv(entries, s) && I.AddsUp(entries, s) && I.At(s, i, I.Fetched)
    requires NewIds(t.tags, draw) && OneIdPerTag(t.tags) && NewFeedIds(t, ids)
    ensures Created(entries[i], titles(i), ids(i), TablesAfter(t, WinsOf(entries, s.fetched, titles, ids), draw))
  {
    hide I.Inv, I.AddsUp, OneIdPerTag, NewIds, Created, DistinctUrls, TablesAfter;
    InRange(entries, s);
    var wins := WinsOf(entries, s.fetched, titles, ids);
    WinsDiffer(entries, s, titles, ids);
    FetchedIsWin(entries, s, titles, ids, i);
    var k :| 0 <= k < |s.fetched| && s.fetched[k] == i && wins[k] == Win(entries[i], titles(i), ids(i));
    WinIsCreated(t, wins, draw, k);
  }

  lemma InRange(entries: seq<Feed>, s: I.State)
    requires I.Inv(entries, s) && I.AddsUp(entries, s)
    ensures |s.phases| == |entries| && forall k :: 0 <= k < |s.fetched| ==> s.fetched[k] < |entries|
  {}

  lemma OthersStay(entries: seq<Feed>, s: I.State, titles: nat -> string, ids: nat -> string, url: string)
    requires I.Inv(entries, s) && I.AddsUp(entries, s)
    requires forall i: nat :: I.At(s, i, I.Fetched) ==> entries[i].url != url
    ensures url !in UrlsOf(WinsOf(entries, s.fetched, titles, ids))
  {
    var wins := WinsOf(entries, s.fetched, titles, ids);
    forall w | w in wins ensures w.entry.url != url {
      var k :| 0 <= k < |wins| && wins[k] == w;
      assert s.fetched[k] in s.fetched;
    }
  }

  /** The end of an import, after any completed run of the workers: without a feed to create nothing
      is written; otherwise the transaction either fails, because a URL exists by now, and writes
      nothing, or creates every feed that was fetched. `known` are the feeds the workers could see. */
  method FinishImport(entries: seq<Feed>, s: I.State, ghost known: set<string>, ghost run: seq<I.Step>,
                      titles: nat -> string, ids: nat -> string, t: Tables, draw: string -> string)
    returns (results: Result<ImportResults, Failure>, t': Tables)
    requires I.ValidRun(entries, I.Start(entries, known), run)
    requires s == I.Execute(entries, I.Start(entries, known), run) && I.Complete(s)
    requires NewIds(t.tags, draw) && OneIdPerTag(t.tags) && NewFeedIds(t, ids)
    ensures I.AddsUp(entries, s)
    ensures forall i: nat :: I.At(s, i, I.Skipped) ==> entries[i].url in s.known
    ensures forall i: nat :: I.At(s, i, I.Fetched) ==> entries[i].url !in known && I.Fetch(i, true) in run
    ensures forall i: nat :: I.At(s, i, I.Failed) ==> entries[i].url in s.failed
    ensures results.Err? <==> exists i: nat :: I.At(s, i, I.Fetched) && entries[i].url in t.feeds
    ensures results.Err? ==> t' == t
    ensures results.Ok? ==>
              var r := results.value;
              && Imported(entries, s, titles, ids, t, t')
              && r.total == |entries| && r.skipped == s.skipped && r.failed == s.failed
              && r.total == r.success + r.skipped + |r.failed| + I.Count(s.phases, I.Repeated)
  {
    I.ImportAddsUp(entries, known, run);
    I.StartIsInv(entries, known);
    I.RunKeepsInv(entries, I.Start(entries, known), run);
    I.ClassifiedByComparison(entries, known, run);
    forall i: nat | I.At(s, i, I.Fetched) ensures I.Fetch(i, true) in run {
      I.RunTells(entries, I.Start(entries, known), run, i);
    }
    hide I.Execute, I.ValidRun, I.Start, I.Complete, I.Count;
    var wins := WinsOf(entries, s.fetched, titles, ids);
    WinsDiffer(entries, s, titles, ids);
    KnownWins(entries, s, titles, ids, t);
    if |s.fetched| == 0 {
      NoneFetched(entries, s, titles, ids, t);
      return Ok(ImportResults(|entries|, 0, s.skipped, s.failed)), t;
    }
    var imported := ImportTables.Import(t, wins, draw);
    if imported.Err? {
      return Err(Conflict), t;
    }
    WinsAreImported(entries, s, titles, ids, t, draw, imported.value);
    return Ok(ImportResults(|entries|, |s.fetched|, s.skipped, s.failed)), imported.value;
  }

  lemma KnownWins(entries: seq<Feed>, s: I.State, titles: nat -> string, ids: nat -> string, t: Tables)
    requires I.Inv(entries, s) && I.AddsUp(entries, s)
    ensures (exists w :: w in WinsOf(entries, s.fetched, titles, ids) && w.entry.url in t.feeds) <==>
              exists i: nat :: I.At(s, i, I.Fetched) && entries[i].url in t.feeds
  {
    var wins := WinsOf(entries, s.fetched, titles, ids);
    if w :| w in wins && w.entry.url in t.feeds {
      var k :| 0 <= k < |wins| && wins[k] == w;
      assert s.fetched[k] in s.fetched;
    }
    if i: nat :| I.At(s, i, I.Fetched) && entries[i].url in t.feeds {
      FetchedIsWin(entries, s, titles, ids, i);
      var k :| 0 <= k < |s.fetched| && s.fetched[k] == i && wins[k] == Win(entries[i], titles(i), ids(i));
      assert wins[k] in wins;
    }
  }

  lemma NoneFetched(entries: seq<Feed>, s: I.State, titles: nat -> string, ids: nat -> string, t: Tables)
    requires I.Inv(entries, s) && s.fetched == [] && OneIdPerTag(t.tags)
    ensures Imported(entries, s, titles, ids, t, t)
  {
    forall i: nat ensures !I.At(s, i, I.Fetched) {
      assert i !in s.fetched;
    }
  }
}
