/** Reading and writing OPML at the level of outline trees, cmd/feed-reader/opml.go:48-152. */
module Opml {
  import opened Order
  import opened Text

  datatype Outline = Outline(text: string, title: string, xmlUrl: string, htmlUrl: string, category: string,
                             kind: string, outlines: seq<Outline>)

  datatype Feed = Feed(title: string, url: string, tags: seq<string>)

  datatype ExportFeed = ExportFeed(title: string, xmlUrl: string, htmlUrl: string, tags: seq<string>, kind: string)

  /** A feed with its tags as a set. */
  datatype Entry = Entry(title: string, url: string, tags: set<string>)

  // ----- tags

  /** The tags in strictly ascending order. */
  ghost predicate SortedListing(tags: seq<string>, all: set<string>) {
    (forall i, j :: 0 <= i < j < |tags| ==> Less(tags[i], tags[j])) && forall t :: t in tags <==> t in all
  }

  /** There is only one such listing. */
  lemma {:induction false} ListingIsUnique(a: seq<string>, b: seq<string>, all: set<string>)
    requires SortedListing(a, all) && SortedListing(b, all)
    ensures a == b
  {
    EmptyListing(a, all);
    EmptyListing(b, all);
    if a != [] {
      assert a[0] in b && b[0] in a;
      FirstIsLeast(a, all, b[0]);
      FirstIsLeast(b, all, a[0]);
      if a[0] != b[0] {
        LessTransitive(a[0], b[0], a[0]);
        LessIrreflexive(a[0]);
      }
      RestIsListing(a, all);
      RestIsListing(b, all);
      ListingIsUnique(a[1..], b[1..], all - {a[0]});
      assert a == [a[0]] + a[1..] && b == [b[0]] + b[1..];
    }
  }

  lemma EmptyListing(tags: seq<string>, all: set<string>)
    requires SortedListing(tags, all)
    ensures tags == [] <==> all == {}
  {
    if tags != [] {
      assert tags[0] in tags;
    }
  }

  lemma FirstIsLeast(tags: seq<string>, all: set<string>, t: string)
    requires SortedListing(tags, all) && t in all
    ensures tags != [] && (tags[0] == t || Less(tags[0], t))
  {
    var i :| 0 <= i < |tags| && tags[i] == t;
  }

  lemma RestIsListing(tags: seq<string>, all: set<string>)
    requires SortedListing(tags, all) && tags != []
    ensures SortedListing(tags[1..], all - {tags[0]})
  {
    assert tags == [tags[0]] + tags[1..];
    if tags[0] in tags[1..] {
      var i :| 0 < i < |tags| && tags[i] == tags[0];
      LessIrreflexive(tags[0]);
    }
  }

  function Insert(tags: seq<string>, t: string): seq<string> {
    if tags == [] then [t]
    else if Less(t, tags[0]) then [t] + tags
    else [tags[0]] + Insert(tags[1..], t)
  }

  lemma {:induction false} InsertKeepsListing(tags: seq<string>, all: set<string>, t: string)
    requires SortedListing(tags, all) && t !in all
    ensures SortedListing(Insert(tags, t), all + {t})
  {
    if tags != [] {
      var rest := Insert(tags[1..], t);
      if Less(t, tags[0]) {
        forall j | 0 < j < |tags| ensures Less(t, tags[j]) {
          LessTransitive(t, tags[0], tags[j]);
        }
      } else {
        RestIsListing(tags, all);
        InsertKeepsListing(tags[1..], all - {tags[0]}, t);
        assert tags[0] in tags;
        LessTotal(t, tags[0]);
        forall x | x in rest ensures Less(tags[0], x) {
          if x != t {
            FirstIsLeast(tags, all, x);
          }
        }
      }
    }
  }

  /** The keys of a Go map, which come in any order, sorted. */
  method ListTags(tagSet: set<string>) returns (tags: seq<string>)
    ensures SortedListing(tags, tagSet)
  {
    tags := [];
    var rest := tagSet;
    while rest != {}
      invariant rest <= tagSet && SortedListing(tags, tagSet - rest)
      decreases |rest|
    {
      var t :| t in rest;
      InsertKeepsListing(tags, tagSet - rest, t);
      assert tagSet - rest + {t} == tagSet - (rest - {t});
      tags := Insert(tags, t);
      rest := rest - {t};
    }
  }

  /** The trimmed texts that are not empty. */
  function TagsIn(texts: seq<string>): set<string> {
    set t | t in texts && Trim(t, GoSpace) != "" :: Trim(t, GoSpace)
  }

  function Categories(category: string): set<string> {
    TagsIn(Split(category, ','))
  }

  // ----- reading

  function FolderName(o: Outline): string {
    if o.title != "" then o.title else o.text
  }

  /** The tags of the outlines inside `o`. */
  function InnerTags(o: Outline, parentTags: seq<string>): seq<string> {
    var name := Trim(FolderName(o), GoSpace);
    if name != "" then parentTags + [name] else parentTags
  }

  function OwnEntries(o: Outline, parentTags: seq<string>): seq<Entry> {
    if o.xmlUrl == "" then []
    else [Entry(FolderName(o), o.xmlUrl, TagsIn(parentTags) + Categories(o.category))]
  }

  /** The feeds of a list of outlines below folders named `parentTags`. */
  function Extracted(outlines: seq<Outline>, parentTags: seq<string>): seq<Entry> {
    if outlines == [] then []
    else
      var o := outlines[0];
      OwnEntries(o, parentTags) + Extracted(o.outlines, InnerTags(o, parentTags)) + Extracted(outlines[1..], parentTags)
  }

  ghost predicate Listed(feed: Feed, entry: Entry) {
    feed.title == entry.title && feed.url == entry.url && SortedListing(feed.tags, entry.tags)
  }

  ghost predicate AllListed(feeds: seq<Feed>, entries: seq<Entry>) {
    |feeds| == |entries| && forall i :: 0 <= i < |feeds| ==> Listed(feeds[i], entries[i])
  }

  lemma ExtractedFrom(outlines: seq<Outline>, i: nat, parentTags: seq<string>, entries: seq<Entry>)
    requires i < |outlines|
    ensures var o := outlines[i];
            entries + Extracted(outlines[i..], parentTags) ==
            entries + OwnEntries(o, parentTags) + Extracted(o.outlines, InnerTags(o, parentTags))
            + Extracted(outlines[i + 1..], parentTags)
  {
    hide OwnEntries, InnerTags;
    assert outlines[i..][0] == outlines[i] && outlines[i..][1..] == outlines[i + 1..];
  }

  lemma InnerTagsAre(o: Outline, parentTags: seq<string>, tags: seq<string>)
    requires var name := Trim(FolderName(o), GoSpace); tags == if name != "" then parentTags + [name] else parentTags
    ensures tags == InnerTags(o, parentTags)
  {}

  lemma NothingExtracted(o: Outline, parentTags: seq<string>)
    requires |o.outlines| == 0
    ensures Extracted(o.outlines, InnerTags(o, parentTags)) == []
  {}

  lemma NothingLeft(parentTags: seq<string>)
    ensures Extracted([], parentTags) == []
  {}

  /** The list that the recursive closure appends to. */
  class Extraction {
    var feeds: seq<Feed>

    constructor ()
      ensures feeds == []
    {
      feeds := [];
    }

    method Extract(outlines: seq<Outline>, parentTags: seq<string>, ghost before: seq<Entry>)
      requires AllListed(feeds, before)
      modifies this
      ensures AllListed(feeds, before + Extracted(outlines, parentTags))
      decreases outlines
    {
      hide Extracted, OwnEntries, AllListed, InnerTags, Trim;
      ghost var entries := before;
      assert outlines[0..] == outlines;
      for i := 0 to |outlines|
        invariant AllListed(feeds, entries)
        invariant entries + Extracted(outlines[i..], parentTags) == before + Extracted(outlines, parentTags)
      {
        var o := outlines[i];
        ghost var own := OwnEntries(o, parentTags);
        ghost var inner := Extracted(o.outlines, InnerTags(o, parentTags));
        ExtractedFrom(outlines, i, parentTags, entries);
        Add(o, parentTags, entries);
        if |o.outlines| > 0 {
          var name := Trim(FolderName(o), GoSpace);
          var tags := parentTags;
          if name != "" {
            tags := tags + [name];
          }
          assert tags == InnerTags(o, parentTags) by { InnerTagsAre(o, parentTags, tags); }
          Extract(o.outlines, tags, entries + own);
        } else {
          NothingExtracted(o, parentTags);
          assert entries + own + inner == entries + own;
        }
        entries := entries + own + inner;
      }
      assert outlines[|outlines|..] == [];
      NothingLeft(parentTags);
      assert entries + [] == entries;
    }

    /** The feed that an outline stands for itself. */
    method Add(o: Outline, parentTags: seq<string>, ghost before: seq<Entry>)
      requires AllListed(feeds, before)
      modifies this
      ensures AllListed(feeds, before + OwnEntries(o, parentTags))
    {
      if o.xmlUrl == "" {
        return;
      }
      var tagSet := Collect({}, parentTags);
      if o.category != "" {
        tagSet := Collect(tagSet, Split(o.category, ','));
      }
      var tags := ListTags(tagSet);
      feeds := feeds + [Feed(FolderName(o), o.xmlUrl, tags)];
    }
  }

  method Collect(start: set<string>, texts: seq<string>) returns (tagSet: set<string>)
    ensures tagSet == start + TagsIn(texts)
  {
    tagSet := start;
    for i := 0 to |texts|
      invariant tagSet == start + TagsIn(texts[..i])
    {
      var t := Trim(texts[i], GoSpace);
      assert texts[..i + 1] == texts[..i] + [texts[i]];
      if t != "" {
        tagSet := tagSet + {t};
      }
    }
    assert texts[..|texts|] == texts;
  }

  method ParseOutlines(body: seq<Outline>) returns (feeds: seq<Feed>)
    ensures AllListed(feeds, Extracted(body, []))
  {
    var extraction := new Extraction();
    extraction.Extract(body, [], []);
    feeds := extraction.feeds;
    assert [] + Extracted(body, []) == Extracted(body, []);
  }

  // ----- what the feeds and their tags are

  /** The chain of outlines from the top to every outline, in document order. */
  function Chains(outlines: seq<Outline>, above: seq<Outline>): seq<seq<Outline>> {
    if outlines == [] then []
    else
      var o := outlines[0];
      [above + [o]] + Chains(o.outlines, above + [o]) + Chains(outlines[1..], above)
  }

  function FolderNames(chain: seq<Outline>): seq<string> {
    if chain == [] then [] else FolderNames(chain[..|chain| - 1]) + [FolderName(chain[|chain| - 1])]
  }

  /** An outline with an address is a feed, tagged by the folders it lies in and by its categories. */
  function EntriesOf(chains: seq<seq<Outline>>): seq<Entry> {
    if chains == [] then []
    else if chains[0] == [] then EntriesOf(chains[1..])
    else
      var folders := chains[0][..|chains[0]| - 1];
      var o := chains[0][|chains[0]| - 1];
      (if o.xmlUrl == "" then []
       else [Entry(FolderName(o), o.xmlUrl, TagsIn(FolderNames(folders)) + Categories(o.category))])
      + EntriesOf(chains[1..])
  }

  lemma {:induction false} EntriesAppend(a: seq<seq<Outline>>, b: seq<seq<Outline>>)
    ensures EntriesOf(a + b) == EntriesOf(a) + EntriesOf(b)
  {
    if a == [] {
      assert a + b == b;
    } else {
      assert (a + b)[1..] == a[1..] + b;
      EntriesAppend(a[1..], b);
    }
  }

  lemma TrimTwice(s: string)
    ensures Trim(Trim(s, GoSpace), GoSpace) == Trim(s, GoSpace)
  {
    var _, _ := TrimSplits(s, GoSpace);
    var core := Trim(s, GoSpace);
    if core != "" {
      TrimOf("", core, "", GoSpace);
      assert "" + core + "" == core;
    }
  }

  /** Carrying trimmed names down, and leaving out blank ones, gives the same tags as collecting the
      names of the whole chain. */
  lemma InnerTagsOf(above: seq<Outline>, o: Outline, parentTags: seq<string>)
    requires TagsIn(parentTags) == TagsIn(FolderNames(above))
    ensures TagsIn(InnerTags(o, parentTags)) == TagsIn(FolderNames(above + [o]))
  {
    hide Trim;
    var chain := above + [o];
    assert chain[..|chain| - 1] == above;
    var name := FolderName(o);
    TrimTwice(name);
    TagsAppend(FolderNames(above), name);
    TagsAppend(parentTags, Trim(name, GoSpace));
  }

  lemma TagsAppend(texts: seq<string>, t: string)
    ensures TagsIn(texts + [t]) == TagsIn(texts) + if Trim(t, GoSpace) != "" then {Trim(t, GoSpace)} else {}
  {}

  lemma {:induction false} ExtractedBelow(outlines: seq<Outline>, above: seq<Outline>, parentTags: seq<string>)
    requires TagsIn(parentTags) == TagsIn(FolderNames(above))
    ensures Extracted(outlines, parentTags) == EntriesOf(Chains(outlines, above))
    decreases outlines
  {
    hide TagsIn, FolderNames, Categories, InnerTags;
    if outlines != [] {
      var o := outlines[0];
      InnerTagsOf(above, o, parentTags);
      ExtractedBelow(o.outlines, above + [o], InnerTags(o, parentTags));
      ExtractedBelow(outlines[1..], above, parentTags);
      var first := [above + [o]];
      EntriesAppend(first + Chains(o.outlines, above + [o]), Chains(outlines[1..], above));
      EntriesAppend(first, Chains(o.outlines, above + [o]));
      assert (above + [o])[..|above|] == above;
      assert EntriesOf(first) == OwnEntries(o, parentTags) by {
        assert first[1..] == [] && EntriesOf([]) == [];
      }
    }
  }

  /** For every tree the recursion yields the feeds in document order, each with the names of all the
      folders it lies in and its categories. */
  lemma ExtractedInDocumentOrder(body: seq<Outline>)
    ensures Extracted(body, []) == EntriesOf(Chains(body, []))
  {
    assert FolderNames([]) == [];
    ExtractedBelow(body, [], []);
  }

  /** An outline goes by its title, or by its text if it has no title. */
  ghost predicate GoesBy(o: Outline, name: string) {
    (o.title != "" && name == o.title) || (o.title == "" && name == o.text)
  }

  /** The tag is the trimmed name of a folder or one of the trimmed parts of the outline's category. */
  ghost predicate Tagged(folders: seq<Outline>, o: Outline, tag: string) {
    tag != "" && ((exists name :: Named(folders, name) && Trim(name, GoSpace) == tag)
                  || exists part :: part in Split(o.category, ',') && Trim(part, GoSpace) == tag)
  }

  ghost predicate Named(folders: seq<Outline>, name: string) {
    exists k :: 0 <= k < |folders| && GoesBy(folders[k], name)
  }

  lemma {:induction false} FolderNamesAre(chain: seq<Outline>, name: string)
    ensures name in FolderNames(chain) <==> Named(chain, name)
  {
    if chain != [] {
      var n := |chain| - 1;
      FolderNamesAre(chain[..n], name);
      if Named(chain[..n], name) {
        var k :| 0 <= k < n && GoesBy(chain[..n][k], name);
        assert GoesBy(chain[k], name);
      }
      if Named(chain, name) && !GoesBy(chain[n], name) {
        var k :| 0 <= k < |chain| && GoesBy(chain[k], name);
        assert GoesBy(chain[..n][k], name);
      }
    }
  }

  /** What the outline at the end of a chain contributes: nothing without an address, else one feed with
      its name, its address and its tags. */
  lemma EntryOf(folders: seq<Outline>, o: Outline)
    ensures o.xmlUrl == "" ==> EntriesOf([folders + [o]]) == []
    ensures o.xmlUrl != "" ==>
              |EntriesOf([folders + [o]])| == 1
              && var entry := EntriesOf([folders + [o]])[0];
              && GoesBy(o, entry.title) && entry.url == o.xmlUrl
              && forall tag :: tag in entry.tags <==> Tagged(folders, o, tag)
  {
    var chain := folders + [o];
    assert chain[..|chain| - 1] == folders && EntriesOf([]) == [];
    var chains := [chain];
    assert chains[1..] == [];
    hide Trim, Split, Named;
    forall name ensures name in FolderNames(folders) <==> Named(folders, name) {
      FolderNamesAre(folders, name);
    }
    hide FolderNames;
  }

  /** Each outline of the chain lies in the one before, the first in the list. */
  ghost predicate Descends(outlines: seq<Outline>, chain: seq<Outline>)
    decreases |chain|
  {
    chain != [] && chain[0] in outlines && (|chain| == 1 || Descends(chain[0].outlines, chain[1..]))
  }

  /** There is a chain to every outline, however deep. */
  lemma {:induction false} ChainsReachAll(outlines: seq<Outline>, above: seq<Outline>, chain: seq<Outline>)
    requires Descends(outlines, chain)
    ensures above + chain in Chains(outlines, above)
    decreases outlines
  {
    var o := outlines[0];
    if chain[0] == o {
      if |chain| == 1 {
        assert chain == [o];
      } else {
        ChainsReachAll(o.outlines, above + [o], chain[1..]);
        assert above + [o] + chain[1..] == above + chain;
      }
    } else {
      ChainsReachAll(outlines[1..], above, chain);
    }
  }

  lemma {:induction false} ChainsDescend(outlines: seq<Outline>, above: seq<Outline>, whole: seq<Outline>)
    returns (chain: seq<Outline>)
    requires whole in Chains(outlines, above)
    ensures whole == above + chain && Descends(outlines, chain)
    decreases outlines
  {
    var o := outlines[0];
    if whole == above + [o] {
      chain := [o];
    } else if whole in Chains(o.outlines, above + [o]) {
      var rest := ChainsDescend(o.outlines, above + [o], whole);
      chain := [o] + rest;
      assert chain[1..] == rest && above + [o] + rest == above + chain;
    } else {
      chain := ChainsDescend(outlines[1..], above, whole);
      if |chain| > 1 {
        assert Descends(chain[0].outlines, chain[1..]);
      }
    }
  }

  // ----- writing

  function Exported(f: ExportFeed): Outline {
    Outline(f.title, f.title, f.xmlUrl, f.htmlUrl, if |f.tags| > 0 then Join(f.tags, ',') else "",
            if f.kind == "" then "rss" else f.kind, [])
  }

  function AllExported(feeds: seq<ExportFeed>): (outlines: seq<Outline>)
    ensures |outlines| == |feeds| && forall i :: 0 <= i < |feeds| ==> outlines[i] == Exported(feeds[i])
  {
    if feeds == [] then [] else [Exported(feeds[0])] + AllExported(feeds[1..])
  }

  /** The feed's own title and addresses, its tags separated by commas, and its type, by default "rss". */
  ghost predicate Describes(o: Outline, f: ExportFeed) {
    && o.text == o.title == f.title && o.xmlUrl == f.xmlUrl && o.htmlUrl == f.htmlUrl && o.outlines == []
    && (f.kind != "" ==> o.kind == f.kind) && (f.kind == "" ==> o.kind == "rss")
    && ((forall t :: t in f.tags ==> ',' !in t) && f.tags != [] ==> Split(o.category, ',') == f.tags)
    && (f.tags == [] ==> o.category == "")
  }

  lemma ExportDescribes(f: ExportFeed)
    ensures Describes(Exported(f), f)
  {
    if f.tags != [] && forall t :: t in f.tags ==> ',' !in t {
      JoinThenSplit(f.tags, ',');
    }
  }

  method ExportOutlines(feeds: seq<ExportFeed>) returns (outlines: array<Outline>)
    ensures outlines[..] == AllExported(feeds)
    ensures outlines.Length == |feeds| && forall k :: 0 <= k < |feeds| ==> Describes(outlines[k], feeds[k])
  {
    outlines := new Outline[|feeds|];
    for i := 0 to |feeds|
      invariant forall k :: 0 <= k < i ==> outlines[k] == Exported(feeds[k])
    {
      var f := feeds[i];
      var kind := f.kind;
      if kind == "" {
        kind := "rss";
      }
      var category := "";
      if |f.tags| > 0 {
        category := Join(f.tags, ',');
      }
      outlines[i] := Outline(f.title, f.title, f.xmlUrl, f.htmlUrl, category, kind, []);
    }
    forall k | 0 <= k < |feeds| ensures Describes(outlines[k], feeds[k]) {
      ExportDescribes(feeds[k]);
    }
  }

  // ----- the round trip

  /** A tag that survives: not empty, without surrounding white space and commas. */
  predicate CleanTag(t: string) {
    t != "" && Trim(t, GoSpace) == t && ',' !in t
  }

  predicate Survives(f: ExportFeed) {
    f.xmlUrl != "" && forall t :: t in f.tags ==> CleanTag(t)
  }

  function Original(f: ExportFeed): Entry {
    Entry(f.title, f.xmlUrl, set t | t in f.tags)
  }

  function Originals(feeds: seq<ExportFeed>): (entries: seq<Entry>)
    ensures |entries| == |feeds|
  {
    if feeds == [] then [] else [Original(feeds[0])] + Originals(feeds[1..])
  }

  lemma {:induction false} SplitAround(a: string, b: string, sep: char)
    ensures Split(a + [sep] + b, sep) == Split(a, sep) + Split(b, sep)
  {
    var s := a + [sep] + b;
    if a == "" {
      assert s[1..] == b;
    } else {
      assert s[1..] == a[1..] + [sep] + b;
      SplitAround(a[1..], b, sep);
    }
  }

  lemma TagsConcat(a: seq<string>, b: seq<string>)
    ensures TagsIn(a + b) == TagsIn(a) + TagsIn(b)
  {}

  function Pieces(tags: seq<string>): set<string> {
    if tags == [] then {} else Categories(tags[0]) + Pieces(tags[1..])
  }

  lemma {:induction false} CleanPieces(tags: seq<string>)
    requires forall t :: t in tags ==> CleanTag(t)
    ensures Pieces(tags) == set t | t in tags
  {
    hide Categories, CleanTag;
    if tags != [] {
      assert tags == [tags[0]] + tags[1..];
      CleanIsOwnCategory(tags[0]);
      CleanPieces(tags[1..]);
    }
  }

  lemma {:induction false} PiecesAreClean(tags: seq<string>, piece: string)
    requires piece in Pieces(tags)
    ensures CleanTag(piece)
  {
    hide Categories, CleanTag;
    if piece in Categories(tags[0]) {
      CategoriesAreClean(tags[0], piece);
    } else {
      PiecesAreClean(tags[1..], piece);
    }
  }

  /** The tags read back from joined tags: the pieces of each. */
  lemma {:induction false} JoinedCategories(tags: seq<string>)
    requires tags != []
    ensures Categories(Join(tags, ',')) == Pieces(tags)
  {
    hide TagsIn, Split;
    if |tags| == 1 {
      assert tags[1..] == [];
    } else {
      JoinedCategories(tags[1..]);
      SplitAround(tags[0], Join(tags[1..], ','), ',');
      TagsConcat(Split(tags[0], ','), Split(Join(tags[1..], ','), ','));
    }
  }

  lemma CleanIsOwnCategory(t: string)
    requires CleanTag(t)
    ensures Categories(t) == {t}
  {
    SplitWhole(t, ',');
    assert TagsIn([t]) == {t};
  }

  lemma CategoriesAreClean(category: string, t: string)
    requires t in Categories(category)
    ensures CleanTag(t)
  {
    hide Trim, Split;
    var part :| part in Split(category, ',') && Trim(part, GoSpace) == t && t != "";
    SplitThenJoin(category, ',');
    var lead, tail := TrimSplits(part, GoSpace);
    TrimTwice(part);
  }

  /** A feed's tags come back as they were exactly when each of them is clean. */
  lemma TagsComeBack(f: ExportFeed)
    ensures Categories(Exported(f).category) == (set t | t in f.tags) <==> forall t :: t in f.tags ==> CleanTag(t)
  {
    if f.tags == [] {
      assert Split("", ',') == [""] && Trim("", GoSpace) == "";
    } else {
      JoinedCategories(f.tags);
      hide CleanTag, Categories, Join;
      if forall t :: t in f.tags ==> CleanTag(t) {
        CleanPieces(f.tags);
      } else {
        var t :| t in f.tags && !CleanTag(t);
        if t in Pieces(f.tags) {
          PiecesAreClean(f.tags, t);
        }
      }
    }
  }

  lemma ExportedEntries(f: ExportFeed)
    ensures OwnEntries(Exported(f), []) ==
            if f.xmlUrl == "" then [] else [Entry(f.title, f.xmlUrl, Categories(Exported(f).category))]
    ensures Survives(f) <==> OwnEntries(Exported(f), []) == [Original(f)]
  {
    TagsComeBack(f);
    hide Categories;
    assert TagsIn([]) == {};
    assert TagsIn([]) + Categories(Exported(f).category) == Categories(Exported(f).category);
  }

  lemma {:induction false} ReadBackAtMost(feeds: seq<ExportFeed>)
    ensures |Extracted(AllExported(feeds), [])| <= |feeds|
  {
    if feeds != [] {
      assert AllExported(feeds)[1..] == AllExported(feeds[1..]);
      ReadBackAtMost(feeds[1..]);
      assert Extracted([], InnerTags(Exported(feeds[0]), [])) == [];
    }
  }

  /** Exporting feeds and reading them back gives the same titles, addresses and tags, in order,
      exactly when every feed has an address and every tag is clean. */
  lemma {:induction false} RoundTrip(feeds: seq<ExportFeed>)
    ensures Extracted(AllExported(feeds), []) == Originals(feeds) <==>
              forall i :: 0 <= i < |feeds| ==> Survives(feeds[i])
  {
    hide Survives, OwnEntries, InnerTags, Exported;
    if feeds != [] {
      var outlines := AllExported(feeds);
      assert outlines[1..] == AllExported(feeds[1..]);
      var own := OwnEntries(outlines[0], []);
      var rest := Extracted(AllExported(feeds[1..]), []);
      assert Extracted(outlines, []) == own + rest by {
        ExportedHasNoOutlines(feeds[0]);
        assert Extracted([], InnerTags(outlines[0], [])) == [];
        assert own + [] + rest == own + rest;
      }
      RoundTrip(feeds[1..]);
      ExportedEntries(feeds[0]);
      ReadBackAtMost(feeds[1..]);
      assert |own| <= 1 by { OwnAtMostOne(outlines[0]); }
      assert feeds == [feeds[0]] + feeds[1..];
      if own + rest == Originals(feeds) {
        assert |own| == 1 && own[0] == Originals(feeds)[0] && own == [Original(feeds[0])];
        assert rest == (own + rest)[1..] == Originals(feeds[1..]);
        SurviveAll(feeds);
      }
    }
  }

  lemma SurviveAll(feeds: seq<ExportFeed>)
    requires feeds != [] && Survives(feeds[0]) && forall i :: 0 <= i < |feeds[1..]| ==> Survives(feeds[1..][i])
    ensures forall i :: 0 <= i < |feeds| ==> Survives(feeds[i])
  {
    forall i | 0 <= i < |feeds| ensures Survives(feeds[i]) {
      assert i > 0 ==> feeds[i] == feeds[1..][i - 1];
    }
  }

  lemma OwnAtMostOne(o: Outline)
    ensures |OwnEntries(o, [])| <= 1
  {}

  lemma ExportedHasNoOutlines(f: ExportFeed)
    ensures Exported(f).outlines == []
  {}
}
