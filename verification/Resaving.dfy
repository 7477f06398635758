/** What a user can rely on while feeds are fetched and rules are added: items keep their identity, and
    their read flags change only when somebody marks them. */
module Resaving {
  import opened Wrappers
  import opened FeedStore
  import opened ItemTables
  import opened BlockIndex

  /** Whether an item counts as read; without a read row it does not. */
  predicate Flag(db: Db, id: string) {
    id in db.readRows && db.readRows[id].isRead
  }

  /** The step is a mark that takes effect, which it does unless it names an unknown item. */
  ghost predicate Marks(s: State, step: Step, id: string) {
    step.Mark? && id in step.marked && step.marked <= ItemIds(s.db)
  }

  /** The value of the last mark of an item in a run. */
  ghost function LastMark(s: State, st: Setting, run: seq<Step>, id: string): Option<bool>
    requires ValidRun(s, st, run)
    decreases |run|
  {
    if run == [] then None
    else
      var later := LastMark(Apply(s, st, run[0]), st, run[1..], id);
      if later.Some? then later
      else if Marks(s, run[0], id) then Some(run[0].isRead) else None
  }

  lemma SaveKeepsFlags(s: State, st: Setting, step: Step, id: string)
    requires Inv(s, st) && step.Save? && Enabled(s, step)
    ensures Kept(s.db, Apply(s, st, step).db) && Flag(Apply(s, st, step).db, id) == Flag(s.db, id)
  {
    hide Kept, Tables, Complete, Sound, Bookkeeping;
    var saved := SaveFirst(s.db, st, step.items, step.ids, step.now, |step.items|);
    if saved.Ok? {
      SaveKeeps(s.db, st, step.items, step.ids, step.now, |step.items|, saved.value);
    } else {
      KeptItself(s.db);
    }
    hide SaveFirst, SeenIn;
  }

  lemma AddRulesKeepsFlags(s: State, st: Setting, step: Step, id: string)
    requires Inv(s, st) && step.AddRules? && Enabled(s, step)
    ensures Kept(s.db, Apply(s, st, step).db) && Flag(Apply(s, st, step).db, id) == Flag(s.db, id)
  {
    hide Tables, Complete, Sound;
    var created := CreateRules(s.db.rules, step.given, |step.given|);
    if created.Ok? {
      CreatedRules(s.db.rules, step.given, |step.given|);
    }
    hide CreateRules;
  }

  lemma PopulateKeepsFlags(s: State, st: Setting, step: Step, id: string)
    requires Inv(s, st) && step.Populate? && Enabled(s, step)
    ensures Kept(s.db, Apply(s, st, step).db) && Flag(Apply(s, st, step).db, id) == Flag(s.db, id)
  {
    hide Tables, Complete, Sound, Bookkeeping, Matches, ItemIds;
    var scan := s.scans[step.scan];
    Populates(s.db, st, scan.rules[0], scan.snapshot.value, |scan.snapshot.value|);
    hide PopulateFirst, GivenUp;
  }

  lemma MarkSetsFlags(s: State, st: Setting, step: Step, id: string)
    requires Inv(s, st) && step.Mark?
    ensures Kept(s.db, Apply(s, st, step).db)
    ensures Flag(Apply(s, st, step).db, id) == if Marks(s, step, id) then step.isRead else Flag(s.db, id)
  {
    SetReadsKeeps(s.db, step.marked, step.isRead, step.now);
    hide Kept, Tables, Complete, Sound, Bookkeeping, ItemIds;
  }

  lemma StepKeepsFlags(s: State, st: Setting, step: Step, id: string)
    requires Inv(s, st) && Enabled(s, step)
    ensures Kept(s.db, Apply(s, st, step).db)
    ensures Flag(Apply(s, st, step).db, id) == if Marks(s, step, id) then step.isRead else Flag(s.db, id)
  {
    hide Inv, Flag;
    match step
    case Save(_, _, _) => SaveKeepsFlags(s, st, step, id);
    case AddRules(_, _) => AddRulesKeepsFlags(s, st, step, id);
    case Load(_, _) => KeptItself(s.db);
    case Abandon(_) => KeptItself(s.db);
    case Populate(_, _) => PopulateKeepsFlags(s, st, step, id);
    case Mark(_, _, _) => MarkSetsFlags(s, st, step, id);
    case AddFeed(feed) => AddFeedKeepsFlags(s, st, feed, id);
  }

  lemma AddFeedKeepsFlags(s: State, st: Setting, feed: string, id: string)
    ensures Apply(s, st, AddFeed(feed)).db.feeds == s.db.feeds + {feed}
    ensures Kept(s.db, Apply(s, st, AddFeed(feed)).db) && Flag(Apply(s, st, AddFeed(feed)).db, id) == Flag(s.db, id)
  {}

  /** Over every run: nothing disappears, an item's identifier, creation time and first publication
      time stay, there is one item for each URL with one read row and a feed, and an item is read
      exactly when the last mark says so. */
  lemma {:induction false} ResavingKeeps(s: State, st: Setting, run: seq<Step>, id: string)
    requires Inv(s, st) && ValidRun(s, st, run)
    ensures Tables(Execute(s, st, run).db) && Kept(s.db, Execute(s, st, run).db)
    ensures Flag(Execute(s, st, run).db, id) ==
            match LastMark(s, st, run, id) case Some(isRead) => isRead case None => Flag(s.db, id)
    decreases |run|
  {
    hide Apply, Complete, Sound, Bookkeeping, Kept, Tables, Flag;
    if run == [] {
      KeptItself(s.db);
    } else {
      var s' := Apply(s, st, run[0]);
      StepKeepsInv(s, st, run[0]);
      StepKeepsFlags(s, st, run[0], id);
      ResavingKeeps(s', st, run[1..], id);
      KeptTransitive(s.db, s'.db, Execute(s', st, run[1..]).db);
    }
  }

  /** In particular from an empty database with some feeds. */
  lemma ResavingFromStart(feeds: set<string>, st: Setting, run: seq<Step>, id: string)
    requires ValidRun(Start(feeds), st, run)
    ensures Tables(Execute(Start(feeds), st, run).db)
    ensures Flag(Execute(Start(feeds), st, run).db, id) == (LastMark(Start(feeds), st, run, id) == Some(true))
  {
    ResavingKeeps(Start(feeds), st, run, id);
  }
}
