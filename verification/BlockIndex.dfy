/** The index of blocked items is written from two sides: saving an item checks it against all rules,
    and adding rules starts a background scan of all items (cmd/feed-reader/write_queue.go:187-238,
    internal/httpapi/handler.go:1230-1295). This module interleaves their transactions. */
module BlockIndex {
  import opened Wrappers
  import opened BlockRules
  import opened FeedStore
  import opened ItemReads
  import opened ItemTables

  /** A background scan: the rules it has still to populate, and the items it read. */
  datatype Scan = Scan(rules: seq<Rule>, snapshot: Option<seq<Item>>)

  /** `issued` records the rule identifiers drawn so far and `seen` every version of an item that
      a committed job stored; `dropped` records the rules and items that a scan gave up on. */
  datatype State = State(db: Db, scans: seq<Scan>, issued: set<string>, seen: set<Item>, dropped: set<(Rule, Item)>)

  /** One committed transaction, or one read of the item table. `leftover` is what attempts rolled
      back on a busy database have already put on the list of rules to scan for. A scan that cannot
      read the items is abandoned; a rule whose transaction stays busy or meets the scan's timeout
      does not commit and is passed over. */
  datatype Step =
    | Save(items: seq<Fetched>, ids: seq<string>, now: int)
    | AddRules(given: seq<Rule>, leftover: seq<Rule>)
    | Load(scan: nat, rows: seq<Item>)
    | Abandon(scan: nat)
    | Populate(scan: nat, commits: bool)
    | Mark(marked: set<string>, isRead: bool, now: int)
    | AddFeed(feed: string)

  ghost function Start(feeds: set<string>): State {
    State(Db(feeds, map[], map[], {}, [], {}), [], {}, {}, {})
  }

  ghost predicate Enabled(s: State, step: Step) {
    match step
    case Save(items, ids, _) => |items| == |ids|
    case AddRules(given, leftover) =>
      && (forall i :: 0 <= i < |given| ==> given[i].id !in s.issued)
      && (forall i, j :: 0 <= i < j < |given| ==> given[i].id != given[j].id)
      && (forall r :: r in leftover ==> r in s.db.rules || r in given)
    case Load(i, rows) =>
      i < |s.scans| && s.scans[i].snapshot.None? && forall item :: item in rows <==> item in s.db.items.Values
    case Abandon(i) => i < |s.scans| && s.scans[i].snapshot.None?
    case Populate(i, _) => i < |s.scans| && s.scans[i].snapshot.Some? && s.scans[i].rules != []
    case Mark(_, _, _) => true
    case AddFeed(_) => true
  }

  /** All versions of items that the first `n` items of a job leave in the table at some point. */
  ghost function SeenIn(db: Db, st: Setting, items: seq<Fetched>, ids: seq<string>, now: int, n: nat): set<Item>
    requires n <= |items| == |ids|
  {
    (if n == 0 then {} else SeenIn(db, st, items, ids, now, n - 1))
    + match SaveFirst(db, st, items, ids, now, n) case Ok(tx) => tx.items.Values case Err(_) => {}
  }

  ghost function GivenUp(rules: seq<Rule>, items: set<Item>): set<(Rule, Item)> {
    set r, item | r in rules && item in items :: (r, item)
  }

  ghost function Apply(s: State, st: Setting, step: Step): State
    requires Enabled(s, step)
  {
    match step
    case Save(items, ids, now) =>
      (match SaveFirst(s.db, st, items, ids, now, |items|)
       case Err(_) => s
       case Ok(db) => s.(db := db, seen := s.seen + SeenIn(s.db, st, items, ids, now, |items|)))
    case AddRules(given, leftover) =>
      (match CreateRules(s.db.rules, given, |given|)
       case Err(_) => s
       case Ok((table, listed)) =>
         s.(db := s.db.(rules := table), scans := s.scans + [Scan(leftover + listed, None)],
            issued := s.issued + set r | r in given :: r.id))
    case Load(i, rows) => s.(scans := s.scans[i := s.scans[i].(snapshot := Some(rows))])
    case Abandon(i) =>
      s.(scans := s.scans[i := s.scans[i].(rules := [])],
         dropped := s.dropped + GivenUp(s.scans[i].rules, s.db.items.Values))
    case Populate(i, commits) =>
      var scan := s.scans[i];
      var rest := s.scans[i := scan.(rules := scan.rules[1..])];
      if commits then
        var populated := PopulateFirst(s.db, st, scan.rules[0], scan.snapshot.value, |scan.snapshot.value|);
        s.(db := if populated.Ok? then populated.value else s.db, scans := rest)
      else
        s.(scans := rest, dropped := s.dropped + GivenUp([scan.rules[0]], set item | item in scan.snapshot.value))
    case Mark(marked, isRead, now) => s.(db := SetReads(s.db, marked, isRead, now))
    case AddFeed(feed) => s.(db := s.db.(feeds := s.db.feeds + {feed}))
  }

  ghost predicate ValidRun(s: State, st: Setting, run: seq<Step>)
    decreases |run|
  {
    run == [] || (Enabled(s, run[0]) && ValidRun(Apply(s, st, run[0]), st, run[1..]))
  }

  ghost function Execute(s: State, st: Setting, run: seq<Step>): State
    requires ValidRun(s, st, run)
    decreases |run|
  {
    if run == [] then s else Execute(Apply(s, st, run[0]), st, run[1..])
  }

  // ----- the claims

  /** The scan will still look at this version of the item for this rule. */
  ghost predicate Owes(scan: Scan, item: Item, rule: Rule) {
    rule in scan.rules && (scan.snapshot.Some? ==> item in scan.snapshot.value)
  }

  ghost predicate Owed(scans: seq<Scan>, item: Item, rule: Rule) {
    exists i :: 0 <= i < |scans| && Owes(scans[i], item, rule)
  }

  ghost predicate Covered(s: State, item: Item, rule: Rule) {
    (item.id, rule.id) in s.db.blocks || Owed(s.scans, item, rule) || (rule, item) in s.dropped
  }

  /** Every match is indexed or owed, unless a scan gave up on it. */
  ghost predicate Complete(s: State, st: Setting) {
    forall url, rule :: url in s.db.items && rule in s.db.rules && Matches(st, s.db.items[url], rule) ==>
      Covered(s, s.db.items[url], rule)
  }

  ghost predicate Justified(st: Setting, seen: set<Item>, rules: seq<Rule>, block: (string, string)) {
    exists item, rule :: item in seen && rule in rules && block == (item.id, rule.id) && Matches(st, item, rule)
  }

  /** Whatever is indexed matched in some version. */
  ghost predicate Sound(s: State, st: Setting) {
    forall block :: block in s.db.blocks ==> Justified(st, s.seen, s.db.rules, block)
  }

  /** A rule to scan for is in the table, unless it stems from an attempt that was rolled back. */
  ghost predicate RuleOk(s: State, r: Rule) {
    r in s.db.rules || (r.id in s.issued && !RuleIdTaken(s.db.rules, r.id))
  }

  ghost predicate ItemOk(s: State, item: Item) {
    item in s.seen && item.id in ItemIds(s.db)
  }

  ghost predicate ScanOk(s: State, scan: Scan) {
    && (forall r :: r in scan.rules ==> RuleOk(s, r))
    && (scan.snapshot.Some? ==> forall item :: item in scan.snapshot.value ==> ItemOk(s, item))
  }

  ghost predicate Bookkeeping(s: State) {
    && (forall i :: 0 <= i < |s.scans| ==> ScanOk(s, s.scans[i]))
    && (forall r :: r in s.db.rules ==> r.id in s.issued)
    && (forall url :: url in s.db.items ==> s.db.items[url] in s.seen)
    && DistinctRules(s.db.rules)
  }

  ghost predicate Inv(s: State, st: Setting) {
    Tables(s.db) && Bookkeeping(s) && Complete(s, st) && Sound(s, st)
  }

  // ----- saving

  /** The item is indexed for every rule it matches. */
  ghost predicate Indexed(db: Db, st: Setting, item: Item) {
    forall rule :: rule in db.rules && Matches(st, item, rule) ==> (item.id, rule.id) in db.blocks
  }

  lemma SaveOneIndexes(db: Db, st: Setting, f: Fetched, id: string, now: int, db': Db)
    requires Tables(db) && SaveOne(db, st, f, id, now) == Ok(db')
    ensures forall url :: url in db'.items ==>
              (url in db.items && db'.items[url] == db.items[url]) || Indexed(db', st, db'.items[url])
    ensures forall block :: block in db'.blocks ==>
              block in db.blocks || Justified(st, db'.items.Values, db.rules, block)
  {
    SaveOneShape(db, st, f, id, now, db');
    hide SaveOne, CleanedUrl, Tables, BlocksBy, Matches;
    var item := db'.items[CleanedUrl(st, f.url)];
    BlocksByWhich(st, item, db.rules, |db.rules|);
    assert item in db'.items.Values;
  }

  lemma JustifiedMore(st: Setting, seen: set<Item>, rules: seq<Rule>, seen': set<Item>, rules': seq<Rule>,
                      block: (string, string))
    requires Justified(st, seen, rules, block) && seen <= seen' && rules <= rules'
    ensures Justified(st, seen', rules', block)
  {
    hide Matches;
    var item, rule :| item in seen && rule in rules && block == (item.id, rule.id) && Matches(st, item, rule);
    assert item in seen' && rule in rules';
  }

  lemma IndexedStays(db: Db, db': Db, st: Setting, item: Item)
    requires Indexed(db, st, item) && db'.rules == db.rules && db.blocks <= db'.blocks
    ensures Indexed(db', st, item)
  {}

  lemma {:induction false} SaveIndexes(db: Db, st: Setting, items: seq<Fetched>, ids: seq<string>, now: int, n: nat,
                                       db': Db)
    requires n <= |items| == |ids| && Tables(db) && SaveFirst(db, st, items, ids, now, n) == Ok(db')
    ensures forall url :: url in db'.items ==>
              (url in db.items && db'.items[url] == db.items[url]) || Indexed(db', st, db'.items[url])
  {
    hide SaveOne, Tables, Indexed;
    if n > 0 {
      var before := SaveFirst(db, st, items, ids, now, n - 1).value;
      SaveIndexes(db, st, items, ids, now, n - 1, before);
      SaveKeeps(db, st, items, ids, now, n - 1, before);
      SaveOneIndexes(before, st, items[n - 1], ids[n - 1], now, db');
      SaveOneKeeps(before, st, items[n - 1], ids[n - 1], now, db');
      SaveOneKeepsRules(before, st, items[n - 1], ids[n - 1], now);
      forall url | url in db'.items
        ensures (url in db.items && db'.items[url] == db.items[url]) || Indexed(db', st, db'.items[url])
      {
        if url in before.items && db'.items[url] == before.items[url] && Indexed(before, st, before.items[url]) {
          IndexedStays(before, db', st, before.items[url]);
        }
      }
    }
  }

  lemma {:induction false} SaveJustifies(db: Db, st: Setting, items: seq<Fetched>, ids: seq<string>, now: int, n: nat,
                                         db': Db)
    requires n <= |items| == |ids| && Tables(db) && SaveFirst(db, st, items, ids, now, n) == Ok(db')
    ensures forall block :: block in db'.blocks ==>
              block in db.blocks || Justified(st, SeenIn(db, st, items, ids, now, n), db.rules, block)
    ensures db'.items.Values <= SeenIn(db, st, items, ids, now, n)
  {
    hide SaveOne, Tables, Justified;
    if n > 0 {
      var before := SaveFirst(db, st, items, ids, now, n - 1).value;
      SaveJustifies(db, st, items, ids, now, n - 1, before);
      SaveKeeps(db, st, items, ids, now, n - 1, before);
      SaveOneIndexes(before, st, items[n - 1], ids[n - 1], now, db');
      var seen := SeenIn(db, st, items, ids, now, n);
      forall block | block in db'.blocks && block !in db.blocks ensures Justified(st, seen, db.rules, block) {
        if block in before.blocks {
          JustifiedMore(st, SeenIn(db, st, items, ids, now, n - 1), db.rules, seen, db.rules, block);
        } else {
          JustifiedMore(st, db'.items.Values, db.rules, seen, db.rules, block);
        }
      }
    }
  }

  /** Scans stay good while tables and records only grow. */
  lemma ScanStays(s: State, s': State, scan: Scan)
    requires ScanOk(s, scan) && s'.db.rules == s.db.rules && s.issued <= s'.issued && s.seen <= s'.seen
    requires ItemIds(s.db) <= ItemIds(s'.db)
    ensures ScanOk(s', scan)
  {}

  lemma IdsKept(a: Db, b: Db)
    requires Kept(a, b)
    ensures ItemIds(a) <= ItemIds(b)
  {
    forall id | id in ItemIds(a) ensures id in ItemIds(b) {
      IdStays(a, b, id);
    }
  }

  lemma SaveKeepsInv(s: State, st: Setting, items: seq<Fetched>, ids: seq<string>, now: int)
    requires Inv(s, st) && |items| == |ids|
    ensures Inv(Apply(s, st, Save(items, ids, now)), st)
  {
    var saved := SaveFirst(s.db, st, items, ids, now, |items|);
    if saved.Ok? {
      var s' := Apply(s, st, Save(items, ids, now));
      assert s' == s.(db := saved.value, seen := s.seen + SeenIn(s.db, st, items, ids, now, |items|));
      SaveKeeps(s.db, st, items, ids, now, |items|, saved.value);
      SaveIndexes(s.db, st, items, ids, now, |items|, saved.value);
      SaveJustifies(s.db, st, items, ids, now, |items|, saved.value);
      IdsKept(s.db, saved.value);
      hide SaveFirst, Tables, Kept, SeenIn, ScanOk, Justified, ItemIds, Apply;
      assert Complete(s', st) by {
        hide Matches, Owed;
      }
      assert Sound(s', st) by {
        forall block | block in s.db.blocks ensures Justified(st, s'.seen, s.db.rules, block) {
          JustifiedMore(st, s.seen, s.db.rules, s'.seen, s.db.rules, block);
        }
        forall block | block in s'.db.blocks && block !in s.db.blocks
          ensures Justified(st, s'.seen, s.db.rules, block)
        {
          JustifiedMore(st, SeenIn(s.db, st, items, ids, now, |items|), s.db.rules, s'.seen, s.db.rules, block);
        }
      }
      assert Bookkeeping(s') by {
        forall i | 0 <= i < |s.scans| ensures ScanOk(s', s.scans[i]) {
          ScanStays(s, s', s.scans[i]);
        }
        forall url | url in s'.db.items ensures s'.db.items[url] in s'.seen {
          assert s'.db.items[url] in s'.db.items.Values;
        }
      }
    }
  }

  // ----- adding rules

  lemma OwedMore(scans: seq<Scan>, scans': seq<Scan>, item: Item, rule: Rule)
    requires Owed(scans, item, rule) && scans <= scans'
    ensures Owed(scans', item, rule)
  {
    var i :| 0 <= i < |scans| && Owes(scans[i], item, rule);
    assert Owes(scans'[i], item, rule);
  }

  /** A row added to the table is one of the rules given; a given rule is in the new table or its
      identifier is not. */
  lemma {:induction false} GivenOk(rules: seq<Rule>, given: seq<Rule>, n: nat, r: Rule)
    requires n <= |given| && CreateRules(rules, given, n).Ok? && r in given
    requires forall k, r0 :: 0 <= k < |given| && r0 in rules ==> r0.id != given[k].id
    requires forall i, j :: 0 <= i < j < |given| ==> given[i].id != given[j].id
    ensures var table := CreateRules(rules, given, n).value.0; r in table || !RuleIdTaken(table, r.id)
  {
    hide FindRule, SameRule;
    if n > 0 {
      GivenOk(rules, given, n - 1, r);
      var table := CreateRules(rules, given, n - 1).value.0;
      var table' := CreateRules(rules, given, n).value.0;
      var k :| 0 <= k < |given| && given[k] == r;
      if table' != table && !RuleIdTaken(table, r.id) && RuleIdTaken(table', r.id) {
        var m :| 0 <= m < |table'| && table'[m].id == r.id;
        assert table' == table + [given[n - 1]];
        assert m == |table|;
        assert k == n - 1;
      }
    }
  }

  lemma AddedRules(s: State, given: seq<Rule>, leftover: seq<Rule>, table: seq<Rule>, listed: seq<Rule>)
    requires Bookkeeping(s) && Enabled(s, AddRules(given, leftover))
    requires CreateRules(s.db.rules, given, |given|) == Ok((table, listed))
    ensures s.db.rules <= table && DistinctRules(table)
    ensures forall r :: r in table ==> r in s.db.rules || (r in listed && r in given)
    ensures forall r :: r in listed ==> r in table
    ensures forall r :: r in given ==> r in table || !RuleIdTaken(table, r.id)
  {
    CreatedRules(s.db.rules, given, |given|);
    assert given[..|given|] == given;
    hide CreateRules, DistinctRules, ScanOk;
    forall r | r in given ensures r in table || !RuleIdTaken(table, r.id) {
      GivenOk(s.db.rules, given, |given|, r);
    }
  }

  lemma AddRulesKeepsInv(s: State, st: Setting, given: seq<Rule>, leftover: seq<Rule>)
    requires Inv(s, st) && Enabled(s, AddRules(given, leftover))
    ensures Inv(Apply(s, st, AddRules(given, leftover)), st)
  {
    var created := CreateRules(s.db.rules, given, |given|);
    if created.Ok? {
      var (table, listed) := created.value;
      var s' := Apply(s, st, AddRules(given, leftover));
      var issued := s.issued + set r | r in given :: r.id;
      assert s' == State(s.db.(rules := table), s.scans + [Scan(leftover + listed, None)], issued, s.seen, s.dropped);
      AddedRules(s, given, leftover, table, listed);
      hide CreateRules, Matches, Justified, ScanOk, DistinctRules, Apply;
      TablesIgnoreRules(s.db, table);
      assert Bookkeeping(s') by {
        ScansAfterAdding(s, s', given, leftover, listed);
      }
      assert Complete(s', st) by {
        RulesAreOwed(s, s', st, leftover, listed);
      }
      assert Sound(s', st) by {
        forall block | block in s.db.blocks ensures Justified(st, s'.seen, table, block) {
          JustifiedMore(st, s.seen, s.db.rules, s'.seen, table, block);
        }
      }
    }
  }

  lemma TablesIgnoreRules(db: Db, table: seq<Rule>)
    requires Tables(db)
    ensures Tables(db.(rules := table))
  {
    var db' := db.(rules := table);
    hide ItemIds;
    assert ItemIds(db') == ItemIds(db) by { ItemIdsOfItems(db, db'); }
    forall url | url in db.items ensures Linked(db', db'.items[url].id) {
      LinkStays(db, db', db.items[url].id);
    }
  }

  /** A rule stays fit to scan for: a rule left over keeps clear of the table, as no later rule gets
      its identifier. */
  lemma RuleStays(s: State, s': State, given: seq<Rule>, r: Rule)
    requires RuleOk(s, r) && s.db.rules <= s'.db.rules && s.issued <= s'.issued
    requires forall q :: q in s'.db.rules ==> q in s.db.rules || q in given
    requires forall i :: 0 <= i < |given| ==> given[i].id !in s.issued
    ensures RuleOk(s', r)
  {
    if r !in s.db.rules {
      forall q | q in s'.db.rules ensures q.id != r.id {
        assert q in s.db.rules ==> RuleIdTaken(s.db.rules, q.id);
      }
    }
  }

  lemma ScansAfterAdding(s: State, s': State, given: seq<Rule>, leftover: seq<Rule>, listed: seq<Rule>)
    requires Bookkeeping(s) && Enabled(s, AddRules(given, leftover))
    requires s'.db == s.db.(rules := s'.db.rules) && s.db.rules <= s'.db.rules
    requires s'.scans == s.scans + [Scan(leftover + listed, None)]
    requires s'.issued == (s.issued + set r | r in given :: r.id) && s'.seen == s.seen
    requires forall q :: q in s'.db.rules ==> q in s.db.rules || (q in listed && q in given)
    requires forall r :: r in listed ==> r in s'.db.rules
    requires forall r :: r in given ==> r in s'.db.rules || !RuleIdTaken(s'.db.rules, r.id)
    ensures forall i :: 0 <= i < |s'.scans| ==> ScanOk(s', s'.scans[i])
  {
    hide RuleIdTaken, DistinctRules;
    assert ItemIds(s'.db) == ItemIds(s.db) by { ItemIdsOfItems(s.db, s'.db); }
    hide ItemIds;
    forall i | 0 <= i < |s.scans| ensures ScanOk(s', s.scans[i]) {
      assert ScanOk(s, s.scans[i]);
      forall r | r in s.scans[i].rules ensures RuleOk(s', r) {
        RuleStays(s, s', given, r);
      }
    }
    forall r | r in leftover + listed ensures RuleOk(s', r) {
      if r in s.db.rules {
        RuleStays(s, s', given, r);
      }
    }
  }

  lemma RulesAreOwed(s: State, s': State, st: Setting, leftover: seq<Rule>, listed: seq<Rule>)
    requires Complete(s, st) && s'.db == s.db.(rules := s'.db.rules) && s'.dropped == s.dropped
    requires s'.scans == s.scans + [Scan(leftover + listed, None)]
    requires forall q :: q in s'.db.rules ==> q in s.db.rules || q in listed
    ensures Complete(s', st)
  {
    hide Matches, Owed;
    forall url, rule | url in s'.db.items && rule in s'.db.rules && Matches(st, s'.db.items[url], rule)
      ensures Covered(s', s'.db.items[url], rule)
    {
      var item := s.db.items[url];
      if rule in s.db.rules {
        assert Covered(s, item, rule);
        if Owed(s.scans, item, rule) {
          OwedMore(s.scans, s'.scans, item, rule);
        }
      } else {
        assert Owes(s'.scans[|s.scans|], item, rule);
        OwedBy(s'.scans, |s.scans|, item, rule);
      }
    }
  }

  lemma OwedBy(scans: seq<Scan>, i: nat, item: Item, rule: Rule)
    requires i < |scans| && Owes(scans[i], item, rule)
    ensures Owed(scans, item, rule)
  {}

  // ----- scanning

  lemma LoadKeepsInv(s: State, st: Setting, i: nat, rows: seq<Item>)
    requires Inv(s, st) && Enabled(s, Load(i, rows))
    ensures Inv(Apply(s, st, Load(i, rows)), st)
  {
    var s' := Apply(s, st, Load(i, rows));
    hide Matches, Tables, Justified, DistinctRules;
    assert Complete(s', st) by {
      forall url, rule | url in s.db.items && rule in s.db.rules && Matches(st, s.db.items[url], rule)
        ensures Covered(s', s.db.items[url], rule)
      {
        var item := s.db.items[url];
        assert item in s.db.items.Values;
        assert Covered(s, item, rule);
        if Owed(s.scans, item, rule) {
          var k :| 0 <= k < |s.scans| && Owes(s.scans[k], item, rule);
          assert Owes(s'.scans[k], item, rule);
        }
      }
    }
    assert Bookkeeping(s') by {
      forall item | item in rows ensures ItemOk(s', item) {
        var url :| url in s.db.items && s.db.items[url] == item;
      }
      assert ScanOk(s, s.scans[i]);
      forall k | 0 <= k < |s.scans| ensures ScanOk(s', s'.scans[k]) {
        assert ScanOk(s, s.scans[k]);
      }
    }
  }

  lemma PopulateKeepsInv(s: State, st: Setting, i: nat)
    requires Inv(s, st) && Enabled(s, Populate(i, true))
    ensures Inv(Apply(s, st, Populate(i, true)), st)
  {
    var scan := s.scans[i];
    var rule, items := scan.rules[0], scan.snapshot.value;
    var s' := Apply(s, st, Populate(i, true));
    var scan' := scan.(rules := scan.rules[1..]);
    var populated := PopulateFirst(s.db, st, rule, items, |items|);
    var db' := if populated.Ok? then populated.value else s.db;
    assert s' == s.(db := db', scans := s.scans[i := scan']);
    Populates(s.db, st, rule, items, |items|);
    assert db' == s.db.(blocks := db'.blocks);
    assert ScanOk(s, scan);
    forall k | 0 <= k < |items| ensures ItemOk(s, items[k]) {
      assert items[k] in items;
    }
    hide PopulateFirst, Matches, Apply, DistinctRules;
    assert Tables(db') by { TablesIgnoreBlocks(s.db, db'.blocks); }
    ItemIdsOfItems(s.db, db');
    hide ItemIds, Tables;
    assert Bookkeeping(s') by { ScansAfterPopulating(s, s', i); }
    assert Sound(s', st) by {
      forall block | block in db'.blocks && block !in s.db.blocks ensures Justified(st, s.seen, s.db.rules, block) {
        assert RuleIdTaken(s.db.rules, rule.id) && RuleOk(s, rule);
      }
    }
    assert Complete(s', st) by {
      forall url, r | url in s.db.items && r in s.db.rules && Matches(st, s.db.items[url], r)
        ensures Covered(s', s.db.items[url], r)
      {
        assert Covered(s, s.db.items[url], r);
        CoveredAfterPopulating(s, s', st, i, s.db.items[url], r);
      }
    }
  }

  /** A scan gives up on its first rules, for all items it would still have looked at. */
  ghost predicate GivesUp(s: State, s': State, i: nat, gone: seq<Rule>, items: set<Item>) {
    && i < |s.scans| && gone <= s.scans[i].rules
    && items == (if s.scans[i].snapshot.None? then s.db.items.Values else set item | item in s.scans[i].snapshot.value)
    && s' == s.(scans := s.scans[i := s.scans[i].(rules := s.scans[i].rules[|gone|..])],
                dropped := s.dropped + GivenUp(gone, items))
  }

  lemma CoveredAfterGivingUp(s: State, s': State, i: nat, gone: seq<Rule>, items: set<Item>, url: string, r: Rule)
    requires GivesUp(s, s', i, gone, items) && url in s.db.items && Covered(s, s.db.items[url], r)
    ensures Covered(s', s.db.items[url], r)
  {
    var item := s.db.items[url];
    assert item in s.db.items.Values;
    if (item.id, r.id) !in s.db.blocks && (r, item) !in s.dropped {
      var k :| 0 <= k < |s.scans| && Owes(s.scans[k], item, r);
      var rest := s.scans[i].rules[|gone|..];
      assert s.scans[i].rules == gone + rest;
      if k != i || r in rest {
        assert Owes(s'.scans[k], item, r);
      } else {
        assert r in gone && item in items;
      }
    }
  }

  lemma ScansAfterGivingUp(s: State, s': State, i: nat, gone: seq<Rule>, items: set<Item>)
    requires Bookkeeping(s) && GivesUp(s, s', i, gone, items)
    ensures Bookkeeping(s')
  {
    hide RuleIdTaken, DistinctRules, ItemIds, GivenUp;
    forall k | 0 <= k < |s'.scans| ensures ScanOk(s', s'.scans[k]) {
      assert ScanOk(s, s.scans[k]);
      forall r | r in s'.scans[k].rules ensures RuleOk(s', r) {
        assert r in s.scans[k].rules && RuleOk(s, r);
      }
    }
  }

  lemma GivingUpKeepsInv(s: State, s': State, st: Setting, i: nat, gone: seq<Rule>, items: set<Item>)
    requires Inv(s, st) && GivesUp(s, s', i, gone, items)
    ensures Inv(s', st)
  {
    ScansAfterGivingUp(s, s', i, gone, items);
    hide Matches, Tables, Justified, Bookkeeping, Covered;
    forall url, rule | url in s.db.items && rule in s.db.rules && Matches(st, s.db.items[url], rule)
      ensures Covered(s', s.db.items[url], rule)
    {
      CoveredAfterGivingUp(s, s', i, gone, items, url, rule);
    }
  }

  lemma TablesIgnoreBlocks(db: Db, blocks: set<(string, string)>)
    requires Tables(db)
    ensures Tables(db.(blocks := blocks))
  {
    var db' := db.(blocks := blocks);
    hide ItemIds;
    assert ItemIds(db') == ItemIds(db) by { ItemIdsOfItems(db, db'); }
    forall url | url in db.items ensures Linked(db', db'.items[url].id) {
      LinkStays(db, db', db.items[url].id);
    }
  }

  lemma ScansAfterPopulating(s: State, s': State, i: nat)
    requires Bookkeeping(s) && i < |s.scans| && s.scans[i].rules != []
    requires s'.scans == s.scans[i := s.scans[i].(rules := s.scans[i].rules[1..])]
    requires s'.db == s.db.(blocks := s'.db.blocks) && s'.issued == s.issued && s'.seen == s.seen
    ensures forall k :: 0 <= k < |s'.scans| ==> ScanOk(s', s'.scans[k])
  {
    hide RuleIdTaken, DistinctRules;
    assert ItemIds(s'.db) == ItemIds(s.db) by { ItemIdsOfItems(s.db, s'.db); }
    hide ItemIds;
    forall k | 0 <= k < |s'.scans| ensures ScanOk(s', s'.scans[k]) {
      assert ScanOk(s, s.scans[k]);
      forall r | r in s'.scans[k].rules ensures RuleOk(s', r) {
        assert RuleOk(s, r);
      }
    }
  }

  /** The pair was owed by the scan that has just populated this rule: then it is indexed now. */
  lemma CoveredAfterPopulating(s: State, s': State, st: Setting, i: nat, item: Item, r: Rule)
    requires Covered(s, item, r) && r in s.db.rules && Matches(st, item, r) && s'.dropped == s.dropped
    requires i < |s.scans| && s.scans[i].snapshot.Some? && s.scans[i].rules != [] && ScanOk(s, s.scans[i])
    requires s'.scans == s.scans[i := s.scans[i].(rules := s.scans[i].rules[1..])] && s.db.blocks <= s'.db.blocks
    requires var items := s.scans[i].snapshot.value;
             var populated := PopulateFirst(s.db, st, s.scans[i].rules[0], items, |items|);
             populated.Ok? ==> populated.value == s'.db
    ensures Covered(s', item, r)
  {
    hide Matches;
    if (item.id, r.id) !in s.db.blocks && (r, item) !in s.dropped {
      var k :| 0 <= k < |s.scans| && Owes(s.scans[k], item, r);
      if k != i || r in s.scans[i].rules[1..] {
        assert Owes(s'.scans[k], item, r);
      } else {
        var items := s.scans[i].snapshot.value;
        assert r == s.scans[i].rules[0];
        assert RuleIdTaken(s.db.rules, r.id);
        Populates(s.db, st, r, items, |items|);
        forall m | 0 <= m < |items| ensures items[m].id in ItemIds(s.db) {
          assert items[m] in items;
        }
        var m :| 0 <= m < |items| && items[m] == item;
      }
    }
  }

  lemma AbandonKeepsInv(s: State, st: Setting, i: nat)
    requires Inv(s, st) && Enabled(s, Abandon(i))
    ensures Inv(Apply(s, st, Abandon(i)), st)
  {
    hide Inv, GivenUp;
    var rules := s.scans[i].rules;
    assert rules[|rules|..] == [];
    GivingUpKeepsInv(s, Apply(s, st, Abandon(i)), st, i, rules, s.db.items.Values);
  }

  lemma DropKeepsInv(s: State, st: Setting, i: nat)
    requires Inv(s, st) && Enabled(s, Populate(i, false))
    ensures Inv(Apply(s, st, Populate(i, false)), st)
  {
    hide Inv, GivenUp;
    var scan := s.scans[i];
    assert [scan.rules[0]] <= scan.rules;
    var items := set item | item in scan.snapshot.value;
    GivingUpKeepsInv(s, Apply(s, st, Populate(i, false)), st, i, [scan.rules[0]], items);
  }

  // ----- the other steps

  lemma MarkKeepsInv(s: State, st: Setting, marked: set<string>, isRead: bool, now: int)
    requires Inv(s, st)
    ensures Inv(Apply(s, st, Mark(marked, isRead, now)), st)
  {
    var s' := Apply(s, st, Mark(marked, isRead, now));
    SetReadsKeeps(s.db, marked, isRead, now);
    OthersKeepInv(s, s', st);
  }

  lemma AddFeedKeepsInv(s: State, st: Setting, feed: string)
    requires Inv(s, st)
    ensures Inv(Apply(s, st, AddFeed(feed)), st)
  {
    var s' := Apply(s, st, AddFeed(feed));
    assert Tables(s'.db) by {
      ItemIdsOfItems(s.db, s'.db);
      hide ItemIds;
      forall url | url in s.db.items ensures Linked(s'.db, s'.db.items[url].id) {
        LinkStays(s.db, s'.db, s.db.items[url].id);
      }
    }
    OthersKeepInv(s, s', st);
  }

  /** Steps that leave items, rules, blocks and scans alone. */
  lemma OthersKeepInv(s: State, s': State, st: Setting)
    requires Inv(s, st) && Tables(s'.db) && s' == s.(db := s'.db)
    requires s'.db.items == s.db.items && s'.db.rules == s.db.rules && s'.db.blocks == s.db.blocks
    ensures Inv(s', st)
  {
    hide Matches, Tables, ScanOk, Justified, DistinctRules;
    assert ItemIds(s'.db) == ItemIds(s.db) by { ItemIdsOfItems(s.db, s'.db); }
    hide ItemIds;
    forall i | 0 <= i < |s.scans| ensures ScanOk(s', s.scans[i]) {
      ScanStays(s, s', s.scans[i]);
    }
    forall url, rule | url in s.db.items && rule in s.db.rules && Matches(st, s.db.items[url], rule)
      ensures Covered(s', s.db.items[url], rule)
    {
      assert Covered(s, s.db.items[url], rule);
    }
  }

  // ----- every run

  lemma StepKeepsInv(s: State, st: Setting, step: Step)
    requires Inv(s, st) && Enabled(s, step)
    ensures Inv(Apply(s, st, step), st)
  {
    hide Inv, Apply;
    match step
    case Save(items, ids, now) => SaveKeepsInv(s, st, items, ids, now);
    case AddRules(given, leftover) => AddRulesKeepsInv(s, st, given, leftover);
    case Load(i, rows) => LoadKeepsInv(s, st, i, rows);
    case Abandon(i) => AbandonKeepsInv(s, st, i);
    case Populate(i, commits) =>
      if commits {
        PopulateKeepsInv(s, st, i);
      } else {
        DropKeepsInv(s, st, i);
      }
    case Mark(marked, isRead, now) => MarkKeepsInv(s, st, marked, isRead, now);
    case AddFeed(feed) => AddFeedKeepsInv(s, st, feed);
  }

  lemma {:induction false} RunKeepsInv(s: State, st: Setting, run: seq<Step>)
    requires Inv(s, st) && ValidRun(s, st, run)
    ensures Inv(Execute(s, st, run), st)
    decreases |run|
  {
    hide Inv, Apply;
    if run != [] {
      StepKeepsInv(s, st, run[0]);
      RunKeepsInv(Apply(s, st, run[0]), st, run[1..]);
    }
  }

  ghost predicate NothingPending(s: State) {
    forall i :: 0 <= i < |s.scans| ==> s.scans[i].rules == []
  }

  /** The item is indexed under the rule, or a scan gave up on the rule for this version of it. */
  ghost predicate IndexedOrDropped(s: State, item: Item, rule: Rule) {
    (item.id, rule.id) in s.db.blocks || (rule, item) in s.dropped
  }

  ghost predicate JustifiedByKind(s: State, st: Setting, block: (string, string)) {
    exists item, rule :: item in s.seen && rule in s.db.rules && block == (item.id, rule.id)
                         && Blocks(st.lib, st.urlRules, item.url, item.details, rule)
  }

  /** No blocked item is missed: after any interleaving, once the scans are through, an item is
      indexed under every rule that blocks it, unless a scan gave up on that rule for that very version
      of the item; and at any time, only under rules that block some version of it. */
  lemma NoMatchMissed(feeds: set<string>, st: Setting, run: seq<Step>)
    requires ValidRun(Start(feeds), st, run)
    ensures var s := Execute(Start(feeds), st, run);
            && Complete(s, st) && Sound(s, st)
            && (NothingPending(s) ==>
                  forall url, rule | url in s.db.items && rule in s.db.rules
                                     && Blocks(st.lib, st.urlRules, url, s.db.items[url].details, rule)
                  :: IndexedOrDropped(s, s.db.items[url], rule))
            && (forall block :: block in s.db.blocks ==> JustifiedByKind(s, st, block))
  {
    RunKeepsInv(Start(feeds), st, run);
    var s := Execute(Start(feeds), st, run);
    hide Matches, Execute, Blocks;
    if NothingPending(s) {
      forall url, rule | url in s.db.items && rule in s.db.rules
                         && Blocks(st.lib, st.urlRules, url, s.db.items[url].details, rule)
        ensures IndexedOrDropped(s, s.db.items[url], rule)
      {
        assert s.db.items[url].url == url;
        MatchesIs(st, s.db.items[url], rule);
        assert Covered(s, s.db.items[url], rule);
      }
    }
    forall block | block in s.db.blocks ensures JustifiedByKind(s, st, block) {
      assert Justified(st, s.seen, s.db.rules, block);
      var item, rule :| item in s.seen && rule in s.db.rules && block == (item.id, rule.id) && Matches(st, item, rule);
      MatchesIs(st, item, rule);
    }
  }

  /** Kind by kind: rules for the author that the address names, for the author's domain or the host or
      a host above it, and for words in the title or the content. */
  lemma EachKindIndexed(feeds: set<string>, st: Setting, run: seq<Step>, url: string, rule: Rule)
    requires ValidRun(Start(feeds), st, run) && NothingPending(Execute(Start(feeds), st, run))
    requires url in Execute(Start(feeds), st, run).db.items && rule in Execute(Start(feeds), st, run).db.rules
    ensures var s := Execute(Start(feeds), st, run);
            var item := s.db.items[url];
            && (forall info: UserInfo | rule.ruleType == "user" && rule.value == info.user
                                        && WrittenBy(st.urlRules, st.lib, url, info)
                :: IndexedOrDropped(s, item, rule))
            && (forall info: UserInfo | rule.ruleType == "user_domain" && rule.value == info.user
                                        && rule.domain == info.domain && rule.domain != ""
                                        && WrittenBy(st.urlRules, st.lib, url, info)
                :: IndexedOrDropped(s, item, rule))
            && (forall info: UserInfo | rule.ruleType == "domain" && rule.value == info.domain
                                        && WrittenBy(st.urlRules, st.lib, url, info)
                :: IndexedOrDropped(s, item, rule))
            && (forall host, sub | rule.ruleType == "domain" && HasHost(st.lib, url, host)
                                   && (host == rule.value || host == sub + "." + rule.value)
                :: IndexedOrDropped(s, item, rule))
            && (forall text | rule.ruleType == "keyword" && Mentions(st.lib, Some(text), rule.value)
                              && (item.details.title == Some(text) || item.details.content == Some(text))
                :: IndexedOrDropped(s, item, rule))
  {
    NoMatchMissed(feeds, st, run);
    hide Execute, ValidRun, Complete, Sound, WrittenBy, Mentions, HasHost, NothingPending, IndexedOrDropped;
    hide JustifiedByKind;
  }

  /** No scan fails to read the items and every rule's transaction commits. */
  ghost predicate ScansSucceed(run: seq<Step>) {
    forall k :: 0 <= k < |run| ==> !run[k].Abandon? && (run[k].Populate? ==> run[k].commits)
  }

  lemma {:induction false} NothingDropped(s: State, st: Setting, run: seq<Step>)
    requires ValidRun(s, st, run) && ScansSucceed(run)
    ensures Execute(s, st, run).dropped == s.dropped
    decreases |run|
  {
    if run != [] {
      assert !run[0].Abandon? && (run[0].Populate? ==> run[0].commits);
      assert Apply(s, st, run[0]).dropped == s.dropped;
      hide Apply;
      forall k | 0 <= k < |run[1..]| ensures !run[1..][k].Abandon? && (run[1..][k].Populate? ==> run[1..][k].commits) {
        assert run[1..][k] == run[k + 1];
      }
      NothingDropped(Apply(s, st, run[0]), st, run[1..]);
    }
  }

  /** So with scans that succeed every item is in the end indexed under every rule that blocks it. */
  lemma SuccessfulScansIndexAll(feeds: set<string>, st: Setting, run: seq<Step>)
    requires ValidRun(Start(feeds), st, run) && ScansSucceed(run) && NothingPending(Execute(Start(feeds), st, run))
    ensures var s := Execute(Start(feeds), st, run);
            forall url, rule | url in s.db.items && rule in s.db.rules
                               && Blocks(st.lib, st.urlRules, url, s.db.items[url].details, rule)
            :: (s.db.items[url].id, rule.id) in s.db.blocks
  {
    NoMatchMissed(feeds, st, run);
    NothingDropped(Start(feeds), st, run);
    hide Blocks, Execute, Complete, Sound, JustifiedByKind;
  }

  // ----- scans can finish

  function Weight(scan: Scan): nat {
    if scan.rules == [] then 0 else |scan.rules| + if scan.snapshot.None? then 1 else 0
  }

  function Pending(scans: seq<Scan>): nat {
    if scans == [] then 0 else Weight(scans[0]) + Pending(scans[1..])
  }

  lemma {:induction false} PendingShrinks(scans: seq<Scan>, i: nat, scan: Scan)
    requires i < |scans| && Weight(scan) < Weight(scans[i])
    ensures Pending(scans[i := scan]) < Pending(scans)
    decreases |scans|
  {
    if i == 0 {
      assert scans[0 := scan][1..] == scans[1..];
    } else {
      assert scans[i := scan][1..] == scans[1..][i - 1 := scan];
      PendingShrinks(scans[1..], i - 1, scan);
    }
  }

  lemma {:induction false} Listing(items: set<Item>) returns (rows: seq<Item>)
    ensures forall item :: item in rows <==> item in items
    decreases items
  {
    if items == {} {
      rows := [];
    } else {
      var item :| item in items;
      var rest := Listing(items - {item});
      rows := [item] + rest;
    }
  }

  ghost predicate OnlyScans(run: seq<Step>) {
    forall k :: 0 <= k < |run| ==> run[k].Load? || (run[k].Populate? && run[k].commits)
  }

  /** From every state the scans on their own reach the end without giving up on anything more. */
  lemma {:induction false} ScansCanFinish(s: State, st: Setting) returns (run: seq<Step>)
    ensures ValidRun(s, st, run) && NothingPending(Execute(s, st, run)) && OnlyScans(run)
    ensures Execute(s, st, run).dropped == s.dropped
    decreases Pending(s.scans)
  {
    hide PopulateFirst;
    if NothingPending(s) {
      run := [];
    } else {
      var i: nat :| i < |s.scans| && s.scans[i].rules != [];
      var step;
      if s.scans[i].snapshot.None? {
        var rows := Listing(s.db.items.Values);
        step := Load(i, rows);
        PendingShrinks(s.scans, i, s.scans[i].(snapshot := Some(rows)));
      } else {
        step := Populate(i, true);
        PendingShrinks(s.scans, i, s.scans[i].(rules := s.scans[i].rules[1..]));
      }
      var rest := ScansCanFinish(Apply(s, st, step), st);
      run := [step] + rest;
      assert run[1..] == rest;
    }
  }

  // ----- a match that is missing

  /** In this setting every URL has the host "h". */
  ghost function OneHost(): Setting {
    Setting(Library(_ => Some(Location("h", "")), _ => None, s => s, _ => true), [])
  }

  const PLAIN := Details(None, None, None, None, None, None, None)
  const ITEM := Item("i", "u", PLAIN, None, 0, 0)
  const RULE := Rule("r", "domain", "h", "h")

  lemma SavedFirst()
    ensures Apply(Start({"f"}), OneHost(), Save([Fetched("f", "u", None, PLAIN)], ["i"], 0))
            == State(Db({"f"}, map["u" := ITEM], map["i" := ReadRow(false, 0)], {("f", "i")}, [], {}),
                     [], {}, {ITEM}, {})
  {
    var db := Start({"f"}).db;
    var f := Fetched("f", "u", None, PLAIN);
    var db' := Db({"f"}, map["u" := ITEM], map["i" := ReadRow(false, 0)], {("f", "i")}, [], {});
    assert CleanedUrl(OneHost(), "u") == "u";
    var created := Db({"f"}, map["u" := ITEM], map["i" := ReadRow(false, 0)], {}, [], {});
    assert CreateItem(db, "i", "u", f, 0) == Ok(created);
    assert created.links + {("f", "i")} == db'.links && db'.blocks + {} == db'.blocks;
    assert CreateFeedItem(created, "f", "i") == Ok(db');
    assert CreateItemRead(db', "i", 0) == db';
    assert BlocksBy(OneHost(), ITEM, db'.rules, |db'.rules|) == {};
    assert SaveOne(db, OneHost(), f, "i", 0) == Ok(db');
    assert SaveFirst(db, OneHost(), [f], ["i"], 0, 0) == Ok(db);
    assert SaveFirst(db, OneHost(), [f], ["i"], 0, 1) == Ok(db');
    assert SeenIn(db, OneHost(), [f], ["i"], 0, 0) == {};
    assert SeenIn(db, OneHost(), [f], ["i"], 0, 1) == {ITEM};
  }

  lemma FirstRule(rule: Rule, n: nat)
    requires n == 1
    ensures CreateRules([], [rule], n) == Ok(([rule], [rule]))
  {
    assert CreateRules([], [rule], n - 1) == Ok(([], []));
    assert FindRule([], rule) == None && !RuleIdTaken([], rule.id);
    assert [] + [rule] == [rule];
  }

  lemma FirstStep(s: State, st: Setting, step: Step, rest: seq<Step>)
    requires Enabled(s, step) && ValidRun(Apply(s, st, step), st, rest)
    ensures ValidRun(s, st, [step] + rest)
    ensures Execute(s, st, [step] + rest) == Execute(Apply(s, st, step), st, rest)
  {
    assert ([step] + rest)[1..] == rest;
  }

  /** The item has been saved, the rule added, and the scan has read the item; then its transaction
      fails. */
  lemma ScanDrops(s1: State, st: Setting) returns (run: seq<Step>)
    requires s1.db.items == map["u" := ITEM] && s1.db.rules == [] && s1.db.blocks == {}
    requires s1.scans == [] && s1.issued == {} && s1.dropped == {}
    ensures ValidRun(s1, st, run)
    ensures Execute(s1, st, run) == s1.(db := s1.db.(rules := [RULE]), scans := [Scan([], Some([ITEM]))],
                                        issued := {"r"}, dropped := {(RULE, ITEM)})
  {
    FirstRule(RULE, 1);
    var s2 := s1.(db := s1.db.(rules := [RULE]), scans := [Scan([RULE], None)], issued := {"r"});
    assert Apply(s1, st, AddRules([RULE], [])) == s2;
    hide CreateRules;
    var s3 := s2.(scans := [Scan([RULE], Some([ITEM]))]);
    assert s2.db.items["u"] == ITEM && s2.db.items.Values == {ITEM};
    assert Enabled(s2, Load(0, [ITEM]));
    assert s2.scans[0 := Scan([RULE], Some([ITEM]))] == s3.scans;
    assert Apply(s2, st, Load(0, [ITEM])) == s3;
    var s4 := s3.(scans := [Scan([], Some([ITEM]))], dropped := {(RULE, ITEM)});
    assert GivenUp([RULE], set item | item in [ITEM]) == {(RULE, ITEM)};
    assert [RULE][1..] == [] && s3.scans[0 := Scan([], Some([ITEM]))] == s4.scans;
    assert Apply(s3, st, Populate(0, false)) == s4;
    hide Apply;
    FirstStep(s3, st, Populate(0, false), []);
    FirstStep(s2, st, Load(0, [ITEM]), [Populate(0, false)] + []);
    FirstStep(s1, st, AddRules([RULE], []), [Load(0, [ITEM])] + ([Populate(0, false)] + []));
    run := [AddRules([RULE], [])] + ([Load(0, [ITEM])] + ([Populate(0, false)] + []));
  }

  /** A scan whose transaction stays busy leaves its match out of the index for good. */
  lemma DroppedMatchIsMissing() returns (run: seq<Step>)
    ensures ValidRun(Start({"f"}), OneHost(), run)
    ensures var s := Execute(Start({"f"}), OneHost(), run);
            && NothingPending(s) && "u" in s.db.items && !Indexed(s.db, OneHost(), s.db.items["u"])
            && s.dropped == {(RULE, s.db.items["u"])}
  {
    var save := Save([Fetched("f", "u", None, PLAIN)], ["i"], 0);
    SavedFirst();
    hide SaveFirst, SeenIn;
    var s1 := Apply(Start({"f"}), OneHost(), save);
    var rest := ScanDrops(s1, OneHost());
    FirstStep(Start({"f"}), OneHost(), save, rest);
    run := [save] + rest;
    hide Apply, ValidRun, Execute;
    assert RULE in [RULE] && Matches(OneHost(), ITEM, RULE);
  }
}
