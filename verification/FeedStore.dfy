/** The tables that saving items and adding block rules write, sql/schema.sql and
    store/query.sql.go, and the two writers: cmd/feed-reader/write_queue.go:122-244 and
    store/item_block_rules.go:15-43. */
module FeedStore {
  import opened Wrappers
  import opened BlockRules
  import opened ItemReads

  datatype Item = Item(id: string, url: string, details: Details, publishedAt: Option<string>,
                       createdAt: int, updatedAt: int)

  /** Items by their unique URL, read rows by item, links as pairs of feed and item, blocks as pairs
      of item and rule. */
  datatype Db = Db(feeds: set<string>, items: map<string, Item>, readRows: map<string, ReadRow>,
                   links: set<(string, string)>, rules: seq<Rule>, blocks: set<(string, string)>)

  /** The library functions and the URL rules in force. */
  datatype Setting = Setting(lib: Library, urlRules: seq<UrlRule>)

  datatype Failure = InvalidTime | Constraint

  /** An item as fetched from a feed. */
  datatype Fetched = Fetched(feed: string, url: string, publishedAt: Option<string>, details: Details)

  function ItemIds(db: Db): set<string> {
    set url | url in db.items :: db.items[url].id
  }

  // ----- single statements

  /** INSERT ... ON CONFLICT(url) DO UPDATE; the trigger on insertion adds the read row. A row id
      that is taken fails. */
  function CreateItem(db: Db, id: string, url: string, f: Fetched, now: int): Result<Db, Failure> {
    if id in db.readRows then Err(Constraint)
    else if url in db.items then
      Ok(db.(items := db.items[url := db.items[url].(details := f.details, updatedAt := now)]))
    else
      Ok(db.(items := db.items[url := Item(id, url, f.details, f.publishedAt, now, now)],
             readRows := db.readRows[id := ReadRow(false, now)]))
  }

  /** The feed must exist. */
  function CreateFeedItem(db: Db, feed: string, id: string): Result<Db, Failure> {
    if feed in db.feeds then Ok(db.(links := db.links + {(feed, id)})) else Err(Constraint)
  }

  /** ON CONFLICT DO NOTHING. */
  function CreateItemRead(db: Db, id: string, now: int): Db {
    if id in db.readRows then db else db.(readRows := db.readRows[id := ReadRow(false, now)])
  }

  predicate Matches(st: Setting, item: Item, rule: Rule) {
    ShouldBlockItem(st.lib, item.url, item.details, rule, ExtractUserInfo(st.urlRules, st.lib, item.url))
  }

  /** The blocks of an item by the first `n` rules. */
  function BlocksBy(st: Setting, item: Item, rules: seq<Rule>, n: nat): set<(string, string)>
    requires n <= |rules|
  {
    if n == 0 then {}
    else
      BlocksBy(st, item, rules, n - 1)
      + (if Matches(st, item, rules[n - 1]) then {(item.id, rules[n - 1].id)} else {})
  }

  lemma {:induction false} BlocksByWhich(st: Setting, item: Item, rules: seq<Rule>, n: nat)
    requires n <= |rules|
    ensures forall k :: 0 <= k < n && Matches(st, item, rules[k]) ==>
              (item.id, rules[k].id) in BlocksBy(st, item, rules, n)
    ensures forall block :: block in BlocksBy(st, item, rules, n) ==>
              exists k :: 0 <= k < n && Matches(st, item, rules[k]) && block == (item.id, rules[k].id)
  {
    hide Matches;
    if n > 0 {
      BlocksByWhich(st, item, rules, n - 1);
    }
  }

  /** A rule matches an item exactly when it blocks it. */
  lemma MatchesIs(st: Setting, item: Item, rule: Rule)
    ensures Matches(st, item, rule) <==> Blocks(st.lib, st.urlRules, item.url, item.details, rule)
  {
    MatchesByKind(st.lib, st.urlRules, item.url, item.details, rule);
  }

  // ----- saving items

  function CleanedUrl(st: Setting, url: string): string {
    match st.lib.clean(url) case Some(c) => c case None => url
  }

  /** One fetched item: validated, upserted, linked, given a read row and checked against all rules. */
  function SaveOne(db: Db, st: Setting, f: Fetched, id: string, now: int): Result<Db, Failure> {
    if f.publishedAt.Some? && !st.lib.isTime(f.publishedAt.value) then Err(InvalidTime)
    else
      var url := CleanedUrl(st, f.url);
      match CreateItem(db, id, url, f, now)
      case Err(e) => Err(e)
      case Ok(db1) =>
        var item := db1.items[url];
        match CreateFeedItem(db1, f.feed, item.id)
        case Err(e) => Err(e)
        case Ok(db2) =>
          var db3 := CreateItemRead(db2, item.id, now);
          Ok(db3.(blocks := db3.blocks + BlocksBy(st, item, db3.rules, |db3.rules|)))
  }

  /** The first `n` items of a job, each with the identifier drawn for it. */
  function SaveFirst(db: Db, st: Setting, items: seq<Fetched>, ids: seq<string>, now: int,
                     n: nat): Result<Db, Failure>
    requires n <= |items| == |ids|
  {
    if n == 0 then Ok(db)
    else
      match SaveFirst(db, st, items, ids, now, n - 1)
      case Err(e) => Err(e)
      case Ok(db') => SaveOne(db', st, items[n - 1], ids[n - 1], now)
  }

  lemma SaveOneKeepsRules(db: Db, st: Setting, f: Fetched, id: string, now: int)
    ensures SaveOne(db, st, f, id, now).Ok? ==> SaveOne(db, st, f, id, now).value.rules == db.rules
  {
    hide BlocksBy;
  }

  lemma {:induction false} SaveStops(db: Db, st: Setting, items: seq<Fetched>, ids: seq<string>,
                                     now: int, n: nat, m: nat)
    requires n <= m <= |items| == |ids| && SaveFirst(db, st, items, ids, now, n).Err?
    ensures SaveFirst(db, st, items, ids, now, m) == SaveFirst(db, st, items, ids, now, n)
    decreases m
  {
    hide SaveOne;
    if n < m {
      SaveStops(db, st, items, ids, now, n, m - 1);
    }
  }

  lemma {:induction false} SaveKeepsRules(db: Db, st: Setting, items: seq<Fetched>, ids: seq<string>, now: int,
                                          n: nat)
    requires n <= |items| == |ids|
    ensures SaveFirst(db, st, items, ids, now, n).Ok? ==>
              SaveFirst(db, st, items, ids, now, n).value.rules == db.rules
  {
    hide SaveOne;
    if n > 0 {
      SaveKeepsRules(db, st, items, ids, now, n - 1);
      var before := SaveFirst(db, st, items, ids, now, n - 1);
      if before.Ok? {
        SaveOneKeepsRules(before.value, st, items[n - 1], ids[n - 1], now);
      }
    }
  }

  /** SaveItemsJob.Execute inside its transaction: the rules are read once, before the first item. The
      states are those after each item: every item is saved, once and in order, up to the first error. */
  method SaveItems(db: Db, st: Setting, items: seq<Fetched>, ids: seq<string>, now: int)
    returns (result: Result<Db, Failure>, ghost states: seq<Db>)
    requires |items| == |ids|
    ensures result == SaveFirst(db, st, items, ids, now, |items|)
    ensures 1 <= |states| <= |items| + 1 && states[0] == db
    ensures forall i :: 0 <= i < |states| - 1 ==> SaveOne(states[i], st, items[i], ids[i], now) == Ok(states[i + 1])
    ensures result.Ok? ==> |states| == |items| + 1 && result.value == states[|items|]
    ensures result.Err? ==>
              |states| <= |items|
              && SaveOne(states[|states| - 1], st, items[|states| - 1], ids[|states| - 1], now) == result
  {
    hide SaveOne;
    var blockRules := db.rules;
    var tx := db;
    states := [db];
    for i := 0 to |items|
      invariant SaveFirst(db, st, items, ids, now, i) == Ok(tx)
      invariant |states| == i + 1 && states[0] == db && states[i] == tx
      invariant forall k :: 0 <= k < i ==> SaveOne(states[k], st, items[k], ids[k], now) == Ok(states[k + 1])
    {
      SaveKeepsRules(db, st, items, ids, now, i);
      var step := SaveItem(tx, st, blockRules, items[i], ids[i], now);
      if step.Err? {
        SaveStops(db, st, items, ids, now, i + 1, |items|);
        return step, states;
      }
      tx := step.value;
      states := states + [tx];
    }
    return Ok(tx), states;
  }

  /** The body of the job's loop. */
  method SaveItem(db: Db, st: Setting, blockRules: seq<Rule>, f: Fetched, id: string, now: int)
    returns (result: Result<Db, Failure>)
    requires blockRules == db.rules
    ensures result == SaveOne(db, st, f, id, now)
  {
    hide BlocksBy;
    if f.publishedAt.Some? && !st.lib.isTime(f.publishedAt.value) {
      return Err(InvalidTime);
    }
    var cleaned := st.lib.clean(f.url);
    var url := f.url;
    if cleaned.Some? {
      url := cleaned.value;
    }
    var created := CreateItem(db, id, url, f, now);
    if created.Err? {
      return created;
    }
    var item := created.value.items[url];
    var linked := CreateFeedItem(created.value, f.feed, item.id);
    if linked.Err? {
      return linked;
    }
    var tx := CreateItemRead(linked.value, item.id, now);
    tx := AddBlocks(tx, st, item, blockRules);
    return Ok(tx);
  }

  /** The loop over the rules; a block that is there already is left alone. */
  method AddBlocks(db: Db, st: Setting, item: Item, rules: seq<Rule>) returns (tx: Db)
    ensures tx == db.(blocks := db.blocks + BlocksBy(st, item, rules, |rules|))
    ensures forall k :: 0 <= k < |rules| && Blocks(st.lib, st.urlRules, item.url, item.details, rules[k]) ==>
              (item.id, rules[k].id) in tx.blocks
    ensures forall block :: block in tx.blocks && block !in db.blocks ==>
              exists k :: 0 <= k < |rules| && block == (item.id, rules[k].id)
                          && Blocks(st.lib, st.urlRules, item.url, item.details, rules[k])
  {
    hide Matches, Blocks;
    tx := db;
    for k := 0 to |rules|
      invariant tx == db.(blocks := db.blocks + BlocksBy(st, item, rules, k))
    {
      if Matches(st, item, rules[k]) {
        tx := tx.(blocks := tx.blocks + {(item.id, rules[k].id)});
      }
    }
    BlocksByWhich(st, item, rules, |rules|);
    forall k | 0 <= k < |rules|
      ensures Matches(st, item, rules[k]) <==> Blocks(st.lib, st.urlRules, item.url, item.details, rules[k])
    {
      MatchesIs(st, item, rules[k]);
    }
  }

  // ----- adding block rules

  predicate SameRule(a: Rule, b: Rule) {
    a.ruleType == b.ruleType && a.value == b.value && a.domain == b.domain
  }

  /** The row with the type, value and domain of `r`. */
  function FindRule(rules: seq<Rule>, r: Rule): (found: Option<Rule>)
    ensures found.Some? ==> found.value in rules && SameRule(found.value, r)
    ensures found.None? ==> forall k :: 0 <= k < |rules| ==> !SameRule(rules[k], r)
  {
    if rules == [] then None
    else if SameRule(rules[0], r) then Some(rules[0]) else FindRule(rules[1..], r)
  }

  predicate RuleIdTaken(rules: seq<Rule>, id: string) {
    exists k :: 0 <= k < |rules| && rules[k].id == id
  }

  /** The table and the rows listed after the first `n` of the given rules: an equal rule that is
      already there is listed instead. */
  function CreateRules(rules: seq<Rule>, given: seq<Rule>, n: nat): Result<(seq<Rule>, seq<Rule>), Failure>
    requires n <= |given|
  {
    if n == 0 then Ok((rules, []))
    else
      match CreateRules(rules, given, n - 1)
      case Err(e) => Err(e)
      case Ok((table, listed)) =>
        var r := given[n - 1];
        match FindRule(table, r)
        case Some(row) => Ok((table, listed + [row]))
        case None => if RuleIdTaken(table, r.id) then Err(Constraint) else Ok((table + [r], listed + [r]))
  }

  lemma {:induction false} CreateStops(rules: seq<Rule>, given: seq<Rule>, n: nat, m: nat)
    requires n <= m <= |given| && CreateRules(rules, given, n).Err?
    ensures CreateRules(rules, given, m) == CreateRules(rules, given, n)
    decreases m
  {
    if n < m {
      CreateStops(rules, given, n, m - 1);
    }
  }

  method CreateItemBlockRules(rules: seq<Rule>, given: seq<Rule>)
    returns (result: Result<(seq<Rule>, seq<Rule>), Failure>)
    ensures result == CreateRules(rules, given, |given|)
  {
    var table, listed := rules, [];
    for i := 0 to |given|
      invariant CreateRules(rules, given, i) == Ok((table, listed))
    {
      var row := FindRule(table, given[i]);
      if row.Some? {
        listed := listed + [row.value];
        continue;
      }
      if RuleIdTaken(table, given[i].id) {
        CreateStops(rules, given, i + 1, |given|);
        return Err(Constraint);
      }
      table, listed := table + [given[i]], listed + [given[i]];
    }
    return Ok((table, listed));
  }

  ghost predicate DistinctRules(rules: seq<Rule>) {
    forall i, j :: 0 <= i < j < |rules| ==>
      rules[i].id != rules[j].id
      && (rules[i].ruleType != rules[j].ruleType || rules[i].value != rules[j].value
          || rules[i].domain != rules[j].domain)
  }

  /** The rules agree in type, value and domain. */
  ghost predicate Equal(a: Rule, b: Rule) {
    a.(id := "") == b.(id := "")
  }

  lemma SameAsItself(r: Rule)
    ensures SameRule(r, r)
  {}

  lemma SameIsEqual(a: Rule, b: Rule)
    ensures SameRule(a, b) <==> Equal(a, b)
  {}

  lemma AppendDistinct(rules: seq<Rule>, r: Rule)
    requires DistinctRules(rules) && !RuleIdTaken(rules, r.id)
    requires forall k :: 0 <= k < |rules| ==> !SameRule(rules[k], r)
    ensures DistinctRules(rules + [r])
  {}

  /** The new table extends the old one and has each rule once; what is listed is the table's row of
      each rule given, in order. */
  lemma {:induction false} CreatedRules(rules: seq<Rule>, given: seq<Rule>, n: nat)
    requires n <= |given| && DistinctRules(rules) && CreateRules(rules, given, n).Ok?
    ensures var (table, listed) := CreateRules(rules, given, n).value;
            && rules <= table && DistinctRules(table)
            && |listed| == n && (forall k :: 0 <= k < n ==> listed[k] in table && Equal(listed[k], given[k]))
            && (forall r :: r in table ==> r in rules || (r in listed && r in given[..n]))
  {
    hide DistinctRules, SameRule, RuleIdTaken, Equal;
    if n > 0 {
      CreatedRules(rules, given, n - 1);
      assert given[..n] == given[..n - 1] + [given[n - 1]];
      var (table, before) := CreateRules(rules, given, n - 1).value;
      var (_, listed) := CreateRules(rules, given, n).value;
      SameAsItself(given[n - 1]);
      SameIsEqual(listed[n - 1], given[n - 1]);
      assert listed[..n - 1] == before;
      if FindRule(table, given[n - 1]).None? {
        AppendDistinct(table, given[n - 1]);
      }
    }
  }

  /** Rules with new and different identifiers are always created. */
  lemma {:induction false} NewRulesAreCreated(rules: seq<Rule>, given: seq<Rule>, n: nat)
    requires n <= |given| && forall k :: 0 <= k < |given| ==> !RuleIdTaken(rules, given[k].id)
    requires forall i, j :: 0 <= i < j < |given| ==> given[i].id != given[j].id
    ensures CreateRules(rules, given, n).Ok?
    ensures forall k :: n <= k < |given| ==> !RuleIdTaken(CreateRules(rules, given, n).value.0, given[k].id)
  {
    hide FindRule;
    if n > 0 {
      NewRulesAreCreated(rules, given, n - 1);
    }
  }

  // ----- populating the index for a new rule

  /** Both ends must exist; ON CONFLICT DO NOTHING. */
  function CreateItemBlock(db: Db, itemId: string, ruleId: string): Result<Db, Failure> {
    if itemId in ItemIds(db) && RuleIdTaken(db.rules, ruleId) then Ok(db.(blocks := db.blocks + {(itemId, ruleId)}))
    else Err(Constraint)
  }

  /** One transaction of a scan after the first `n` items it read. */
  function PopulateFirst(db: Db, st: Setting, rule: Rule, items: seq<Item>, n: nat): Result<Db, Failure>
    requires n <= |items|
  {
    if n == 0 then Ok(db)
    else
      match PopulateFirst(db, st, rule, items, n - 1)
      case Err(e) => Err(e)
      case Ok(tx) => if Matches(st, items[n - 1], rule) then CreateItemBlock(tx, items[n - 1].id, rule.id) else Ok(tx)
  }

  lemma ItemIdsOfItems(db: Db, db': Db)
    requires db.items == db'.items
    ensures ItemIds(db) == ItemIds(db')
  {}

  lemma {:induction false} Populates(db: Db, st: Setting, rule: Rule, items: seq<Item>, n: nat)
    requires n <= |items|
    ensures var r := PopulateFirst(db, st, rule, items, n);
            && (r.Ok? ==>
              && r.value == db.(blocks := r.value.blocks) && db.blocks <= r.value.blocks
              && (forall k :: 0 <= k < n && Matches(st, items[k], rule) ==> (items[k].id, rule.id) in r.value.blocks)
              && (forall block :: block in r.value.blocks && block !in db.blocks ==>
                    (RuleIdTaken(db.rules, rule.id)
                     && exists k :: 0 <= k < n && Matches(st, items[k], rule) && block == (items[k].id, rule.id))))
            && (r.Err? ==> !RuleIdTaken(db.rules, rule.id) || exists k :: 0 <= k < n && items[k].id !in ItemIds(db))
  {
    hide Matches, RuleIdTaken;
    if n > 0 {
      Populates(db, st, rule, items, n - 1);
      var before := PopulateFirst(db, st, rule, items, n - 1);
      if before.Ok? {
        ItemIdsOfItems(db, before.value);
      }
      hide ItemIds;
    }
  }

  lemma {:induction false} PopulateStops(db: Db, st: Setting, rule: Rule, items: seq<Item>, n: nat, m: nat)
    requires n <= m <= |items| && PopulateFirst(db, st, rule, items, n).Err?
    ensures PopulateFirst(db, st, rule, items, m) == PopulateFirst(db, st, rule, items, n)
    decreases m
  {
    hide Matches, CreateItemBlock;
    if n < m {
      PopulateStops(db, st, rule, items, n, m - 1);
    }
  }

  /** Extracts the authors of all items once, by URL. */
  method ExtractAll(st: Setting, items: seq<Item>) returns (infos: map<string, UserInfo>)
    ensures forall k :: 0 <= k < |items| ==>
              ExtractUserInfo(st.urlRules, st.lib, items[k].url)
              == if items[k].url in infos then Some(infos[items[k].url]) else None
  {
    hide ExtractUserInfo;
    infos := map[];
    for i := 0 to |items|
      invariant forall url :: url in infos ==> ExtractUserInfo(st.urlRules, st.lib, url) == Some(infos[url])
      invariant forall k :: 0 <= k < i && items[k].url !in infos ==>
                  ExtractUserInfo(st.urlRules, st.lib, items[k].url) == None
    {
      var info := ExtractUserInfo(st.urlRules, st.lib, items[i].url);
      if info.Some? {
        infos := infos[items[i].url := info.value];
      }
    }
  }

  method PopulateItemBlocksForRule(db: Db, st: Setting, rule: Rule, items: seq<Item>, infos: map<string, UserInfo>)
    returns (result: Result<Db, Failure>)
    requires forall k :: 0 <= k < |items| ==>
               ExtractUserInfo(st.urlRules, st.lib, items[k].url)
               == if items[k].url in infos then Some(infos[items[k].url]) else None
    ensures result == PopulateFirst(db, st, rule, items, |items|)
    ensures result.Ok? ==>
              && result.value == db.(blocks := result.value.blocks) && db.blocks <= result.value.blocks
              && (forall k :: 0 <= k < |items| && Blocks(st.lib, st.urlRules, items[k].url, items[k].details, rule) ==>
                    (items[k].id, rule.id) in result.value.blocks)
              && (forall block :: block in result.value.blocks && block !in db.blocks ==>
                    exists k :: 0 <= k < |items| && block == (items[k].id, rule.id)
                                && Blocks(st.lib, st.urlRules, items[k].url, items[k].details, rule))
  {
    hide ExtractUserInfo, ShouldBlockItem, CreateItemBlock, Blocks;
    Populates(db, st, rule, items, |items|);
    forall k | 0 <= k < |items|
      ensures Matches(st, items[k], rule) <==> Blocks(st.lib, st.urlRules, items[k].url, items[k].details, rule)
    {
      MatchesIs(st, items[k], rule);
    }
    var tx := db;
    for i := 0 to |items|
      invariant PopulateFirst(db, st, rule, items, i) == Ok(tx)
    {
      var info := if items[i].url in infos then Some(infos[items[i].url]) else None;
      if ShouldBlockItem(st.lib, items[i].url, items[i].details, rule, info) {
        var created := CreateItemBlock(tx, items[i].id, rule.id);
        if created.Err? {
          PopulateStops(db, st, rule, items, i + 1, |items|);
          return created;
        }
        tx := created.value;
      }
    }
    return Ok(tx);
  }
}
