/** Incremental synchronisation of read states between the server and one browser:
    frontend/src/lib/item-read-db.ts:15-118, frontend/src/lib/item-db.ts:112-198,
    frontend/src/lib/queries/item-queries.ts:45-59, over the tables written by
    store/query.sql.go:388-413, 2286-2299. Times are whole seconds, as the server stamps them. */
module ReadSync {
  import opened ItemReads
  import opened Sets
  import opened Wrappers

  type Id = string

  /** What an item list request returns of an item. */
  datatype ListItem = ListItem(isRead: bool, createdAt: int)

  /** A poll of the item list in flight: when it began, and the items of the pages so far. */
  datatype ItemPoll = ItemPoll(start: int, fetched: map<Id, ListItem>)

  /** A poll of the read states in flight: the anchor and the cache as it found them, and the table
      its requests saw. `quiet` records that nothing has been marked since. */
  datatype ReadPoll = ReadPoll(anchor: int, existing: map<Id, bool>, snapshot: Option<map<Id, ReadRow>>, quiet: bool)

  /** The server's clock and tables, and the browser's caches. Every combination of filters is a
      query with its own list of items; the read states and their anchor are shared. `marks` records
      when the browser has marked what is cached while there is no anchor. */
  datatype System = System(
    now: int,
    created: map<Id, int>,
    rows: map<Id, ReadRow>,
    polls: map<nat, ItemPoll>,
    listed: map<nat, map<Id, bool>>,
    anchor: Option<int>,
    cached: map<Id, bool>,
    reading: Option<ReadPoll>,
    marks: map<Id, int>)

  const OVERLAP := 5

  /** The greatest of the stamps and a lower bound. */
  ghost function Latest(stamps: set<int>, least: int): (m: int)
    ensures least <= m && (m == least || m in stamps)
    ensures forall x :: x in stamps ==> x <= m
  {
    if stamps == {} then least
    else
      var x := Pick(stamps);
      assert forall y :: y in stamps ==> y == x || y in stamps - {x};
      var m := Latest(stamps - {x}, least);
      if x > m then x else m
  }

  // ----- what a poll of the read states computes

  /** The rows updated at or after the anchor. */
  function Recent(rows: map<Id, ReadRow>, anchor: int): map<Id, bool> {
    map id | id in rows && rows[id].updatedAt >= anchor :: rows[id].isRead
  }

  ghost function RecentStamps(rows: map<Id, ReadRow>, anchor: int): set<int> {
    set id | id in rows && rows[id].updatedAt >= anchor :: rows[id].updatedAt
  }

  /** The cache a poll leaves behind: as it found it, overridden by the rows since its anchor. */
  function NextCache(p: ReadPoll): map<Id, bool> {
    if p.snapshot.None? then p.existing else p.existing + Recent(p.snapshot.value, p.anchor)
  }

  ghost function NextAnchor(p: ReadPoll): int {
    if p.snapshot.None? then p.anchor else Latest(RecentStamps(p.snapshot.value, p.anchor), p.anchor)
  }

  // ----- steps

  datatype Step =
    | Tick(to: int)
    | AddItem(id: Id)
    | ServerMark(ids: set<Id>, isRead: bool)      // by another client
    | StartItems(query: nat)
    | ItemsPage(query: nat, ids: set<Id>)         // any page of any filter
    | EndItems(query: nat, restart: bool)         // restart: the list starts over
    | StartReads
    | SnapshotReads
    | EndReads
    | LocalMark(ids: set<Id>, isRead: bool)       // in the cache and on the server

  ghost function Marked(rows: map<Id, ReadRow>, ids: set<Id>, isRead: bool, now: int): map<Id, ReadRow> {
    map id | id in rows :: if id in ids then ReadRow(isRead, now) else rows[id]
  }

  function FlagAll(ids: set<Id>, isRead: bool): map<Id, bool> {
    map id | id in ids :: isRead
  }

  function StampAll(ids: set<Id>, now: int): map<Id, int> {
    map id | id in ids :: now
  }

  /** A poll in flight during which something is marked. */
  ghost function Disturbed(reading: Option<ReadPoll>): Option<ReadPoll> {
    if reading.Some? then Some(reading.value.(quiet := false)) else None
  }

  /** How old, in seconds, polls of the item list and marks may be when the anchor is set. */
  datatype Limits = Limits(poll: nat, mark: nat)

  ghost predicate AllYounger(s: System, limits: Limits) {
    && (forall q :: q in s.polls ==> s.now - s.polls[q].start <= limits.poll)
    && (forall id :: id in s.marks ==> s.now - s.marks[id] <= limits.mark)
  }

  /** Only one poll of the read states is in flight. When the first items arrive and set the anchor,
      no poll of the item list in flight and no mark still cached is older than its limit. */
  ghost predicate Enabled(s: System, step: Step, limits: Limits) {
    match step
    case Tick(to) => to >= s.now
    case AddItem(id) => id !in s.created && id != ""
    case ServerMark(ids, _) => ids <= s.created.Keys
    case StartItems(q) => q !in s.polls
    case ItemsPage(q, ids) => q in s.polls && ids <= s.created.Keys
    case EndItems(q, _) =>
      q in s.polls && (s.anchor.None? && s.polls[q].fetched != map[] ==> AllYounger(s, limits))
    case StartReads => s.reading.None?
    case SnapshotReads => s.reading.Some? && s.reading.value.snapshot.None?
    case EndReads => s.reading.Some? && s.reading.value.snapshot.Some?
    case LocalMark(ids, _) => ids <= s.created.Keys
  }

  ghost function Flags(items: map<Id, ListItem>): map<Id, bool> {
    map id | id in items :: items[id].isRead
  }

  ghost function CreationStamps(items: map<Id, ListItem>): set<int> {
    set id | id in items :: items[id].createdAt
  }

  /** The anchor after a list arrives: five seconds behind the newest item, unless already set. */
  ghost function AnchorAfterItems(anchor: Option<int>, fetched: map<Id, ListItem>): Option<int> {
    var newest := Latest(CreationStamps(fetched), 0);
    if anchor.None? && newest > 0 then Some(newest - OVERLAP) else anchor
  }

  ghost function PageOf(s: System, ids: set<Id>): map<Id, ListItem> {
    map id | id in ids && id in s.rows && id in s.created :: ListItem(s.rows[id].isRead, s.created[id])
  }

  ghost function ListAfter(s: System, q: nat, restart: bool): map<Id, bool>
    requires q in s.polls
  {
    (if restart || q !in s.listed then map[] else s.listed[q]) + Flags(s.polls[q].fetched)
  }

  ghost function Apply(s: System, step: Step, limits: Limits): System
    requires Enabled(s, step, limits)
  {
    match step
    case Tick(to) => s.(now := to)
    case AddItem(id) => s.(created := s.created[id := s.now], rows := s.rows[id := ReadRow(false, s.now)])
    case ServerMark(ids, isRead) =>
      s.(rows := Marked(s.rows, ids, isRead, s.now), reading := Disturbed(s.reading))
    case StartItems(q) => s.(polls := s.polls[q := ItemPoll(s.now, map[])])
    case ItemsPage(q, ids) =>
      s.(polls := s.polls[q := s.polls[q].(fetched := s.polls[q].fetched + PageOf(s, ids))])
    case EndItems(q, restart) =>
      s.(polls := s.polls - {q}, listed := s.listed[q := ListAfter(s, q, restart)],
         anchor := AnchorAfterItems(s.anchor, s.polls[q].fetched))
    case StartReads =>
      if s.anchor.None? then s.(cached := map[], marks := map[])  // ends at once, without a request
      else s.(reading := Some(ReadPoll(s.anchor.value, s.cached, None, true)))
    case SnapshotReads => s.(reading := Some(s.reading.value.(snapshot := Some(s.rows), quiet := true)))
    case EndReads =>
      s.(anchor := Some(NextAnchor(s.reading.value)), cached := NextCache(s.reading.value), reading := None)
    case LocalMark(ids, isRead) =>
      s.(rows := Marked(s.rows, ids, isRead, s.now), reading := Disturbed(s.reading),
         cached := s.cached + FlagAll(ids, isRead),
         marks := if s.anchor.None? then s.marks + StampAll(ids, s.now) else s.marks)
  }

  /** Before anything happens, at any positive time. */
  ghost predicate Initial(s: System) {
    s.now > 0 && s == System(s.now, map[], map[], map[], map[], None, map[], None, map[])
  }

  /** The state a sequence of steps leads to from `s`, None when some step is not possible. */
  ghost function Execute(s: System, steps: seq<Step>, limits: Limits): Option<System>
    decreases |steps|
  {
    if steps == [] then Some(s)
    else if !Enabled(s, steps[0], limits) then None
    else Execute(Apply(s, steps[0], limits), steps[1..], limits)
  }

  // ----- the invariant

  /** The flag shown for an item of a list: its read state if cached, else its own. */
  function Shown(cached: map<Id, bool>, id: Id, isRead: bool): bool {
    if id in cached then cached[id] else isRead
  }

  /** A flag is still right, or the item was updated at or after `since`. */
  ghost predicate RightOrRecent(s: System, id: Id, isRead: bool, since: int) {
    id in s.rows && (isRead == s.rows[id].isRead || s.rows[id].updatedAt >= since)
  }

  ghost predicate ClocksAgree(s: System) {
    && s.rows.Keys == s.created.Keys
    && s.now > 0
    && (forall id :: id in s.created ==> 0 < s.created[id] <= s.now)
    && (forall id :: id in s.rows ==> s.rows[id].updatedAt <= s.now)
    && (s.anchor.Some? ==> s.anchor.value <= s.now)
  }

  ghost predicate PollsKnown(s: System) {
    forall q :: q in s.polls ==>
      s.polls[q].start <= s.now
      && forall id :: id in s.polls[q].fetched ==> id in s.created && s.polls[q].fetched[id].createdAt == s.created[id]
  }

  /** Before the anchor is set nothing is listed, what a poll has fetched is right or was updated
      since the poll began, and what is cached is right or was updated since it was marked. */
  ghost predicate BeforeAnchor(s: System) {
    && s.cached.Keys == s.marks.Keys
    && (forall id :: id in s.marks ==> s.marks[id] <= s.now && RightOrRecent(s, id, s.cached[id], s.marks[id]))
    && (forall q :: q in s.listed ==> s.listed[q] == map[])
    && (forall q, id :: q in s.polls && id in s.polls[q].fetched ==>
          RightOrRecent(s, id, s.polls[q].fetched[id].isRead, s.polls[q].start))
  }

  ghost predicate CacheClaims(s: System, cached: map<Id, bool>, since: int) {
    forall id :: id in cached ==> RightOrRecent(s, id, cached[id], since)
  }

  ghost predicate ListClaims(s: System, list: map<Id, bool>, cached: map<Id, bool>, since: int) {
    forall id :: id in list ==> id in s.rows && (id !in cached ==> RightOrRecent(s, id, list[id], since))
  }

  ghost predicate PollClaims(s: System, fetched: map<Id, ListItem>, cached: map<Id, bool>, since: int) {
    forall id :: id in fetched && id !in cached ==> RightOrRecent(s, id, fetched[id].isRead, since)
  }

  /** With this cache, every cached read state, and every flag without one, is right or was updated
      at or after `since`. */
  ghost predicate Claims(s: System, cached: map<Id, bool>, since: int) {
    && CacheClaims(s, cached, since)
    && (forall q :: q in s.listed ==> ListClaims(s, s.listed[q], cached, since))
    && (forall q :: q in s.polls ==> PollClaims(s, s.polls[q].fetched, cached, since))
  }

  /** What the poll in flight will leave behind is right, or recent enough for the poll after it;
      and simply right if nothing has been marked since its requests were answered. */
  ghost predicate ReadingOk(s: System) {
    s.reading.Some? ==>
      var p := s.reading.value;
      && s.anchor == Some(p.anchor) && NextAnchor(p) <= s.now
      && Claims(s, NextCache(p), NextAnchor(p))
      && (p.snapshot.Some? && p.quiet ==> Claims(s, NextCache(p), s.now + 1))
  }

  ghost predicate Inv(s: System) {
    && ClocksAgree(s) && PollsKnown(s) && ReadingOk(s)
    && match s.anchor
       case None => BeforeAnchor(s)
       case Some(anchor) => Claims(s, s.cached, anchor)
  }

  /** Every listed item shows the server's read flag. */
  ghost predicate Synced(s: System) {
    forall q, id :: q in s.listed && id in s.listed[q] ==>
      id in s.rows && Shown(s.cached, id, s.listed[q][id]) == s.rows[id].isRead
  }

  // ----- claims

  /** Whatever was right or recent enough still is. */
  ghost predicate Keeps(s: System, s': System, bound: int) {
    forall id, isRead, since ::
      since <= bound && RightOrRecent(s, id, isRead, since) ==> RightOrRecent(s', id, isRead, since)
  }

  lemma ClaimsKept(s: System, s': System, cached: map<Id, bool>, since: int)
    requires Claims(s, cached, since) && Keeps(s, s', since)
    requires s'.polls == s.polls && s'.listed == s.listed && s.rows.Keys <= s'.rows.Keys
    ensures Claims(s', cached, since)
  {
    hide RightOrRecent;
  }

  /** As no row is newer than the present, a claim beyond the present says that the flags are right. */
  lemma RightClaims(s: System, s': System, cached: map<Id, bool>, since: int)
    requires ClocksAgree(s) && Claims(s, cached, s.now + 1)
    requires s'.polls == s.polls && s'.listed == s.listed && s'.rows == s.rows
    ensures Claims(s', cached, since)
  {
    assert forall id, isRead :: RightOrRecent(s, id, isRead, s.now + 1) ==> RightOrRecent(s', id, isRead, since);
    hide RightOrRecent;
  }

  lemma SameRows(s: System, s': System, bound: int)
    requires s'.rows == s.rows
    ensures forall id, isRead, since :: RightOrRecent(s', id, isRead, since) <==> RightOrRecent(s, id, isRead, since)
    ensures Keeps(s, s', bound)
  {}

  /** Every claim of the one state holds in the other. */
  ghost predicate KeepsClaims(s: System, s': System) {
    forall cached, since :: Claims(s, cached, since) ==> Claims(s', cached, since)
  }

  lemma SameTablesKeepClaims(s: System, s': System)
    requires s'.rows == s.rows && s'.polls == s.polls && s'.listed == s.listed
    ensures KeepsClaims(s, s')
  {
    hide Claims, Keeps;
    forall cached, since | Claims(s, cached, since) ensures Claims(s', cached, since) {
      SameRows(s, s', since);
      ClaimsKept(s, s', cached, since);
    }
  }

  lemma ReadingKept(s: System, s': System)
    requires ReadingOk(s) && KeepsClaims(s, s')
    requires s'.reading == s.reading && s'.anchor == s.anchor && s'.now == s.now
    ensures ReadingOk(s')
  {
    hide Claims, NextCache, NextAnchor;
  }

  /** A step that keeps claims, the present, the anchor, the cache and the poll in flight. */
  lemma TransferInv(s: System, s': System)
    requires Inv(s) && KeepsClaims(s, s') && ClocksAgree(s') && PollsKnown(s')
    requires s'.reading == s.reading && s'.anchor == s.anchor && s'.now == s.now && s'.cached == s.cached
    requires s.anchor.None? ==> BeforeAnchor(s')
    ensures Inv(s')
  {
    hide Claims, ReadingOk, BeforeAnchor, ClocksAgree, PollsKnown;
    ReadingKept(s, s');
  }

  lemma TickKeepsReading(s: System, to: int)
    requires ReadingOk(s) && ClocksAgree(s) && to >= s.now
    ensures ReadingOk(s.(now := to))
  {
    hide Claims, NextCache, NextAnchor, ClocksAgree;
    var s' := s.(now := to);
    SameTablesKeepClaims(s, s');
    if s.reading.Some? {
      var p := s.reading.value;
      if p.snapshot.Some? && p.quiet {
        RightClaims(s, s', NextCache(p), to + 1);
      }
    }
  }

  lemma TickKeepsInv(s: System, to: int)
    requires Inv(s) && to >= s.now
    ensures Inv(s.(now := to))
  {
    hide Claims, ReadingOk, RightOrRecent;
    var s' := s.(now := to);
    TickKeepsReading(s, to);
    SameTablesKeepClaims(s, s');
    SameRows(s, s', to);
    hide Keeps;
  }

  // ----- writes to the server's tables

  /** A write that keeps claims; a poll in flight that it may disturb is no longer quiet. */
  lemma WriteKeepsReading(s: System, s': System)
    requires ReadingOk(s) && ClocksAgree(s) && Keeps(s, s', s.now)
    requires s'.polls == s.polls && s'.listed == s.listed && s'.anchor == s.anchor && s'.now == s.now
    requires s.rows.Keys <= s'.rows.Keys
    requires s'.reading == Disturbed(s.reading) || (s'.reading == s.reading && Keeps(s, s', s.now + 1))
    ensures ReadingOk(s')
  {
    if s.reading.Some? {
      var p := s.reading.value;
      var p' := s'.reading.value;
      assert NextCache(p') == NextCache(p) && NextAnchor(p') == NextAnchor(p);
      ClaimsKept(s, s', NextCache(p), NextAnchor(p));
      if p'.snapshot.Some? && p'.quiet {
        ClaimsKept(s, s', NextCache(p), s.now + 1);
      }
    }
    hide Claims, NextCache, NextAnchor, Keeps;
  }

  lemma WriteKeepsInv(s: System, s': System)
    requires Inv(s) && ClocksAgree(s') && Keeps(s, s', s.now)
    requires s' == s.(created := s'.created, rows := s'.rows, reading := s'.reading)
    requires forall id :: id in s.created ==> id in s'.created && s'.created[id] == s.created[id]
    requires s'.reading == Disturbed(s.reading) || (s'.reading == s.reading && Keeps(s, s', s.now + 1))
    ensures Inv(s')
  {
    WriteKeepsReading(s, s');
    if s.anchor.Some? {
      ClaimsKept(s, s', s.cached, s.anchor.value);
      hide BeforeAnchor;
    }
    hide Claims, ReadingOk, RightOrRecent;
  }

  lemma AddItemKeepsInv(s: System, id: Id, limits: Limits)
    requires Inv(s) && Enabled(s, AddItem(id), limits)
    ensures Inv(Apply(s, AddItem(id), limits))
  {
    hide PollsKnown, BeforeAnchor, Claims, ReadingOk;
    WriteKeepsInv(s, Apply(s, AddItem(id), limits));
  }

  /** A write is stamped with the present second, which is never before an anchor, a mark or a poll's start. */
  lemma ServerMarkKeepsInv(s: System, ids: set<Id>, isRead: bool, limits: Limits)
    requires Inv(s) && Enabled(s, ServerMark(ids, isRead), limits)
    ensures Inv(Apply(s, ServerMark(ids, isRead), limits))
  {
    hide PollsKnown, BeforeAnchor, Claims, ReadingOk;
    WriteKeepsInv(s, Apply(s, ServerMark(ids, isRead), limits));
  }

  /** Caching flags that the server has keeps the claims. */
  lemma CacheKeepsClaims(s: System, s': System, flags: map<Id, bool>, since: int)
    requires Claims(s, s.cached, since) && forall id :: id in flags ==> id in s.rows && s.rows[id].isRead == flags[id]
    requires s'.rows == s.rows && s'.listed == s.listed && s'.polls == s.polls
    ensures Claims(s', s.cached + flags, since)
  {}

  /** The user's own mark: as the server's, and in the cache; before there is an anchor its time is
      remembered. */
  lemma LocalMarkIs(s: System, ids: set<Id>, isRead: bool, limits: Limits)
    requires Enabled(s, LocalMark(ids, isRead), limits) && ClocksAgree(s)
    ensures var marked := Apply(s, ServerMark(ids, isRead), limits);
            && (forall id :: id in ids ==> id in marked.rows && marked.rows[id].isRead == isRead)
            && Apply(s, LocalMark(ids, isRead), limits)
               == marked.(cached := s.cached + FlagAll(ids, isRead),
                          marks := if s.anchor.None? then s.marks + StampAll(ids, s.now) else s.marks)
  {}

  /** Only the cache and the record of marks change. */
  lemma CachedKeepsInv(s: System, s': System)
    requires Inv(s) && s' == s.(cached := s'.cached, marks := s'.marks)
    requires s.anchor.Some? ==> Claims(s', s'.cached, s.anchor.value)
    requires s.anchor.None? ==> BeforeAnchor(s')
    ensures Inv(s')
  {
    hide Claims, BeforeAnchor, ReadingOk;
    SameTablesKeepClaims(s, s');
    ReadingKept(s, s');
  }

  lemma LocalMarkKeepsInv(s: System, ids: set<Id>, isRead: bool, limits: Limits)
    requires Inv(s) && Enabled(s, LocalMark(ids, isRead), limits)
    ensures Inv(Apply(s, LocalMark(ids, isRead), limits))
  {
    LocalMarkIs(s, ids, isRead, limits);
    ServerMarkKeepsInv(s, ids, isRead, limits);
    var marked := Apply(s, ServerMark(ids, isRead), limits);
    var s' := Apply(s, LocalMark(ids, isRead), limits);
    assert marked.anchor == s.anchor && marked.cached == s.cached && marked.marks == s.marks && marked.now == s.now;
    hide Apply, Marked, Claims, BeforeAnchor, ReadingOk, ClocksAgree, PollsKnown, Disturbed;
    if s.anchor.Some? {
      CacheKeepsClaims(marked, s', FlagAll(ids, isRead), s.anchor.value);
    } else {
      FirstMarksKeep(marked, ids, isRead);
    }
    CachedKeepsInv(marked, s');
  }

  lemma FirstMarksKeep(s: System, ids: set<Id>, isRead: bool)
    requires BeforeAnchor(s) && forall id :: id in ids ==> id in s.rows && s.rows[id].isRead == isRead
    ensures BeforeAnchor(s.(cached := s.cached + FlagAll(ids, isRead), marks := s.marks + StampAll(ids, s.now)))
  {}

  // ----- the item list

  /** What a page returns is right at present. */
  lemma PageIsRight(s: System, ids: set<Id>, id: Id, since: int)
    requires id in PageOf(s, ids)
    ensures RightOrRecent(s, id, PageOf(s, ids)[id].isRead, since)
  {}

  lemma PageKeepsClaims(s: System, q: nat, poll: ItemPoll, ids: set<Id>, cached: map<Id, bool>, since: int)
    requires Claims(s, cached, since)
    requires poll.fetched == PageOf(s, ids)
             || (q in s.polls && poll.fetched == s.polls[q].fetched + PageOf(s, ids))
    ensures Claims(s.(polls := s.polls[q := poll]), cached, since)
  {
    var s' := s.(polls := s.polls[q := poll]);
    assert forall id, isRead :: RightOrRecent(s', id, isRead, since) <==> RightOrRecent(s, id, isRead, since);
    hide RightOrRecent, PageOf;
    assert q in s.polls ==> PollClaims(s, s.polls[q].fetched, cached, since);
    assert PollClaims(s', poll.fetched, cached, since) by {
      forall id | id in PageOf(s, ids) ensures RightOrRecent(s, id, PageOf(s, ids)[id].isRead, since) {
        PageIsRight(s, ids, id, since);
      }
    }
    forall p | p in s.polls && p != q ensures PollClaims(s', s.polls[p].fetched, cached, since) {
      assert PollClaims(s, s.polls[p].fetched, cached, since);
    }
    forall p | p in s.listed ensures ListClaims(s', s.listed[p], cached, since) {
      assert ListClaims(s, s.listed[p], cached, since);
    }
  }

  /** A poll of the item list begins or goes on: what its pages return is right at present. */
  lemma ItemPollKeepsInv(s: System, q: nat, poll: ItemPoll, ids: set<Id>)
    requires Inv(s)
    requires poll == ItemPoll(s.now, PageOf(s, ids))
             || (q in s.polls && poll == s.polls[q].(fetched := s.polls[q].fetched + PageOf(s, ids)))
    ensures Inv(s.(polls := s.polls[q := poll]))
  {
    var s' := s.(polls := s.polls[q := poll]);
    PageKeepsKnown(s, q, poll, ids);
    hide Claims, BeforeAnchor, PollsKnown, PageOf, ReadingOk;
    forall cached, since | Claims(s, cached, since) ensures Claims(s', cached, since) {
      PageKeepsClaims(s, q, poll, ids, cached, since);
    }
    if s.anchor.None? {
      PageKeepsBefore(s, q, poll, ids);
    }
    TransferInv(s, s');
  }

  lemma PageKeepsKnown(s: System, q: nat, poll: ItemPoll, ids: set<Id>)
    requires PollsKnown(s) && ClocksAgree(s)
    requires poll == ItemPoll(s.now, PageOf(s, ids))
             || (q in s.polls && poll == s.polls[q].(fetched := s.polls[q].fetched + PageOf(s, ids)))
    ensures PollsKnown(s.(polls := s.polls[q := poll])) && ClocksAgree(s.(polls := s.polls[q := poll]))
  {}

  lemma PageKeepsBefore(s: System, q: nat, poll: ItemPoll, ids: set<Id>)
    requires BeforeAnchor(s)
    requires poll == ItemPoll(s.now, PageOf(s, ids))
             || (q in s.polls && poll == s.polls[q].(fetched := s.polls[q].fetched + PageOf(s, ids)))
    ensures BeforeAnchor(s.(polls := s.polls[q := poll]))
  {
    var s' := s.(polls := s.polls[q := poll]);
    assert forall id, isRead, since :: RightOrRecent(s', id, isRead, since) <==> RightOrRecent(s, id, isRead, since);
    assert forall id, since :: id in PageOf(s, ids) ==> RightOrRecent(s, id, PageOf(s, ids)[id].isRead, since);
    hide RightOrRecent, PageOf;
  }

  lemma StartItemsKeepsInv(s: System, q: nat, limits: Limits)
    requires Inv(s) && Enabled(s, StartItems(q), limits)
    ensures Inv(Apply(s, StartItems(q), limits))
  {
    assert PageOf(s, {}) == map[];
    ItemPollKeepsInv(s, q, ItemPoll(s.now, map[]), {});
  }

  lemma ItemsPageKeepsInv(s: System, q: nat, ids: set<Id>, limits: Limits)
    requires Inv(s) && Enabled(s, ItemsPage(q, ids), limits)
    ensures Inv(Apply(s, ItemsPage(q, ids), limits))
  {
    ItemPollKeepsInv(s, q, s.polls[q].(fetched := s.polls[q].fetched + PageOf(s, ids)), ids);
    hide Inv;
  }

  lemma ListAfterClaims(s: System, q: nat, restart: bool, cached: map<Id, bool>, since: int)
    requires Claims(s, cached, since) && q in s.polls
    requires forall id :: id in s.polls[q].fetched ==> id in s.rows
    ensures ListClaims(s, ListAfter(s, q, restart), cached, since)
  {
    assert PollClaims(s, s.polls[q].fetched, cached, since);
    assert q in s.listed ==> ListClaims(s, s.listed[q], cached, since);
    hide RightOrRecent, Claims;
  }

  /** A list that keeps the claims takes the place of a poll. */
  lemma ListedKeepsClaims(s: System, s': System, q: nat, list: map<Id, bool>, cached: map<Id, bool>, since: int)
    requires Claims(s, cached, since) && ListClaims(s, list, cached, since)
    requires s'.rows == s.rows && s'.polls == s.polls - {q} && s'.listed == s.listed[q := list]
    ensures Claims(s', cached, since)
  {
    assert forall id, isRead :: RightOrRecent(s', id, isRead, since) <==> RightOrRecent(s, id, isRead, since);
    hide RightOrRecent;
    forall p | p in s'.listed ensures ListClaims(s', s'.listed[p], cached, since) {
      assert p != q ==> ListClaims(s, s.listed[p], cached, since);
    }
    forall p | p in s'.polls ensures PollClaims(s', s'.polls[p].fetched, cached, since) {
      assert PollClaims(s, s.polls[p].fetched, cached, since);
    }
  }

  lemma EndKeepsClaims(s: System, q: nat, restart: bool, cached: map<Id, bool>, since: int)
    requires Claims(s, cached, since) && q in s.polls
    requires forall id :: id in s.polls[q].fetched ==> id in s.rows
    ensures Claims(s.(polls := s.polls - {q}, listed := s.listed[q := ListAfter(s, q, restart)]), cached, since)
  {
    hide Claims, ListAfter, ListClaims;
    ListAfterClaims(s, q, restart, cached, since);
    var s' := s.(polls := s.polls - {q}, listed := s.listed[q := ListAfter(s, q, restart)]);
    ListedKeepsClaims(s, s', q, ListAfter(s, q, restart), cached, since);
  }

  /** A list that arrives once the anchor is set. */
  lemma LaterItemsKeepInv(s: System, q: nat, restart: bool, limits: Limits)
    requires Inv(s) && Enabled(s, EndItems(q, restart), limits) && s.anchor.Some?
    ensures Inv(Apply(s, EndItems(q, restart), limits))
  {
    var s' := Apply(s, EndItems(q, restart), limits);
    assert s' == s.(polls := s.polls - {q}, listed := s.listed[q := ListAfter(s, q, restart)]);
    hide Claims, BeforeAnchor, ListAfter, Apply, ReadingOk;
    forall cached, since | Claims(s, cached, since) ensures Claims(s', cached, since) {
      EndKeepsClaims(s, q, restart, cached, since);
    }
    TransferInv(s, s');
  }

  /** A list without items leaves the anchor unset. */
  lemma EmptyListKeepsInv(s: System, q: nat, restart: bool, limits: Limits)
    requires Inv(s) && Enabled(s, EndItems(q, restart), limits)
    requires s.anchor.None? && s.polls[q].fetched == map[]
    ensures Inv(Apply(s, EndItems(q, restart), limits))
  {
    hide RightOrRecent, Claims;
    var s' := Apply(s, EndItems(q, restart), limits);
    assert Flags(s.polls[q].fetched) == map[] && CreationStamps(s.polls[q].fetched) == {};
    assert s'.anchor.None? && s'.listed == s.listed[q := map[]];
    SameRows(s, s', 0);
  }

  /** A flag right or recent since some instant is so since any earlier one. */
  lemma SinceEarlier(s: System, id: Id, isRead: bool, since: int, anchor: int)
    requires RightOrRecent(s, id, isRead, since) && anchor <= since
    ensures RightOrRecent(s, id, isRead, anchor)
  {}

  /** An anchor no later than any mark and any poll in flight can claim what they fetched. */
  lemma FirstClaims(s: System, anchor: int)
    requires BeforeAnchor(s) && forall p :: p in s.polls ==> anchor <= s.polls[p].start
    requires forall id :: id in s.marks ==> anchor <= s.marks[id]
    ensures Claims(s, s.cached, anchor)
    ensures forall p, id :: p in s.polls && id in s.polls[p].fetched ==>
              RightOrRecent(s, id, s.polls[p].fetched[id].isRead, anchor)
  {
    hide RightOrRecent;
    forall id | id in s.cached ensures RightOrRecent(s, id, s.cached[id], anchor) {
      SinceEarlier(s, id, s.cached[id], s.marks[id], anchor);
    }
    forall p, id | p in s.polls && id in s.polls[p].fetched
      ensures RightOrRecent(s, id, s.polls[p].fetched[id].isRead, anchor)
    {
      SinceEarlier(s, id, s.polls[p].fetched[id].isRead, s.polls[p].start, anchor);
    }
  }

  lemma FirstAnchorKeepsInv(s: System, anchor: int, q: nat, restart: bool)
    requires Inv(s) && s.anchor.None? && q in s.polls && anchor <= s.now
    requires forall p :: p in s.polls ==> anchor <= s.polls[p].start
    requires forall id :: id in s.marks ==> anchor <= s.marks[id]
    ensures Inv(s.(polls := s.polls - {q}, listed := s.listed[q := ListAfter(s, q, restart)], anchor := Some(anchor)))
  {
    var s' := s.(polls := s.polls - {q}, listed := s.listed[q := ListAfter(s, q, restart)], anchor := Some(anchor));
    FirstClaims(s, anchor);
    assert PollsKnown(s') && ReadingOk(s');
    assert forall id :: id in s.polls[q].fetched ==> id in s.rows;
    hide Claims, ListAfter, ListClaims, BeforeAnchor, PollsKnown, ReadingOk;
    ListAfterClaims(s, q, restart, s.cached, anchor);
    ListedKeepsClaims(s, s', q, ListAfter(s, q, restart), s.cached, anchor);
  }

  /** The newest of the fetched items is not newer than the present, and five seconds before it is
      before everything young enough began. */
  lemma AnchorIsEarly(s: System, q: nat, limits: Limits)
    requires Inv(s) && q in s.polls && s.polls[q].fetched != map[] && AllYounger(s, limits)
    requires limits.poll <= OVERLAP && limits.mark <= OVERLAP
    ensures var newest := Latest(CreationStamps(s.polls[q].fetched), 0);
            && 0 < newest <= s.now
            && (forall p :: p in s.polls ==> newest - OVERLAP <= s.polls[p].start)
            && (forall id :: id in s.marks ==> newest - OVERLAP <= s.marks[id])
  {
    hide ReadingOk, BeforeAnchor, Claims;
    var fetched := s.polls[q].fetched;
    var id := Pick(fetched.Keys);
    assert fetched[id].createdAt in CreationStamps(fetched);
  }

  lemma FirstItemsAre(s: System, q: nat, restart: bool, limits: Limits)
    requires Enabled(s, EndItems(q, restart), limits) && s.anchor.None?
    requires Latest(CreationStamps(s.polls[q].fetched), 0) > 0
    ensures Apply(s, EndItems(q, restart), limits) ==
            s.(polls := s.polls - {q}, listed := s.listed[q := ListAfter(s, q, restart)],
               anchor := Some(Latest(CreationStamps(s.polls[q].fetched), 0) - OVERLAP))
  {
    hide Latest, CreationStamps, ListAfter;
  }

  /** The first list with items sets the anchor no later than any poll in flight began and than any
      mark still cached was made. */
  lemma FirstItemsKeepInv(s: System, q: nat, restart: bool, limits: Limits)
    requires Inv(s) && Enabled(s, EndItems(q, restart), limits) && limits.poll <= OVERLAP && limits.mark <= OVERLAP
    requires s.anchor.None? && s.polls[q].fetched != map[]
    ensures Inv(Apply(s, EndItems(q, restart), limits))
  {
    hide Inv, Latest, ListAfter, CreationStamps, Apply, AllYounger;
    AnchorIsEarly(s, q, limits);
    FirstItemsAre(s, q, restart, limits);
    FirstAnchorKeepsInv(s, Latest(CreationStamps(s.polls[q].fetched), 0) - OVERLAP, q, restart);
  }

  // ----- polls of the read states

  /** Without an anchor a poll ends at once and empties the cache. */
  lemma EmptiedKeepsInv(s: System)
    requires Inv(s) && s.anchor.None?
    ensures Inv(s.(cached := map[], marks := map[]))
  {
    var s' := s.(cached := map[], marks := map[]);
    SameRows(s, s', 0);
    hide RightOrRecent, Keeps, ReadingOk;
    assert BeforeAnchor(s');
    hide BeforeAnchor;
    CachedKeepsInv(s, s');
  }

  lemma StartReadsKeepsInv(s: System, limits: Limits)
    requires Inv(s) && s.reading.None?
    ensures Inv(Apply(s, StartReads, limits))
  {
    var s' := Apply(s, StartReads, limits);
    hide Claims, BeforeAnchor;
    if s.anchor.None? {
      EmptiedKeepsInv(s);
    } else {
      SameTablesKeepClaims(s, s');
    }
  }

  /** The answer holds every row that the anchor leaves in doubt: afterwards all flags are right. */
  lemma SnapshotMakesRight(s: System, p: ReadPoll)
    requires ClocksAgree(s) && Claims(s, p.existing, p.anchor) && p.snapshot == Some(s.rows)
    ensures Claims(s, NextCache(p), s.now + 1)
  {
    var cached := NextCache(p);
    assert CacheClaims(s, cached, s.now + 1);
    forall q | q in s.listed ensures ListClaims(s, s.listed[q], cached, s.now + 1) {
      assert ListClaims(s, s.listed[q], p.existing, p.anchor);
    }
    forall q | q in s.polls ensures PollClaims(s, s.polls[q].fetched, cached, s.now + 1) {
      assert PollClaims(s, s.polls[q].fetched, p.existing, p.anchor);
    }
  }

  lemma SnapshotReadsKeepsInv(s: System, limits: Limits)
    requires Inv(s) && Enabled(s, SnapshotReads, limits)
    ensures Inv(Apply(s, SnapshotReads, limits))
  {
    hide Claims;
    var s' := Apply(s, SnapshotReads, limits);
    var p := s'.reading.value;
    assert NextAnchor(p) <= s.now by {
      AnchorNotAhead(s, p);
    }
    assert NextCache(s.reading.value) == p.existing && NextAnchor(s.reading.value) == p.anchor;
    hide NextCache, NextAnchor, BeforeAnchor;
    SnapshotMakesRight(s, p);
    RightClaims(s, s', NextCache(p), NextAnchor(p));
    RightClaims(s, s', NextCache(p), s.now + 1);
    SameTablesKeepClaims(s, s');
  }

  lemma AnchorNotAhead(s: System, p: ReadPoll)
    requires ClocksAgree(s) && p.anchor <= s.now && p.snapshot == Some(s.rows)
    ensures NextAnchor(p) <= s.now
  {}

  lemma EndReadsKeepsInv(s: System, limits: Limits)
    requires Inv(s) && Enabled(s, EndReads, limits)
    ensures Inv(Apply(s, EndReads, limits))
  {
    hide Claims, NextCache, NextAnchor, BeforeAnchor;
    SameTablesKeepClaims(s, Apply(s, EndReads, limits));
  }

  /** The poll is about to end, and nothing has been marked since its requests were answered. */
  ghost predicate EndsQuietly(s: System) {
    s.reading.Some? && s.reading.value.snapshot.Some? && s.reading.value.quiet
  }

  /** A poll ends quietly if after its answer come only steps other than marks and its end. */
  lemma UnmarkedIsQuiet(s: System, steps: seq<Step>, limits: Limits)
    requires Enabled(s, SnapshotReads, limits)
    requires Execute(Apply(s, SnapshotReads, limits), steps, limits).Some?
    requires forall k :: 0 <= k < |steps| ==>
               !steps[k].ServerMark? && !steps[k].LocalMark? && !steps[k].EndReads?
    ensures EndsQuietly(Execute(Apply(s, SnapshotReads, limits), steps, limits).value)
  {
    StaysQuiet(Apply(s, SnapshotReads, limits), steps, limits);
  }

  lemma {:induction false} StaysQuiet(s: System, steps: seq<Step>, limits: Limits)
    requires EndsQuietly(s) && Execute(s, steps, limits).Some?
    requires forall k :: 0 <= k < |steps| ==>
               !steps[k].ServerMark? && !steps[k].LocalMark? && !steps[k].EndReads?
    ensures EndsQuietly(Execute(s, steps, limits).value)
    decreases |steps|
  {
    hide AnchorAfterItems, ListAfter, PageOf, AllYounger;
    if steps != [] {
      var step := steps[0];
      assert !step.ServerMark? && !step.LocalMark? && !step.EndReads?;
      StaysQuiet(Apply(s, step, limits), steps[1..], limits);
    }
  }

  lemma QuietPollSyncs(s: System, limits: Limits)
    requires Inv(s) && EndsQuietly(s)
    ensures Synced(Apply(s, EndReads, limits))
  {
    var s' := Apply(s, EndReads, limits);
    hide NextCache, NextAnchor;
    forall q, id | q in s'.listed && id in s'.listed[q]
      ensures id in s'.rows && Shown(s'.cached, id, s'.listed[q][id]) == s'.rows[id].isRead
    {
      assert ListClaims(s, s.listed[q], s'.cached, s.now + 1);
    }
  }

  // ----- every run

  lemma StepKeepsInv(s: System, step: Step, limits: Limits)
    requires Inv(s) && Enabled(s, step, limits) && limits.poll <= OVERLAP && limits.mark <= OVERLAP
    ensures Inv(Apply(s, step, limits))
  {
    match step
    case Tick(to) => TickKeepsInv(s, to);
    case AddItem(id) => AddItemKeepsInv(s, id, limits);
    case ServerMark(ids, isRead) => ServerMarkKeepsInv(s, ids, isRead, limits);
    case StartItems(q) => StartItemsKeepsInv(s, q, limits);
    case ItemsPage(q, ids) => ItemsPageKeepsInv(s, q, ids, limits);
    case EndItems(q, restart) =>
      if s.anchor.Some? {
        LaterItemsKeepInv(s, q, restart, limits);
      } else if s.polls[q].fetched == map[] {
        EmptyListKeepsInv(s, q, restart, limits);
      } else {
        FirstItemsKeepInv(s, q, restart, limits);
      }
    case StartReads => StartReadsKeepsInv(s, limits);
    case SnapshotReads => SnapshotReadsKeepsInv(s, limits);
    case EndReads => EndReadsKeepsInv(s, limits);
    case LocalMark(ids, isRead) => LocalMarkKeepsInv(s, ids, isRead, limits);
  }

  lemma InitialInv(s: System)
    requires Initial(s)
    ensures Inv(s)
  {}

  lemma {:induction false} RunKeepsInv(s: System, steps: seq<Step>, limits: Limits)
    requires Inv(s) && limits.poll <= OVERLAP && limits.mark <= OVERLAP && Execute(s, steps, limits).Some?
    ensures Inv(Execute(s, steps, limits).value)
    decreases |steps|
  {
    hide Inv, Apply;
    if steps != [] {
      StepKeepsInv(s, steps[0], limits);
      RunKeepsInv(Apply(s, steps[0], limits), steps[1..], limits);
    }
  }

  /** In every run that respects the limits, every listed item shows the server's flag right after a
      poll of the read states, unless something was marked between the poll's answer and its end. */
  ghost predicate AlwaysSynced(limits: Limits) {
    forall s, steps :: Initial(s) && Execute(s, steps, limits).Some? && EndsQuietly(Execute(s, steps, limits).value) ==>
      Synced(Apply(Execute(s, steps, limits).value, EndReads, limits))
  }

  /** A whole poll without any other step in between. */
  ghost function Polled(s: System, limits: Limits): System
    requires s.reading.None?
  {
    var started := Apply(s, StartReads, limits);
    if started.reading.None? then started else Apply(Apply(started, SnapshotReads, limits), EndReads, limits)
  }

  /** Whatever the polls before have overwritten, the next undisturbed poll repairs it. */
  lemma NextPollRepairs(s: System, steps: seq<Step>, limits: Limits)
    requires Initial(s) && limits.poll <= OVERLAP && limits.mark <= OVERLAP && Execute(s, steps, limits).Some?
    requires Execute(s, steps, limits).value.reading.None?
    ensures Synced(Polled(Execute(s, steps, limits).value, limits))
  {
    InitialInv(s);
    RunKeepsInv(s, steps, limits);
    hide Execute;
    var end := Execute(s, steps, limits).value;
    StartReadsKeepsInv(end, limits);
    if end.anchor.Some? {
      var started := Apply(end, StartReads, limits);
      SnapshotReadsKeepsInv(started, limits);
      QuietPollSyncs(Apply(started, SnapshotReads, limits), limits);
    }
  }

  // ----- what is shown

  /** The flag a step gives an item, if it marks it. */
  function MarkOf(step: Step, id: Id): Option<bool> {
    match step
    case ServerMark(ids, isRead) => if id in ids then Some(isRead) else None
    case LocalMark(ids, isRead) => if id in ids then Some(isRead) else None
    case _ => None
  }

  /** The last flag that anybody gives an item in a run. */
  function LastMark(steps: seq<Step>, id: Id): Option<bool> {
    if steps == [] then None
    else
      var later := LastMark(steps[1..], id);
      if later.Some? then later else MarkOf(steps[0], id)
  }

  function Or(given: Option<bool>, otherwise: bool): bool {
    if given.Some? then given.value else otherwise
  }

  lemma StepSetsFlag(s: System, step: Step, limits: Limits, id: Id)
    requires s.rows.Keys == s.created.Keys && Enabled(s, step, limits)
    ensures var s' := Apply(s, step, limits);
            && s'.rows.Keys == s'.created.Keys
            && (id in s.rows ==> id in s'.rows && s'.rows[id].isRead == Or(MarkOf(step, id), s.rows[id].isRead))
            && (id !in s.rows ==> MarkOf(step, id).None? && (id in s'.rows ==> !s'.rows[id].isRead))
  {
    hide NextCache, NextAnchor, Disturbed, ListAfter, PageOf, AllYounger, AnchorAfterItems, FlagAll, StampAll;
  }

  /** The server's flag is the one given last, and at first an item is unread. */
  lemma {:induction false} ServerKeepsLastMark(s: System, steps: seq<Step>, limits: Limits, id: Id)
    requires s.rows.Keys == s.created.Keys && Execute(s, steps, limits).Some?
    ensures var end := Execute(s, steps, limits).value;
            && (id in s.rows ==> id in end.rows)
            && (id in end.rows ==>
                  end.rows[id].isRead == Or(LastMark(steps, id), id in s.rows && s.rows[id].isRead))
    decreases |steps|
  {
    hide Enabled, Apply, MarkOf;
    if steps != [] {
      StepSetsFlag(s, steps[0], limits, id);
      ServerKeepsLastMark(Apply(s, steps[0], limits), steps[1..], limits, id);
    }
  }

  /** After a poll that nothing disturbs, every listed item shows the flag that anybody has given it
      last, or unread if nobody has marked it. */
  lemma LastMarkIsShown(s: System, steps: seq<Step>, limits: Limits, q: nat, id: Id)
    requires Initial(s) && limits.poll <= OVERLAP && limits.mark <= OVERLAP && Execute(s, steps, limits).Some?
    requires EndsQuietly(Execute(s, steps, limits).value)
    ensures var end := Apply(Execute(s, steps, limits).value, EndReads, limits);
            q in end.listed && id in end.listed[q] ==>
              Shown(end.cached, id, end.listed[q][id]) == (LastMark(steps, id) == Some(true))
  {
    InitialInv(s);
    RunKeepsInv(s, steps, limits);
    QuietPollSyncs(Execute(s, steps, limits).value, limits);
    ServerKeepsLastMark(s, steps, limits, id);
    hide Execute, NextCache, NextAnchor, Inv, LastMark;
  }

  /** A mark of the user's own is on the server, with the present second, and shown at once. */
  lemma LocalMarkIsShown(s: System, ids: set<Id>, isRead: bool, limits: Limits, id: Id, listedFlag: bool)
    requires Enabled(s, LocalMark(ids, isRead), limits) && s.rows.Keys == s.created.Keys && id in s.rows
    ensures var s' := Apply(s, LocalMark(ids, isRead), limits);
            && id in s'.rows && s'.rows[id] == (if id in ids then ReadRow(isRead, s.now) else s.rows[id])
            && Shown(s'.cached, id, listedFlag) == (if id in ids then isRead else Shown(s.cached, id, listedFlag))
  {
  }

  /** Items on a page of a poll are listed when it ends, and items listed before stay unless the list
      starts over. */
  lemma FetchedIsListed(s: System, q: nat, ids: set<Id>, restart: bool, limits: Limits)
    requires s.rows.Keys == s.created.Keys && Enabled(s, ItemsPage(q, ids), limits)
    requires Enabled(Apply(s, ItemsPage(q, ids), limits), EndItems(q, restart), limits)
    ensures var listed := Apply(Apply(s, ItemsPage(q, ids), limits), EndItems(q, restart), limits).listed;
            && q in listed && ids + s.polls[q].fetched.Keys <= listed[q].Keys
            && (q in s.listed && !restart ==> s.listed[q].Keys <= listed[q].Keys)
            && (q in s.listed && restart ==> listed[q].Keys == ids + s.polls[q].fetched.Keys)
            && (forall p :: p != q && p in s.listed ==> p in listed && listed[p] == s.listed[p])
  {
    hide AllYounger, AnchorAfterItems;
    var polled := Apply(s, ItemsPage(q, ids), limits);
    assert PageOf(s, ids).Keys == ids;
    assert polled.polls[q].fetched.Keys == ids + s.polls[q].fetched.Keys;
    hide PageOf;
    assert Flags(polled.polls[q].fetched).Keys == polled.polls[q].fetched.Keys;
  }

  // ----- runs that go wrong

  lemma {:induction false} Then(s: System, steps: seq<Step>, mid: System, step: Step, limits: Limits)
    requires Execute(s, steps, limits) == Some(mid) && Enabled(mid, step, limits)
    ensures Execute(s, steps + [step], limits) == Some(Apply(mid, step, limits))
    decreases |steps|
  {
    hide Enabled, Apply;
    if steps == [] {
      assert ([] + [step])[1..] == [];
    } else {
      assert (steps + [step])[1..] == steps[1..] + [step];
      Then(Apply(s, steps[0], limits), steps[1..], mid, step, limits);
    }
  }

  /** A state that some run leads to from the start of the clock. */
  ghost predicate Reachable(end: System, limits: Limits) {
    exists steps :: Execute(AtStart(), steps, limits) == Some(end)
  }

  ghost function AtStart(): System {
    System(1, map[], map[], map[], map[], None, map[], None, map[])
  }

  lemma StartReachable(limits: Limits)
    ensures Reachable(AtStart(), limits)
  {
    assert Execute(AtStart(), [], limits) == Some(AtStart());
  }

  lemma StepReachable(mid: System, step: Step, limits: Limits)
    requires Reachable(mid, limits) && Enabled(mid, step, limits)
    ensures Reachable(Apply(mid, step, limits), limits)
  {
    hide Execute, Enabled, Apply;
    var steps :| Execute(AtStart(), steps, limits) == Some(mid);
    Then(AtStart(), steps, mid, step, limits);
  }

  lemma StepTo(mid: System, step: Step, next: System, limits: Limits)
    requires Reachable(mid, limits) && Enabled(mid, step, limits) && Apply(mid, step, limits) == next
    ensures Reachable(next, limits)
  {
    hide Reachable;
    StepReachable(mid, step, limits);
  }

  type Polls = map<nat, ItemPoll>

  /** In the first second there is one item, `a`. */
  ghost function OneItem(rowA: bool, polls: Polls, cached: map<Id, bool>, marks: map<Id, int>): System {
    System(1, map["a" := 1], map["a" := ReadRow(rowA, 1)], polls, map[], None, cached, None, marks)
  }

  /** Six seconds later a second one is created. */
  ghost function TwoItems(rowA: bool, polls: Polls, cached: map<Id, bool>, marks: map<Id, int>): System {
    System(7, map["a" := 1, "b" := 7], map["a" := ReadRow(rowA, 1), "b" := ReadRow(false, 7)], polls, map[], None,
           cached, None, marks)
  }

  /** A poll begun at `start` has fetched both, `a` unread. */
  ghost function FirstList(rowA: bool, start: int, cached: map<Id, bool>, marks: map<Id, int>): System {
    TwoItems(rowA, map[0 := ItemPoll(start, map["a" := ListItem(false, 1), "b" := ListItem(false, 7)])], cached, marks)
  }

  lemma ItemAdded(limits: Limits)
    ensures Reachable(OneItem(false, map[], map[], map[]), limits)
  {
    hide Reachable;
    StartReachable(limits);
    StepTo(AtStart(), AddItem("a"), OneItem(false, map[], map[], map[]), limits);
  }

  lemma OthersMark(rowA: bool, polls: Polls, cached: map<Id, bool>, marks: map<Id, int>, isRead: bool, limits: Limits)
    requires Reachable(OneItem(rowA, polls, cached, marks), limits)
    ensures Reachable(OneItem(isRead, polls, cached, marks), limits)
  {
    hide Reachable;
    var mid := OneItem(rowA, polls, cached, marks);
    assert Marked(mid.rows, {"a"}, isRead, 1) == map["a" := ReadRow(isRead, 1)];
    StepTo(mid, ServerMark({"a"}, isRead), OneItem(isRead, polls, cached, marks), limits);
  }

  lemma UserMarks(limits: Limits)
    requires Reachable(OneItem(false, map[], map[], map[]), limits)
    ensures Reachable(OneItem(true, map[], map["a" := true], map["a" := 1]), limits)
  {
    hide Reachable;
    var mid := OneItem(false, map[], map[], map[]);
    assert Marked(mid.rows, {"a"}, true, 1) == map["a" := ReadRow(true, 1)];
    assert map[] + FlagAll({"a"}, true) == map["a" := true] && map[] + StampAll({"a"}, 1) == map["a" := 1];
    hide FlagAll, StampAll, Marked;
    StepTo(mid, LocalMark({"a"}, true), OneItem(true, map[], map["a" := true], map["a" := 1]), limits);
  }

  lemma FetchesFirst(limits: Limits)
    requires Reachable(OneItem(false, map[], map[], map[]), limits)
    ensures Reachable(OneItem(false, map[0 := ItemPoll(1, map["a" := ListItem(false, 1)])], map[], map[]), limits)
  {
    hide Reachable;
    var mid := OneItem(false, map[], map[], map[]);
    var next := OneItem(false, map[0 := ItemPoll(1, map[])], map[], map[]);
    StepTo(mid, StartItems(0), next, limits);
    assert PageOf(next, {"a"}) == map["a" := ListItem(false, 1)];
    assert map[] + PageOf(next, {"a"}) == map["a" := ListItem(false, 1)];
    var polls := map[0 := ItemPoll(1, map["a" := ListItem(false, 1)])];
    StepTo(next, ItemsPage(0, {"a"}), OneItem(false, polls, map[], map[]), limits);
  }

  lemma SixSecondsLater(rowA: bool, polls: Polls, cached: map<Id, bool>, marks: map<Id, int>, limits: Limits)
    requires Reachable(OneItem(rowA, polls, cached, marks), limits)
    ensures Reachable(TwoItems(rowA, polls, cached, marks), limits)
  {
    hide Reachable;
    var mid := OneItem(rowA, polls, cached, marks);
    StepTo(mid, Tick(7), mid.(now := 7), limits);
    StepTo(mid.(now := 7), AddItem("b"), TwoItems(rowA, polls, cached, marks), limits);
  }

  lemma FetchesSecond(limits: Limits)
    requires Reachable(TwoItems(true, map[0 := ItemPoll(1, map["a" := ListItem(false, 1)])], map[], map[]), limits)
    ensures Reachable(FirstList(true, 1, map[], map[]), limits)
  {
    hide Reachable;
    var polls: Polls := map[0 := ItemPoll(1, map["a" := ListItem(false, 1)])];
    var mid := TwoItems(true, polls, map[], map[]);
    var both := map["a" := ListItem(false, 1), "b" := ListItem(false, 7)];
    assert PageOf(mid, {"b"}) == map["b" := ListItem(false, 7)];
    assert polls[0].fetched + PageOf(mid, {"b"}) == both;
    hide PageOf;
    assert polls[0 := ItemPoll(1, both)] == FirstList(true, 1, map[], map[]).polls;
    StepTo(mid, ItemsPage(0, {"b"}), FirstList(true, 1, map[], map[]), limits);
  }

  /** An item poll that lasts six seconds: it fetches `a` unread at once, another client marks `a`
      read, and six seconds later it fetches the second item. */
  lemma LongPollReachable(limits: Limits)
    ensures Reachable(FirstList(true, 1, map[], map[]), limits)
  {
    hide Reachable;
    var polls: Polls := map[0 := ItemPoll(1, map["a" := ListItem(false, 1)])];
    ItemAdded(limits);
    FetchesFirst(limits);
    OthersMark(false, polls, map[], map[], true, limits);
    SixSecondsLater(true, polls, map[], map[], limits);
    FetchesSecond(limits);
  }

  /** A mark six seconds old: the user marks `a` read when nothing has been listed yet, another client
      marks it unread in the same second, and six seconds later the first list is fetched in no time. */
  lemma OldMarkReachable(limits: Limits)
    ensures Reachable(FirstList(false, 7, map["a" := true], map["a" := 1]), limits)
  {
    hide Reachable;
    var cached: map<Id, bool>, marks: map<Id, int> := map["a" := true], map["a" := 1];
    ItemAdded(limits);
    UserMarks(limits);
    OthersMark(true, map[], cached, marks, false, limits);
    SixSecondsLater(false, map[], cached, marks, limits);
    var mid := TwoItems(false, map[], cached, marks);
    var next := TwoItems(false, map[0 := ItemPoll(7, map[])], cached, marks);
    StepTo(mid, StartItems(0), next, limits);
    assert PageOf(next, {"a", "b"}) == map["a" := ListItem(false, 1), "b" := ListItem(false, 7)];
    assert map[] + PageOf(next, {"a", "b"}) == map["a" := ListItem(false, 1), "b" := ListItem(false, 7)];
    StepTo(next, ItemsPage(0, {"a", "b"}), FirstList(false, 7, cached, marks), limits);
  }

  /** The list has arrived and set the anchor to the second second. */
  ghost function ListArrived(rowA: bool, cached: map<Id, bool>, marks: map<Id, int>, reading: Option<ReadPoll>): System
  {
    System(7, map["a" := 1, "b" := 7], map["a" := ReadRow(rowA, 1), "b" := ReadRow(false, 7)], map[],
           map[0 := map["a" := false, "b" := false]], Some(2), cached, reading, marks)
  }

  lemma ListArrives(rowA: bool, start: int, cached: map<Id, bool>, marks: map<Id, int>, limits: Limits)
    requires var s := FirstList(rowA, start, cached, marks); Reachable(s, limits) && AllYounger(s, limits)
    ensures Reachable(ListArrived(rowA, cached, marks, None), limits)
  {
    hide Reachable;
    var s := FirstList(rowA, start, cached, marks);
    var fetched := s.polls[0].fetched;
    assert fetched["b"].createdAt in CreationStamps(fetched);
    assert Latest(CreationStamps(fetched), 0) == 7;
    assert Flags(fetched) == map["a" := false, "b" := false];
    assert ListAfter(s, 0, true) == map["a" := false, "b" := false] && s.polls - {0} == map[];
    hide Latest, CreationStamps, ListAfter;
    StepTo(s, EndItems(0, true), ListArrived(rowA, cached, marks, None), limits);
  }

  /** No poll returns the rows of the first second any more: the flag of `a` stays as it was shown. */
  lemma FirstListGoesWrong(rowA: bool, start: int, cached: map<Id, bool>, marks: map<Id, int>, limits: Limits)
    requires var s := FirstList(rowA, start, cached, marks); Reachable(s, limits) && AllYounger(s, limits)
    requires Shown(cached, "a", false) != rowA
    ensures !AlwaysSynced(limits)
  {
    hide Reachable, AlwaysSynced, AllYounger;
    ListArrives(rowA, start, cached, marks, limits);
    var arrived := ListArrived(rowA, cached, marks, None);
    var started := ListArrived(rowA, cached, marks, Some(ReadPoll(2, cached, None, true)));
    var answered := ListArrived(rowA, cached, marks, Some(ReadPoll(2, cached, Some(arrived.rows), true)));
    StepTo(arrived, StartReads, started, limits);
    StepTo(started, SnapshotReads, answered, limits);
    assert Recent(answered.rows, 2) == map["b" := false];
    var ended := Apply(answered, EndReads, limits);
    hide Apply, NextAnchor;
    assert !Synced(ended) by {
      assert "a" in ended.listed[0] && Shown(ended.cached, "a", false) != rowA;
    }
    NotAlwaysSynced(answered, limits);
  }

  lemma NotAlwaysSynced(end: System, limits: Limits)
    requires Reachable(end, limits) && EndsQuietly(end) && !Synced(Apply(end, EndReads, limits))
    ensures !AlwaysSynced(limits)
  {
    hide Synced, Apply;
    var steps :| Execute(AtStart(), steps, limits) == Some(end);
    assert Initial(AtStart());
  }

  /** The overlap of five seconds is exactly what the guarantee needs: it holds in all runs if and
      only if, when the first list sets the anchor, no poll of the item list in flight and no mark
      still cached is older than five seconds. */
  lemma OverlapIsExact(limits: Limits)
    ensures AlwaysSynced(limits) <==> limits.poll <= OVERLAP && limits.mark <= OVERLAP
  {
    if limits.poll <= OVERLAP && limits.mark <= OVERLAP {
      forall s, steps | Initial(s) && Execute(s, steps, limits).Some? && EndsQuietly(Execute(s, steps, limits).value)
        ensures Synced(Apply(Execute(s, steps, limits).value, EndReads, limits))
      {
        InitialInv(s);
        RunKeepsInv(s, steps, limits);
        QuietPollSyncs(Execute(s, steps, limits).value, limits);
      }
    } else if limits.poll > OVERLAP {
      LongPollReachable(limits);
      FirstListGoesWrong(true, 1, map[], map[], limits);
    } else {
      OldMarkReachable(limits);
      FirstListGoesWrong(false, 7, map["a" := true], map["a" := 1], limits);
    }
  }

  /** An item listed in the second in which it was created, and a poll of the read states in flight. */
  ghost function Listed(rowA: bool, anchor: int, cached: map<Id, bool>, reading: Option<ReadPoll>): System {
    System(1, map["a" := 1], map["a" := ReadRow(rowA, 1)], map[], map[0 := map["a" := false]], Some(anchor), cached,
           reading, map[])
  }

  lemma ListedReachable(limits: Limits)
    ensures Reachable(Listed(false, -4, map[], None), limits)
  {
    hide Reachable;
    ItemAdded(limits);
    FetchesFirst(limits);
    var fetched := map["a" := ListItem(false, 1)];
    var mid := OneItem(false, map[0 := ItemPoll(1, fetched)], map[], map[]);
    assert fetched["a"].createdAt in CreationStamps(fetched);
    assert Latest(CreationStamps(fetched), 0) == 1;
    assert Flags(fetched) == map["a" := false];
    assert ListAfter(mid, 0, true) == map["a" := false] && mid.polls - {0} == map[];
    hide Latest, CreationStamps, ListAfter;
    StepTo(mid, EndItems(0, true), Listed(false, -4, map[], None), limits);
  }

  /** A mark lost in the cache: the poll has its answer when the user marks an item, and its end
      overwrites the mark. The server has it, and the next poll brings it back. */
  lemma MarkDuringPollIsLost(limits: Limits) returns (end: System)
    ensures Reachable(end, limits) && end.reading.None? && !Synced(end)
    ensures limits.poll <= OVERLAP && limits.mark <= OVERLAP ==> Synced(Polled(end, limits))
  {
    hide Reachable;
    ListedReachable(limits);
    var listed := Listed(false, -4, map[], None);
    var started := Listed(false, -4, map[], Some(ReadPoll(-4, map[], None, true)));
    var answered := Listed(false, -4, map[], Some(ReadPoll(-4, map[], Some(listed.rows), true)));
    var marked := Listed(true, -4, map["a" := true], Some(ReadPoll(-4, map[], Some(listed.rows), false)));
    StepTo(listed, StartReads, started, limits);
    StepTo(started, SnapshotReads, answered, limits);
    assert Marked(listed.rows, {"a"}, true, 1) == map["a" := ReadRow(true, 1)];
    assert map[] + FlagAll({"a"}, true) == map["a" := true];
    StepTo(answered, LocalMark({"a"}, true), marked, limits);
    end := Apply(marked, EndReads, limits);
    StepTo(marked, EndReads, end, limits);
    assert Recent(listed.rows, -4) == map["a" := false];
    assert !Synced(end) by {
      assert "a" in end.listed[0] && end.cached["a"] == false;
    }
    if limits.poll <= OVERLAP && limits.mark <= OVERLAP {
      ReachableRepairs(end, limits);
    }
  }

  lemma ReachableRepairs(end: System, limits: Limits)
    requires Reachable(end, limits) && end.reading.None? && limits.poll <= OVERLAP && limits.mark <= OVERLAP
    ensures Synced(Polled(end, limits))
  {
    var steps :| Execute(AtStart(), steps, limits) == Some(end);
    NextPollRepairs(AtStart(), steps, limits);
  }
}
