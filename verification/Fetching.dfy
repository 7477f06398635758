/** At most one fetch per feed, cmd/feed-reader/fetcher_service.go:45-98, 220-247: any number of
    background tasks and synchronous calls claim feeds in a shared concurrent map. */
module Fetching {
  import opened Wrappers

  /** Before the claim; between the claim and the end of the fetch; with the result written but the
      claim still held; gone. */
  datatype Phase = Starting | Holding | Releasing | Gone

  /** A goroutine: the feed it is to fetch, and the call and position its result belongs to, if any. */
  datatype Process = Process(feed: string, phase: Phase, slot: Option<(nat, nat)>)

  datatype FetchResult = FetchResult(feed: string, success: bool)

  /** A synchronous call: the listed feeds, the goroutine of each, and the results slice. */
  datatype Call = Call(feeds: seq<string>, workers: seq<nat>, results: seq<Option<FetchResult>>)

  datatype State = State(fetching: set<string>, processes: map<nat, Process>, calls: map<nat, Call>)

  datatype Step =
    | Background(pid: nat, feed: string)
    | CallSync(call: nat, feeds: seq<string>, pids: seq<nat>)
    | Claim(pid: nat)
    | Finish(pid: nat, success: bool)
    | Release(pid: nat)

  ghost predicate InPhase(s: State, pid: nat, phase: Phase) {
    pid in s.processes && s.processes[pid].phase == phase
  }

  ghost predicate Enabled(s: State, step: Step) {
    match step
    case Background(pid, _) => pid !in s.processes
    case CallSync(call, feeds, pids) =>
      && call !in s.calls && |pids| == |feeds|
      && (forall i :: 0 <= i < |pids| ==> pids[i] !in s.processes)
      && (forall i, j :: 0 <= i < j < |pids| ==> pids[i] != pids[j])
    case Claim(pid) => InPhase(s, pid, Starting)
    case Finish(pid, _) => InPhase(s, pid, Holding)
    case Release(pid) => InPhase(s, pid, Releasing)
  }

  ghost function Workers(call: nat, feeds: seq<string>, pids: seq<nat>, n: nat): map<nat, Process>
    requires n <= |feeds| == |pids|
  {
    if n == 0 then map[]
    else Workers(call, feeds, pids, n - 1)[pids[n - 1] := Process(feeds[n - 1], Starting, Some((call, n - 1)))]
  }

  /** Writes a result at the process's own position, if it has one. */
  ghost function Answered(s: State, p: Process, success: bool): map<nat, Call> {
    match p.slot
    case None => s.calls
    case Some((call, i)) =>
      if call in s.calls && i < |s.calls[call].results| then
        s.calls[call := s.calls[call].(results := s.calls[call].results[i := Some(FetchResult(p.feed, success))])]
      else s.calls
  }

  ghost function Apply(s: State, step: Step): State
    requires Enabled(s, step)
  {
    match step
    case Background(pid, feed) => s.(processes := s.processes[pid := Process(feed, Starting, None)])
    case CallSync(call, feeds, pids) =>
      s.(processes := s.processes + Workers(call, feeds, pids, |feeds|),
         calls := s.calls[call := Call(feeds, pids, seq(|feeds|, _ => None))])
    case Claim(pid) =>
      var p := s.processes[pid];
      if p.feed in s.fetching then  // already in progress: the result says so and the goroutine ends
        s.(processes := s.processes[pid := p.(phase := Gone)], calls := Answered(s, p, false))
      else s.(fetching := s.fetching + {p.feed}, processes := s.processes[pid := p.(phase := Holding)])
    case Finish(pid, success) =>
      var p := s.processes[pid];
      s.(processes := s.processes[pid := p.(phase := Releasing)], calls := Answered(s, p, success))
    case Release(pid) =>
      var p := s.processes[pid];
      s.(fetching := s.fetching - {p.feed}, processes := s.processes[pid := p.(phase := Gone)])
  }

  ghost predicate ValidRun(s: State, run: seq<Step>)
    decreases |run|
  {
    run == [] || (Enabled(s, run[0]) && ValidRun(Apply(s, run[0]), run[1..]))
  }

  ghost function Execute(s: State, run: seq<Step>): State
    requires ValidRun(s, run)
    decreases |run|
  {
    if run == [] then s else Execute(Apply(s, run[0]), run[1..])
  }

  // ----- claims

  ghost predicate Holds(s: State, pid: nat) {
    pid in s.processes && (s.processes[pid].phase == Holding || s.processes[pid].phase == Releasing)
  }

  ghost predicate Held(s: State, feed: string) {
    exists pid :: Holds(s, pid) && s.processes[pid].feed == feed
  }

  /** The map of feeds in progress holds exactly the feeds with a holder, and no feed has two. */
  ghost predicate Exclusive(s: State) {
    && (forall feed :: feed in s.fetching ==> Held(s, feed))
    && (forall pid :: Holds(s, pid) ==> s.processes[pid].feed in s.fetching)
    && (forall p, q :: Holds(s, p) && Holds(s, q) && s.processes[p].feed == s.processes[q].feed ==> p == q)
  }

  ghost predicate Answers(p: Process) {
    p.phase == Releasing || p.phase == Gone
  }

  /** Position `i` of a call belongs to its own goroutine, and is filled once that has an answer. */
  ghost predicate SlotOk(s: State, call: nat, i: nat) {
    call in s.calls && i < |s.calls[call].feeds| == |s.calls[call].workers| == |s.calls[call].results| &&
    var c := s.calls[call];
    && c.workers[i] in s.processes
    && var p := s.processes[c.workers[i]];
    && p.feed == c.feeds[i] && p.slot == Some((call, i))
    && (c.results[i].Some? <==> Answers(p))
    && (c.results[i].Some? ==> c.results[i].value.feed == c.feeds[i])
  }

  ghost predicate CallOk(s: State, call: nat)
    requires call in s.calls
  {
    var c := s.calls[call];
    |c.feeds| == |c.workers| == |c.results| && forall i: nat :: i < |c.feeds| ==> SlotOk(s, call, i)
  }

  /** A goroutine with a position is the worker of that position. */
  ghost predicate OwnSlot(s: State, pid: nat)
    requires pid in s.processes
  {
    match s.processes[pid].slot
    case None => true
    case Some((call, i)) =>
      call in s.calls && i < |s.calls[call].workers| && s.calls[call].workers[i] == pid
  }

  ghost predicate CallsOk(s: State) {
    && (forall call :: call in s.calls ==> CallOk(s, call))
    && (forall pid :: pid in s.processes ==> OwnSlot(s, pid))
  }

  ghost predicate Inv(s: State) {
    Exclusive(s) && CallsOk(s)
  }

  ghost function Start(): State {
    State({}, map[], map[])
  }

  lemma {:induction false} WorkersAre(call: nat, feeds: seq<string>, pids: seq<nat>, n: nat)
    requires n <= |feeds| == |pids|
    requires forall i, j :: 0 <= i < j < |pids| ==> pids[i] != pids[j]
    ensures forall i :: 0 <= i < n ==>
              (pids[i] in Workers(call, feeds, pids, n)
               && Workers(call, feeds, pids, n)[pids[i]] == Process(feeds[i], Starting, Some((call, i))))
    ensures forall pid :: pid in Workers(call, feeds, pids, n) ==> exists i :: 0 <= i < n && pids[i] == pid
  {
    if n > 0 {
      WorkersAre(call, feeds, pids, n - 1);
    }
  }

  // ----- Exclusive, step by step

  /** The same goroutines hold the same feeds. */
  lemma SameHolders(s: State, s': State)
    requires Exclusive(s) && s'.fetching == s.fetching
    requires forall pid :: Holds(s', pid) <==> Holds(s, pid)
    requires forall pid :: Holds(s, pid) ==> pid in s'.processes && s'.processes[pid].feed == s.processes[pid].feed
    ensures Exclusive(s')
  {
    forall feed | feed in s'.fetching ensures Held(s', feed) {
      var pid :| Holds(s, pid) && s.processes[pid].feed == feed;
      assert Holds(s', pid);
    }
  }

  lemma ClaimKeepsExclusive(s: State, s': State, pid: nat)
    requires Exclusive(s) && pid in s.processes && !Holds(s, pid) && Holds(s', pid)
    requires forall q :: q != pid ==> (Holds(s', q) <==> Holds(s, q))
    requires forall q :: q in s.processes ==> q in s'.processes && s'.processes[q].feed == s.processes[q].feed
    requires s.processes[pid].feed !in s.fetching && s'.fetching == s.fetching + {s.processes[pid].feed}
    ensures Exclusive(s')
  {
    forall feed | feed in s'.fetching ensures Held(s', feed) {
      if feed in s.fetching {
        var q :| Holds(s, q) && s.processes[q].feed == feed;
        assert Holds(s', q);
      } else {
        assert Holds(s', pid);
      }
    }
  }

  lemma ReleaseKeepsExclusive(s: State, s': State, pid: nat)
    requires Exclusive(s) && Holds(s, pid) && !Holds(s', pid)
    requires forall q :: q != pid ==> (Holds(s', q) <==> Holds(s, q))
    requires forall q :: q in s.processes ==> q in s'.processes && s'.processes[q].feed == s.processes[q].feed
    requires s'.fetching == s.fetching - {s.processes[pid].feed}
    ensures Exclusive(s')
  {
    forall feed | feed in s'.fetching ensures Held(s', feed) {
      var q :| Holds(s, q) && s.processes[q].feed == feed;
      assert Holds(s', q);
    }
  }

  lemma StepKeepsExclusive(s: State, step: Step)
    requires Exclusive(s) && Enabled(s, step)
    ensures Exclusive(Apply(s, step))
  {
    var s' := Apply(s, step);
    if step.CallSync? {
      WorkersAre(step.call, step.feeds, step.pids, |step.feeds|);
    }
    hide Workers, Answered, Exclusive;
    if step.Claim? && s.processes[step.pid].feed !in s.fetching {
      ClaimKeepsExclusive(s, s', step.pid);
    } else if step.Release? {
      ReleaseKeepsExclusive(s, s', step.pid);
    } else {
      SameHolders(s, s');
    }
  }

  // ----- calls, step by step

  lemma BackgroundKeepsCalls(s: State, pid: nat, feed: string)
    requires Inv(s) && pid !in s.processes
    ensures CallsOk(Apply(s, Background(pid, feed)))
  {
    var s' := Apply(s, Background(pid, feed));
    OthersStay(s, s');
    hide Exclusive;
    forall q | q in s'.processes ensures OwnSlot(s', q) {
      assert q in s.processes ==> OwnSlot(s, q);
    }
  }

  lemma CallSyncKeepsCalls(s: State, call: nat, feeds: seq<string>, pids: seq<nat>)
    requires Inv(s) && Enabled(s, CallSync(call, feeds, pids))
    ensures CallsOk(Apply(s, CallSync(call, feeds, pids)))
  {
    var s' := Apply(s, CallSync(call, feeds, pids));
    WorkersAre(call, feeds, pids, |feeds|);
    hide Workers;
    OthersStay(s, s');
    hide Exclusive;
    assert forall i: nat :: i < |feeds| ==> SlotOk(s', call, i);
    hide SlotOk;
    forall pid | pid in s'.processes ensures OwnSlot(s', pid) {
      assert pid in s.processes ==> OwnSlot(s, pid);
    }
  }

  /** Calls are not affected by new processes and new calls. */
  lemma OthersStay(s: State, s': State)
    requires Inv(s) && forall pid :: pid in s.processes ==> pid in s'.processes && s'.processes[pid] == s.processes[pid]
    requires forall call :: call in s.calls ==> call in s'.calls && s'.calls[call] == s.calls[call]
    ensures forall call :: call in s.calls ==> CallOk(s', call)
  {
    hide Exclusive;
    forall call | call in s.calls ensures CallOk(s', call) {
      assert CallOk(s, call);
      forall i: nat | i < |s.calls[call].feeds| ensures SlotOk(s', call, i) {
        assert SlotOk(s, call, i);
      }
    }
  }

  /** Answering fills the process's own position and no other. */
  lemma AnswerKeepsCalls(s: State, s': State, pid: nat, success: bool)
    requires Inv(s) && pid in s.processes && !Answers(s.processes[pid])
    requires s'.calls == Answered(s, s.processes[pid], success)
    requires exists phase :: (phase == Releasing || phase == Gone)
                             && s'.processes == s.processes[pid := s.processes[pid].(phase := phase)]
    ensures CallsOk(s')
  {
    hide Exclusive;
    assert OwnSlot(s, pid);
    forall call | call in s'.calls ensures CallOk(s', call) {
      assert CallOk(s, call);
      forall i: nat | i < |s.calls[call].feeds| ensures SlotOk(s', call, i) {
        assert SlotOk(s, call, i);
      }
    }
    forall q | q in s'.processes ensures OwnSlot(s', q) {
      assert OwnSlot(s, q);
    }
  }

  lemma QuietMoveKeepsCalls(s: State, s': State, pid: nat, phase: Phase)
    requires Inv(s) && pid in s.processes && s'.calls == s.calls
    requires s'.processes == s.processes[pid := s.processes[pid].(phase := phase)]
    requires Answers(s.processes[pid]) <==> Answers(s'.processes[pid])
    ensures CallsOk(s')
  {
    hide Exclusive;
    forall call | call in s'.calls ensures CallOk(s', call) {
      assert CallOk(s, call);
      forall i: nat | i < |s.calls[call].feeds| ensures SlotOk(s', call, i) {
        assert SlotOk(s, call, i);
      }
    }
    forall q | q in s'.processes ensures OwnSlot(s', q) {
      assert OwnSlot(s, q);
    }
  }

  lemma StepKeepsInv(s: State, step: Step)
    requires Inv(s) && Enabled(s, step)
    ensures Inv(Apply(s, step))
  {
    var s' := Apply(s, step);
    StepKeepsExclusive(s, step);
    match step {
      case Background(pid, feed) => BackgroundKeepsCalls(s, pid, feed);
      case CallSync(call, feeds, pids) => CallSyncKeepsCalls(s, call, feeds, pids);
      case Claim(pid) =>
        if s.processes[pid].feed in s.fetching {
          AnswerKeepsCalls(s, s', pid, false);
        } else {
          QuietMoveKeepsCalls(s, s', pid, Holding);
        }
      case Finish(pid, success) =>
        AnswerKeepsCalls(s, s', pid, success);
      case Release(pid) =>
        QuietMoveKeepsCalls(s, s', pid, Gone);
    }
  }

  lemma {:induction false} RunKeepsInv(s: State, run: seq<Step>)
    requires Inv(s) && ValidRun(s, run)
    ensures Inv(Execute(s, run))
    decreases |run|
  {
    hide Inv, Apply;
    if run != [] {
      StepKeepsInv(s, run[0]);
      RunKeepsInv(Apply(s, run[0]), run[1..]);
    }
  }

  /** Under every interleaving, a feed is being fetched by at most one goroutine, and is marked as in
      progress exactly while one holds it. */
  lemma OneFetchPerFeed(run: seq<Step>)
    requires ValidRun(Start(), run)
    ensures Exclusive(Execute(Start(), run))
  {
    RunKeepsInv(Start(), run);
  }

  /** When all its goroutines are gone, the call returns one result for each listed feed, at the
      feed's own index. */
  lemma CallReturnsAll(run: seq<Step>, call: nat)
    requires ValidRun(Start(), run)
    requires var s := Execute(Start(), run);
             call in s.calls
             && forall i :: 0 <= i < |s.calls[call].workers| ==> InPhase(s, s.calls[call].workers[i], Gone)
    ensures var c := Execute(Start(), run).calls[call];
            |c.results| == |c.feeds|
            && forall i: nat :: i < |c.feeds| ==> c.results[i].Some? && c.results[i].value.feed == c.feeds[i]
  {
    RunKeepsInv(Start(), run);
    var s := Execute(Start(), run);
    hide Execute;
    assert CallOk(s, call);
    var c := s.calls[call];
    forall i: nat | i < |c.feeds| ensures c.results[i].Some? && c.results[i].value.feed == c.feeds[i] {
      assert SlotOk(s, call, i) && InPhase(s, c.workers[i], Gone);
    }
  }

  /** In every reachable state, a background fetch that is started gets the feed exactly if nobody holds
      it, and so does a goroutine of a call. */
  lemma ClaimNeedsFreeFeed(run: seq<Step>, pid: nat)
    requires ValidRun(Start(), run) && InPhase(Execute(Start(), run), pid, Starting)
    ensures var s := Execute(Start(), run);
            Holds(Apply(s, Claim(pid)), pid) <==> !Held(s, s.processes[pid].feed)
  {
    RunKeepsInv(Start(), run);
    hide Execute, CallsOk;
  }

  lemma BackgroundStarts(s: State, pid: nat, feed: string)
    requires Enabled(s, Background(pid, feed))
    ensures var s' := Apply(s, Background(pid, feed));
            InPhase(s', pid, Starting) && s'.processes[pid].feed == feed
  {}

  // ----- what a result says

  lemma {:induction false} ProcessStays(s: State, run: seq<Step>, pid: nat)
    requires ValidRun(s, run) && pid in s.processes && Inv(s)
    ensures pid in Execute(s, run).processes && Execute(s, run).processes[pid].slot == s.processes[pid].slot
    decreases |run|
  {
    if run != [] {
      var step := run[0];
      StepKeepsInv(s, step);
      if step.CallSync? {
        WorkersAre(step.call, step.feeds, step.pids, |step.feeds|);
      }
      hide Inv, Workers, Answered;
      ProcessStays(Apply(s, step), run[1..], pid);
    }
  }

  ghost predicate Finishes(step: Step, pid: nat) {
    step.Finish? && step.pid == pid
  }

  /** A position of a call in two states. */
  ghost predicate SamePlace(s: State, s': State, call: nat, i: nat) {
    && call in s.calls && call in s'.calls && i < |s.calls[call].feeds| && CallOk(s, call) && CallOk(s', call)
    && s'.calls[call].feeds == s.calls[call].feeds && s'.calls[call].workers == s.calls[call].workers
  }

  lemma StepKeepsPlace(s: State, step: Step, call: nat, i: nat)
    requires Inv(s) && Enabled(s, step) && call in s.calls && i < |s.calls[call].feeds|
    ensures Inv(Apply(s, step)) && SamePlace(s, Apply(s, step), call, i)
  {
    StepKeepsInv(s, step);
    hide Exclusive, Workers, CallOk, OwnSlot, InPhase;
  }

  /** A result is the answer of the goroutine it belongs to, successful if that finishes so. */
  ghost predicate ResultFollows(step: Step, before: Call, after: Call, i: nat)
    requires i < |before.workers| == |before.results| == |after.results|
  {
    && (before.results[i].Some? ==> after.results[i] == before.results[i] && !Finishes(step, before.workers[i]))
    && (before.results[i].None? && Finishes(step, before.workers[i]) ==>
          after.results[i].Some? && after.results[i].value.success == step.success)
    && (before.results[i].None? && !Finishes(step, before.workers[i]) && after.results[i].Some? ==>
          !after.results[i].value.success)
  }

  lemma StepAtPlace(s: State, step: Step, call: nat, i: nat)
    requires Inv(s) && Enabled(s, step) && call in s.calls && SlotOk(s, call, i)
    requires var s' := Apply(s, step); SamePlace(s, s', call, i)
    ensures ResultFollows(step, s.calls[call], Apply(s, step).calls[call], i)
  {
    if (step.Claim? || step.Finish?) && s.processes[step.pid].slot.Some? {
      assert OwnSlot(s, step.pid);
    }
    hide Inv, Workers, OwnSlot;
  }

  lemma {:induction false} ResultStays(s: State, run: seq<Step>, call: nat, i: nat)
    requires Inv(s) && ValidRun(s, run) && call in s.calls && i < |s.calls[call].feeds| == |s.calls[call].results|
    requires s.calls[call].results[i].Some? && i < |s.calls[call].workers|
    ensures var end := Execute(s, run);
            SamePlace(s, end, call, i) && end.calls[call].results[i] == s.calls[call].results[i]
    ensures forall step :: step in run ==> !Finishes(step, s.calls[call].workers[i])
    decreases |run|
  {
    assert CallOk(s, call) && SlotOk(s, call, i);
    if run != [] {
      hide Inv, Apply, CallOk, Enabled, SlotOk;
      StepKeepsPlace(s, run[0], call, i);
      StepAtPlace(s, run[0], call, i);
      assert CallOk(Apply(s, run[0]), call);
      ResultStays(Apply(s, run[0]), run[1..], call, i);
      assert run == [run[0]] + run[1..];
    }
  }

  ghost predicate Tells(s: State, run: seq<Step>, call: nat, i: nat)
    requires call in s.calls && i < |s.calls[call].workers| == |s.calls[call].results|
  {
    var c := s.calls[call];
    c.results[i].Some? ==> (c.results[i].value.success <==> Finish(c.workers[i], true) in run)
  }

  lemma {:induction false} AnswerTells(s: State, run: seq<Step>, call: nat, i: nat)
    requires Inv(s) && ValidRun(s, run) && call in s.calls
    requires i < |s.calls[call].feeds| == |s.calls[call].workers| == |s.calls[call].results|
    requires s.calls[call].results[i].None?
    ensures SamePlace(s, Execute(s, run), call, i) && Tells(Execute(s, run), run, call, i)
    decreases |run|
  {
    assert CallOk(s, call) && SlotOk(s, call, i);
    if run != [] {
      hide Inv, Apply, CallOk, Enabled, SlotOk;
      var s' := Apply(s, run[0]);
      StepKeepsPlace(s, run[0], call, i);
      StepAtPlace(s, run[0], call, i);
      assert CallOk(s', call) && run == [run[0]] + run[1..];
      if s'.calls[call].results[i].Some? {
        ResultStays(s', run[1..], call, i);
        assert forall step :: step in run[1..] ==> step != Finish(s.calls[call].workers[i], true);
      } else {
        AnswerTells(s', run[1..], call, i);
      }
    }
  }

  /** No goroutine of a call exists before it. */
  lemma NewWorkers(s: State, run: seq<Step>, call: nat, i: nat)
    requires Inv(s) && ValidRun(s, run) && call !in s.calls && call in Execute(s, run).calls
    requires var end := Execute(s, run); Inv(end) && i < |end.calls[call].workers|
    ensures Execute(s, run).calls[call].workers[i] !in s.processes
  {
    var end := Execute(s, run);
    var pid := end.calls[call].workers[i];
    assert CallOk(end, call) && SlotOk(end, call, i);
    if pid in s.processes {
      assert OwnSlot(s, pid);
      ProcessStays(s, run, pid);
    }
  }

  lemma {:induction false} CallStays(s: State, run: seq<Step>, call: nat)
    requires ValidRun(s, run) && call in s.calls
    ensures call in Execute(s, run).calls && Execute(s, run).calls[call].workers == s.calls[call].workers
    decreases |run|
  {
    if run != [] {
      hide InPhase, Workers;
      CallStays(Apply(s, run[0]), run[1..], call);
    }
  }

  lemma {:induction false} CallTells(s: State, run: seq<Step>, call: nat, i: nat)
    requires Inv(s) && ValidRun(s, run) && Inv(Execute(s, run)) && call !in s.calls && call in Execute(s, run).calls
    requires i < |Execute(s, run).calls[call].workers| == |Execute(s, run).calls[call].results|
    ensures Tells(Execute(s, run), run, call, i)
    decreases |run|
  {
    var step := run[0];
    var s' := Apply(s, step);
    NewWorkers(s, run, call, i);
    StepKeepsInv(s, step);
    assert run == [step] + run[1..];
    if call in s'.calls {
      assert CallOk(s', call);
      CallStays(s', run[1..], call);
      hide Inv, CallOk, Apply;
      CalledNow(s, step, call);
      AnswerTells(s', run[1..], call, i);
    } else {
      hide Inv, Apply;
      CallTells(s', run[1..], call, i);
    }
  }

  lemma CalledNow(s: State, step: Step, call: nat)
    requires Enabled(s, step) && call !in s.calls && call in Apply(s, step).calls
    ensures step.CallSync? && forall i :: 0 <= i < |Apply(s, step).calls[call].results| ==>
              Apply(s, step).calls[call].results[i].None?
  {}

  /** Under every interleaving, a call's result for a feed is a success exactly if the call's own
      goroutine for it has claimed the feed and finished the fetch successfully. */
  lemma ResultsTell(run: seq<Step>, call: nat, i: nat)
    requires ValidRun(Start(), run) && call in Execute(Start(), run).calls
    requires i < |Execute(Start(), run).calls[call].feeds|
    ensures var c := Execute(Start(), run).calls[call];
            && |c.feeds| == |c.workers| == |c.results|
            && (c.results[i].Some? ==>
                  c.results[i].value.feed == c.feeds[i]
                  && (c.results[i].value.success <==> Finish(c.workers[i], true) in run))
  {
    RunKeepsInv(Start(), run);
    var end := Execute(Start(), run);
    hide Execute;
    assert CallOk(end, call) && SlotOk(end, call, i);
    CallTells(Start(), run, call, i);
  }

  /** A result is written only where there is none yet. */
  lemma WritesOnce(run: seq<Step>, pid: nat)
    requires ValidRun(Start(), run)
    requires var s := Execute(Start(), run);
             pid in s.processes && !Answers(s.processes[pid]) && s.processes[pid].slot.Some?
    ensures var s := Execute(Start(), run);
            var (call, i) := s.processes[pid].slot.value;
            call in s.calls && i < |s.calls[call].results| && s.calls[call].results[i].None?
  {
    RunKeepsInv(Start(), run);
    var s := Execute(Start(), run);
    hide Execute;
    assert OwnSlot(s, pid);
    var (call, i) := s.processes[pid].slot.value;
    assert CallOk(s, call) && SlotOk(s, call, i);
  }
}
