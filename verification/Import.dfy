/** Importing feeds from OPML, cmd/feed-reader/opml_importer.go:20-198: concurrent workers classify the
    entries, then one transaction creates the feeds, their tags and the associations. */
module Import {
  import opened Opml

  /** Where the worker of an entry stands. `Claimed` is past the map of URLs, `Checked` has found no
      such feed in the database; the other four but `Waiting` are final. */
  datatype Phase = Waiting | Claimed | Checked | Repeated | Skipped | Failed | Fetched

  /** `known` are the URLs of the feeds in the database, which others may add to at any time; `checked`
      records for each entry whether its URL was absent when the worker looked. */
  datatype State = State(phases: seq<Phase>, urls: set<string>, known: set<string>, absent: set<nat>,
                         skipped: nat, failed: seq<string>, fetched: seq<nat>)

  datatype Step =
    | Claim(entry: nat)
    | Check(entry: nat, error: bool)
    | Fetch(entry: nat, ok: bool)
    | OthersAdd(url: string)

  ghost predicate At(s: State, i: nat, p: Phase) {
    i < |s.phases| && s.phases[i] == p
  }

  ghost predicate Enabled(s: State, step: Step) {
    match step
    case Claim(i) => At(s, i, Waiting)
    case Check(i, _) => At(s, i, Claimed)
    case Fetch(i, _) => At(s, i, Checked)
    case OthersAdd(_) => true
  }

  ghost function Moved(s: State, i: nat, p: Phase): State
    requires i < |s.phases|
  {
    s.(phases := s.phases[i := p])
  }

  ghost function Apply(entries: seq<Feed>, s: State, step: Step): State
    requires |s.phases| == |entries| && Enabled(s, step)
  {
    match step
    case Claim(i) =>
      if entries[i].url in s.urls then Moved(s, i, Repeated)
      else Moved(s, i, Claimed).(urls := s.urls + {entries[i].url})
    case Check(i, error) =>
      if error then Moved(s, i, Failed).(failed := s.failed + [entries[i].url])
      else if entries[i].url in s.known then Moved(s, i, Skipped).(skipped := s.skipped + 1)
      else Moved(s, i, Checked).(absent := s.absent + {i})
    case Fetch(i, ok) =>
      if ok then Moved(s, i, Fetched).(fetched := s.fetched + [i])
      else Moved(s, i, Failed).(failed := s.failed + [entries[i].url])
    case OthersAdd(url) => s.(known := s.known + {url})
  }

  ghost predicate ValidRun(entries: seq<Feed>, s: State, run: seq<Step>)
    requires |s.phases| == |entries|
    decreases |run|
  {
    run == [] || (Enabled(s, run[0]) && ValidRun(entries, Apply(entries, s, run[0]), run[1..]))
  }

  ghost function Execute(entries: seq<Feed>, s: State, run: seq<Step>): (end: State)
    requires |s.phases| == |entries| && ValidRun(entries, s, run)
    ensures |end.phases| == |entries|
    decreases |run|
  {
    if run == [] then s else Execute(entries, Apply(entries, s, run[0]), run[1..])
  }

  ghost function Start(entries: seq<Feed>, known: set<string>): State {
    State(seq(|entries|, _ => Waiting), {}, known, {}, 0, [], [])
  }

  // ----- counting

  ghost function Count(phases: seq<Phase>, p: Phase): nat {
    if phases == [] then 0
    else Count(phases[..|phases| - 1], p) + if phases[|phases| - 1] == p then 1 else 0
  }

  lemma {:induction false} CountMoves(phases: seq<Phase>, i: nat, q: Phase, p: Phase)
    requires i < |phases|
    ensures Count(phases[i := q], p) ==
            Count(phases, p) - (if phases[i] == p then 1 else 0) + if q == p then 1 else 0
    decreases |phases|
  {
    var last := |phases| - 1;
    if i == last {
      assert phases[i := q][..last] == phases[..last];
    } else {
      assert phases[i := q][..last] == phases[..last][i := q];
      CountMoves(phases[..last], i, q, p);
    }
  }

  lemma {:induction false} CountsAddUp(phases: seq<Phase>)
    ensures Count(phases, Waiting) + Count(phases, Claimed) + Count(phases, Checked) + Count(phases, Repeated)
            + Count(phases, Skipped) + Count(phases, Failed) + Count(phases, Fetched) == |phases|
    decreases |phases|
  {
    if phases != [] {
      CountsAddUp(phases[..|phases| - 1]);
    }
  }

  lemma {:induction false} NoneCounted(phases: seq<Phase>, p: Phase)
    requires forall i :: 0 <= i < |phases| ==> phases[i] != p
    ensures Count(phases, p) == 0
    decreases |phases|
  {
    if phases != [] {
      NoneCounted(phases[..|phases| - 1], p);
    }
  }

  // ----- what every step keeps

  ghost predicate Counted(s: State) {
    && Count(s.phases, Skipped) == s.skipped
    && Count(s.phases, Failed) == |s.failed|
    && Count(s.phases, Fetched) == |s.fetched|
  }

  /** The worker has won its URL. */
  ghost predicate Owner(s: State, i: nat) {
    i < |s.phases| && s.phases[i] != Waiting && s.phases[i] != Repeated
  }

  ghost predicate Owned(entries: seq<Feed>, s: State, url: string) {
    exists i: nat :: i < |entries| && Owner(s, i) && entries[i].url == url
  }

  /** Each URL met so far is owned by exactly one entry. */
  ghost predicate Owners(entries: seq<Feed>, s: State)
    requires |s.phases| == |entries|
  {
    && (forall url :: url in s.urls ==> Owned(entries, s, url))
    && (forall i: nat :: Owner(s, i) ==> entries[i].url in s.urls)
    && (forall i: nat, j: nat :: Owner(s, i) && Owner(s, j) && entries[i].url == entries[j].url ==> i == j)
    && (forall i :: 0 <= i < |s.phases| && s.phases[i] == Repeated ==> entries[i].url in s.urls)
  }

  /** The list of entries to create holds each fetched entry once, and each was absent when checked. */
  ghost predicate FetchedOnes(s: State) {
    && (forall i: nat :: i in s.fetched <==> At(s, i, Fetched))
    && (forall i, j :: 0 <= i < j < |s.fetched| ==> s.fetched[i] != s.fetched[j])
    && (forall i: nat :: At(s, i, Fetched) || At(s, i, Checked) ==> i in s.absent)
  }

  ghost predicate Inv(entries: seq<Feed>, s: State) {
    |s.phases| == |entries| && Counted(s) && Owners(entries, s) && FetchedOnes(s)
  }

  lemma StepCounts(entries: seq<Feed>, s: State, step: Step)
    requires |s.phases| == |entries| && Counted(s) && Enabled(s, step)
    ensures Counted(Apply(entries, s, step))
  {
    var s' := Apply(entries, s, step);
    if !step.OthersAdd? {
      var i := step.entry;
      assert s'.phases == s.phases[i := s'.phases[i]];
      CountMoves(s.phases, i, s'.phases[i], Skipped);
      CountMoves(s.phases, i, s'.phases[i], Failed);
      CountMoves(s.phases, i, s'.phases[i], Fetched);
    }
    hide Count;
  }

  /** An entry moves on, and stays an owner or stays none. */
  lemma MoveKeepsOwners(entries: seq<Feed>, s: State, s': State, i: nat)
    requires |s.phases| == |entries| && Owners(entries, s) && i < |s.phases| && s'.urls == s.urls
    requires |s'.phases| == |s.phases| && s'.phases == s.phases[i := s'.phases[i]] && (Owner(s', i) <==> Owner(s, i))
    requires s'.phases[i] == Repeated ==> entries[i].url in s.urls
    ensures Owners(entries, s')
  {
    forall url | url in s'.urls ensures Owned(entries, s', url) {
      var k: nat :| k < |entries| && Owner(s, k) && entries[k].url == url;
      assert Owner(s', k);
    }
    assert forall k: nat :: Owner(s', k) <==> Owner(s, k);
  }

  lemma ClaimKeepsOwners(entries: seq<Feed>, s: State, s': State, i: nat)
    requires |s.phases| == |entries| && Owners(entries, s) && i < |s.phases| && s.phases[i] == Waiting
    requires s'.phases == s.phases[i := Claimed] && entries[i].url !in s.urls && s'.urls == s.urls + {entries[i].url}
    ensures Owners(entries, s')
  {
    forall url | url in s'.urls ensures Owned(entries, s', url) {
      if url in s.urls {
        var k: nat :| k < |entries| && Owner(s, k) && entries[k].url == url;
        assert Owner(s', k);
      } else {
        assert Owner(s', i);
      }
    }
    assert forall k: nat :: Owner(s', k) <==> Owner(s, k) || k == i;
  }

  lemma StepOwners(entries: seq<Feed>, s: State, step: Step)
    requires |s.phases| == |entries| && Owners(entries, s) && Enabled(s, step)
    ensures Owners(entries, Apply(entries, s, step))
  {
    var s' := Apply(entries, s, step);
    match step
    case Claim(i) =>
      if entries[i].url in s.urls {
        MoveKeepsOwners(entries, s, s', i);
      } else {
        ClaimKeepsOwners(entries, s, s', i);
      }
    case Check(i, _) => MoveKeepsOwners(entries, s, s', i);
    case Fetch(i, _) => MoveKeepsOwners(entries, s, s', i);
    case OthersAdd(_) => OwnersIgnore(entries, s, s');
  }

  lemma OwnersIgnore(entries: seq<Feed>, s: State, s': State)
    requires |s.phases| == |entries| && Owners(entries, s) && s'.phases == s.phases && s'.urls == s.urls
    ensures Owners(entries, s')
  {
    forall url | url in s'.urls ensures Owned(entries, s', url) {
      var k: nat :| k < |entries| && Owner(s, k) && entries[k].url == url;
      assert Owner(s', k);
    }
    assert forall k: nat :: Owner(s', k) <==> Owner(s, k);
  }

  lemma StepFetches(entries: seq<Feed>, s: State, step: Step)
    requires |s.phases| == |entries| && FetchedOnes(s) && Enabled(s, step)
    ensures FetchedOnes(Apply(entries, s, step))
  {
    if step.Fetch? {
      assert !At(s, step.entry, Fetched);
    }
  }

  lemma {:induction false} RunKeepsInv(entries: seq<Feed>, s: State, run: seq<Step>)
    requires Inv(entries, s) && ValidRun(entries, s, run)
    ensures Inv(entries, Execute(entries, s, run))
    decreases |run|
  {
    hide Counted, Owners, FetchedOnes;
    if run != [] {
      StepCounts(entries, s, run[0]);
      StepOwners(entries, s, run[0]);
      StepFetches(entries, s, run[0]);
      RunKeepsInv(entries, Apply(entries, s, run[0]), run[1..]);
    }
  }

  lemma StartIsInv(entries: seq<Feed>, known: set<string>)
    ensures Inv(entries, Start(entries, known))
  {
    var s := Start(entries, known);
    NoneCounted(s.phases, Skipped);
    NoneCounted(s.phases, Failed);
    NoneCounted(s.phases, Fetched);
  }

  ghost predicate Complete(s: State) {
    forall i :: 0 <= i < |s.phases| ==> s.phases[i] != Waiting && s.phases[i] != Claimed && s.phases[i] != Checked
  }

  /** The entry that decided what becomes of its URL. */
  ghost predicate Decides(entries: seq<Feed>, s: State, i: nat, url: string) {
    i < |entries| == |s.phases| && entries[i].url == url
    && (s.phases[i] == Skipped || s.phases[i] == Failed || s.phases[i] == Fetched)
  }

  /** The classification adds up, each distinct URL is decided by exactly one entry, and what is to
      be created was absent when checked and has distinct URLs. */
  ghost predicate AddsUp(entries: seq<Feed>, s: State) {
    && |entries| == |s.fetched| + s.skipped + |s.failed| + Count(s.phases, Repeated)
    && (forall k :: 0 <= k < |entries| ==> Decided(entries, s, entries[k].url))
    && (forall i: nat, j: nat, url :: Decides(entries, s, i, url) && Decides(entries, s, j, url) ==> i == j)
    && (forall k :: 0 <= k < |s.fetched| ==> s.fetched[k] < |entries| && s.fetched[k] in s.absent)
    && (forall j, k :: 0 <= j < k < |s.fetched| ==> entries[s.fetched[j]].url != entries[s.fetched[k]].url)
  }

  ghost predicate Decided(entries: seq<Feed>, s: State, url: string) {
    exists i: nat :: Decides(entries, s, i, url)
  }

  /** Under every interleaving. */
  lemma ImportAddsUp(entries: seq<Feed>, known: set<string>, run: seq<Step>)
    requires ValidRun(entries, Start(entries, known), run)
    requires Complete(Execute(entries, Start(entries, known), run))
    ensures AddsUp(entries, Execute(entries, Start(entries, known), run))
  {
    StartIsInv(entries, known);
    RunKeepsInv(entries, Start(entries, known), run);
    CompleteAddsUp(entries, Execute(entries, Start(entries, known), run));
  }

  lemma CompleteAddsUp(entries: seq<Feed>, s: State)
    requires Inv(entries, s) && Complete(s)
    ensures AddsUp(entries, s)
  {
    CountsAddUp(s.phases);
    NoneCounted(s.phases, Waiting);
    NoneCounted(s.phases, Claimed);
    NoneCounted(s.phases, Checked);
    hide Count;
    forall k | 0 <= k < |entries| ensures Decided(entries, s, entries[k].url) {
      AllDecided(entries, s, k);
    }
    forall k | 0 <= k < |s.fetched| ensures At(s, s.fetched[k], Fetched) && s.fetched[k] in s.absent {
      assert s.fetched[k] in s.fetched;
    }
    hide Complete, Owned;
    DecidersDiffer(entries, s);
    FetchedUrlsDiffer(entries, s);
  }

  lemma DecidersDiffer(entries: seq<Feed>, s: State)
    requires |s.phases| == |entries| && Owners(entries, s)
    ensures forall i: nat, j: nat, url :: Decides(entries, s, i, url) && Decides(entries, s, j, url) ==> i == j
  {
    forall i: nat, j: nat, url | Decides(entries, s, i, url) && Decides(entries, s, j, url) ensures i == j {
      assert Owner(s, i) && Owner(s, j);
    }
  }

  lemma FetchedUrlsDiffer(entries: seq<Feed>, s: State)
    requires |s.phases| == |entries| && Owners(entries, s) && FetchedOnes(s)
    requires forall k :: 0 <= k < |s.fetched| ==> At(s, s.fetched[k], Fetched)
    ensures forall j, k :: 0 <= j < k < |s.fetched| ==> entries[s.fetched[j]].url != entries[s.fetched[k]].url
  {
    forall j, k | 0 <= j < k < |s.fetched| ensures entries[s.fetched[j]].url != entries[s.fetched[k]].url {
      assert Owner(s, s.fetched[j]) && Owner(s, s.fetched[k]);
    }
  }

  lemma AllDecided(entries: seq<Feed>, s: State, k: nat)
    requires |s.phases| == |entries| && Owners(entries, s) && Complete(s) && k < |entries|
    ensures Decided(entries, s, entries[k].url)
  {
    var url := entries[k].url;
    assert s.phases[k] != Repeated ==> Owner(s, k);
    assert Owned(entries, s, url);
    var i: nat :| i < |entries| && Owner(s, i) && entries[i].url == url;
    assert Decides(entries, s, i, url);
  }

  // ----- why an entry ends where it does

  /** Against the feeds at the start and those at present: what is skipped exists, and what passed the
      check did not exist at the start. */
  ghost predicate Compared(entries: seq<Feed>, s: State, known: set<string>)
    requires |s.phases| == |entries|
  {
    && known <= s.known
    && (forall i: nat :: At(s, i, Skipped) ==> entries[i].url in s.known)
    && (forall i: nat :: At(s, i, Checked) || At(s, i, Fetched) ==> entries[i].url !in known)
  }

  /** The list of failures names exactly the entries that failed. */
  ghost predicate FailedOnes(entries: seq<Feed>, s: State)
    requires |s.phases| == |entries|
  {
    && (forall i: nat :: At(s, i, Failed) ==> entries[i].url in s.failed)
    && (forall url :: url in s.failed ==> SomeFailed(entries, s, url))
  }

  ghost predicate SomeFailed(entries: seq<Feed>, s: State, url: string)
    requires |s.phases| == |entries|
  {
    exists i: nat :: At(s, i, Failed) && entries[i].url == url
  }

  lemma StepCompares(entries: seq<Feed>, s: State, step: Step, known: set<string>)
    requires |s.phases| == |entries| && Enabled(s, step) && Compared(entries, s, known)
    ensures Compared(entries, Apply(entries, s, step), known)
  {}

  lemma StepFails(entries: seq<Feed>, s: State, step: Step)
    requires |s.phases| == |entries| && Enabled(s, step) && FailedOnes(entries, s)
    ensures FailedOnes(entries, Apply(entries, s, step))
  {
    var s' := Apply(entries, s, step);
    forall url | url in s'.failed ensures SomeFailed(entries, s', url) {
      if url in s.failed {
        var i: nat :| At(s, i, Failed) && entries[i].url == url;
        assert At(s', i, Failed);
      } else {
        assert At(s', step.entry, Failed);
      }
    }
  }

  lemma {:induction false} RunCompares(entries: seq<Feed>, s: State, run: seq<Step>, known: set<string>)
    requires |s.phases| == |entries| && ValidRun(entries, s, run)
    requires Compared(entries, s, known) && FailedOnes(entries, s)
    ensures Compared(entries, Execute(entries, s, run), known) && FailedOnes(entries, Execute(entries, s, run))
    decreases |run|
  {
    hide Compared, FailedOnes;
    if run != [] {
      StepCompares(entries, s, run[0], known);
      StepFails(entries, s, run[0]);
      RunCompares(entries, Apply(entries, s, run[0]), run[1..], known);
    }
  }

  lemma {:induction false} KnownGrows(entries: seq<Feed>, s: State, run: seq<Step>, url: string)
    requires |s.phases| == |entries| && ValidRun(entries, s, run)
    ensures url in Execute(entries, s, run).known <==> url in s.known || OthersAdd(url) in run
    decreases |run|
  {
    if run != [] {
      KnownGrows(entries, Apply(entries, s, run[0]), run[1..], url);
      assert run == [run[0]] + run[1..];
    }
  }

  /** Over every run: what is skipped is among the feeds by now, what is fetched was not at the start,
      and the failures listed are those of the entries that failed. */
  lemma ClassifiedByComparison(entries: seq<Feed>, known: set<string>, run: seq<Step>)
    requires ValidRun(entries, Start(entries, known), run)
    ensures var s := Execute(entries, Start(entries, known), run);
            && Compared(entries, s, known) && FailedOnes(entries, s)
            && forall url :: url in s.known <==> url in known || OthersAdd(url) in run
  {
    RunCompares(entries, Start(entries, known), run, known);
    forall url
      ensures url in Execute(entries, Start(entries, known), run).known <==> url in known || OthersAdd(url) in run
    {
      KnownGrows(entries, Start(entries, known), run, url);
    }
  }

  ghost predicate NobodyElseAdds(run: seq<Step>) {
    forall k :: 0 <= k < |run| ==> !run[k].OthersAdd?
  }

  /** If nobody else adds feeds, an entry that is decided without an error is skipped exactly when its
      feed exists. */
  lemma SkippedExactlyKnown(entries: seq<Feed>, known: set<string>, run: seq<Step>, i: nat, url: string)
    requires ValidRun(entries, Start(entries, known), run) && NobodyElseAdds(run)
    requires var s := Execute(entries, Start(entries, known), run); Decides(entries, s, i, url) && s.phases[i] != Failed
    ensures Execute(entries, Start(entries, known), run).phases[i] == Skipped <==> url in known
  {
    ClassifiedByComparison(entries, known, run);
    assert OthersAdd(url) !in run;
    var s := Execute(entries, Start(entries, known), run);
    assert At(s, i, Skipped) || At(s, i, Fetched);
  }

  /** An entry ends as fetched exactly when its fetch has succeeded, and as failed exactly when its check
      or its fetch has met an error; it is skipped only by its check and repeated only by its claim. */
  lemma {:induction false} RunTells(entries: seq<Feed>, s: State, run: seq<Step>, i: nat)
    requires |s.phases| == |entries| && ValidRun(entries, s, run)
    ensures var end := Execute(entries, s, run);
            && (At(end, i, Fetched) <==> At(s, i, Fetched) || Fetch(i, true) in run)
            && (At(end, i, Failed) <==> At(s, i, Failed) || Check(i, true) in run || Fetch(i, false) in run)
            && (At(end, i, Skipped) ==> At(s, i, Skipped) || Check(i, false) in run)
            && (At(end, i, Repeated) ==> At(s, i, Repeated) || Claim(i) in run)
    decreases |run|
  {
    if run != [] {
      assert run == [run[0]] + run[1..];
      RunTells(entries, Apply(entries, s, run[0]), run[1..], i);
      hide Execute;
      FinalStays(entries, s, run, i);
    }
  }

  /** Nothing happens any more to an entry that is decided. */
  lemma {:induction false} FinalStays(entries: seq<Feed>, s: State, run: seq<Step>, i: nat)
    requires |s.phases| == |entries| && ValidRun(entries, s, run)
    ensures At(s, i, Fetched) || At(s, i, Failed) || At(s, i, Skipped) || At(s, i, Repeated) ==>
              Fetch(i, true) !in run && Fetch(i, false) !in run && Check(i, true) !in run && Check(i, false) !in run
    decreases |run|
  {
    if run != [] {
      assert run == [run[0]] + run[1..];
      FinalStays(entries, Apply(entries, s, run[0]), run[1..], i);
    }
  }
}
