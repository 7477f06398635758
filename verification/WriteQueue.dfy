/** Batching database writes, cmd/feed-reader/write_queue.go:17-108: a bounded channel of jobs, a
    batch under construction, and a loop that serves the channel and a ticker in any order. */
module WriteQueue {
  import opened Wrappers
  import opened BusyErrors
  import opened Transactions

  /** What the service has seen and done: the jobs accepted, those still in the channel or in the
      batch, and the batches flushed so far. */
  datatype Queue<J> = Queue(max: nat, submitted: seq<J>, channel: seq<J>, closed: bool,
                            batch: seq<J>, flushes: seq<seq<J>>, finished: bool)

  datatype Event<J> = Submit(job: J) | Stop | Receive | Tick

  function Start<J>(max: nat): Queue<J> {
    Queue(max, [], [], false, [], [], false)
  }

  /** Submit blocks while the channel is full; the loop returns once it sees the channel closed.
      Submitting or stopping after Stop is outside the model: both panic. */
  ghost predicate Enabled<J>(q: Queue<J>, e: Event<J>) {
    match e
    case Submit(_) => !q.closed && |q.channel| < 2 * q.max
    case Stop => !q.closed
    case Receive => !q.finished && (q.channel != [] || q.closed)
    case Tick => !q.finished
  }

  /** An empty batch is not flushed. */
  ghost function Flushed<J>(q: Queue<J>): Queue<J> {
    if q.batch == [] then q else q.(flushes := q.flushes + [q.batch], batch := [])
  }

  ghost function Apply<J>(q: Queue<J>, e: Event<J>): Queue<J> {
    match e
    case Submit(job) => q.(submitted := q.submitted + [job], channel := q.channel + [job])
    case Stop => q.(closed := true)
    case Tick => Flushed(q)
    case Receive =>
      if q.channel == [] then Flushed(q).(finished := true)
      else
        var q' := q.(channel := q.channel[1..], batch := q.batch + [q.channel[0]]);
        if |q'.batch| >= q'.max then Flushed(q') else q'
  }

  /** A batch is flushed when it is full, on every tick and at the end, and only then: a job waits in
      the batch no longer than to the next tick. */
  lemma FlushedWhenDue<J>(q: Queue<J>, e: Event<J>)
    requires Enabled(q, e) && Bounded(q)
    ensures e.Tick? ==> Apply(q, e).batch == []
    ensures e.Receive? && q.channel == [] ==> Apply(q, e).batch == [] && Apply(q, e).finished
    ensures e.Receive? && q.channel != [] && |q.batch| + 1 < q.max ==>
              Apply(q, e).batch == q.batch + [q.channel[0]] && Apply(q, e).flushes == q.flushes
    ensures e.Receive? && q.channel != [] && |q.batch| + 1 == q.max ==>
              Apply(q, e).batch == [] && Apply(q, e).flushes == q.flushes + [q.batch + [q.channel[0]]]
    ensures e.Submit? ==> Apply(q, e).submitted == q.submitted + [e.job] && Apply(q, e).flushes == q.flushes
    ensures e.Stop? ==> Apply(q, e) == q.(closed := true)
  {}

  ghost predicate ValidRun<J>(q: Queue<J>, run: seq<Event<J>>)
    decreases |run|
  {
    run == [] || (Enabled(q, run[0]) && ValidRun(Apply(q, run[0]), run[1..]))
  }

  ghost function Execute<J>(q: Queue<J>, run: seq<Event<J>>): Queue<J>
    decreases |run|
  {
    if run == [] then q else Execute(Apply(q, run[0]), run[1..])
  }

  ghost function Flat<J>(batches: seq<seq<J>>): seq<J> {
    if batches == [] then [] else Flat(batches[..|batches| - 1]) + batches[|batches| - 1]
  }

  /** Every job accepted is in exactly one place, and all of them are in the order of submission. */
  ghost predicate Conserved<J>(q: Queue<J>) {
    Flat(q.flushes) + q.batch + q.channel == q.submitted
  }

  ghost predicate Bounded<J>(q: Queue<J>) {
    && |q.batch| < q.max && |q.channel| <= 2 * q.max
    && (forall i :: 0 <= i < |q.flushes| ==> 1 <= |q.flushes[i]| <= q.max)
    && (q.finished ==> q.closed && q.channel == [] && q.batch == [])
  }

  lemma FlushConserves<J>(q: Queue<J>)
    requires Conserved(q)
    ensures Conserved(Flushed(q))
  {
    if q.batch != [] {
      var flushes := q.flushes + [q.batch];
      assert flushes[..|flushes| - 1] == q.flushes;
      assert Flat(q.flushes) + q.batch + [] == Flat(q.flushes) + q.batch;
    }
  }

  lemma ReceiveConserves<J>(q: Queue<J>)
    requires Conserved(q) && q.channel != []
    ensures Conserved(q.(channel := q.channel[1..], batch := q.batch + [q.channel[0]]))
  {
    assert q.channel == [q.channel[0]] + q.channel[1..];
    var flat := Flat(q.flushes);
    assert flat + q.batch + q.channel == flat + (q.batch + [q.channel[0]]) + q.channel[1..];
  }

  lemma StepConserves<J>(q: Queue<J>, e: Event<J>)
    requires Conserved(q) && Enabled(q, e)
    ensures Conserved(Apply(q, e))
  {
    match e
    case Submit(job) =>
      var flat := Flat(q.flushes);
      assert flat + q.batch + (q.channel + [job]) == flat + q.batch + q.channel + [job];
    case Stop =>
    case Tick => FlushConserves(q);
    case Receive =>
      if q.channel == [] {
        FlushConserves(q);
      } else {
        ReceiveConserves(q);
        FlushConserves(q.(channel := q.channel[1..], batch := q.batch + [q.channel[0]]));
      }
  }

  lemma StepBounded<J>(q: Queue<J>, e: Event<J>)
    requires Bounded(q) && Enabled(q, e)
    ensures Bounded(Apply(q, e)) && Apply(q, e).max == q.max
  {}

  /** Over every run, from any queue that keeps both. */
  lemma {:induction false} RunKeeps<J>(q: Queue<J>, run: seq<Event<J>>)
    requires Conserved(q) && Bounded(q) && ValidRun(q, run)
    ensures Conserved(Execute(q, run)) && Bounded(Execute(q, run)) && Execute(q, run).max == q.max
    decreases |run|
  {
    if run != [] {
      StepConserves(q, run[0]);
      StepBounded(q, run[0]);
      RunKeeps(Apply(q, run[0]), run[1..]);
    }
  }

  /** Nothing accepted is lost, repeated or reordered, whatever order the events come in; a batch
      is flushed before it outgrows the maximum, and no flush is empty. */
  lemma NothingLost<J>(max: nat, run: seq<Event<J>>)
    requires max >= 1 && ValidRun(Start(max), run)
    ensures Conserved(Execute(Start(max), run)) && Bounded(Execute(Start(max), run))
  {
    var q: Queue<J> := Start(max);
    assert Flat(q.flushes) + q.batch + q.channel == q.submitted;
    RunKeeps(q, run);
  }

  ghost function Receives<J>(run: seq<Event<J>>): nat
    decreases |run|
  {
    if run == [] then 0 else (if run[0].Receive? then 1 else 0) + Receives(run[1..])
  }

  lemma FinishedReceivesNoMore<J>(q: Queue<J>, run: seq<Event<J>>)
    requires q.finished && q.closed && ValidRun(q, run)
    ensures run == []
  {}

  /** Once stopped, the loop ends with its receive number |channel| + 1, and not before; by then
      every job accepted has been flushed. */
  lemma {:induction false} StopDrains<J>(q: Queue<J>, run: seq<Event<J>>)
    requires q.closed && Conserved(q) && Bounded(q) && ValidRun(q, run)
    requires !q.finished
    ensures Receives(run) <= |q.channel| + 1
    ensures Execute(q, run).finished <==> Receives(run) == |q.channel| + 1
    ensures Execute(q, run).submitted == q.submitted
    ensures Execute(q, run).finished ==> Flat(Execute(q, run).flushes) == q.submitted
    decreases |run|
  {
    if run != [] {
      var q' := Apply(q, run[0]);
      StepConserves(q, run[0]);
      StepBounded(q, run[0]);
      if q'.finished {
        FinishedReceivesNoMore(q', run[1..]);
        assert Flat(q'.flushes) + [] + [] == Flat(q'.flushes);
      } else {
        StopDrains(q', run[1..]);
      }
    }
  }

  const NEVER: nat -> bool := _ => false

  /** After `n` attempts, each preceded by other connections' commits, every job of the batch has taken
      effect, once and in order, or none has, as the last attempt's error decides. */
  ghost predicate Whole<S>(batch: seq<Job<S>>, troubles: nat -> Trouble<S>, g: Graph, before: S,
                           n: nat, outcome: Outcome, states: seq<S>, after: S) {
    && EndsAfter(Errors(batch, before, troubles), NEVER, g, n, outcome)
    && Follows(batch, states) && states[0] == Meanwhile(troubles, n, before)
    && (outcome == Done ==> |states| == |batch| + 1 && after == states[|batch|])
    && (outcome.Failed? ==> after == states[0] && n >= 1 && StopsWith(batch, troubles(n - 1), states, outcome.error))
    && outcome != Cancelled
  }

  /** What flushing a batch does to the database; an empty one is not even attempted. */
  ghost predicate Lands<S(!new)>(batch: seq<Job<S>>, troubles: nat -> Trouble<S>, g: Graph, before: S, after: S) {
    if batch == [] then after == before
    else exists n: nat, outcome, states :: Whole(batch, troubles, g, before, n, outcome, states, after)
  }

  /** The service. Its store is the database; `submitted` and `flushes` only record what happened. */
  class WriteQueueService<S(!new)> {
    const maxBatchSize: nat
    const store: Store<S>
    var jobs: seq<Job<S>>
    var closed: bool
    var batch: seq<Job<S>>
    var finished: bool
    ghost var submitted: seq<Job<S>>
    ghost var flushes: seq<seq<Job<S>>>

    constructor (store: Store<S>, max: nat)
      ensures View() == Start(max) && this.store == store
    {
      this.store, maxBatchSize := store, max;
      jobs, closed, batch, finished := [], false, [], false;
      submitted, flushes := [], [];
    }

    ghost function View(): Queue<Job<S>>
      reads this
    {
      Queue(maxBatchSize, submitted, jobs, closed, batch, flushes, finished)
    }

    method Submit(job: Job<S>)
      requires Enabled(View(), Event.Submit(job))
      modifies this
      ensures View() == Apply(old(View()), Event.Submit(job))
    {
      jobs := jobs + [job];
      submitted := submitted + [job];
    }

    method Stop()
      requires Enabled(View(), Event.Stop)
      modifies this
      ensures View() == Apply(old(View()), Event.Stop)
    {
      closed := true;
    }

    /** Runs the batch in one transaction, which nobody cancels; a batch that fails is dropped. */
    method Flush(troubles: nat -> Trouble<S>, g: Graph)
      modifies this`batch, this`flushes, store
      ensures View() == Flushed(old(View()))
      ensures Lands(old(batch), troubles, g, old(store.content), store.content)
    {
      if |batch| == 0 {
        return;
      }
      var outcome, attempts, _, states := store.WithTransaction(batch, troubles, NEVER, g);
      assert Whole(batch, troubles, g, old(store.content), attempts, outcome, states, store.content);
      flushes := flushes + [batch];
      batch := [];
    }

    /** One turn of the loop that serves the channel. */
    method Receive(troubles: nat -> Trouble<S>, g: Graph)
      requires Enabled(View(), Event.Receive)
      modifies this, store
      ensures View() == Apply(old(View()), Event.Receive)
      ensures old(jobs) == [] ==> Lands(old(batch), troubles, g, old(store.content), store.content)
      ensures old(jobs) != [] && old(|batch|) + 1 >= maxBatchSize ==>
                Lands(old(batch + [jobs[0]]), troubles, g, old(store.content), store.content)
      ensures old(jobs) != [] && old(|batch|) + 1 < maxBatchSize ==> store.content == old(store.content)
    {
      if jobs == [] {
        Flush(troubles, g);
        finished := true;
        return;
      }
      var job := jobs[0];
      jobs := jobs[1..];
      batch := batch + [job];
      if |batch| >= maxBatchSize {
        Flush(troubles, g);
      }
    }

    /** One turn of the loop that serves the ticker. */
    method Tick(troubles: nat -> Trouble<S>, g: Graph)
      requires Enabled(View(), Event.Tick)
      modifies this`batch, this`flushes, store
      ensures View() == Apply(old(View()), Event.Tick)
      ensures Lands(old(batch), troubles, g, old(store.content), store.content)
    {
      if |batch| > 0 {
        Flush(troubles, g);
      }
    }
  }
}
