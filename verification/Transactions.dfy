/** Transactions re-run while SQLite is busy: store/retry.go:14-18, 82-113 and
    store/feed_store.go:182-199. */
module Transactions {
  import opened Wrappers
  import opened BusyErrors

  const MAX_RETRIES := 10
  const INITIAL_DELAY := 10  // milliseconds
  const MAX_DELAY := 100

  /** A job's effect on the database, or the error it fails with. */
  type Job<!S> = S -> Result<S, Err>

  /** What one attempt meets from outside: what other connections commit before it, and the
      errors of starting the transaction, of a statement of the job at some position, and of
      committing. A commit that fails leaves nothing behind. */
  datatype Trouble<!S> = Trouble(meanwhile: S -> S, begin: Option<Err>, statement: nat -> Option<Err>,
                                 commit: Option<Err>)

  /** The content after what others commit before the first `n` attempts. */
  function Meanwhile<S>(troubles: nat -> Trouble<S>, n: nat, s: S): S {
    if n == 0 then s else troubles(n - 1).meanwhile(Meanwhile(troubles, n - 1, s))
  }

  /** How a call ends: with the operation's own result, or cancelled while waiting to retry. */
  datatype Outcome = Done | Failed(error: Err) | Cancelled

  /** The first `n` jobs applied one after another, stopping at the first error. */
  function AfterJobs<S>(jobs: seq<Job<S>>, n: nat, s: S, statement: nat -> Option<Err>): Result<S, Err>
    requires n <= |jobs|
  {
    if n == 0 then Ok(s)
    else
      match AfterJobs(jobs, n - 1, s, statement)
      case Err(e) => Err(e)
      case Ok(tx) => if statement(n - 1).Some? then Err(statement(n - 1).value) else jobs[n - 1](tx)
  }

  /** The error of one attempt, None when it commits. */
  function AttemptError<S>(jobs: seq<Job<S>>, s: S, trouble: Trouble<S>): Option<Err> {
    if trouble.begin.Some? then trouble.begin
    else
      match AfterJobs(jobs, |jobs|, s, trouble.statement)
      case Err(e) => Some(e)
      case Ok(_) => trouble.commit
  }

  /** All jobs applied, undisturbed. */
  function AllJobs<S>(jobs: seq<Job<S>>, s: S): Result<S, Err> {
    AfterJobs(jobs, |jobs|, s, i => None)
  }

  lemma {:induction false} UndisturbedResult<S>(jobs: seq<Job<S>>, n: nat, s: S, statement: nat -> Option<Err>)
    requires n <= |jobs| && AfterJobs(jobs, n, s, statement).Ok?
    ensures AfterJobs(jobs, n, s, i => None) == AfterJobs(jobs, n, s, statement)
  {
    if n > 0 {
      UndisturbedResult(jobs, n - 1, s, statement);
    }
  }

  /** The states are those after each job so far: the first job runs on the first state, and every
      further job, once and in order, on what the one before has left. */
  ghost predicate Follows<S>(jobs: seq<Job<S>>, states: seq<S>) {
    && 1 <= |states| <= |jobs| + 1
    && forall i :: 0 <= i < |states| - 1 ==> jobs[i](states[i]) == Ok(states[i + 1])
  }

  /** The transaction stops in the last of the states with this error: the job that is next or one of
      its statements fails, or, after all jobs, the commit; or it has not even begun. */
  ghost predicate StopsWith<S>(jobs: seq<Job<S>>, trouble: Trouble<S>, states: seq<S>, error: Err)
    requires Follows(jobs, states)
  {
    var k := |states| - 1;
    if trouble.begin.Some? then k == 0 && error == trouble.begin.value
    else if k == |jobs| then trouble.commit == Some(error)
    else if trouble.statement(k).Some? then error == trouble.statement(k).value
    else jobs[k](states[k]) == Err(error)
  }

  /** The wait after attempt `k`: ten milliseconds, doubled every time, a hundred at most. */
  function Delay(k: nat): nat {
    if k == 0 then INITIAL_DELAY
    else if 2 * Delay(k - 1) > MAX_DELAY then MAX_DELAY else 2 * Delay(k - 1)
  }

  function Power2(k: nat): nat {
    if k == 0 then 1 else 2 * Power2(k - 1)
  }

  /** The doubling with a cap at every step is the doubling capped at the end. */
  lemma {:induction false} DelayIsCappedDoubling(k: nat)
    ensures Delay(k) == if INITIAL_DELAY * Power2(k) > MAX_DELAY then MAX_DELAY else INITIAL_DELAY * Power2(k)
  {
    if k > 0 {
      DelayIsCappedDoubling(k - 1);
    }
  }

  function TotalWait(attempts: nat): nat {
    if attempts == 0 then 0 else TotalWait(attempts - 1) + Delay(attempts - 1)
  }

  lemma DelayStarts()
    ensures Delay(0) == INITIAL_DELAY && TotalWait(0) == 0
  {}

  lemma DelayDoubles(k: nat)
    ensures Delay(k + 1) == if 2 * Delay(k) > MAX_DELAY then MAX_DELAY else 2 * Delay(k)
    ensures TotalWait(k + 1) == TotalWait(k) + Delay(k)
  {}

  lemma {:induction false} TotalWaitGrows(n: nat, m: nat)
    requires n <= m
    ensures TotalWait(n) <= TotalWait(m)
    decreases m
  {
    if n < m {
      TotalWaitGrows(n, m - 1);
    }
  }

  /** Nine waits add up to 650 milliseconds. */
  lemma NineWaits(n: nat)
    requires n == MAX_RETRIES - 1
    ensures TotalWait(n) == 650
  {
    assert Delay(1) == 20 && Delay(2) == 40 && Delay(3) == 80;
    assert Delay(4) == 100 && Delay(5) == 100;
    assert Delay(6) == 100 && Delay(7) == 100 && Delay(8) == 100;
    assert TotalWait(4) == 150;
    assert TotalWait(8) == 550;
  }

  /** The first `n` attempts fail with a busy error, and the caller waits after each. */
  ghost predicate BusyAttempts(error: nat -> Option<Err>, done: nat -> bool, g: Graph, n: nat) {
    forall i: nat :: i < n ==> error(i).Some? && WrapsBusy(g, error(i).value) && !done(i)
  }

  /** How a retried operation whose `i`-th attempt gives `error(i)` ends, when the caller gives up
      during the `i`-th wait if `done(i)`. */
  ghost predicate EndsAfter(error: nat -> Option<Err>, done: nat -> bool, g: Graph, attempts: nat, outcome: Outcome) {
    && 1 <= attempts <= MAX_RETRIES
    && BusyAttempts(error, done, g, attempts - 1)
    && match error(attempts - 1)
       case None => outcome == Done
       case Some(e) =>
         if WrapsBusy(g, e) && attempts < MAX_RETRIES
         then done(attempts - 1) && outcome == Cancelled
         else outcome == Failed(e)
  }

  /** The error of each attempt, as long as those before it have written nothing. */
  ghost function Errors<S>(jobs: seq<Job<S>>, s: S, troubles: nat -> Trouble<S>): nat -> Option<Err> {
    i => AttemptError(jobs, Meanwhile(troubles, i + 1, s), troubles(i))
  }

  lemma NextAttempt<S>(jobs: seq<Job<S>>, s: S, troubles: nat -> Trouble<S>, i: nat)
    ensures Meanwhile(troubles, 0, s) == s
    ensures Meanwhile(troubles, i + 1, s) == troubles(i).meanwhile(Meanwhile(troubles, i, s))
    ensures Errors(jobs, s, troubles)(i) == AttemptError(jobs, Meanwhile(troubles, i + 1, s), troubles(i))
  {}

  /** A database, its content being of type S. */
  class Store<S> {
    var content: S

    constructor (s: S)
      ensures content == s
    {
      content := s;
    }

    /** One transaction: either all jobs and the commit succeed, or nothing is written. */
    method Attempt(jobs: seq<Job<S>>, trouble: Trouble<S>) returns (error: Option<Err>, ghost states: seq<S>)
      modifies this
      ensures error == AttemptError(jobs, trouble.meanwhile(old(content)), trouble)
      ensures Follows(jobs, states) && states[0] == trouble.meanwhile(old(content))
      ensures error.Some? ==> content == states[0] && StopsWith(jobs, trouble, states, error.value)
      ensures error.None? ==> |states| == |jobs| + 1 && content == states[|jobs|]
      ensures error.None? ==> AllJobs(jobs, states[0]) == Ok(content)
    {
      content := trouble.meanwhile(content);
      states := [content];
      if trouble.begin.Some? {
        return trouble.begin, states;
      }
      var tx := content;
      for i := 0 to |jobs|
        invariant Follows(jobs, states) && |states| == i + 1 && states[i] == tx
        invariant content == trouble.meanwhile(old(content)) == states[0]
        invariant AfterJobs(jobs, i, content, trouble.statement) == Ok(tx)
      {
        if trouble.statement(i).Some? {
          StopsAt(jobs, i + 1, |jobs|, content, trouble.statement);
          return trouble.statement(i), states;
        }
        var result := jobs[i](tx);
        if result.Err? {
          StopsAt(jobs, i + 1, |jobs|, content, trouble.statement);
          return Some(result.error), states;
        }
        tx := result.value;
        states := states + [tx];
      }
      if trouble.commit.Some? {
        return trouble.commit, states;
      }
      UndisturbedResult(jobs, |jobs|, content, trouble.statement);
      content := tx;
      return None, states;
    }

    /** Runs the jobs in one transaction, again and again while SQLite is busy: whatever mix of
        troubles the attempts meet, the jobs take effect once and in full, on top of what others
        have committed by then, or not at all. */
    method WithTransaction(jobs: seq<Job<S>>, troubles: nat -> Trouble<S>, done: nat -> bool, g: Graph)
      returns (outcome: Outcome, ghost attempts: nat, ghost waited: nat, ghost states: seq<S>)
      modifies this
      ensures 1 <= attempts <= MAX_RETRIES
      ensures Follows(jobs, states) && states[0] == Meanwhile(troubles, attempts, old(content))
      ensures outcome == Done ==> |states| == |jobs| + 1 && content == states[|jobs|]
      ensures outcome != Done ==> content == states[0]
      ensures outcome.Failed? ==> StopsWith(jobs, troubles(attempts - 1), states, outcome.error)
      ensures outcome == Done ==> AllJobs(jobs, states[0]) == Ok(content)
      ensures EndsAfter(Errors(jobs, old(content), troubles), done, g, attempts, outcome)
      ensures waited == TotalWait(attempts - 1) <= 650
    {
      hide AllJobs, AttemptError, Meanwhile, Follows, StopsWith, Errors, WrapsBusy, Delay, TotalWait;
      ghost var errors := Errors(jobs, content, troubles);
      assert Delay(0) == INITIAL_DELAY && TotalWait(0) == 0 by { DelayStarts(); }
      var delay := INITIAL_DELAY;
      waited := 0;
      NextAttempt(jobs, content, troubles, 0);
      var i := 0;
      while i < MAX_RETRIES
        invariant 0 <= i < MAX_RETRIES && content == Meanwhile(troubles, i, old(content))
        invariant delay == Delay(i) && waited == TotalWait(i)
        invariant BusyAttempts(errors, done, g, i)
        decreases MAX_RETRIES - i
      {
        TotalWaitGrows(i, MAX_RETRIES - 1);
        NineWaits(MAX_RETRIES - 1);
        attempts := i + 1;
        NextAttempt(jobs, old(content), troubles, i);
        var err;
        err, states := Attempt(jobs, troubles(i));
        assert err == errors(i);
        if err.None? {
          return Done, attempts, waited, states;
        }
        var busy := IsBusyError(err.value, g);
        if !busy {
          return Failed(err.value), attempts, waited, states;
        }
        if i == MAX_RETRIES - 1 {
          return Failed(err.value), attempts, waited, states;
        }
        if done(i) {
          return Cancelled, attempts, waited, states;
        }
        DelayDoubles(i);
        waited := waited + delay;
        delay := delay * 2;
        if delay > MAX_DELAY {
          delay := MAX_DELAY;
        }
        i := i + 1;
      }
    }
  }

  lemma {:induction false} StopsAt<S>(jobs: seq<Job<S>>, n: nat, m: nat, s: S, statement: nat -> Option<Err>)
    requires n <= m <= |jobs| && AfterJobs(jobs, n, s, statement).Err?
    ensures AfterJobs(jobs, m, s, statement) == AfterJobs(jobs, n, s, statement)
    decreases m
  {
    if n < m {
      StopsAt(jobs, n, m - 1, s, statement);
    }
  }

  /** The number of attempts and the outcome are determined by the attempts' errors. */
  lemma EndsOnce(error: nat -> Option<Err>, done: nat -> bool, g: Graph, a: nat, b: nat, first: Outcome,
                 second: Outcome)
    requires EndsAfter(error, done, g, a, first) && EndsAfter(error, done, g, b, second)
    ensures a == b && first == second
  {
  }
}
