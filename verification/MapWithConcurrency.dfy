/**
 * lib/concurrency.ts: `mapWithConcurrency`. Workers share `next`, `failed`,
 * `failure` and `results`; between two awaits a worker runs undisturbed, so
 * one step is one turn of a worker's loop or the settling of its call.
 * A hole in `items` is an undefined element. What a call does is a function of
 * its item and index; which worker moves next is arbitrary.
 */
module MapWithConcurrency {
  import opened Prelude

  datatype Outcome<R, E> = Returned(value: R) | Raised(error: E)

  datatype Worker = AtLoop | Calling(index: nat) | Finished

  /** `started` and `settled` record the calls in order; the rest is the source's shared state. */
  datatype Pool<R, E> = Pool(
    workers: seq<Worker>, next: nat, failure: Option<E>, results: seq<Option<R>>, started: seq<nat>, settled: seq<nat>)
  {
    predicate Failed() { failure.Some? }
  }

  datatype Job<!T, !R, !E> = Job(items: seq<Option<T>>, work: (T, nat) -> Outcome<R, E>) {
    predicate Defined(i: nat) { i < |items| && items[i].Some? }

    function Call(i: nat): Outcome<R, E>
      requires Defined(i)
    {
      work(items[i].value, i)
    }
  }

  function Start<T, R, E>(job: Job<T, R, E>, limit: nat): Pool<R, E> {
    Pool(seq(Min(limit, |job.items|), _ => AtLoop), 0, None, seq(|job.items|, _ => None), [], [])
  }

  predicate Enabled<R, E>(p: Pool<R, E>, w: nat) {
    w < |p.workers| && p.workers[w] != Finished
  }

  /** One turn of worker `w`. */
  function Step<T, R, E>(job: Job<T, R, E>, p: Pool<R, E>, w: nat): Pool<R, E>
    requires Enabled(p, w) && Legal(job, p)
  {
    match p.workers[w]
    case AtLoop =>
      if p.Failed() then p.(workers := p.workers[w := Finished])
      else if p.next >= |job.items| then p.(next := p.next + 1, workers := p.workers[w := Finished])
      else if job.items[p.next].None? then p.(next := p.next + 1)
      else p.(next := p.next + 1, workers := p.workers[w := Calling(p.next)], started := p.started + [p.next])
    case Calling(i) =>
      var q := p.(workers := p.workers[w := AtLoop], settled := p.settled + [i]);
      match job.Call(i)
      case Returned(v) => q.(results := q.results[i := Some(v)])
      case Raised(e) => if p.Failed() then q else q.(failure := Some(e))
  }

  predicate Legal<T, R, E>(job: Job<T, R, E>, p: Pool<R, E>) {
    && |p.results| == |job.items|
    && forall w {:trigger p.workers[w]} ::
         0 <= w < |p.workers| && p.workers[w].Calling? ==> job.Defined(p.workers[w].index)
  }

  // ---- What every reachable pool satisfies ----

  function Occurrences(calls: seq<nat>, i: nat): nat {
    if calls == [] then 0
    else Occurrences(calls[..|calls| - 1], i) + (if calls[|calls| - 1] == i then 1 else 0)
  }

  /** How many workers are inside the call for index `i`. */
  function Calls(workers: seq<Worker>, i: nat): nat {
    if workers == [] then 0
    else Calls(workers[..|workers| - 1], i) + (if workers[|workers| - 1] == Calling(i) then 1 else 0)
  }

  /** How many calls run at once. */
  function Running(workers: seq<Worker>): nat {
    if workers == [] then 0
    else Running(workers[..|workers| - 1]) + (if workers[|workers| - 1].Calling? then 1 else 0)
  }

  /** The error of the first call to fail, in settling order. */
  function FirstFailure<T, R, E>(job: Job<T, R, E>, settled: seq<nat>): Option<E>
    requires forall k :: 0 <= k < |settled| ==> job.Defined(settled[k])
  {
    if settled == [] then None else
    var prior, i := settled[..|settled| - 1], settled[|settled| - 1];
    if FirstFailure(job, prior).Some? then FirstFailure(job, prior)
    else if job.Call(i).Raised? then Some(job.Call(i).error) else None
  }

  /** A defined index handed out is in exactly one place, once: in flight or settled. No other index is. */
  ghost predicate Accounted<T, R, E>(job: Job<T, R, E>, p: Pool<R, E>, i: nat) {
    && Occurrences(p.started, i) == (if i < p.next && job.Defined(i) then 1 else 0)
    && Calls(p.workers, i) + Occurrences(p.settled, i) == Occurrences(p.started, i)
  }

  ghost predicate ResultRight<T, R, E>(job: Job<T, R, E>, p: Pool<R, E>, i: nat)
    requires i < |job.items| && |p.results| == |job.items|
  {
    p.results[i] ==
      if Occurrences(p.settled, i) > 0 && job.Defined(i) && job.Call(i).Returned? then Some(job.Call(i).value) else None
  }

  ghost predicate Sound<T, R, E>(job: Job<T, R, E>, limit: nat, p: Pool<R, E>) {
    && Legal(job, p)
    && |p.workers| == Min(limit, |job.items|)
    && (forall i: nat :: Accounted(job, p, i))
    && (forall i: nat | i < |job.items| :: ResultRight(job, p, i))
    && (forall k :: 0 <= k < |p.settled| ==> job.Defined(p.settled[k]))
    && p.failure == FirstFailure(job, p.settled)
    && (forall w :: 0 <= w < |p.workers| && p.workers[w] == Finished ==> p.Failed() || p.next >= |job.items|)
  }

  lemma {:induction false} CallsUpdate(workers: seq<Worker>, w: nat, pc: Worker, i: nat)
    requires w < |workers|
    ensures Calls(workers[w := pc], i) ==
            Calls(workers, i) - (if workers[w] == Calling(i) then 1 else 0) + (if pc == Calling(i) then 1 else 0)
    ensures workers[w] == Calling(i) ==> Calls(workers, i) >= 1
  {
    var n := |workers| - 1;
    if w < n {
      assert workers[w := pc][..n] == workers[..n][w := pc];
      CallsUpdate(workers[..n], w, pc, i);
    } else {
      assert workers[w := pc][..n] == workers[..n];
    }
  }

  lemma {:induction false} NoCalls(workers: seq<Worker>, i: nat)
    requires forall w :: 0 <= w < |workers| ==> !workers[w].Calling?
    ensures Calls(workers, i) == 0 && Running(workers) == 0
  {
    if workers != [] { NoCalls(workers[..|workers| - 1], i); }
  }

  lemma OccurrencesAppend(calls: seq<nat>, j: nat, i: nat)
    ensures Occurrences(calls + [j], i) == Occurrences(calls, i) + (if i == j then 1 else 0)
  {
    assert (calls + [j])[..|calls|] == calls;
  }

  lemma SoundStart<T, R, E>(job: Job<T, R, E>, limit: nat)
    ensures Sound(job, limit, Start(job, limit))
  {
    var p := Start(job, limit);
    forall i: nat ensures Accounted(job, p, i) { NoCalls(p.workers, i); }
  }

  lemma AccountedSettling<T, R, E>(job: Job<T, R, E>, p: Pool<R, E>, w: nat, i: nat)
    requires Legal(job, p) && Enabled(p, w) && p.workers[w].Calling? && Accounted(job, p, i)
    ensures Accounted(job, Step(job, p, w), i)
  {
    var q, index := Step(job, p, w), p.workers[w].index;
    assert q.workers == p.workers[w := AtLoop] && q.settled == p.settled + [index] && q.started == p.started && q.next == p.next;
    CallsUpdate(p.workers, w, AtLoop, i);
    OccurrencesAppend(p.settled, index, i);
  }

  lemma AccountedTurn<T, R, E>(job: Job<T, R, E>, p: Pool<R, E>, w: nat, i: nat)
    requires Legal(job, p) && Enabled(p, w) && p.workers[w] == AtLoop && Accounted(job, p, i)
    ensures Accounted(job, Step(job, p, w), i)
  {
    var q := Step(job, p, w);
    var pc := q.workers[w];
    assert q.workers == p.workers[w := pc] && q.settled == p.settled;
    CallsUpdate(p.workers, w, pc, i);
    if pc.Calling? {
      assert q.started == p.started + [p.next];
      OccurrencesAppend(p.started, p.next, i);
    } else {
      assert q.started == p.started;
    }
  }

  lemma AccountedStep<T, R, E>(job: Job<T, R, E>, p: Pool<R, E>, w: nat, i: nat)
    requires Legal(job, p) && Enabled(p, w) && Accounted(job, p, i)
    ensures Accounted(job, Step(job, p, w), i)
  {
    match p.workers[w]
    case Calling(_) => AccountedSettling(job, p, w, i);
    case AtLoop => AccountedTurn(job, p, w, i);
  }

  lemma ResultStep<T, R, E>(job: Job<T, R, E>, p: Pool<R, E>, w: nat, i: nat)
    requires Legal(job, p) && Enabled(p, w) && i < |job.items| && ResultRight(job, p, i)
    ensures ResultRight(job, Step(job, p, w), i)
  {
    var q := Step(job, p, w);
    match p.workers[w]
    case Calling(index) =>
      assert q.settled == p.settled + [index];
      assert job.Defined(index);
      OccurrencesAppend(p.settled, index, i);
      match job.Call(index) {
        case Returned(v) => assert q.results == p.results[index := Some(v)];
        case Raised(e) => assert q.results == p.results;
      }
    case AtLoop =>
      assert q.settled == p.settled && q.results == p.results;
  }

  lemma FailureStep<T, R, E>(job: Job<T, R, E>, p: Pool<R, E>, w: nat)
    requires Legal(job, p) && Enabled(p, w)
    requires forall k :: 0 <= k < |p.settled| ==> job.Defined(p.settled[k])
    requires p.failure == FirstFailure(job, p.settled)
    ensures var q := Step(job, p, w);
            && (forall k :: 0 <= k < |q.settled| ==> job.Defined(q.settled[k]))
            && q.failure == FirstFailure(job, q.settled)
  {
    if p.workers[w].Calling? {
      assert (p.settled + [p.workers[w].index])[..|p.settled|] == p.settled;
    }
  }

  lemma LegalStep<T, R, E>(job: Job<T, R, E>, p: Pool<R, E>, w: nat)
    requires Legal(job, p) && Enabled(p, w)
    ensures Legal(job, Step(job, p, w)) && |Step(job, p, w).workers| == |p.workers|
  {
  }

  lemma SoundStep<T, R, E>(job: Job<T, R, E>, limit: nat, p: Pool<R, E>, w: nat)
    requires Sound(job, limit, p) && Enabled(p, w)
    ensures Sound(job, limit, Step(job, p, w))
  {
    var q := Step(job, p, w);
    LegalStep(job, p, w);
    FailureStep(job, p, w);
    forall i: nat ensures Accounted(job, q, i) { AccountedStep(job, p, w, i); }
    forall i: nat | i < |job.items| ensures ResultRight(job, q, i) { ResultStep(job, p, w, i); }
  }

  // ---- Runs ----

  /** A schedule names the worker that moves at each step; it is legal while that worker can move. */
  predicate Schedulable<T, R, E>(job: Job<T, R, E>, p: Pool<R, E>, schedule: seq<nat>)
    requires Legal(job, p)
    decreases |schedule|
  {
    schedule == [] ||
    (Enabled(p, schedule[0]) && Legal(job, Step(job, p, schedule[0])) &&
     Schedulable(job, Step(job, p, schedule[0]), schedule[1..]))
  }

  function Run<T, R, E>(job: Job<T, R, E>, p: Pool<R, E>, schedule: seq<nat>): Pool<R, E>
    requires Legal(job, p) && Schedulable(job, p, schedule)
    decreases |schedule|
  {
    if schedule == [] then p else Run(job, Step(job, p, schedule[0]), schedule[1..])
  }

  lemma {:induction false} SoundRun<T, R, E>(job: Job<T, R, E>, limit: nat, p: Pool<R, E>, schedule: seq<nat>)
    requires Sound(job, limit, p) && Schedulable(job, p, schedule)
    ensures Sound(job, limit, Run(job, p, schedule))
    decreases |schedule|
  {
    if schedule != [] {
      SoundStep(job, limit, p, schedule[0]);
      SoundRun(job, limit, Step(job, p, schedule[0]), schedule[1..]);
    }
  }

  function Rank(w: Worker): nat { match w case Finished => 0 case AtLoop => 1 case Calling(_) => 2 }

  function Ranks(workers: seq<Worker>): nat {
    if workers == [] then 0 else Ranks(workers[..|workers| - 1]) + Rank(workers[|workers| - 1])
  }

  lemma {:induction false} RanksUpdate(workers: seq<Worker>, w: nat, pc: Worker)
    requires w < |workers|
    ensures Ranks(workers[w := pc]) == Ranks(workers) - Rank(workers[w]) + Rank(pc)
  {
    var n := |workers| - 1;
    if w < n {
      assert workers[w := pc][..n] == workers[..n][w := pc];
      RanksUpdate(workers[..n], w, pc);
    } else {
      assert workers[w := pc][..n] == workers[..n];
    }
  }

  /** Work left: two for an index not handed out, two for a call in flight, one for a worker at its loop head. */
  function Measure<T, R, E>(job: Job<T, R, E>, p: Pool<R, E>): nat {
    2 * Max(0, |job.items| - p.next) + Ranks(p.workers)
  }

  lemma StepShrinks<T, R, E>(job: Job<T, R, E>, p: Pool<R, E>, w: nat)
    requires Legal(job, p) && Enabled(p, w)
    ensures Measure(job, Step(job, p, w)) < Measure(job, p)
  {
    RanksUpdate(p.workers, w, Step(job, p, w).workers[w]);
  }

  /** Every run ends: a schedule is never longer than the work left at its start. */
  lemma {:induction false} RunsEnd<T, R, E>(job: Job<T, R, E>, p: Pool<R, E>, schedule: seq<nat>)
    requires Legal(job, p) && Schedulable(job, p, schedule)
    ensures |schedule| + Measure(job, Run(job, p, schedule)) <= Measure(job, p)
    decreases |schedule|
  {
    if schedule != [] {
      StepShrinks(job, p, schedule[0]);
      RunsEnd(job, Step(job, p, schedule[0]), schedule[1..]);
    }
  }

  /** Once a failure is recorded it stays the one that will be thrown, and no further call starts. */
  lemma {:induction false} NoCallAfterFailure<T, R, E>(job: Job<T, R, E>, p: Pool<R, E>, schedule: seq<nat>)
    requires Legal(job, p) && Schedulable(job, p, schedule) && p.Failed()
    ensures Run(job, p, schedule).started == p.started && Run(job, p, schedule).failure == p.failure
    decreases |schedule|
  {
    if schedule != [] { NoCallAfterFailure(job, Step(job, p, schedule[0]), schedule[1..]); }
  }

  lemma {:induction false} RunningBound(workers: seq<Worker>)
    ensures Running(workers) <= |workers|
  {
    if workers != [] { RunningBound(workers[..|workers| - 1]); }
  }

  /** In every reachable pool at most min(limit, n) calls run, and no index is ever handed to two of them. */
  lemma ConcurrencyBound<T, R, E>(job: Job<T, R, E>, limit: nat, schedule: seq<nat>)
    requires Schedulable(job, Start(job, limit), schedule)
    ensures var p := Run(job, Start(job, limit), schedule);
            && Running(p.workers) <= Min(limit, |job.items|)
            && forall i: nat :: Occurrences(p.started, i) <= 1 && Calls(p.workers, i) + Occurrences(p.settled, i) <= 1
  {
    var p := Run(job, Start(job, limit), schedule);
    SoundStart(job, limit);
    SoundRun(job, limit, Start(job, limit), schedule);
    RunningBound(p.workers);
    forall i: nat ensures Occurrences(p.started, i) <= 1 && Calls(p.workers, i) + Occurrences(p.settled, i) <= 1 {
      assert Accounted(job, p, i);
    }
  }

  ghost predicate Idle<R, E>(p: Pool<R, E>) {
    forall w :: 0 <= w < |p.workers| ==> p.workers[w] == Finished
  }

  /**
   * When every worker has returned no call is running. Without a failure every
   * defined item has its result; with one, the error is that of a failed call.
   */
  lemma IdleIsComplete<T, R, E>(job: Job<T, R, E>, limit: nat, p: Pool<R, E>)
    requires limit >= 1 && Sound(job, limit, p) && Idle(p)
    ensures Running(p.workers) == 0
    ensures !p.Failed() ==> forall i: nat | job.Defined(i) ::
              job.Call(i).Returned? && p.results[i] == Some(job.Call(i).value)
    ensures forall i: nat | i < |job.items| && !job.Defined(i) :: p.results[i] == None
    ensures p.Failed() ==> exists i: nat :: job.Defined(i) && job.Call(i) == Raised(p.failure.value)
  {
    NoCalls(p.workers, 0);
    forall i: nat | i < |job.items| && !job.Defined(i) ensures p.results[i] == None {
      assert ResultRight(job, p, i);
    }
    if p.Failed() {
      FailureHasSource(job, p.settled);
    } else {
      forall i: nat | job.Defined(i) ensures job.Call(i).Returned? && p.results[i] == Some(job.Call(i).value) {
        assert p.workers[0] == Finished;
        NoCalls(p.workers, i);
        assert Accounted(job, p, i) && ResultRight(job, p, i);
        NoFailureAmong(job, p.settled, i);
      }
    }
  }

  lemma {:induction false} FailureHasSource<T, R, E>(job: Job<T, R, E>, settled: seq<nat>)
    requires forall k :: 0 <= k < |settled| ==> job.Defined(settled[k])
    requires FirstFailure(job, settled).Some?
    ensures exists i: nat :: job.Defined(i) && job.Call(i) == Raised(FirstFailure(job, settled).value)
  {
    var prior := settled[..|settled| - 1];
    if FirstFailure(job, prior).Some? { FailureHasSource(job, prior); }
    else { assert job.Defined(settled[|settled| - 1]); }
  }

  lemma {:induction false} NoFailureAmong<T, R, E>(job: Job<T, R, E>, settled: seq<nat>, i: nat)
    requires forall k :: 0 <= k < |settled| ==> job.Defined(settled[k])
    requires FirstFailure(job, settled).None? && Occurrences(settled, i) > 0
    ensures job.Defined(i) && job.Call(i).Returned?
  {
    if i != settled[|settled| - 1] { NoFailureAmong(job, settled[..|settled| - 1], i); }
  }

  // ---- The function itself, under an arbitrary scheduler ----

  datatype Reply<R, E> = Results(results: seq<Option<R>>) | Threw(error: E) | RangeError

  method MapAll<T, R, E>(items: seq<Option<T>>, limit: int, work: (T, nat) -> Outcome<R, E>)
    returns (reply: Reply<R, E>)
    ensures reply.RangeError? <==> limit < 1
    ensures reply.Results? <==>
            limit >= 1 && forall i: nat :: i < |items| && items[i].Some? ==> work(items[i].value, i).Returned?
    ensures reply.Results? ==>
            |reply.results| == |items| &&
            forall i: nat :: i < |items| ==>
              reply.results[i] == if items[i].Some? then Some(work(items[i].value, i).value) else None
    ensures reply.Threw? ==>
            exists i: nat :: i < |items| && items[i].Some? && work(items[i].value, i) == Raised(reply.error)
  {
    if limit < 1 { return RangeError; }
    ghost var job := Job(items, work);
    var results := new Option<R>[|items|](_ => None);
    var next := 0;
    var failure: Option<E> := None;
    var workers := new Worker[Min(limit, |items|)](_ => AtLoop);
    ghost var p := Start(job, limit);
    SoundStart(job, limit);
    assert results[..] == p.results && workers[..] == p.workers;
    while exists w :: 0 <= w < workers.Length && workers[w] != Finished
      invariant Sound(job, limit, p)
      invariant workers[..] == p.workers && results[..] == p.results && next == p.next && failure == p.failure
      decreases Measure(job, p)
    {
      var w: nat :| w < workers.Length && workers[w] != Finished;
      assert workers[..][w] == workers[w];
      StepShrinks(job, p, w);
      SoundStep(job, limit, p, w);
      match workers[w] {
        case AtLoop =>
          if failure.Some? {
            workers[w] := Finished;
          } else {
            var index := next;
            next := next + 1;
            if index >= |items| {
              workers[w] := Finished;
            } else if items[index].Some? {
              workers[w] := Calling(index);
            }
          }
        case Calling(index) =>
          workers[w] := AtLoop;
          match work(items[index].value, index) {
            case Returned(value) => results[index] := Some(value);
            case Raised(error) => if failure.None? { failure := Some(error); }
          }
      }
      p := Step(job, p, w);
    }
    assert forall w :: 0 <= w < |p.workers| ==> p.workers[w] == workers[w];
    IdleIsComplete(job, limit, p);
    if failure.Some? { return Threw(failure.value); }
    forall i: nat | i < |items| && items[i].Some? ensures work(items[i].value, i).Returned? {
      assert job.Defined(i);
    }
    return Results(results[..]);
  }
}
