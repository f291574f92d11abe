/**
 * The read-mutate-check-and-write loop shared by lib/local-client-tokens.ts
 * and lib/account-policy.ts, as an interleaving of atomic steps. The store is
 * one shared value; its modification time is the number of writes so far. A
 * client stats the file, reads it, mutates its copy, and renames over the
 * file only if the stat is still current; otherwise it starts again, at most
 * three times in all. `memory` is what a mutation captures across attempts.
 */
module CasStore {
  const CAS_MAX_ATTEMPTS: nat := 3

  datatype Attempt<S, M, R> = Attempt(store: S, memory: M, result: R, dirty: bool)

  datatype Phase<S, M, R> =
    | Starting
    | Statted(expected: nat)
    | Loaded(expected: nat, seen: nat, snapshot: S)
    | Prepared(expected: nat, seen: nat, attempt: Attempt<S, M, R>)
    | Finished(result: R, at: nat, committed: bool)
    | GaveUp

  /** `began` is the number of writes when the operation was invoked. */
  datatype Client<S, Op, M, R> = Client(op: Op, memory: M, tries: nat, began: nat, phase: Phase<S, M, R>)

  /** One committed mutation: who wrote it, and with which captured memory. */
  datatype Entry<Op, M> = Entry(client: nat, op: Op, memory: M)

  datatype System<S, Op, M, R> = System(store: S, log: seq<Entry<Op, M>>, clients: seq<Client<S, Op, M, R>>)

  type Mutation<!S, !Op, !M, !R> = (Op, M, S) -> Attempt<S, M, R>

  /** The store after the committed mutations, applied one at a time in commit order. */
  function Replay<S, Op, M, R>(apply: Mutation<S, Op, M, R>, init: S, log: seq<Entry<Op, M>>): S {
    if log == [] then init else
    var e := log[|log| - 1];
    apply(e.op, e.memory, Replay(apply, init, log[..|log| - 1])).store
  }

  datatype Move<Op, M> = Invoke(op: Op, memory: M) | Advance(client: nat)

  function AdvanceClient<S, Op, M, R>(apply: Mutation<S, Op, M, R>, s: System<S, Op, M, R>, k: nat): System<S, Op, M, R>
    requires k < |s.clients|
  {
    var c := s.clients[k];
    match c.phase
    case Starting => s.(clients := s.clients[k := c.(phase := Statted(|s.log|))])
    case Statted(expected) => s.(clients := s.clients[k := c.(phase := Loaded(expected, |s.log|, s.store))])
    case Loaded(expected, seen, snapshot) =>
      var a := apply(c.op, c.memory, snapshot);
      s.(clients := s.clients[k := c.(phase :=
        if a.dirty then Prepared(expected, seen, a) else Finished(a.result, seen, false))])
    case Prepared(expected, seen, a) =>
      if expected == |s.log| then
        System(a.store, s.log + [Entry(k, c.op, c.memory)],
               s.clients[k := c.(phase := Finished(a.result, |s.log|, true))])
      else if c.tries + 1 < CAS_MAX_ATTEMPTS then
        s.(clients := s.clients[k := c.(memory := a.memory, tries := c.tries + 1, phase := Starting)])
      else s.(clients := s.clients[k := c.(phase := GaveUp)])
    case _ => s
  }

  function Step<S, Op, M, R>(apply: Mutation<S, Op, M, R>, s: System<S, Op, M, R>, m: Move<Op, M>): System<S, Op, M, R> {
    match m
    case Invoke(op, memory) => s.(clients := s.clients + [Client(op, memory, 0, |s.log|, Starting)])
    case Advance(k) => if k < |s.clients| then AdvanceClient(apply, s, k) else s
  }

  function Run<S, Op, M, R>(apply: Mutation<S, Op, M, R>, init: S, moves: seq<Move<Op, M>>): System<S, Op, M, R> {
    if moves == [] then System(init, [], [])
    else Step(apply, Run(apply, init, moves[..|moves| - 1]), moves[|moves| - 1])
  }

  /** What a client that has answered saw: its own mutation of the store after the first `at` commits. */
  ghost predicate Answered<S, Op, M, R>(
    apply: Mutation<S, Op, M, R>, init: S, s: System<S, Op, M, R>, k: nat)
    requires k < |s.clients| && s.clients[k].phase.Finished?
  {
    var c := s.clients[k];
    var at := c.phase.at;
    && c.began <= at <= |s.log|
    && apply(c.op, c.memory, Replay(apply, init, s.log[..at])).result == c.phase.result
    && apply(c.op, c.memory, Replay(apply, init, s.log[..at])).dirty == c.phase.committed
    && (c.phase.committed ==> at < |s.log| && s.log[at] == Entry(k, c.op, c.memory))
  }

  ghost predicate ClientSound<S, Op, M, R>(
    apply: Mutation<S, Op, M, R>, init: S, s: System<S, Op, M, R>, k: nat)
    requires k < |s.clients|
  {
    var c := s.clients[k];
    && c.began <= |s.log|
    && c.tries < CAS_MAX_ATTEMPTS
    && match c.phase
       case Statted(expected) => c.began <= expected <= |s.log|
       case Loaded(expected, seen, snapshot) =>
         c.began <= expected <= seen <= |s.log| && snapshot == Replay(apply, init, s.log[..seen])
       case Prepared(expected, seen, a) =>
         && c.began <= expected <= seen <= |s.log|
         && a == apply(c.op, c.memory, Replay(apply, init, s.log[..seen])) && a.dirty
       case Finished(_, _, _) => Answered(apply, init, s, k)
       case _ => true
  }

  /** Every entry of the log was written by the client it names, which answered at that very position. */
  ghost predicate EntrySound<S, Op, M, R>(s: System<S, Op, M, R>, i: nat)
    requires i < |s.log|
  {
    var k := s.log[i].client;
    k < |s.clients| && s.clients[k].phase.Finished? && s.clients[k].phase.committed && s.clients[k].phase.at == i
  }

  ghost predicate Sound<S, Op, M, R>(apply: Mutation<S, Op, M, R>, init: S, s: System<S, Op, M, R>) {
    && s.store == Replay(apply, init, s.log)
    && (forall k: nat | k < |s.clients| :: ClientSound(apply, init, s, k))
    && (forall i: nat | i < |s.log| :: EntrySound(s, i))
  }

  /** A client that does not move is not disturbed by one that does. */
  lemma OthersUndisturbed<S, Op, M, R>(
    apply: Mutation<S, Op, M, R>, init: S, s: System<S, Op, M, R>, t: System<S, Op, M, R>, k: nat)
    requires k < |s.clients| && ClientSound(apply, init, s, k)
    requires k < |t.clients| && t.clients[k] == s.clients[k]
    requires s.log <= t.log
    ensures ClientSound(apply, init, t, k)
  {
    forall n: nat | n <= |s.log| ensures t.log[..n] == s.log[..n] {}
  }

  lemma MoverSound<S, Op, M, R>(apply: Mutation<S, Op, M, R>, init: S, s: System<S, Op, M, R>, k: nat)
    requires Sound(apply, init, s) && k < |s.clients|
    ensures var t := AdvanceClient(apply, s, k);
            s.log <= t.log && |t.clients| == |s.clients| && ClientSound(apply, init, t, k) &&
            t.store == Replay(apply, init, t.log)
  {
    var t := AdvanceClient(apply, s, k);
    assert ClientSound(apply, init, s, k);
    assert s.log[..|s.log|] == s.log;
    if |t.log| > |s.log| { assert t.log[..|s.log|] == s.log; }
  }

  lemma SoundStep<S, Op, M, R>(apply: Mutation<S, Op, M, R>, init: S, s: System<S, Op, M, R>, m: Move<Op, M>)
    requires Sound(apply, init, s)
    ensures Sound(apply, init, Step(apply, s, m))
  {
    var t := Step(apply, s, m);
    if m.Advance? && m.client < |s.clients| { MoverSound(apply, init, s, m.client); }
    forall k: nat | k < |t.clients| ensures ClientSound(apply, init, t, k) {
      if k < |s.clients| && t.clients[k] == s.clients[k] { OthersUndisturbed(apply, init, s, t, k); }
    }
    forall i: nat | i < |t.log| ensures EntrySound(t, i) {
      EntryStep(apply, s, m, i);
    }
  }

  lemma EntryStep<S, Op, M, R>(apply: Mutation<S, Op, M, R>, s: System<S, Op, M, R>, m: Move<Op, M>, i: nat)
    requires i < |Step(apply, s, m).log| && (i < |s.log| ==> EntrySound(s, i))
    ensures EntrySound(Step(apply, s, m), i)
  {
  }

  lemma {:induction false} SoundRun<S, Op, M, R>(apply: Mutation<S, Op, M, R>, init: S, moves: seq<Move<Op, M>>)
    ensures Sound(apply, init, Run(apply, init, moves))
  {
    if moves != [] {
      SoundRun(apply, init, moves[..|moves| - 1]);
      SoundStep(apply, init, Run(apply, init, moves[..|moves| - 1]), moves[|moves| - 1]);
    }
  }

  /**
   * Linearization: in every interleaving the store is the committed mutations
   * applied one at a time; every answer is the one its mutation gives at one
   * position between its invocation and now; and commits are answers one to
   * one, so nothing is lost and nothing is applied twice.
   */
  lemma Linearizes<S, Op, M, R>(apply: Mutation<S, Op, M, R>, init: S, moves: seq<Move<Op, M>>)
    ensures var s := Run(apply, init, moves);
            && s.store == Replay(apply, init, s.log)
            && (forall k: nat | k < |s.clients| && s.clients[k].phase.Finished? :: Answered(apply, init, s, k))
            && (forall i: nat | i < |s.log| :: EntrySound(s, i))
  {
    SoundRun(apply, init, moves);
    var s := Run(apply, init, moves);
    forall k: nat | k < |s.clients| && s.clients[k].phase.Finished? ensures Answered(apply, init, s, k) {
      assert ClientSound(apply, init, s, k);
    }
  }

  /** Real-time order: an operation invoked after another committed is placed after it. */
  lemma {:induction false} RealTimeOrder<S, Op, M, R>(
    apply: Mutation<S, Op, M, R>, init: S, moves: seq<Move<Op, M>>, rest: seq<Move<Op, M>>, a: nat, b: nat)
    requires var s := Run(apply, init, moves);
             a < |s.clients| && s.clients[a].phase.Finished? && s.clients[a].phase.committed && b >= |s.clients|
    requires var t := Run(apply, init, moves + rest);
             b < |t.clients| && t.clients[b].phase.Finished?
    ensures var s, t := Run(apply, init, moves), Run(apply, init, moves + rest);
            s.clients[a].phase.at + 1 <= t.clients[b].phase.at
  {
    SoundRun(apply, init, moves);
    SoundRun(apply, init, moves + rest);
    assert ClientSound(apply, init, Run(apply, init, moves), a);
    assert ClientSound(apply, init, Run(apply, init, moves + rest), b);
    BeganLate(apply, init, moves, rest, b);
  }

  lemma {:induction false} BeganLate<S, Op, M, R>(
    apply: Mutation<S, Op, M, R>, init: S, moves: seq<Move<Op, M>>, rest: seq<Move<Op, M>>, b: nat)
    ensures var s, t := Run(apply, init, moves), Run(apply, init, moves + rest);
            && s.log <= t.log && |s.clients| <= |t.clients|
            && (|s.clients| <= b < |t.clients| ==> |s.log| <= t.clients[b].began)
  {
    if rest == [] {
      assert moves + rest == moves;
    } else {
      var prior := rest[..|rest| - 1];
      assert (moves + rest)[..|moves + rest| - 1] == moves + prior;
      BeganLate(apply, init, moves, prior, b);
    }
  }

  /** The loop gives up only after three attempts, each of which lost its race to another commit. */
  ghost predicate Fair<S, Op, M, R>(s: System<S, Op, M, R>, k: nat)
    requires k < |s.clients|
  {
    var c := s.clients[k];
    && c.began + c.tries <= |s.log|
    && (c.phase.Statted? ==> c.began + c.tries <= c.phase.expected <= |s.log|)
    && (c.phase.Loaded? ==> c.began + c.tries <= c.phase.expected <= |s.log|)
    && (c.phase.Prepared? ==> c.began + c.tries <= c.phase.expected <= |s.log|)
    && (c.phase.GaveUp? ==> c.tries == CAS_MAX_ATTEMPTS - 1 && c.began + CAS_MAX_ATTEMPTS <= |s.log|)
  }

  lemma {:induction false} GivesUpOnlyToCommits<S, Op, M, R>(
    apply: Mutation<S, Op, M, R>, init: S, moves: seq<Move<Op, M>>, k: nat)
    requires k < |Run(apply, init, moves).clients|
    ensures Fair(Run(apply, init, moves), k)
    ensures Run(apply, init, moves).clients[k].tries < CAS_MAX_ATTEMPTS
  {
    var prior := moves[..|moves| - 1];
    if k < |Run(apply, init, prior).clients| { GivesUpOnlyToCommits(apply, init, prior, k); }
    FairStep(apply, Run(apply, init, prior), moves[|moves| - 1], k);
  }

  lemma FairStep<S, Op, M, R>(apply: Mutation<S, Op, M, R>, s: System<S, Op, M, R>, m: Move<Op, M>, k: nat)
    requires k < |Step(apply, s, m).clients|
    requires k < |s.clients| ==> Fair(s, k) && s.clients[k].tries < CAS_MAX_ATTEMPTS
    ensures Fair(Step(apply, s, m), k) && Step(apply, s, m).clients[k].tries < CAS_MAX_ATTEMPTS
  {
  }
}
