/**
 * lib/local-client-tokens.ts: the token store's mutations, run through the
 * compare-and-swap loop of `CasStore`. Records are already normalized; a
 * stored hash that is not a well-formed digest matches nothing.
 */
module TokenStore {
  import opened Prelude
  import CasStore

  const LAST_USED_PERSIST_THRESHOLD_MS := 60000

  datatype Token = Token(
    id: string, caption: string, digest: Option<string>, createdAt: int, lastUsedAt: Option<int>, revokedAt: Option<int>)

  type Store = seq<Token>

  // ---- mergeTokenStoreRecords ----

  /** The last slot holding `id`: what the source's index map remembers. */
  function SlotOf(tokens: Store, id: string): (slot: Option<nat>)
    ensures slot.Some? ==> slot.value < |tokens| && tokens[slot.value].id == id
    ensures slot.None? ==> forall i :: 0 <= i < |tokens| ==> tokens[i].id != id
  {
    if tokens == [] then None
    else if tokens[|tokens| - 1].id == id then Some(|tokens| - 1)
    else SlotOf(tokens[..|tokens| - 1], id)
  }

  function Furthest(a: Option<int>, b: Option<int>): Option<int> {
    if a.None? then b else if b.None? then a else Some(Max(a.value, b.value))
  }

  function Absorb(tokens: Store, record: Token): Store {
    match SlotOf(tokens, record.id)
    case None => tokens + [record]
    case Some(i) =>
      tokens[i := record.(
        lastUsedAt := Furthest(record.lastUsedAt, tokens[i].lastUsedAt),
        revokedAt := if record.revokedAt.Some? then record.revokedAt else tokens[i].revokedAt)]
  }

  function Merge(current: Store, incoming: Store): Store {
    if incoming == [] then current
    else Absorb(Merge(current, incoming[..|incoming| - 1]), incoming[|incoming| - 1])
  }

  /** The source keeps an index by id beside the growing list instead of searching it. */
  method MergeTokenStoreRecords(current: Store, incoming: Store) returns (tokens: Store)
    ensures tokens == Merge(current, incoming)
  {
    var indexById: map<string, nat> := map[];
    tokens := current;
    for i := 0 to |current|
      invariant forall id: string :: (id in indexById <==> SlotOf(current[..i], id).Some?) &&
                  (id in indexById ==> Some(indexById[id]) == SlotOf(current[..i], id))
    {
      assert current[..i + 1][..i] == current[..i];
      indexById := indexById[current[i].id := i];
    }
    assert current[..|current|] == current;
    for k := 0 to |incoming|
      invariant tokens == Merge(current, incoming[..k])
      invariant forall id: string :: (id in indexById <==> SlotOf(tokens, id).Some?) &&
                  (id in indexById ==> Some(indexById[id]) == SlotOf(tokens, id))
    {
      var record := incoming[k];
      ghost var before := tokens;
      assert incoming[..k + 1][..k] == incoming[..k];
      if record.id !in indexById {
        indexById := indexById[record.id := |tokens|];
        tokens := tokens + [record];
        assert tokens[..|tokens| - 1] == before;
      } else {
        var index := indexById[record.id];
        var existing := tokens[index];
        tokens := tokens[index := record.(
          lastUsedAt := Furthest(record.lastUsedAt, existing.lastUsedAt),
          revokedAt := if record.revokedAt.Some? then record.revokedAt else existing.revokedAt)];
        forall id: string ensures SlotOf(tokens, id) == SlotOf(before, id) {
          SlotsKept(before, tokens, id);
        }
      }
    }
    assert incoming[..|incoming|] == incoming;
  }

  /** Slots are found by id alone. */
  lemma {:induction false} SlotsKept(a: Store, b: Store, id: string)
    requires |a| == |b| && forall i :: 0 <= i < |a| ==> a[i].id == b[i].id
    ensures SlotOf(a, id) == SlotOf(b, id)
  {
    if a != [] { SlotsKept(a[..|a| - 1], b[..|b| - 1], id); }
  }

  // ---- The mutations ----

  datatype Op =
    | Add(record: Token)
    | Rotate(id: string, recaption: Option<string>, now: int, minted: Token)
    | Revoke(id: string, now: int)
    | Verify(digest: string, now: int)
    | Save(incoming: Store)

  datatype Reply = Added(record: Token) | Rotated(created: Option<Token>) | Revoked(done: bool)
                 | Verified(found: Option<Token>) | Saved

  /** The first slot satisfying `find`'s test on ids. */
  function FindId(tokens: Store, id: string): (slot: Option<nat>)
    ensures slot.Some? ==> slot.value < |tokens| && tokens[slot.value].id == id
    ensures slot.Some? ==> forall i :: 0 <= i < slot.value ==> tokens[i].id != id
    ensures slot.None? ==> forall i :: 0 <= i < |tokens| ==> tokens[i].id != id
  {
    if tokens == [] then None
    else
      var prior := FindId(tokens[..|tokens| - 1], id);
      if prior.Some? then prior else if tokens[|tokens| - 1].id == id then Some(|tokens| - 1) else None
  }

  /** The first unrevoked slot whose digest is the presented one. */
  function FindLive(tokens: Store, digest: string): (slot: Option<nat>)
    ensures slot.Some? ==> slot.value < |tokens|
    ensures slot.Some? ==> tokens[slot.value].revokedAt.None? && tokens[slot.value].digest == Some(digest)
    ensures slot.None? ==> forall i :: 0 <= i < |tokens| ==> tokens[i].revokedAt.Some? || tokens[i].digest != Some(digest)
  {
    if tokens == [] then None
    else
      var prior := FindLive(tokens[..|tokens| - 1], digest);
      var last := tokens[|tokens| - 1];
      if prior.Some? then prior
      else if last.revokedAt.None? && last.digest == Some(digest) then Some(|tokens| - 1) else None
  }

  /** A rotation mints once: the record it captured on an earlier attempt is reused on every retry. */
  type Memory = Option<Token>

  type Outcome = CasStore.Attempt<Store, Memory, Reply>

  function Clean(store: Store, memory: Memory, reply: Reply): Outcome { CasStore.Attempt(store, memory, reply, false) }

  function Apply(op: Op, memory: Memory, store: Store): Outcome {
    match op
    case Add(record) => CasStore.Attempt(store + [record], memory, Added(record), true)
    case Rotate(id, recaption, now, minted) =>
      var slot := FindId(store, id);
      if slot.None? || store[slot.value].revokedAt.Some? then Clean(store, memory, Rotated(None))
      else
        var prior := store[slot.value];
        var caption := if recaption.Some? then recaption.value else prior.caption;
        var created := if memory.Some? then memory.value
                       else minted.(caption := caption, createdAt := now, lastUsedAt := None, revokedAt := None);
        CasStore.Attempt(store[slot.value := prior.(revokedAt := Some(now))] + [created],
                         Some(created), Rotated(Some(created)), true)
    case Revoke(id, now) =>
      var slot := FindId(store, id);
      if slot.None? || store[slot.value].revokedAt.Some? then Clean(store, memory, Revoked(false))
      else CasStore.Attempt(store[slot.value := store[slot.value].(revokedAt := Some(now))], memory, Revoked(true), true)
    case Verify(digest, now) =>
      var slot := FindLive(store, digest);
      if slot.None? then Clean(store, memory, Verified(None))
      else
        var used := store[slot.value].(lastUsedAt := Some(now));
        var persisted := store[slot.value].lastUsedAt;
        CasStore.Attempt(store[slot.value := used], memory, Verified(Some(used)),
                         persisted.None? || now - persisted.value >= LAST_USED_PERSIST_THRESHOLD_MS)
    case Save(incoming) => CasStore.Attempt(Merge(store, incoming), memory, Saved, true)
  }

  // ---- Revocation is permanent ----

  /** Slots are never dropped, moved or renamed, and a revoked slot stays revoked. */
  ghost predicate Extends(before: Store, after: Store) {
    && |before| <= |after|
    && forall i :: 0 <= i < |before| ==>
         after[i].id == before[i].id && (before[i].revokedAt.Some? ==> after[i].revokedAt.Some?)
  }

  lemma {:induction false} MergeExtends(current: Store, incoming: Store)
    ensures Extends(current, Merge(current, incoming))
  {
    if incoming != [] { MergeExtends(current, incoming[..|incoming| - 1]); }
  }

  lemma ApplyExtends(op: Op, memory: Memory, store: Store)
    ensures Extends(store, Apply(op, memory, store).store)
  {
    if op.Save? { MergeExtends(store, op.incoming); }
  }

  type Log = seq<CasStore.Entry<Op, Memory>>

  function StoreAfter(init: Store, log: Log): Store { CasStore.Replay(Apply, init, log) }

  lemma {:induction false} LogExtends(init: Store, log: Log, n: nat)
    requires n <= |log|
    ensures Extends(StoreAfter(init, log[..n]), StoreAfter(init, log))
  {
    if n == |log| {
      assert log[..n] == log;
    } else {
      var prior := log[..|log| - 1];
      assert prior[..n] == log[..n];
      LogExtends(init, prior, n);
      ApplyExtends(log[|log| - 1].op, log[|log| - 1].memory, StoreAfter(init, prior));
    }
  }

  lemma {:induction false} FindIdStable(before: Store, after: Store, id: string)
    requires Extends(before, after) && FindId(before, id).Some?
    ensures FindId(after, id) == FindId(before, id)
  {
    var i := FindId(before, id).value;
    assert after[i].id == id;
    assert forall j :: 0 <= j < i ==> after[j].id == before[j].id != id;
  }

  /** The token an operation retires when it succeeds. */
  predicate Retires(op: Op, id: string) {
    match op
    case Rotate(i, _, _, _) => i == id
    case Revoke(i, _) => i == id
    case _ => false
  }

  predicate Succeeded(reply: Reply) {
    match reply
    case Rotated(created) => created.Some?
    case Revoked(done) => done
    case _ => false
  }

  /** A successful rotation revokes its slot and appends exactly the one minted record; otherwise it changes nothing. */
  lemma RotationIsAtomic(id: string, recaption: Option<string>, now: int, minted: Token, memory: Memory, store: Store)
    ensures var a := Apply(Rotate(id, recaption, now, minted), memory, store);
            && (a.dirty <==> Succeeded(a.result))
            && (!a.dirty ==> a.store == store)
            && (a.dirty ==> exists i: nat ::
                  && i < |store| && store[i].id == id && store[i].revokedAt.None?
                  && a.store == store[i := store[i].(revokedAt := Some(now))] + [a.result.created.value]
                  && (memory.Some? ==> a.result.created == memory))
  {
    var slot := FindId(store, id);
    if slot.Some? && store[slot.value].revokedAt.None? {
      assert store[slot.value].id == id;
    }
  }

  /** A retry of a rotation reuses the record minted by the attempt before it. */
  lemma RetryMintsOnce(op: Op, memory: Memory, store: Store, later: Store)
    requires op.Rotate? && Succeeded(Apply(op, memory, store).result)
    requires Succeeded(Apply(op, Apply(op, memory, store).memory, later).result)
    ensures Apply(op, Apply(op, memory, store).memory, later).result == Apply(op, memory, store).result
  {
  }

  /** Right after a successful retirement the first slot of its id is revoked. */
  lemma RetiredAt(init: Store, log: Log, n: nat, id: string)
    requires n < |log| && Retires(log[n].op, id)
    requires Succeeded(Apply(log[n].op, log[n].memory, StoreAfter(init, log[..n])).result)
    ensures var after := StoreAfter(init, log[..n + 1]);
            FindId(after, id).Some? && after[FindId(after, id).value].revokedAt.Some?
  {
    assert log[..n + 1][..n] == log[..n];
    RetirementRevokes(log[n].op, log[n].memory, StoreAfter(init, log[..n]), id);
  }

  lemma RetirementRevokes(op: Op, memory: Memory, store: Store, id: string)
    requires Retires(op, id) && Succeeded(Apply(op, memory, store).result)
    ensures var after := Apply(op, memory, store).store;
            FindId(after, id).Some? && after[FindId(after, id).value].revokedAt.Some?
  {
    ApplyExtends(op, memory, store);
    FindIdStable(store, Apply(op, memory, store).store, id);
  }

  lemma RetiredStaysRetired(init: Store, log: Log, n: nat, op: Op, memory: Memory, id: string)
    requires n < |log| && Retires(log[n].op, id)
    requires Succeeded(Apply(log[n].op, log[n].memory, StoreAfter(init, log[..n])).result)
    requires Retires(op, id)
    ensures !Succeeded(Apply(op, memory, StoreAfter(init, log)).result)
  {
    RetiredAt(init, log, n, id);
    LogExtends(init, log, n + 1);
    FindIdStable(StoreAfter(init, log[..n + 1]), StoreAfter(init, log), id);
  }

  /**
   * In every interleaving of every mix of operations, at most one operation
   * that retires a given token id succeeds.
   */
  lemma RetiredAtMostOnce(
    init: Store, moves: seq<CasStore.Move<Op, Memory>>, a: nat, b: nat, id: string)
    requires var s := CasStore.Run(Apply, init, moves);
             && a < |s.clients| && s.clients[a].phase.Finished? && Succeeded(s.clients[a].phase.result)
             && b < |s.clients| && s.clients[b].phase.Finished? && Succeeded(s.clients[b].phase.result)
             && Retires(s.clients[a].op, id) && Retires(s.clients[b].op, id)
    ensures a == b
  {
    var s := CasStore.Run(Apply, init, moves);
    CasStore.Linearizes(Apply, init, moves);
    assert CasStore.Answered(Apply, init, s, a) && CasStore.Answered(Apply, init, s, b);
    NotBefore(init, s, a, b, id);
    NotBefore(init, s, b, a, id);
    assert s.log[s.clients[a].phase.at].client == a;
  }

  /** Of two successful retirements of one id, neither can come first. */
  lemma NotBefore(init: Store, s: CasStore.System<Store, Op, Memory, Reply>, a: nat, b: nat, id: string)
    requires a < |s.clients| && s.clients[a].phase.Finished? && b < |s.clients| && s.clients[b].phase.Finished?
    requires CasStore.Answered(Apply, init, s, a) && CasStore.Answered(Apply, init, s, b)
    requires Succeeded(s.clients[a].phase.result) && Succeeded(s.clients[b].phase.result)
    requires Retires(s.clients[a].op, id) && Retires(s.clients[b].op, id)
    ensures s.clients[a].phase.at >= s.clients[b].phase.at
    ensures s.clients[a].phase.committed && s.log[s.clients[a].phase.at].client == a
  {
    var i, j := s.clients[a].phase.at, s.clients[b].phase.at;
    Committed(init, s, a, id);
    if i < j { RetiredBefore(init, s.log, i, j, s.clients[b].op, s.clients[b].memory, id); }
  }

  /** A retirement that succeeded was written. */
  lemma Committed(init: Store, s: CasStore.System<Store, Op, Memory, Reply>, a: nat, id: string)
    requires a < |s.clients| && s.clients[a].phase.Finished? && CasStore.Answered(Apply, init, s, a)
    requires Succeeded(s.clients[a].phase.result) && Retires(s.clients[a].op, id)
    ensures s.clients[a].phase.committed && s.clients[a].phase.at < |s.log|
    ensures s.log[s.clients[a].phase.at] == CasStore.Entry(a, s.clients[a].op, s.clients[a].memory)
  {
  }

  lemma RetiredBefore(init: Store, log: Log, i: nat, j: nat, op: Op, memory: Memory, id: string)
    requires i < j <= |log| && Retires(log[i].op, id) && Retires(op, id)
    requires Succeeded(Apply(log[i].op, log[i].memory, StoreAfter(init, log[..i])).result)
    ensures !Succeeded(Apply(op, memory, StoreAfter(init, log[..j])).result)
  {
    assert log[..j][..i] == log[..i];
    RetiredStaysRetired(init, log[..j], i, op, memory, id);
  }

  // ---- Ids stay unique ----

  predicate UniqueIds(tokens: Store) {
    forall i, j :: 0 <= i < j < |tokens| ==> tokens[i].id != tokens[j].id
  }

  /** A random id is new to the store its record is added to. */
  predicate MintsFresh(op: Op, memory: Memory, store: Store) {
    match op
    case Add(record) => FindId(store, record.id).None?
    case Rotate(_, _, _, minted) => FindId(store, if memory.Some? then memory.value.id else minted.id).None?
    case _ => true
  }

  lemma {:induction false} MergeUnique(current: Store, incoming: Store)
    requires UniqueIds(current)
    ensures UniqueIds(Merge(current, incoming))
  {
    if incoming != [] {
      var n := |incoming| - 1;
      MergeUnique(current, incoming[..n]);
      AbsorbUnique(Merge(current, incoming[..n]), incoming[n]);
    }
  }

  lemma AbsorbUnique(tokens: Store, record: Token)
    requires UniqueIds(tokens)
    ensures UniqueIds(Absorb(tokens, record))
  {
  }

  /** Every minted id was new when its record was added. */
  ghost predicate AllMinted(init: Store, log: Log) {
    forall n :: 0 <= n < |log| ==> MintsFresh(log[n].op, log[n].memory, StoreAfter(init, log[..n]))
  }

  lemma MintedBefore(init: Store, log: Log, j: nat)
    requires AllMinted(init, log) && j <= |log|
    ensures AllMinted(init, log[..j])
  {
    forall n | 0 <= n < j ensures MintsFresh(log[..j][n].op, log[..j][n].memory, StoreAfter(init, log[..j][..n])) {
      assert log[..j][..n] == log[..n];
    }
  }

  lemma ApplyUnique(op: Op, memory: Memory, store: Store)
    requires UniqueIds(store) && MintsFresh(op, memory, store)
    ensures UniqueIds(Apply(op, memory, store).store)
  {
    if op.Save? { MergeUnique(store, op.incoming); }
  }

  lemma {:induction false} LogUnique(init: Store, log: Log)
    requires UniqueIds(init) && AllMinted(init, log)
    ensures UniqueIds(StoreAfter(init, log))
  {
    if log != [] {
      var prior, e := log[..|log| - 1], log[|log| - 1];
      MintedBefore(init, log, |log| - 1);
      LogUnique(init, prior);
      ApplyUnique(e.op, e.memory, StoreAfter(init, prior));
    }
  }

  lemma RetiredSlot(init: Store, log: Log, n: nat, id: string)
    requires n < |log| && Retires(log[n].op, id)
    requires Succeeded(Apply(log[n].op, log[n].memory, StoreAfter(init, log[..n])).result)
    ensures exists p: nat :: p < |StoreAfter(init, log)| &&
              StoreAfter(init, log)[p].id == id && StoreAfter(init, log)[p].revokedAt.Some?
  {
    RetiredAt(init, log, n, id);
    LogExtends(init, log, n + 1);
  }

  lemma VerifyAvoidsRetired(init: Store, log: Log, n: nat, op: Op, memory: Memory, id: string)
    requires UniqueIds(init) && op.Verify? && AllMinted(init, log)
    requires n < |log| && Retires(log[n].op, id)
    requires Succeeded(Apply(log[n].op, log[n].memory, StoreAfter(init, log[..n])).result)
    ensures var answer := Apply(op, memory, StoreAfter(init, log)).result;
            answer.Verified? && (answer.found.Some? ==> answer.found.value.id != id)
  {
    LogUnique(init, log);
    RetiredSlot(init, log, n, id);
    RevokedNotFound(StoreAfter(init, log), op, memory, id);
  }

  /** A verification never answers with an id whose only slot is revoked. */
  lemma RevokedNotFound(store: Store, op: Op, memory: Memory, id: string)
    requires UniqueIds(store) && op.Verify?
    requires exists p: nat :: p < |store| && store[p].id == id && store[p].revokedAt.Some?
    ensures var answer := Apply(op, memory, store).result; answer.Verified? && (answer.found.Some? ==> answer.found.value.id != id)
  {
    var p: nat :| p < |store| && store[p].id == id && store[p].revokedAt.Some?;
    var slot := FindLive(store, op.digest);
    if slot.Some? { assert store[slot.value].revokedAt.None? && slot.value != p; }
  }

  /**
   * No verification placed after a successful revocation or rotation of an id
   * answers with that id, in any interleaving, as long as minted ids are new.
   */
  lemma NoVerifyAfterRetirement(
    init: Store, moves: seq<CasStore.Move<Op, Memory>>, a: nat, v: nat, id: string)
    requires var s := CasStore.Run(Apply, init, moves);
             && UniqueIds(init) && AllMinted(init, s.log)
             && a < |s.clients| && s.clients[a].phase.Finished? && Succeeded(s.clients[a].phase.result)
             && Retires(s.clients[a].op, id)
             && v < |s.clients| && s.clients[v].phase.Finished? && s.clients[v].op.Verify?
             && s.clients[a].phase.at < s.clients[v].phase.at
    ensures var s := CasStore.Run(Apply, init, moves);
            var answer := s.clients[v].phase.result;
            answer.Verified? && (answer.found.Some? ==> answer.found.value.id != id)
  {
    var s := CasStore.Run(Apply, init, moves);
    CasStore.Linearizes(Apply, init, moves);
    assert CasStore.Answered(Apply, init, s, a) && CasStore.Answered(Apply, init, s, v);
    VerifyAfter(init, s, a, v, id);
  }

  /** An answered verification whose place in the log lies after an answered retirement's. */
  lemma VerifyAfter(init: Store, s: CasStore.System<Store, Op, Memory, Reply>, a: nat, v: nat, id: string)
    requires UniqueIds(init) && AllMinted(init, s.log)
    requires a < |s.clients| && s.clients[a].phase.Finished? && v < |s.clients| && s.clients[v].phase.Finished?
    requires CasStore.Answered(Apply, init, s, a) && CasStore.Answered(Apply, init, s, v)
    requires Succeeded(s.clients[a].phase.result) && Retires(s.clients[a].op, id)
    requires s.clients[v].op.Verify? && s.clients[a].phase.at < s.clients[v].phase.at
    ensures var answer := s.clients[v].phase.result; answer.Verified? && (answer.found.Some? ==> answer.found.value.id != id)
  {
    var i, j := s.clients[a].phase.at, s.clients[v].phase.at;
    Committed(init, s, a, id);
    MintedBefore(init, s.log, j);
    assert s.log[..j][..i] == s.log[..i];
    VerifyAvoidsRetired(init, s.log[..j], i, s.clients[v].op, s.clients[v].memory, id);
  }
}
