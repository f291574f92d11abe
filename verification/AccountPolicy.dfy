/**
 * lib/account-policy.ts: the policy store's three-way save merge and its
 * per-field edits, run through the same compare-and-swap loop. Tags are a
 * set, since the source keeps them deduplicated and sorted.
 */
module AccountPolicy {
  import opened Prelude
  import CasStore

  datatype Policy = Policy(
    tags: set<string>, weight: real, priority: int, autoPrime: bool, emergencyOnly: bool, paused: bool, drained: bool,
    note: Option<string>, updatedAt: int)

  type Policies = map<string, Policy>

  const FRESH_POLICY := Policy({}, 1.0, 1, false, false, false, false, None, 0)

  /** A clock that fell behind the entry being replaced stamps just after it instead. */
  function StampUpdatedAt(now: int, prior: Option<int>): int {
    if prior.Some? && now < prior.value then prior.value + 1 else now
  }

  function StampOf(policy: Option<Policy>): Option<int> {
    if policy.Some? then Some(policy.value.updatedAt) else None
  }

  /** What a save leaves under one key, given what the disk, the caller and the caller's baseline hold there. */
  function MergedEntry(disk: Option<Policy>, policy: Policy, baseline: Option<Policies>, key: string): Option<Policy> {
    if baseline.None? then
      if disk.None? || policy.updatedAt >= disk.value.updatedAt then Some(policy) else disk
    else if At(baseline.value, key) == Some(policy) then disk
    else Some(policy.(updatedAt := StampUpdatedAt(policy.updatedAt, StampOf(disk))))
  }

  function EntryAfter(current: Policies, incoming: Policies, baseline: Option<Policies>, key: string): Option<Policy> {
    if key in incoming then MergedEntry(At(current, key), incoming[key], baseline, key) else At(current, key)
  }

  /** The store a save writes over `current`. */
  function Merged(current: Policies, incoming: Policies, baseline: Option<Policies>): (merged: Policies)
    ensures forall key: string :: At(merged, key) == EntryAfter(current, incoming, baseline, key)
  {
    map key: string | key in current.Keys + incoming.Keys && EntryAfter(current, incoming, baseline, key).Some?
      :: EntryAfter(current, incoming, baseline, key).value
  }

  /** An entry that lands over a baseline is stamped in place, and carries the stamp into a retry. */
  function Stamped(disk: Option<Policy>, policy: Policy, baseline: Option<Policies>, key: string): Policy {
    if baseline.Some? && At(baseline.value, key) != Some(policy)
    then policy.(updatedAt := StampUpdatedAt(policy.updatedAt, StampOf(disk))) else policy
  }

  /** The caller's entries after the merge. */
  function Restamped(current: Policies, incoming: Policies, baseline: Option<Policies>): Policies {
    map key: string | key in incoming :: Stamped(At(current, key), incoming[key], baseline, key)
  }

  /** One entry of the loop: whether it lands, and as what. */
  method MergeOne(existing: Option<Policy>, policy: Policy, baseline: Option<Policies>, key: string)
    returns (lands: bool, stamped: Policy)
    ensures stamped == Stamped(existing, policy, baseline, key)
    ensures MergedEntry(existing, policy, baseline, key) == if lands then Some(stamped) else existing
  {
    if baseline.None? { return existing.None? || policy.updatedAt >= existing.value.updatedAt, policy; }
    if At(baseline.value, key) == Some(policy) { return false, policy; }
    return true, policy.(updatedAt := StampUpdatedAt(policy.updatedAt, StampOf(existing)));
  }

  /** What the loop has done about a key it has visited. */
  ghost predicate KeyMerged(
    merged: Policies, restamped: Policies, current: Policies, incoming: Policies, baseline: Option<Policies>, key: string)
  {
    && At(merged, key) == EntryAfter(current, incoming, baseline, key)
    && At(restamped, key) == At(Restamped(current, incoming, baseline), key)
  }

  ghost predicate KeyWaiting(merged: Policies, restamped: Policies, current: Policies, incoming: Policies, key: string) {
    At(merged, key) == At(current, key) && At(restamped, key) == At(incoming, key)
  }

  method MergeAccountPolicies(current: Policies, incoming: Policies, baseline: Option<Policies>)
    returns (merged: Policies, restamped: Policies)
    ensures merged == Merged(current, incoming, baseline) && restamped == Restamped(current, incoming, baseline)
  {
    merged, restamped := current, incoming;
    var todo := incoming.Keys;
    while todo != {}
      invariant todo <= incoming.Keys
      invariant forall key: string | key in todo :: KeyWaiting(merged, restamped, current, incoming, key)
      invariant forall key: string | key !in todo :: KeyMerged(merged, restamped, current, incoming, baseline, key)
      decreases |todo|
    {
      var key :| key in todo;
      ghost var m, r := merged, restamped;
      assert KeyWaiting(m, r, current, incoming, key);
      todo := todo - {key};
      var lands, policy := MergeOne(At(merged, key), incoming[key], baseline, key);
      restamped := restamped[key := policy];
      if lands { merged := merged[key := policy]; }
      forall k: string | k in todo ensures KeyWaiting(merged, restamped, current, incoming, k) {
        assert KeyWaiting(m, r, current, incoming, k);
      }
      forall k: string | k !in todo ensures KeyMerged(merged, restamped, current, incoming, baseline, k) {
        if k != key { assert KeyMerged(m, r, current, incoming, baseline, k); }
      }
    }
    AllMerged(merged, restamped, current, incoming, baseline);
  }

  lemma AllMerged(merged: Policies, restamped: Policies, current: Policies, incoming: Policies, baseline: Option<Policies>)
    requires forall key: string :: KeyMerged(merged, restamped, current, incoming, baseline, key)
    ensures merged == Merged(current, incoming, baseline) && restamped == Restamped(current, incoming, baseline)
  {
    forall key: string
      ensures At(merged, key) == At(Merged(current, incoming, baseline), key)
      ensures At(restamped, key) == At(Restamped(current, incoming, baseline), key)
    {
      assert KeyMerged(merged, restamped, current, incoming, baseline, key);
    }
    SameMap(merged, Merged(current, incoming, baseline));
    SameMap(restamped, Restamped(current, incoming, baseline));
  }

  /**
   * A save drops no key and takes no entry back in time; a carried copy the
   * caller did not touch changes nothing, and a deliberate edit always lands.
   */
  lemma MergeKeepsAndLands(merged: Policies, current: Policies, incoming: Policies, baseline: Option<Policies>, key: string)
    requires merged == Merged(current, incoming, baseline)
    ensures key in current ==> key in merged && merged[key].updatedAt >= current[key].updatedAt
    ensures key !in incoming ==> At(merged, key) == At(current, key)
    ensures baseline.Some? && key in incoming && At(baseline.value, key) == Some(incoming[key]) ==>
              At(merged, key) == At(current, key)
    ensures baseline.Some? && key in incoming && At(baseline.value, key) != Some(incoming[key]) ==>
              key in merged && merged[key].(updatedAt := 0) == incoming[key].(updatedAt := 0)
    ensures baseline.None? && key in incoming ==> key in merged && merged[key].updatedAt >= incoming[key].updatedAt
  {
    assert At(merged, key) == EntryAfter(current, incoming, baseline, key);
  }

  // ---- Edits and saves through the compare-and-swap loop ----

  /** One field of one policy, as the commands change it. */
  datatype Change =
    | SetTags(tags: set<string>)
    | SetWeight(weight: real)
    | SetPriority(priority: int)
    | SetAutoPrime(autoPrime: bool)
    | SetEmergencyOnly(emergencyOnly: bool)
    | SetPaused(paused: bool)
    | SetDrained(drained: bool)
    | SetNote(note: Option<string>)

  datatype Op = Edit(key: string, change: Change, now: int) | Save(incoming: Policies, baseline: Option<Policies>)

  /** What an earlier attempt left of the entries being saved. */
  type Memory = Option<Policies>

  function ClampWeight(w: real): real { if w < 0.0 then 0.0 else if w > 10.0 then 10.0 else w }

  function ClampPriority(p: int): int { if 0 <= p <= 9 then p else 1 }

  function Changed(p: Policy, change: Change): Policy {
    match change
    case SetTags(tags) => p.(tags := tags)
    case SetWeight(w) => p.(weight := ClampWeight(w))
    case SetPriority(n) => p.(priority := ClampPriority(n))
    case SetAutoPrime(b) => p.(autoPrime := b)
    case SetEmergencyOnly(b) => p.(emergencyOnly := b)
    case SetPaused(b) => p.(paused := b)
    case SetDrained(b) => p.(drained := b)
    case SetNote(note) => p.(note := note)
  }

  function PolicyAt(store: Policies, key: string): Policy {
    if key in store then store[key] else FRESH_POLICY
  }

  /** The entries a save merges at this attempt. */
  function Carried(op: Op, memory: Memory): Policies
    requires op.Save?
  {
    if memory.Some? then memory.value else op.incoming
  }

  /** An upsert under updateAccountPolicyStore captures nothing between attempts; a save captures its stamps. */
  function Apply(op: Op, memory: Memory, store: Policies): CasStore.Attempt<Policies, Memory, Option<Policy>> {
    match op
    case Edit(key, change, now) =>
      var next := Changed(PolicyAt(store, key), change).(updatedAt := StampUpdatedAt(now, StampOf(At(store, key))));
      CasStore.Attempt(store[key := next], memory, Some(next), true)
    case Save(_, baseline) =>
      var incoming := Carried(op, memory);
      CasStore.Attempt(Merged(store, incoming, baseline), Some(Restamped(store, incoming, baseline)), None, true)
  }

  type Log = seq<CasStore.Entry<Op, Memory>>

  function StoreAfter(init: Policies, log: Log): Policies { CasStore.Replay(Apply, init, log) }

  predicate SameField(a: Change, b: Change) {
    || (a.SetTags? && b.SetTags?) || (a.SetWeight? && b.SetWeight?) || (a.SetPriority? && b.SetPriority?)
    || (a.SetAutoPrime? && b.SetAutoPrime?) || (a.SetEmergencyOnly? && b.SetEmergencyOnly?)
    || (a.SetPaused? && b.SetPaused?) || (a.SetDrained? && b.SetDrained?) || (a.SetNote? && b.SetNote?)
  }

  /** A save brings its own version of a key, unless it only carries the copy it once loaded. */
  predicate Brings(op: Op, memory: Memory, key: string)
    requires op.Save?
  {
    key in Carried(op, memory) && (op.baseline.Some? ==> At(op.baseline.value, key) != Some(Carried(op, memory)[key]))
  }

  /** A commit that can take away what `edit` changed. */
  predicate Overwrites(op: Op, memory: Memory, edit: Op)
    requires edit.Edit?
  {
    match op
    case Edit(key, change, _) => key == edit.key && SameField(change, edit.change)
    case Save(_, _) => Brings(op, memory, edit.key)
  }

  /** The policy already shows the change: making it again would alter nothing. */
  predicate Shows(p: Policy, change: Change) { Changed(p, change) == p }

  lemma ChangeShows(p: Policy, change: Change, stamp: int)
    ensures Shows(Changed(p, change).(updatedAt := stamp), change)
  {
    match change
    case SetWeight(w) => assert ClampWeight(ClampWeight(w)) == ClampWeight(w);
    case _ =>
  }

  lemma OtherChangeKeeps(p: Policy, change: Change, other: Change, stamp: int)
    requires Shows(p, change) && !SameField(other, change)
    ensures Shows(Changed(p, other).(updatedAt := stamp), change)
  {
    match change
    case SetTags(_) =>
    case _ =>
  }

  lemma StepKeepsEdit(store: Policies, op: Op, memory: Memory, edit: Op)
    requires edit.Edit? && edit.key in store && Shows(store[edit.key], edit.change) && !Overwrites(op, memory, edit)
    ensures var after := Apply(op, memory, store).store; edit.key in after && Shows(after[edit.key], edit.change)
  {
    match op
    case Edit(key, change, _) =>
      if key == edit.key { OtherChangeKeeps(store[key], edit.change, change, Apply(op, memory, store).store[key].updatedAt); }
    case Save(_, baseline) =>
      assert At(Merged(store, Carried(op, memory), baseline), edit.key) == EntryAfter(store, Carried(op, memory), baseline, edit.key);
  }

  /**
   * Edits of other fields and other policies, and saves that only carry a copy
   * of the policy, leave the effect of a committed edit in place.
   */
  lemma {:induction false} EditSurvives(init: Policies, log: Log, n: nat)
    requires n < |log| && log[n].op.Edit?
    requires forall i :: n < i < |log| ==> !Overwrites(log[i].op, log[i].memory, log[n].op)
    ensures log[n].op.key in StoreAfter(init, log)
    ensures Shows(StoreAfter(init, log)[log[n].op.key], log[n].op.change)
  {
    var prior, last := log[..|log| - 1], log[|log| - 1];
    if n < |prior| {
      EditSurvives(init, prior, n);
      StepKeepsEdit(StoreAfter(init, prior), last.op, last.memory, log[n].op);
    } else {
      var key := last.op.key;
      ChangeShows(PolicyAt(StoreAfter(init, prior), key), last.op.change, StoreAfter(init, log)[key].updatedAt);
    }
  }

  /**
   * No lost update: in every interleaving of editing and saving processes, each
   * committed edit is visible in the store unless a later commit set the same
   * field of the same policy or saved a changed version of it.
   */
  lemma NoLostEdit(init: Policies, moves: seq<CasStore.Move<Op, Memory>>, k: nat)
    requires var s := CasStore.Run(Apply, init, moves);
             && k < |s.clients| && s.clients[k].phase.Finished? && s.clients[k].op.Edit?
             && forall i :: s.clients[k].phase.at < i < |s.log| ==> !Overwrites(s.log[i].op, s.log[i].memory, s.clients[k].op)
    ensures var s := CasStore.Run(Apply, init, moves);
            s.clients[k].op.key in s.store && Shows(s.store[s.clients[k].op.key], s.clients[k].op.change)
  {
    var s := CasStore.Run(Apply, init, moves);
    CasStore.Linearizes(Apply, init, moves);
    assert CasStore.Answered(Apply, init, s, k);
    EditSurvives(init, s.log, s.clients[k].phase.at);
  }

  lemma StampStep(store: Policies, op: Op, memory: Memory, key: string)
    requires key in store
    ensures var after := Apply(op, memory, store).store; key in after && after[key].updatedAt >= store[key].updatedAt
  {
    if op.Save? { MergeKeepsAndLands(Apply(op, memory, store).store, store, Carried(op, memory), op.baseline, key); }
  }

  /** Over every run of edits and saves no policy is dropped and no stamp goes back. */
  lemma {:induction false} StampsNeverFall(init: Policies, log: Log, n: nat, key: string)
    requires n <= |log| && key in StoreAfter(init, log[..n])
    ensures key in StoreAfter(init, log)
    ensures StoreAfter(init, log)[key].updatedAt >= StoreAfter(init, log[..n])[key].updatedAt
  {
    if n == |log| {
      assert log[..n] == log;
    } else {
      var prior, last := log[..|log| - 1], log[|log| - 1];
      assert prior[..n] == log[..n];
      StampsNeverFall(init, prior, n, key);
      StampStep(StoreAfter(init, prior), last.op, last.memory, key);
    }
  }
}
