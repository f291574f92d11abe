/**
 * lib/accounts.ts, the rate-limit markers: a rejection sets a bounded deadline,
 * a newer `switch` clears the selected account's deadlines, and a rejection
 * recorded while the selection could not be read must survive that clear.
 */
module RateLimits {
  import opened Prelude

  datatype Family = Gpt5Codex | CodexMax | Codex | Gpt52 | Gpt51

  datatype QuotaKey = QuotaKey(family: Family, model: Option<string>, workspace: Option<string>)

  datatype Reason = Quota | Tokens | Concurrent | Unknown

  type Limits = map<QuotaKey, int>

  const RATE_LIMIT_CACHE_TTL_MS := 3600000

  const UNSEQUENCED_RATE_LIMIT_TTL_MS := 30000

  const RESERVE_MODEL := "gpt-reserve"

  /** A 429 as the caller reports it; an empty model name counts as none. */
  datatype Rejection = Rejection(family: Family, model: Option<string>, workspace: Option<string>, reason: Reason, retryAfter: real)

  predicate Named(model: Option<string>) { model.Some? && model.value != "" }

  predicate IsReserve(model: Option<string>) { model == Some(RESERVE_MODEL) }

  function BaseKey(hit: Rejection): QuotaKey { QuotaKey(hit.family, None, hit.workspace) }

  function ModelKey(hit: Rejection): QuotaKey { QuotaKey(hit.family, hit.model, hit.workspace) }

  /** The deadlines a rejection moves. */
  function TouchedKeys(hit: Rejection): set<QuotaKey> {
    (if !IsReserve(hit.model) && (!Named(hit.model) || hit.reason == Quota || hit.reason == Unknown) then {BaseKey(hit)} else {})
    + (if Named(hit.model) && (IsReserve(hit.model) || hit.reason != Quota) then {ModelKey(hit)} else {})
  }

  /** The deadlines a selection for this family and model consults. */
  function ConsultedKeys(family: Family, model: Option<string>, workspace: Option<string>): set<QuotaKey> {
    (if Named(model) then {QuotaKey(family, model, None), QuotaKey(family, model, workspace)} else {})
    + (if IsReserve(model) then {} else {QuotaKey(family, None, None), QuotaKey(family, None, workspace)})
  }

  predicate Limited(limits: Limits, keys: set<QuotaKey>, now: int) {
    exists k :: k in keys && k in limits && now < limits[k]
  }

  /** Every rejection moves at least one deadline, and one that a later selection of the same kind consults. */
  lemma RejectionBlocksItsOwnKind(hit: Rejection)
    ensures TouchedKeys(hit) != {}
    ensures exists k :: k in TouchedKeys(hit) && k in ConsultedKeys(hit.family, hit.model, hit.workspace)
    ensures hit.model.Some? && IsReserve(hit.model) ==>
      TouchedKeys(hit) !! ConsultedKeys(hit.family, None, hit.workspace)
  {
    var k := if !IsReserve(hit.model) && (!Named(hit.model) || hit.reason == Quota || hit.reason == Unknown) then BaseKey(hit) else ModelKey(hit);
    assert k in TouchedKeys(hit);
    assert k in ConsultedKeys(hit.family, hit.model, hit.workspace);
  }

  function RetryMs(retryAfter: real): nat { Min(Max(0, retryAfter.Floor), RATE_LIMIT_CACHE_TTL_MS) }

  function Deadline(hit: Rejection, now: nat): nat { now + RetryMs(hit.retryAfter) }

  function Until(limits: Limits, key: QuotaKey): int { if key in limits then limits[key] else 0 }

  function Raise(limits: Limits, keys: set<QuotaKey>, until: int): Limits {
    map k | k in limits.Keys + keys :: if k in keys then Max(Until(limits, k), until) else limits[k]
  }

  /** Rejections whose order relative to a `switch` is not known. */
  datatype Pending = Pending(limits: Limits, reason: Reason, recordedAt: nat)

  datatype LimitState = LimitState(limits: Limits, pending: Option<Pending>, reason: Option<Reason>)

  function Replayable(s: LimitState, now: nat): Option<Pending> {
    if s.pending.Some? && now - s.pending.value.recordedAt <= UNSEQUENCED_RATE_LIMIT_TTL_MS then s.pending else None
  }

  /** What a newer selection of this account leaves. */
  function Switched(s: LimitState, now: nat): LimitState {
    match Replayable(s, now)
    case None => LimitState(map[], None, None)
    case Some(p) => LimitState(p.limits, None, Some(p.reason))
  }

  function Recorded(s: LimitState, hit: Rejection, now: nat, readable: bool): LimitState {
    var keys, until := TouchedKeys(hit), Deadline(hit, now);
    var carried := Replayable(s, now);
    var added := Raise(if carried.Some? then carried.value.limits else map[], keys, until);
    LimitState(Raise(s.limits, keys, until), if readable then None else Some(Pending(added, hit.reason, now)), Some(hit.reason))
  }

  function Unexpired(limits: Limits, now: nat): Limits { map k | k in limits && now < limits[k] :: limits[k] }

  /** The bound put on stored deadlines when a pool is loaded. */
  function Bounded(limits: Limits, now: nat): Limits { map k | k in limits :: Min(limits[k], now + RATE_LIMIT_CACHE_TTL_MS) }

  // ---- The selection: pin and generation ----

  datatype Meta = Meta(pin: Option<int>, gen: nat)

  datatype Pool = Pool(selection: Meta, accounts: seq<LimitState>)

  predicate InRange(pin: Option<int>, count: nat) { pin.Some? && 0 <= pin.value < count }

  function ApplyManualSelection(p: Pool, meta: Meta, now: nat): (r: Pool)
    ensures |r.accounts| == |p.accounts|
  {
    if meta.gen <= p.selection.gen then p
    else if InRange(meta.pin, |p.accounts|) then
      Pool(meta, p.accounts[meta.pin.value := Switched(p.accounts[meta.pin.value], now)])
    else p.(selection := Meta(None, meta.gen))
  }

  function Reconciled(p: Pool, meta: Meta, now: nat): (r: Pool)
    ensures |r.accounts| == |p.accounts|
  {
    var applied := ApplyManualSelection(p, meta, now);
    if InRange(applied.selection.pin, |p.accounts|) then applied
    else applied.(selection := Meta(None, applied.selection.gen))
  }

  datatype Op =
    | Reject(account: nat, hit: Rejection, observed: Option<Meta>, now: nat)
    | Reconcile(disk: Meta, now: nat)
    | ClearExpired(account: nat, now: nat)
    | ClearTransient(now: nat)
    | Remove(account: nat, now: nat)

  function Forgiven(accounts: seq<LimitState>): seq<LimitState> {
    seq(|accounts|, i requires 0 <= i < |accounts| => accounts[i].(limits := map[], reason := None))
  }

  function Apply(p: Pool, op: Op): Pool
  {
    match op
    case Reject(i, hit, observed, now) =>
      var q := if observed.Some? then ApplyManualSelection(p, observed.value, now) else p;
      if i < |q.accounts| then q.(accounts := q.accounts[i := Recorded(q.accounts[i], hit, now, observed.Some?)]) else q
    case Reconcile(disk, now) => Reconciled(p, disk, now)
    case ClearExpired(i, now) =>
      if i < |p.accounts| then p.(accounts := p.accounts[i := p.accounts[i].(limits := Unexpired(p.accounts[i].limits, now))]) else p
    case ClearTransient(_) => p.(accounts := Forgiven(p.accounts))
    case Remove(i, _) => if i < |p.accounts| then p.(accounts := p.accounts[..i] + p.accounts[i + 1..]) else p
  }

  /** Where an account stands after an operation; None if it was removed. */
  function Stays(op: Op, at: nat): Option<nat> {
    if !op.Remove? || at < op.account then Some(at) else if at == op.account then None else Some(at - 1)
  }

  /** Where the account that stood at `i` first stands before the n-th operation. */
  function Place(ops: seq<Op>, i: nat, n: nat): Option<nat>
    requires n <= |ops|
  {
    if n == 0 then Some(i)
    else if Place(ops, i, n - 1).None? then None
    else Stays(ops[n - 1], Place(ops, i, n - 1).value)
  }

  function Run(p: Pool, ops: seq<Op>): Pool {
    if ops == [] then p else Apply(Run(p, ops[..|ops| - 1]), ops[|ops| - 1])
  }

  ghost predicate Timed(ops: seq<Op>) { forall i, j :: 0 <= i < j < |ops| ==> ops[i].now <= ops[j].now }

  /** The selection an operation read, if it read one. */
  function SeenMeta(op: Op): Option<Meta> {
    match op
    case Reject(_, _, observed, _) => observed
    case Reconcile(disk, _) => Some(disk)
    case _ => None
  }

  lemma ReconcileIdempotent(p: Pool, meta: Meta, now: nat, later: nat)
    ensures Reconciled(Reconciled(p, meta, now), meta, later) == Reconciled(p, meta, now)
    ensures Reconciled(p, meta, now).selection.gen == Max(p.selection.gen, meta.gen)
  {
  }

  lemma {:induction false} PlacePrefix(ops: seq<Op>, i: nat, n: nat, m: nat)
    requires m <= n <= |ops|
    ensures Place(ops[..n], i, m) == Place(ops, i, m)
  {
    if m > 0 { PlacePrefix(ops, i, n, m - 1); }
  }

  lemma {:induction false} PlacePlaced(ops: seq<Op>, i: nat, n: nat, m: nat)
    requires m <= n <= |ops| && Place(ops, i, n).Some?
    ensures Place(ops, i, m).Some?
  {
    if m < n { PlacePlaced(ops, i, n - 1, m); }
  }

  lemma StepStands(p: Pool, op: Op, at: nat)
    requires at < |p.accounts| && Stays(op, at).Some?
    ensures Stays(op, at).value < |Apply(p, op).accounts|
  {
  }

  /** An account that was not removed is in the pool at its place. */
  lemma {:induction false} Stands(p: Pool, ops: seq<Op>, i: nat)
    requires i < |p.accounts| && Place(ops, i, |ops|).Some?
    ensures Place(ops, i, |ops|).value < |Run(p, ops).accounts|
    decreases |ops|
  {
    if ops != [] {
      var n := |ops| - 1;
      PlacePrefix(ops, i, n, n);
      Stands(p, ops[..n], i);
      StepStands(Run(p, ops[..n]), ops[n], Place(ops, i, n).value);
    }
  }

  // ---- A rejection outlives every selection it has already seen ----

  /** An operation that can end the block: none that a generation at most `g` can cause before `until`. */
  predicate Harmless(op: Op, g: nat, until: int) {
    && (SeenMeta(op).Some? ==> SeenMeta(op).value.gen <= g)
    && !op.ClearTransient?
    && (op.ClearExpired? ==> op.now < until)
  }

  /** The account at `at` is blocked for `key` until `until` at least. */
  predicate Blocks(p: Pool, at: nat, key: QuotaKey, until: int) {
    at < |p.accounts| && key in p.accounts[at].limits && p.accounts[at].limits[key] >= until
  }

  lemma HarmlessStep(p: Pool, op: Op, at: nat, key: QuotaKey, until: int)
    requires Blocks(p, at, key, until) && Harmless(op, p.selection.gen, until)
    ensures Apply(p, op).selection.gen == p.selection.gen
    ensures Stays(op, at).Some? ==> Blocks(Apply(p, op), Stays(op, at).value, key, until)
  {
  }

  lemma HarmlessGen(p: Pool, op: Op, until: int)
    requires Harmless(op, p.selection.gen, until)
    ensures Apply(p, op).selection.gen == p.selection.gen
  {
  }

  /**
   * Once generation `g` is known, no reconciliation of a generation up to `g`,
   * no later rejection, and no removal of other accounts takes back a recorded
   * block before its deadline.
   */
  lemma {:induction false} RejectionSurvives(p: Pool, i: nat, hit: Rejection, meta: Meta, now: nat, ops: seq<Op>, key: QuotaKey)
    requires i < |p.accounts| && key in TouchedKeys(hit) && meta.gen <= p.selection.gen
    requires forall k :: 0 <= k < |ops| ==> Harmless(ops[k], p.selection.gen, Deadline(hit, now))
    ensures var after := Run(Apply(p, Reject(i, hit, Some(meta), now)), ops);
            && after.selection.gen == p.selection.gen
            && (Place(ops, i, |ops|).Some? ==> Blocks(after, Place(ops, i, |ops|).value, key, Deadline(hit, now)))
    decreases |ops|
  {
    var first := Apply(p, Reject(i, hit, Some(meta), now));
    if ops != [] {
      var n := |ops| - 1;
      RejectionSurvives(p, i, hit, meta, now, ops[..n], key);
      PlacePrefix(ops, i, n, n);
      var before := Run(first, ops[..n]);
      HarmlessGen(before, ops[n], Deadline(hit, now));
      if Place(ops, i, n).Some? { HarmlessStep(before, ops[n], Place(ops, i, n).value, key, Deadline(hit, now)); }
    }
  }

  // ---- Every block ends within the hour ----

  ghost predicate Within(limits: Limits, bound: int) { forall k :: k in limits ==> limits[k] <= bound }

  ghost predicate StateWithin(s: LimitState, bound: int) {
    Within(s.limits, bound) && (s.pending.Some? ==> Within(s.pending.value.limits, bound))
  }

  ghost predicate AllWithin(p: Pool, bound: int) { forall i :: 0 <= i < |p.accounts| ==> StateWithin(p.accounts[i], bound) }

  /** A pool as it comes from disk, whatever deadlines were stored. */
  ghost predicate JustLoaded(p: Pool, stored: seq<Limits>, loaded: nat) {
    && |stored| == |p.accounts|
    && forall i :: 0 <= i < |p.accounts| ==> p.accounts[i].pending.None? && p.accounts[i].limits == Bounded(stored[i], loaded)
  }

  lemma StepWithin(p: Pool, op: Op, t: nat)
    requires AllWithin(p, t + RATE_LIMIT_CACHE_TTL_MS) && t <= op.now
    ensures AllWithin(Apply(p, op), op.now + RATE_LIMIT_CACHE_TTL_MS)
  {
    match op {
      case Reject(i, hit, observed, now) =>
        if observed.Some? { SelectionWithin(p, observed.value, now, now + RATE_LIMIT_CACHE_TTL_MS); }
        var q := if observed.Some? then ApplyManualSelection(p, observed.value, now) else p;
        if i < |q.accounts| { RecordWithin(q.accounts[i], hit, now, observed.Some?); }
      case Reconcile(disk, now) => SelectionWithin(p, disk, now, now + RATE_LIMIT_CACHE_TTL_MS);
      case ClearExpired(_, _) =>
      case ClearTransient(_) =>
      case Remove(_, _) =>
    }
  }

  lemma SelectionWithin(p: Pool, meta: Meta, now: nat, bound: int)
    requires AllWithin(p, bound)
    ensures AllWithin(ApplyManualSelection(p, meta, now), bound)
  {
  }

  lemma RecordWithin(s: LimitState, hit: Rejection, now: nat, readable: bool)
    requires StateWithin(s, now + RATE_LIMIT_CACHE_TTL_MS)
    ensures StateWithin(Recorded(s, hit, now, readable), now + RATE_LIMIT_CACHE_TTL_MS)
  {
  }

  /** From a freshly loaded pool, no deadline ever lies more than an hour ahead. */
  lemma {:induction false} DeadlinesBounded(p: Pool, stored: seq<Limits>, ops: seq<Op>, loaded: nat)
    requires JustLoaded(p, stored, loaded)
    requires Timed(ops) && (ops != [] ==> loaded <= ops[0].now)
    ensures AllWithin(Run(p, ops), (if ops == [] then loaded else ops[|ops| - 1].now) + RATE_LIMIT_CACHE_TTL_MS)
    decreases |ops|
  {
    if ops != [] {
      var n := |ops| - 1;
      DeadlinesBounded(p, stored, ops[..n], loaded);
      StepWithin(Run(p, ops[..n]), ops[n], if n == 0 then loaded else ops[n - 1].now);
    }
  }

  // ---- What a switch leaves, told from the history alone ----

  /** The newest generation known before the n-th operation. */
  function GenBefore(g: nat, ops: seq<Op>, n: nat): nat
    requires n <= |ops|
  {
    if n == 0 then g
    else
      var seen := SeenMeta(ops[n - 1]);
      if seen.Some? then Max(GenBefore(g, ops, n - 1), seen.value.gen) else GenBefore(g, ops, n - 1)
  }

  /** The j-th operation is an unreadable recording for the account that first stood at `i`. */
  predicate Unsequenced(ops: seq<Op>, i: nat, j: int) {
    0 <= j < |ops| && ops[j].Reject? && ops[j].observed.None? && Place(ops, i, j) == Some(ops[j].account)
  }

  /** The j-th operation settles that account's order: it read the selection while rejecting, or it selected the account anew. */
  predicate Settles(g: nat, ops: seq<Op>, i: nat, j: int) {
    && 0 <= j < |ops| && Place(ops, i, j).Some? && SeenMeta(ops[j]).Some?
    && var at, seen := Place(ops, i, j).value, SeenMeta(ops[j]).value;
       (ops[j].Reject? && ops[j].account == at) || (seen.gen > GenBefore(g, ops, j) && seen.pin == Some(at))
  }

  lemma PrefixSame(g: nat, ops: seq<Op>, i: nat, n: nat, j: int)
    requires 0 <= j < n <= |ops|
    ensures Unsequenced(ops[..n], i, j) == Unsequenced(ops, i, j) && Settles(g, ops[..n], i, j) == Settles(g, ops, i, j)
  {
    PlacePrefix(ops, i, n, j);
    GenPrefix(g, ops, n, j);
  }

  ghost predicate Follows(ops: seq<Op>, i: nat, k: int, j: nat)
    requires 0 <= k && j < |ops|
  {
    exists p :: k <= p < j && Unsequenced(ops, i, p) && ops[j].now - ops[p].now <= UNSEQUENCED_RATE_LIMIT_TTL_MS
  }

  /**
   * The k-th operation is an unreadable recording for `i` that later unreadable
   * recordings, each at most 30 s after one before, link up to the present,
   * with nothing settling the order in between.
   */
  ghost predicate Chained(g: nat, ops: seq<Op>, i: nat, k: int) {
    && 0 <= k < |ops| && Unsequenced(ops, i, k)
    && forall j :: k < j < |ops| ==> !Settles(g, ops, i, j) && (Unsequenced(ops, i, j) ==> Follows(ops, i, k, j))
  }

  /** The k-th operation belongs to the chain and asked to block `key` until `d`. */
  ghost predicate Gives(g: nat, ops: seq<Op>, i: nat, k: int, key: QuotaKey, d: int) {
    Chained(g, ops, i, k) && key in TouchedKeys(ops[k].hit) && Deadline(ops[k].hit, ops[k].now) == d
  }

  /** No unreadable recording for `i` comes after the k-th operation. */
  ghost predicate IsLast(ops: seq<Op>, i: nat, k: int) {
    0 <= k && forall j :: k < j < |ops| ==> !Unsequenced(ops, i, j)
  }

  /** The entry's stamp and reason are those of the chain's last recording. */
  ghost predicate TellsLast(g: nat, ops: seq<Op>, i: nat, pending: Pending) {
    exists k :: Chained(g, ops, i, k) && IsLast(ops, i, k) && ops[k].now == pending.recordedAt && ops[k].hit.reason == pending.reason
  }

  /** The entry holds the chain's keys, each at its latest deadline. */
  ghost predicate TellsKeys(g: nat, ops: seq<Op>, i: nat, limits: Limits) {
    && (forall k, key, d :: Gives(g, ops, i, k, key, d) ==> key in limits && d <= limits[key])
    && (forall key :: key in limits ==> exists k :: Gives(g, ops, i, k, key, limits[key]))
  }

  /** `pending` is what the history says. */
  ghost predicate Tells(g: nat, ops: seq<Op>, i: nat, pending: Option<Pending>) {
    && (pending.Some? <==> exists k :: Chained(g, ops, i, k))
    && (pending.Some? ==> TellsLast(g, ops, i, pending.value) && TellsKeys(g, ops, i, pending.value.limits))
  }

  lemma LastTold(g: nat, ops: seq<Op>, i: nat, pending: Pending) returns (last: int)
    requires TellsLast(g, ops, i, pending)
    ensures Chained(g, ops, i, last) && IsLast(ops, i, last)
    ensures ops[last].now == pending.recordedAt && ops[last].hit.reason == pending.reason
  {
    last :| Chained(g, ops, i, last) && IsLast(ops, i, last) && ops[last].now == pending.recordedAt
            && ops[last].hit.reason == pending.reason;
  }

  lemma {:induction false} GenIsMax(p: Pool, ops: seq<Op>)
    ensures Run(p, ops).selection.gen == GenBefore(p.selection.gen, ops, |ops|)
    decreases |ops|
  {
    if ops != [] {
      var n := |ops| - 1;
      GenIsMax(p, ops[..n]);
      GenPrefix(p.selection.gen, ops, n, n);
    }
  }

  lemma {:induction false} GenPrefix(g: nat, ops: seq<Op>, n: nat, m: nat)
    requires m <= n <= |ops|
    ensures GenBefore(g, ops[..n], m) == GenBefore(g, ops, m)
  {
    if m > 0 { GenPrefix(g, ops, n, m - 1); }
  }

  lemma FollowsPrefix(ops: seq<Op>, i: nat, k: nat, n: nat, j: nat)
    requires k < j < n <= |ops|
    ensures Follows(ops[..n], i, k, j) == Follows(ops, i, k, j)
  {
    forall p | k <= p < j ensures Unsequenced(ops[..n], i, p) == Unsequenced(ops, i, p) { PrefixSame(0, ops, i, n, p); }
    if Follows(ops, i, k, j) {
      var p :| k <= p < j && Unsequenced(ops, i, p) && ops[j].now - ops[p].now <= UNSEQUENCED_RATE_LIMIT_TTL_MS;
      assert Unsequenced(ops[..n], i, p);
    }
  }

  /** Extending the history: who is still chained. */
  lemma ChainStep(g: nat, ops: seq<Op>, i: nat, k: int)
    requires ops != [] && 0 <= k < |ops| - 1
    ensures var n := |ops| - 1;
            Chained(g, ops, i, k) <==>
            Chained(g, ops[..n], i, k) && !Settles(g, ops, i, n) && (Unsequenced(ops, i, n) ==> Follows(ops, i, k, n))
  {
    var n := |ops| - 1;
    PrefixSame(g, ops, i, n, k);
    forall j | k < j < n
      ensures Unsequenced(ops[..n], i, j) == Unsequenced(ops, i, j) && Settles(g, ops[..n], i, j) == Settles(g, ops, i, j)
      ensures Follows(ops[..n], i, k, j) == Follows(ops, i, k, j)
    {
      PrefixSame(g, ops, i, n, j);
      FollowsPrefix(ops, i, k, n, j);
    }
    if Chained(g, ops, i, k) {
      forall j | k < j < n ensures !Settles(g, ops[..n], i, j) && (Unsequenced(ops[..n], i, j) ==> Follows(ops[..n], i, k, j)) {
        assert !Settles(g, ops, i, j);
      }
    }
    if Chained(g, ops[..n], i, k) && !Settles(g, ops, i, n) && (Unsequenced(ops, i, n) ==> Follows(ops, i, k, n)) {
      forall j | k < j < |ops| ensures !Settles(g, ops, i, j) && (Unsequenced(ops, i, j) ==> Follows(ops, i, k, j)) {
        if j < n { assert !Settles(g, ops[..n], i, j); }
      }
    }
  }

  /** What an operation does to one account's pending entry. */
  lemma PendingStep(p: Pool, g: nat, ops: seq<Op>, i: nat)
    requires ops != [] && p.selection.gen == GenBefore(g, ops, |ops| - 1)
    requires Place(ops, i, |ops|).Some? && Place(ops, i, |ops| - 1).value < |p.accounts|
    ensures var n := |ops| - 1;
            var was, after := p.accounts[Place(ops, i, n).value], Apply(p, ops[n]).accounts;
            && Place(ops, i, |ops|).value < |after|
            && var now := after[Place(ops, i, |ops|).value].pending;
               if Unsequenced(ops, i, n) then now == Recorded(was, ops[n].hit, ops[n].now, false).pending
               else if Settles(g, ops, i, n) then now.None?
               else now == was.pending
  {
  }

  lemma QuietChain(g: nat, ops: seq<Op>, i: nat, k: int)
    requires ops != [] && !Unsequenced(ops, i, |ops| - 1) && !Settles(g, ops, i, |ops| - 1)
    ensures Chained(g, ops, i, k) <==> Chained(g, ops[..|ops| - 1], i, k)
    ensures IsLast(ops, i, k) <==> IsLast(ops[..|ops| - 1], i, k)
    ensures forall key, d :: Gives(g, ops, i, k, key, d) <==> Gives(g, ops[..|ops| - 1], i, k, key, d)
  {
    var n := |ops| - 1;
    if 0 <= k < n { ChainStep(g, ops, i, k); }
    forall j | 0 <= j < n ensures Unsequenced(ops[..n], i, j) <==> Unsequenced(ops, i, j) { PrefixSame(g, ops, i, n, j); }
  }

  lemma QuietPending(g: nat, ops: seq<Op>, i: nat, pending: Pending)
    requires ops != [] && Tells(g, ops[..|ops| - 1], i, Some(pending))
    requires !Unsequenced(ops, i, |ops| - 1) && !Settles(g, ops, i, |ops| - 1)
    ensures Tells(g, ops, i, Some(pending))
  {
    var had := ops[..|ops| - 1];
    var last := LastTold(g, had, i, pending);
    QuietChain(g, ops, i, last);
    forall k, key, d | Gives(g, ops, i, k, key, d) ensures key in pending.limits && d <= pending.limits[key] {
      QuietChain(g, ops, i, k);
      assert Gives(g, had, i, k, key, d);
    }
    forall key | key in pending.limits ensures exists k :: Gives(g, ops, i, k, key, pending.limits[key]) {
      var k :| Gives(g, had, i, k, key, pending.limits[key]);
      QuietChain(g, ops, i, k);
      assert Gives(g, ops, i, k, key, pending.limits[key]);
    }
  }

  /** An operation that neither records nor settles leaves the tale as it was. */
  lemma QuietStep(g: nat, ops: seq<Op>, i: nat, pending: Option<Pending>)
    requires ops != [] && Tells(g, ops[..|ops| - 1], i, pending)
    requires !Unsequenced(ops, i, |ops| - 1) && !Settles(g, ops, i, |ops| - 1)
    ensures Tells(g, ops, i, pending)
  {
    if pending.Some? {
      QuietPending(g, ops, i, pending.value);
    } else {
      forall k ensures !Chained(g, ops, i, k) { QuietChain(g, ops, i, k); }
    }
  }

  lemma SettledStep(g: nat, ops: seq<Op>, i: nat)
    requires ops != [] && !Unsequenced(ops, i, |ops| - 1) && Settles(g, ops, i, |ops| - 1)
    ensures Tells(g, ops, i, None)
  {
    forall k ensures !Chained(g, ops, i, k) {
      if 0 <= k < |ops| - 1 { ChainStep(g, ops, i, k); }
    }
  }

  /** A recording follows the chain exactly when the chain's last recording is at most 30 s old. */
  lemma FollowsLast(ops: seq<Op>, i: nat, k: int, last: int)
    requires ops != [] && Timed(ops) && 0 <= k < |ops| - 1 && 0 <= last < |ops| - 1
    requires Unsequenced(ops, i, k) && Unsequenced(ops, i, last) && IsLast(ops[..|ops| - 1], i, last)
    ensures k <= last
    ensures Follows(ops, i, k, |ops| - 1) <==> ops[|ops| - 1].now - ops[last].now <= UNSEQUENCED_RATE_LIMIT_TTL_MS
  {
    var n := |ops| - 1;
    forall j | last < j < n ensures !Unsequenced(ops, i, j) { PrefixSame(0, ops, i, n, j); }
    if Follows(ops, i, k, n) {
      var p :| k <= p < n && Unsequenced(ops, i, p) && ops[n].now - ops[p].now <= UNSEQUENCED_RATE_LIMIT_TTL_MS;
      assert p <= last;
      assert ops[p].now <= ops[last].now;
    }
  }

  /** So it follows exactly when the entry's stamp is at most 30 s old. */
  lemma FollowsStamp(g: nat, ops: seq<Op>, i: nat, k: int, pending: Pending)
    requires ops != [] && Timed(ops) && TellsLast(g, ops[..|ops| - 1], i, pending) && Unsequenced(ops[..|ops| - 1], i, k)
    ensures Follows(ops, i, k, |ops| - 1) <==> ops[|ops| - 1].now - pending.recordedAt <= UNSEQUENCED_RATE_LIMIT_TTL_MS
  {
    var n := |ops| - 1;
    var last := LastTold(g, ops[..n], i, pending);
    assert ops[..n][last] == ops[last];
    PrefixSame(g, ops, i, n, k);
    PrefixSame(g, ops, i, n, last);
    FollowsLast(ops, i, k, last);
  }

  /** Which of the old chain a new recording carries on: all of it or nothing. */
  lemma LinkStep(g: nat, ops: seq<Op>, i: nat, was: LimitState, k: int)
    requires ops != [] && Timed(ops) && Tells(g, ops[..|ops| - 1], i, was.pending)
    requires Unsequenced(ops, i, |ops| - 1) && 0 <= k < |ops| - 1
    ensures Chained(g, ops, i, k) <==> Chained(g, ops[..|ops| - 1], i, k) && Replayable(was, ops[|ops| - 1].now).Some?
  {
    ChainStep(g, ops, i, k);
    if Chained(g, ops[..|ops| - 1], i, k) { FollowsStamp(g, ops, i, k, was.pending.value); }
  }

  /** What the chain gives after one more recording: what it gave before, if carried, and the recording's own keys. */
  lemma GivesStep(g: nat, ops: seq<Op>, i: nat, was: LimitState, k: int, key: QuotaKey, d: int)
    requires ops != [] && Timed(ops) && Tells(g, ops[..|ops| - 1], i, was.pending)
    requires Unsequenced(ops, i, |ops| - 1)
    ensures var n := |ops| - 1;
            Gives(g, ops, i, k, key, d) <==>
              (k == n && key in TouchedKeys(ops[n].hit) && d == Deadline(ops[n].hit, ops[n].now))
              || (k < n && Replayable(was, ops[n].now).Some? && Gives(g, ops[..n], i, k, key, d))
  {
    var n := |ops| - 1;
    if 0 <= k < n {
      LinkStep(g, ops, i, was, k);
      assert ops[..n][k] == ops[k];
    } else if k == n {
      assert Chained(g, ops, i, n);
    }
  }

  /** The recorded limits against the carried ones, key by key. */
  lemma RecordedKey(was: LimitState, hit: Rejection, now: nat, key: QuotaKey)
    ensures var limits := Recorded(was, hit, now, false).pending.value.limits;
            var carried := if Replayable(was, now).Some? then Replayable(was, now).value.limits else map[];
            && (key in limits <==> key in carried || key in TouchedKeys(hit))
            && (key in carried ==> carried[key] <= limits[key])
            && (key in TouchedKeys(hit) ==> Deadline(hit, now) <= limits[key])
            && (key in limits ==>
                  (key in TouchedKeys(hit) && limits[key] == Deadline(hit, now)) || (key in carried && limits[key] == carried[key]))
  {
  }

  /** Whatever the longer chain gives is within the recorded limits. */
  lemma RecordedCovers(g: nat, ops: seq<Op>, i: nat, was: LimitState, k: int, key: QuotaKey, d: int)
    requires ops != [] && Timed(ops) && Tells(g, ops[..|ops| - 1], i, was.pending)
    requires Unsequenced(ops, i, |ops| - 1) && Gives(g, ops, i, k, key, d)
    ensures var limits := Recorded(was, ops[|ops| - 1].hit, ops[|ops| - 1].now, false).pending.value.limits;
            key in limits && d <= limits[key]
  {
    GivesStep(g, ops, i, was, k, key, d);
    RecordedKey(was, ops[|ops| - 1].hit, ops[|ops| - 1].now, key);
  }

  lemma GivenByTale(g: nat, ops: seq<Op>, i: nat, pending: Pending, key: QuotaKey) returns (k: int)
    requires Tells(g, ops, i, Some(pending)) && key in pending.limits
    ensures 0 <= k < |ops| && Gives(g, ops, i, k, key, pending.limits[key])
  {
    k :| Gives(g, ops, i, k, key, pending.limits[key]);
  }

  /** Every recorded limit is given by the longer chain. */
  lemma RecordedGiven(g: nat, ops: seq<Op>, i: nat, was: LimitState, key: QuotaKey) returns (k: int)
    requires ops != [] && Timed(ops) && Tells(g, ops[..|ops| - 1], i, was.pending)
    requires Unsequenced(ops, i, |ops| - 1)
    requires key in Recorded(was, ops[|ops| - 1].hit, ops[|ops| - 1].now, false).pending.value.limits
    ensures Gives(g, ops, i, k, key, Recorded(was, ops[|ops| - 1].hit, ops[|ops| - 1].now, false).pending.value.limits[key])
  {
    var n := |ops| - 1;
    var hit, now := ops[n].hit, ops[n].now;
    var d := Recorded(was, hit, now, false).pending.value.limits[key];
    RecordedKey(was, hit, now, key);
    if key in TouchedKeys(hit) && d == Deadline(hit, now) {
      k := n;
    } else {
      k := GivenByTale(g, ops[..n], i, was.pending.value, key);
    }
    GivesStep(g, ops, i, was, k, key, d);
  }

  lemma RecordStep(g: nat, ops: seq<Op>, i: nat, was: LimitState)
    requires ops != [] && Timed(ops) && Tells(g, ops[..|ops| - 1], i, was.pending)
    requires Unsequenced(ops, i, |ops| - 1)
    ensures Tells(g, ops, i, Recorded(was, ops[|ops| - 1].hit, ops[|ops| - 1].now, false).pending)
  {
    RecordedKeys(g, ops, i, was);
    assert Chained(g, ops, i, |ops| - 1) && IsLast(ops, i, |ops| - 1);
  }

  lemma RecordedKeys(g: nat, ops: seq<Op>, i: nat, was: LimitState)
    requires ops != [] && Timed(ops) && Tells(g, ops[..|ops| - 1], i, was.pending)
    requires Unsequenced(ops, i, |ops| - 1)
    ensures TellsKeys(g, ops, i, Recorded(was, ops[|ops| - 1].hit, ops[|ops| - 1].now, false).pending.value.limits)
  {
    var n := |ops| - 1;
    var pending := Recorded(was, ops[n].hit, ops[n].now, false).pending.value;
    forall k, key, d | Gives(g, ops, i, k, key, d) ensures key in pending.limits && d <= pending.limits[key] {
      RecordedCovers(g, ops, i, was, k, key, d);
    }
    forall key | key in pending.limits ensures exists k :: Gives(g, ops, i, k, key, pending.limits[key]) {
      var k := RecordedGiven(g, ops, i, was, key);
    }
  }

  /**
   * In every run, the pending entry of an account that is still in the pool is
   * what its history tells, wherever removals have moved it.
   */
  lemma {:induction false} PendingIsChain(p: Pool, ops: seq<Op>, i: nat)
    requires i < |p.accounts| && p.accounts[i].pending.None? && Timed(ops)
    requires Place(ops, i, |ops|).Some?
    ensures var at := Place(ops, i, |ops|).value;
            at < |Run(p, ops).accounts| && Tells(p.selection.gen, ops, i, Run(p, ops).accounts[at].pending)
    decreases |ops|
  {
    var g := p.selection.gen;
    if ops != [] {
      var n := |ops| - 1;
      PlacePlaced(ops, i, |ops|, n);
      PlacePrefix(ops, i, n, n);
      PendingIsChain(p, ops[..n], i);
      GenIsMax(p, ops[..n]);
      GenPrefix(g, ops, n, n);
      var before := Run(p, ops[..n]);
      PendingStep(before, g, ops, i);
      TellsStep(g, ops, i, before.accounts[Place(ops, i, n).value]);
    }
  }

  lemma TellsStep(g: nat, ops: seq<Op>, i: nat, was: LimitState)
    requires ops != [] && Timed(ops) && Tells(g, ops[..|ops| - 1], i, was.pending)
    ensures var n := |ops| - 1;
            Tells(g, ops, i,
              if Unsequenced(ops, i, n) then Recorded(was, ops[n].hit, ops[n].now, false).pending
              else if Settles(g, ops, i, n) then None
              else was.pending)
  {
    if Unsequenced(ops, i, |ops| - 1) {
      RecordStep(g, ops, i, was);
    } else if Settles(g, ops, i, |ops| - 1) {
      SettledStep(g, ops, i);
    } else {
      QuietStep(g, ops, i, was.pending);
    }
  }

  /** The latest unreadable recording of the chain is at most 30 s old. */
  ghost predicate Recent(g: nat, ops: seq<Op>, i: nat, now: nat) {
    exists k :: Chained(g, ops, i, k) && now - ops[k].now <= UNSEQUENCED_RATE_LIMIT_TTL_MS
  }

  /** The latest deadline the chain gave a key. */
  ghost predicate Latest(g: nat, ops: seq<Op>, i: nat, key: QuotaKey, d: int) {
    (exists k :: Gives(g, ops, i, k, key, d)) && forall k, e :: Gives(g, ops, i, k, key, e) ==> e <= d
  }

  lemma TellsLatest(g: nat, ops: seq<Op>, i: nat, pending: Pending, key: QuotaKey, d: int)
    requires Tells(g, ops, i, Some(pending))
    ensures (key in pending.limits && pending.limits[key] == d) <==> Latest(g, ops, i, key, d)
  {
    if key in pending.limits { TellsOne(g, ops, i, pending, key); }
    if Latest(g, ops, i, key, d) {
      var k :| Gives(g, ops, i, k, key, d);
      assert key in pending.limits;
    }
  }

  lemma TellsOne(g: nat, ops: seq<Op>, i: nat, pending: Pending, key: QuotaKey)
    requires Tells(g, ops, i, Some(pending)) && key in pending.limits
    ensures Latest(g, ops, i, key, pending.limits[key])
  {
  }

  lemma LastIsLatest(ops: seq<Op>, i: nat, k: int, last: int)
    requires Timed(ops) && 0 <= k < |ops| && 0 <= last < |ops| && Unsequenced(ops, i, k) && IsLast(ops, i, last)
    ensures ops[k].now <= ops[last].now
  {
    assert k <= last;
  }

  lemma RecentIsReplayable(g: nat, ops: seq<Op>, i: nat, s: LimitState, now: nat)
    requires Timed(ops) && Tells(g, ops, i, s.pending)
    ensures Recent(g, ops, i, now) <==> Replayable(s, now).Some?
  {
    if Replayable(s, now).Some? {
      var last := LastTold(g, ops, i, s.pending.value);
      assert Recent(g, ops, i, now);
    }
    if Recent(g, ops, i, now) {
      var k :| Chained(g, ops, i, k) && now - ops[k].now <= UNSEQUENCED_RATE_LIMIT_TTL_MS;
      var last := LastTold(g, ops, i, s.pending.value);
      LastIsLatest(ops, i, k, last);
    }
  }

  /**
   * A newer `switch` to an account, after any run, wherever removals have moved
   * the account: nothing is left, unless the latest unreadable recording is at
   * most 30 s old. Then exactly the chain's keys are left, each with the latest
   * deadline the chain gave it.
   */
  lemma SwitchLeavesTheChain(p: Pool, ops: seq<Op>, i: nat, gen: nat, now: nat)
    requires i < |p.accounts| && p.accounts[i].pending.None? && Timed(ops)
    requires Place(ops, i, |ops|).Some? && gen > GenBefore(p.selection.gen, ops, |ops|)
    ensures var g, at, before := p.selection.gen, Place(ops, i, |ops|).value, Run(p, ops);
            var after := Reconciled(before, Meta(Some(at), gen), now);
            && after.selection == Meta(Some(at), gen) && |after.accounts| == |before.accounts| && at < |after.accounts|
            && (forall j :: 0 <= j < |before.accounts| && j != at ==> after.accounts[j] == before.accounts[j])
            && (!Recent(g, ops, i, now) ==> after.accounts[at].limits == map[])
            && (Recent(g, ops, i, now) ==> Leaves(g, ops, i, after.accounts[at].limits))
  {
    PendingIsChain(p, ops, i);
    GenIsMax(p, ops);
    var s := Run(p, ops).accounts[Place(ops, i, |ops|).value];
    var g := p.selection.gen;
    RecentIsReplayable(g, ops, i, s, now);
    if Replayable(s, now).Some? {
      forall key, d ensures (key in s.pending.value.limits && s.pending.value.limits[key] == d) <==> Latest(g, ops, i, key, d) {
        TellsLatest(g, ops, i, s.pending.value, key, d);
      }
    }
  }

  /** Exactly the chain's keys, each at its latest deadline. */
  ghost predicate Leaves(g: nat, ops: seq<Op>, i: nat, left: Limits) {
    forall key, d :: (key in left && left[key] == d) <==> Latest(g, ops, i, key, d)
  }
}
