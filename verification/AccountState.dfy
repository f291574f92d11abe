/**
 * One account of the pool as a value: what a selector looks at, and how long
 * it stays blocked (lib/accounts.ts, lib/accounts/rate-limits.ts).
 */
module AccountState {
  import opened Prelude
  import opened Breaker
  import opened RateLimits
  import opened RoundRobin

  datatype SwitchReason = ForRateLimit | Initial | Rotation | Best | Restore | Manual

  datatype Workspace = Workspace(id: string, enabled: bool, disabledAt: Option<int>, isDefault: bool)

  /** `id` stands for the object's identity; `index` is the position the object itself records. */
  datatype Account = Account(
    id: nat,
    index: nat,
    enabled: bool,
    lastUsed: int,
    lastSwitchReason: Option<SwitchReason>,
    limits: LimitState,
    coolingDownUntil: Option<int>,
    authInvalidatedAt: Option<int>,
    workspaces: seq<Workspace>,
    currentWorkspaceIndex: Option<nat>,
    quotaWorkspace: Option<string>,
    circuit: BreakerState)

  /** The settings of a breaker made without any. */
  const DEFAULT_CONFIG := Config(3, 60000, 30000, 1)

  predicate AuthInvalidated(a: Account) { a.authInvalidatedAt.Some? && a.authInvalidatedAt.value > 0 }

  predicate HasEnabledWorkspaces(workspaces: seq<Workspace>) {
    workspaces == [] || exists k :: 0 <= k < |workspaces| && workspaces[k].enabled
  }

  /** No live deadline, cooldown or breaker block at time `t`. */
  predicate FreeAt(a: Account, family: Family, model: Option<string>, t: int) {
    && !Limited(a.limits.limits, ConsultedKeys(family, model, a.quotaWorkspace), t)
    && (a.coolingDownUntil.Some? ==> t >= a.coolingDownUntil.value)
    && Available(a.circuit, DEFAULT_CONFIG, t)
  }

  predicate UsableAt(a: Account, family: Family, model: Option<string>, now: int) {
    a.enabled && HasEnabledWorkspaces(a.workspaces) && !AuthInvalidated(a) && FreeAt(a, family, model, now)
  }

  /** Looking at an account at `now` drops at most what has expired by then. */
  ghost predicate Swept(before: Account, after: Account, now: nat) {
    && after == before.(limits := after.limits, coolingDownUntil := after.coolingDownUntil)
    && after.limits == before.limits.(limits := after.limits.limits)
    && (after.limits.limits == before.limits.limits || after.limits.limits == Unexpired(before.limits.limits, now))
    && (after.coolingDownUntil == before.coolingDownUntil
        || (after.coolingDownUntil.None? && before.coolingDownUntil.Some? && now >= before.coolingDownUntil.value))
  }

  lemma SweptTwice(a: Account, b: Account, c: Account, now: nat)
    requires Swept(a, b, now) && Swept(b, c, now)
    ensures Swept(a, c, now)
  {
    assert Unexpired(Unexpired(a.limits.limits, now), now) == Unexpired(a.limits.limits, now);
  }

  /** Dropping what has expired changes no answer, now or later. */
  lemma SweepingIsInvisible(a: Account, b: Account, family: Family, model: Option<string>, now: nat, t: int)
    requires Swept(a, b, now) && now <= t
    ensures FreeAt(a, family, model, t) == FreeAt(b, family, model, t)
    ensures UsableAt(a, family, model, t) == UsableAt(b, family, model, t)
  {
    var keys := ConsultedKeys(family, model, a.quotaWorkspace);
    if Limited(a.limits.limits, keys, t) {
      var k :| k in keys && k in a.limits.limits && t < a.limits.limits[k];
      assert k in b.limits.limits && b.limits.limits[k] == a.limits.limits[k];
    }
  }

  // ---- How long until an account is free ----

  function QuotaResetTime(limits: Limits, family: Family, model: Option<string>, workspace: Option<string>): int {
    Max(Until(limits, QuotaKey(family, model, None)), Until(limits, QuotaKey(family, model, workspace)))
  }

  function QuotaWait(a: Account, family: Family, model: Option<string>, now: nat): int {
    Max(if IsReserve(model) then 0 else Max(0, QuotaResetTime(a.limits.limits, family, None, a.quotaWorkspace) - now),
        if Named(model) then Max(0, QuotaResetTime(a.limits.limits, family, model, a.quotaWorkspace) - now) else 0)
  }

  /** The longest of the account's blocks. */
  function AccountWait(a: Account, family: Family, model: Option<string>, now: nat): int {
    Max(QuotaWait(a, family, model, now),
        Max(if a.coolingDownUntil.Some? then Max(0, a.coolingDownUntil.value - now) else 0,
            TimeUntilAvailable(a.circuit, DEFAULT_CONFIG, now)))
  }

  lemma LimitedUntil(a: Account, family: Family, model: Option<string>, t: nat)
    ensures Limited(a.limits.limits, ConsultedKeys(family, model, a.quotaWorkspace), t) <==>
      (!IsReserve(model) && t < QuotaResetTime(a.limits.limits, family, None, a.quotaWorkspace))
      || (Named(model) && t < QuotaResetTime(a.limits.limits, family, model, a.quotaWorkspace))
  {
    var keys := ConsultedKeys(family, model, a.quotaWorkspace);
    var limits := a.limits.limits;
    assert Limited(limits, keys, t) <==> exists k :: k in keys && t < Until(limits, k);
    if !IsReserve(model) {
      assert QuotaKey(family, None, None) in keys && QuotaKey(family, None, a.quotaWorkspace) in keys;
    }
    if Named(model) {
      assert QuotaKey(family, model, None) in keys && QuotaKey(family, model, a.quotaWorkspace) in keys;
    }
  }

  /** The wait is exact: an account is free after a delay precisely when the delay reaches it. */
  lemma WaitIsFirstFree(a: Account, family: Family, model: Option<string>, now: nat, delay: nat)
    ensures FreeAt(a, family, model, now + delay) <==> delay >= AccountWait(a, family, model, now)
  {
    LimitedUntil(a, family, model, now + delay);
    WaitIsExact(a.circuit, DEFAULT_CONFIG, now, delay);
  }

  /** Dropping what has expired does not change the wait. */
  lemma SweptWait(a: Account, b: Account, family: Family, model: Option<string>, now: nat)
    requires Swept(a, b, now)
    ensures AccountWait(a, family, model, now) == AccountWait(b, family, model, now)
  {
    var v, w := AccountWait(a, family, model, now), AccountWait(b, family, model, now);
    SweepingIsInvisible(a, b, family, model, now, now + v);
    SweepingIsInvisible(a, b, family, model, now, now + w);
    WaitIsFirstFree(a, family, model, now, v);
    WaitIsFirstFree(a, family, model, now, w);
    WaitIsFirstFree(b, family, model, now, v);
    WaitIsFirstFree(b, family, model, now, w);
  }

  // ---- The pool ----

  predicate Eligible(a: Account, excluded: set<nat>) { a.enabled && !AuthInvalidated(a) && a.index !in excluded }

  /** `w` is the least delay after which some eligible account is free; zero when none is eligible. */
  ghost predicate IsMinWait(pool: seq<Account>, family: Family, model: Option<string>, excluded: set<nat>, now: nat, w: int) {
    if exists i :: 0 <= i < |pool| && Eligible(pool[i], excluded) then
      && w >= 0
      && (exists i :: 0 <= i < |pool| && Eligible(pool[i], excluded) && FreeAt(pool[i], family, model, now + w))
      && (forall t, i :: now <= t < now + w && 0 <= i < |pool| && Eligible(pool[i], excluded) ==> !FreeAt(pool[i], family, model, t))
    else w == 0
  }

  /** The minimum of the accounts' waits is that instant. */
  lemma MinOfMaxes(pool: seq<Account>, family: Family, model: Option<string>, excluded: set<nat>, now: nat, w: int, best: nat)
    requires best < |pool| && Eligible(pool[best], excluded) && w == AccountWait(pool[best], family, model, now)
    requires forall i :: 0 <= i < |pool| && Eligible(pool[i], excluded) ==> w <= AccountWait(pool[i], family, model, now)
    ensures IsMinWait(pool, family, model, excluded, now, w)
  {
    WaitIsFirstFree(pool[best], family, model, now, w);
    forall t, i | now <= t < now + w && 0 <= i < |pool| && Eligible(pool[i], excluded) ensures !FreeAt(pool[i], family, model, t) {
      WaitIsFirstFree(pool[i], family, model, now, t - now);
    }
  }

  /** The accounts a selector may take. */
  function UsableMask(pool: seq<Account>, family: Family, model: Option<string>, blocked: set<nat>, now: int): (m: Mask)
    ensures |m| == |pool|
  {
    if pool == [] then []
    else
      var n := |pool| - 1;
      UsableMask(pool[..n], family, model, blocked, now) + [n !in blocked && UsableAt(pool[n], family, model, now)]
  }

  lemma {:induction false} MaskAt(pool: seq<Account>, family: Family, model: Option<string>, blocked: set<nat>, now: int, i: nat)
    requires i < |pool|
    ensures UsableMask(pool, family, model, blocked, now)[i] <==> i !in blocked && UsableAt(pool[i], family, model, now)
    decreases |pool|
  {
    if i < |pool| - 1 { MaskAt(pool[..|pool| - 1], family, model, blocked, now, i); }
  }

  function EnabledMask(pool: seq<Account>): (m: Mask)
    ensures |m| == |pool|
  {
    seq(|pool|, i requires 0 <= i < |pool| => pool[i].enabled)
  }

  /** An account a scan may take as soon as nothing blocks it. */
  predicate Selectable(a: Account, blocked: set<nat>) {
    a.enabled && !AuthInvalidated(a) && a.index !in blocked && HasEnabledWorkspaces(a.workspaces)
  }

  /** No eligible account is free before `a`; where none is eligible, `a` is free now. */
  predicate NoLaterThan(a: Account, pool: seq<Account>, family: Family, model: Option<string>, excluded: set<nat>, now: nat) {
    if exists i :: 0 <= i < |pool| && Eligible(pool[i], excluded) then
      forall i :: 0 <= i < |pool| && Eligible(pool[i], excluded) ==>
        AccountWait(a, family, model, now) <= AccountWait(pool[i], family, model, now)
    else AccountWait(a, family, model, now) == 0
  }

  /** That is a comparison with the announced wait. */
  lemma NoLaterThanWait(a: Account, pool: seq<Account>, family: Family, model: Option<string>, excluded: set<nat>, now: nat, w: nat)
    requires IsMinWait(pool, family, model, excluded, now, w)
    ensures NoLaterThan(a, pool, family, model, excluded, now) <==> AccountWait(a, family, model, now) <= w
  {
    if i :| 0 <= i < |pool| && Eligible(pool[i], excluded) && FreeAt(pool[i], family, model, now + w) {
      WaitIsFirstFree(pool[i], family, model, now, w);
      forall k | 0 <= k < |pool| && Eligible(pool[k], excluded) ensures w <= AccountWait(pool[k], family, model, now) {
        var v := AccountWait(pool[k], family, model, now);
        WaitIsFirstFree(pool[k], family, model, now, v);
      }
    }
  }

  /** A scan made at time `t` finds an account. */
  ghost predicate ScanFinds(pool: seq<Account>, family: Family, model: Option<string>, blocked: set<nat>, t: int, start: nat)
    requires start < |pool|
  {
    !IsFirst(UsableMask(pool, family, model, blocked, t), start, None)
  }

  lemma RedeemedScan(pool: seq<Account>, family: Family, model: Option<string>, blocked: set<nat>, now: nat, w: nat, start: nat, i: nat, t: int)
    requires i < |pool| && start < |pool| && pool[i].index == i
    requires Selectable(pool[i], blocked) && AccountWait(pool[i], family, model, now) <= w && t >= now + w
    ensures ScanFinds(pool, family, model, blocked, t, start)
  {
    WaitIsFirstFree(pool[i], family, model, now, t - now);
    MaskAt(pool, family, model, blocked, t, i);
  }

  lemma ScanRedeems(pool: seq<Account>, family: Family, model: Option<string>, blocked: set<nat>, now: nat, w: nat, start: nat) returns (i: nat)
    requires start < |pool| && (forall k :: 0 <= k < |pool| ==> pool[k].index == k)
    requires ScanFinds(pool, family, model, blocked, now + w, start)
    ensures i < |pool| && Selectable(pool[i], blocked) && AccountWait(pool[i], family, model, now) <= w
  {
    i :| 0 <= i < |pool| && UsableMask(pool, family, model, blocked, now + w)[i];
    MaskAt(pool, family, model, blocked, now + w, i);
    WaitIsFirstFree(pool[i], family, model, now, w);
  }

  /**
   * The wait leaves out the excluded accounts, the scan passes over the blocked
   * ones, and a caller may exclude none of those it blocks. The announced wait is
   * honest, so that every scan made once it has passed finds an account, if and
   * only if some selectable account is waited for no longer than any eligible one.
   */
  lemma HonestWaitCondition(
      pool: seq<Account>, family: Family, model: Option<string>, excluded: set<nat>, blocked: set<nat>, now: nat, w: nat, start: nat)
    requires forall i :: 0 <= i < |pool| ==> pool[i].index == i
    requires IsMinWait(pool, family, model, excluded, now, w) && start < |pool|
    ensures (forall t: int :: t >= now + w ==> ScanFinds(pool, family, model, blocked, t, start)) <==>
            exists i :: 0 <= i < |pool| && Selectable(pool[i], blocked) && NoLaterThan(pool[i], pool, family, model, excluded, now)
  {
    if i :| 0 <= i < |pool| && Selectable(pool[i], blocked) && NoLaterThan(pool[i], pool, family, model, excluded, now) {
      NoLaterThanWait(pool[i], pool, family, model, excluded, now, w);
      forall t: int | t >= now + w ensures ScanFinds(pool, family, model, blocked, t, start) {
        RedeemedScan(pool, family, model, blocked, now, w, start, i, t);
      }
    }
    if ScanFinds(pool, family, model, blocked, now + w, start) {
      var i := ScanRedeems(pool, family, model, blocked, now, w, start);
      NoLaterThanWait(pool[i], pool, family, model, excluded, now, w);
    }
  }

  /** It need not be: a lone account with no enabled workspace is announced as free at once. */
  lemma NoWorkspaceNoSelection()
    ensures var a := Account(0, 0, true, 0, None, LimitState(map[], None, None), None, None, [Workspace("w", false, None, false)], None, None,
                             BreakerState(Closed, [], 0, 0, 0));
            && IsMinWait([a], Codex, None, {}, 0, 0)
            && forall t: int :: IsFirst(UsableMask([a], Codex, None, {}, t), 0, None)
  {
    var a := Account(0, 0, true, 0, None, LimitState(map[], None, None), None, None, [Workspace("w", false, None, false)], None, None,
                     BreakerState(Closed, [], 0, 0, 0));
    assert Eligible([a][0], {}) && FreeAt([a][0], Codex, None, 0 + 0);
    forall t: int ensures !UsableMask([a], Codex, None, {}, t)[0] { MaskAt([a], Codex, None, {}, t, 0); }
  }
}
