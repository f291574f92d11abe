/**
 * lib/accounts.ts: the parts of `AccountManager` that select accounts and keep
 * the pool's pointers. The class is tied to the value-level meaning given in
 * AccountState, RoundRobin and RateLimits.
 */
module Accounts {
  import opened Prelude
  import opened Breaker
  import opened RateLimits
  import opened RoundRobin
  import opened AccountState

  /** The list of model families, each once. */
  method ModelFamilies() returns (families: seq<Family>)
    ensures forall f: Family :: f in families
    ensures forall j, k :: 0 <= j < k < |families| ==> families[j] != families[k]
  {
    families := [Gpt5Codex, CodexMax, Codex, Gpt52, Gpt51];
    forall f: Family ensures f in families {
      match f
      case Gpt5Codex => assert families[0] == f;
      case CodexMax => assert families[1] == f;
      case Codex => assert families[2] == f;
      case Gpt52 => assert families[3] == f;
      case Gpt51 => assert families[4] == f;
    }
  }

  /** Every account stands where its index says, once. */
  ghost predicate Placed(pool: seq<Account>) {
    && (forall i, j :: 0 <= i < j < |pool| ==> pool[i].id != pool[j].id)
    && (forall i :: 0 <= i < |pool| ==> pool[i].index == i)
  }

  /** Every cursor and every active pointer names a place in a pool of `count`; an active pointer may be -1. */
  ghost predicate Pointing(cursors: map<Family, nat>, actives: map<Family, int>, count: nat) {
    && (forall f: Family :: f in cursors && f in actives)
    && (forall f: Family :: f in cursors ==> cursors[f] < count || (count == 0 && cursors[f] == 0))
    && (forall f: Family :: f in actives ==> -1 <= actives[f] < count)
  }

  /** `after` is `before` with expired marks dropped, and the pick stamped. */
  ghost predicate Touched(before: seq<Account>, after: seq<Account>, pick: Option<nat>, now: nat) {
    && |after| == |before|
    && forall i :: 0 <= i < |before| ==> Swept(if pick == Some(i) then before[i].(lastUsed := now) else before[i], after[i], now)
  }

  lemma WrapMod(x: nat, count: nat)
    requires x < 2 * count
    ensures x % count == if x < count then x else x - count
  {
    if x >= count {
      assert x == count * 1 + (x - count);
      assert (x - count) / count == 0;
    } else {
      assert x / count == 0;
    }
  }

  method NextIndex(count: nat, idx: nat) returns (next: nat)
    requires idx < count
    ensures next == After(count, idx)
  {
    WrapMod(idx + 1, count);
    return (idx + 1) % count;
  }

  /** The i-th index of a cyclic scan is the one at distance i. */
  lemma ScanIndex(count: nat, start: nat, i: nat)
    requires start < count && i < count
    ensures (start + i) % count < count && Distance(count, start, (start + i) % count) == i
    ensures forall k :: 0 <= k < count && Distance(count, start, k) == i ==> k == (start + i) % count
  {
    WrapMod(start + i, count);
  }

  // ---- What enabling, switching and removing mean ----

  /** An index as the code writes it, -1 for none. */
  function AsPick(i: int): Option<nat> { if i < 0 then None else Some(i) }

  function FirstDefault(workspaces: seq<Workspace>): (i: nat)
    ensures i <= |workspaces|
  {
    if workspaces == [] || workspaces[0].isDefault then 0 else 1 + FirstDefault(workspaces[1..])
  }

  function Revived(w: Workspace): Workspace { if w.disabledAt.Some? then w.(enabled := true, disabledAt := None) else w }

  function WorkspacesReset(a: Account): Account {
    if a.workspaces == [] then a
    else
      var kept := a.currentWorkspaceIndex.Some? && a.currentWorkspaceIndex.value < |a.workspaces|;
      var first := FirstDefault(a.workspaces);
      a.(workspaces := seq(|a.workspaces|, k requires 0 <= k < |a.workspaces| => Revived(a.workspaces[k])),
         currentWorkspaceIndex := if kept then a.currentWorkspaceIndex else Some(if first < |a.workspaces| then first else 0))
  }

  function Toggled(a: Account, enabled: bool): Account {
    if enabled && !a.enabled then WorkspacesReset(a.(enabled := true)) else a.(enabled := enabled)
  }

  /** Where a pointer that named the account just disabled goes. */
  ghost predicate Repaired(pool: seq<Account>, index: nat, before: int, after: int)
    requires index < |pool|
  {
    if before == index && exists i :: 0 <= i < |pool| && pool[i].enabled then IsFirst(EnabledMask(pool), index, AsPick(after)) && after >= 0
    else after == before
  }

  /** The pool without its `idx`-th account, renumbered. */
  function Without(pool: seq<Account>, idx: nat): (rest: seq<Account>)
    requires idx < |pool|
    ensures |rest| == |pool| - 1
  {
    seq(|pool| - 1, i requires 0 <= i < |pool| - 1 => pool[if i < idx then i else i + 1].(index := i))
  }

  /** The new position of an account that stays. */
  function Moved(i: nat, idx: nat): nat
    requires i != idx
  {
    if i < idx then i else i - 1
  }

  /** A cursor stays on its account, or passes to the cyclic successor of the one removed. */
  ghost predicate CursorFollows(count: nat, idx: nat, before: nat, after: nat)
    requires idx < count && before < count
  {
    if count == 1 then after == 0
    else after == Moved(if before == idx then After(count, idx) else before, idx)
  }

  /** An active pointer stays on its account; off the removed one it goes to an enabled account, if there is one. */
  ghost predicate ActiveFollows(rest: seq<Account>, idx: nat, before: int, after: int)
    requires -1 <= before
  {
    if rest == [] || before == -1 then after == -1
    else if before != idx then after == Moved(before, idx)
    else after >= -1 && IsFirst(EnabledMask(rest), Min(idx, |rest| - 1), AsPick(after))
  }

  ghost predicate Retargeted(before: map<Family, int>, after: map<Family, int>, idx: nat, i: nat) {
    exists f: Family :: f in before && f in after && before[f] == idx && after[f] == i
  }

  ghost predicate Removed(
    pool: seq<Account>, rest: seq<Account>, idx: nat,
    cursors: map<Family, nat>, newCursors: map<Family, nat>, actives: map<Family, int>, newActives: map<Family, int>)
    requires idx < |pool| && Pointing(cursors, actives, |pool|)
  {
    && |rest| == |pool| - 1
    && (forall f: Family :: f in newCursors && f in newActives)
    && (forall f: Family :: f in newCursors ==> CursorFollows(|pool|, idx, cursors[f], newCursors[f]))
    && (forall f: Family :: f in newActives ==> ActiveFollows(rest, idx, actives[f], newActives[f]))
    && (forall i :: 0 <= i < |rest| ==>
          rest[i] == if Retargeted(actives, newActives, idx, i) then Without(pool, idx)[i].(lastSwitchReason := Some(Rotation))
                     else Without(pool, idx)[i])
  }

  /** Pointers follow identities: each still names the same account, unless that one is gone. */
  lemma PointersFollowAccounts(
    pool: seq<Account>, rest: seq<Account>, idx: nat,
    cursors: map<Family, nat>, newCursors: map<Family, nat>, actives: map<Family, int>, newActives: map<Family, int>, f: Family)
    requires idx < |pool| && Placed(pool) && Pointing(cursors, actives, |pool|)
    requires Removed(pool, rest, idx, cursors, newCursors, actives, newActives)
    ensures Placed(rest) && Pointing(newCursors, newActives, |rest|)
    ensures rest != [] ==>
      rest[newCursors[f]].id == pool[if cursors[f] == idx then After(|pool|, idx) else cursors[f]].id
    ensures 0 <= actives[f] && actives[f] != idx ==> 0 <= newActives[f] && rest[newActives[f]].id == pool[actives[f]].id
    ensures actives[f] == idx && newActives[f] >= 0 ==> rest[newActives[f]].enabled && rest[newActives[f]].id != pool[idx].id
    ensures actives[f] == idx && newActives[f] == -1 ==> forall i :: 0 <= i < |pool| && i != idx ==> !pool[i].enabled
  {
    RestPlaced(pool, rest, idx, cursors, newCursors, actives, newActives);
    forall g: Family
      ensures newCursors[g] < |rest| || (rest == [] && newCursors[g] == 0)
      ensures -1 <= newActives[g] < |rest|
    {
      CursorStays(pool, rest, idx, cursors[g], newCursors[g]);
      ActiveStays(pool, rest, idx, actives[g], newActives[g]);
    }
    CursorStays(pool, rest, idx, cursors[f], newCursors[f]);
    ActiveStays(pool, rest, idx, actives[f], newActives[f]);
  }

  /** `rest` holds the accounts other than the `idx`-th, in order. */
  ghost predicate Survivors(pool: seq<Account>, rest: seq<Account>, idx: nat)
    requires idx < |pool|
  {
    && |rest| == |pool| - 1
    && forall i :: 0 <= i < |pool| && i != idx ==> rest[Moved(i, idx)].id == pool[i].id && rest[Moved(i, idx)].enabled == pool[i].enabled
  }

  lemma CursorStays(pool: seq<Account>, rest: seq<Account>, idx: nat, before: nat, after: nat)
    requires idx < |pool| && Survivors(pool, rest, idx) && before < |pool|
    requires CursorFollows(|pool|, idx, before, after)
    ensures if rest == [] then after == 0
            else after < |rest| && rest[after].id == pool[if before == idx then After(|pool|, idx) else before].id
  {
  }

  lemma ActiveStays(pool: seq<Account>, rest: seq<Account>, idx: nat, before: int, after: int)
    requires idx < |pool| && Placed(pool) && Survivors(pool, rest, idx) && -1 <= before < |pool|
    requires ActiveFollows(rest, idx, before, after)
    ensures -1 <= after < |rest|
    ensures 0 <= before && before != idx ==> 0 <= after && rest[after].id == pool[before].id
    ensures before == idx && after >= 0 ==> rest[after].enabled && rest[after].id != pool[idx].id
    ensures before == idx && after == -1 ==> forall i :: 0 <= i < |pool| && i != idx ==> !pool[i].enabled
  {
    if before == idx && rest != [] {
      if after == -1 {
        forall i | 0 <= i < |pool| && i != idx ensures !pool[i].enabled { assert !EnabledMask(rest)[Moved(i, idx)]; }
      } else {
        assert EnabledMask(rest)[after];
        var i := if after < idx then after else after + 1;
        assert Moved(i, idx) == after;
      }
    }
  }

  lemma WithoutPlaced(pool: seq<Account>, idx: nat)
    requires idx < |pool| && Placed(pool)
    ensures Placed(Without(pool, idx))
  {
    var rest := Without(pool, idx);
    forall i, j | 0 <= i < j < |rest| ensures rest[i].id != rest[j].id {
      WithoutAt(pool, idx, i);
      WithoutAt(pool, idx, j);
    }
  }

  lemma WithoutAt(pool: seq<Account>, idx: nat, i: nat)
    requires idx < |pool| && i < |pool| - 1
    ensures Without(pool, idx)[i] == pool[if i < idx then i else i + 1].(index := i)
  {
  }

  lemma WithoutSurvivors(pool: seq<Account>, idx: nat)
    requires idx < |pool|
    ensures Survivors(pool, Without(pool, idx), idx)
  {
    forall i | 0 <= i < |pool| && i != idx
      ensures Without(pool, idx)[Moved(i, idx)].id == pool[i].id && Without(pool, idx)[Moved(i, idx)].enabled == pool[i].enabled
    {
      WithoutAt(pool, idx, Moved(i, idx));
    }
  }

  lemma RestPlaced(
    pool: seq<Account>, rest: seq<Account>, idx: nat,
    cursors: map<Family, nat>, newCursors: map<Family, nat>, actives: map<Family, int>, newActives: map<Family, int>)
    requires idx < |pool| && Placed(pool) && Pointing(cursors, actives, |pool|)
    requires Removed(pool, rest, idx, cursors, newCursors, actives, newActives)
    ensures Placed(rest) && Survivors(pool, rest, idx)
  {
    WithoutPlaced(pool, idx);
    WithoutSurvivors(pool, idx);
    SameButReason(pool, Without(pool, idx), rest, idx);
  }

  lemma SameButReason(pool: seq<Account>, plain: seq<Account>, rest: seq<Account>, idx: nat)
    requires idx < |pool| && Placed(plain) && Survivors(pool, plain, idx)
    requires |rest| == |plain| && forall i :: 0 <= i < |rest| ==> rest[i] == plain[i].(lastSwitchReason := rest[i].lastSwitchReason)
    ensures Placed(rest) && Survivors(pool, rest, idx)
  {
  }

  function LimitsOf(pool: seq<Account>): seq<LimitState> {
    seq(|pool|, i requires 0 <= i < |pool| => pool[i].limits)
  }

  function WithLimits(pool: seq<Account>, limits: seq<LimitState>): seq<Account>
    requires |limits| == |pool|
  {
    seq(|pool|, i requires 0 <= i < |pool| => pool[i].(limits := limits[i]))
  }

  /** Where the pool holds an identity; its length when it does not. */
  function PositionOf(pool: seq<Account>, id: nat): (i: nat)
    ensures i <= |pool| && (i < |pool| ==> pool[i].id == id)
    ensures forall k :: 0 <= k < i ==> pool[k].id != id
  {
    if pool == [] || pool[0].id == id then 0 else 1 + PositionOf(pool[1..], id)
  }

  method FindPosition(pool: seq<Account>, id: nat) returns (i: nat)
    ensures i == PositionOf(pool, id)
  {
    i := 0;
    while i < |pool| && pool[i].id != id
      invariant i <= |pool| && forall k :: 0 <= k < i ==> pool[k].id != id
    {
      i := i + 1;
    }
  }

  /** A stored row as the constructor takes it in: every stored deadline is bounded once. */
  function Loaded(row: Account, i: nat, now: nat): Account {
    row.(id := i, index := i, lastUsed := Max(0, row.lastUsed), limits := LimitState(Bounded(row.limits.limits, now), None, None))
  }

  /** The stored position of a family, or the stored general one, wrapped into the pool. */
  function StartPosition(activeByFamily: map<Family, int>, activeIndex: int, count: nat, f: Family): (i: nat)
    requires count > 0
    ensures i < count
  {
    Max(0, if f in activeByFamily then activeByFamily[f] else activeIndex) % count
  }

  method ClampIndex(activeByFamily: map<Family, int>, activeIndex: int, count: nat, f: Family) returns (next: nat)
    requires count > 0
    ensures next == StartPosition(activeByFamily, activeIndex, count, f) && next < count
  {
    var defaultIndex := Max(0, activeIndex) % count;
    if f in activeByFamily { return Max(0, activeByFamily[f]) % count; }
    SmallMod(defaultIndex, count);
    return defaultIndex % count;
  }

  method StartPositions(activeByFamily: map<Family, int>, activeIndex: int, count: nat) returns (r: map<Family, nat>)
    requires count > 0
    ensures forall f: Family :: f in r && r[f] == StartPosition(activeByFamily, activeIndex, count, f)
  {
    r := map[];
    var families := ModelFamilies();
    for k := 0 to |families|
      invariant forall j :: 0 <= j < k ==>
        families[j] in r && r[families[j]] == StartPosition(activeByFamily, activeIndex, count, families[j])
    {
      var next := ClampIndex(activeByFamily, activeIndex, count, families[k]);
      r := r[families[k] := next];
    }
    forall f: Family ensures f in r && r[f] == StartPosition(activeByFamily, activeIndex, count, f) { assert f in families; }
  }

  /** Moving the two deadlines one after the other moves exactly the touched keys. */
  method Bump(limits: Limits, hit: Rejection, resetAt: nat) returns (r: Limits)
    ensures r == Raise(limits, TouchedKeys(hit), resetAt)
  {
    r := limits;
    if !IsReserve(hit.model) && (!Named(hit.model) || hit.reason == Quota || hit.reason == Unknown) {
      r := r[BaseKey(hit) := Max(Until(r, BaseKey(hit)), resetAt)];
    }
    if Named(hit.model) && (IsReserve(hit.model) || hit.reason == Tokens || hit.reason == Concurrent || hit.reason == Unknown) {
      r := r[ModelKey(hit) := Max(Until(r, ModelKey(hit)), resetAt)];
    }
    assert r == Raise(limits, TouchedKeys(hit), resetAt);
  }

  /** The loop over the keys, in whatever order they come. */
  method DropExpired(limits: Limits, now: nat) returns (left: Limits)
    ensures left == Unexpired(limits, now)
  {
    left := limits;
    var keys := limits.Keys;
    while keys != {}
      invariant keys <= limits.Keys
      invariant forall k :: k in left <==> k in limits && (k in keys || now < limits[k])
      invariant forall k :: k in left ==> left[k] == limits[k]
    {
      var key :| key in keys;
      if now >= limits[key] { left := left - {key}; }
      keys := keys - {key};
    }
  }

  function Longer(sofar: Option<int>, wait: int): Option<int> { Some(if sofar.Some? then Max(sofar.value, wait) else wait) }

  class AccountManager {
    var accounts: seq<Account>
    var cursorByFamily: map<Family, nat>
    var currentAccountIndexByFamily: map<Family, int>
    var pinnedAccountIndex: Option<int>
    var affinityGeneration: nat

    ghost predicate Valid()
      reads this
    {
      Placed(accounts) && Pointing(cursorByFamily, currentAccountIndexByFamily, |accounts|)
    }

    /** The pool as the rate-limit protocol sees it. */
    ghost function Selection(): Pool
      reads this
    {
      Pool(Meta(pinnedAccountIndex, affinityGeneration), LimitsOf(accounts))
    }

    constructor (rows: seq<Account>, activeByFamily: map<Family, int>, activeIndex: int, disk: Meta, now: nat)
      ensures Valid()
      ensures |accounts| == |rows| && forall i :: 0 <= i < |rows| ==> accounts[i] == Loaded(rows[i], i, now)
      ensures Selection().selection == if InRange(disk.pin, |rows|) then disk else Meta(None, disk.gen)
      ensures JustLoaded(Selection(), seq(|rows|, i requires 0 <= i < |rows| => rows[i].limits.limits), now)
      ensures rows != [] ==> forall f: Family ::
        currentAccountIndexByFamily[f] == StartPosition(activeByFamily, activeIndex, |rows|, f)
        && cursorByFamily[f] == currentAccountIndexByFamily[f]
    {
      accounts := seq(|rows|, i requires 0 <= i < |rows| => Loaded(rows[i], i, now));
      pinnedAccountIndex := if InRange(disk.pin, |rows|) then disk.pin else None;
      affinityGeneration := disk.gen;
      cursorByFamily := map[Gpt5Codex := 0, CodexMax := 0, Codex := 0, Gpt52 := 0, Gpt51 := 0];
      currentAccountIndexByFamily := map[Gpt5Codex := -1, CodexMax := -1, Codex := -1, Gpt52 := -1, Gpt51 := -1];
      new;
      forall f: Family ensures f in cursorByFamily && f in currentAccountIndexByFamily {
        match f case Gpt5Codex => case CodexMax => case Codex => case Gpt52 => case Gpt51 =>
      }
      if |accounts| > 0 { PointFamilies(activeByFamily, activeIndex); }
    }

    method PointFamilies(activeByFamily: map<Family, int>, activeIndex: int)
      requires Valid() && accounts != []
      modifies this`cursorByFamily, this`currentAccountIndexByFamily
      ensures Valid()
      ensures forall f: Family ::
        currentAccountIndexByFamily[f] == StartPosition(activeByFamily, activeIndex, |accounts|, f)
        && cursorByFamily[f] == currentAccountIndexByFamily[f]
    {
      var positions := StartPositions(activeByFamily, activeIndex, |accounts|);
      cursorByFamily, currentAccountIndexByFamily := positions, positions;
    }

    // ---- Looking at one account ----

    method ClearExpiredRateLimits(idx: nat, now: nat)
      requires idx < |accounts|
      modifies this`accounts
      ensures var a := old(accounts[idx]); accounts == old(accounts)[idx := a.(limits := a.limits.(limits := Unexpired(a.limits.limits, now)))]
    {
      var a := accounts[idx];
      var left := DropExpired(a.limits.limits, now);
      accounts := accounts[idx := a.(limits := a.limits.(limits := left))];
    }

    method IsAccountCoolingDown(idx: nat, now: nat) returns (cooling: bool)
      requires idx < |accounts|
      modifies this`accounts
      ensures var a := old(accounts[idx]);
              && (cooling <==> a.coolingDownUntil.Some? && now < a.coolingDownUntil.value)
              && accounts == old(accounts)[idx := a.(coolingDownUntil := if cooling then a.coolingDownUntil else None)]
    {
      var a := accounts[idx];
      if a.coolingDownUntil.None? { return false; }
      if now >= a.coolingDownUntil.value {
        accounts := accounts[idx := a.(coolingDownUntil := None)];
        return false;
      }
      return true;
    }

    method IsRateLimitedForFamily(idx: nat, family: Family, model: Option<string>, now: nat) returns (limited: bool)
      requires idx < |accounts|
      modifies this`accounts
      ensures var a := old(accounts[idx]);
              && accounts == old(accounts)[idx := a.(limits := a.limits.(limits := Unexpired(a.limits.limits, now)))]
              && limited == Limited(a.limits.limits, ConsultedKeys(family, model, a.quotaWorkspace), now)
    {
      ghost var was := accounts[idx];
      ClearExpiredRateLimits(idx, now);
      var a := accounts[idx];
      LimitedUntil(a, family, model, now);
      UnexpiredIsInvisible(was.limits.limits, ConsultedKeys(family, model, a.quotaWorkspace), now);
      if Named(model) {
        if now < QuotaResetTime(a.limits.limits, family, model, a.quotaWorkspace) { return true; }
        if IsReserve(model) { return false; }
      }
      return now < QuotaResetTime(a.limits.limits, family, None, a.quotaWorkspace);
    }

    /** The test every selector applies, with the sweeping it does on the way. */
    method IsUsable(idx: nat, family: Family, model: Option<string>, blocked: set<nat>, now: nat) returns (usable: bool)
      requires Placed(accounts) && idx < |accounts|
      modifies this`accounts
      ensures |accounts| == |old(accounts)| && Swept(old(accounts[idx]), accounts[idx], now)
      ensures accounts == old(accounts)[idx := accounts[idx]]
      ensures usable == UsableMask(old(accounts), family, model, blocked, now)[idx]
    {
      MaskAt(accounts, family, model, blocked, now, idx);
      var a := accounts[idx];
      if !a.enabled || a.index in blocked || !HasEnabledWorkspaces(a.workspaces) { return false; }
      var limited := IsRateLimitedForFamily(idx, family, model, now);
      if limited || AuthInvalidated(a) { return false; }
      var cooling := IsAccountCoolingDown(idx, now);
      return !cooling && Available(a.circuit, DEFAULT_CONFIG, now);
    }

    // ---- Selection ----

    /** One account looked at, and stamped as used if it is usable; `was` is the pool before the selection began. */
    method TakeIfUsable(ghost was: seq<Account>, idx: nat, family: Family, model: Option<string>, blocked: set<nat>, now: nat)
      returns (taken: bool)
      requires Placed(accounts) && idx < |accounts| && Touched(was, accounts, None, now)
      modifies this`accounts
      ensures Placed(accounts) && Touched(was, accounts, if taken then Some(idx) else None, now)
      ensures taken == UsableMask(was, family, model, blocked, now)[idx]
    {
      ghost var mid := accounts;
      SameMask(was, mid, family, model, blocked, now);
      taken := IsUsable(idx, family, model, blocked, now);
      LookStep(was, mid, accounts, idx, now);
      if taken {
        StampStep(was, accounts, idx, now);
        accounts := accounts[idx := accounts[idx].(lastUsed := now)];
      }
    }

    /** The loop all selectors share: the first usable account at or after `start`, stamped as used. */
    method ScanFrom(start: nat, family: Family, model: Option<string>, blocked: set<nat>, now: nat) returns (pick: Option<nat>)
      requires Placed(accounts) && start < |accounts|
      modifies this`accounts
      ensures Placed(accounts) && Touched(old(accounts), accounts, pick, now)
      ensures IsFirst(UsableMask(old(accounts), family, model, blocked, now), start, pick)
    {
      ghost var was := accounts;
      ghost var mask := UsableMask(accounts, family, model, blocked, now);
      var count := |accounts|;
      for i := 0 to count
        invariant |accounts| == count && Placed(accounts) && Touched(was, accounts, None, now)
        invariant forall k :: 0 <= k < count && mask[k] ==> i <= Distance(count, start, k)
      {
        ScanIndex(count, start, i);
        var idx := (start + i) % count;
        var taken := TakeIfUsable(was, idx, family, model, blocked, now);
        if taken { return Some(idx); }
      }
      return None;
    }

    /** The cursor moves past the picked account. */
    method Advance(idx: nat, family: Family)
      requires Pointing(cursorByFamily, currentAccountIndexByFamily, |accounts|) && idx < |accounts|
      modifies this`cursorByFamily
      ensures Pointing(cursorByFamily, currentAccountIndexByFamily, |accounts|)
      ensures cursorByFamily == old(cursorByFamily)[family := After(|accounts|, idx)]
    {
      var next := NextIndex(|accounts|, idx);
      cursorByFamily := cursorByFamily[family := next];
    }

    /** The picked account becomes active as well. */
    method Activate(idx: nat, family: Family)
      requires Pointing(cursorByFamily, currentAccountIndexByFamily, |accounts|) && idx < |accounts|
      modifies this`cursorByFamily, this`currentAccountIndexByFamily
      ensures Pointing(cursorByFamily, currentAccountIndexByFamily, |accounts|)
      ensures cursorByFamily == old(cursorByFamily)[family := After(|accounts|, idx)]
      ensures currentAccountIndexByFamily == old(currentAccountIndexByFamily)[family := idx]
    {
      Advance(idx, family);
      currentAccountIndexByFamily := currentAccountIndexByFamily[family := idx];
    }

    /** Round robin that also makes the pick the active account. */
    method GetCurrentOrNextForFamily(family: Family, model: Option<string>, now: nat) returns (pick: Option<nat>)
      requires Valid()
      modifies this`cursorByFamily, this`currentAccountIndexByFamily, this`accounts
      ensures Valid() && Touched(old(accounts), accounts, pick, now)
      ensures accounts == [] ==> pick == None
      ensures accounts != [] ==> IsFirst(UsableMask(old(accounts), family, model, {}, now), old(cursorByFamily[family]), pick)
      ensures pick.Some? ==>
        && cursorByFamily == old(cursorByFamily)[family := After(|accounts|, pick.value)]
        && currentAccountIndexByFamily == old(currentAccountIndexByFamily)[family := pick.value]
      ensures pick.None? ==>
        cursorByFamily == old(cursorByFamily) && currentAccountIndexByFamily == old(currentAccountIndexByFamily)
    {
      if accounts == [] { return None; }
      pick := ScanFrom(cursorByFamily[family], family, model, {}, now);
      if pick.Some? { Activate(pick.value, family); }
    }

    /** The same round robin without the active pointer. */
    method GetNextForFamily(family: Family, model: Option<string>, now: nat) returns (pick: Option<nat>)
      requires Valid()
      modifies this`cursorByFamily, this`accounts
      ensures Valid() && Touched(old(accounts), accounts, pick, now)
      ensures accounts == [] ==> pick == None
      ensures accounts != [] ==> IsFirst(UsableMask(old(accounts), family, model, {}, now), old(cursorByFamily[family]), pick)
      ensures cursorByFamily ==
        if pick.Some? then old(cursorByFamily)[family := After(|accounts|, pick.value)] else old(cursorByFamily)
    {
      if accounts == [] { return None; }
      pick := ScanFrom(cursorByFamily[family], family, model, {}, now);
      if pick.Some? { Advance(pick.value, family); }
    }

    /** Scan from the active account for the next usable one and make it active. */
    method MoveOn(family: Family, model: Option<string>, blocked: set<nat>, now: nat) returns (pick: Option<nat>)
      requires Valid() && accounts != []
      modifies this`cursorByFamily, this`currentAccountIndexByFamily, this`accounts
      ensures Valid() && Touched(old(accounts), accounts, pick, now)
      ensures IsFirst(UsableMask(old(accounts), family, model, blocked, now), Anchor(old(currentAccountIndexByFamily[family]), |accounts|), pick)
      ensures pick.Some? ==>
        && currentAccountIndexByFamily == old(currentAccountIndexByFamily)[family := pick.value]
        && cursorByFamily == old(cursorByFamily)[family := After(|accounts|, pick.value)]
      ensures pick.None? ==>
        cursorByFamily == old(cursorByFamily) && currentAccountIndexByFamily == old(currentAccountIndexByFamily)
    {
      var active := currentAccountIndexByFamily[family];
      pick := ScanFrom(if 0 <= active < |accounts| then active else 0, family, model, blocked, now);
      if pick.Some? { Activate(pick.value, family); }
    }

    /** Drain first: the active account while it is usable, else the next one in cyclic order. */
    method GetCurrentOrNextForFamilySequential(family: Family, model: Option<string>, blocked: set<nat>, now: nat)
      returns (pick: Option<nat>)
      requires Valid()
      modifies this`cursorByFamily, this`currentAccountIndexByFamily, this`accounts
      ensures Valid() && Touched(old(accounts), accounts, pick, now)
      ensures accounts == [] ==> pick == None
      ensures accounts != [] ==>
        IsFirst(UsableMask(old(accounts), family, model, blocked, now), Anchor(old(currentAccountIndexByFamily[family]), |accounts|), pick)
      ensures currentAccountIndexByFamily ==
        if pick.Some? then old(currentAccountIndexByFamily)[family := pick.value] else old(currentAccountIndexByFamily)
      ensures cursorByFamily ==
        if pick.Some? && pick.value != old(currentAccountIndexByFamily[family]) then old(cursorByFamily)[family := After(|accounts|, pick.value)]
        else old(cursorByFamily)
    {
      if accounts == [] { return None; }
      var active := currentAccountIndexByFamily[family];
      ghost var was := accounts;
      assert was != [];
      if 0 <= active {
        var taken := TakeIfUsable(was, active, family, model, blocked, now);
        if taken {
          ActiveIsFirst(UsableMask(was, family, model, blocked, now), active);
          assert currentAccountIndexByFamily == currentAccountIndexByFamily[family := active];
          return Some(active);
        }
      }
      pick := MoveOnFrom(was, family, model, blocked, now);
    }

    /** The same after one look at the active account; `was` is the pool before it. */
    method MoveOnFrom(ghost was: seq<Account>, family: Family, model: Option<string>, blocked: set<nat>, now: nat) returns (pick: Option<nat>)
      requires Valid() && accounts != [] && Touched(was, accounts, None, now)
      modifies this`cursorByFamily, this`currentAccountIndexByFamily, this`accounts
      ensures Valid() && Touched(was, accounts, pick, now)
      ensures IsFirst(UsableMask(was, family, model, blocked, now), Anchor(old(currentAccountIndexByFamily[family]), |accounts|), pick)
      ensures pick.Some? ==>
        && currentAccountIndexByFamily == old(currentAccountIndexByFamily)[family := pick.value]
        && cursorByFamily == old(cursorByFamily)[family := After(|accounts|, pick.value)]
      ensures pick.None? ==>
        cursorByFamily == old(cursorByFamily) && currentAccountIndexByFamily == old(currentAccountIndexByFamily)
    {
      ghost var mid := accounts;
      SameMask(was, mid, family, model, blocked, now);
      pick := MoveOn(family, model, blocked, now);
      TouchedTwice(was, mid, accounts, pick, now);
    }

    // ---- How long to wait ----

    /** The exact wait until some eligible account has no live block. */
    method GetMinWaitTimeForFamily(family: Family, model: Option<string>, excluded: set<nat>, now: nat) returns (w: int)
      requires Valid()
      modifies this`accounts
      ensures Valid() && Touched(old(accounts), accounts, None, now)
      ensures IsMinWait(old(accounts), family, model, excluded, now, w)
    {
      ghost var was := accounts;
      var available := AnyAvailable(family, model, excluded, now);
      if available.Some? {
        WaitIsFirstFree(was[available.value], family, model, now, 0);
        MinOfMaxes(was, family, model, excluded, now, 0, available.value);
        return 0;
      }
      w := LeastWait(was, family, model, excluded, now);
    }

    /** The minimum of the eligible accounts' waits, none of which is zero here. */
    method LeastWait(ghost was: seq<Account>, family: Family, model: Option<string>, excluded: set<nat>, now: nat) returns (w: int)
      requires Touched(was, accounts, None, now)
      requires forall i :: 0 <= i < |was| && Eligible(was[i], excluded) ==> !FreeAt(was[i], family, model, now)
      ensures IsMinWait(was, family, model, excluded, now, w)
    {
      var least: Option<int> := None;
      ghost var best := 0;
      for i := 0 to |accounts|
        invariant forall j :: 0 <= j < i && Eligible(was[j], excluded) ==> least.Some? && least.value <= AccountWait(was[j], family, model, now)
        invariant least.Some? ==> best < |was| && Eligible(was[best], excluded) && least.value == AccountWait(was[best], family, model, now)
      {
        if Eligible(accounts[i], excluded) {
          SweptWait(was[i], accounts[i], family, model, now);
          WaitIsFirstFree(was[i], family, model, now, 0);
          var wait := WaitOf(accounts[i], family, model, now);
          if wait.Some? && (least.None? || wait.value < least.value) {
            least := wait;
            best := i;
          }
        }
      }
      if least.None? { return 0; }
      MinOfMaxes(was, family, model, excluded, now, least.value, best);
      return least.value;
    }

    /** The filter pass: sweeps every eligible account, and finds one that is free now. */
    method AnyAvailable(family: Family, model: Option<string>, excluded: set<nat>, now: nat) returns (found: Option<nat>)
      requires Placed(accounts)
      modifies this`accounts
      ensures Placed(accounts) && Touched(old(accounts), accounts, None, now)
      ensures found.Some? ==>
        found.value < |accounts| && Eligible(old(accounts)[found.value], excluded) && FreeAt(old(accounts)[found.value], family, model, now)
      ensures found.None? ==>
        forall i :: 0 <= i < |accounts| && Eligible(old(accounts)[i], excluded) ==> !FreeAt(old(accounts)[i], family, model, now)
    {
      ghost var was := accounts;
      found := None;
      for i := 0 to |accounts|
        invariant |accounts| == |was| && Placed(accounts) && Touched(was, accounts, None, now)
        invariant found.Some? ==> found.value < |was| && Eligible(was[found.value], excluded) && FreeAt(was[found.value], family, model, now)
        invariant found.None? ==> forall j :: 0 <= j < i && Eligible(was[j], excluded) ==> !FreeAt(was[j], family, model, now)
      {
        if Eligible(accounts[i], excluded) {
          ghost var mid := accounts;
          SweepingIsInvisible(was[i], mid[i], family, model, now, now);
          var free := IsFree(i, family, model, now);
          LookStep(was, mid, accounts, i, now);
          if free { found := Some(i); }
        }
      }
    }

    method IsFree(idx: nat, family: Family, model: Option<string>, now: nat) returns (free: bool)
      requires Placed(accounts) && idx < |accounts|
      modifies this`accounts
      ensures |accounts| == |old(accounts)| && Swept(old(accounts)[idx], accounts[idx], now)
      ensures accounts == old(accounts)[idx := accounts[idx]]
      ensures free == FreeAt(old(accounts)[idx], family, model, now)
    {
      var limited := IsRateLimitedForFamily(idx, family, model, now);
      if limited { return false; }
      var cooling := IsAccountCoolingDown(idx, now);
      return !cooling && Available(accounts[idx].circuit, DEFAULT_CONFIG, now);
    }

    /** The longest of an account's pending waits; none when the account has none. */
    static method WaitOf(a: Account, family: Family, model: Option<string>, now: nat) returns (longest: Option<int>)
      ensures longest.None? ==> AccountWait(a, family, model, now) == 0
      ensures longest.Some? ==> longest.value == AccountWait(a, family, model, now)
    {
      longest := None;
      var baseResetAt := QuotaResetTime(a.limits.limits, family, None, a.quotaWorkspace);
      if !IsReserve(model) && baseResetAt > now { longest := Longer(longest, Max(0, baseResetAt - now)); }
      if Named(model) {
        var modelResetAt := QuotaResetTime(a.limits.limits, family, model, a.quotaWorkspace);
        if modelResetAt > now { longest := Longer(longest, Max(0, modelResetAt - now)); }
      }
      if a.coolingDownUntil.Some? { longest := Longer(longest, Max(0, a.coolingDownUntil.value - now)); }
      var breakerWait := TimeUntilAvailable(a.circuit, DEFAULT_CONFIG, now);
      if breakerWait > 0 { longest := Longer(longest, breakerWait); }
    }

    // ---- Rate limits and the manual selection ----

    method ApplyManualSelection(meta: Meta, now: nat)
      modifies this`accounts, this`pinnedAccountIndex, this`affinityGeneration
      ensures Selection() == RateLimits.ApplyManualSelection(old(Selection()), meta, now)
      ensures |accounts| == |old(accounts)| && accounts == WithLimits(old(accounts), Selection().accounts)
    {
      ghost var was := accounts;
      if meta.gen > affinityGeneration {
        if InRange(meta.pin, |accounts|) {
          var a := accounts[meta.pin.value];
          var pending := a.limits.pending;
          var replayable := if pending.Some? && now - pending.value.recordedAt <= UNSEQUENCED_RATE_LIMIT_TTL_MS then pending else None;
          var limits := if replayable.Some? then replayable.value.limits else map[];
          var reason := if replayable.Some? then Some(replayable.value.reason) else None;
          accounts := accounts[meta.pin.value := a.(limits := LimitState(limits, None, reason))];
          pinnedAccountIndex := meta.pin;
        } else {
          pinnedAccountIndex := None;
        }
        affinityGeneration := meta.gen;
      }
      assert LimitsOf(accounts) == RateLimits.ApplyManualSelection(old(Selection()), meta, now).accounts;
      assert accounts == WithLimits(was, LimitsOf(accounts));
    }

    /** `disk` is what the strict read observed; None when it failed, and then nothing may be persisted. */
    method ReconcileSelectionFromDisk(disk: Option<Meta>, now: nat) returns (ok: bool)
      modifies this`accounts, this`pinnedAccountIndex, this`affinityGeneration
      ensures ok == disk.Some?
      ensures Selection() == if ok then Reconciled(old(Selection()), disk.value, now) else old(Selection())
      ensures |accounts| == |old(accounts)| && accounts == WithLimits(old(accounts), Selection().accounts)
    {
      if disk.None? {
        assert accounts == WithLimits(accounts, LimitsOf(accounts));
        return false;
      }
      ApplyManualSelection(disk.value, now);
      var pin, gen := pinnedAccountIndex, affinityGeneration;
      if disk.value.gen > gen { pin, gen := disk.value.pin, disk.value.gen; }
      if pin.Some? && (pin.value < 0 || pin.value >= |accounts|) { pin := None; }
      pinnedAccountIndex, affinityGeneration := pin, gen;
      return true;
    }

    /** The account is named by identity, since the caller's object may have left the pool. */
    method MarkRateLimitedWithReason(id: nat, hit: Rejection, observed: Option<Meta>, now: nat)
      modifies this`accounts, this`pinnedAccountIndex, this`affinityGeneration
      ensures Selection() == Apply(old(Selection()), Reject(PositionOf(old(accounts), id), hit, observed, now))
      ensures |accounts| == |old(accounts)| && accounts == WithLimits(old(accounts), Selection().accounts)
    {
      ghost var was := accounts;
      var i := FindPosition(accounts, id);
      if observed.Some? { ApplyManualSelection(observed.value, now); } else { assert accounts == WithLimits(was, LimitsOf(accounts)); }
      ghost var mid := Selection();
      if i < |accounts| { RecordRejection(i, hit, now, observed.Some?); }
      assert LimitsOf(accounts) == Apply(old(Selection()), Reject(i, hit, observed, now)).accounts;
    }

    method RecordRejection(i: nat, hit: Rejection, now: nat, selectionReadable: bool)
      requires i < |accounts|
      modifies this`accounts
      ensures accounts == old(accounts)[i := old(accounts)[i].(limits := Recorded(old(accounts)[i].limits, hit, now, selectionReadable))]
    {
      var a := accounts[i];
      var resetAt := now + Min(Max(0, hit.retryAfter.Floor), RATE_LIMIT_CACHE_TTL_MS);
      var pending := a.limits.pending;
      var carried := if pending.Some? && now - pending.value.recordedAt <= UNSEQUENCED_RATE_LIMIT_TTL_MS then pending else None;
      var newLimits: Limits := if carried.Some? then carried.value.limits else map[];
      var limits := Bump(a.limits.limits, hit, resetAt);
      newLimits := Bump(newLimits, hit, resetAt);
      var left := if selectionReadable then None else Some(Pending(newLimits, hit.reason, now));
      accounts := accounts[i := a.(limits := LimitState(limits, left, Some(hit.reason)))];
    }

    // ---- Pointers ----

    /** The active account for display: routable, or -1 when every account is disabled. */
    method GetActiveIndexForFamily(family: Family) returns (r: int)
      requires Valid()
      ensures accounts == [] ==> r == -1
      ensures accounts != [] ==>
        r >= -1 && IsFirst(EnabledMask(accounts), Anchor(currentAccountIndexByFamily[family], |accounts|), AsPick(r))
    {
      var index := currentAccountIndexByFamily[family];
      if |accounts| == 0 { return -1; }
      var clamped := if index < 0 || index >= |accounts| then 0 else index;
      r := NextEnabled(clamped, 0);
    }

    /** The first enabled account at `start + from`, `start + from + 1`, ..., once around. */
    method NextEnabled(start: nat, from: nat) returns (r: int)
      requires start < |accounts| && from <= 1
      requires from == 1 ==> !accounts[start].enabled
      ensures r >= -1 && IsFirst(EnabledMask(accounts), start, AsPick(r))
    {
      var count := |accounts|;
      for step := from to count
        invariant forall k :: 0 <= k < count && accounts[k].enabled ==> step <= Distance(count, start, k)
      {
        ScanIndex(count, start, step);
        var candidate := (start + step) % count;
        if accounts[candidate].enabled { return candidate; }
      }
      return -1;
    }

    method FindNextEnabled(start: int) returns (r: int)
      ensures r >= -1
      ensures accounts == [] ==> r == -1
      ensures accounts != [] ==> IsFirst(EnabledMask(accounts), start % |accounts|, AsPick(r))
    {
      if |accounts| == 0 { return -1; }
      r := NextEnabled(start % |accounts|, 0);
    }

    /**
     * The handle is the account object, which may have left the pool. The
     * pointers stay valid exactly when the position it records exists.
     */
    method MarkSwitched(handle: Account, reason: SwitchReason, family: Family)
      requires Valid() && forall i :: 0 <= i < |accounts| && accounts[i].id == handle.id ==> accounts[i] == handle
      modifies this`accounts, this`cursorByFamily, this`currentAccountIndexByFamily
      ensures |accounts| == |old(accounts)|
      ensures forall i :: 0 <= i < |accounts| ==>
        accounts[i] == if old(accounts[i]).id == handle.id then handle.(lastSwitchReason := Some(reason)) else old(accounts[i])
      ensures currentAccountIndexByFamily == old(currentAccountIndexByFamily)[family := handle.index]
      ensures cursorByFamily ==
        if accounts == [] then old(cursorByFamily) else old(cursorByFamily)[family := (handle.index + 1) % |accounts|]
      ensures Valid() <==> handle.index < |accounts|
    {
      var i := 0;
      while i < |accounts| && accounts[i].id != handle.id
        invariant i <= |accounts| && forall k :: 0 <= k < i ==> accounts[k].id != handle.id
      {
        i := i + 1;
      }
      if i < |accounts| { accounts := accounts[i := accounts[i].(lastSwitchReason := Some(reason))]; }
      currentAccountIndexByFamily := currentAccountIndexByFamily[family := handle.index];
      if |accounts| > 0 { cursorByFamily := cursorByFamily[family := (handle.index + 1) % |accounts|]; }
      assert currentAccountIndexByFamily[family] == handle.index;
    }

    method SetActiveIndex(index: int, now: int) returns (done: bool)
      requires Valid()
      modifies this`accounts, this`cursorByFamily, this`currentAccountIndexByFamily
      ensures Valid()
      ensures done <==> 0 <= index < |old(accounts)| && old(accounts)[index].enabled
      ensures done ==>
        && accounts == old(accounts)[index := old(accounts)[index].(lastUsed := now, lastSwitchReason := Some(Rotation))]
        && forall f: Family :: f in cursorByFamily && cursorByFamily[f] == index && currentAccountIndexByFamily[f] == index
      ensures !done ==>
        accounts == old(accounts) && cursorByFamily == old(cursorByFamily) && currentAccountIndexByFamily == old(currentAccountIndexByFamily)
    {
      if index < 0 || index >= |accounts| || !accounts[index].enabled { return false; }
      currentAccountIndexByFamily := PointAll(currentAccountIndexByFamily, index);
      cursorByFamily := PointAll(cursorByFamily, index);
      accounts := accounts[index := accounts[index].(lastUsed := now, lastSwitchReason := Some(Rotation))];
      return true;
    }

    static method PointAll(pointers: map<Family, int>, index: int) returns (r: map<Family, int>)
      ensures forall f: Family :: f in r && r[f] == index
    {
      r := pointers;
      var families := ModelFamilies();
      for k := 0 to |families|
        invariant forall j :: 0 <= j < k ==> families[j] in r && r[families[j]] == index
      {
        r := r[families[k] := index];
      }
      forall f: Family ensures f in r && r[f] == index { assert f in families; }
    }

    /** Enabling or disabling one account; a pointer to a disabled account moves on if it can. */
    method SetAccountEnabled(index: int, enabled: bool) returns (found: bool)
      requires Valid()
      modifies this`accounts, this`cursorByFamily, this`currentAccountIndexByFamily
      ensures Valid()
      ensures found <==> 0 <= index < |old(accounts)|
      ensures accounts == if found then old(accounts)[index := Toggled(old(accounts)[index], enabled)] else old(accounts)
      ensures !found || enabled ==> cursorByFamily == old(cursorByFamily) && currentAccountIndexByFamily == old(currentAccountIndexByFamily)
      ensures found && !enabled ==> forall f: Family ::
        Repaired(accounts, index, old(cursorByFamily)[f], cursorByFamily[f])
        && Repaired(accounts, index, old(currentAccountIndexByFamily)[f], currentAccountIndexByFamily[f])
    {
      if index < 0 || index >= |accounts| { return false; }
      accounts := accounts[index := Toggled(accounts[index], enabled)];
      if !enabled { RepairPointers(index); }
      return true;
    }

    method RepairPointers(index: nat)
      requires Valid() && index < |accounts| && !accounts[index].enabled
      modifies this`cursorByFamily, this`currentAccountIndexByFamily
      ensures Valid()
      ensures forall f: Family :: Repaired(accounts, index, old(cursorByFamily)[f], cursorByFamily[f])
      ensures forall f: Family :: Repaired(accounts, index, old(currentAccountIndexByFamily)[f], currentAccountIndexByFamily[f])
    {
      currentAccountIndexByFamily := RepairAll(index, currentAccountIndexByFamily);
      cursorByFamily := RepairAll(index, cursorByFamily);
    }

    method RepairAll(index: nat, pointers: map<Family, int>) returns (r: map<Family, int>)
      requires index < |accounts| && !accounts[index].enabled
      requires forall f: Family :: f in pointers && -1 <= pointers[f] < |accounts|
      ensures forall f: Family :: f in r && Repaired(accounts, index, pointers[f], r[f])
      ensures forall f: Family :: f in r && -1 <= r[f] < |accounts| && (pointers[f] >= 0 ==> r[f] >= 0)
    {
      r := pointers;
      var families := ModelFamilies();
      for k := 0 to |families|
        invariant forall f: Family :: f in r && -1 <= r[f] < |accounts| && (pointers[f] >= 0 ==> r[f] >= 0)
        invariant forall j :: k <= j < |families| ==> r[families[j]] == pointers[families[j]]
        invariant forall j :: 0 <= j < k ==> Repaired(accounts, index, pointers[families[j]], r[families[j]])
      {
        var next := Repair(index, pointers[families[k]]);
        r := r[families[k] := next];
      }
      forall f: Family ensures Repaired(accounts, index, pointers[f], r[f]) { assert f in families; }
    }

    method Repair(index: nat, pointer: int) returns (r: int)
      requires index < |accounts| && !accounts[index].enabled && -1 <= pointer < |accounts|
      ensures Repaired(accounts, index, pointer, r) && -1 <= r < |accounts| && (pointer >= 0 ==> r >= 0)
    {
      if pointer != index { return pointer; }
      var next := NextEnabled(index, 1);
      if next == -1 {
        forall i | 0 <= i < |accounts| ensures !accounts[i].enabled { assert !EnabledMask(accounts)[i]; }
        return pointer;
      }
      assert EnabledMask(accounts)[next];
      return next;
    }

    // ---- Removal ----

    /** Removes the account with this identity; false, and nothing changed, when the pool does not hold it. */
    method RemoveAccount(id: nat) returns (removed: bool)
      requires Valid()
      modifies this`accounts, this`cursorByFamily, this`currentAccountIndexByFamily
      ensures Valid()
      ensures removed <==> exists i :: 0 <= i < |old(accounts)| && old(accounts)[i].id == id
      ensures !removed ==>
        accounts == old(accounts) && cursorByFamily == old(cursorByFamily) && currentAccountIndexByFamily == old(currentAccountIndexByFamily)
      ensures removed ==> exists idx ::
        0 <= idx < |old(accounts)| && old(accounts)[idx].id == id &&
        Removed(old(accounts), accounts, idx, old(cursorByFamily), cursorByFamily, old(currentAccountIndexByFamily), currentAccountIndexByFamily)
    {
      var idx := 0;
      while idx < |accounts| && accounts[idx].id != id
        invariant idx <= |accounts| && forall k :: 0 <= k < idx ==> accounts[k].id != id
      {
        idx := idx + 1;
      }
      if idx == |accounts| { return false; }
      RemoveAt(idx);
      return true;
    }

    method RemoveAt(idx: nat)
      requires Valid() && idx < |accounts|
      modifies this`accounts, this`cursorByFamily, this`currentAccountIndexByFamily
      ensures Valid()
      ensures Removed(old(accounts), accounts, idx, old(cursorByFamily), cursorByFamily, old(currentAccountIndexByFamily), currentAccountIndexByFamily)
    {
      ghost var pool, cursors, actives := accounts, cursorByFamily, currentAccountIndexByFamily;
      accounts := accounts[..idx] + accounts[idx + 1..];
      Reindex();
      assert accounts == Without(pool, idx);
      var stamps := RetargetFamilies(pool, idx);
      StampSuccessors(stamps);
      RemovedFrom(pool, accounts, idx, cursors, cursorByFamily, actives, currentAccountIndexByFamily);
      PointersFollowAccounts(pool, accounts, idx, cursors, cursorByFamily, actives, currentAccountIndexByFamily, Codex);
    }

    method Reindex()
      modifies this`accounts
      ensures |accounts| == |old(accounts)| && forall i :: 0 <= i < |accounts| ==> accounts[i] == old(accounts)[i].(index := i)
    {
      for k := 0 to |accounts|
        invariant |accounts| == |old(accounts)|
        invariant forall i :: 0 <= i < |accounts| ==> accounts[i] == if i < k then old(accounts)[i].(index := i) else old(accounts)[i]
      {
        accounts := accounts[k := accounts[k].(index := k)];
      }
    }

    /** Every family's two pointers after the splice, and the accounts that replaced a removed active one. */
    method RetargetFamilies(ghost pool: seq<Account>, idx: nat) returns (stamps: set<nat>)
      requires idx < |pool| && |pool| == |accounts| + 1 && Pointing(cursorByFamily, currentAccountIndexByFamily, |pool|)
      modifies this`cursorByFamily, this`currentAccountIndexByFamily
      ensures forall f: Family :: f in cursorByFamily && f in currentAccountIndexByFamily
      ensures forall f: Family :: CursorFollows(|pool|, idx, old(cursorByFamily)[f], cursorByFamily[f])
      ensures forall f: Family :: ActiveFollows(accounts, idx, old(currentAccountIndexByFamily)[f], currentAccountIndexByFamily[f])
      ensures forall i :: 0 <= i < |accounts| ==> (i in stamps <==> Retargeted(old(currentAccountIndexByFamily), currentAccountIndexByFamily, idx, i))
    {
      cursorByFamily := MoveCursors(idx, cursorByFamily, |pool|);
      currentAccountIndexByFamily, stamps := MoveActives(idx, currentAccountIndexByFamily);
    }

    method MoveCursors(idx: nat, cursors: map<Family, nat>, ghost count: nat) returns (r: map<Family, nat>)
      requires idx < count == |accounts| + 1
      requires forall f: Family :: f in cursors && (cursors[f] < count)
      ensures forall f: Family :: f in r && CursorFollows(count, idx, cursors[f], r[f])
    {
      r := cursors;
      var families := ModelFamilies();
      for k := 0 to |families|
        invariant forall f: Family :: f in r
        invariant forall j :: k <= j < |families| ==> r[families[j]] == cursors[families[j]]
        invariant forall j :: 0 <= j < k ==> CursorFollows(count, idx, cursors[families[j]], r[families[j]])
      {
        var cursor := MoveCursor(idx, cursors[families[k]], count);
        r := r[families[k] := cursor];
      }
      forall f: Family ensures CursorFollows(count, idx, cursors[f], r[f]) { assert f in families; }
    }

    method MoveActives(idx: nat, actives: map<Family, int>) returns (r: map<Family, int>, stamps: set<nat>)
      requires idx <= |accounts| && forall f: Family :: f in actives && -1 <= actives[f] <= |accounts|
      ensures forall f: Family :: f in r && ActiveFollows(accounts, idx, actives[f], r[f])
      ensures forall i :: 0 <= i < |accounts| ==> (i in stamps <==> Retargeted(actives, r, idx, i))
    {
      r, stamps := actives, {};
      var families := ModelFamilies();
      for k := 0 to |families|
        invariant forall f: Family :: f in r
        invariant forall j :: k <= j < |families| ==> r[families[j]] == actives[families[j]]
        invariant forall j :: 0 <= j < k ==> ActiveFollows(accounts, idx, actives[families[j]], r[families[j]])
        invariant forall i :: i in stamps <==> i >= 0 && exists j :: 0 <= j < k && actives[families[j]] == idx && r[families[j]] == i
      {
        var active := MoveActive(idx, actives[families[k]]);
        if actives[families[k]] == idx && active >= 0 { stamps := stamps + {active}; }
        r := r[families[k] := active];
      }
      forall f: Family ensures ActiveFollows(accounts, idx, actives[f], r[f]) { assert f in families; }
      forall i | 0 <= i < |accounts| && Retargeted(actives, r, idx, i) ensures i in stamps {
        var f: Family :| f in actives && f in r && actives[f] == idx && r[f] == i;
        assert f in families;
      }
    }

    method MoveCursor(idx: nat, before: nat, ghost count: nat) returns (cursor: nat)
      requires idx < count && before < count && count == |accounts| + 1
      ensures CursorFollows(count, idx, before, cursor)
    {
      if |accounts| == 0 { return 0; }
      cursor := before;
      if cursor > idx { cursor := Max(0, cursor - 1); }
      if cursor >= |accounts| { cursor := 0; }
    }

    method MoveActive(idx: nat, before: int) returns (active: int)
      requires -1 <= before <= |accounts| && idx <= |accounts|
      ensures ActiveFollows(accounts, idx, before, active)
    {
      if |accounts| == 0 { return -1; }
      active := before;
      if active > idx {
        active := active - 1;
      } else if active == idx {
        SmallMod(Min(idx, |accounts| - 1), |accounts|);
        active := FindNextEnabled(Min(idx, |accounts| - 1));
      }
      if active >= |accounts| { active := FindNextEnabled(0); }
    }

    /** Accounts that took over as active say so. */
    method StampSuccessors(stamps: set<nat>)
      modifies this`accounts
      ensures |accounts| == |old(accounts)|
      ensures forall i :: 0 <= i < |accounts| ==>
        accounts[i] == if i in stamps then old(accounts)[i].(lastSwitchReason := Some(Rotation)) else old(accounts)[i]
    {
      for k := 0 to |accounts|
        invariant |accounts| == |old(accounts)|
        invariant forall i :: 0 <= i < |accounts| ==>
          accounts[i] == if i < k && i in stamps then old(accounts)[i].(lastSwitchReason := Some(Rotation)) else old(accounts)[i]
      {
        if k in stamps { accounts := accounts[k := accounts[k].(lastSwitchReason := Some(Rotation))]; }
      }
    }
  }

  /**
   * A caller keeps the object of the account it removes and switches to it. The
   * object still records its old position, which the pool has lost exactly when
   * the account was the last one: the active pointer is then out of range.
   */
  method SwitchToRemoved(manager: AccountManager, idx: nat, reason: SwitchReason, family: Family)
    requires manager.Valid() && idx < |manager.accounts|
    modifies manager
    ensures |manager.accounts| == old(|manager.accounts|) - 1
    ensures family in manager.currentAccountIndexByFamily && manager.currentAccountIndexByFamily[family] == idx
    ensures manager.Valid() <==> idx < old(|manager.accounts|) - 1
  {
    var handle := manager.accounts[idx];
    ghost var pool, cursors, actives := manager.accounts, manager.cursorByFamily, manager.currentAccountIndexByFamily;
    var removed := manager.RemoveAccount(handle.id);
    assert pool[idx].id == handle.id;
    RemovedIsGone(pool, manager.accounts, idx, cursors, manager.cursorByFamily, actives, manager.currentAccountIndexByFamily);
    manager.MarkSwitched(handle, reason, family);
  }

  lemma RemovedIsGone(
    pool: seq<Account>, rest: seq<Account>, idx: nat,
    cursors: map<Family, nat>, newCursors: map<Family, nat>, actives: map<Family, int>, newActives: map<Family, int>)
    requires idx < |pool| && Placed(pool) && Pointing(cursors, actives, |pool|)
    requires Removed(pool, rest, idx, cursors, newCursors, actives, newActives)
    ensures |rest| == |pool| - 1 && forall i :: 0 <= i < |rest| ==> rest[i].id != pool[idx].id
  {
    forall i | 0 <= i < |rest| ensures rest[i].id != pool[idx].id { WithoutAt(pool, idx, i); }
  }

  lemma RemovedFrom(
    pool: seq<Account>, rest: seq<Account>, idx: nat,
    cursors: map<Family, nat>, newCursors: map<Family, nat>, actives: map<Family, int>, newActives: map<Family, int>)
    requires idx < |pool| && Pointing(cursors, actives, |pool|) && |rest| == |pool| - 1
    requires forall f: Family :: f in newCursors && f in newActives
    requires forall f: Family :: CursorFollows(|pool|, idx, cursors[f], newCursors[f])
    requires forall f: Family :: ActiveFollows(Without(pool, idx), idx, actives[f], newActives[f])
    requires forall i :: 0 <= i < |rest| ==>
      rest[i] == if Retargeted(actives, newActives, idx, i) then Without(pool, idx)[i].(lastSwitchReason := Some(Rotation))
                 else Without(pool, idx)[i]
    ensures Removed(pool, rest, idx, cursors, newCursors, actives, newActives)
  {
    MasksAlike(Without(pool, idx), rest);
  }

  /** To the rate-limit protocol a removal is a splice: the limits and pending entries of the others go with them. */
  lemma RemovalIsSplice(
    pool: seq<Account>, rest: seq<Account>, idx: nat,
    cursors: map<Family, nat>, newCursors: map<Family, nat>, actives: map<Family, int>, newActives: map<Family, int>, selection: Meta, now: nat)
    requires idx < |pool| && Pointing(cursors, actives, |pool|)
    requires Removed(pool, rest, idx, cursors, newCursors, actives, newActives)
    ensures Pool(selection, LimitsOf(rest)) == Apply(Pool(selection, LimitsOf(pool)), Remove(idx, now))
  {
    var spliced := LimitsOf(pool)[..idx] + LimitsOf(pool)[idx + 1..];
    forall i | 0 <= i < |rest| ensures LimitsOf(rest)[i] == spliced[i] { WithoutAt(pool, idx, i); }
    assert LimitsOf(rest) == spliced;
  }

  lemma SmallMod(x: nat, count: nat)
    requires x < count
    ensures x % count == x
  {
  }

  /** The pointer rules look only at which accounts are enabled. */
  lemma MasksAlike(a: seq<Account>, b: seq<Account>)
    requires |a| == |b| && forall i :: 0 <= i < |a| ==> a[i].enabled == b[i].enabled
    ensures EnabledMask(a) == EnabledMask(b)
  {
  }

  lemma ActiveIsFirst(mask: Mask, active: nat)
    requires active < |mask| && mask[active]
    ensures IsFirst(mask, Anchor(active, |mask|), Some(active))
  {
  }

  lemma UnexpiredIsInvisible(limits: Limits, keys: set<QuotaKey>, now: nat)
    ensures Limited(Unexpired(limits, now), keys, now) == Limited(limits, keys, now)
  {
    if Limited(limits, keys, now) {
      var k :| k in keys && k in limits && now < limits[k];
      assert k in Unexpired(limits, now) && now < Unexpired(limits, now)[k];
    }
  }

  lemma LookStep(was: seq<Account>, mid: seq<Account>, after: seq<Account>, idx: nat, now: nat)
    requires Touched(was, mid, None, now) && idx < |mid| && |after| == |mid|
    requires after == mid[idx := after[idx]] && Swept(mid[idx], after[idx], now)
    ensures Touched(was, after, None, now)
  {
    SweptTwice(was[idx], mid[idx], after[idx], now);
  }

  lemma StampStep(was: seq<Account>, mid: seq<Account>, idx: nat, now: nat)
    requires Touched(was, mid, None, now) && idx < |mid|
    ensures Touched(was, mid[idx := mid[idx].(lastUsed := now)], Some(idx), now)
  {
    var after := mid[idx := mid[idx].(lastUsed := now)];
    forall i | 0 <= i < |was| ensures Swept(if i == idx then was[i].(lastUsed := now) else was[i], after[i], now) {
      assert Swept(was[i], mid[i], now);
    }
  }

  lemma TouchedTwice(a: seq<Account>, b: seq<Account>, c: seq<Account>, pick: Option<nat>, now: nat)
    requires Touched(a, b, None, now) && Touched(b, c, pick, now)
    ensures Touched(a, c, pick, now)
  {
    forall i | 0 <= i < |a| ensures Swept(if pick == Some(i) then a[i].(lastUsed := now) else a[i], c[i], now) {
      assert Swept(a[i], b[i], now);
      if pick == Some(i) {
        assert Swept(a[i].(lastUsed := now), b[i].(lastUsed := now), now);
        SweptTwice(a[i].(lastUsed := now), b[i].(lastUsed := now), c[i], now);
      } else {
        SweptTwice(a[i], b[i], c[i], now);
      }
    }
  }

  lemma {:induction false} SameMask(a: seq<Account>, b: seq<Account>, family: Family, model: Option<string>, blocked: set<nat>, now: nat)
    requires Touched(a, b, None, now)
    ensures UsableMask(a, family, model, blocked, now) == UsableMask(b, family, model, blocked, now)
  {
    forall k | 0 <= k < |a|
      ensures UsableMask(a, family, model, blocked, now)[k] == UsableMask(b, family, model, blocked, now)[k]
    {
      MaskAt(a, family, model, blocked, now, k);
      MaskAt(b, family, model, blocked, now, k);
      SweepingIsInvisible(a[k], b[k], family, model, now, now);
    }
  }
}
