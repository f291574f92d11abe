/**
 * lib/accounts.ts, the two cursor disciplines over a pool of fixed size. A mask
 * says which accounts are usable when a call is made; which account a selector
 * takes depends on nothing else.
 */
module RoundRobin {
  import opened Prelude

  type Mask = seq<bool>

  /** How many steps after `start` the cyclic scan reaches `i`. */
  function Distance(count: nat, start: nat, i: nat): nat
    requires start < count && i < count
  {
    if start <= i then i - start else i + count - start
  }

  /** The first usable account at or after `start`, cyclically; none exactly when no account is usable. */
  ghost predicate IsFirst(mask: Mask, start: nat, pick: Option<nat>)
    requires start < |mask|
  {
    match pick
    case None => forall i :: 0 <= i < |mask| ==> !mask[i]
    case Some(p) =>
      && p < |mask| && mask[p]
      && forall i :: 0 <= i < |mask| && mask[i] ==> Distance(|mask|, start, p) <= Distance(|mask|, start, i)
  }

  lemma FirstIsUnique(mask: Mask, start: nat, a: Option<nat>, b: Option<nat>)
    requires start < |mask| && IsFirst(mask, start, a) && IsFirst(mask, start, b)
    ensures a == b
  {
  }

  function After(count: nat, i: nat): nat
    requires i < count
  {
    if i + 1 == count then 0 else i + 1
  }

  // ---- Round robin ----

  /** A run of calls: each picks from its cursor, and a successful pick moves the cursor past the pick. */
  ghost predicate IsRotation(masks: seq<Mask>, cursors: seq<nat>, picks: seq<Option<nat>>, count: nat) {
    && |picks| == |masks| && |cursors| == |masks| + 1
    && (forall k :: 0 <= k < |cursors| ==> cursors[k] < count)
    && (forall k :: 0 <= k < |masks| ==>
          |masks[k]| == count && IsFirst(masks[k], cursors[k], picks[k])
          && cursors[k + 1] == if picks[k].Some? then After(count, picks[k].value) else cursors[k])
  }

  /** A pick that passes an account over brings the cursor strictly closer to it. */
  lemma PickApproaches(count: nat, mask: Mask, cursor: nat, pick: nat, a: nat)
    requires |mask| == count && cursor < count && a < count && mask[a] && pick != a
    requires IsFirst(mask, cursor, Some(pick))
    ensures Distance(count, After(count, pick), a) < Distance(count, cursor, a)
  {
  }

  /**
   * No starvation: an account usable at every call is picked before the cursor
   * could pass it, so within any `count` consecutive calls.
   */
  lemma NoStarvation(masks: seq<Mask>, cursors: seq<nat>, picks: seq<Option<nat>>, count: nat, a: nat, from: nat)
    returns (k: nat)
    requires IsRotation(masks, cursors, picks, count) && a < count
    requires from + count <= |masks|
    requires forall k :: from <= k < from + count ==> masks[k][a]
    ensures from <= k <= from + Distance(count, cursors[from], a) < from + count
    ensures picks[k] == Some(a)
    ensures forall j :: from <= j < k ==> picks[j].Some?
  {
    k := from;
    while picks[k] != Some(a)
      invariant from <= k < from + count
      invariant k + Distance(count, cursors[k], a) <= from + Distance(count, cursors[from], a)
      invariant forall j :: from <= j < k ==> picks[j].Some?
      decreases from + count - k
    {
      PickApproaches(count, masks[k], cursors[k], picks[k].value, a);
      k := k + 1;
    }
  }

  /** Within `count` consecutive picks of a pool whose usable accounts do not change, none is picked twice before all had a turn. */
  lemma FairTurns(masks: seq<Mask>, cursors: seq<nat>, picks: seq<Option<nat>>, count: nat, a: nat, i: nat, j: nat)
    requires IsRotation(masks, cursors, picks, count) && a < count
    requires i < j < |masks| && picks[i].Some? && picks[i] == picks[j]
    requires forall k :: i < k <= j ==> masks[k][a]
    ensures exists k :: i < k <= j && picks[k] == Some(a)
  {
    if picks[j] != Some(a) {
      var x := picks[i].value;
      var k := i + 1;
      assert cursors[k] == After(count, x);
      while k < j && picks[k] != Some(a)
        invariant i < k <= j
        invariant Distance(count, cursors[k], a) < Distance(count, cursors[k], x)
        decreases j - k
      {
        PickApproaches(count, masks[k], cursors[k], picks[k].value, a);
        k := k + 1;
      }
    }
  }

  // ---- Drain first ----

  /** Where the sequential scan starts: the active account, or the head of the pool. */
  function Anchor(active: int, count: nat): (start: nat)
    requires count > 0
    ensures start < count
  {
    if 0 <= active < count then active else 0
  }

  ghost predicate IsDraining(masks: seq<Mask>, actives: seq<int>, picks: seq<Option<nat>>, count: nat) {
    && count > 0 && |picks| == |masks| && |actives| == |masks| + 1
    && (forall k :: 0 <= k < |masks| ==>
          |masks[k]| == count && IsFirst(masks[k], Anchor(actives[k], count), picks[k])
          && actives[k + 1] == if picks[k].Some? then picks[k].value else actives[k])
  }

  /** The active account changes only at a call at which it was not usable. */
  lemma DrainsFirst(masks: seq<Mask>, actives: seq<int>, picks: seq<Option<nat>>, count: nat, k: nat)
    requires IsDraining(masks, actives, picks, count) && k < |masks|
    ensures 0 <= actives[k] < count && masks[k][actives[k]] ==> picks[k] == Some(actives[k]) && actives[k + 1] == actives[k]
    ensures actives[k + 1] != actives[k] ==> !(0 <= actives[k] < count && masks[k][actives[k]])
    ensures picks[k].None? <==> forall i :: 0 <= i < count ==> !masks[k][i]
  {
    if 0 <= actives[k] < count && masks[k][actives[k]] {
      assert Distance(count, actives[k], actives[k]) == 0;
      if picks[k].Some? { assert Distance(count, actives[k], picks[k].value) == 0; }
    }
  }

  /** An account once picked is picked by every later call, as long as it stays usable. */
  lemma {:induction false} StaysUntilDrained(masks: seq<Mask>, actives: seq<int>, picks: seq<Option<nat>>, count: nat, i: nat, j: nat)
    requires IsDraining(masks, actives, picks, count) && i <= j < |masks| && picks[i].Some?
    requires forall k :: i <= k <= j ==> masks[k][picks[i].value]
    ensures picks[j] == picks[i] && actives[j + 1] == actives[i + 1]
    decreases j
  {
    if i < j {
      StaysUntilDrained(masks, actives, picks, count, i, j - 1);
      DrainsFirst(masks, actives, picks, count, j);
    }
  }
}
