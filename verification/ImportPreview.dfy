/**
 * lib/oc-chatgpt-import-adapter.ts, second half: matching normalized source
 * rows to destination slots and merging them. The preview's three lists are
 * one list of actions, one per source row.
 */
module ImportPreview {
  import opened Prelude
  import opened ImportMerge

  /** The four ways a source row can claim a destination slot, in order of preference. */
  datatype Claim = ExactIdentity | BareAccountId | LooseEmail | BareToken

  predicate Fits(claim: Claim, source: Row, slot: Row) {
    match claim
    case ExactIdentity => IdentityOf(source).Some? && IdentityOf(slot) == IdentityOf(source)
    case BareAccountId => source.accountId.Some? && slot.accountId == source.accountId
    case LooseEmail => EmailKey(source).Some? && slot.accountId.None? && EmailKey(slot) == EmailKey(source)
    case BareToken => slot.accountId.None? && EmailKey(slot).None? && slot.refreshToken == source.refreshToken
  }

  predicate Free(destination: seq<Row>, used: set<nat>, i: nat) { i < |destination| && i !in used }

  ghost predicate FirstFree(claim: Claim, source: Row, destination: seq<Row>, used: set<nat>, i: nat) {
    && Free(destination, used, i) && Fits(claim, source, destination[i])
    && forall j: nat | j < i && j !in used :: !Fits(claim, source, destination[j])
  }

  ghost predicate NoneFree(claim: Claim, source: Row, destination: seq<Row>, used: set<nat>) {
    forall j: nat | Free(destination, used, j) :: !Fits(claim, source, destination[j])
  }

  predicate EmailsCompatible(a: Row, b: Row) {
    EmailKey(a).None? || EmailKey(b).None? || EmailKey(a) == EmailKey(b)
  }

  /** The only free slot with the source's account id, unless an email contradicts it. */
  ghost predicate SoleBareId(source: Row, destination: seq<Row>, used: set<nat>, i: nat) {
    && Free(destination, used, i) && Fits(BareAccountId, source, destination[i])
    && (forall j: nat | Free(destination, used, j) && j != i :: !Fits(BareAccountId, source, destination[j]))
    && EmailsCompatible(source, destination[i])
  }

  datatype Match = Match(index: nat, claim: Claim)

  /** Which slot a source row gets: the preferred claim that any free slot answers. */
  ghost predicate IsMatch(source: Row, destination: seq<Row>, used: set<nat>, m: Option<Match>) {
    if !NoneFree(ExactIdentity, source, destination, used) then
      m.Some? && m.value.claim == ExactIdentity && FirstFree(ExactIdentity, source, destination, used, m.value.index)
    else if exists i: nat :: SoleBareId(source, destination, used, i) then
      m.Some? && m.value.claim == BareAccountId && SoleBareId(source, destination, used, m.value.index)
    else if !NoneFree(LooseEmail, source, destination, used) then
      m.Some? && m.value.claim == LooseEmail && FirstFree(LooseEmail, source, destination, used, m.value.index)
    else if !NoneFree(BareToken, source, destination, used) then
      m.Some? && m.value.claim == BareToken && FirstFree(BareToken, source, destination, used, m.value.index)
    else m.None?
  }

  /** The answer is determined: no two slots can both be the match. */
  lemma MatchIsUnique(source: Row, destination: seq<Row>, used: set<nat>, a: Option<Match>, b: Option<Match>)
    requires IsMatch(source, destination, used, a) && IsMatch(source, destination, used, b)
    ensures a == b
  {
    if a.Some? && b.Some? {
      assert a.value.claim == b.value.claim;
      if a.value.claim == BareAccountId {
        assert Free(destination, used, b.value.index);
      } else {
        assert !(a.value.index < b.value.index) && !(b.value.index < a.value.index);
      }
    }
  }

  method FindIndex(claim: Claim, source: Row, destination: seq<Row>, used: set<nat>) returns (found: Option<nat>)
    ensures found.None? ==> NoneFree(claim, source, destination, used)
    ensures found.Some? ==> FirstFree(claim, source, destination, used, found.value)
  {
    for i := 0 to |destination|
      invariant forall j: nat | j < i && j !in used :: !Fits(claim, source, destination[j])
    {
      if i !in used && Fits(claim, source, destination[i]) { return Some(i); }
    }
    return None;
  }

  method FindSoleBareId(source: Row, destination: seq<Row>, used: set<nat>) returns (found: Option<nat>)
    ensures found.None? ==> forall i: nat :: !SoleBareId(source, destination, used, i)
    ensures found.Some? ==> SoleBareId(source, destination, used, found.value)
  {
    var idx: Option<nat> := None;
    for i := 0 to |destination|
      invariant idx.None? ==> forall j: nat | j < i && j !in used :: !Fits(BareAccountId, source, destination[j])
      invariant idx.Some? ==> idx.value < i && idx.value !in used && Fits(BareAccountId, source, destination[idx.value])
      invariant idx.Some? ==>
        forall j: nat | j < i && j !in used && j != idx.value :: !Fits(BareAccountId, source, destination[j])
    {
      if i in used || !Fits(BareAccountId, source, destination[i]) { continue; }
      if idx.Some? {
        assert Free(destination, used, i) && Free(destination, used, idx.value);
        return None;
      }
      idx := Some(i);
    }
    if idx.Some? && !EmailsCompatible(source, destination[idx.value]) {
      assert Free(destination, used, idx.value);
      return None;
    }
    return idx;
  }

  method MatchDestination(source: Row, destination: seq<Row>, used: set<nat>) returns (m: Option<Match>)
    ensures IsMatch(source, destination, used, m)
  {
    var exact := FindIndex(ExactIdentity, source, destination, used);
    if exact.Some? { return Some(Match(exact.value, ExactIdentity)); }
    var bare := FindSoleBareId(source, destination, used);
    if bare.Some? { return Some(Match(bare.value, BareAccountId)); }
    var mail := FindIndex(LooseEmail, source, destination, used);
    if mail.Some? { return Some(Match(mail.value, LooseEmail)); }
    var token := FindIndex(BareToken, source, destination, used);
    if token.Some? { return Some(Match(token.value, BareToken)); }
    return None;
  }

  // ---- The merge ----

  /** What became of one source row, and the slot it ended on or lost to. */
  datatype Action = Add(slot: nat) | Update(slot: nat, claim: Claim) | SkipOlder(slot: nat, claim: Claim)

  /** The rows added, in source order. */
  function Added(source: seq<Row>, actions: seq<Action>): seq<Row>
    requires |actions| <= |source|
  {
    if actions == [] then [] else
    var n := |actions| - 1;
    Added(source, actions[..n]) + (if actions[n].Add? then [source[n]] else [])
  }

  /** One source row's action is what the merged list shows for it. */
  ghost predicate Shown(row: Row, destination: seq<Row>, merged: seq<Row>, action: Action) {
    && action.slot < |merged|
    && match action
       case Add(slot) => |destination| <= slot && merged[slot] == row
       case Update(slot, _) => slot < |destination| && merged[slot] == row && Newer(row, destination[slot])
       case SkipOlder(slot, _) => slot < |destination| && merged[slot] == destination[slot] && !Newer(row, destination[slot])
  }

  ghost predicate Claimed(actions: seq<Action>, slot: nat) {
    exists k :: 0 <= k < |actions| && actions[k].slot == slot
  }

  /** The destination slots the actions so far have answered. */
  ghost function Taken(destination: seq<Row>, actions: seq<Action>): set<nat> {
    set i: nat | i < |destination| && Claimed(actions, i)
  }

  ghost function MatchOf(action: Action): Option<Match> {
    if action.Add? then None else Some(Match(action.slot, action.claim))
  }

  /** The k-th action is the matching rule's answer among the slots still free. */
  ghost predicate Decided(source: seq<Row>, destination: seq<Row>, actions: seq<Action>, k: nat)
    requires k < |actions| <= |source|
  {
    IsMatch(source[k], destination, Taken(destination, actions[..k]), MatchOf(actions[k]))
  }

  ghost predicate Merged(source: seq<Row>, destination: seq<Row>, merged: seq<Row>, actions: seq<Action>)
    requires |actions| <= |source|
  {
    // destination slots stay where they were; new rows follow in source order
    && |destination| <= |merged|
    && merged[|destination|..] == Added(source, actions)
    && (forall k :: 0 <= k < |actions| ==> Shown(source[k], destination, merged, actions[k]))
    && (forall k :: 0 <= k < |actions| ==> Decided(source, destination, actions, k))
    // no slot answers two source rows
    && (forall a, b :: 0 <= a < b < |actions| ==> actions[a].slot != actions[b].slot)
    // a slot nobody claimed is untouched
    && (forall i: nat | i < |destination| && !Claimed(actions, i) :: merged[i] == destination[i])
  }

  method PreviewMerge(source: seq<Row>, destination: seq<Row>)
    returns (merged: seq<Row>, actions: seq<Action>, untouched: seq<nat>)
    ensures |actions| == |source| && Merged(source, destination, merged, actions)
    ensures forall i: nat :: i in untouched <==> i < |destination| && !Claimed(actions, i)
    ensures forall a, b :: 0 <= a < b < |untouched| ==> untouched[a] < untouched[b]
  {
    merged, actions := destination, [];
    var used: set<nat> := {};
    for k := 0 to |source|
      invariant |actions| == k && Merged(source, destination, merged, actions)
      invariant forall i: nat | i < |destination| :: i in used <==> Claimed(actions, i)
      invariant forall i :: i in used ==> i < |destination|
    {
      ghost var before, had := actions, merged;
      assert used == Taken(destination, actions);
      var action;
      merged, used, action := AnswerRow(source, k, destination, merged, used, actions);
      actions := actions + [action];
      MergeStep(source, destination, had, before, merged, actions);
    }
    untouched := Untouched(|destination|, used);
  }

  /** One row: added, or matched to a slot that it replaces or loses to. */
  method AnswerRow(source: seq<Row>, k: nat, destination: seq<Row>, had: seq<Row>, used: set<nat>, ghost before: seq<Action>)
    returns (merged: seq<Row>, left: set<nat>, action: Action)
    requires k < |source| && |before| == k && Merged(source, destination, had, before) && used == Taken(destination, before)
    ensures Answers(source[k], destination, had, before, merged, action)
    ensures left == used + (if action.Add? then {} else {action.slot})
  {
    var row := source[k];
    var m := MatchDestination(row, destination, used);
    if m.None? { return had + [row], used, Add(|had|); }
    var slot := m.value.index;
    assert Free(destination, used, slot);
    var newest := PickNewest(had[slot], row);
    if !Newer(row, had[slot]) { return had, used + {slot}, SkipOlder(slot, m.value.claim); }
    return had[slot := newest], used + {slot}, Update(slot, m.value.claim);
  }

  /** The slots no row was matched to, in order. */
  method Untouched(count: nat, used: set<nat>) returns (untouched: seq<nat>)
    ensures forall i: nat :: i in untouched <==> i < count && i !in used
    ensures forall a, b :: 0 <= a < b < |untouched| ==> untouched[a] < untouched[b]
  {
    untouched := [];
    for i := 0 to count
      invariant forall j: nat :: j in untouched <==> j < i && j !in used
      invariant forall a, b :: 0 <= a < b < |untouched| ==> untouched[a] < untouched[b]
    {
      if i !in used {
        assert forall j :: 0 <= j < |untouched| ==> untouched[j] in untouched;
        untouched := untouched + [i];
      }
    }
  }

  lemma ClaimedGrows(before: seq<Action>, actions: seq<Action>, i: nat)
    requires |actions| == |before| + 1 && actions[..|before|] == before
    ensures Claimed(actions, i) <==> Claimed(before, i) || i == actions[|before|].slot
  {
    if Claimed(before, i) {
      var k :| 0 <= k < |before| && before[k].slot == i;
      assert actions[..|before|][k] == actions[k] && actions[k].slot == i;
    }
    if Claimed(actions, i) {
      var k :| 0 <= k < |actions| && actions[k].slot == i;
      if k < |before| { assert actions[..|before|][k] == actions[k]; }
    }
  }

  lemma DecidedGrows(source: seq<Row>, destination: seq<Row>, before: seq<Action>, actions: seq<Action>, k: nat)
    requires |before| < |source| && |actions| == |before| + 1 && actions[..|before|] == before
    requires k < |before| && Decided(source, destination, before, k)
    ensures Decided(source, destination, actions, k)
  {
    assert actions[..k] == before[..k];
    assert actions[..|before|][k] == actions[k];
  }

  /** The new action concerns a slot no earlier one named. */
  lemma FreshSlot(
    source: seq<Row>, destination: seq<Row>, had: seq<Row>, before: seq<Action>, last: Action, k: nat)
    requires |before| <= |source| && Merged(source, destination, had, before) && k < |before|
    requires last.Add? ==> last.slot == |had|
    requires !last.Add? ==> !Claimed(before, last.slot)
    ensures before[k].slot != last.slot
  {
    assert Shown(source[k], destination, had, before[k]);
  }

  /** What the merged list shows for an earlier action it still shows. */
  lemma ShownStays(row: Row, destination: seq<Row>, had: seq<Row>, merged: seq<Row>, action: Action, last: Action)
    requires Shown(row, destination, had, action) && action.slot != last.slot
    requires |had| <= |merged| && forall i :: 0 <= i < |had| && i != last.slot ==> merged[i] == had[i]
    ensures Shown(row, destination, merged, action)
  {
  }

  lemma AddedGrows(source: seq<Row>, before: seq<Action>, actions: seq<Action>)
    requires |before| < |source| && |actions| == |before| + 1 && actions[..|before|] == before
    ensures Added(source, actions) == Added(source, before) + (if actions[|before|].Add? then [source[|before|]] else [])
  {
  }

  lemma TailGrows(destination: seq<Row>, had: seq<Row>, merged: seq<Row>, row: Row, last: Action)
    requires |destination| <= |had|
    requires last.Add? ==> merged == had + [row]
    requires !last.Add? ==> last.slot < |destination| && |merged| == |had| && merged == had[last.slot := merged[last.slot]]
    ensures |destination| <= |merged|
    ensures merged[|destination|..] == had[|destination|..] + (if last.Add? then [row] else [])
  {
  }

  /** The action that answers one row, and what it does to the list merged so far. */
  ghost predicate Answers(row: Row, destination: seq<Row>, had: seq<Row>, before: seq<Action>, merged: seq<Row>, action: Action) {
    && Shown(row, destination, merged, action)
    && IsMatch(row, destination, Taken(destination, before), MatchOf(action))
    && (action.Add? ==> action.slot == |had| && merged == had + [row])
    && (!action.Add? ==> !Claimed(before, action.slot))
    && (action.SkipOlder? ==> merged == had)
    && (action.Update? ==> action.slot < |had| && merged == had[action.slot := row])
  }

  /** One more row of the source has been answered by one more action. */
  ghost predicate OneMore(
    source: seq<Row>, destination: seq<Row>, had: seq<Row>, before: seq<Action>, merged: seq<Row>, actions: seq<Action>)
  {
    && |before| < |source| && |actions| == |before| + 1 && actions[..|before|] == before
    && Answers(source[|before|], destination, had, before, merged, actions[|before|])
  }

  /** An earlier action is still there and concerns another slot. */
  lemma EarlierAction(
    source: seq<Row>, destination: seq<Row>, had: seq<Row>, before: seq<Action>, merged: seq<Row>, actions: seq<Action>, k: nat)
    requires OneMore(source, destination, had, before, merged, actions) && Merged(source, destination, had, before) && k < |before|
    ensures actions[k] == before[k] && actions[k].slot != actions[|before|].slot
  {
    assert actions[k] == actions[..|before|][k];
    FreshSlot(source, destination, had, before, actions[|before|], k);
  }

  lemma AllShown(
    source: seq<Row>, destination: seq<Row>, had: seq<Row>, before: seq<Action>, merged: seq<Row>, actions: seq<Action>)
    requires OneMore(source, destination, had, before, merged, actions) && Merged(source, destination, had, before)
    ensures forall k :: 0 <= k < |actions| ==> Shown(source[k], destination, merged, actions[k])
  {
    forall k | 0 <= k < |before| ensures Shown(source[k], destination, merged, actions[k]) {
      EarlierAction(source, destination, had, before, merged, actions, k);
      ShownStays(source[k], destination, had, merged, before[k], actions[|before|]);
    }
  }

  lemma AllDecided(
    source: seq<Row>, destination: seq<Row>, had: seq<Row>, before: seq<Action>, merged: seq<Row>, actions: seq<Action>)
    requires OneMore(source, destination, had, before, merged, actions) && Merged(source, destination, had, before)
    ensures forall k :: 0 <= k < |actions| ==> Decided(source, destination, actions, k)
  {
    forall k | 0 <= k < |before| ensures Decided(source, destination, actions, k) {
      DecidedGrows(source, destination, before, actions, k);
    }
  }

  lemma AllDistinct(
    source: seq<Row>, destination: seq<Row>, had: seq<Row>, before: seq<Action>, merged: seq<Row>, actions: seq<Action>)
    requires OneMore(source, destination, had, before, merged, actions) && Merged(source, destination, had, before)
    ensures forall a, b :: 0 <= a < b < |actions| ==> actions[a].slot != actions[b].slot
  {
    forall k | 0 <= k < |before| ensures actions[k] == before[k] && actions[k].slot != actions[|before|].slot {
      EarlierAction(source, destination, had, before, merged, actions, k);
    }
  }

  /** One more action keeps the merge right. */
  lemma MergeStep(
    source: seq<Row>, destination: seq<Row>, had: seq<Row>, before: seq<Action>, merged: seq<Row>, actions: seq<Action>)
    requires OneMore(source, destination, had, before, merged, actions) && Merged(source, destination, had, before)
    ensures Merged(source, destination, merged, actions)
    ensures forall i: nat :: Claimed(actions, i) <==> Claimed(before, i) || i == actions[|before|].slot
  {
    var last := actions[|before|];
    forall i: nat ensures Claimed(actions, i) <==> Claimed(before, i) || i == last.slot { ClaimedGrows(before, actions, i); }
    AllShown(source, destination, had, before, merged, actions);
    AllDecided(source, destination, had, before, merged, actions);
    AllDistinct(source, destination, had, before, merged, actions);
    AddedGrows(source, before, actions);
    TailGrows(destination, had, merged, source[|before|], last);
  }

  /** No destination slot becomes older, and every one is still there. */
  lemma NoSlotRegresses(source: seq<Row>, destination: seq<Row>, merged: seq<Row>, actions: seq<Action>, i: nat)
    requires |actions| == |source| && Merged(source, destination, merged, actions) && i < |destination|
    ensures i < |merged| && !Newer(destination[i], merged[i])
    ensures merged[i] == destination[i] || (merged[i] in source && Newer(merged[i], destination[i]))
  {
    if Claimed(actions, i) {
      var k :| 0 <= k < |actions| && actions[k].slot == i;
      assert Shown(source[k], destination, merged, actions[k]);
    }
  }

  function Rows(accounts: seq<Tracked>): seq<Row> { seq(|accounts|, i requires 0 <= i < |accounts| => accounts[i].row) }

  /** previewOcChatgptImportMerge: clean and deduplicate both sides, then merge. */
  method PreviewOcChatgptImportMerge(source: seq<Raw>, destination: seq<Raw>)
    returns (merged: seq<Row>, actions: seq<Action>, untouched: seq<nat>, skipped: seq<Skip>, destinationSkipped: seq<Skip>)
    ensures var s, d := Normalize(source), Normalize(destination);
            && skipped == s.skipped && destinationSkipped == d.skipped
            && |actions| == |s.accounts| && Merged(Rows(s.accounts), Rows(d.accounts), merged, actions)
            && forall i: nat :: i in untouched <==> i < |d.accounts| && !Claimed(actions, i)
  {
    var s := NormalizeAccountsForTarget(source);
    var d := NormalizeAccountsForTarget(destination);
    merged, actions, untouched := PreviewMerge(Rows(s.accounts), Rows(d.accounts));
    return merged, actions, untouched, s.skipped, d.skipped;
  }
}
