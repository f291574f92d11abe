/**
 * lib/oc-chatgpt-import-adapter.ts: cleaning and deduplicating account rows,
 * then merging a source list into a destination list. Display summaries are
 * replaced by row positions, so that a row can be followed through the merge.
 */
module ImportMerge {
  import opened Prelude

  /** A row as read: any field may be missing or padded. */
  datatype Raw = Raw(
    accountId: Option<string>, email: Option<string>, refreshToken: Option<string>,
    addedAt: Option<int>, lastUsed: Option<int>, extra: string)

  /** A cleaned row: texts are trimmed and non-empty where present. */
  datatype Row = Row(
    accountId: Option<string>, email: Option<string>, refreshToken: string, addedAt: int, lastUsed: int, extra: string)

  predicate IsSpace(c: char) { c == ' ' || c == '\t' || c == '\n' || c == '\r' }

  function TrimStart(s: string): string {
    if s != "" && IsSpace(s[0]) then TrimStart(s[1..]) else s
  }

  function TrimEnd(s: string): string {
    if s != "" && IsSpace(s[|s| - 1]) then TrimEnd(s[..|s| - 1]) else s
  }

  function Trim(s: string): string { TrimEnd(TrimStart(s)) }

  function LowerChar(c: char): char {
    if 'A' <= c <= 'Z' then (c as int - 'A' as int + 'a' as int) as char else c
  }

  function Lower(s: string): string { seq(|s|, i requires 0 <= i < |s| => LowerChar(s[i])) }

  function Clean(text: Option<string>): Option<string> {
    if text.None? || Trim(text.value) == "" then None else Some(Trim(text.value))
  }

  function OrZero(n: Option<int>): int { if n.Some? then n.value else 0 }

  function Sanitize(raw: Raw): Option<Row> {
    if Clean(raw.refreshToken).None? then None
    else Some(Row(Clean(raw.accountId), Clean(raw.email), Clean(raw.refreshToken).value,
                  OrZero(raw.addedAt), OrZero(raw.lastUsed), raw.extra))
  }

  function EmailKey(row: Row): Option<string> {
    if row.email.None? then None else Some(Lower(row.email.value))
  }

  /** `candidate` is newer: used later, or used at the same time and added later. */
  predicate Newer(candidate: Row, current: Row) {
    candidate.lastUsed > current.lastUsed ||
    (candidate.lastUsed == current.lastUsed && candidate.addedAt > current.addedAt)
  }

  function PickNewest(current: Row, candidate: Row): Row {
    if Newer(candidate, current) then candidate else current
  }

  // ---- Deduplication ----

  datatype Key = IdentityKey(id: string, email: string) | MailKey(email: string) | TokenKey(token: string)

  function IdentityOf(row: Row): Option<Key> {
    if row.accountId.Some? && EmailKey(row).Some? then Some(IdentityKey(row.accountId.value, EmailKey(row).value)) else None
  }

  function MailOf(row: Row): Option<Key> {
    if EmailKey(row).Some? then Some(MailKey(EmailKey(row).value)) else None
  }

  function TokenOf(row: Row): Option<Key> { Some(TokenKey(row.refreshToken)) }

  /** The class a row competes in: its identity, else its email, else its token. */
  function ClassOf(row: Row): Key {
    if IdentityOf(row).Some? then IdentityOf(row).value
    else if MailOf(row).Some? then MailOf(row).value
    else TokenKey(row.refreshToken)
  }

  /** How a pass groups rows; rows without a key are left to the next pass. */
  type Grouping = Row -> Option<Key>

  datatype Tracked = Tracked(index: nat, row: Row)

  datatype SkipReason = InvalidRefreshToken | DuplicateAccountId | DuplicateEmail | DuplicateRefreshToken

  datatype Skip = Skip(index: nat, reason: SkipReason)

  /** `kept` is in order of first insertion, as a JavaScript map iterates. */
  datatype Pass = Pass(kept: seq<Tracked>, rest: seq<Tracked>, skipped: seq<Skip>)

  function SlotOf(kept: seq<Tracked>, keyOf: Grouping, key: Key): (slot: Option<nat>)
    ensures slot.Some? ==> slot.value < |kept| && keyOf(kept[slot.value].row) == Some(key)
    ensures slot.None? ==> forall i :: 0 <= i < |kept| ==> keyOf(kept[i].row) != Some(key)
  {
    if kept == [] then None
    else if keyOf(kept[|kept| - 1].row) == Some(key) then Some(|kept| - 1)
    else SlotOf(kept[..|kept| - 1], keyOf, key)
  }

  function Absorb(p: Pass, t: Tracked, keyOf: Grouping, reason: SkipReason): Pass {
    var key := keyOf(t.row);
    if key.None? then p.(rest := p.rest + [t]) else
    match SlotOf(p.kept, keyOf, key.value)
    case None => p.(kept := p.kept + [t])
    case Some(i) =>
      if Newer(t.row, p.kept[i].row)
      then p.(kept := p.kept[i := t], skipped := p.skipped + [Skip(p.kept[i].index, reason)])
      else p.(skipped := p.skipped + [Skip(t.index, reason)])
  }

  function Fold(rows: seq<Tracked>, keyOf: Grouping, reason: SkipReason): Pass {
    if rows == [] then Pass([], [], []) else Absorb(Fold(rows[..|rows| - 1], keyOf, reason), rows[|rows| - 1], keyOf, reason)
  }

  /** One deduplicating pass, with the source's index map beside the kept rows. */
  method DedupPass(rows: seq<Tracked>, keyOf: Grouping, reason: SkipReason) returns (p: Pass)
    ensures p == Fold(rows, keyOf, reason)
  {
    var slots: map<Key, nat> := map[];
    p := Pass([], [], []);
    for n := 0 to |rows|
      invariant p == Fold(rows[..n], keyOf, reason)
      invariant forall key: Key :: (key in slots <==> SlotOf(p.kept, keyOf, key).Some?) &&
                  (key in slots ==> Some(slots[key]) == SlotOf(p.kept, keyOf, key))
    {
      var t := rows[n];
      assert rows[..n + 1][..n] == rows[..n];
      var key := keyOf(t.row);
      ghost var before := p.kept;
      if key.None? {
        p := p.(rest := p.rest + [t]);
        continue;
      }
      if key.value !in slots {
        slots := slots[key.value := |p.kept|];
        p := p.(kept := p.kept + [t]);
        assert p.kept[..|before|] == before;
        continue;
      }
      var slot := slots[key.value];
      var existing := p.kept[slot];
      if Newer(t.row, existing.row) {
        p := p.(kept := p.kept[slot := t], skipped := p.skipped + [Skip(existing.index, reason)]);
        forall k: Key ensures SlotOf(p.kept, keyOf, k) == SlotOf(before, keyOf, k) {
          SlotKept(before, p.kept, keyOf, k);
        }
      } else {
        p := p.(skipped := p.skipped + [Skip(t.index, reason)]);
      }
    }
    assert rows[..|rows|] == rows;
  }

  lemma {:induction false} SlotKept(a: seq<Tracked>, b: seq<Tracked>, keyOf: Grouping, key: Key)
    requires |a| == |b| && forall i :: 0 <= i < |a| ==> keyOf(a[i].row) == keyOf(b[i].row)
    ensures SlotOf(a, keyOf, key) == SlotOf(b, keyOf, key)
  {
    if a != [] { SlotKept(a[..|a| - 1], b[..|b| - 1], keyOf, key); }
  }

  datatype Normalized = Normalized(accounts: seq<Tracked>, skipped: seq<Skip>)

  function Valid(rows: seq<Raw>): seq<Tracked> {
    if rows == [] then [] else
    var n := |rows| - 1;
    Valid(rows[..n]) + (if Sanitize(rows[n]).Some? then [Tracked(n, Sanitize(rows[n]).value)] else [])
  }

  function Invalid(rows: seq<Raw>): seq<Skip> {
    if rows == [] then [] else
    var n := |rows| - 1;
    Invalid(rows[..n]) + (if Sanitize(rows[n]).None? then [Skip(n, InvalidRefreshToken)] else [])
  }

  function Normalize(rows: seq<Raw>): Normalized {
    var p1 := Fold(Valid(rows), IdentityOf, DuplicateAccountId);
    var p2 := Fold(p1.rest, MailOf, DuplicateEmail);
    var p3 := Fold(p2.rest, TokenOf, DuplicateRefreshToken);
    Normalized(p1.kept + p2.kept + p3.kept, Invalid(rows) + p1.skipped + p2.skipped + p3.skipped)
  }

  method NormalizeAccountsForTarget(rows: seq<Raw>) returns (r: Normalized)
    ensures r == Normalize(rows)
  {
    var valid: seq<Tracked>, skipped: seq<Skip> := [], [];
    for n := 0 to |rows|
      invariant valid == Valid(rows[..n]) && skipped == Invalid(rows[..n])
    {
      assert rows[..n + 1][..n] == rows[..n];
      var sanitized := Sanitize(rows[n]);
      if sanitized.None? {
        skipped := skipped + [Skip(n, InvalidRefreshToken)];
        continue;
      }
      valid := valid + [Tracked(n, sanitized.value)];
    }
    assert rows[..|rows|] == rows;
    var byIdentity := DedupPass(valid, IdentityOf, DuplicateAccountId);
    var byEmail := DedupPass(byIdentity.rest, MailOf, DuplicateEmail);
    var byToken := DedupPass(byEmail.rest, TokenOf, DuplicateRefreshToken);
    return Normalized(byIdentity.kept + byEmail.kept + byToken.kept,
                      skipped + byIdentity.skipped + byEmail.skipped + byToken.skipped);
  }

  // ---- Conservation: every input row survives or is skipped, once ----

  function CountRows(rows: seq<Tracked>, i: nat): nat {
    if rows == [] then 0 else CountRows(rows[..|rows| - 1], i) + (if rows[|rows| - 1].index == i then 1 else 0)
  }

  function CountSkips(skips: seq<Skip>, i: nat): nat {
    if skips == [] then 0 else CountSkips(skips[..|skips| - 1], i) + (if skips[|skips| - 1].index == i then 1 else 0)
  }

  lemma {:induction false} CountRowsConcat(a: seq<Tracked>, b: seq<Tracked>, i: nat)
    ensures CountRows(a + b, i) == CountRows(a, i) + CountRows(b, i)
  {
    if b == [] { assert a + b == a; }
    else {
      assert (a + b)[..|a + b| - 1] == a + b[..|b| - 1];
      CountRowsConcat(a, b[..|b| - 1], i);
    }
  }

  lemma {:induction false} CountSkipsConcat(a: seq<Skip>, b: seq<Skip>, i: nat)
    ensures CountSkips(a + b, i) == CountSkips(a, i) + CountSkips(b, i)
  {
    if b == [] { assert a + b == a; }
    else {
      assert (a + b)[..|a + b| - 1] == a + b[..|b| - 1];
      CountSkipsConcat(a, b[..|b| - 1], i);
    }
  }

  lemma {:induction false} CountRowsUpdate(rows: seq<Tracked>, slot: nat, t: Tracked, i: nat)
    requires slot < |rows|
    ensures CountRows(rows[slot := t], i) ==
            CountRows(rows, i) - (if rows[slot].index == i then 1 else 0) + (if t.index == i then 1 else 0)
  {
    var n := |rows| - 1;
    if slot < n {
      assert rows[slot := t][..n] == rows[..n][slot := t];
      CountRowsUpdate(rows[..n], slot, t, i);
    } else {
      assert rows[slot := t][..n] == rows[..n];
    }
  }

  function CountPass(p: Pass, i: nat): nat {
    CountRows(p.kept, i) + CountRows(p.rest, i) + CountSkips(p.skipped, i)
  }

  lemma AbsorbConserves(p: Pass, t: Tracked, keyOf: Grouping, reason: SkipReason, i: nat)
    ensures CountPass(Absorb(p, t, keyOf, reason), i) == CountPass(p, i) + (if t.index == i then 1 else 0)
  {
    var q := Absorb(p, t, keyOf, reason);
    var key := keyOf(t.row);
    if key.None? {
      CountRowsConcat(p.rest, [t], i);
    } else {
      match SlotOf(p.kept, keyOf, key.value)
      case None => CountRowsConcat(p.kept, [t], i);
      case Some(slot) =>
        CountRowsUpdate(p.kept, slot, t, i);
        CountSkipsConcat(p.skipped, q.skipped[|p.skipped|..], i);
        assert q.skipped == p.skipped + q.skipped[|p.skipped|..];
    }
  }

  lemma {:induction false} FoldConserves(rows: seq<Tracked>, keyOf: Grouping, reason: SkipReason, i: nat)
    ensures CountPass(Fold(rows, keyOf, reason), i) == CountRows(rows, i)
  {
    if rows != [] {
      FoldConserves(rows[..|rows| - 1], keyOf, reason, i);
      AbsorbConserves(Fold(rows[..|rows| - 1], keyOf, reason), rows[|rows| - 1], keyOf, reason, i);
    }
  }

  lemma {:induction false} RowsAccounted(rows: seq<Raw>, i: nat)
    ensures CountRows(Valid(rows), i) + CountSkips(Invalid(rows), i) == if i < |rows| then 1 else 0
  {
    if rows != [] {
      var n := |rows| - 1;
      RowsAccounted(rows[..n], i);
      if Sanitize(rows[n]).Some? {
        assert Invalid(rows) == Invalid(rows[..n]);
        CountRowsConcat(Valid(rows[..n]), [Tracked(n, Sanitize(rows[n]).value)], i);
      } else {
        assert Valid(rows) == Valid(rows[..n]);
        CountSkipsConcat(Invalid(rows[..n]), [Skip(n, InvalidRefreshToken)], i);
      }
    }
  }

  lemma {:induction false} TokenPassIsLast(rows: seq<Tracked>)
    ensures Fold(rows, TokenOf, DuplicateRefreshToken).rest == []
  {
    if rows != [] { TokenPassIsLast(rows[..|rows| - 1]); }
  }

  /** Each input row survives normalization or is skipped, exactly once; nothing else appears. */
  lemma NormalizeConserves(rows: seq<Raw>, i: nat)
    ensures CountRows(Normalize(rows).accounts, i) + CountSkips(Normalize(rows).skipped, i) == if i < |rows| then 1 else 0
  {
    var p1 := Fold(Valid(rows), IdentityOf, DuplicateAccountId);
    var p2 := Fold(p1.rest, MailOf, DuplicateEmail);
    var p3 := Fold(p2.rest, TokenOf, DuplicateRefreshToken);
    RowsAccounted(rows, i);
    FoldConserves(Valid(rows), IdentityOf, DuplicateAccountId, i);
    FoldConserves(p1.rest, MailOf, DuplicateEmail, i);
    FoldConserves(p2.rest, TokenOf, DuplicateRefreshToken, i);
    TokenPassIsLast(p2.rest);
    CountRowsConcat(p1.kept, p2.kept, i);
    CountRowsConcat(p1.kept + p2.kept, p3.kept, i);
    CountSkipsConcat(Invalid(rows), p1.skipped, i);
    CountSkipsConcat(Invalid(rows) + p1.skipped, p2.skipped, i);
    CountSkipsConcat(Invalid(rows) + p1.skipped + p2.skipped, p3.skipped, i);
  }

  // ---- Each survivor is the first newest row of its class ----

  /** `e` is the first of the newest among the rows of `rows` that share its key. */
  ghost predicate FirstNewest(rows: seq<Tracked>, keyOf: Grouping, e: Tracked) {
    && e in rows && keyOf(e.row).Some?
    && forall r :: r in rows && keyOf(r.row) == keyOf(e.row) ==>
         !Newer(r.row, e.row) && (r.index < e.index ==> Newer(e.row, r.row))
  }

  ghost predicate Indexed(rows: seq<Tracked>) {
    forall a, b :: 0 <= a < b < |rows| ==> rows[a].index < rows[b].index
  }

  ghost predicate Represented(kept: seq<Tracked>, keyOf: Grouping, key: Option<Key>) {
    exists i :: 0 <= i < |kept| && keyOf(kept[i].row) == key
  }

  /** Every keyed row is represented among the kept, and only by the first newest of its class. */
  ghost predicate Elected(rows: seq<Tracked>, keyOf: Grouping, kept: seq<Tracked>) {
    && (forall i :: 0 <= i < |kept| ==> FirstNewest(rows, keyOf, kept[i]))
    && (forall r :: r in rows && keyOf(r.row).Some? ==> Represented(kept, keyOf, keyOf(r.row)))
    && (forall a, b :: 0 <= a < b < |kept| ==> keyOf(kept[a].row) != keyOf(kept[b].row))
  }

  lemma ElectOne(rows: seq<Tracked>, t: Tracked, keyOf: Grouping, reason: SkipReason, p: Pass, i: nat)
    requires Elected(rows, keyOf, p.kept) && forall r :: r in rows ==> r.index < t.index
    requires i < |Absorb(p, t, keyOf, reason).kept|
    ensures FirstNewest(rows + [t], keyOf, Absorb(p, t, keyOf, reason).kept[i])
  {
    var e := Absorb(p, t, keyOf, reason).kept[i];
    if i < |p.kept| { assert FirstNewest(rows, keyOf, p.kept[i]); }
    forall r | r in rows + [t] && keyOf(r.row) == keyOf(e.row)
      ensures !Newer(r.row, e.row) && (r.index < e.index ==> Newer(e.row, r.row))
    {
      if r != t {
        assert r in rows;
        if i < |p.kept| { assert keyOf(p.kept[i].row) == keyOf(e.row) && !Newer(r.row, p.kept[i].row); }
      }
    }
  }

  lemma RepresentOne(rows: seq<Tracked>, t: Tracked, keyOf: Grouping, reason: SkipReason, p: Pass, r: Tracked)
    requires Elected(rows, keyOf, p.kept) && r in rows + [t] && keyOf(r.row).Some?
    ensures Represented(Absorb(p, t, keyOf, reason).kept, keyOf, keyOf(r.row))
  {
    var q := Absorb(p, t, keyOf, reason);
    if keyOf(r.row) == keyOf(t.row) {
      var slot := SlotOf(p.kept, keyOf, keyOf(t.row).value);
      var i := if slot.Some? then slot.value else |p.kept|;
      assert keyOf(q.kept[i].row) == keyOf(r.row);
    } else {
      var i :| 0 <= i < |p.kept| && keyOf(p.kept[i].row) == keyOf(r.row);
      assert keyOf(q.kept[i].row) == keyOf(r.row);
    }
  }

  lemma AbsorbElects(rows: seq<Tracked>, t: Tracked, keyOf: Grouping, reason: SkipReason, p: Pass)
    requires Elected(rows, keyOf, p.kept) && forall r :: r in rows ==> r.index < t.index
    ensures Elected(rows + [t], keyOf, Absorb(p, t, keyOf, reason).kept)
  {
    var kept := Absorb(p, t, keyOf, reason).kept;
    forall i: nat | i < |kept| ensures FirstNewest(rows + [t], keyOf, kept[i]) {
      ElectOne(rows, t, keyOf, reason, p, i);
    }
    forall r | r in rows + [t] && keyOf(r.row).Some? ensures Represented(kept, keyOf, keyOf(r.row)) {
      RepresentOne(rows, t, keyOf, reason, p, r);
    }
    KeysDiffer(rows, t, keyOf, reason, p);
  }

  lemma KeysDiffer(rows: seq<Tracked>, t: Tracked, keyOf: Grouping, reason: SkipReason, p: Pass)
    requires Elected(rows, keyOf, p.kept)
    ensures var kept := Absorb(p, t, keyOf, reason).kept; forall a, b :: 0 <= a < b < |kept| ==> keyOf(kept[a].row) != keyOf(kept[b].row)
  {
    var kept := Absorb(p, t, keyOf, reason).kept;
    forall a, b | 0 <= a < b < |kept| ensures keyOf(kept[a].row) != keyOf(kept[b].row) {
      assert a < |p.kept|;
      assert b < |p.kept| ==> keyOf(p.kept[a].row) != keyOf(p.kept[b].row);
      assert keyOf(kept[a].row) == keyOf(p.kept[a].row);
    }
  }

  lemma {:induction false} FoldElects(rows: seq<Tracked>, keyOf: Grouping, reason: SkipReason)
    requires Indexed(rows)
    ensures Elected(rows, keyOf, Fold(rows, keyOf, reason).kept)
  {
    if rows != [] {
      var prior, t := rows[..|rows| - 1], rows[|rows| - 1];
      assert rows == prior + [t];
      assert Indexed(prior);
      FoldElects(prior, keyOf, reason);
      forall r | r in prior ensures r.index < t.index {
        var j :| 0 <= j < |prior| && prior[j] == r;
        assert rows[j] == r;
      }
      AbsorbElects(prior, t, keyOf, reason, Fold(prior, keyOf, reason));
    }
  }

  function Unkeyed(rows: seq<Tracked>, keyOf: Grouping): seq<Tracked> {
    if rows == [] then [] else
    Unkeyed(rows[..|rows| - 1], keyOf) + (if keyOf(rows[|rows| - 1].row).None? then [rows[|rows| - 1]] else [])
  }

  lemma {:induction false} UnkeyedRows(rows: seq<Tracked>, keyOf: Grouping)
    requires Indexed(rows)
    ensures forall r :: r in Unkeyed(rows, keyOf) <==> r in rows && keyOf(r.row).None?
    ensures Indexed(Unkeyed(rows, keyOf))
  {
    if rows != [] {
      var prior, t := rows[..|rows| - 1], rows[|rows| - 1];
      UnkeyedRows(prior, keyOf);
      assert rows == prior + [t];
      forall i | 0 <= i < |Unkeyed(prior, keyOf)| ensures Unkeyed(prior, keyOf)[i].index < t.index {
        assert Unkeyed(prior, keyOf)[i] in prior;
      }
    }
  }

  /** The rows left to the next pass are those without a key, in their order. */
  lemma {:induction false} FoldRest(rows: seq<Tracked>, keyOf: Grouping, reason: SkipReason)
    ensures Fold(rows, keyOf, reason).rest == Unkeyed(rows, keyOf)
  {
    if rows != [] { FoldRest(rows[..|rows| - 1], keyOf, reason); }
  }

  /** One more raw row: the valid list grows by its cleaned form, or not at all. */
  lemma ValidGrows(rows: seq<Raw>, prior: seq<Tracked>, n: nat, cleaned: Option<Row>, all: seq<Tracked>)
    requires |rows| == n + 1 && Indexed(prior) && all == prior + (if cleaned.Some? then [Tracked(n, cleaned.value)] else [])
    requires forall t :: t in prior ==> t.index < n
    ensures Indexed(all) && forall t :: t in all <==> t in prior || (cleaned.Some? && t == Tracked(n, cleaned.value))
  {
  }

  lemma {:induction false} ValidRows(rows: seq<Raw>)
    ensures Indexed(Valid(rows))
    ensures forall t :: t in Valid(rows) ==> t.index < |rows| && Sanitize(rows[t.index]) == Some(t.row)
    ensures forall i: nat :: i < |rows| && Sanitize(rows[i]).Some? ==> Tracked(i, Sanitize(rows[i]).value) in Valid(rows)
  {
    if rows != [] {
      var n := |rows| - 1;
      ValidRows(rows[..n]);
      ValidGrows(rows, Valid(rows[..n]), n, Sanitize(rows[n]), Valid(rows));
    }
  }

  lemma SameFirst(rows: seq<Tracked>, keyOf: Grouping, a: Tracked, b: Tracked)
    requires FirstNewest(rows, keyOf, a) && FirstNewest(rows, keyOf, b) && keyOf(a.row) == keyOf(b.row)
    requires Indexed(rows)
    ensures a == b
  {
    var i :| 0 <= i < |rows| && rows[i] == a;
    var j :| 0 <= j < |rows| && rows[j] == b;
    assert !Newer(a.row, b.row) && !Newer(b.row, a.row);
    assert i == j;
  }

  /** A pass keeps exactly the first newest row of each of its classes. */
  lemma PassKeeps(rows: seq<Tracked>, keyOf: Grouping, reason: SkipReason, e: Tracked)
    requires Indexed(rows)
    ensures e in Fold(rows, keyOf, reason).kept <==> FirstNewest(rows, keyOf, e)
  {
    var p := Fold(rows, keyOf, reason);
    FoldElects(rows, keyOf, reason);
    if FirstNewest(rows, keyOf, e) {
      assert Represented(p.kept, keyOf, keyOf(e.row));
      var i :| 0 <= i < |p.kept| && keyOf(p.kept[i].row) == keyOf(e.row);
      SameFirst(rows, keyOf, p.kept[i], e);
    }
  }

  /** A survivor of normalization: the first newest valid row of its class. */
  ghost predicate Survives(rows: seq<Raw>, e: Tracked) {
    && e in Valid(rows)
    && forall r :: r in Valid(rows) && ClassOf(r.row) == ClassOf(e.row) ==>
         !Newer(r.row, e.row) && (r.index < e.index ==> Newer(e.row, r.row))
  }

  /** The survivors are exactly the first newest row of every class. */
  lemma NormalizeElects(rows: seq<Raw>, e: Tracked)
    ensures e in Normalize(rows).accounts <==> Survives(rows, e)
  {
    var valid := Valid(rows);
    var p1 := Fold(valid, IdentityOf, DuplicateAccountId);
    var p2 := Fold(p1.rest, MailOf, DuplicateEmail);
    ValidRows(rows);
    FoldRest(valid, IdentityOf, DuplicateAccountId);
    FoldRest(p1.rest, MailOf, DuplicateEmail);
    UnkeyedRows(valid, IdentityOf);
    UnkeyedRows(p1.rest, MailOf);
    PassKeeps(valid, IdentityOf, DuplicateAccountId, e);
    PassKeeps(p1.rest, MailOf, DuplicateEmail, e);
    PassKeeps(p2.rest, TokenOf, DuplicateRefreshToken, e);
    ClassByPass(valid, p1.rest, p2.rest, e);
  }

  /** Competing within the pass that keys a row is competing within its class. */
  lemma ClassByPass(valid: seq<Tracked>, unidentified: seq<Tracked>, unmailed: seq<Tracked>, e: Tracked)
    requires forall r :: r in unidentified <==> r in valid && IdentityOf(r.row).None?
    requires forall r :: r in unmailed <==> r in unidentified && MailOf(r.row).None?
    ensures (FirstNewest(valid, IdentityOf, e) || FirstNewest(unidentified, MailOf, e) || FirstNewest(unmailed, TokenOf, e))
            <==> (e in valid && forall r :: r in valid && ClassOf(r.row) == ClassOf(e.row) ==>
                    !Newer(r.row, e.row) && (r.index < e.index ==> Newer(e.row, r.row)))
  {
  }
}
