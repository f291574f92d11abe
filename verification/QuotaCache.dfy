/**
 * lib/quota-cache.ts: folding quota observations of one key, and the
 * three-way merge that applies one run's changes over the freshest cache.
 */
module QuotaCache {
  import opened Prelude

  /** `payload` stands for the fields a merge copies whole: status, model, plan and windows. */
  datatype Entry = Entry(
    updatedAt: int, primingCompleted: bool, primingFailure: Option<string>, primingObservedAt: Option<int>, payload: string)

  // ---- mergeQuotaCacheEntry ----

  predicate HasOutcome(e: Entry) { e.primingCompleted || e.primingFailure.Some? }

  /** When the priming attempt ended; None is the source's minus infinity. */
  function OutcomeTime(e: Entry): Option<int> {
    if !HasOutcome(e) then None
    else if e.primingObservedAt.Some? then e.primingObservedAt else Some(e.updatedAt)
  }

  predicate AtLeast(a: Option<int>, b: Option<int>) { b.None? || (a.Some? && a.value >= b.value) }

  predicate RelevantCompletion(e: Entry, quotaAt: int) {
    e.primingCompleted && AtLeast(OutcomeTime(e), Some(quotaAt))
  }

  function Evidence(latest: Entry, update: Entry, quotaAt: int): Entry {
    if RelevantCompletion(update, quotaAt) && RelevantCompletion(latest, quotaAt) then
      if AtLeast(OutcomeTime(update), OutcomeTime(latest)) then update else latest
    else if RelevantCompletion(update, quotaAt) then update
    else if RelevantCompletion(latest, quotaAt) then latest
    else if AtLeast(OutcomeTime(update), OutcomeTime(latest)) then update else latest
  }

  function MergeEntry(latest: Option<Entry>, update: Entry): Entry {
    if latest.None? then update else
    var l := latest.value;
    var quota := if update.updatedAt >= l.updatedAt then update else l;
    var evidence := Evidence(l, update, quota.updatedAt);
    var bare := quota.(primingCompleted := false, primingFailure := None, primingObservedAt := None);
    if !AtLeast(OutcomeTime(evidence), Some(quota.updatedAt)) then bare
    else bare.(primingCompleted := evidence.primingCompleted,
               primingFailure := if evidence.primingCompleted then None else evidence.primingFailure,
               primingObservedAt := evidence.primingObservedAt)
  }

  function Fold(observations: seq<Entry>): Entry
    requires observations != []
  {
    if |observations| == 1 then observations[0]
    else MergeEntry(Some(Fold(observations[..|observations| - 1])), observations[|observations| - 1])
  }

  /** The newest quota observation among several. */
  ghost predicate IsNewest(observations: seq<Entry>, at: int) {
    && (exists e :: e in observations && e.updatedAt == at)
    && (forall e :: e in observations ==> e.updatedAt <= at)
  }

  /** Some completion ended at `at`, and none ended later. */
  ghost predicate IsLatestCompletion(observations: seq<Entry>, at: int) {
    && (exists e :: e in observations && e.primingCompleted && OutcomeTime(e) == Some(at))
    && (forall e :: e in observations && e.primingCompleted ==> OutcomeTime(e).value <= at)
  }

  ghost predicate CompletedSince(observations: seq<Entry>, at: int) {
    exists e :: e in observations && RelevantCompletion(e, at)
  }

  lemma MergeMeaning(l: Entry, u: Entry)
    ensures var m := MergeEntry(Some(l), u);
            && m.updatedAt == Max(l.updatedAt, u.updatedAt)
            && (m.primingCompleted <==> RelevantCompletion(l, m.updatedAt) || RelevantCompletion(u, m.updatedAt))
            && (HasOutcome(m) ==> AtLeast(OutcomeTime(m), Some(m.updatedAt)))
            && (m.primingCompleted && RelevantCompletion(l, m.updatedAt) ==> AtLeast(OutcomeTime(m), OutcomeTime(l)))
            && (m.primingCompleted && RelevantCompletion(u, m.updatedAt) ==> AtLeast(OutcomeTime(m), OutcomeTime(u)))
            && (m.primingCompleted ==> (RelevantCompletion(l, m.updatedAt) && OutcomeTime(m) == OutcomeTime(l)) ||
                                       (RelevantCompletion(u, m.updatedAt) && OutcomeTime(m) == OutcomeTime(u)))
  {
  }

  /**
   * Folding two or more observations in any order keeps the newest quota time,
   * and marks priming completed exactly if a completion ended at or after it;
   * the outcome then carries the latest such time, whatever failures arrived.
   */
  lemma {:induction false} FoldMeaning(observations: seq<Entry>)
    requires |observations| >= 2
    ensures var f := Fold(observations);
            && IsNewest(observations, f.updatedAt)
            && (f.primingCompleted <==> CompletedSince(observations, f.updatedAt))
            && (f.primingCompleted ==> IsLatestCompletion(observations, OutcomeTime(f).value))
            && (HasOutcome(f) ==> AtLeast(OutcomeTime(f), Some(f.updatedAt)))
  {
    var prior, u := observations[..|observations| - 1], observations[|observations| - 1];
    var p, f := Fold(prior), Fold(observations);
    assert observations == prior + [u];
    MergeMeaning(p, u);
    if |prior| == 1 {
      assert prior == [p];
    } else {
      FoldMeaning(prior);
    }
    assert IsNewest(prior, p.updatedAt);
    FoldNewest(prior, u, p.updatedAt, f.updatedAt);
    FoldCompletion(prior, u, p, f);
  }

  lemma FoldNewest(prior: seq<Entry>, u: Entry, before: int, after: int)
    requires IsNewest(prior, before) && after == Max(before, u.updatedAt)
    ensures IsNewest(prior + [u], after)
  {
    var w :| w in prior && w.updatedAt == before;
    assert w in prior + [u] && u in prior + [u];
  }

  /** One more observation: the summary `p` of `prior` answers for all of `prior`. */
  lemma FoldCompletion(prior: seq<Entry>, u: Entry, p: Entry, f: Entry)
    requires f == MergeEntry(Some(p), u) && IsNewest(prior, p.updatedAt)
    requires prior == [p] ||
             (&& (p.primingCompleted <==> CompletedSince(prior, p.updatedAt))
              && (p.primingCompleted ==> IsLatestCompletion(prior, OutcomeTime(p).value)))
    ensures f.primingCompleted <==> CompletedSince(prior + [u], f.updatedAt)
    ensures f.primingCompleted ==> IsLatestCompletion(prior + [u], OutcomeTime(f).value)
  {
    var all := prior + [u];
    MergeMeaning(p, u);
    assert u in all;
    if RelevantCompletion(p, f.updatedAt) {
      var w :| w in prior && w.primingCompleted && OutcomeTime(w) == OutcomeTime(p);
      assert w in all && RelevantCompletion(w, f.updatedAt);
    }
    forall e | e in all && RelevantCompletion(e, f.updatedAt)
      ensures f.primingCompleted && AtLeast(OutcomeTime(f), OutcomeTime(e))
    {
      if e in prior { assert RelevantCompletion(e, p.updatedAt); }
    }
    if f.primingCompleted {
      forall e | e in all && e.primingCompleted ensures OutcomeTime(e).value <= OutcomeTime(f).value {
        if !RelevantCompletion(e, f.updatedAt) { assert OutcomeTime(e).value < f.updatedAt; }
      }
    }
  }

  lemma SameNewest(a: seq<Entry>, b: seq<Entry>, x: int, y: int)
    requires forall e :: e in a <==> e in b
    requires IsNewest(a, x) && IsNewest(b, y)
    ensures x == y
  {
    var e :| e in a && e.updatedAt == x;
    var f :| f in b && f.updatedAt == y;
    assert e in b && f in a;
  }

  lemma SameLatest(a: seq<Entry>, b: seq<Entry>, x: int, y: int)
    requires forall e :: e in a <==> e in b
    requires IsLatestCompletion(a, x) && IsLatestCompletion(b, y)
    ensures x == y
  {
    var e :| e in a && e.primingCompleted && OutcomeTime(e).value == x;
    var f :| f in b && f.primingCompleted && OutcomeTime(f).value == y;
    assert e in b && f in a;
  }

  lemma SameCompletion(a: seq<Entry>, b: seq<Entry>, since: int)
    requires forall e :: e in a <==> e in b
    ensures CompletedSince(a, since) <==> CompletedSince(b, since)
  {
  }

  /** The order of the observations does not matter to what a fold reports about time and completion. */
  lemma FoldOrderFree(a: seq<Entry>, b: seq<Entry>)
    requires |a| >= 2 && |b| >= 2 && forall e :: e in a <==> e in b
    ensures Fold(a).updatedAt == Fold(b).updatedAt
    ensures Fold(a).primingCompleted == Fold(b).primingCompleted
    ensures Fold(a).primingCompleted ==> OutcomeTime(Fold(a)) == OutcomeTime(Fold(b))
  {
    FoldMeaning(a);
    FoldMeaning(b);
    SameNewest(a, b, Fold(a).updatedAt, Fold(b).updatedAt);
    SameCompletion(a, b, Fold(a).updatedAt);
    if Fold(a).primingCompleted { SameLatest(a, b, OutcomeTime(Fold(a)).value, OutcomeTime(Fold(b)).value); }
  }

  // ---- Failures ----

  predicate IsFailure(e: Entry) { !e.primingCompleted && e.primingFailure.Some? }

  /** A failure that ended at or after `at`. */
  predicate LateFailure(e: Entry, at: int) { IsFailure(e) && AtLeast(OutcomeTime(e), Some(at)) }

  predicate HasLate(observations: seq<Entry>, at: int) { exists e :: e in observations && LateFailure(e, at) }

  /** One merge: a failure it reports is one of the two it was given, and not retired. */
  lemma MergeFailure(l: Entry, u: Entry)
    ensures var m := MergeEntry(Some(l), u);
            && (m.primingFailure.Some? ==> IsFailure(m) && AtLeast(OutcomeTime(m), Some(m.updatedAt)))
            && (m.primingFailure.Some? ==> exists e :: e in [l, u] && IsFailure(e) && OutcomeTime(e) == OutcomeTime(m)
                                                       && e.primingFailure == m.primingFailure)
  {
    var m := MergeEntry(Some(l), u);
    if m.primingFailure.Some? {
      var e := Evidence(l, u, m.updatedAt);
      assert e in [l, u];
    }
  }

  /** A reported failure is one of the observed ones, and late. */
  lemma {:induction false} FailureIsObserved(observations: seq<Entry>)
    requires |observations| >= 2 && Fold(observations).primingFailure.Some?
    ensures var f := Fold(observations);
            && LateFailure(f, f.updatedAt)
            && exists e :: e in observations && IsFailure(e) && OutcomeTime(e) == OutcomeTime(f) && e.primingFailure == f.primingFailure
  {
    var prior, u := observations[..|observations| - 1], observations[|observations| - 1];
    var p, f := Fold(prior), Fold(observations);
    assert observations == prior + [u];
    MergeFailure(p, u);
    var e :| e in [p, u] && IsFailure(e) && OutcomeTime(e) == OutcomeTime(f) && e.primingFailure == f.primingFailure;
    if e == u {
      assert u in observations;
    } else if |prior| == 1 {
      assert prior == [p] && p in observations;
    } else {
      FailureIsObserved(prior);
      var o :| o in prior && IsFailure(o) && OutcomeTime(o) == OutcomeTime(p) && o.primingFailure == p.primingFailure;
      assert o in observations;
    }
  }

  /**
   * A completion can displace every late failure: it ended before `at`, but no
   * earlier than its own quota reading and those of the late failures.
   */
  predicate Displaces(observations: seq<Entry>, at: int, c: Entry) {
    && c.primingCompleted && c.updatedAt <= OutcomeTime(c).value < at
    && forall e :: e in observations && LateFailure(e, at) ==> e.updatedAt <= OutcomeTime(c).value
  }

  predicate Displaceable(observations: seq<Entry>, at: int) { exists c :: c in observations && Displaces(observations, at, c) }

  /** What a completed prefix says: a completion in it no earlier than any quota reading in it. */
  lemma CompletedPrefix(prefix: seq<Entry>) returns (c: Entry)
    requires prefix != [] && Fold(prefix).primingCompleted
    ensures c in prefix && c.primingCompleted && OutcomeTime(c) == OutcomeTime(Fold(prefix))
    ensures |prefix| >= 2 ==> forall e :: e in prefix ==> e.updatedAt <= OutcomeTime(c).value
    ensures |prefix| == 1 ==> prefix == [c]
  {
    if |prefix| == 1 {
      c := prefix[0];
    } else {
      FoldMeaning(prefix);
      c :| c in prefix && c.primingCompleted && OutcomeTime(c) == Some(OutcomeTime(Fold(prefix)).value);
    }
  }

  /** The newest reading of a prefix of one or more. */
  lemma PrefixNewest(prefix: seq<Entry>)
    requires prefix != []
    ensures forall e :: e in prefix ==> e.updatedAt <= Fold(prefix).updatedAt
    ensures exists e :: e in prefix && e.updatedAt == Fold(prefix).updatedAt
  {
    if |prefix| == 1 { assert prefix[0] in prefix; } else { FoldMeaning(prefix); }
  }

  /** All late failures of `all` are in the prefix. */
  ghost predicate HoldsLate(prefix: seq<Entry>, all: seq<Entry>, at: int) {
    forall e :: e in all && LateFailure(e, at) ==> e in prefix
  }

  /** Merging cannot complete over the last late failure unless some completion displaces them all. */
  lemma NotCompletedOver(all: seq<Entry>, at: int, prefix: seq<Entry>, u: Entry)
    requires prefix != [] && (forall e :: e in prefix + [u] ==> e in all) && HoldsLate(prefix + [u], all, at)
    requires !CompletedSince(all, at) && !Displaceable(all, at)
    requires HasLate(all, at)
    requires IsFailure(u) || LateFailure(Fold(prefix), at)
    ensures !MergeEntry(Some(Fold(prefix)), u).primingCompleted
  {
    var p := Fold(prefix);
    var m := MergeEntry(Some(p), u);
    PrefixNewest(prefix);
    MergeMeaning(p, u);
    if m.primingCompleted {
      var c := u;
      if !RelevantCompletion(u, m.updatedAt) {
        c := CompletedPrefix(prefix);
      }
      assert c in prefix + [u];
      assert c in all && c.primingCompleted && OutcomeTime(c).value >= m.updatedAt;
      assert !RelevantCompletion(c, at);
      forall e | e in all && LateFailure(e, at) ensures e.updatedAt <= OutcomeTime(c).value {
        assert e in prefix + [u];
        assert e in prefix || e == u;
      }
      assert c.updatedAt <= m.updatedAt by { assert c in prefix || c == u; }
      assert Displaces(all, at, c);
      assert false;
    }
  }

  /** Without a completion that can displace them, a prefix that holds all late failures reports one. */
  lemma {:induction false} LateIsReported(all: seq<Entry>, at: int, prefix: seq<Entry>)
    requires prefix != [] && (forall e :: e in prefix ==> e in all) && HoldsLate(prefix, all, at)
    requires IsNewest(all, at) && HasLate(all, at) && !CompletedSince(all, at) && !Displaceable(all, at)
    ensures LateFailure(Fold(prefix), at)
  {
    if |prefix| == 1 {
      var e :| e in all && LateFailure(e, at);
      assert e in prefix;
    } else {
      var prior, u := prefix[..|prefix| - 1], prefix[|prefix| - 1];
      assert prefix == prior + [u];
      var p := Fold(prior);
      if HoldsLate(prior, all, at) {
        LateIsReported(all, at, prior);
      } else {
        var e :| e in all && LateFailure(e, at) && e !in prior;
        assert e == u;
      }
      NotCompletedOver(all, at, prior, u);
      OutcomesBefore(all, at, prior, u);
      LaterFailureStays(p, u, at);
    }
  }

  /** Completions seen so far all ended before `at`. */
  lemma OutcomesBefore(all: seq<Entry>, at: int, prior: seq<Entry>, u: Entry)
    requires prior != [] && (forall e :: e in prior + [u] ==> e in all) && IsNewest(all, at) && !CompletedSince(all, at)
    ensures u.primingCompleted ==> OutcomeTime(u).value < at
    ensures Fold(prior).primingCompleted ==> OutcomeTime(Fold(prior)).value < at
    ensures Fold(prior).updatedAt <= at && u.updatedAt <= at
  {
    assert u in prior + [u] && !RelevantCompletion(u, at);
    if Fold(prior).primingCompleted {
      var c := CompletedPrefix(prior);
      assert c in prior + [u] && !RelevantCompletion(c, at);
    }
    PrefixNewest(prior);
    var e :| e in prior && e.updatedAt == Fold(prior).updatedAt;
    assert e in prior + [u];
  }

  lemma LaterFailureStays(p: Entry, u: Entry, at: int)
    requires LateFailure(p, at) || LateFailure(u, at)
    requires (p.primingCompleted ==> OutcomeTime(p).value < at) && (u.primingCompleted ==> OutcomeTime(u).value < at)
    requires p.updatedAt <= at && u.updatedAt <= at && !MergeEntry(Some(p), u).primingCompleted
    ensures LateFailure(MergeEntry(Some(p), u), at)
  {
  }

  // ---- Orders of the same observations ----

  ghost predicate SameObservations(a: seq<Entry>, b: seq<Entry>) { multiset(a) == multiset(b) }

  lemma SameElements(a: seq<Entry>, b: seq<Entry>)
    requires SameObservations(a, b)
    ensures |a| == |b| && forall e :: e in a <==> e in b
  {
    assert |multiset(a)| == |multiset(b)|;
    forall e ensures e in a <==> e in b { assert e in multiset(a) <==> e in multiset(b); }
  }

  function Late(observations: seq<Entry>, at: int): (r: seq<Entry>)
    ensures forall e :: e in r <==> e in observations && LateFailure(e, at)
  {
    if observations == [] then []
    else
      var n := |observations| - 1;
      if LateFailure(observations[n], at) then Late(observations[..n], at) + [observations[n]] else Late(observations[..n], at)
  }

  function Others(observations: seq<Entry>, at: int): (r: seq<Entry>)
    ensures forall e :: e in r <==> e in observations && !LateFailure(e, at)
  {
    if observations == [] then []
    else
      var n := |observations| - 1;
      if LateFailure(observations[n], at) then Others(observations[..n], at) else Others(observations[..n], at) + [observations[n]]
  }

  lemma {:induction false} SplitByLate(observations: seq<Entry>, at: int)
    ensures Splits(Late(observations, at), Others(observations, at), observations)
  {
    if observations != [] {
      var n := |observations| - 1;
      SplitByLate(observations[..n], at);
      assert observations == observations[..n] + [observations[n]];
      PutBack(Late(observations[..n], at), Others(observations[..n], at), observations[..n], observations[n]);
    }
  }

  ghost predicate Splits<T>(left: seq<T>, right: seq<T>, all: seq<T>) { multiset(left) + multiset(right) == multiset(all) }

  lemma PutBack<T>(left: seq<T>, right: seq<T>, all: seq<T>, e: T)
    requires Splits(left, right, all)
    ensures Splits(left + [e], right, all + [e]) && Splits(left, right + [e], all + [e])
  {
  }

  /** With a late failure placed last, it is reported. */
  lemma ReportingOrder(a: seq<Entry>, at: int) returns (b: seq<Entry>)
    requires |a| >= 2 && IsNewest(a, at) && HasLate(a, at) && !CompletedSince(a, at)
    ensures SameObservations(a, b) && |b| >= 2 && Fold(b).primingFailure.Some?
  {
    var i :| 0 <= i < |a| && LateFailure(a[i], at);
    var prior, u := a[..i] + a[i + 1..], a[i];
    b := prior + [u];
    assert a == a[..i] + [u] + a[i + 1..];
    assert multiset(b) == multiset(a);
    SameElements(a, b);
    assert b[..|b| - 1] == prior;
    OutcomesBefore(a, at, prior, u);
    var p := Fold(prior);
    PrefixNewest(prior);
    NewestOfAll(a, at, prior, u);
    MergeMeaning(p, u);
    LaterFailureStays(p, u, at);
  }

  lemma NewestOfAll(a: seq<Entry>, at: int, prior: seq<Entry>, u: Entry)
    requires prior != [] && IsNewest(a, at) && forall e :: e in a <==> e in prior + [u]
    ensures Max(Fold(prior).updatedAt, u.updatedAt) == at
  {
    PrefixNewest(prior);
    var e :| e in a && e.updatedAt == at;
    assert e in prior + [u];
    var o :| o in prior && o.updatedAt == Fold(prior).updatedAt;
    assert o in prior + [u] && u in prior + [u];
  }

  lemma NoLateFromMerge(p: Entry, u: Entry, at: int)
    requires !LateFailure(p, at) && !LateFailure(u, at)
    ensures !LateFailure(MergeEntry(Some(p), u), at)
  {
    MergeFailure(p, u);
  }

  /** Once no late failure is left, none comes back without a new one. */
  lemma {:induction false} StaysLost(head: seq<Entry>, rest: seq<Entry>, at: int)
    requires head != [] && !LateFailure(Fold(head), at) && forall e :: e in rest ==> !LateFailure(e, at)
    ensures !LateFailure(Fold(head + rest), at)
  {
    if rest == [] {
      assert head + rest == head;
    } else {
      var n := |rest| - 1;
      StaysLost(head, rest[..n], at);
      assert head + rest == (head + rest[..n]) + [rest[n]];
      assert (head + rest)[..|head + rest| - 1] == head + rest[..n];
      NoLateFromMerge(Fold(head + rest[..n]), rest[n], at);
    }
  }

  /** Taking one observation to the front and splitting the others is a rearrangement. */
  lemma Rearranged(a: seq<Entry>, i: nat, late: seq<Entry>, others: seq<Entry>)
    requires i < |a| && multiset(late) + multiset(others) == multiset(a[..i] + a[i + 1..])
    ensures SameObservations(a, [a[i]] + late + others)
  {
    assert a == a[..i] + [a[i]] + a[i + 1..];
    assert multiset(a) == multiset([a[i]]) + multiset(a[..i] + a[i + 1..]);
  }

  /** The order that puts a displacing completion first and the late failures next. */
  lemma CompletionFirst(a: seq<Entry>, at: int, i: nat) returns (head: seq<Entry>, rest: seq<Entry>)
    requires i < |a| && HasLate(a, at) && Displaces(a, at, a[i])
    ensures SameObservations(a, head + rest) && |head| >= 2 && a[i] in head
    ensures forall e :: e in head ==> e.updatedAt <= OutcomeTime(a[i]).value
    ensures forall e :: e in rest ==> !LateFailure(e, at)
  {
    var without := a[..i] + a[i + 1..];
    var late := Late(without, at);
    rest := Others(without, at);
    SplitByLate(without, at);
    Rearranged(a, i, late, rest);
    LateSurvivesRemoval(a, i, at);
    head := [a[i]] + late;
    HeadOf(a[i], late, head);
  }

  lemma HeadOf(c: Entry, late: seq<Entry>, head: seq<Entry>)
    requires head == [c] + late
    ensures c in head && forall e :: e in head <==> e == c || e in late
  {
    assert head[0] == c;
  }

  /** In that order no failure is reported. */
  lemma LosingOrder(a: seq<Entry>, at: int) returns (b: seq<Entry>)
    requires |a| >= 2 && IsNewest(a, at) && HasLate(a, at) && Displaceable(a, at)
    ensures SameObservations(a, b) && |b| >= 2 && Fold(b).primingFailure.None?
  {
    var c :| c in a && Displaces(a, at, c);
    var i :| 0 <= i < |a| && a[i] == c;
    var head, rest := CompletionFirst(a, at, i);
    b := head + rest;
    SameElements(a, b);
    FoldMeaning(head);
    assert RelevantCompletion(c, Fold(head).updatedAt);
    StaysLost(head, rest, at);
    FoldMeaning(b);
    SameNewest(a, b, at, Fold(b).updatedAt);
    if Fold(b).primingFailure.Some? { FailureIsObserved(b); }
  }

  lemma LateSurvivesRemoval(a: seq<Entry>, i: nat, at: int)
    requires i < |a| && !LateFailure(a[i], at) && HasLate(a, at)
    ensures HasLate(a[..i] + a[i + 1..], at) && Late(a[..i] + a[i + 1..], at) != []
    ensures forall e :: e in a[..i] + a[i + 1..] ==> e in a
  {
    var without := a[..i] + a[i + 1..];
    var j :| 0 <= j < |a| && LateFailure(a[j], at);
    assert without[if j < i then j else j - 1] == a[j];
    assert a[j] in without;
  }

  /** Every order of the observations reports a failure, or every order reports none. */
  ghost predicate FailureOrderFree(a: seq<Entry>) {
    forall b, c :: b != [] && c != [] && SameObservations(a, b) && SameObservations(a, c) ==> (Fold(b).primingFailure.Some? <==> Fold(c).primingFailure.Some?)
  }

  /** Whether a given order reports a failure, wherever that is decided by the observations alone. */
  lemma FailureVerdict(a: seq<Entry>, at: int)
    requires |a| >= 2 && IsNewest(a, at)
    ensures CompletedSince(a, at) || !HasLate(a, at) ==> Fold(a).primingFailure.None?
    ensures !CompletedSince(a, at) && HasLate(a, at) && !Displaceable(a, at) ==> Fold(a).primingFailure.Some?
  {
    FoldMeaning(a);
    SameNewest(a, a, at, Fold(a).updatedAt);
    if Fold(a).primingFailure.Some? {
      FailureIsObserved(a);
      var e :| e in a && IsFailure(e) && OutcomeTime(e) == OutcomeTime(Fold(a));
      assert LateFailure(e, at);
    }
    if !CompletedSince(a, at) && HasLate(a, at) && !Displaceable(a, at) { LateIsReported(a, at, a); }
  }

  lemma SameVerdict(a: seq<Entry>, b: seq<Entry>, at: int)
    requires SameObservations(a, b) && IsNewest(a, at)
    ensures |a| == |b| && IsNewest(b, at) && (CompletedSince(a, at) <==> CompletedSince(b, at))
    ensures (HasLate(a, at) <==> HasLate(b, at)) && (Displaceable(a, at) <==> Displaceable(b, at))
  {
    SameElements(a, b);
    forall c ensures Displaces(a, at, c) <==> Displaces(b, at, c) {
    }
  }

  /**
   * The exact condition: whether a failure is reported does not depend on the
   * order of the observations if and only if a completion ended at or after the
   * newest quota time, or no failure did, or no earlier completion can displace
   * all the failures that did.
   */
  lemma FailureOrderCondition(a: seq<Entry>, at: int)
    requires |a| >= 2 && IsNewest(a, at)
    ensures FailureOrderFree(a) <==> CompletedSince(a, at) || !HasLate(a, at) || !Displaceable(a, at)
  {
    if CompletedSince(a, at) || !HasLate(a, at) || !Displaceable(a, at) {
      forall b, c | b != [] && c != [] && SameObservations(a, b) && SameObservations(a, c) ensures Fold(b).primingFailure.Some? <==> Fold(c).primingFailure.Some? {
        SameVerdict(a, b, at);
        SameVerdict(a, c, at);
        FailureVerdict(b, at);
        FailureVerdict(c, at);
      }
    } else {
      var b := ReportingOrder(a, at);
      var c := LosingOrder(a, at);
      assert SameObservations(a, b) && SameObservations(a, c);
    }
  }

  // ---- Which failure is reported when nothing was completed ----

  ghost predicate NoneCompleted(observations: seq<Entry>) { forall e :: e in observations ==> !e.primingCompleted }

  lemma LaterOfTwo(p: Entry, u: Entry, e: Entry)
    requires !p.primingCompleted && !u.primingCompleted && LateFailure(e, Max(p.updatedAt, u.updatedAt))
    requires e == u || (IsFailure(p) && AtLeast(OutcomeTime(p), OutcomeTime(e)))
    ensures var m := MergeEntry(Some(p), u); IsFailure(m) && AtLeast(OutcomeTime(m), OutcomeTime(e))
  {
  }

  /** Without completions the fold reports a failure no earlier than any late one. */
  lemma {:induction false} LatestFailure(prefix: seq<Entry>)
    requires prefix != [] && NoneCompleted(prefix)
    ensures !Fold(prefix).primingCompleted
    ensures forall e :: e in prefix && LateFailure(e, Fold(prefix).updatedAt) ==>
              IsFailure(Fold(prefix)) && AtLeast(OutcomeTime(Fold(prefix)), OutcomeTime(e))
  {
    if |prefix| == 1 {
      assert prefix[0] in prefix;
    } else {
      var prior, u := prefix[..|prefix| - 1], prefix[|prefix| - 1];
      assert prefix == prior + [u] && u in prefix;
      assert NoneCompleted(prior) by { assert forall e :: e in prior ==> e in prefix; }
      LatestFailure(prior);
      var p, f := Fold(prior), Fold(prefix);
      forall e | e in prefix && LateFailure(e, f.updatedAt) ensures IsFailure(f) && AtLeast(OutcomeTime(f), OutcomeTime(e)) {
        assert e in prior || e == u;
        LaterOfTwo(p, u, e);
      }
    }
  }

  /** Late failures that ended last carry the same text. */
  ghost predicate TiesAgree(observations: seq<Entry>) {
    forall d, e :: d in observations && e in observations && IsFailure(d) && IsFailure(e) && OutcomeTime(d) == OutcomeTime(e) ==>
      d.primingFailure == e.primingFailure
  }

  /** The failure one fold reports is the one any fold of the same observations reports. */
  lemma TextCarries(a: seq<Entry>, b: seq<Entry>)
    requires |a| >= 2 && |b| >= 2 && (forall e :: e in a <==> e in b) && NoneCompleted(a) && TiesAgree(a)
    requires Fold(a).updatedAt == Fold(b).updatedAt && Fold(a).primingFailure.Some?
    ensures Fold(b).primingFailure == Fold(a).primingFailure
  {
    FailureIsObserved(a);
    LatestFailure(a);
    LatestFailure(b);
    var d :| d in a && IsFailure(d) && OutcomeTime(d) == OutcomeTime(Fold(a)) && d.primingFailure == Fold(a).primingFailure;
    assert d in b && LateFailure(d, Fold(b).updatedAt);
    FailureIsObserved(b);
    var e :| e in b && IsFailure(e) && OutcomeTime(e) == OutcomeTime(Fold(b)) && e.primingFailure == Fold(b).primingFailure;
    assert e in a && LateFailure(e, Fold(a).updatedAt);
  }

  /** Without completions, and where ties agree, the reported text does not depend on the order either. */
  lemma FailureTextOrderFree(a: seq<Entry>, b: seq<Entry>)
    requires |a| >= 2 && SameObservations(a, b) && NoneCompleted(a) && TiesAgree(a)
    ensures b != [] && Fold(a).primingFailure == Fold(b).primingFailure
  {
    SameElements(a, b);
    FoldOrderFree(a, b);
    if Fold(a).primingFailure.Some? {
      TextCarries(a, b);
    } else if Fold(b).primingFailure.Some? {
      TextCarries(b, a);
    }
  }

  // ---- mergeQuotaChanges ----

  type Entries = map<string, Entry>

  datatype Cache = Cache(byAccountId: Entries, byEmail: Entries, byWorkspace: Entries)

  /** An unraced write whose clock went back is stamped just after the entry it replaces. */
  function Restamped(before: Option<Entry>, latest: Option<Entry>, update: Entry): Entry {
    if latest.Some? && update.updatedAt < latest.value.updatedAt && latest == before
    then update.(updatedAt := latest.value.updatedAt + 1) else update
  }

  function MergedAt(before: Option<Entry>, next: Option<Entry>, latest: Option<Entry>): Option<Entry> {
    if before == next then latest
    else if next.Some? then Some(MergeEntry(latest, Restamped(before, latest, next.value)))
    else if latest == before then None
    else latest
  }

  /** The proposed entries are changed in place too: a retry sees the stamps of the attempt before it. */
  function ProposedAfter(before: Option<Entry>, next: Option<Entry>, latest: Option<Entry>): Option<Entry> {
    if before == next || next.None? then next else Some(Restamped(before, latest, next.value))
  }

  ghost predicate MergedNamespace(
    merged: Entries, restamped: Entries, current: Entries, proposed: Entries, baseline: Entries)
  {
    forall key: string :: KeyMerged(merged, restamped, current, proposed, baseline, key)
  }

  ghost predicate KeyMerged(
    merged: Entries, restamped: Entries, current: Entries, proposed: Entries, baseline: Entries, key: string)
  {
    && At(merged, key) == MergedAt(At(baseline, key), At(proposed, key), At(current, key))
    && At(restamped, key) == ProposedAfter(At(baseline, key), At(proposed, key), At(current, key))
  }

  /** One key of the loop: the entry to leave in the cache, and the proposal as it stands afterwards. */
  method MergeKey(before: Option<Entry>, next: Option<Entry>, latest: Option<Entry>)
    returns (kept: Option<Entry>, proposal: Option<Entry>)
    ensures kept == MergedAt(before, next, latest) && proposal == ProposedAfter(before, next, latest)
  {
    kept, proposal := latest, next;
    if before == next { return; }
    if next.Some? {
      var update := next.value;
      if latest.Some? && update.updatedAt < latest.value.updatedAt && latest == before {
        update := update.(updatedAt := latest.value.updatedAt + 1);
      }
      proposal := Some(update);
      kept := Some(MergeEntry(latest, update));
    } else if latest == before {
      kept := None;
    }
  }

  function Put(m: Entries, key: string, entry: Option<Entry>): (r: Entries)
    ensures forall k: string :: At(r, k) == if k == key then entry else At(m, k)
  {
    if entry.Some? then m[key := entry.value] else m - {key}
  }

  method MergeNamespace(current: Entries, proposed: Entries, baseline: Entries)
    returns (merged: Entries, restamped: Entries)
    ensures MergedNamespace(merged, restamped, current, proposed, baseline)
  {
    merged, restamped := current, proposed;
    var todo := baseline.Keys + proposed.Keys;
    while todo != {}
      invariant forall key: string | key in todo :: At(merged, key) == At(current, key) && At(restamped, key) == At(proposed, key)
      invariant forall key: string | key !in todo :: KeyMerged(merged, restamped, current, proposed, baseline, key)
      decreases |todo|
    {
      var key :| key in todo;
      todo := todo - {key};
      var kept, proposal := MergeKey(At(baseline, key), At(restamped, key), At(merged, key));
      ghost var m, r := merged, restamped;
      merged, restamped := Put(merged, key, kept), Put(restamped, key, proposal);
      forall k: string | k !in todo ensures KeyMerged(merged, restamped, current, proposed, baseline, k) {
        if k != key { assert KeyMerged(m, r, current, proposed, baseline, k); }
      }
    }
  }

  method MergeQuotaChanges(current: Cache, proposed: Cache, baseline: Cache) returns (merged: Cache, restamped: Cache)
    ensures MergedNamespace(merged.byAccountId, restamped.byAccountId, current.byAccountId, proposed.byAccountId, baseline.byAccountId)
    ensures MergedNamespace(merged.byEmail, restamped.byEmail, current.byEmail, proposed.byEmail, baseline.byEmail)
    ensures MergedNamespace(merged.byWorkspace, restamped.byWorkspace, current.byWorkspace, proposed.byWorkspace, baseline.byWorkspace)
  {
    var a, a' := MergeNamespace(current.byAccountId, proposed.byAccountId, baseline.byAccountId);
    var e, e' := MergeNamespace(current.byEmail, proposed.byEmail, baseline.byEmail);
    var w, w' := MergeNamespace(current.byWorkspace, proposed.byWorkspace, baseline.byWorkspace);
    return Cache(a, e, w), Cache(a', e', w');
  }

  /**
   * Keys the caller left alone keep the disk's value; a key disappears only if
   * the caller deleted it and nobody raced; every surviving key is at least as
   * recent as before; and an update that was kept carries the newer quota time.
   */
  lemma MergePreserves(merged: Entries, restamped: Entries, current: Entries, proposed: Entries, baseline: Entries, key: string)
    requires MergedNamespace(merged, restamped, current, proposed, baseline)
    ensures At(baseline, key) == At(proposed, key) ==> At(merged, key) == At(current, key)
    ensures key in current && key !in merged <==>
              key in current && key in baseline && key !in proposed && current[key] == baseline[key]
    ensures key in current && key in merged ==> merged[key].updatedAt >= current[key].updatedAt
    ensures key in proposed && At(baseline, key) != At(proposed, key) ==>
              key in merged && merged[key].updatedAt >= proposed[key].updatedAt
  {
    assert KeyMerged(merged, restamped, current, proposed, baseline, key);
    if key in proposed && key in current {
      MergeMeaning(current[key], Restamped(At(baseline, key), At(current, key), proposed[key]));
    }
  }

  // ---- Retries ----

  /** The guard of the restamp: an unraced write whose clock went back. */
  predicate Restamps(before: Option<Entry>, next: Option<Entry>, first: Option<Entry>) {
    before != next && next.Some? && first.Some? && first == before && next.value.updatedAt < first.value.updatedAt
  }

  ghost predicate SameOutcome(before: Option<Entry>, retried: Option<Entry>, next: Option<Entry>, latest: Option<Entry>) {
    MergedAt(before, retried, latest) == MergedAt(before, next, latest)
  }

  /**
   * The exact condition for one key: a retry after a lost attempt merges like a
   * first attempt, whatever it finds, if and only if the lost attempt did not
   * restamp the proposal.
   */
  lemma RetryCondition(before: Option<Entry>, next: Option<Entry>, first: Option<Entry>)
    ensures (forall latest :: SameOutcome(before, ProposedAfter(before, next, first), next, latest)) <==> !Restamps(before, next, first)
  {
    if Restamps(before, next, first) { assert !SameOutcome(before, ProposedAfter(before, next, first), next, None); }
  }

  /**
   * What goes wrong under that guard: the stamp of the lost attempt outlives it,
   * so the retry keeps the older observation over any racing one up to that
   * stamp, which a first attempt would have kept.
   */
  lemma RetryOverrides(before: Option<Entry>, next: Option<Entry>, first: Option<Entry>, raced: Entry)
    requires Restamps(before, next, first) && Some(raced) != before
    requires next.value.updatedAt < raced.updatedAt <= first.value.updatedAt + 1
    ensures MergedAt(before, next, Some(raced)).value.payload == raced.payload
    ensures MergedAt(before, ProposedAfter(before, next, first), Some(raced)).value.payload == next.value.payload
  {
  }

  /** One attempt's merge and the proposal it leaves, as maps. */
  ghost function MergedOf(current: Entries, proposed: Entries, baseline: Entries): (m: Entries)
    ensures forall key: string :: At(m, key) == MergedAt(At(baseline, key), At(proposed, key), At(current, key))
  {
    map key: string | key in current.Keys + proposed.Keys && MergedAt(At(baseline, key), At(proposed, key), At(current, key)).Some?
      :: MergedAt(At(baseline, key), At(proposed, key), At(current, key)).value
  }

  ghost function ProposedOf(current: Entries, proposed: Entries, baseline: Entries): (m: Entries)
    ensures forall key: string :: At(m, key) == ProposedAfter(At(baseline, key), At(proposed, key), At(current, key))
  {
    map key: string | key in proposed :: ProposedAfter(At(baseline, key), At(proposed, key), At(current, key)).value
  }

  /** The namespace merge computes exactly these maps. */
  lemma MergedIsOf(merged: Entries, restamped: Entries, current: Entries, proposed: Entries, baseline: Entries)
    requires MergedNamespace(merged, restamped, current, proposed, baseline)
    ensures merged == MergedOf(current, proposed, baseline) && restamped == ProposedOf(current, proposed, baseline)
  {
    forall key: string
      ensures At(merged, key) == At(MergedOf(current, proposed, baseline), key)
      ensures At(restamped, key) == At(ProposedOf(current, proposed, baseline), key)
    {
      assert KeyMerged(merged, restamped, current, proposed, baseline, key);
    }
    SameMap(merged, MergedOf(current, proposed, baseline));
    SameMap(restamped, ProposedOf(current, proposed, baseline));
  }

  predicate RestampsKey(baseline: Entries, proposed: Entries, first: Entries, key: string) {
    Restamps(At(baseline, key), At(proposed, key), At(first, key))
  }

  ghost predicate RetryAgrees(baseline: Entries, proposed: Entries, first: Entries, second: Entries) {
    MergedOf(second, ProposedOf(first, proposed, baseline), baseline) == MergedOf(second, proposed, baseline)
  }

  /**
   * The same for a whole namespace: a retry on any cache agrees with a first
   * attempt on it if and only if the lost attempt restamped no key.
   */
  lemma NamespaceRetryCondition(baseline: Entries, proposed: Entries, first: Entries)
    ensures (forall second: Entries :: RetryAgrees(baseline, proposed, first, second)) <==>
            (forall key: string :: !RestampsKey(baseline, proposed, first, key))
  {
    if forall key: string :: !RestampsKey(baseline, proposed, first, key) {
      forall key: string ensures At(ProposedOf(first, proposed, baseline), key) == At(proposed, key) {
        assert !RestampsKey(baseline, proposed, first, key);
      }
      SameMap(ProposedOf(first, proposed, baseline), proposed);
    } else {
      var key :| RestampsKey(baseline, proposed, first, key);
      var retried := ProposedOf(first, proposed, baseline);
      assert At(MergedOf(map[], retried, baseline), key) == MergedAt(At(baseline, key), At(retried, key), None);
      assert At(MergedOf(map[], proposed, baseline), key) == MergedAt(At(baseline, key), At(proposed, key), None);
      assert !RetryAgrees(baseline, proposed, first, map[]);
    }
  }
}
