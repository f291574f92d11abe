/**
 * lib/preemptive-quota-scheduler.ts: quota observations per key and the
 * deferral decided from them. Times are whole milliseconds; used percentages
 * are real numbers, rounded as the source rounds them.
 */
module QuotaScheduler {
  import opened Prelude

  const RATE_LIMIT_CACHE_TTL_MS := 3600000
  const MAX_RATE_LIMIT_DELAY_MS := 604800000
  const PRUNE_INTERVAL_MS := 60000

  datatype Window = Window(usedPercent: Option<real>, resetAtMs: Option<int>)

  datatype Snapshot = Snapshot(status: int, primary: Window, secondary: Window, updatedAt: int)

  datatype Options = Options(enabled: bool, primaryThreshold: int, secondaryThreshold: int, maxDeferralMs: int)

  datatype Reason = RateLimit | NearExhaustion

  datatype Decision = Proceed | Defer(waitMs: int, reason: Reason)

  /** Remaining percent, rounded half up as for display and clamped to 0..100. */
  function QuotaLeft(used: real): int { Max(0, Min(100, (100.5 - used).Floor)) }

  /** A window without a reading, or with nothing left, is one a 429 can be about. */
  predicate IsRateLimitWindow(w: Window) {
    w.usedPercent.None? || QuotaLeft(w.usedPercent.value) == 0
  }

  function ResetWait(w: Window, now: int): int {
    if IsRateLimitWindow(w) && w.resetAtMs.Some? then Max(0, w.resetAtMs.value - now) else 0
  }

  /** A reset is trusted only from a coherent, recent snapshot. */
  function TrustedResetWaitMs(w: Window, s: Snapshot, now: int): Option<int> {
    if w.resetAtMs.None? || s.updatedAt > now || now - s.updatedAt > MAX_RATE_LIMIT_DELAY_MS then None
    else if w.resetAtMs.value <= now then Some(0)
    else Some(Min(w.resetAtMs.value - now, MAX_RATE_LIMIT_DELAY_MS))
  }

  predicate NearExhausted(w: Window, threshold: int) {
    w.usedPercent.Some? && w.usedPercent.value >= (100 - threshold) as real
  }

  function NearWait(w: Window, s: Snapshot, threshold: int, opts: Options, now: int): int {
    if !NearExhausted(w, threshold) || s.status == 429 then 0
    else
      var trusted := TrustedResetWaitMs(w, s, now);
      if trusted.None? then opts.maxDeferralMs else trusted.value
  }

  function CacheRemaining(s: Snapshot, now: int): int { s.updatedAt + RATE_LIMIT_CACHE_TTL_MS - now }

  function Decide(opts: Options, held: Option<Snapshot>, now: int): Decision {
    if !opts.enabled || held.None? || CacheRemaining(held.value, now) <= 0 then Proceed else
    var s := held.value;
    var cache := CacheRemaining(s, now);
    var longest := Max(ResetWait(s.primary, now), ResetWait(s.secondary, now));
    var bounded := Min(longest, Min(opts.maxDeferralMs, cache));
    if s.status == 429 && longest > 0 && bounded > 0 then Defer(bounded, RateLimit)
    else
      var near := Max(NearWait(s.primary, s, opts.primaryThreshold, opts, now),
                      NearWait(s.secondary, s, opts.secondaryThreshold, opts, now));
      if near > 0 then Defer(Min(near, cache), NearExhaustion) else Proceed
  }

  // ---- Announced waits are long enough ----

  ghost predicate QuietSince(opts: Options, s: Snapshot, from: int) { forall t: int :: t >= from ==> Decide(opts, Some(s), t).Proceed? }

  /** A wait announced for a snapshot is the last one: from then on the snapshot defers nothing. */
  ghost predicate LongEnough(opts: Options, s: Snapshot, now: int) {
    var d := Decide(opts, Some(s), now);
    d.Defer? ==> d.waitMs > 0 && QuietSince(opts, s, now + d.waitMs)
  }

  lemma NearWaitQuiet(w: Window, s: Snapshot, threshold: int, opts: Options, now: int, later: int)
    requires s.updatedAt <= now <= later && CacheRemaining(s, later) > 0
    requires opts.maxDeferralMs >= RATE_LIMIT_CACHE_TTL_MS
    requires now + NearWait(w, s, threshold, opts, now) <= later
    ensures NearWait(w, s, threshold, opts, later) == 0
  {
  }

  lemma AnnouncedWaitSuffices(opts: Options, s: Snapshot, now: int)
    requires opts.maxDeferralMs >= RATE_LIMIT_CACHE_TTL_MS && s.updatedAt <= now
    ensures LongEnough(opts, s, now)
    ensures Decide(opts, Some(s), now).Defer? ==> Decide(opts, Some(s), now).waitMs <= RATE_LIMIT_CACHE_TTL_MS
  {
    var d := Decide(opts, Some(s), now);
    if d.Defer? {
      forall t: int | t >= now + d.waitMs ensures Decide(opts, Some(s), t).Proceed? {
        if CacheRemaining(s, t) > 0 && d.reason == NearExhaustion {
          NearWaitQuiet(s.primary, s, opts.primaryThreshold, opts, now, t);
          NearWaitQuiet(s.secondary, s, opts.secondaryThreshold, opts, now, t);
        }
      }
    }
  }

  ghost predicate AlwaysLongEnough(opts: Options) {
    forall s: Snapshot, now: int | s.updatedAt <= now :: LongEnough(opts, s, now)
  }

  /** The exact condition, for the options `configure` can produce: the cap must cover the cache lifetime. */
  lemma LongEnoughCondition(opts: Options)
    requires opts.maxDeferralMs >= 1000
    ensures AlwaysLongEnough(opts) <==> !opts.enabled || opts.maxDeferralMs >= RATE_LIMIT_CACHE_TTL_MS
  {
    if opts.enabled && opts.maxDeferralMs < RATE_LIMIT_CACHE_TTL_MS {
      var w := Window(None, Some(2 * RATE_LIMIT_CACHE_TTL_MS));
      var s := Snapshot(429, w, Window(None, None), 0);
      assert Decide(opts, Some(s), 0) == Defer(opts.maxDeferralMs, RateLimit);
      assert Decide(opts, Some(s), opts.maxDeferralMs).Defer?;
      assert !LongEnough(opts, s, 0);
    } else if opts.enabled {
      forall s: Snapshot, now: int | s.updatedAt <= now ensures LongEnough(opts, s, now) {
        AnnouncedWaitSuffices(opts, s, now);
      }
    }
  }

  // ---- Which snapshots announce too short a wait ----

  function Later(a: Option<int>, b: Option<int>): Option<int> {
    if a.None? then b else if b.None? then a else Some(Max(a.value, b.value))
  }

  /** When a window stops a 429 from deferring; None if it never lets it defer. */
  function RejectionEnd(w: Window): Option<int> { if IsRateLimitWindow(w) then w.resetAtMs else None }

  /** When a nearly exhausted window stops deferring: at a trusted reset, or only with the cache. */
  function ExhaustionEnd(w: Window, threshold: int, s: Snapshot): Option<int> {
    if !NearExhausted(w, threshold) then None
    else if w.resetAtMs.None? then Some(s.updatedAt + RATE_LIMIT_CACHE_TTL_MS)
    else Some(Max(s.updatedAt, w.resetAtMs.value))
  }

  function WindowsEnd(opts: Options, s: Snapshot): Option<int> {
    if s.status == 429 then Later(RejectionEnd(s.primary), RejectionEnd(s.secondary))
    else Later(ExhaustionEnd(s.primary, opts.primaryThreshold, s), ExhaustionEnd(s.secondary, opts.secondaryThreshold, s))
  }

  /** The instant from which a snapshot defers nothing; None if it never defers. Only the snapshot and the thresholds matter. */
  function QuietFrom(opts: Options, s: Snapshot): Option<int> {
    match WindowsEnd(opts, s)
    case None => None
    case Some(end) => Some(Min(end, s.updatedAt + RATE_LIMIT_CACHE_TTL_MS))
  }

  predicate DefersAt(opts: Options, s: Snapshot, t: int) {
    opts.enabled && QuietFrom(opts, s).Some? && t < QuietFrom(opts, s).value
  }

  lemma NearWaitUntil(w: Window, s: Snapshot, threshold: int, opts: Options, t: int)
    requires opts.maxDeferralMs >= 1000 && s.status != 429 && CacheRemaining(s, t) > 0
    ensures NearWait(w, s, threshold, opts, t) >= 0
    ensures NearWait(w, s, threshold, opts, t) > 0 <==>
      ExhaustionEnd(w, threshold, s).Some? && t < ExhaustionEnd(w, threshold, s).value
  {
  }

  /** A snapshot defers exactly until one instant, which can be read off it. */
  lemma DefersUntil(opts: Options, s: Snapshot, t: int)
    requires opts.maxDeferralMs >= 1000
    ensures Decide(opts, Some(s), t).Defer? <==> DefersAt(opts, s, t)
  {
    if opts.enabled && CacheRemaining(s, t) > 0 && s.status != 429 {
      NearWaitUntil(s.primary, s, opts.primaryThreshold, opts, t);
      NearWaitUntil(s.secondary, s, opts.secondaryThreshold, opts, t);
    }
  }

  /** One look at the end of the wait decides: a snapshot quiet then is quiet for good. */
  lemma OneLookSuffices(opts: Options, s: Snapshot, now: int)
    requires opts.maxDeferralMs >= 1000
    ensures var d := Decide(opts, Some(s), now);
            LongEnough(opts, s, now) <==> (d.Defer? ==> Decide(opts, Some(s), now + d.waitMs).Proceed?)
  {
    var d := Decide(opts, Some(s), now);
    if d.Defer? {
      PositiveWait(opts, s, now);
      QuietFromThen(opts, s, now + d.waitMs);
    }
  }

  lemma PositiveWait(opts: Options, s: Snapshot, now: int)
    requires opts.maxDeferralMs >= 1000 && Decide(opts, Some(s), now).Defer?
    ensures Decide(opts, Some(s), now).waitMs > 0
  {
  }

  lemma QuietFromThen(opts: Options, s: Snapshot, from: int)
    requires opts.maxDeferralMs >= 1000
    ensures QuietSince(opts, s, from) <==> Decide(opts, Some(s), from).Proceed?
  {
    DefersUntil(opts, s, from);
    if Decide(opts, Some(s), from).Proceed? {
      forall t: int | t >= from ensures Decide(opts, Some(s), t).Proceed? { DefersUntil(opts, s, t); }
    }
  }

  predicate ResetReaches(w: Window, threshold: int, at: int) { NearExhausted(w, threshold) && w.resetAtMs.Some? && w.resetAtMs.value >= at }

  /**
   * The announced wait follows the resets rather than the cap: the snapshot is
   * not a 429 and not from the future, and every nearly exhausted window says
   * when it resets, or one of them outlasts the cache.
   */
  predicate FollowsResets(opts: Options, s: Snapshot, now: int) {
    var end := s.updatedAt + RATE_LIMIT_CACHE_TTL_MS;
    && s.status != 429 && s.updatedAt <= now
    && (((NearExhausted(s.primary, opts.primaryThreshold) ==> s.primary.resetAtMs.Some?)
         && (NearExhausted(s.secondary, opts.secondaryThreshold) ==> s.secondary.resetAtMs.Some?))
        || ResetReaches(s.primary, opts.primaryThreshold, end) || ResetReaches(s.secondary, opts.secondaryThreshold, end))
  }

  lemma RejectionWait(opts: Options, s: Snapshot, now: int)
    requires opts.maxDeferralMs >= 1000 && s.status == 429 && DefersAt(opts, s, now)
    ensures Decide(opts, Some(s), now) == Defer(Min(opts.maxDeferralMs, QuietFrom(opts, s).value - now), RateLimit)
  {
  }

  lemma FutureWait(opts: Options, s: Snapshot, now: int)
    requires opts.maxDeferralMs >= 1000 && s.status != 429 && s.updatedAt > now && DefersAt(opts, s, now)
    ensures Decide(opts, Some(s), now) == Defer(Min(opts.maxDeferralMs, CacheRemaining(s, now)), NearExhaustion)
  {
  }

  /** What one nearly exhausted window contributes to the wait of a snapshot that is not from the future. */
  lemma ExhaustionWait(w: Window, s: Snapshot, threshold: int, opts: Options, now: int)
    requires opts.maxDeferralMs >= 1000 && s.status != 429 && s.updatedAt <= now && CacheRemaining(s, now) > 0
    ensures var wait, end := NearWait(w, s, threshold, opts, now), s.updatedAt + RATE_LIMIT_CACHE_TTL_MS;
            if !NearExhausted(w, threshold) then wait == 0
            else if w.resetAtMs.None? then wait == opts.maxDeferralMs
            else Min(now + wait, end) == Min(Max(now, w.resetAtMs.value), end)
  {
  }

  lemma PresentWait(opts: Options, s: Snapshot, now: int)
    requires opts.maxDeferralMs >= 1000 && s.status != 429 && s.updatedAt <= now && DefersAt(opts, s, now)
    ensures var w := Decide(opts, Some(s), now).waitMs;
            now + w >= QuietFrom(opts, s).value <==> opts.maxDeferralMs >= QuietFrom(opts, s).value - now || FollowsResets(opts, s, now)
  {
    ExhaustionWait(s.primary, s, opts.primaryThreshold, opts, now);
    ExhaustionWait(s.secondary, s, opts.secondaryThreshold, opts, now);
  }

  /**
   * The exact condition for every snapshot and instant: an announced wait is
   * too short if and only if the snapshot defers now, the cap ends before its
   * deferral does, and the wait does not follow the resets. For a snapshot from
   * the future the cap alone decides.
   */
  lemma FallsShortCondition(opts: Options, s: Snapshot, now: int)
    requires opts.maxDeferralMs >= 1000
    ensures !LongEnough(opts, s, now) <==>
      DefersAt(opts, s, now) && opts.maxDeferralMs < QuietFrom(opts, s).value - now && !FollowsResets(opts, s, now)
  {
    OneLookSuffices(opts, s, now);
    DefersUntil(opts, s, now);
    if DefersAt(opts, s, now) {
      DefersUntil(opts, s, now + Decide(opts, Some(s), now).waitMs);
      if s.status == 429 {
        RejectionWait(opts, s, now);
      } else if s.updatedAt > now {
        FutureWait(opts, s, now);
      } else {
        PresentWait(opts, s, now);
      }
    }
  }

  /** Over all snapshots, those from the future included, only a scheduler that is off always announces enough. */
  lemma OnlyOffIsSafe(opts: Options)
    requires opts.maxDeferralMs >= 1000
    ensures (forall s: Snapshot, now: int :: LongEnough(opts, s, now)) <==> !opts.enabled
  {
    if opts.enabled {
      var w := Window(None, Some(opts.maxDeferralMs + 1));
      var s := Snapshot(429, w, Window(None, None), opts.maxDeferralMs + 1);
      FallsShortCondition(opts, s, 0);
      assert !LongEnough(opts, s, 0);
    }
  }

  // ---- A rejection ----

  /** What a 429 leaves: only an earlier window that was itself exhausted can outlast the retry-after. */
  function Marked(held: Option<Snapshot>, retryAfterMs: int, now: int): Snapshot {
    var prior := if held.Some? && IsRateLimitWindow(held.value.primary) && held.value.primary.resetAtMs.Some?
                 then held.value.primary.resetAtMs.value else 0;
    Snapshot(429, Window(Some(100.0), Some(Max(prior, now + Max(0, retryAfterMs)))),
             if held.Some? then held.value.secondary else Window(None, None),
             Max(if held.Some? then held.value.updatedAt else 0, now))
  }

  /** A 429 over healthy windows defers exactly its retry-after, within the caps; over any windows, at least that. */
  lemma RejectionDefersRetryAfter(opts: Options, held: Option<Snapshot>, retryAfterMs: int, now: int)
    requires opts.enabled && opts.maxDeferralMs >= 1000 && now >= 0
    requires held.Some? ==> held.value.updatedAt <= now
    ensures var d := Decide(opts, Some(Marked(held, retryAfterMs, now)), now);
            var cap := Min(opts.maxDeferralMs, RATE_LIMIT_CACHE_TTL_MS);
            && (retryAfterMs > 0 ==> d.Defer? && d.reason == RateLimit && Min(retryAfterMs, cap) <= d.waitMs <= cap)
            && (held.None? || (!IsRateLimitWindow(held.value.primary) && !IsRateLimitWindow(held.value.secondary)) ==>
                  d == if retryAfterMs > 0 then Defer(Min(retryAfterMs, cap), RateLimit) else Proceed)
  {
    var s := Marked(held, retryAfterMs, now);
    assert QuotaLeft(100.0) == 0;
    assert IsRateLimitWindow(s.primary);
  }

  // ---- The table ----

  type Snapshots = map<string, Snapshot>

  datatype Table = Table(snapshots: Snapshots, lastPruneAt: int)

  predicate Stale(s: Snapshot, now: int) {
    var latest := Max(if s.primary.resetAtMs.Some? then s.primary.resetAtMs.value else 0,
                      if s.secondary.resetAtMs.Some? then s.secondary.resetAtMs.value else 0);
    0 < latest <= now
  }

  function Pruned(snapshots: Snapshots, now: int): Snapshots {
    map k | k in snapshots && !Stale(snapshots[k], now) :: snapshots[k]
  }

  function MaybePruned(t: Table, now: int): Table {
    if now - t.lastPruneAt < PRUNE_INTERVAL_MS then t else Table(Pruned(t.snapshots, now), now)
  }

  function Held(t: Table, key: string): Option<Snapshot> {
    if key in t.snapshots then Some(t.snapshots[key]) else None
  }

  /** Asking may prune, and drops an expired snapshot. */
  function Asked(opts: Options, t: Table, key: string, now: int): Table {
    var p := MaybePruned(t, now);
    if opts.enabled && key in p.snapshots && CacheRemaining(p.snapshots[key], now) <= 0
    then p.(snapshots := p.snapshots - {key}) else p
  }

  /** An observation is stored after the pruning its own stamp may make due; one without a key is dropped. */
  function Observed(t: Table, key: string, s: Snapshot, now: int): Table {
    if key == "" then t
    else
      var p := MaybePruned(t, if s.updatedAt != 0 then s.updatedAt else now);
      p.(snapshots := p.snapshots[key := s])
  }

  function Rejected(t: Table, key: string, retryAfterMs: int, now: int): Table {
    if key == "" then t else t.(snapshots := t.snapshots[key := Marked(Held(t, key), retryAfterMs, now)])
  }

  /** Forgetting an account forgets every key that starts with its prefix; the empty prefix names none. */
  function Forgotten(t: Table, prefix: string): Table {
    if prefix == "" then t else t.(snapshots := map k | k in t.snapshots && !(prefix <= k) :: t.snapshots[k])
  }

  class PreemptiveQuotaScheduler {
    var options: Options
    var snapshots: Snapshots
    var lastPruneAt: int

    ghost function View(): Table
      reads this
    {
      Table(snapshots, lastPruneAt)
    }

    constructor (options: Options)
      ensures this.options == options && View() == Table(map[], 0)
    {
      this.options := options;
      snapshots, lastPruneAt := map[], 0;
    }

    method Prune(now: int) returns (removed: nat)
      modifies this`snapshots
      ensures snapshots == Pruned(old(snapshots), now)
      ensures removed == |old(snapshots)| - |snapshots|
    {
      removed := 0;
      var todo := snapshots.Keys;
      while todo != {}
        invariant forall k | k in todo :: k in snapshots
        invariant forall k | k in snapshots :: k in old(snapshots) && snapshots[k] == old(snapshots)[k]
        invariant forall k | k in old(snapshots) :: k in snapshots <==> k in todo || !Stale(old(snapshots)[k], now)
        invariant removed + |snapshots.Keys| == |old(snapshots).Keys|
        decreases |todo|
      {
        var key :| key in todo;
        todo := todo - {key};
        if Stale(snapshots[key], now) {
          ghost var before := snapshots;
          snapshots := snapshots - {key};
          assert snapshots.Keys == before.Keys - {key};
          removed := removed + 1;
        }
      }
      assert |snapshots| == |snapshots.Keys| && |old(snapshots)| == |old(snapshots).Keys|;
    }

    method MaybePrune(now: int)
      modifies this`snapshots, this`lastPruneAt
      ensures View() == MaybePruned(old(View()), now)
    {
      if now - lastPruneAt < PRUNE_INTERVAL_MS { return; }
      var _ := Prune(now);
      lastPruneAt := now;
    }

    method Update(key: string, snapshot: Snapshot, now: int)
      modifies this`snapshots, this`lastPruneAt
      ensures View() == Observed(old(View()), key, snapshot, now)
    {
      if key == "" { return; }
      MaybePrune(if snapshot.updatedAt != 0 then snapshot.updatedAt else now);
      snapshots := snapshots[key := snapshot];
    }

    method MarkRateLimited(key: string, retryAfterMs: int, now: int)
      modifies this`snapshots
      ensures View() == Rejected(old(View()), key, retryAfterMs, now)
    {
      if key == "" { return; }
      var existing := if key in snapshots then Some(snapshots[key]) else None;
      var priorReset := 0;
      if existing.Some? && IsRateLimitWindow(existing.value.primary) && existing.value.primary.resetAtMs.Some? {
        priorReset := existing.value.primary.resetAtMs.value;
      }
      snapshots := snapshots[key := Snapshot(
        429,
        Window(Some(100.0), Some(Max(priorReset, now + Max(0, retryAfterMs)))),
        if existing.Some? then existing.value.secondary else Window(None, None),
        Max(if existing.Some? then existing.value.updatedAt else 0, now))];
    }

    method GetDeferral(key: string, now: int) returns (d: Decision)
      modifies this`snapshots, this`lastPruneAt
      ensures d == Decide(options, Held(MaybePruned(old(View()), now), key), now)
      ensures View() == Asked(options, old(View()), key, now)
    {
      MaybePrune(now);
      if !options.enabled || key !in snapshots { return Proceed; }
      var s := snapshots[key];
      var cacheRemainingMs := s.updatedAt + RATE_LIMIT_CACHE_TTL_MS - now;
      if cacheRemainingMs <= 0 {
        snapshots := snapshots - {key};
        return Proceed;
      }
      var longestWait := Max(ResetWait(s.primary, now), ResetWait(s.secondary, now));
      if s.status == 429 && longestWait > 0 {
        var bounded := Min(longestWait, Min(options.maxDeferralMs, cacheRemainingMs));
        if bounded > 0 { return Defer(bounded, RateLimit); }
      }
      var nearExhaustedWait := Max(NearWait(s.primary, s, options.primaryThreshold, options, now),
                                   NearWait(s.secondary, s, options.secondaryThreshold, options, now));
      if nearExhaustedWait > 0 { return Defer(Min(nearExhaustedWait, cacheRemainingMs), NearExhaustion); }
      return Proceed;
    }

    method ClearByPrefix(prefix: string)
      modifies this`snapshots
      ensures View() == Forgotten(old(View()), prefix)
    {
      if prefix == "" { return; }
      var todo := snapshots.Keys;
      while todo != {}
        invariant todo <= snapshots.Keys
        invariant forall k | k in snapshots :: k in old(snapshots) && snapshots[k] == old(snapshots)[k]
        invariant forall k | k in old(snapshots) :: k !in todo ==> (k in snapshots <==> !(prefix <= k))
        decreases |todo|
      {
        var key :| key in todo;
        todo := todo - {key};
        if prefix <= key { snapshots := snapshots - {key}; }
      }
    }
  }

  // ---- Whole runs without a new observation of one key ----

  datatype Op =
    | Ask(key: string, now: int)
    | Observe(key: string, snapshot: Snapshot, now: int)
    | Reject(key: string, retryAfterMs: int, now: int)
    | PruneAt(now: int)
    | Forget(prefix: string)

  function Step(opts: Options, t: Table, op: Op): Table {
    match op
    case Ask(key, now) => Asked(opts, t, key, now)
    case Observe(key, s, now) => Observed(t, key, s, now)
    case Reject(key, retryAfterMs, now) => Rejected(t, key, retryAfterMs, now)
    case PruneAt(now) => t.(snapshots := Pruned(t.snapshots, now))
    case Forget(prefix) => Forgotten(t, prefix)
  }

  function Run(opts: Options, t: Table, ops: seq<Op>): Table {
    if ops == [] then t else Step(opts, Run(opts, t, ops[..|ops| - 1]), ops[|ops| - 1])
  }

  predicate NewsOf(op: Op, key: string) {
    key != "" && ((op.Observe? && op.key == key) || (op.Reject? && op.key == key))
  }

  lemma {:induction false} HeldOrForgotten(opts: Options, t: Table, ops: seq<Op>, key: string)
    requires forall i :: 0 <= i < |ops| ==> !NewsOf(ops[i], key)
    ensures Held(Run(opts, t, ops), key) == Held(t, key) || Held(Run(opts, t, ops), key) == None
  {
    if ops != [] { HeldOrForgotten(opts, t, ops[..|ops| - 1], key); }
  }

  /**
   * After a wait is announced for a key, and whatever is asked, pruned, forgotten
   * or observed about other keys meanwhile, the key is not deferred again once the
   * wait is over.
   */
  lemma NoSecondDeferral(opts: Options, t: Table, key: string, now: int, ops: seq<Op>, later: int)
    requires opts.maxDeferralMs >= RATE_LIMIT_CACHE_TTL_MS
    requires var held := Held(MaybePruned(t, now), key);
             && (held.Some? ==> held.value.updatedAt <= now)
             && Decide(opts, held, now).Defer? && later >= now + Decide(opts, held, now).waitMs
    requires forall i :: 0 <= i < |ops| ==> !NewsOf(ops[i], key)
    ensures var after := Run(opts, Asked(opts, t, key, now), ops);
            Decide(opts, Held(MaybePruned(after, later), key), later).Proceed?
  {
    var held := Held(MaybePruned(t, now), key);
    AnnouncedWaitSuffices(opts, held.value, now);
    HeldOrForgotten(opts, Asked(opts, t, key, now), ops, key);
  }
}
