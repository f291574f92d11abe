/**
 * lib/auth-rate-limit.ts: a sliding-window limiter over a map of timestamp
 * lists. The clock reading is an argument of every operation, and keys are
 * account ids after the source's lower-casing and trimming.
 */
module AuthRateLimit {
  import opened Prelude

  datatype Config = Config(maxAttempts: int, windowMs: int)

  /** Attempts still inside the window that ends at `now`: those strictly after `now - windowMs`. */
  function Recent(times: seq<int>, cfg: Config, now: int): seq<int> {
    if times == [] then []
    else Recent(times[..|times| - 1], cfg, now) +
         (if times[|times| - 1] > now - cfg.windowMs then [times[|times| - 1]] else [])
  }

  function Least(times: seq<int>): (least: int)
    requires times != []
    ensures least in times && forall t :: t in times ==> least <= t
  {
    var last := times[|times| - 1];
    if |times| == 1 then last else
    assert times == times[..|times| - 1] + [last];
    Min(Least(times[..|times| - 1]), last)
  }

  class AuthRateLimiter {
    var config: Config
    var attemptsByAccount: map<string, seq<int>>

    constructor (config: Config)
      ensures this.config == config && attemptsByAccount == map[]
    {
      this.config := config;
      attemptsByAccount := map[];
    }

    /** What the table holds for a key; a key never recorded holds nothing. */
    ghost function Times(key: string): seq<int>
      reads this
    {
      if key in attemptsByAccount then attemptsByAccount[key] else []
    }

    /** Pruning one key forgets only attempts that are already outside the window. */
    ghost predicate PrunedAt(before: map<string, seq<int>>, key: string, now: int)
      reads this
    {
      attemptsByAccount == if key in before then before[key := Recent(before[key], config, now)] else before
    }

    method CanAttemptAuth(key: string, now: int) returns (ok: bool)
      modifies this
      ensures config == old(config)
      ensures PrunedAt(old(attemptsByAccount), key, now)
      ensures ok <==> Admits(old(key in attemptsByAccount), old(Times(key)), config, now)
    {
      if key !in attemptsByAccount { return true; }
      attemptsByAccount := attemptsByAccount[key := Recent(attemptsByAccount[key], config, now)];
      ok := |attemptsByAccount[key]| < config.maxAttempts;
    }

    method RecordAuthAttempt(key: string, now: int)
      modifies this
      ensures config == old(config)
      ensures attemptsByAccount == old(attemptsByAccount)[key := Recent(old(Times(key)), config, now) + [now]]
    {
      if key !in attemptsByAccount { attemptsByAccount := attemptsByAccount[key := []]; }
      attemptsByAccount := attemptsByAccount[key := Recent(attemptsByAccount[key], config, now)];
      attemptsByAccount := attemptsByAccount[key := attemptsByAccount[key] + [now]];
    }

    method GetTimeUntilReset(key: string, now: int) returns (waitMs: int)
      modifies this
      ensures config == old(config)
      ensures PrunedAt(old(attemptsByAccount), key, now)
      ensures waitMs == TimeUntilReset(old(Times(key)), config, now)
    {
      if key !in attemptsByAccount || attemptsByAccount[key] == [] { return 0; }
      attemptsByAccount := attemptsByAccount[key := Recent(attemptsByAccount[key], config, now)];
      if attemptsByAccount[key] == [] { return 0; }
      waitMs := Max(0, Least(attemptsByAccount[key]) + config.windowMs - now);
    }

    method ResetAuthRateLimit(key: string)
      modifies this
      ensures config == old(config) && attemptsByAccount == old(attemptsByAccount) - {key}
    {
      attemptsByAccount := attemptsByAccount - {key};
    }
  }

  /** The admission rule: an account never recorded is always admitted. */
  predicate Admits(recorded: bool, times: seq<int>, cfg: Config, now: int) {
    !recorded || |Recent(times, cfg, now)| < cfg.maxAttempts
  }

  function TimeUntilReset(times: seq<int>, cfg: Config, now: int): int {
    var live := Recent(times, cfg, now);
    if live == [] then 0 else Max(0, Least(live) + cfg.windowMs - now)
  }

  // ---- One key over a whole run ----

  /** A query (either question) prunes; an attempt prunes and records. */
  datatype Op = Query(now: int) | Attempt(now: int)

  function Table(ops: seq<Op>, cfg: Config): seq<int> {
    if ops == [] then [] else
    var op := ops[|ops| - 1];
    Recent(Table(ops[..|ops| - 1], cfg), cfg, op.now) + (if op.Attempt? then [op.now] else [])
  }

  /** The unbounded history the table abbreviates. */
  function History(ops: seq<Op>): seq<int> {
    if ops == [] then [] else
    History(ops[..|ops| - 1]) + (if ops[|ops| - 1].Attempt? then [ops[|ops| - 1].now] else [])
  }

  predicate Clocked(ops: seq<Op>, now: int) {
    ops == [] || (Clocked(ops[..|ops| - 1], ops[|ops| - 1].now) && ops[|ops| - 1].now <= now)
  }

  /** Every attempt was admitted at the instant it was recorded. */
  predicate AllAdmitted(ops: seq<Op>, cfg: Config) {
    ops == [] ||
    var prior, op := ops[..|ops| - 1], ops[|ops| - 1];
    AllAdmitted(prior, cfg) && (op.Attempt? ==> Admits(History(prior) != [], Table(prior, cfg), cfg, op.now))
  }

  /** Attempts in the half-open interval that starts at `from` and has length `windowMs`. */
  function CountIn(history: seq<int>, cfg: Config, from: int): nat {
    if history == [] then 0
    else CountIn(history[..|history| - 1], cfg, from) +
         (if from <= history[|history| - 1] < from + cfg.windowMs then 1 else 0)
  }

  lemma {:induction false} RecentAppend(times: seq<int>, t: int, cfg: Config, now: int)
    ensures Recent(times + [t], cfg, now) == Recent(times, cfg, now) + (if t > now - cfg.windowMs then [t] else [])
  {
    assert (times + [t])[..|times|] == times;
  }

  /** Forgetting at an earlier instant is invisible at a later one. */
  lemma {:induction false} RecentTwice(times: seq<int>, cfg: Config, early: int, late: int)
    requires early <= late
    ensures Recent(Recent(times, cfg, early), cfg, late) == Recent(times, cfg, late)
  {
    if times != [] {
      var prior, t := times[..|times| - 1], times[|times| - 1];
      RecentTwice(prior, cfg, early, late);
      if t > early - cfg.windowMs { RecentAppend(Recent(prior, cfg, early), t, cfg, late); }
      else { assert Recent(times, cfg, early) == Recent(prior, cfg, early); }
    }
  }

  /** The pruned table answers every question about the present window as the full history would. */
  lemma {:induction false} TableIsHistory(ops: seq<Op>, cfg: Config, now: int)
    requires Clocked(ops, now)
    ensures Recent(Table(ops, cfg), cfg, now) == Recent(History(ops), cfg, now)
  {
    if ops != [] {
      var prior, op := ops[..|ops| - 1], ops[|ops| - 1];
      ClockedLater(prior, op.now, now);
      TableIsHistory(prior, cfg, now);
      RecentTwice(Table(prior, cfg), cfg, op.now, now);
      if op.Attempt? {
        RecentAppend(Recent(Table(prior, cfg), cfg, op.now), op.now, cfg, now);
        RecentAppend(History(prior), op.now, cfg, now);
      } else {
        assert Table(ops, cfg) == Recent(Table(prior, cfg), cfg, op.now) && History(ops) == History(prior);
      }
    }
  }

  lemma ClockedLater(ops: seq<Op>, early: int, late: int)
    requires Clocked(ops, early) && early <= late
    ensures Clocked(ops, late)
  {
  }

  lemma {:induction false} CountIsRecent(history: seq<int>, cfg: Config, from: int, now: int)
    requires now < from + cfg.windowMs
    ensures CountIn(history, cfg, from) <= |Recent(history, cfg, now)|
  {
    if history != [] { CountIsRecent(history[..|history| - 1], cfg, from, now); }
  }

  /** Sliding-window guarantee: no interval of length `windowMs` holds more than `maxAttempts` admitted attempts. */
  lemma {:induction false} WindowGuarantee(ops: seq<Op>, cfg: Config, from: int, now: int)
    requires cfg.maxAttempts >= 1 && Clocked(ops, now) && AllAdmitted(ops, cfg)
    ensures CountIn(History(ops), cfg, from) <= cfg.maxAttempts
  {
    if ops != [] {
      var prior, op := ops[..|ops| - 1], ops[|ops| - 1];
      WindowGuarantee(prior, cfg, from, op.now);
      if op.Attempt? {
        assert History(ops)[..|History(prior)|] == History(prior);
        if from <= op.now < from + cfg.windowMs {
          TableIsHistory(prior, cfg, op.now);
          CountIsRecent(History(prior), cfg, from, op.now);
        }
      } else {
        assert History(ops) == History(prior);
      }
    }
  }

  ghost predicate Guaranteed(cfg: Config) {
    forall ops: seq<Op>, from: int, now: int {:trigger CountIn(History(ops), cfg, from), Clocked(ops, now)}
      | Clocked(ops, now) && AllAdmitted(ops, cfg) :: CountIn(History(ops), cfg, from) <= cfg.maxAttempts
  }

  lemma PositiveLimitHolds(cfg: Config)
    requires cfg.maxAttempts >= 1
    ensures Guaranteed(cfg)
  {
    forall ops: seq<Op>, from: int, now: int {:trigger CountIn(History(ops), cfg, from), Clocked(ops, now)}
      | Clocked(ops, now) && AllAdmitted(ops, cfg)
      ensures CountIn(History(ops), cfg, from) <= cfg.maxAttempts
    {
      WindowGuarantee(ops, cfg, from, now);
    }
  }

  lemma EmptyWindowHolds(cfg: Config)
    requires cfg.maxAttempts == 0 && cfg.windowMs <= 0
    ensures Guaranteed(cfg)
  {
    forall ops: seq<Op>, from: int, now: int {:trigger CountIn(History(ops), cfg, from), Clocked(ops, now)}
      | Clocked(ops, now) && AllAdmitted(ops, cfg)
      ensures CountIn(History(ops), cfg, from) <= cfg.maxAttempts
    {
      EmptyWindow(History(ops), cfg, from);
    }
  }

  lemma FirstAttemptBreaks(cfg: Config)
    requires cfg.maxAttempts < 0 || (cfg.maxAttempts == 0 && cfg.windowMs > 0)
    ensures !Guaranteed(cfg)
  {
    var once := [Attempt(0)];
    assert once[..0] == [] && [0][..0] == [];
    assert Clocked(once[..0], 0) && AllAdmitted(once[..0], cfg) && History(once[..0]) == [];
    assert Clocked(once, 0);
    assert AllAdmitted(once, cfg);
    assert History(once) == [0];
    assert CountIn([0][..0], cfg, 0) == 0;
    assert CountIn(History(once), cfg, 0) == if 0 < cfg.windowMs then 1 else 0;
  }

  /**
   * The exact condition. A limit below one is not enforced on the first attempt
   * of an account, since an account without a record is always admitted; it is
   * harmless only when the window is empty and the limit is zero.
   */
  lemma GuaranteeCondition(cfg: Config)
    ensures Guaranteed(cfg) <==> cfg.maxAttempts >= 1 || (cfg.maxAttempts == 0 && cfg.windowMs <= 0)
  {
    if cfg.maxAttempts >= 1 {
      PositiveLimitHolds(cfg);
    } else if cfg.maxAttempts == 0 && cfg.windowMs <= 0 {
      EmptyWindowHolds(cfg);
    } else {
      FirstAttemptBreaks(cfg);
    }
  }

  lemma {:induction false} EmptyWindow(history: seq<int>, cfg: Config, from: int)
    requires cfg.windowMs <= 0
    ensures CountIn(history, cfg, from) == 0
  {
    if history != [] { EmptyWindow(history[..|history| - 1], cfg, from); }
  }

  // ---- The announced wait ----

  lemma {:induction false} RecentKeeps(times: seq<int>, cfg: Config, early: int, late: int)
    requires early <= late
    ensures forall t :: t in Recent(times, cfg, late) <==> t in times && t > late - cfg.windowMs
    ensures |Recent(times, cfg, late)| <= |Recent(times, cfg, early)| <= |times|
    ensures |Recent(times, cfg, late)| == |Recent(times, cfg, early)| <==>
            Recent(times, cfg, late) == Recent(times, cfg, early)
  {
    if times != [] {
      var prior, t := times[..|times| - 1], times[|times| - 1];
      assert times == prior + [t];
      RecentKeeps(prior, cfg, early, late);
    }
  }

  lemma ExpiryShrinks(times: seq<int>, cfg: Config, early: int, late: int)
    requires early <= late
    ensures |Recent(times, cfg, late)| < |Recent(times, cfg, early)| <==>
            exists t :: t in times && early - cfg.windowMs < t <= late - cfg.windowMs
  {
    RecentKeeps(times, cfg, early, late);
    RecentKeeps(times, cfg, early, early);
    if t :| t in times && early - cfg.windowMs < t <= late - cfg.windowMs {
      assert t in Recent(times, cfg, early) && t !in Recent(times, cfg, late);
    } else {
      RecentSame(times, cfg, early, late);
    }
  }

  lemma {:induction false} RecentSame(times: seq<int>, cfg: Config, early: int, late: int)
    requires early <= late
    requires forall t :: t in times ==> t <= early - cfg.windowMs || t > late - cfg.windowMs
    ensures Recent(times, cfg, late) == Recent(times, cfg, early)
  {
    if times != [] {
      var prior := times[..|times| - 1];
      assert times[|times| - 1] in times;
      forall t | t in prior ensures t in times { assert times == prior + times[|times| - 1..]; }
      RecentSame(prior, cfg, early, late);
    }
  }

  /**
   * For an account at its limit, the announced wait is exactly the first delay
   * after which an attempt is admitted: every shorter delay is refused.
   */
  lemma WaitIsExact(times: seq<int>, cfg: Config, now: int, delay: nat)
    requires cfg.maxAttempts >= 1 && |Recent(times, cfg, now)| == cfg.maxAttempts
    ensures var w := TimeUntilReset(times, cfg, now);
            w > 0 && (delay <= w ==> (Admits(true, times, cfg, now + delay) <==> delay == w))
  {
    var live := Recent(times, cfg, now);
    var w := TimeUntilReset(times, cfg, now);
    RecentKeeps(times, cfg, now, now);
    assert w == Least(live) + cfg.windowMs - now;
    ExpiryShrinks(times, cfg, now, now + delay);
    if delay == w { assert Least(live) in times && Least(live) <= now + delay - cfg.windowMs; }
    else if delay < w {
      forall t | t in times ensures !(now - cfg.windowMs < t <= now + delay - cfg.windowMs) {
        if t > now - cfg.windowMs { assert t in live; }
      }
    }
  }

  /** An account that was only ever recorded when admitted never holds more than the limit. */
  lemma {:induction false} NeverOverLimit(ops: seq<Op>, cfg: Config, now: int)
    requires cfg.maxAttempts >= 1 && Clocked(ops, now) && AllAdmitted(ops, cfg)
    ensures |Recent(Table(ops, cfg), cfg, now)| <= cfg.maxAttempts
  {
    if ops != [] {
      var prior, op := ops[..|ops| - 1], ops[|ops| - 1];
      ClockedLater(prior, op.now, now);
      NeverOverLimit(prior, cfg, now);
      RecentTwice(Table(prior, cfg), cfg, op.now, now);
      if op.Attempt? {
        if History(prior) == [] { NoHistoryNoTable(prior, cfg); }
        RecentKeeps(Table(prior, cfg), cfg, op.now, now);
        RecentAppend(Recent(Table(prior, cfg), cfg, op.now), op.now, cfg, now);
      } else {
        assert Table(ops, cfg) == Recent(Table(prior, cfg), cfg, op.now);
      }
    }
  }

  lemma {:induction false} NoHistoryNoTable(ops: seq<Op>, cfg: Config)
    requires History(ops) == []
    ensures Table(ops, cfg) == []
  {
    if ops != [] { NoHistoryNoTable(ops[..|ops| - 1], cfg); }
  }
}
