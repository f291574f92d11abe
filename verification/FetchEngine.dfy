/**
 * index.ts, the `fetch` retry engine: traversals of the account pool, the
 * request loop on one account, and stream failover, all drawing on one budget
 * of outbound attempts. Everything the engine does not decide itself (which
 * account the selector returns, what upstream answers, how long to wait) is an
 * arbitrary choice of the environment.
 */
module FetchEngine {
  import opened Prelude

  // ---- The budget ----

  const MAX_TOTAL_OUTBOUND_REQUEST_ATTEMPTS := 6

  const MAX_STREAM_FAILOVERS := 1

  const MAX_STREAM_FAILOVER_CANDIDATES := 2

  const MAX_SHORT_RETRY_ATTEMPTS := 3

  function CapStreamFailoverMax(value: int): nat { Max(0, Min(MAX_STREAM_FAILOVERS, value)) }

  function AttemptBudget(accountCount: int, sameAccountRetries: int, emptyRetries: int, streamFailovers: int): (budget: nat)
    ensures 1 <= budget <= MAX_TOTAL_OUTBOUND_REQUEST_ATTEMPTS
    ensures accountCount <= budget || budget == MAX_TOTAL_OUTBOUND_REQUEST_ATTEMPTS
  {
    var wanted := Max(1, accountCount) + Max(0, sameAccountRetries) + Max(0, emptyRetries) + CapStreamFailoverMax(streamFailovers);
    Max(1, Min(wanted, MAX_TOTAL_OUTBOUND_REQUEST_ATTEMPTS))
  }

  // ---- What happened, as a log ----

  datatype Event =
    | TraversalStarted(accountCount: nat)
    | Selected(account: nat)
    | WorkspaceRotated(account: nat)
    | FellBack
    | Waited(waitMs: nat)
    | Compacted
    | AttemptConsumed
    | Primary(account: nat)
    | Failover(account: nat)
    | EmptyRetried

  /**
   * Totals over a log. `attempted` holds the accounts selected in the current
   * traversal and not released since; `disciplined` says that no selection
   * named one of them; `streak` is the number of requests since the last
   * selection and `maxStreak` its maximum; `failovers` lists the accounts that
   * failovers fetched from.
   */
  datatype Tally = Tally(
    consumed: nat, fetches: nat, primaries: nat, traversals: nat, capacity: nat, selections: nat, rotations: nat,
    fallbacks: nat, waits: nat, longestWait: nat, compactions: nat, emptyRetries: nat, streak: nat, maxStreak: nat, fetchedFrom: set<nat>,
    attempted: set<nat>, disciplined: bool, failovers: seq<nat>)

  const NOTHING := Tally(0, 0, 0, 0, 0, 0, 0, 0, 0, 0, 0, 0, 0, 0, {}, {}, true, [])

  function Counted(t: Tally, e: Event): Tally {
    match e
    case TraversalStarted(count) => t.(traversals := t.traversals + 1, capacity := t.capacity + Max(1, count), attempted := {})
    case Selected(i) =>
      t.(selections := t.selections + 1, streak := 0, disciplined := t.disciplined && i !in t.attempted, attempted := t.attempted + {i})
    case WorkspaceRotated(i) => t.(rotations := t.rotations + 1, attempted := t.attempted - {i})
    case FellBack => t.(fallbacks := t.fallbacks + 1)
    case Waited(ms) => t.(waits := t.waits + 1, longestWait := Max(t.longestWait, ms))
    case Compacted => t.(compactions := t.compactions + 1)
    case AttemptConsumed => t.(consumed := t.consumed + 1)
    case Primary(i) =>
      t.(fetches := t.fetches + 1, primaries := t.primaries + 1, streak := t.streak + 1,
         maxStreak := Max(t.maxStreak, t.streak + 1), fetchedFrom := t.fetchedFrom + {i})
    case Failover(i) => t.(fetches := t.fetches + 1, fetchedFrom := t.fetchedFrom + {i}, failovers := t.failovers + [i])
    case EmptyRetried => t.(emptyRetries := t.emptyRetries + 1)
  }

  function Count(log: seq<Event>): Tally {
    if log == [] then NOTHING else Counted(Count(log[..|log| - 1]), log[|log| - 1])
  }

  /** Read without the bookkeeping: an account is tried again in a traversal only after its workspace was rotated. */
  lemma {:induction false} RetriedOnlyAfterRotation(log: seq<Event>, a: nat, b: nat)
    requires Count(log).disciplined && a < b < |log|
    requires log[a].Selected? && log[b].Selected? && log[a].account == log[b].account
    requires forall n :: a < n < b ==> !log[n].TraversalStarted?
    ensures exists n :: a < n < b && log[n] == WorkspaceRotated(log[a].account)
  {
    if forall n :: a < n < b ==> log[n] != WorkspaceRotated(log[a].account) {
      assert log[..b + 1][..b] == log[..b];
      StillAttempted(log, a, b);
      DisciplinedPrefix(log, b + 1);
      assert false;
    }
  }

  lemma {:induction false} DisciplinedPrefix(log: seq<Event>, n: nat)
    requires Count(log).disciplined && n <= |log|
    ensures Count(log[..n]).disciplined
    decreases |log|
  {
    if n < |log| {
      DisciplinedPrefix(log[..|log| - 1], n);
      assert log[..|log| - 1][..n] == log[..n];
    } else {
      assert log[..n] == log;
    }
  }

  lemma {:induction false} StillAttempted(log: seq<Event>, a: nat, b: nat)
    requires a < b <= |log| && log[a].Selected?
    requires forall n :: a < n < b ==> !log[n].TraversalStarted? && log[n] != WorkspaceRotated(log[a].account)
    ensures log[a].account in Count(log[..b]).attempted
  {
    assert log[..b][..b - 1] == log[..b - 1];
    if a + 1 < b { StillAttempted(log, a, b - 1); }
  }

  lemma CapacityStep(capacity: nat, traversals: nat, more: nat, m: nat)
    requires capacity <= traversals * m && more <= m
    ensures capacity + more <= (traversals + 1) * m
  {
    assert (traversals + 1) * m == traversals * m + m;
  }

  /** With pools of at most `m` accounts the whole run looks at boundedly many accounts. */
  lemma {:induction false} CapacityBound(log: seq<Event>, m: nat)
    requires m >= 1 && forall n :: 0 <= n < |log| && log[n].TraversalStarted? ==> log[n].accountCount <= m
    ensures Count(log).capacity <= Count(log).traversals * m
  {
    if log != [] {
      var before, last := log[..|log| - 1], log[|log| - 1];
      CapacityBound(before, m);
      var t := Count(before);
      assert Count(log).capacity == t.capacity + (if last.TraversalStarted? then Max(1, last.accountCount) else 0);
      CapacityStep(t.capacity, t.traversals, if last.TraversalStarted? then Max(1, last.accountCount) else 0, m);
    }
  }

  // ---- The engine ----

  datatype Settings = Settings(
    budget: nat,
    blocked: set<nat>,
    isStreaming: bool,
    maxSameAccountRetries: nat,
    emptyResponseMaxRetries: nat,
    streamFailoverMax: nat,
    shortRetryThresholdMs: int,
    retryAllAccountsRateLimited: bool,
    retryAllAccountsMaxWaitMs: nat,
    retryAllAccountsMaxRetries: nat)

  datatype Reply =
    | Success(account: nat)
    | Upstream
    | ContextOverflow
    | Aborted
    | BudgetExhausted
    | PoolExhausted(count: nat, waitMs: int)

  datatype WorkspaceFate = NotDisabled | Untracked | Next | AllDisabled

  /** How one outbound request can end. `retrySame` is the failure policy's advice. */
  datatype Outcome =
    | UserAbort
    | NetworkError(retrySame: bool)
    | Overflow
    | Refused(status: int, rateLimitMs: Option<int>, unsupportedModel: bool, forceFallback: bool, fallback: bool,
              workspace: WorkspaceFate, retrySame: bool)
    | Answered(empty: bool, retrySame: bool)

  /** What a refusal means for the request loop: try this account again, or leave the loop. */
  datatype Turn = RetrySame | RetryShort | Leave(verdict: Verdict)

  datatype Verdict = Finished(reply: Reply) | NextAccount | ReleaseAccount(account: nat) | RestartWithFallback

  datatype TraversalEnd = Replied(reply: Reply) | Restart | PoolSpent

  predicate MayWait(s: Settings, count: nat, waitMs: int, retries: nat) {
    && s.retryAllAccountsRateLimited && count > 0 && waitMs > 0
    && (s.retryAllAccountsMaxWaitMs == 0 || waitMs <= s.retryAllAccountsMaxWaitMs)
    && retries < s.retryAllAccountsMaxRetries
  }

  /** Two tallies agree on everything the account traversal counts. */
  ghost predicate SameTraversal(x: Tally, y: Tally) {
    && x.traversals == y.traversals && x.capacity == y.capacity && x.selections == y.selections && x.rotations == y.rotations
    && x.fallbacks == y.fallbacks && x.waits == y.waits && x.longestWait == y.longestWait && x.attempted == y.attempted
  }

  /** What holds of every log of the engine. */
  ghost predicate Sound(t: Tally, s: Settings) {
    && t.fetches == t.primaries + |t.failovers| && t.fetches <= t.consumed <= s.budget
    && t.rotations + t.fallbacks <= t.primaries
    && (t.waits > 0 ==> s.retryAllAccountsRateLimited)
    && (s.retryAllAccountsMaxWaitMs > 0 ==> t.longestWait <= s.retryAllAccountsMaxWaitMs)
    && t.waits <= s.retryAllAccountsMaxRetries && t.emptyRetries <= s.emptyResponseMaxRetries && t.compactions <= 1
    && t.maxStreak <= 1 + s.maxSameAccountRetries + MAX_SHORT_RETRY_ATTEMPTS
    && t.fetchedFrom !! s.blocked
    && t.disciplined
  }

  lemma SoundAfterEmpty(t: Tally, s: Settings)
    requires Sound(t, s) && t.emptyRetries < s.emptyResponseMaxRetries
    ensures Counted(t, EmptyRetried) == t.(emptyRetries := t.emptyRetries + 1) && Sound(Counted(t, EmptyRetried), s)
  {
  }

  class Request {
    const settings: Settings
    var attemptsRemaining: nat
    var allRateLimitedRetries: nat
    var emptyResponseRetries: nat
    var pendingTrim: bool
    ghost var log: seq<Event>

    constructor (settings: Settings, pendingTrim: bool)
      ensures Valid() && this.settings == settings && log == []
    {
      this.settings := settings;
      this.pendingTrim := pendingTrim;
      attemptsRemaining, allRateLimitedRetries, emptyResponseRetries := settings.budget, 0, 0;
      log := [];
    }

    ghost function Total(): Tally
      reads this`log
    {
      Count(log)
    }

    /** The counters agree with the log, and every bound holds of it. */
    ghost predicate Valid()
      reads this
    {
      && Sound(Total(), settings)
      && Total().consumed + attemptsRemaining == settings.budget
      && Total().waits == allRateLimitedRetries && Total().emptyRetries == emptyResponseRetries
      && Total().compactions + (if pendingTrim then 1 else 0) <= 1
    }

    ghost method Note(e: Event)
      modifies this`log
      ensures log == old(log) + [e] && Total() == Counted(old(Total()), e)
    {
      ghost var was := log;
      log := log + [e];
      assert log[..|log| - 1] == was;
    }

    method TryConsumeOutboundRequestAttempt() returns (granted: bool)
      requires Valid()
      modifies this`attemptsRemaining, this`log
      ensures Valid()
      ensures granted <==> old(attemptsRemaining) > 0
      ensures attemptsRemaining == old(attemptsRemaining) - (if granted then 1 else 0)
      ensures Total() == if granted then Counted(old(Total()), AttemptConsumed) else old(Total())
    {
      if attemptsRemaining <= 0 { return false; }
      attemptsRemaining := attemptsRemaining - 1;
      Note(AttemptConsumed);
      return true;
    }

    /** One primary request: an attempt, then the fetch. */
    method Send(account: nat) returns (granted: bool)
      requires Valid() && account !in settings.blocked
      requires Total().streak < 1 + settings.maxSameAccountRetries + MAX_SHORT_RETRY_ATTEMPTS
      modifies this`attemptsRemaining, this`log
      ensures Valid() && SameTraversal(old(Total()), Total())
      ensures granted <==> old(attemptsRemaining) > 0
      ensures attemptsRemaining == old(attemptsRemaining) - (if granted then 1 else 0)
      ensures Total().primaries == old(Total().primaries) + (if granted then 1 else 0)
      ensures Total().failovers == old(Total().failovers)
      ensures granted ==> Total().streak == old(Total().streak) + 1 && log != [] && log[|log| - 1] == Primary(account)
    {
      granted := TryConsumeOutboundRequestAttempt();
      if granted { Note(Primary(account)); }
    }

    /** The branches of a response that is not ok, in the order the source takes them. */
    method JudgeRefusal(outcome: Outcome, sameRetries: nat, shortRetries: nat, hasRemainingAccounts: bool) returns (turn: Turn)
      requires outcome.Refused?
      ensures var decided := (outcome.unsupportedModel && hasRemainingAccounts && !outcome.forceFallback) || outcome.fallback;
              var serverError := 500 <= outcome.status < 600;
              var limited := !serverError && outcome.status == 429 && outcome.rateLimitMs.Some?;
              && (turn == Leave(RestartWithFallback) <==>
                    outcome.fallback && !(outcome.unsupportedModel && hasRemainingAccounts && !outcome.forceFallback))
              && (turn.Leave? && turn.verdict.ReleaseAccount? <==> !decided && outcome.workspace == Next)
              && (turn.RetrySame? <==>
                    !decided && outcome.workspace == NotDisabled && serverError && outcome.retrySame && sameRetries < settings.maxSameAccountRetries)
              && (turn.RetryShort? <==>
                    !decided && outcome.workspace == NotDisabled && limited && outcome.rateLimitMs.value <= settings.shortRetryThresholdMs
                    && shortRetries < MAX_SHORT_RETRY_ATTEMPTS)
              && (turn.Leave? && turn.verdict.Finished? <==>
                    !decided && ((outcome.workspace == Untracked && !hasRemainingAccounts)
                                 || (outcome.workspace == NotDisabled && !serverError && !limited)))
              && (turn.Leave? && turn.verdict.Finished? ==> turn.verdict.reply == Upstream)
    {
      if outcome.unsupportedModel && hasRemainingAccounts && !outcome.forceFallback { return Leave(NextAccount); }
      if outcome.fallback { return Leave(RestartWithFallback); }
      match outcome.workspace {
        case Untracked =>
          return Leave(if hasRemainingAccounts then NextAccount else Finished(Upstream));
        case Next =>
          var released: nat := *;   // the account's index now, which a removal may have shifted
          return Leave(ReleaseAccount(released));
        case AllDisabled =>
          return Leave(NextAccount);
        case NotDisabled =>
      }
      if 500 <= outcome.status < 600 {
        return if outcome.retrySame && sameRetries < settings.maxSameAccountRetries then RetrySame else Leave(NextAccount);
      }
      if outcome.status == 429 && outcome.rateLimitMs.Some? {
        return if outcome.rateLimitMs.value <= settings.shortRetryThresholdMs && shortRetries < MAX_SHORT_RETRY_ATTEMPTS then RetryShort
               else Leave(NextAccount);
      }
      return Leave(Finished(Upstream));
    }

    /** What the outcome of one request means for the loop. Only an empty answer changes the engine's state. */
    method Judge(account: nat, outcome: Outcome, sameRetries: nat, shortRetries: nat, hasRemainingAccounts: bool) returns (turn: Turn)
      requires Valid()
      modifies this`emptyResponseRetries, this`log
      ensures Valid() && Total() == old(Total()).(emptyRetries := emptyResponseRetries)
      ensures turn.RetrySame? ==> sameRetries < settings.maxSameAccountRetries
      ensures turn.RetryShort? ==> shortRetries < MAX_SHORT_RETRY_ATTEMPTS
      ensures turn.Leave? && turn.verdict.Finished? ==> log == old(log) && turn.verdict.reply in {Upstream, ContextOverflow, Aborted, Success(account)}
      ensures turn == Leave(Finished(Aborted)) <==> outcome.UserAbort?
      ensures turn == Leave(Finished(ContextOverflow)) <==> outcome.Overflow?
      ensures outcome.NetworkError? ==>
        turn == if outcome.retrySame && sameRetries < settings.maxSameAccountRetries then RetrySame else Leave(NextAccount)
      ensures turn == Leave(Finished(Success(account))) <==>
        outcome.Answered? && (settings.isStreaming || !outcome.empty || old(emptyResponseRetries) == settings.emptyResponseMaxRetries)
    {
      match outcome {
        case UserAbort =>
          return Leave(Finished(Aborted));
        case NetworkError(retrySame) =>
          return if retrySame && sameRetries < settings.maxSameAccountRetries then RetrySame else Leave(NextAccount);
        case Overflow =>
          return Leave(Finished(ContextOverflow));
        case Refused(_, _, _, _, _, _, _) =>
          turn := JudgeRefusal(outcome, sameRetries, shortRetries, hasRemainingAccounts);
        case Answered(empty, retrySame) =>
          turn := JudgeAnswer(account, empty, retrySame && sameRetries < settings.maxSameAccountRetries);
      }
    }

    /** An answer ends the request, unless it is empty and may be asked for again. */
    method JudgeAnswer(account: nat, empty: bool, maySame: bool) returns (turn: Turn)
      requires Valid()
      modifies this`emptyResponseRetries, this`log
      ensures Valid() && Total() == old(Total()).(emptyRetries := emptyResponseRetries)
      ensures if settings.isStreaming || !empty || old(emptyResponseRetries) == settings.emptyResponseMaxRetries
              then turn == Leave(Finished(Success(account))) && log == old(log)
              else turn == if maySame then RetrySame else Leave(NextAccount)
    {
      if settings.isStreaming || !empty || emptyResponseRetries >= settings.emptyResponseMaxRetries { return Leave(Finished(Success(account))); }
      RetryEmpty();
      return if maySame then RetrySame else Leave(NextAccount);
    }

    method RetryEmpty()
      requires Valid() && emptyResponseRetries < settings.emptyResponseMaxRetries
      modifies this`emptyResponseRetries, this`log
      ensures Valid() && emptyResponseRetries == old(emptyResponseRetries) + 1
      ensures Total() == old(Total()).(emptyRetries := emptyResponseRetries)
    {
      SoundAfterEmpty(Total(), settings);
      emptyResponseRetries := emptyResponseRetries + 1;
      Note(EmptyRetried);
    }

    /**
     * The request loop on one account. Each turn consumes an attempt, so the
     * loop ends; short rate limits, server errors, network errors and empty
     * answers retry the same account within their own limits.
     */
    method AttemptAccount(account: nat, attempted: nat, accountCount: nat) returns (verdict: Verdict)
      requires Valid() && account !in settings.blocked && Total().streak == 0
      modifies this`attemptsRemaining, this`emptyResponseRetries, this`log
      ensures Valid() && SameTraversal(old(Total()), Total()) && attemptsRemaining <= old(attemptsRemaining)
      ensures Total().primaries - old(Total().primaries) == old(attemptsRemaining) - attemptsRemaining
      ensures Total().failovers == old(Total().failovers)
      ensures verdict.ReleaseAccount? || verdict.RestartWithFallback? ==> attemptsRemaining < old(attemptsRemaining)
      ensures verdict.Finished? ==> !verdict.reply.PoolExhausted?
      ensures verdict == Finished(BudgetExhausted) ==> attemptsRemaining == 0
      ensures verdict.Finished? && verdict.reply.Success? ==>
        verdict.reply.account == account && log != [] && log[|log| - 1] == Primary(account)
    {
      var sameAccountRetryCount, shortRateLimitRetryCount := 0, 0;
      while true
        invariant Valid() && SameTraversal(old(Total()), Total()) && attemptsRemaining <= old(attemptsRemaining)
        invariant Total().primaries - old(Total().primaries) == old(attemptsRemaining) - attemptsRemaining
        invariant Total().failovers == old(Total().failovers)
        invariant sameAccountRetryCount <= settings.maxSameAccountRetries && shortRateLimitRetryCount <= MAX_SHORT_RETRY_ATTEMPTS
        invariant Total().streak == sameAccountRetryCount + shortRateLimitRetryCount
        decreases attemptsRemaining
      {
        var granted := Send(account);
        if !granted { return Finished(BudgetExhausted); }
        var outcome: Outcome := *;
        var turn := Judge(account, outcome, sameAccountRetryCount, shortRateLimitRetryCount, attempted < Max(1, accountCount));
        match turn {
          case Leave(v) => return v;
          case RetrySame => sameAccountRetryCount := sameAccountRetryCount + 1;
          case RetryShort => shortRateLimitRetryCount := shortRateLimitRetryCount + 1;
        }
      }
    }

    /** What happens to a selected account before, and if nothing stands in the way during, its requests. */
    method TryAccount(account: nat, attempted: nat, accountCount: nat) returns (verdict: Verdict)
      requires Valid() && Total().streak == 0
      modifies this
      ensures Valid() && SameTraversal(old(Total()), Total()) && attemptsRemaining <= old(attemptsRemaining)
      ensures Total().primaries - old(Total().primaries) == old(attemptsRemaining) - attemptsRemaining
      ensures Total().failovers == old(Total().failovers)
      ensures verdict.ReleaseAccount? || verdict.RestartWithFallback? ==> attemptsRemaining < old(attemptsRemaining)
      ensures verdict.Finished? ==> !verdict.reply.PoolExhausted?
      ensures verdict == Finished(BudgetExhausted) ==> attemptsRemaining == 0
      ensures verdict.Finished? && verdict.reply.Success? ==> log != [] && log[|log| - 1] == Primary(verdict.reply.account)
    {
      if account in settings.blocked { return NextAccount; }
      var unready: bool := *;         // refresh failed, no account id, or a cached entitlement block
      if unready { return NextAccount; }
      if pendingTrim {
        pendingTrim := false;
        Note(Compacted);
      }
      var deferred: bool := *;        // quota deferral, or the local token bucket is empty
      if deferred { return NextAccount; }
      verdict := AttemptAccount(account, attempted, accountCount);
    }

    /** Select an account, try it, and account for what became of it; `left` is the tried set afterwards. */
    method Visit(account: nat, attempted: set<nat>, accountCount: nat) returns (verdict: Verdict, left: set<nat>)
      requires Valid() && Total().attempted == attempted && account !in attempted
      modifies this
      ensures Valid() && Total().attempted == left && attemptsRemaining <= old(attemptsRemaining)
      ensures Total().traversals == old(Total().traversals) && Total().capacity == old(Total().capacity) && Total().waits == old(Total().waits)
      ensures Total().fallbacks == old(Total().fallbacks) + (if verdict.RestartWithFallback? then 1 else 0)
      ensures Total().failovers == old(Total().failovers)
      ensures Total().selections - Total().rotations - old(Total().selections) + old(Total().rotations) <= |left| - |attempted|
      ensures |left| <= |attempted| + 1
      ensures |left| == |attempted| + 1 || attemptsRemaining < old(attemptsRemaining)
      ensures verdict.RestartWithFallback? ==> attemptsRemaining < old(attemptsRemaining)
      ensures verdict.Finished? ==> !verdict.reply.PoolExhausted?
      ensures verdict == Finished(BudgetExhausted) ==> attemptsRemaining == 0
      ensures verdict.Finished? && verdict.reply.Success? ==> log != [] && log[|log| - 1] == Primary(verdict.reply.account)
    {
      left := attempted + {account};
      Note(Selected(account));
      verdict := TryAccount(account, |left|, accountCount);
      left := Settle(verdict, left);
    }

    /** A rotated workspace takes an account off the tried set; a fallback starts the pool over. */
    method Settle(verdict: Verdict, tried: set<nat>) returns (left: set<nat>)
      requires Valid() && Total().attempted == tried
      requires verdict.ReleaseAccount? || verdict.RestartWithFallback? ==> Total().rotations + Total().fallbacks < Total().primaries
      modifies this`log
      ensures Valid()
      ensures left == if verdict.ReleaseAccount? then tried - {verdict.account} else tried
      ensures |tried| - (if verdict.ReleaseAccount? then 1 else 0) <= |left| <= |tried|
      ensures Total() == old(Total()).(
        attempted := left,
        rotations := old(Total().rotations) + (if verdict.ReleaseAccount? then 1 else 0),
        fallbacks := old(Total().fallbacks) + (if verdict.RestartWithFallback? then 1 else 0))
      ensures !verdict.ReleaseAccount? && !verdict.RestartWithFallback? ==> log == old(log)
    {
      left := tried;
      match verdict {
        case Finished(_) =>
        case NextAccount =>
        case ReleaseAccount(released) =>
          SmallerByOne(left, released);
          left := left - {released};
          Note(WorkspaceRotated(released));
        case RestartWithFallback =>
          Note(FellBack);
      }
    }

    /**
     * One pass over the pool. It ends although a rotated workspace takes its
     * account off the tried set: that costs an attempt.
     */
    method Traverse() returns (end: TraversalEnd)
      requires Valid()
      modifies this
      ensures Valid() && attemptsRemaining <= old(attemptsRemaining)
      ensures Total().failovers == old(Total().failovers)
      ensures Total().traversals == old(Total().traversals) + 1 && Total().waits == old(Total().waits)
      ensures Total().fallbacks == old(Total().fallbacks) + (if end.Restart? then 1 else 0)
      ensures Total().selections - Total().rotations - Total().capacity
           <= old(Total().selections) - old(Total().rotations) - old(Total().capacity)
      ensures end.Restart? ==> attemptsRemaining < old(attemptsRemaining)
      ensures end.Replied? ==> !end.reply.PoolExhausted?
      ensures end == Replied(BudgetExhausted) ==> attemptsRemaining == 0
      ensures end.Replied? && end.reply.Success? ==> log != [] && log[|log| - 1] == Primary(end.reply.account)
    {
      var accountCount: nat := *;
      var attempted: set<nat> := {};
      Note(TraversalStarted(accountCount));
      ghost var start := Total();
      while |attempted| < Max(1, accountCount)
        invariant Total().failovers == old(Total().failovers)
        invariant Valid() && attemptsRemaining <= old(attemptsRemaining) && allRateLimitedRetries == old(allRateLimitedRetries)
        invariant Total().attempted == attempted && |attempted| <= Max(1, accountCount)
        invariant Total().traversals == start.traversals && Total().capacity == start.capacity && Total().fallbacks == start.fallbacks
        invariant Total().selections - Total().rotations <= start.selections - start.rotations + |attempted|
        decreases attemptsRemaining, Max(1, accountCount) - |attempted|
      {
        var choice: Option<nat> := *;   // the session's preferred account, or the hybrid selector's
        match choice {
          case None => break;
          case Some(index) => if index in attempted { break; }
        }
        var account := choice.value;
        var verdict;
        verdict, attempted := Visit(account, attempted, accountCount);
        if verdict.Finished? { return Replied(verdict.reply); }
        if verdict.RestartWithFallback? { return Restart; }
      }
      return PoolSpent;
    }

    /**
     * The whole engine. It ends on every sequence of outcomes: a traversal is
     * repeated only after a model fallback, which has cost an attempt, or
     * after one of finitely many waits.
     */
    method Handle() returns (reply: Reply)
      requires Valid() && log == []
      modifies this
      ensures Valid() && Total().failovers == []
      ensures Total().traversals == 1 + Total().fallbacks + Total().waits
      ensures Total().selections <= Total().capacity + Total().rotations
      ensures reply.BudgetExhausted? ==> attemptsRemaining == 0
      ensures reply.PoolExhausted? ==> !MayWait(settings, reply.count, reply.waitMs, Total().waits)
      ensures reply.Success? ==> log != [] && log[|log| - 1] == Primary(reply.account)
    {
      while true
        invariant Valid() && Total().traversals == Total().fallbacks + Total().waits && Total().failovers == []
        invariant Total().selections <= Total().capacity + Total().rotations
        decreases attemptsRemaining + (settings.retryAllAccountsMaxRetries - allRateLimitedRetries)
      {
        var end := Traverse();
        match end {
          case Replied(r) =>
            return r;
          case Restart =>
          case PoolSpent =>
            var waitMs: nat := *;
            var count: nat := *;
            if !MayWait(settings, count, waitMs, allRateLimitedRetries) { return PoolExhausted(count, waitMs); }
            Note(Waited(waitMs));
            allRateLimitedRetries := allRateLimitedRetries + 1;
        }
      }
    }

    /** After a streaming success: failovers draw on what is left of the same budget. */
    method StreamFailover(order: seq<nat>)
      requires Valid() && settings.isStreaming && settings.streamFailoverMax <= MAX_STREAM_FAILOVERS
      modifies this`attemptsRemaining, this`log
      ensures Valid() && SameTraversal(old(Total()), Total()) && Total().primaries == old(Total().primaries)
      ensures |Total().failovers| - |old(Total().failovers)| <= if settings.streamFailoverMax == 0 then 0 else |order|
      ensures |Total().failovers| - |old(Total().failovers)| <= old(attemptsRemaining) - attemptsRemaining
    {
      var failovers := 0;
      while failovers < settings.streamFailoverMax
        invariant failovers <= settings.streamFailoverMax
        invariant Valid() && SameTraversal(old(Total()), Total()) && Total().primaries == old(Total().primaries)
        invariant |Total().failovers| - |old(Total().failovers)| <= if failovers == 0 then 0 else |order|
        invariant |Total().failovers| - |old(Total().failovers)| <= old(attemptsRemaining) - attemptsRemaining
      {
        var stalled: bool := *;
        if !stalled { break; }
        failovers := failovers + 1;
        var recovered, tried := TryCandidates(order);
        SubsequenceLength(tried, order);
        if !recovered { break; }
      }
    }

    /**
     * One failover: the first candidate that answers. `tried` are the accounts
     * fetched from, each standing later in `order` than the one before; every
     * one cost an attempt.
     */
    method TryCandidates(order: seq<nat>) returns (recovered: bool, ghost tried: seq<nat>)
      requires Valid()
      modifies this`attemptsRemaining, this`log
      ensures Valid() && SameTraversal(old(Total()), Total()) && Total().primaries == old(Total().primaries)
      ensures Subsequence(tried, order)
      ensures Total().failovers == old(Total().failovers) + tried
      ensures attemptsRemaining <= old(attemptsRemaining) - |tried|
      ensures recovered ==> tried != []
    {
      tried := [];
      for k := 0 to |order|
        invariant Valid() && SameTraversal(old(Total()), Total()) && Total().primaries == old(Total().primaries)
        invariant Subsequence(tried, order[..k])
        invariant Total().failovers == old(Total().failovers) + tried
        invariant attemptsRemaining <= old(attemptsRemaining) - |tried|
      {
        var attempt := TryCandidate(order[k]);
        OneMore(tried, order, k);
        if attempt.Fetched? {
          tried := tried + [order[k]];
          if attempt.answered { return true, tried; }
        }
        if attempt.OutOfBudget? { return false, tried; }
      }
      assert order[..|order|] == order;
      return false, tried;
    }

    /** One candidate: skipped, refused for want of budget, or fetched from. */
    method TryCandidate(account: nat) returns (attempt: CandidateTry)
      requires Valid()
      modifies this`attemptsRemaining, this`log
      ensures Valid() && SameTraversal(old(Total()), Total()) && Total().primaries == old(Total().primaries)
      ensures attemptsRemaining <= old(attemptsRemaining) - (if attempt.Fetched? then 1 else 0)
      ensures Total().failovers == old(Total().failovers) + (if attempt.Fetched? then [account] else [])
      ensures attempt.Fetched? ==> account !in settings.blocked
      ensures attempt.OutOfBudget? ==> old(attemptsRemaining) == 0
    {
      var available: bool := *;
      if account in settings.blocked || !available { return Skipped; }
      var granted := TryConsumeOutboundRequestAttempt();
      if !granted { return OutOfBudget; }
      var hasToken: bool := *;
      if !hasToken { return Skipped; }
      Note(Failover(account));
      var answered: bool := *;
      return Fetched(answered);
    }
  }

  datatype CandidateTry = Skipped | OutOfBudget | Fetched(answered: bool)

  /** `xs` is `ys` with some elements left out. */
  ghost predicate Subsequence(xs: seq<nat>, ys: seq<nat>) {
    xs == [] || (ys != [] && (Subsequence(xs, Front(ys)) || (Last(xs) == Last(ys) && Subsequence(Front(xs), Front(ys)))))
  }

  function Front(xs: seq<nat>): seq<nat>
    requires xs != []
  {
    xs[..|xs| - 1]
  }

  function Last(xs: seq<nat>): nat
    requires xs != []
  {
    xs[|xs| - 1]
  }

  /** One more place of the order, fetched from or not. */
  lemma OneMore(xs: seq<nat>, ys: seq<nat>, k: nat)
    requires k < |ys| && Subsequence(xs, ys[..k])
    ensures Subsequence(xs, ys[..k + 1]) && Subsequence(xs + [ys[k]], ys[..k + 1])
    ensures Subsequence(xs, ys) && Subsequence(xs + [ys[k]], ys)
  {
    assert Front(ys[..k + 1]) == ys[..k] && Front(xs + [ys[k]]) == xs;
    Longer(xs, ys, k + 1);
    Longer(xs + [ys[k]], ys, k + 1);
  }

  lemma {:induction false} Longer(xs: seq<nat>, ys: seq<nat>, k: nat)
    requires k <= |ys| && Subsequence(xs, ys[..k])
    ensures Subsequence(xs, ys)
    decreases |ys|
  {
    if k == |ys| {
      assert ys[..k] == ys;
    } else {
      assert Front(ys)[..k] == ys[..k];
      Longer(xs, Front(ys), k);
    }
  }

  lemma {:induction false} SubsequenceLength(xs: seq<nat>, ys: seq<nat>)
    requires Subsequence(xs, ys)
    ensures |xs| <= |ys|
    decreases |ys|
  {
    if xs != [] { SubsequenceLength(if Subsequence(xs, Front(ys)) then xs else Front(xs), Front(ys)); }
  }

  /** The account that answered first, then at most one other. */
  function CandidateOrder(primary: nat, alternate: Option<nat>): (order: seq<nat>)
    ensures 1 <= |order| <= MAX_STREAM_FAILOVER_CANDIDATES
    ensures forall i, j :: 0 <= i < j < |order| ==> order[i] != order[j]
  {
    [primary] + (if alternate.Some? && alternate.value != primary then [alternate.value] else [])
  }

  lemma SmallerByOne(s: set<nat>, x: nat)
    ensures |s| - 1 <= |s - {x}| <= |s|
  {
    if x !in s { assert s - {x} == s; }
  }

  /** What one request of a client costs, from first traversal to last failover. */
  method Fetch(accountCount: nat, configured: Settings, pendingTrim: bool, alternate: Option<nat>) returns (reply: Reply, request: Request)
    ensures request.Valid() && request.Total().fetches <= MAX_TOTAL_OUTBOUND_REQUEST_ATTEMPTS
    ensures request.settings == configured.(
      budget := AttemptBudget(accountCount, configured.maxSameAccountRetries, configured.emptyResponseMaxRetries, configured.streamFailoverMax),
      streamFailoverMax := CapStreamFailoverMax(configured.streamFailoverMax))
    ensures request.Total().fetches - request.Total().primaries <= MAX_STREAM_FAILOVER_CANDIDATES
    ensures reply.BudgetExhausted? ==> request.Total().consumed == request.settings.budget
    ensures request.Total().selections <= request.Total().capacity + request.Total().rotations
    ensures request.Total().traversals == 1 + request.Total().fallbacks + request.Total().waits
  {
    var budget := AttemptBudget(accountCount, configured.maxSameAccountRetries, configured.emptyResponseMaxRetries, configured.streamFailoverMax);
    request := new Request(configured.(budget := budget, streamFailoverMax := CapStreamFailoverMax(configured.streamFailoverMax)), pendingTrim);
    reply := request.Handle();
    if reply.Success? && request.settings.isStreaming { request.StreamFailover(CandidateOrder(reply.account, alternate)); }
  }

  lemma ScaleBound(capacity: nat, traversals: nat, bound: nat, m: nat)
    requires capacity <= traversals * m && traversals <= bound
    ensures capacity <= bound * m
  {
    MulMonotone(m, traversals, bound);
  }

  lemma WorkArithmetic(t: Tally, s: Settings, m: nat)
    requires t.capacity <= t.traversals * m && t.traversals <= 1 + s.budget + s.retryAllAccountsMaxRetries
    requires t.selections <= t.capacity + t.rotations && t.rotations <= s.budget
    ensures t.selections <= (1 + s.budget + s.retryAllAccountsMaxRetries) * m + s.budget
  {
    ScaleBound(t.capacity, t.traversals, 1 + s.budget + s.retryAllAccountsMaxRetries, m);
  }

  lemma SoundCounts(t: Tally, s: Settings)
    requires Sound(t, s) && t.traversals == 1 + t.fallbacks + t.waits
    ensures t.traversals <= 1 + s.budget + s.retryAllAccountsMaxRetries && t.rotations <= s.budget
  {
  }

  /** In pools of at most `m` accounts the engine selects at most this many times, whatever the environment does. */
  lemma WorkBound(log: seq<Event>, s: Settings, m: nat)
    requires m >= 1 && forall n :: 0 <= n < |log| && log[n].TraversalStarted? ==> log[n].accountCount <= m
    requires Sound(Count(log), s) && Count(log).traversals == 1 + Count(log).fallbacks + Count(log).waits
    requires Count(log).selections <= Count(log).capacity + Count(log).rotations
    ensures Count(log).selections <= (1 + s.budget + s.retryAllAccountsMaxRetries) * m + s.budget
  {
    CapacityBound(log, m);
    SoundCounts(Count(log), s);
    WorkArithmetic(Count(log), s, m);
  }
}
