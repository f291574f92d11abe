# Admission and retry engine: a Dafny model

codex-multi-auth keeps a pool of accounts and decides, request by request,
which credential may carry it, for how long each one is blocked, and when a
retry loop must stop. This project models that machinery and proves what it
keeps over whole runs: the pool and its pointers, the rate-limit and pin
protocols shared with the CLI, the circuit breaker, the fetch engine, the
limiters and schedulers, the stores edited by several processes, and the model
router. `dafny verify dfyconfig.toml` checks everything.

Time is an integer handed to each operation. A network answer, a delay, a
random id, the choice of the hybrid selector and the scheduler's choice of the
next process or worker are arbitrary: they are parameters, steps of a schedule,
or nondeterministic values inside a method. A store on disk is one value.

| file | part of the source |
|---|---|
| `Accounts.dfy`, `AccountState.dfy`, `RoundRobin.dfy` | `AccountManager`: selection, waits, pointers, removal |
| `RateLimits.dfy`, `PinProtocol.dfy` | rejections against switches; pin and generation on disk |
| `CircuitBreaker.dfy` | the breaker, its release closures, and runs of both |
| `FetchEngine.dfy` | the plugin's `fetch` loop with its attempt budget |
| `AuthRateLimit.dfy`, `QuotaScheduler.dfy` | sliding window; preemptive deferral |
| `CasStore.dfy`, `TokenStore.dfy`, `AccountPolicy.dfy`, `QuotaCache.dfy` | compare-and-swap stores and their merges |
| `ImportMerge.dfy`, `ImportPreview.dfy` | import deduplication and merge |
| `MapWithConcurrency.dfy` | the worker pool |
| `ModelRoute.dfy` | route parser, resolver, visible union |

Imperative code appears as classes and methods proved against functions and
predicates on values; the lemmas state what is true of those over every input
or every run.

## Where the code does not do what one might expect

Each of these is proved, with the exact condition.

- A breaker with no probe slot and a positive reset timeout announces
  availability at the end of the timeout and then rejects
  (`Breaker.AgreementCondition`).
- A login limit below one still admits the first attempt of an account without
  a record (`AuthRateLimit.GuaranteeCondition`).
- A deferral cap below the cache lifetime makes announced waits too short
  (`QuotaScheduler.LongEnoughCondition`), and with snapshots from the future no
  cap is large enough (`QuotaScheduler.OnlyOffIsSafe`).
  `QuotaScheduler.FallsShortCondition` says which snapshots fall short.
- Whether a priming failure is reported can depend on the order of the
  observations (`QuotaCache.FailureOrderCondition`).
- A quota save that lost an attempt can keep an older observation over a newer
  one when it is retried (`QuotaCache.NamespaceRetryCondition`,
  `QuotaCache.RetryOverrides`).
- The pin is read as an index and saved as an account, so a manager whose list
  differs from the disk's can move or clear it
  (`PinProtocol.SaveVerdict`, `PinProtocol.NoLossCondition`). Removing an
  account that does not stand behind the pinned one does so
  (`PinProtocol.RemovalVerdict`), and two managers that add accounts can bring
  back the account pinned before the last switch
  (`PinProtocol.OlderAccountCanReturn`).
- A CLI command chooses its generation before it takes the storage lock, so two
  commands can commit the same one. A manager that heard the first then saves
  its pin over the second (`PinProtocol.TiedCommandIsLost`).
  `PinProtocol.NoLossCondition` says exactly when a choice is lost, and without
  tied commands, additions and removals none is (`PinProtocol.NoRollback`).
- The visible union can list a name that the parser rejects
  (`ModelRoute.UnionAgreement`, `ModelRoute.ListedButNotRoutable`).
- The announced wait ignores workspaces, and the plugin asks for it without the
  accounts its selector blocks, so that no account may be selectable when it is
  over (`AccountState.HonestWaitCondition`,
  `AccountState.NoWorkspaceNoSelection`).
- `markSwitched` on an object that has left the pool can leave an active
  pointer out of range; `Accounts.AccountManager.MarkSwitched` says exactly when,
  and `Accounts.SwitchToRemoved` reaches it.

`stampUpdatedAt` lets an equal clock reading pass unchanged, as its
documentation says, so `AccountPolicy.StampsNeverFall` promises that stamps do
not go back, not that they grow.

## Model

| member | source | states |
|---|---|---|
| RateLimits.RejectionBlocksItsOwnKind | lib/accounts.ts:1531-1549 | every rejection moves a deadline that a selection of the same family and model consults; a reserve-model rejection moves none that ordinary models consult |
| RateLimits.ReconcileIdempotent | lib/accounts.ts:1782-1809 | reconciling with the same disk state twice, at any times, equals once; the generation becomes the larger of the two |
| RateLimits.RejectionSurvives | lib/accounts.ts:920-943 | after a rejection made knowing generation g, no run of rejections, removals of other accounts and reconciliations of generations up to g takes the block back before its deadline |
| RateLimits.DeadlinesBounded | lib/accounts.ts:1494-1501 | from a freshly loaded pool, whatever was stored, no deadline of any account (nor any pending one) ever lies more than one hour ahead, removals included |
| RateLimits.PendingIsChain | lib/accounts.ts:1502-1562 | over every run, removals included, the pending entry of an account still in the pool is what its history says, wherever it has moved to: unreadable recordings linked by gaps of at most 30 s since the order was last settled, each key at its latest deadline |
| RateLimits.SwitchLeavesTheChain | lib/accounts.ts:908-943 | a newer switch, after any such run, leaves exactly the chain's keys with their latest deadlines if the last unreadable recording is at most 30 s old, nothing otherwise, and touches no other account |
| RateLimits.Stands | lib/accounts.ts:2173-2232 | through every run an account that was not removed stands in the pool at the place the removals before it leave it |
| PinProtocol.AdoptedIsReconciled | lib/accounts.ts:1782-1809 | the selection part of observing and of reconciling, as functions of the disk's selection and the pool's size |
| PinProtocol.GenerationFollowsCli | lib/accounts.ts:1870-1894 | in every interleaving of CLI commands, loads, saves with and without conflicts, failed reads, observations, removals and additions by any number of managers, the generation on disk is the newest the CLI wrote, so it never goes down, and no manager runs ahead of it |
| PinProtocol.NothingOlder | lib/accounts.ts:920-943 | in every such run, with pools of any size, a manager at the disk's generation holds no pin or one the disk has shown since the last switch: no selection from before it is saved again |
| PinProtocol.StalePinIsIrrelevant | lib/accounts.ts:1782-1809 | what a manager that missed a switch saves does not depend on the pin it held |
| PinProtocol.SaveVerdict | lib/storage/snapshot-merge.ts:150-187 | a save leaves the pinned account as it is if and only if its merge conflicts, or the manager made no choice of its own or the same one and the account is still stored, or nothing is pinned and its choice is not stored; otherwise it pins the manager's choice or nothing |
| PinProtocol.NoLossCondition | lib/accounts.ts:2373-2449 | in every run, two commands with one generation included, the disk pins the CLI's last choice at every moment if and only if every save met that condition when it was made |
| PinProtocol.NoRollback | lib/accounts.ts:2435-2449 | while no account is added or removed and no command commits the generation the disk already holds, every interleaving of switches, loads, saves and failures leaves the CLI's last choice pinned, whatever the pins |
| PinProtocol.UniformStep | lib/accounts.ts:1870-1894 | one step of any process, if it is no command with a tied generation, keeps all inventories equal and every manager at the disk's generation on the disk's account |
| PinProtocol.TiedCommandIsLost | lib/codex-manager/persist-selected-account.ts:142-156 | two commands that read the same generation before the lock: a run in which a manager that heard the first saves its pin over the second |
| PinProtocol.RemovalVerdict | lib/accounts.ts:2173-2230 | a manager in step with the disk that removes one account and saves keeps the pinned account if and only if nothing is pinned or the removed one stood behind it |
| PinProtocol.OlderAccountCanReturn | lib/storage/snapshot-merge.ts:171-187 | from two loaded managers that each add and save an account, a run in which the last switch is misread and the account of the switch before is pinned again |
| PinProtocol.StartsUniform | lib/accounts.ts:543-561 | freshly loaded managers agree with the disk, so the results above apply from the start |
| AccountState.SweepingIsInvisible | lib/accounts.ts:852-867 | dropping expired deadlines and cooldowns while looking at an account changes no availability answer, now or later |
| AccountState.WaitIsFirstFree | lib/accounts.ts:2120-2148 | an account is free after a delay if and only if the delay reaches the longest of its quota, cooldown and breaker waits |
| AccountState.MinOfMaxes | lib/accounts.ts:2117-2151 | the minimum over accounts of those maxima is the first instant at which some enabled, valid, non-excluded account has no live block |
| AccountState.HonestWaitCondition | lib/accounts.ts:2094-2152 | every scan made once the announced wait has passed finds an account if and only if some account that is enabled, valid, not blocked for the scan and with an enabled workspace is waited for no longer than every account the wait counts, or for no time if it counts none |
| AccountState.NoWorkspaceNoSelection | lib/accounts.ts:2607-2612 | a pool for which it does not: wait zero is announced and no scan ever succeeds |
| Accounts.AccountManager.GetMinWaitTimeForFamily | lib/accounts.ts:2094-2152 | the two-pass computation returns exactly that first instant, or zero when no account is eligible, and only drops expired marks |
| Accounts.AccountManager.WaitOf | lib/accounts.ts:2121-2148 | the longest pending wait of one account equals its exact wait; none means zero |
| RoundRobin.FirstIsUnique | lib/accounts.ts:1035-1055 | the first usable account in cyclic order is determined |
| RoundRobin.NoStarvation | lib/accounts.ts:1026-1059 | an account usable at `count` consecutive calls is picked by one of them, no later than its cyclic distance from the cursor, and all calls before that succeed |
| RoundRobin.FairTurns | lib/accounts.ts:1061-1093 | between two picks of one account every account that stayed usable had a turn |
| RoundRobin.DrainsFirst | lib/accounts.ts:1147-1172 | under drain-first selection the active account changes only at a call at which it was not usable, and nothing is picked only if nothing is usable |
| RoundRobin.StaysUntilDrained | lib/accounts.ts:1098-1108 | a picked account is picked by every later call as long as it stays usable |
| Accounts.AccountManager.constructor | lib/accounts.ts:602-703 | a loaded pool is valid, its stored deadlines bounded, its pin hydrated only if in range, its pointers at the stored positions modulo the pool size |
| Accounts.AccountManager.ClearExpiredRateLimits | lib/accounts/rate-limits.ts:117-126 | the loop over the keys drops exactly the deadlines that have passed, on that account only |
| Accounts.AccountManager.IsAccountCoolingDown | lib/accounts.ts:1586-1593 | cooling exactly while the cooldown lies ahead; an expired one is cleared |
| Accounts.AccountManager.IsRateLimitedForFamily | lib/accounts/rate-limits.ts:146-165 | limited if and only if some consulted deadline lies ahead, with the reserve model's exception |
| Accounts.AccountManager.IsUsable | lib/accounts.ts:852-867 | the shared usability test, with the sweeping it does on the way |
| Accounts.AccountManager.ScanFrom | lib/accounts.ts:1035-1056 | the scan takes the first usable account in cyclic order from `start`, none if and only if none is usable, and otherwise only drops expired marks |
| Accounts.AccountManager.GetCurrentOrNextForFamily | lib/accounts.ts:1026-1059 | first usable from the cursor; cursor moves past it and it becomes active; other families and accounts untouched |
| Accounts.AccountManager.GetNextForFamily | lib/accounts.ts:1061-1093 | the same round robin, leaving the active pointer alone |
| Accounts.AccountManager.GetCurrentOrNextForFamilySequential | lib/accounts.ts:1120-1173 | first usable unblocked account from the active one; the cursor moves only when the active account changes |
| Accounts.AccountManager.GetActiveIndexForFamily | lib/accounts.ts:804-823 | the first enabled account at or after the stored pointer, -1 if and only if none is enabled |
| Accounts.AccountManager.MarkSwitched | lib/accounts.ts:1344-1361 | whole new state for a pool member or a stale handle; the pointers stay valid if and only if the recorded position exists |
| Accounts.SwitchToRemoved | lib/accounts.ts:1344-1361 | switching to an account object kept across its own removal leaves the active pointer out of range if and only if that account was the last one |
| Accounts.AccountManager.SetActiveIndex | lib/accounts.ts:974-989 | succeeds exactly for an enabled account in range, moving every family's cursor and pointer to it |
| Accounts.AccountManager.FindNextEnabled | lib/accounts.ts:2159-2171 | first enabled account from a start taken modulo the pool size, -1 if and only if none |
| Accounts.AccountManager.SetAccountEnabled | lib/accounts.ts:2328-2371 | one account toggled, its health-disabled workspaces revived when re-enabled; a pointer to a disabled account moves to the next enabled one if there is one, all others stay |
| Accounts.AccountManager.RemoveAccount | lib/accounts.ts:2173-2318 | removes exactly the named account, renumbers, moves every pointer by the rules below and stamps exactly the accounts that took over as active |
| Accounts.PointersFollowAccounts | lib/accounts.ts:2250-2305 | after a removal every cursor and active pointer is in range and names the same account as before; off the removed one the cursor names its cyclic successor and the active pointer an enabled survivor, -1 only if none is enabled |
| Accounts.RemovalIsSplice | lib/accounts.ts:2206-2232 | to the rate-limit protocol a removal is a splice of its pool: every other account keeps its limits and its pending entry |
| Accounts.AccountManager.ApplyManualSelection | lib/accounts.ts:920-943 | pin, generation and every account's limits become what the selection rule says; nothing else changes |
| Accounts.AccountManager.ReconcileSelectionFromDisk | lib/accounts.ts:1782-1809 | a readable disk state is applied and the pin range-checked; an unreadable one changes nothing and is reported |
| Accounts.AccountManager.MarkRateLimitedWithReason | lib/accounts.ts:1461-1562 | observes the selection first, then records the rejection on the named account if the pool holds it, keeping it pending exactly when the selection was unreadable |
| Breaker.AdmissionAgrees | lib/circuit-breaker.ts:56-127 | with at least one probe slot, admission, `isAvailable` and a zero `getTimeUntilAvailable` agree in every state, and a rejection carries that time |
| Breaker.AgreementCondition | lib/circuit-breaker.ts:74-91 | they agree in all states if and only if there is a probe slot or the reset timeout is not positive |
| Breaker.WaitIsExact | lib/circuit-breaker.ts:114-188 | a delay makes the breaker available if and only if it reaches the announced time |
| Breaker.CircuitBreaker.TryCanExecute | lib/circuit-breaker.ts:56-104 | the method's new state, answer and closure are those of the specification; the closure belongs to the window that admitted it |
| Breaker.CircuitBreaker.IsAvailable | lib/circuit-breaker.ts:114-127 | answers the specification's availability, changing nothing |
| Breaker.CircuitBreaker.GetTimeUntilAvailable | lib/circuit-breaker.ts:175-188 | answers the specification's remaining time, changing nothing |
| Breaker.CircuitBreaker.ResetToClosed | lib/circuit-breaker.ts:219-225 | closes, forgets failures and starts a fresh probe window |
| Breaker.CircuitBreaker.RecordSuccess | lib/circuit-breaker.ts:129-139 | half-open closes and forgets failures, closed prunes, open ignores |
| Breaker.CircuitBreaker.RecordFailure | lib/circuit-breaker.ts:141-154 | prunes, records, and opens from half-open or at the threshold |
| Breaker.ProbeRelease.Release | lib/circuit-breaker.ts:93-99 | frees one slot, only the first time and only in its own window |
| BreakerRuns.SlotLedger | lib/circuit-breaker.ts:92-99 | over every run, whatever the clock does, the slot counter is the number of unreleased probes of the current window and lies in 0..max |
| BreakerRuns.StaleReleaseIsNoop | lib/circuit-breaker.ts:95-99 | a second release, or one from an old window, leaves the breaker as it was |
| BreakerRuns.LoadBound | lib/circuit-breaker.ts:74-92 | over every run with a non-decreasing clock the probes never released number at most max times one plus the whole reset timeouts since the first half-open window |
| FetchEngine.AttemptBudget | lib/request/request-attempt-budget.ts:21-60 | the budget lies in 1..6, and below 6 it is at least the number of accounts |
| FetchEngine.Request.TryConsumeOutboundRequestAttempt | index.ts:1269-1290 | grants exactly while attempts remain, taking one |
| FetchEngine.Request.JudgeRefusal | index.ts:1876-2460 | which of retry, short retry, next account, release, fallback and reply a failed response leads to, in both directions |
| FetchEngine.Request.Judge | index.ts:1748-2952 | the same for every outcome; only a non-streaming empty answer within its own limit changes state |
| FetchEngine.Request.AttemptAccount | index.ts:1677-2461 | the request loop ends; each turn costs one attempt; budget exhaustion is reported only with nothing left; releasing or restarting has cost an attempt |
| FetchEngine.Request.TryAccount | index.ts:1408-1676 | a blocked, unready or deferred account costs no attempt; the compaction runs at most once |
| FetchEngine.Request.Visit | index.ts:1404-1407 | one selection, and what its verdict does to the tried set: smaller only at the price of an attempt |
| FetchEngine.Request.Traverse | index.ts:1299-1410 | a traversal ends although rotation deletes from the tried set; selections are paid for by pool size and rotations |
| FetchEngine.Request.Handle | index.ts:3049-3119 | the engine ends on every sequence of outcomes; one traversal plus one per fallback and wait; waits only as configured, and giving up on the pool only when no further wait is allowed; success names the account of the last request |
| FetchEngine.Request.StreamFailover | index.ts:2466-2816 | failover fetches draw on the same budget, avoid blocked accounts and number at most one per candidate and one per attempt left |
| FetchEngine.Request.TryCandidates | index.ts:2502-2807 | the accounts one failover fetches from are a subsequence of the candidate order, each at the price of an attempt |
| FetchEngine.Request.TryCandidate | index.ts:2502-2620 | a fetch is made only from an unblocked candidate and with an attempt left; without one the failover gives up |
| FetchEngine.CandidateOrder | lib/request/request-resilience.ts:85-105 | the answering account first, then at most one other: at most two, all different |
| FetchEngine.Fetch | index.ts:1249-1290 | from first traversal to last failover at most six outbound fetches, at most two of them failovers, never to a blocked account, at most one compaction, at most 1 + retries + 3 primary requests in a row on one selection |
| FetchEngine.RetriedOnlyAfterRotation | index.ts:2141-2178 | within a traversal an account is selected again only after its workspace was rotated in between |
| FetchEngine.WorkBound | index.ts:1358-1410 | in pools of at most m accounts a run selects at most (1 + budget + waits) m + budget times |
| AuthRateLimit.AuthRateLimiter.CanAttemptAuth | lib/auth-rate-limit.ts:35-47 | admits an unknown account, and a known one exactly while its live attempts are below the limit; prunes only that account |
| AuthRateLimit.AuthRateLimiter.RecordAuthAttempt | lib/auth-rate-limit.ts:49-61 | prunes and appends the attempt to that account only |
| AuthRateLimit.AuthRateLimiter.ResetAuthRateLimit | lib/auth-rate-limit.ts:98-101 | forgets that account only |
| AuthRateLimit.AuthRateLimiter.GetTimeUntilReset | lib/auth-rate-limit.ts:77-96 | the time until the oldest live attempt leaves the window, zero without one |
| AuthRateLimit.WindowGuarantee | lib/auth-rate-limit.ts:30-61 | in the unbounded history of admitted attempts every interval of the window's length holds at most the limit |
| AuthRateLimit.GuaranteeCondition | lib/auth-rate-limit.ts:35-47 | the guarantee holds for all runs if and only if the limit is positive, or zero with an empty window |
| AuthRateLimit.WaitIsExact | lib/auth-rate-limit.ts:77-96 | at the limit, the announced delay is the first after which an attempt is admitted |
| AuthRateLimit.NeverOverLimit | lib/auth-rate-limit.ts:49-61 | an account recorded only when admitted never holds more live attempts than the limit |
| QuotaScheduler.AnnouncedWaitSuffices | lib/preemptive-quota-scheduler.ts:275-348 | with a cap covering the cache lifetime and a snapshot not from the future, after the announced wait the same snapshot never defers again, and the wait is at most one hour |
| QuotaScheduler.LongEnoughCondition | lib/preemptive-quota-scheduler.ts:275-348 | this holds for all snapshots if and only if the scheduler is off or the cap covers the cache lifetime |
| QuotaScheduler.DefersUntil | lib/preemptive-quota-scheduler.ts:275-348 | a snapshot defers exactly until one instant, read off its stamp, its resets and the thresholds |
| QuotaScheduler.OneLookSuffices | lib/preemptive-quota-scheduler.ts:275-348 | an announced wait suffices for good if and only if the snapshot does not defer at its end |
| QuotaScheduler.FallsShortCondition | lib/preemptive-quota-scheduler.ts:39-61 | for every snapshot and instant: the announced wait is too short if and only if the snapshot defers, the cap ends before its deferral does, and the wait does not follow trusted resets |
| QuotaScheduler.OnlyOffIsSafe | lib/preemptive-quota-scheduler.ts:327-347 | over all snapshots, those from the future included, waits always suffice if and only if the scheduler is off |
| QuotaScheduler.RejectionDefersRetryAfter | lib/preemptive-quota-scheduler.ts:245-273 | a 429 over healthy windows defers exactly its retry-after within the caps; over any windows at least that |
| QuotaScheduler.NoSecondDeferral | lib/preemptive-quota-scheduler.ts:359-386 | an announced wait suffices whatever is asked, pruned, forgotten or observed about other keys meanwhile |
| QuotaScheduler.PreemptiveQuotaScheduler.GetDeferral | lib/preemptive-quota-scheduler.ts:275-348 | answers from the snapshot left after pruning, and forgets one that has outlived the cache lifetime |
| QuotaScheduler.PreemptiveQuotaScheduler.Prune | lib/preemptive-quota-scheduler.ts:376-386 | removes exactly the snapshots whose latest reset has passed and counts them |
| QuotaScheduler.PreemptiveQuotaScheduler.MaybePrune | lib/preemptive-quota-scheduler.ts:233-237 | prunes at most once a minute |
| QuotaScheduler.PreemptiveQuotaScheduler.Update | lib/preemptive-quota-scheduler.ts:239-243 | stores the snapshot under its key after pruning; an empty key changes nothing |
| QuotaScheduler.PreemptiveQuotaScheduler.MarkRateLimited | lib/preemptive-quota-scheduler.ts:245-273 | stores the rejection, keeping an exhausted primary reset and the secondary window |
| QuotaScheduler.PreemptiveQuotaScheduler.ClearByPrefix | lib/preemptive-quota-scheduler.ts:359-364 | forgets exactly the keys with a non-empty prefix |
| QuotaScheduler.HeldOrForgotten | lib/preemptive-quota-scheduler.ts:233-243 | over every run without news of a key its snapshot is kept as it was or forgotten |
| CasStore.Linearizes | lib/storage/json-store-lock.ts:276-300 | in every interleaving of read, mutate, check-and-write and retry the store is the committed mutations applied one at a time in commit order, and every answer is its mutation's answer at one position |
| CasStore.RealTimeOrder | lib/storage/json-store-lock.ts:276-300 | an operation begun after another committed takes effect after it |
| CasStore.GivesUpOnlyToCommits | lib/storage/json-store-lock.ts:46-46 | a client that gives up after three attempts lost each one to another client's commit |
| TokenStore.MergeTokenStoreRecords | lib/local-client-tokens.ts:201-235 | the merge keeps every slot where it was, appends unknown records, and moves last-used and revocation forward only |
| TokenStore.RotationIsAtomic | lib/local-client-tokens.ts:373-395 | a rotation commits the revocation and the one minted record, or neither |
| TokenStore.MergeExtends | lib/local-client-tokens.ts:201-235 | a merge never drops, moves, renames or revives a record |
| TokenStore.LogUnique | lib/local-client-tokens.ts:360-395 | ids stay unique over every run if minted ids are new |
| TokenStore.RetryMintsOnce | lib/local-client-tokens.ts:373-395 | a retried rotation answers with the record its first attempt minted |
| TokenStore.RetiredAtMostOnce | lib/local-client-tokens.ts:307-324 | in every interleaving at most one operation that retires a given id succeeds |
| TokenStore.NoVerifyAfterRetirement | lib/local-client-tokens.ts:410-437 | no verification placed after a successful revocation or rotation answers with that id, as long as minted ids are new |
| AccountPolicy.MergeAccountPolicies | lib/account-policy.ts:201-227 | the merge of a caller's policies over the disk's, entry by entry, and the stamps it leaves in the caller's entries |
| AccountPolicy.MergeOne | lib/account-policy.ts:214-224 | whether one entry lands, and with which stamp |
| AccountPolicy.MergeKeepsAndLands | lib/account-policy.ts:201-227 | disk entries are never dropped or made older, entries the caller left alone keep the disk's value, and a deliberate edit lands whatever the stamps say |
| AccountPolicy.NoLostEdit | lib/account-policy.ts:229-332 | in every interleaving of edits and three-way saves a committed edit shows in the store unless a later commit set the same field of the same policy or saved a changed version of it |
| AccountPolicy.EditSurvives | lib/account-policy.ts:214-224 | edits of other fields and policies, and saves that only carry a copy of the policy, leave a committed edit in place |
| AccountPolicy.StampsNeverFall | lib/account-policy.ts:201-331 | over every run of edits and saves no policy is dropped and no stamp goes back |
| QuotaCache.FoldMeaning | lib/quota-cache.ts:212-232 | folding two or more observations in any order keeps the newest quota time and marks priming completed if and only if a completion ended at or after it |
| QuotaCache.MergeMeaning | lib/quota-cache.ts:212-232 | what one merge does to quota time, completion and outcome time |
| QuotaCache.FoldOrderFree | lib/quota-cache.ts:212-232 | two orders of the same observations agree on quota time, completion and completion time |
| QuotaCache.FailureIsObserved | lib/quota-cache.ts:221-230 | a reported failure is one of the observed ones and ended at or after the newest quota time |
| QuotaCache.FailureOrderCondition | lib/quota-cache.ts:212-232 | whether a failure is reported is the same for every order of the observations if and only if a completion ended at or after the newest quota time, or no failure did, or no earlier completion can displace all those that did |
| QuotaCache.FailureTextOrderFree | lib/quota-cache.ts:212-232 | without completions, and where failures tied in time agree, the reported text is the same for every order |
| QuotaCache.MergeQuotaChanges | lib/quota-cache.ts:235-255 | every key of every namespace becomes what the three-way rule says, including the restamped proposal |
| QuotaCache.MergeKey | lib/quota-cache.ts:240-251 | one key of one namespace, with the restamp of an unraced backward clock |
| QuotaCache.MergeNamespace | lib/quota-cache.ts:237-253 | every key of the union of baseline and proposal once, in any order |
| QuotaCache.MergePreserves | lib/quota-cache.ts:235-255 | untouched keys keep the disk's value, a key disappears if and only if it was deleted unraced, and no surviving key gets older |
| QuotaCache.RetryCondition | lib/quota-cache.ts:240-251 | for one key, a retry merges like a first attempt whatever it finds if and only if the lost attempt did not restamp the proposal |
| QuotaCache.NamespaceRetryCondition | lib/quota-cache.ts:237-253 | the same for a whole namespace: a retry agrees with a first attempt on every cache if and only if no key was restamped |
| QuotaCache.RetryOverrides | lib/quota-cache.ts:243-248 | under that guard the retry keeps the older observation over any racing one up to the outlived stamp |
| QuotaCache.MergedIsOf | lib/quota-cache.ts:237-253 | the namespace merge computes exactly the maps these speak of |
| ImportMerge.NormalizeAccountsForTarget | lib/oc-chatgpt-import-adapter.ts:278-393 | the three in-place passes compute the three folds, in order |
| ImportMerge.DedupPass | lib/oc-chatgpt-import-adapter.ts:300-331 | one pass over a map computes its fold: who is kept, passed on and skipped |
| ImportMerge.FoldConserves | lib/oc-chatgpt-import-adapter.ts:303-331 | a pass keeps, passes on or skips each row exactly once |
| ImportMerge.PassKeeps | lib/oc-chatgpt-import-adapter.ts:303-331 | a pass keeps exactly the first newest row of each of its classes |
| ImportMerge.NormalizeConserves | lib/oc-chatgpt-import-adapter.ts:278-393 | every input row survives or is skipped, exactly once |
| ImportMerge.NormalizeElects | lib/oc-chatgpt-import-adapter.ts:68-88 | the survivors are exactly the first newest rows of each identity, email or token class |
| ImportPreview.MatchDestination | lib/oc-chatgpt-import-adapter.ts:467-523 | finds the slot of the most preferred claim that any free slot answers |
| ImportPreview.FindSoleBareId | lib/oc-chatgpt-import-adapter.ts:483-505 | the one free slot with the source's account id, unless there are several or an email contradicts it |
| ImportPreview.FindIndex | lib/oc-chatgpt-import-adapter.ts:506-522 | the first free slot that answers a claim, none exactly when no free slot does |
| ImportPreview.MatchIsUnique | lib/oc-chatgpt-import-adapter.ts:467-523 | the matching rule determines the slot and the claim |
| ImportPreview.PreviewMerge | lib/oc-chatgpt-import-adapter.ts:584-627 | each source row is added, updating or skipped as the matching rule decides among the slots still free; slots stay in place, none answers two rows, unclaimed ones are untouched and listed |
| ImportPreview.NoSlotRegresses | lib/oc-chatgpt-import-adapter.ts:604-622 | no destination slot is dropped or replaced by an older row |
| ImportPreview.PreviewOcChatgptImportMerge | lib/oc-chatgpt-import-adapter.ts:559-637 | the preview normalizes both sides and merges them so |
| MapWithConcurrency.ConcurrencyBound | lib/concurrency.ts:2-31 | in every reachable pool at most min(limit, n) calls run and no index is claimed twice |
| MapWithConcurrency.SoundRun | lib/concurrency.ts:2-31 | every reachable pool accounts for each index once and holds the results and first failure of the settled calls |
| MapWithConcurrency.NoCallAfterFailure | lib/concurrency.ts:2-31 | once a failure is recorded no further call starts and that failure is the one thrown |
| MapWithConcurrency.RunsEnd | lib/concurrency.ts:2-31 | every schedule is bounded by the work left at its start |
| MapWithConcurrency.IdleIsComplete | lib/concurrency.ts:2-31 | when all workers have returned no call runs, and without a failure every defined item has its result |
| MapWithConcurrency.MapAll | lib/concurrency.ts:2-31 | under any scheduler: a range error exactly for a limit below one, all results in place exactly if no call fails, else the error of a failed call |
| ModelRoute.ParseModelRoute | lib/model-route-policy.ts:21-49 | stripping prefixes in place computes the parse, with the same rejections |
| ModelRoute.ParseIsRender | lib/model-route-policy.ts:21-49 | parsing a string yields a route if and only if the route is legal and renders to that string |
| ModelRoute.RenderInjective | lib/model-route-policy.ts:21-49 | two legal routes with one name are the same |
| ModelRoute.CandidatesExact | lib/model-route-policy.ts:107-134 | the candidates are exactly the catalogs of the parsed kind that show a supporting model, each as often as given, ordered by priority and then id |
| ModelRoute.TierAgreement | lib/model-route-policy.ts:112-120 | a tier in the name routes like the same tier in the settings; two different ones are refused |
| ModelRoute.BuildVisibleModelUnion | lib/model-route-policy.ts:135-167 | the keys are exactly the prefixed slugs of visible models |
| ModelRoute.UnionAgreement | lib/model-route-policy.ts:92-153 | a tier-free name resolves to a candidate without settings if and only if it is a key of the union and passes the parser's test on length and control characters |
| ModelRoute.ListedButNotRoutable | lib/model-route-policy.ts:92-106 | a visible slug with a space is listed and cannot be routed |

## Left out

- Accounts.AccountManager.RemoveAccount: accounts are values carrying an identity number and held in a sequence that the methods reassign, so aliasing of account objects is not modelled; a caller's object is a value or an identity, which may be stale.
- Accounts.AccountManager.MarkRateLimitedWithReason: the per-key observations and reset receipts kept for quota reads are not modelled, nor is a record on an object that has left the pool.
- Accounts.AccountManager.constructor: the fallback login row and stored rows without a refresh token are not modelled.
- Accounts.AccountManager.SetAccountEnabled: workspace synchronization with the disk is not modelled.
- PinProtocol.SaveVerdict: whether the other fields of the rows merge is a choice of the environment; rows are identified by one number, so legacy rows whose identity is derived or changes are not modelled, and neither is a storage file deleted while managers run.
- FetchEngine.Request.Traverse: the hybrid selector, session affinity, token refresh, entitlement cache, token buckets, policy scores and the account that stream failover tries second are environment choices; so is whether a fallback model exists.
- FetchEngine.Request.Judge: the server-burst reply after an empty answer is omitted, since it asks for a status of 500 or more on a response that was ok.
- FetchEngine.AttemptBudget: non-finite settings are not modelled.
- QuotaScheduler.PreemptiveQuotaScheduler.GetDeferral: header parsing and non-finite numbers are not modelled.
- TokenStore.NoVerifyAfterRetirement: hashing and the random source are parameters; that a minted id is new to the store is a condition of the statement.
- CasStore.Linearizes: two writes within one timestamp of the file system look alike to the source; the model gives every write its own version.
- AccountPolicy.MergeAccountPolicies: key validation and the normalization of tags and notes are not modelled.
- ImportMerge.NormalizeElects: trimming and lower-casing are modelled for ASCII only; display summaries and the remapped active index are not modelled.
- ModelRoute.BuildVisibleModelUnion: only the key set; merged capabilities and the visiting order are not modelled.
- ModelRoute.Units: strings are Unicode scalar values, so lone surrogates do not occur.
- MapWithConcurrency.MapAll: a call is a function of its item and index, not a process with effects of its own.
- Breaker.CircuitBreaker.TryCanExecute: the registry that evicts breakers beyond one hundred keys is not modelled; an account carries the state of its breaker.
- The routing mutex, toasts, logs, metrics, debounced timers and all file handling: plumbing around the decisions modelled here.
- lib/budget-guard.ts, lib/entitlement-cache.ts, lib/capability-policy.ts, lib/context-budget-guard.ts and lib/forecast.ts: they repeat merges and lookups of the kinds above.
