# A verified model of the market pipeline

The repository collects market ticks for several chains, scores tokens, keeps the best ones as
candidates, backtests the strategy, and scans trending tokens for alerts. This project models, in
Dafny, the parts of it that have to be right over whole runs, and proves what they are for.

| component | module | what is modelled |
|---|---|---|
| shared resilience layer | `RateLimiter`, `CircuitBreaker`, `Backoff`, `Executor`, `Interleaving` | token bucket, circuit breaker, backoff guard, the executor that puts them in front of a function, and protected calls that overlap |
| HTTP ingestion client | `HttpClient`, `SingleFlight`, `ResponseCache` | the leader's request and its retries, the sharing of one request by many tasks, the response cache and its Redis |
| request limiting of the service | `RequestLimiter` | the two sliding-window limiters with pruning, sweeping and eviction |
| pipeline runs | `PipelineRuns`, `ChainScheduler`, `CandidateStore` | claims, replay admission, the life of a run row, catch-up, ranking and the candidate query cache |
| ingestion fallback | `FallbackMerge` | the merge of several sources in order of priority |
| backtest | `Backtest`, `Drawdown`, `Attribution`, `StableSort` | runs, metrics, walk-forward gate, drawdown, attribution |
| scanner | `Detector`, `Cooldown`, `Orchestrator` | filter, score and detection, alert cooldowns, the token loop and the hourly scan |

Objects that the program updates in place are classes whose methods are proved against a pure step
function; the theorems about runs are lemmas about sequences of those steps. A lock or a critical section
without an await makes a step atomic; where tasks, nodes or threads interleave between such steps, the
module defines a transition system (`Enabled`, `Next`, `Behaves`, `After`) and the theorems hold for every
behaviour of it. `Common.Clock` is the process clock: it never runs back, and a sleep lasts at least as
long as asked.

What the proofs brought to light, each stated as a lemma:

- A call that leaves the executor's retry loop by a non-retryable error is recorded nowhere. A run of calls one
  after the other wedges the breaker exactly when the last probes, as many as are allowed, all ended that way
  (`Executor.WedgedIff`), and a wedged breaker is exactly one that refuses forever
  (`Executor.RefusesForeverIff`). When calls overlap, none is ever admitted again exactly when that many probes
  left unrecorded since the last record and no other call is running (`Interleaving.StuckIff`).
- The HTTP client records errors that are not worth a retry too. It loses a probe only to a cancellation or to
  an exception that is neither an HTTP nor a value error, and otherwise reaches its server again
  (`HttpClient.ProbeLostIff`, `HttpClient.RecoversIff`).
- Failures of calls admitted before the breaker opened restart its recovery time, with every
  `failure_threshold`-th of them (`CircuitBreaker.LateFailuresRestart`).
- Cancelling one task that waits for a shared request cancels the shared future, and with it all other
  waiters (`SingleFlight.WaitersGet`, `SingleFlight.CancelledWaiterTakesTheOthersAlong`).
- A response that came through Redis can be as old as the two lifetimes, the time Redis took to store it and
  the time the local refill took, together; no smaller bound holds (`ResponseCache.AgeBoundIff`).
- A run marked failed can still turn to success exactly while a thread of its goes on persisting
  (`PipelineRuns.FailureNotFinalIff`); its data is complete then (`PipelineRuns.SuccessMeansPersisted`).
- A scheduler that wakes up before its next window is due works on the current minute and moves its grid
  there (`ChainScheduler.OnGridIff`).
- Evicting a key from the middleware's limiter goes unnoticed exactly when the key had no accepted request in
  the last minute (`RequestLimiter.EvictionUnnoticedIff`); otherwise it can exceed its limit
  (`RequestLimiter.EvictionForgets`).
- A write batch keeps every cached candidate answer current, whatever the query and the data, exactly when it is
  for a single chain (`CandidateStore.BatchKeepsCurrentIff`). An answer cached in an interleaving is current,
  whatever the query, exactly when what was committed for its chain since the database gave it left every row as
  it was then (`CandidateStore.EntryCurrentIff`; `CandidateStore.LateStoreIsStale` is a run where it did not).
  Ranks within a batch are 1..n exactly when no row without a tier outranks one with a tier
  (`CandidateStore.RanksOfBatch`), which the scoring engine never produces (`CandidateStore.AllTieredRanked`).
- The one-pass drawdown and the maximum over all pairs can part when equity first falls below zero, and then
  never meet again (`Drawdown.FirstDipSeparates`, `Drawdown.SeparatedForGood`); in general they agree exactly
  when no negative equity lies deeper below the lowest positive one before it (`Drawdown.BoundsAllPairsIff`).
  A profit factor of 99 is reported for trades that won and lost nothing
  (`Backtest.ProfitFactorIff`). Above 95 the second threshold of the walk-forward check is the laxer one
  (`Backtest.VariantFilters`).
- A smart-money count that rises from a negative figure to zero can lower a score
  (`Detector.MoreSmartMoneyNeverHurtsIff`), and a token that was filtered out can be alerted on the strength
  of another token with its address (`Orchestrator.DuplicateTakesTheOthersSignal`).

Where the code and its documentation disagree the model follows the code: the backoff cooldown grows
linearly and is capped at a streak of eight, while its design document calls it exponential
(`docs/superpowers/specs/2026-04-29-shared-resilience-layer.md:68`); the scheduler
reads `settings.catchup_windows` (`src/app/services/chain_scheduler.py:27`), while the setting is declared as
`scheduler_catchup_windows` (`src/shared/config/pipeline.py:57`), so the count is a constructor parameter here;
and the decay of an alert is read before the alert is counted, so the second alert is not decayed yet.

## Model

| member | source | states |
|---|---|---|
| `RateLimiter.RateBound` | src/shared/resilience/rate_limiter.py:16-28 | over every closed interval and every interleaving of callers, the tokens handed out are at most the capacity plus the rate times the length of the interval |
| `RateLimiter.AllGrantedIff` | src/shared/resilience/rate_limiter.py:16-28 | the other side: all polls of a run are served if and only if over every stretch of it a full bucket and the refill pay for them, and from the start the first level does; nobody is refused without need |
| `RateLimiter.SteadyCallerServed` | src/shared/resilience/rate_limiter.py:16-28 | polls a rate apart are all served, even by an empty bucket |
| `RateLimiter.LevelStaysInRange` | src/shared/resilience/rate_limiter.py:16-28 | the level is between zero and the capacity after any polls |
| `RateLimiter.RefillComposes` | src/shared/resilience/rate_limiter.py:20-22 | refilling at an instant in between changes no later level |
| `RateLimiter.FailedPollKeepsLevels` | src/shared/resilience/rate_limiter.py:18-28 | after a poll that got nothing every later level is what it would have been without it |
| `RateLimiter.FailedPollsInvisible` | src/shared/resilience/rate_limiter.py:16-28 | leaving all vain polls out of a run hands out the same tokens at the same instants |
| `RateLimiter.WaitExact` | src/shared/resilience/rate_limiter.py:26-28 | after a vain poll there is a token exactly from the end of the sleep on that the caller is told |
| `RateLimiter.AsyncTokenBucket.constructor` | src/shared/resilience/rate_limiter.py:9-14 | rate and capacity are clamped from below and the bucket starts full |
| `RateLimiter.AsyncTokenBucket.Poll` | src/shared/resilience/rate_limiter.py:18-27 | the critical section is one step of the specification, keeps the fields equal to the poll history, and after a vain poll names the exact wait |
| `RateLimiter.AsyncTokenBucket.Acquire` | src/shared/resilience/rate_limiter.py:16-28 | an undisturbed caller leaves with exactly one token after at most two polls |
| `RateLimiter.AsyncTokenBucket.Bounded` | src/shared/resilience/rate_limiter.py:16-28 | capacity plus rate times length bounds what this very object hands out |
| `RateLimiter.RateLimiterRegistry.GetBucket` | src/shared/resilience/rate_limiter.py:36-63 | one bucket per name, kept unless the settings changed, then a full new one |
| `CircuitBreaker.CountersInRange` | src/shared/resilience/circuit_breaker.py:23-58 | in every reachable state the failure count is below the threshold and no more probes are out than allowed |
| `CircuitBreaker.OutageBound` | src/shared/resilience/circuit_breaker.py:23-58 | whenever a run ends open, then counted from the very failure that opened the breaker until the next recorded success, at most `half_open_max_calls` admissions per elapsed recovery period and none during the first, whatever late failures arrive |
| `CircuitBreaker.OpenSince` | src/shared/resilience/circuit_breaker.py:46-58 | an open breaker holds the instant of a recorded failure of its run; since then no success was recorded, nobody was admitted, and fewer than `failure_threshold` failures came |
| `CircuitBreaker.ProbesExactly` | src/shared/resilience/circuit_breaker.py:23-37 | while nothing is recorded an open breaker admits exactly the first requests past the recovery time, as many as `half_open_max_calls` |
| `CircuitBreaker.LateFailuresRestart` | src/shared/resilience/circuit_breaker.py:54-58 | failures arriving while open restart the recovery time with every `failure_threshold`-th of them and no other |
| `CircuitBreaker.AllowanceSpent` | src/shared/resilience/circuit_breaker.py:23-58 | each single event of an outage spends what it admits from the remaining allowance |
| `CircuitBreaker.TripsExactly` | src/shared/resilience/circuit_breaker.py:39-58 | a closed breaker opens within a run if and only if `failure_threshold` failures arrive with no success among them |
| `CircuitBreaker.AdmitsAgainIff` | src/shared/resilience/circuit_breaker.py:23-58 | after any interleaving the breaker is half open if and only if it admitted some probe since its last record, and once its recovery time has passed it admits if and only if those were fewer than `half_open_max_calls` |
| `CircuitBreaker.UnrecordedProbesWedge` | src/shared/resilience/circuit_breaker.py:32-36 | with all probes out and nothing recorded, nobody is ever admitted again |
| `CircuitBreaker.AsyncCircuitBreaker.constructor` | src/shared/resilience/circuit_breaker.py:8-21 | clamped settings, closed, nothing counted |
| `CircuitBreaker.AsyncCircuitBreaker.AllowRequest` | src/shared/resilience/circuit_breaker.py:23-37 | answer and new state are those of the specification, and the event is added to the history |
| `CircuitBreaker.AsyncCircuitBreaker.RecordSuccess` | src/shared/resilience/circuit_breaker.py:39-44 | the new state is that of the specification: closed, nothing counted |
| `CircuitBreaker.AsyncCircuitBreaker.RecordFailure` | src/shared/resilience/circuit_breaker.py:46-58 | the new state is that of the specification |
| `CircuitBreaker.AsyncCircuitBreaker.RemainingOpenSeconds` | src/shared/resilience/circuit_breaker.py:64-69 | positive exactly while an open breaker refuses, and exactly how long it goes on refusing |
| `CircuitBreaker.AsyncCircuitBreaker.Ranged` | src/shared/resilience/circuit_breaker.py:46-58 | the counters of this object are in range whatever was recorded |
| `CircuitBreaker.CircuitBreakerRegistry.GetBreaker` | src/shared/resilience/circuit_breaker.py:76-109 | one breaker per name, kept unless its settings changed |
| `Backoff.ClosedExactlyUntil` | src/shared/resilience/backoff.py:12-30 | after k failures in a row the guard is closed exactly until the k-th plus k times the base cooldown, k counting no further than eight and the cooldown bounded by the maximum |
| `Backoff.CooldownGrows` | src/shared/resilience/backoff.py:28-29 | a longer streak never has a shorter cooldown |
| `Backoff.BackoffGuard.AllowRequest` | src/shared/resilience/backoff.py:12-14 | the answer is that of the specification |
| `Backoff.BackoffGuard.RemainingBlockedSeconds` | src/shared/resilience/backoff.py:16-18 | zero exactly when open, and exactly how long the guard stays closed |
| `Backoff.BackoffGuard.RecordFailure` | src/shared/resilience/backoff.py:20-30 | the new state is that of the specification |
| `Backoff.BackoffGuard.RecordSuccess` | src/shared/resilience/backoff.py:32-35 | the guard is as new |
| `Executor.ExecuteComposes` | src/shared/resilience/executor.py:58-110 | a guard refusal touches nothing, a breaker refusal does not run the function, only a call that ran to its end is recorded, and tries go on exactly while they fail retryably |
| `Executor.ExhaustedRecords` | src/shared/resilience/executor.py:104-110 | a call tried in vain blocks the guard from the instant it was told, for the cooldown of the longer streak, and counts in the breaker or opens it at that instant |
| `Executor.PausesDouble` | src/shared/resilience/retry.py:7-13 | without jitter the first pause is the base and each later one twice the one before, up to the maximum |
| `Executor.FailingRunBound` | src/shared/resilience/executor.py:58-110 | a sequential run of failing executions over a stretch of time calls the function at most `retry_attempts` times per first cooldown, and once more |
| `Executor.CallsPerRun` | src/shared/resilience/executor.py:71-110 | each admitted failing execution makes exactly `retry_attempts` calls |
| `Executor.ProbeFate` | src/shared/resilience/executor.py:62-110 | whatever state it finds, a refused execution changes nothing, a recorded one leaves the breaker open or closed, an unrecorded one costs one probe unless the breaker was closed |
| `Executor.RaisedProbeLosesTheSlot` | src/shared/resilience/executor.py:79-80 | an execution leaves a probe behind if and only if it raises out of one |
| `Executor.WedgedIff` | src/shared/resilience/executor.py:67-110 | a run of executions, each of its own function, wedges the breaker if and only if the last `half_open_max_calls` probes all left unrecorded |
| `Executor.RefusesForeverIff` | src/shared/resilience/executor.py:67-69 | no later executions ever run their functions if and only if the breaker is wedged |
| `Executor.LastTryUnique` | src/shared/resilience/executor.py:71-102 | the number of tries is determined by the first one that does not fail retryably |
| `Interleaving.AdmittedIff` | src/shared/resilience/executor.py:62-110 | however calls overlap, past cooldown and recovery time the next one is admitted if and only if fewer than `half_open_max_calls` probes were admitted since the last record |
| `Interleaving.StuckIff` | src/shared/resilience/executor.py:62-110 | however calls overlap, none is ever admitted again if and only if as many probes as are allowed all left unrecorded since the last record and nothing else is running |
| `Interleaving.StepInv` | src/ingestion/resilience/resilient_http_client.py:120-203 | every step of every call keeps the breaker's count equal to its probes, each of which still runs or has left unrecorded |
| `Interleaving.UndisturbedIsExecute` | src/shared/resilience/executor.py:58-110 | a call that nothing interrupts leaves the breaker and the guard the execution leaves |
| `Executor.ResilientExecutor.Run` | src/shared/resilience/executor.py:58-110 | verdict, number of calls, breaker and guard are those of the specification, and each call took one token |
| `Executor.ResilientExecutor.RetryLoop` | src/shared/resilience/executor.py:71-110 | an admitted call ends as the specification says, with one token per try and no sooner than its pauses take |
| `Executor.ResilientExecutor.Tries` | src/shared/resilience/executor.py:71-102 | tries go on to the first one that does not fail retryably, each with a token and a pause before the next |
| `HttpClient.ProbeLostIff` | src/ingestion/resilience/resilient_http_client.py:120-212 | whatever state it finds, a request leaves the breaker half open if and only if it is refused by a half-open one or admitted by one not closed and cancelled at last, which costs one probe |
| `HttpClient.RequestComposes` | src/ingestion/resilience/resilient_http_client.py:120-212 | blocked without a call while guard or breaker refuse; otherwise asked until a reply is not worth a retry, or as often as allowed, and the last reply decides the result |
| `HttpClient.SameAsExecutor` | src/ingestion/resilience/resilient_http_client.py:120-212 | the client leaves what the executor would, an error not worth a retry counting like one retried in vain |
| `HttpClient.RecoversIff` | src/ingestion/resilience/resilient_http_client.py:120-212 | after any run, a request past the cooldown and the recovery time reaches the server if and only if the last `half_open_max_calls` probes were not all cancelled |
| `HttpClient.AlwaysRecovers` | src/ingestion/resilience/resilient_http_client.py:120-212 | from any state that is not wedged, requests of which none is cancelled at last never wedge the breaker |
| `HttpClient.FailingRequest` | src/ingestion/resilience/resilient_http_client.py:166-203 | a failing request leaves the same breaker and guard as the executor would, for no more calls |
| `HttpClient.FailingServerBound` | src/ingestion/resilience/resilient_http_client.py:120-212 | a server that keeps failing is asked at most `retry_attempts` times per first cooldown, and once more |
| `HttpClient.ReportedIff` | src/ingestion/resilience/resilient_http_client.py:232-253 | the reported pieces of an outage add up to its length if and only if the recorded instants never step back, and to more otherwise |
| `HttpClient.ResilientHttpClient.constructor` | src/ingestion/resilience/resilient_http_client.py:51-59 | clamped settings give a positive first cooldown, nothing is blocked |
| `HttpClient.ResilientHttpClient.RequestJsonUncached` | src/ingestion/resilience/resilient_http_client.py:113-212 | result, number of calls, breaker, guard, blocked time and waits are those of the specification, and each call took one token |
| `HttpClient.ResilientHttpClient.AttemptLoop` | src/ingestion/resilience/resilient_http_client.py:136-212 | the attempts end as the specification says, with one token each, and no sooner than the server asked for or the backoff demands |
| `HttpClient.ResilientHttpClient.Conclude` | src/ingestion/resilience/resilient_http_client.py:157-203 | success and failure are recorded on breaker and guard, a cancellation on neither |
| `HttpClient.ResilientHttpClient.RecordCircuitBlocked` | src/ingestion/resilience/resilient_http_client.py:232-243 | reports the time since the last refusal and remembers this one |
| `HttpClient.ResilientHttpClient.ClearCircuitBlocked` | src/ingestion/resilience/resilient_http_client.py:245-253 | reports the time since the last refusal and forgets it |
| `SingleFlight.SingleFlightGroup.Acquire` | src/ingestion/resilience/singleflight.py:11-19 | the entry of the key if there is one, else a new future put into the table |
| `SingleFlight.SingleFlightGroup.Release` | src/ingestion/resilience/singleflight.py:21-25 | only the holder's own entry is removed |
| `SingleFlight.ReleaseUndoesAcquire` | src/ingestion/resilience/singleflight.py:11-25 | releasing by the holder restores the table acquire found, releasing by any other holder changes nothing |
| `SingleFlight.NoOrphanWaiters` | src/ingestion/resilience/resilient_http_client.py:91-111 | in every interleaving with successes, failures and cancellations: one leader per URL, every waiter's future is settled or still worked on by a running leader, and a future out of the table is settled |
| `SingleFlight.InvNext` | src/ingestion/resilience/resilient_http_client.py:91-111 | every step of every task keeps the invariant |
| `SingleFlight.QuiescentMeansSettled` | src/ingestion/resilience/resilient_http_client.py:110-111 | with no leader left the table is empty and every waiter can go on |
| `SingleFlight.WaitersGet` | src/ingestion/resilience/resilient_http_client.py:91-111 | all waiters get one outcome, and it is the leader's exactly when it is a cancellation itself or no waiter was cancelled before it |
| `SingleFlight.SettledForGood` | src/ingestion/resilience/resilient_http_client.py:103-108 | a settled future never changes |
| `SingleFlight.CancelledWaiterTakesTheOthersAlong` | src/ingestion/resilience/resilient_http_client.py:94-94 | a run in which one cancelled waiter cancels another although the leader gets its answer |
| `ResponseCache.SizeBounded` | src/ingestion/resilience/cache_store.py:101-109 | the cache never exceeds its limit and never holds a URL twice |
| `ResponseCache.HitIsLastWrite` | src/ingestion/resilience/cache_store.py:54-68 | a local hit is the payload last stored under the URL, stored less than the lifetime ago |
| `ResponseCache.StoredIsHit` | src/ingestion/resilience/cache_store.py:51-109 | a stored payload is found until its lifetime ends and not afterwards, however often it is read in between, unless `max_entries` other URLs came by |
| `ResponseCache.RecentEntrySurvives` | src/ingestion/resilience/cache_store.py:138-140 | accesses to fewer than `max_entries` other URLs never evict an entry, whether it is read in between or not |
| `ResponseCache.OrderIsRecency` | src/ingestion/resilience/cache_store.py:63-65 | entries stand in the order of their last use, so eviction removes the least recently used one |
| `ResponseCache.ReadKeepsIff` | src/ingestion/resilience/cache_store.py:51-68 | after a read the URL is held exactly if the read was a hit, other URLs as before |
| `ResponseCache.HitAge` | src/ingestion/resilience/cache_store.py:72-118 | through Redis a hit was handed to `set` less than both lifetimes, the Redis delay and the refill delay ago, under any interleaving |
| `ResponseCache.AgeBoundIff` | src/ingestion/resilience/cache_store.py:72-118 | a bound on the age of hits holds for all runs on one clock if and only if it is at least that sum |
| `ResponseCache.LifetimesBoundIff` | src/ingestion/resilience/cache_store.py:85-118 | the two lifetimes alone are such a bound if and only if neither storing in Redis nor refilling takes any time |
| `ResponseCache.ResponseCacheStore.GetLocal` | src/ingestion/resilience/cache_store.py:51-68 | the answer is the specification's lookup, the entry moves to the end or is dropped |
| `ResponseCache.ResponseCacheStore.SetLocal` | src/ingestion/resilience/cache_store.py:101-109 | the new order is the specification's |
| `ResponseCache.ResponseCacheStore.FillLocal` | src/ingestion/resilience/cache_store.py:85-88 | a refill keeps the place of a key that is present |
| `ResponseCache.ResponseCacheStore.CompactLocked` | src/ingestion/resilience/cache_store.py:138-140 | the loop leaves exactly the last `max_entries` entries |
| `RequestLimiter.LimiterIsExact` | src/app/main.py:147-177 | over any run each request is answered as the full history of its key since its last eviction demands, despite pruning and sweeping |
| `RequestLimiter.NeverEvicts` | src/app/main.py:152-161 | without a limit on keys, as for replays, nothing is ever evicted |
| `RequestLimiter.NoWindowOverfull` | src/app/main.py:242-262 | no closed minute holds more than `limit` requests of a key that the limiter accepted since it last evicted the key |
| `RequestLimiter.AcceptedIff` | src/app/main.py:165-177 | over any run a request is accepted if and only if fewer than the limit were accepted of its key, since its last eviction, in the minute that ends with it |
| `RequestLimiter.NoReplayWindowOverfull` | src/app/main.py:147-177 | without a limit on keys, no closed minute holds more than `limit` requests of a key that the limiter accepted |
| `RequestLimiter.KeptIsWindow` | src/app/main.py:165-169 | after sweep and pruning exactly the accepted instants of the last minute are left |
| `RequestLimiter.SweepFaithful` | src/app/main.py:152-161 | the sweep of stale keys is invisible because their lifetime is at least the window |
| `RequestLimiter.BooksStaySmall` | src/app/main.py:105-121 | no key is held that was not seen for its lifetime and half a minute, and no more keys than allowed but for the requests of the last half minute |
| `RequestLimiter.EvictionsApart` | src/app/main.py:105-121 | two evictions lie half a minute apart |
| `RequestLimiter.EvictionUnnoticedIff` | src/app/main.py:113-121 | forgetting a key changes no later answer if and only if the key has no accepted request in the last minute |
| `RequestLimiter.EvictionForgets` | src/app/main.py:113-121 | a run in which a key exceeds its limit across an eviction |
| `RequestLimiter.RequestWindowLimiter.constructor` | src/app/main.py:47-53 | empty books and the clamped limit, lifetime and number of keys |
| `RequestLimiter.RequestWindowLimiter.Enforce` | src/app/main.py:242-262 | answer and new books are the specification's; a limit of zero or less switches the limiter off |
| `RequestLimiter.RequestWindowLimiter.Sweep` | src/app/main.py:105-121 | stale keys go, then as many of those seen longest ago as there are too many |
| `RequestLimiter.OldestKeys` | src/app/main.py:117-121 | the chosen keys were all seen no later than any that stays |
| `RequestLimiter.PruneFront` | src/app/main.py:167-169 | instants before the cutoff are dropped from the front |
| `PipelineRuns.AtMostOnce` | src/shared/db/repository.py:295-327 | over all nodes and interleavings, at most one run that is not a replay executes per chain, strategy and minute, and all that such runs commit for it comes from that one |
| `PipelineRuns.ClaimedIff` | src/shared/db/repository.py:295-327 | a claim starts a run if and only if it is the first claim of its slot, whatever was replayed, finished or failed |
| `PipelineRuns.StepOnePerSlot` | alembic/versions/a9c1f4e7b2d8_allow_replay_history_rows.py:20-32 | every step keeps the partial unique index: one row per slot that is not a replay |
| `PipelineRuns.RowLife` | src/shared/db/repository.py:329-372 | rows are never removed, keep slot, trigger and start, and have the status last recorded for them |
| `PipelineRuns.NeverRunningAgain` | src/shared/db/repository.py:329-372 | no row returns to running |
| `PipelineRuns.FailureNotFinalIff` | src/app/services/chain_pipeline_service.py:207-261 | in every reachable state a failed run can still turn to success if and only if a thread of its goes on persisting |
| `PipelineRuns.SuccessMeansPersisted` | src/app/services/chain_pipeline_service.py:339-362 | a row that says success has every tick, feature and score it computed in the database, even when a commit races a failure mark |
| `PipelineRuns.StepBacked` | src/app/services/chain_pipeline_service.py:207-261 | every step keeps successes backed by the commit of the run's own results |
| `PipelineRuns.ReplaysLimited` | src/app/services/chain_pipeline_service.py:103-121 | over all workers, nodes and interleavings, running and non-stale replays of a chain never exceed the limit, though count and insert are separate transactions |
| `PipelineRuns.ActiveIff` | src/shared/db/repository.py:404-427 | a run counts against the limit if and only if it was inserted as a replay of the chain less than the stale time ago and neither persisted nor marked failed since |
| `PipelineRuns.ReplayAdmittedIff` | src/app/services/chain_pipeline_service.py:103-121 | a worker that finds the chain unlocked admits a replay if and only if fewer than the limit are active |
| `PipelineRuns.UnlockFrees` | src/shared/db/repository.py:43-70 | once the holder unlocks anybody else can take the lock |
| `PipelineRuns.ActiveShrinks` | src/shared/db/repository.py:404-427 | only an insert makes the active set of a chain larger, by one row; marks and time only shrink it |
| `PipelineRuns.StepGuarded` | src/shared/db/repository.py:43-70 | every step keeps the counts taken under a chain's advisory lock true bounds |
| `PipelineRuns.UpsertConcat` | src/shared/db/repository.py:82-115 | writing two batches is writing their concatenation |
| `PipelineRuns.UpsertHas` | src/shared/db/repository.py:82-115 | nothing is deleted and every written key is there afterwards |
| `PipelineRuns.UpsertLast` | src/shared/db/repository.py:82-115 | of several rows with one key the last one stays |
| `PipelineRuns.UpsertElsewhere` | src/shared/db/repository.py:82-115 | a key without a row keeps what it held |
| `PipelineRuns.SaveInBatches` | src/shared/db/repository.py:72-115 | cutting rows into batches changes nothing about what is stored |
| `PipelineRuns.PipelineRunsTable.TryStartPipelineRun` | src/shared/db/repository.py:295-327 | the row appears, and the caller is told so, exactly when the slot was free |
| `PipelineRuns.PipelineRunsTable.InsertPipelineRunForReplay` | src/shared/db/repository.py:374-402 | a replay row appears whatever else the slot holds |
| `PipelineRuns.PipelineRunsTable.MarkPipelineRunStatus` | src/shared/db/repository.py:329-372 | updates the row of slot and run id, if there is one, and nothing else, and reports whether it did |
| `PipelineRuns.OneMoreRow` | src/shared/db/repository.py:404-427 | a row adds to the active replays of a chain, and adds one, if and only if it is a running replay of that chain that is not stale |
| `PipelineRuns.PipelineRunsTable.CountActiveReplayRuns` | src/shared/db/repository.py:404-427 | going through the table row by row yields the size of the active set that admission is proved to limit |
| `ChainScheduler.CatchUp` | src/app/services/chain_scheduler.py:94-108 | between one and `catchup` windows, increasing, none in the future; when any is due, exactly the tail of the grid from the last window, ending less than a step before now |
| `ChainScheduler.OnGridIff` | src/app/services/chain_scheduler.py:104-105 | all windows lie on the grid of the last one if and only if a full step has passed or it is still the same minute |
| `ChainScheduler.LastWindowMonotone` | src/app/services/chain_scheduler.py:50-92 | over any run the last window never moves back and never passes the clock |
| `ChainScheduler.RememberBetween` | src/app/services/chain_scheduler.py:55-89 | whatever becomes of the windows of one turn, the last window stays between the old one and now |
| `ChainScheduler.RememberedIs` | src/app/services/chain_scheduler.py:55-89 | the memory is the last window that completed or was a duplicate; a window that raised or found the lock busy moves nothing |
| `ChainScheduler.SkippedForGood` | src/app/services/chain_scheduler.py:94-108 | over any run a window before the remembered one is never due again |
| `ChainScheduler.RoundedMinutes` | src/app/services/chain_scheduler.py:28-28 | the step is the interval to the nearest minute, halves to the even one |
| `ChainScheduler.ChainPipelineScheduler.constructor` | src/app/services/chain_scheduler.py:22-30 | clamped settings and the step rounded to minutes, halves to even |
| `ChainScheduler.ChainPipelineScheduler.BuildDueWindows` | src/app/services/chain_scheduler.py:94-108 | the loop yields the specification's windows |
| `ChainScheduler.ChainPipelineScheduler.Turn` | src/app/services/chain_scheduler.py:53-89 | completed and duplicate windows are remembered, busy and failed ones are not |
| `CandidateStore.RanksOfBatch` | src/shared/db/repository.py:216-230 | the candidates are exactly the rows of tier A, B or C, each ranked by its position by conviction; ranks are exactly 1..n if and only if no row without a tier outranks one with a tier |
| `CandidateStore.AllTieredRanked` | src/scoring/scoring_engine.py:67-74 | the scoring engine gives every row a tier, so all rows of its batches become candidates, ranked exactly 1..n |
| `CandidateStore.ConsecutiveIff` | src/shared/db/repository.py:218-230 | the numbers left by filtering are consecutive exactly when the rows with a tier come first |
| `CandidateStore.WriteMerges` | src/shared/db/repository.py:172-247 | a batch leaves in each chain the last content it has for a key, and every other row as it was |
| `CandidateStore.LatestCandidates.constructor` | src/shared/db/repository.py:249-254 | an empty cache is coherent |
| `CandidateStore.LatestCandidates.ListLatestCandidates` | src/shared/db/repository.py:249-293 | with calls made one at a time the answer is what the query gives now; an unexpired entry is left as it is, otherwise the answer is stored with a new lifetime |
| `CandidateStore.LatestCandidates.SaveScoresAndCandidates` | src/shared/db/repository.py:231-247 | batches of one chain keep every cached answer equal to the query's |
| `CandidateStore.BatchKeepsCurrentIff` | src/shared/db/repository.py:231-247 | a batch leaves no cached answer out of date, whatever the query, the data and the cache, if and only if all its rows are of one chain |
| `CandidateStore.ServedAnswerIsRecent` | src/shared/db/repository.py:249-293 | under any interleaving a served answer is one the database gave to that query and was stored less than a lifetime ago |
| `CandidateStore.EntryCurrentIff` | src/shared/db/repository.py:249-293 | under any interleaving a cached answer is current, whatever the query, if and only if for each key of its chain committed since the database gave it the last content committed is what the tables held then |
| `FallbackMerge.FetchMarketTicks` | src/ingestion/fallback/fallback_source_chain.py:22-57 | rows line up with the symbols and are the first offer in order of priority; an error exactly when some symbol is offered nowhere, blaming all sources exactly when one failed and nothing was collected |
| `FallbackMerge.SetDefaults` | src/ingestion/fallback/fallback_source_chain.py:39-40 | a token that is present keeps its row, a new one gets its first |
| `FallbackMerge.MissingSymbols` | src/ingestion/fallback/fallback_source_chain.py:41-41 | exactly the symbols without a row |
| `FallbackMerge.OfferedIff` | src/ingestion/fallback/fallback_source_chain.py:28-40 | the reference has an offer if and only if some source that does not fail has a row of the token |
| `FallbackMerge.OfferIs` | src/ingestion/fallback/fallback_source_chain.py:28-40 | what the reference offers is the first row of the first source that does not fail and has one |
| `Backtest.IterMinutes` | src/backtest/engine.py:130-138 | exactly the minutes of the period, both ends included |
| `Backtest.Run` | src/backtest/engine.py:78-128 | an error exactly for a reversed period, else the trades of its minutes in order |
| `Backtest.TradeMinute` | src/backtest/engine.py:93-124 | one trade for each score that reaches the threshold, in order |
| `Backtest.WindowsPartition` | src/backtest/validator.py:68-72 | every period over two minutes is split in its middle; neither window is reversed, their minutes are the period's without gap or overlap, and so are their trades |
| `Backtest.RaisedThresholdFilters` | src/backtest/engine.py:93-95 | a raised threshold keeps exactly the trades whose conviction reaches it |
| `Backtest.VariantFilters` | src/backtest/validator.py:76-79 | the second threshold is two points higher up to 93 and else 95, and the stricter one exactly up to 95 |
| `Backtest.TotalsAddUp` | src/backtest/engine.py:196-200 | gross profit less gross loss is the net result, and wins and losses add up to all trades |
| `Backtest.WinsAre` | src/backtest/engine.py:194-203 | wins are exactly the trades with a positive result, their share is the win rate and their sum the gross profit |
| `Backtest.ExpectancyPerTrade` | src/backtest/engine.py:202-206 | expectancy is the net result per trade |
| `Backtest.ProfitFactorIff` | src/backtest/engine.py:199-201 | the profit factor times the gross loss is the gross profit, or it is 99; it is above one exactly when the net result is positive, unless there were trades that won and lost nothing |
| `Backtest.StableIff` | src/backtest/validator.py:106-112 | for profit factors above one, stability is the smallest as a share of the largest and passes exactly from two fifths on |
| `Backtest.WalkForwardCheck` | src/backtest/validator.py:57-122 | the reported means and stability, and that the check passes exactly when the period is long enough and the windows that traded are all profitable and robust |
| `Backtest.EvaluateWindows` | src/backtest/validator.py:80-96 | the metrics of both windows at both thresholds |
| `Backtest.PairIs` | src/backtest/validator.py:76-96 | the second figures of a window are, up to a threshold of 95, those of its trades that reach the stricter threshold |
| `Backtest.Summarise` | src/backtest/validator.py:95-100 | the reported means, and the mean profit factor of each window that traded |
| `Backtest.ActiveMeanIs` | src/backtest/validator.py:95-100 | a window counts with the mean over the thresholds at which it traded, or not at all |
| `Backtest.Decide` | src/backtest/validator.py:102-112 | the verdict on the profit factors of the windows that traded |
| `Backtest.Check` | src/backtest/validator.py:17-55 | the gate in terms of the trades alone: positive cost, profit factor above 1.2, a net gain and a robust walk forward |
| `Drawdown.MaxDrawdownPct` | src/backtest/engine.py:223-237 | the one pass yields the largest drop below the running peak, whatever equity does, and nothing where no trade loses |
| `Drawdown.DrawdownInMoney` | src/backtest/engine.py:223-237 | while the results never lose more than the start, no stretch of trades loses more than the reported share of the money there was before it, and some stretch loses just that |
| `Drawdown.EquityIsSum` | src/backtest/engine.py:229-229 | equity is the start and the sum of the results so far |
| `Drawdown.NoLossNoDrawdown` | src/backtest/engine.py:223-237 | a run without a losing trade has no drawdown |
| `Drawdown.PeakFormIsPairMaximum` | src/backtest/engine.py:223-237 | while equity is never negative, no drop between any two points is larger |
| `Drawdown.PeakFormIsSomePair` | src/backtest/engine.py:223-237 | a reported drawdown is the drop between two points, so the bound is a maximum |
| `Drawdown.FirstDipSeparates` | src/backtest/engine.py:232-234 | at the first fall below zero the two forms agree if and only if equity had no positive level but its peak |
| `Drawdown.SeparatedForGood` | src/backtest/engine.py:223-237 | once they part there they differ at every later length, whatever is traded |
| `Drawdown.OneLevelAgrees` | src/backtest/engine.py:223-237 | while equity knows a single positive level they agree, dips or not |
| `Drawdown.BoundsAllPairsIff` | src/backtest/engine.py:223-237 | for every run they agree if and only if no negative equity lies deeper below the lowest positive one before it than the reported drawdown |
| `Attribution.Aggregate` | src/backtest/attribution.py:26-45 | the buckets are those of the distinct keys, sorted by result |
| `Attribution.GroupBy` | src/backtest/attribution.py:28-30 | each key's list holds the results of its trades in order |
| `Attribution.AttributionConserves` | src/backtest/attribution.py:26-45 | for any keys the buckets' counts and results add up to all trades and the whole result, best bucket first |
| `Attribution.BucketHolds` | src/backtest/attribution.py:33-43 | a bucket counts exactly the trades with its key, and its win rate is the share of those that won |
| `Attribution.FirstKeysGrow` | src/backtest/attribution.py:28-30 | keys stand in the order of their first appearance, later trades only add keys behind |
| `StableSort.SortedFacts` | src/backtest/attribution.py:44-44 | sorting rearranges the rows into descending order |
| `StableSort.SortedStable` | src/shared/db/repository.py:216-216 | rows that tie keep their order |
| `Detector.FactorsCapped` | src/scanner/detector.py:58-184 | every factor respects its cap and the total is their sum cut at a hundred, the lower clamp never acting |
| `Detector.MoreSmartMoneyNeverHurtsIff` | src/scanner/detector.py:66-94 | raising a smart-money count never lowers a score, whatever else holds, if and only if it does not rise from below zero to zero |
| `Detector.GrowthMonotone` | src/scanner/detector.py:70-88 | the growth steps, the boost and the floor together never fall with the count |
| `Detector.BoostIsFive` | src/scanner/detector.py:81-85 | the proportional boost is all or nothing |
| `Detector.SmartMoneySteps` | src/scanner/detector.py:66-94 | in whole numbers: the steps of the smart-money factor, the boost counting exactly when the count grew by more than half |
| `Detector.RankSteps` | src/scanner/detector.py:96-112 | five points each for a gain of 1, 5, 10, 20 and 40 places |
| `Detector.QualitySteps` | src/scanner/detector.py:114-126 | where volume lies against liquidity for 15, 10 and 5 points |
| `Detector.AccelerationSteps` | src/scanner/detector.py:128-138 | five points each for one and a half, two and three times the volume before |
| `Detector.StructureSteps` | src/scanner/detector.py:140-174 | full marks exactly for two good figures, one of them a heavy one; the full penalty exactly for a honeypot, a high rug risk, or volume with no smart money |
| `Detector.BetterRankNeverHurts` | src/scanner/detector.py:96-112 | a better rank never lowers the score |
| `Detector.AlphaScorer.Detect` | src/scanner/detector.py:186-240 | the signals are the specification's, and each band of the histogram grows by its signals until a hundred tokens were scanned |
| `Detector.SignalsIff` | src/scanner/detector.py:40-56 | no signal is of a token short of liquidity, of a honeypot, of too high a rug risk or of too many bundlers and rats; every other token whose score reaches a level has one, and there are no more |
| `Detector.SignalIff` | src/scanner/detector.py:198-224 | one token has a signal if and only if its figures are sound and its score reaches a level, and the level is the highest one reached |
| `Detector.AlphaScorer.CollectSignals` | src/scanner/detector.py:195-224 | one signal for each token that passes and reaches a level, in order |
| `Detector.AlphaScorer.Tallied` | src/scanner/detector.py:227-229 | the histogram's sum grows by one for each signal, in the band of its score |
| `Detector.SumUpdate` | src/scanner/detector.py:229-229 | counting one signal adds one to the sum |
| `Cooldown.PoolIsHistory` | src/scanner/cooldown.py:34-42 | the two dictionaries hold, for each address, the end of its last cooldown and the number of its alerts |
| `Cooldown.AlertsSpaced` | src/scanner/cooldown.py:22-42 | over any run each alert comes no earlier than the cooldown of its level after every earlier alert of its address |
| `Cooldown.HeldBackIff` | src/scanner/cooldown.py:22-24 | a deliverable signal is held back if and only if some earlier alert of its address is younger than the cooldown of its level |
| `Cooldown.FactorsByCount` | src/scanner/cooldown.py:26-32 | the factors of an address run 1, 1, 0.6, 0.3, 0.3, and so on |
| `Cooldown.CooldownManager.IsCooling` | src/scanner/cooldown.py:22-24 | the answer is the specification's at the instant read |
| `Cooldown.CooldownManager.DecayFactor` | src/scanner/cooldown.py:26-32 | the factor is the specification's |
| `Cooldown.CooldownManager.Mark` | src/scanner/cooldown.py:34-42 | only the marked address changes: its expiry and its count |
| `Orchestrator.PublishedAreAlerts` | src/scanner/orchestrator.py:143-203 | what a scan publishes as emitted is exactly the alerts it added to the history, in order and with their levels |
| `Orchestrator.OwnSignalIff` | src/scanner/orchestrator.py:138-161 | every token is served its own signal if and only if tokens that share an address share their signal |
| `Orchestrator.EmittedMatchesDetection` | src/scanner/orchestrator.py:138-203 | with distinct addresses every emitted record passed the filter and has the detector's level, breakdown and score, the third alert of an address with three fifths of it and later ones with three tenths; other records carry the score of sound tokens unchanged |
| `Orchestrator.DuplicateTakesTheOthersSignal` | src/scanner/orchestrator.py:139-171 | with a repeated address a token that was filtered out is emitted without a score |
| `Orchestrator.SignalForIs` | src/scanner/orchestrator.py:139-139 | the address map finds the signal of the last token of the address that has one |
| `Orchestrator.ScannerOrchestrator.AlertsApart` | src/scanner/orchestrator.py:143-203 | at any time of any run of this object its alerts keep their distance |
| `Orchestrator.ScannerOrchestrator.RunChain` | src/scanner/orchestrator.py:76-216 | records, cooldowns and outcome are those of the walk over the tokens; only a scan that gets to the end is stored |
| `Orchestrator.ScannerOrchestrator.TokenLoop` | src/scanner/orchestrator.py:145-203 | the loop is the walk over the tokens, ends at the first failed send, and its turns follow each other on the clock |
| `Orchestrator.ScannerOrchestrator.ServeTokens` | src/scanner/orchestrator.py:145-203 | after the loop the cooldown pool is still the one the whole history of turns leads to |
| `Orchestrator.ScannerOrchestrator.ServeToken` | src/scanner/orchestrator.py:157-203 | check, decay, send and mark in this order: the record published, and the pool moved by exactly one alert, or not at all where the token was held back or the send failed |
| `Orchestrator.ScannerOrchestrator.Prepare` | src/scanner/orchestrator.py:97-106 | the stored snapshot for comparison, and the flag of tokens the hourly scan saw |
| `Orchestrator.FlaggedIff` | src/scanner/orchestrator.py:95-106 | a minute scan flags exactly the tokens the stored hourly snapshot has too and changes nothing else; the previous snapshot is the one of chain and interval |
| `Orchestrator.ScannerOrchestrator.RunCycle` | src/scanner/orchestrator.py:60-74 | the hourly scan runs exactly when its interval has passed since it last started, else its snapshots stay |
| `Orchestrator.FiringsApart` | src/scanner/orchestrator.py:67-69 | over any run the starts of hourly scans lie an interval apart for each that separates them |

## Left out

- Floating point: amounts, scores, levels and instants are reals or integers; `round(x, 8)`, the rounding of a decayed score and of the token level are not modelled.
- Clocks that step back: all instants of a run come from one clock that does not run backwards, also those of different nodes. Where a bound needs no more than single readings, as in `HttpClient.ReportedIff`, the case of a step back is covered.
- `RateLimiter.AsyncTokenBucket.Acquire`: proved for a caller nobody competes with; under competition a caller may poll in vain any number of times; what is promised then is the rate bound and that no poll is refused without need.
- `RateLimiter.RateLimiterRegistry.GetBucket`: a bucket replaced because its settings changed starts full, so the rate bound is per bucket and not per name; names come trimmed and in lower case.
- `Executor.ResilientExecutor.Run`: breaker and guard are not used by others while one execution is under way; overlapping executions are the steps of `Interleaving`, and the bucket's own module covers any order of polls.
- `HttpClient.ResilientHttpClient.RequestJsonUncached`: one endpoint with its breaker, used by one request at a time; storing the answer in the cache is left to the cache module.
- `Orchestrator.ScannerOrchestrator.RunChain`: the security results are an arbitrary map; fetching them concurrently and the timing events are not modelled.
- `FallbackMerge.FetchMarketTicks`: the texts and trace ids of the errors; how a symbol becomes a token id beyond joining chain and lower-cased symbol.
- `PipelineRuns.ReplaysLimited`: an advisory lock lost with its database connection in the middle of an admission, run ids that repeat, and a status written without a run id, which no caller does.
- `CandidateStore.LatestCandidates.SaveScoresAndCandidates`: inside a caller's transaction the cache is invalidated before the commit; that order is one of the interleavings of the transition system there, not of this class.
- `Backtest.Run`: the synthetic ticks, the liquidity gate, features, scores, returns and costs are functions of the minute and of the score; the SHA-256 values behind them are not computed.
- Stage timeouts and the shared deadline of a run: a stage ends in time or not, as the environment likes.
- Provider adapters, the Telegram notifier, Redis, HTTP and SQL drivers, FastAPI routing, authentication checks, settings and factories: foreign code, lookups and wiring.
- Metrics, logs, events and exported reports: output only.
- `feature_engine.py`, `scoring_engine.py`, `cost_model.py`, `optimizer.py`, `batch.py`: straight formulas and simple loops that would only add easy members.
- The hour and regime keys of the attribution: conservation is proved for any keys.
