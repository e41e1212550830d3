# RouterBot: a verified model

RouterBot is a gateway in front of language-model providers. This project models the in-memory
components that decide what it does, and proves properties of them that span several functions or
whole runs. `dafny verify dfyconfig.toml` checks everything (Dafny 4.11).

| files | component |
|---|---|
| Permissions | inheritance of permission sets over possibly cyclic graphs |
| Cooldown, Router, Routing | deployment selection under cooldown, inside retries, inside fallbacks |
| JobQueue, WorkerPool, JobRuns | priority job queue with lazily discarded entries, and its workers |
| CircuitBreaker, Bulkhead, RequestQueue | the resilience components |
| LruCache, LruRuns, CacheManager | the response cache and its use |
| Metrics, Benchmark | ROUGE-L and the cost-quality frontier |
| Autoscaler | replica arithmetic |
| Webhooks | batching and delivery with retries |
| PromptText, PromptManager | placeholder scanning, rendering, version history |
| McpNames | function names of MCP tools |
| Budget | spend per period and admission |
| Subsequences, Ratios, Wrappers | shared definitions |

How the code is represented:

- A source object whose methods update its fields is a class; each method's contract gives its
  answer and its whole new state as a function of the old state. The theorems about runs are
  lemmas about those functions.
- A stretch of asynchronous code between two suspensions is one step. Time is a parameter of each
  step, or a function giving successive readings of the clock where one step reads it repeatedly.
- Floating-point numbers are reals. Generated identifiers are fresh values supplied by the caller.
- What a component does not decide itself (provider replies, HTTP replies, the choice of a
  load-balancing strategy) is a function the theorems quantify over.

Where the code and its documentation disagree, the model follows the code:

- `Router.chat_completion` is documented to fall back when all retries of the primary fail. It does
  so only if the primary is not cooling already and its own failures do not put it into cooldown,
  because a cooling model raises `ModelNotFoundError`, which ends the chain.
  `Routing.HandsOverExactly` gives the exact condition for every primary, cooling or not, whatever
  it replies; `Routing.DefaultsNeverFallBack` shows that with the default settings a fresh primary
  that always fails retryably never meets it.
- `JobQueue.take` is documented to return `None` only when the queue is empty; it also does so when
  the entry it pops is stale. `JobRuns.TakeMissesPending` is a run that ends there,
  `JobRuns.TakeIsFair` says exactly when it happens.
- `JobQueue.cancel` answers true for every job that is not COMPLETED, FAILED or CANCELLED. If a
  worker holds the job, be it running or expired, that worker can still complete it, fail it or
  put it back in the queue; the cancellation is final exactly when no worker holds the job
  (`JobRuns.CancelIsFinalExactlyWhenNotHeld`).
- Provider clients are documented to be cached one per deployment (router.py:179, router.py:254-256)
  but are cached per deployment name, which is the model name. Deployments that share a model name
  therefore share the client of the one selected first, with its credentials, whichever of them
  the strategy picks. `Routing.WrongClient` is such a run; `Routing.OwnClientsExactly` shows that
  every call of every run gets the client of its own deployment if and only if, for every model,
  all deployments have the same provider class, key, address and headers.
- `RequestQueue.clear` is not reflected in any counter; the model counts it in a ghost field.

## Model

| member | source | states |
|---|---|---|
| `Permissions.PermissionManager.ResolvePermissions` | src/routerbot/auth/advanced/permissions.py:52-88 | on any inheritance graph (cycles, diamonds, unknown names) the result is exactly the set of permissions listed by the registered sets reachable from the name |
| `Permissions.PermissionManager.ResolveInto` | src/routerbot/auth/advanced/permissions.py:69-88 | with a shared `visited` set: a call answers for exactly the names it visits first, all reachable from its argument, and leaves no parent of theirs unvisited; the recursion terminates because registered names run out |
| `Permissions.ClosureUnfolds` | src/routerbot/auth/advanced/permissions.py:82-88 | the closure satisfies the naive recursive equation: own permissions plus the closures of the parents, nothing for an unknown name |
| `Permissions.ClosureIsLeast` | src/routerbot/auth/advanced/permissions.py:55-57 | the closure is the least solution of that equation, so a cycle grants nothing no member lists |
| `Permissions.PermissionManager.CheckPermission` | src/routerbot/auth/advanced/permissions.py:90-125 | allowed iff some assigned set inherits the permission; the reported sets end with the first that does, or are all of them |
| `Permissions.PermissionManager.CheckAnyPermission` | src/routerbot/auth/advanced/permissions.py:127-142 | allowed iff some permission is granted by some set, and then names the first such permission |
| `Permissions.PermissionManager.CheckAllPermissions` | src/routerbot/auth/advanced/permissions.py:144-158 | allowed iff every permission lies in the closure of some assigned set; a refusal names the first that does not |
| `Permissions.PermissionManager.constructor` | src/routerbot/auth/advanced/permissions.py:33-37 | the registry is the indexed list of definitions |
| `Permissions.LastDefinitionWins` | src/routerbot/auth/advanced/permissions.py:33-42 | a name is registered iff it is defined, and stands for its last definition |
| `Permissions.PermissionManager.Register` | src/routerbot/auth/advanced/permissions.py:39-42 | adds or replaces exactly one definition |
| `Permissions.PermissionManager.Remove` | src/routerbot/auth/advanced/permissions.py:44-46 | removes exactly one name, known or not |
| `Cooldown.ThresholdExactly` | src/routerbot/router/cooldown.py:48-74 | n failures in a row start a cooldown iff n reaches the threshold; queries answer yes exactly until it ends, and the first later one restores the clean record |
| `Cooldown.StaysConsistent` | src/routerbot/router/cooldown.py:42-74 | an id has fewer failures than allowed iff it has no cooldown on record; every operation keeps this |
| `Cooldown.CooldownManager.RecordSuccess` | src/routerbot/router/cooldown.py:42-46 | forgets the whole record of one id |
| `Cooldown.CooldownManager.RecordFailure` | src/routerbot/router/cooldown.py:48-60 | counts one failure and starts or extends the cooldown at the threshold |
| `Cooldown.CooldownManager.IsInCooldown` | src/routerbot/router/cooldown.py:62-74 | answer and lazy clearing of one query |
| `Cooldown.CooldownManager.Reset` | src/routerbot/router/cooldown.py:81-85 | forgets the whole record of one id |
| `Cooldown.CooldownManager.AllInCooldown` | src/routerbot/router/cooldown.py:87-91 | exactly the ids whose query at that time answers yes |
| `Routing.HandsOverExactly` | src/routerbot/router/router.py:305-372 | with k the retries the replies of a primary ask for and c its failures on record (0 if a cooldown on record is found over), the first fallback is tried iff the primary is registered, is not refused for a cooldown, k == 0 or c + k < allowedFails, and call number k raises an error that does not end the chain; if the primary is stopped, the request ends in ModelNotFoundError after no call if refused, max(1, allowedFails - c) calls if not, and no fallback is tried; for every environment in which no cooldown the primary enters is over at a later look within the request |
| `Routing.DefaultsNeverFallBack` | src/routerbot/router/router.py:154-163 | counterexamples to the documented fallback: with the default settings a fresh primary that fails retryably never hands over, however long its calls take, unless its cooldown is over within the request |
| `Routing.RetriesEndExactly` | src/routerbot/router/retry.py:131-152 | the same for the retry loop alone, around any attempt function that honours cooldown: which way the retries end, told from the replies, the failures on record and the threshold |
| `Routing.RetriesEnd` | src/routerbot/router/retry.py:131-152 | in every environment, also when cooldowns expire meanwhile: the retries end with the reply of the last call the replies ask for or, short of it, with ModelNotFoundError because the model refuses from the start or the last call started a cooldown that was not over at any query of the next attempt |
| `Routing.ExecutionEnds` | src/routerbot/router/router.py:305-334 | the same for every execution of the router |
| `Routing.EveryRequest` | src/routerbot/router/fallback.py:51-94 | from any state: at most (1 + fallbacks) * (maxRetries + 1) calls; models tried in chain order, to the end of the chain unless the reply is an answer or an aborting error; only the last call answered or aborting, its reply reported unless a model was unavailable |
| `Routing.RequestIsTurns` | src/routerbot/router/fallback.py:54-94 | every request consists of turns: the log is cut into one stretch per model tried, in the order of the chain, every call of a stretch going to its model; each turn but the last fails without aborting; the reply is that of the last turn, and a turn ends in ModelNotFoundError before the last call its replies ask for only if its model is unknown, refused for a cooldown, or put into one by the last call of the turn |
| `Routing.TurnAnswers` | src/routerbot/router/fallback.py:63-71 | a model that gets its turn, is registered, has no cooldown on record and is answered by the provider answers the turn with a single call to it |
| `Routing.FallbackAnswers` | src/routerbot/router/router.py:351-372 | if the primary and the first j fallbacks configured for it fail without aborting, the next is called, and answers the request if it is registered, not cooling and the provider answers |
| `Routing.FirstFallbackAnswers` | src/routerbot/router/router.py:340-372 | told from the replies, the failures on record and the configuration: when the primary hands over to another model that is registered and not cooling and the provider answers the next call, the request is answered by that call to the fallback |
| `Routing.FallbacksAreChainRun` | src/routerbot/router/fallback.py:54-94 | the chain loop, for any provider function: order, early return, abort set, and it stops short of the end for nothing else |
| `Routing.SecondIsTried` | src/routerbot/router/fallback.py:54-75 | the second model of a chain is tried iff the first neither answers nor aborts |
| `Routing.RetryIsExecution` | src/routerbot/router/retry.py:131-152 | the retry loop: at most maxRetries + 1 calls, every call but the last failed retryably, the last reply is raised or returned |
| `Routing.AttemptIsAttempt` | src/routerbot/router/router.py:316-332 | an attempt makes exactly one call, or none and raises ModelNotFoundError |
| `Routing.AttemptHonoursCooldown` | src/routerbot/router/router.py:283-328 | a model is called and its retryable failure counted unless it is unknown or has a cooldown on record that is not over at any of the queries; a cooldown found over takes its failure count with it |
| `Routing.EveryRun` | src/routerbot/router/router.py:238-334 | over any sequence of requests: a cooldown starts with exactly the allowedFails-th retryable failure in a row, the model is not called before it ends, and all calls to a model are served by one client |
| `Routing.WrongClient` | src/routerbot/router/router.py:251-271 | concrete counterexample to one client per deployment: of two requests for a model with deployments of different clients, the second is served by the client of the first |
| `Routing.OwnClientsExactly` | src/routerbot/router/router.py:177-179 | in all runs every call is served by the client of the deployment chosen for it iff, for every model, all its deployments come to the same client |
| `Router.Router.SelectDeployment` | src/routerbot/router/router.py:283-303 | selection from the deployments not cooling, each asked at its own time |
| `Router.Router.GetDeployments` | src/routerbot/router/router.py:238-241 | the deployments whose query answers no, in order, with the clearing the queries do |
| `Router.Router.MakeProvider` | src/routerbot/router/router.py:251-271 | the client is built from class, key, address and headers of the deployment and cached under its name, which is the model name |
| `Router.Router.RecordOutcome` | src/routerbot/router/router.py:323-328 | success forgets, retryable failure counts, other errors leave the cooldown record alone |
| `Router.Router.AttemptOnce` | src/routerbot/router/router.py:316-332 | one attempt, as the attempt function of the theorems |
| `Router.Router.ExecuteWithRetry` | src/routerbot/router/router.py:305-334 | the retry loop over attempts |
| `Router.Router.ChatCompletion` | src/routerbot/router/router.py:340-372 | the fallback chain over executions |
| `Router.Router.constructor` | src/routerbot/router/router.py:154-184 | a new router has no failures, no clients and no calls |
| `Router.BuildRegistry` | src/routerbot/router/router.py:190-225 | the registry built from the configuration entries, with keys that refer to the environment resolved |
| `Router.MergeFallbacks` | src/routerbot/router/router.py:227-230 | the fallbacks of the configuration follow those the router was given, model by model |
| `Router.RegistryIsValid` | src/routerbot/router/router.py:196-225 | a model is known iff it has an entry with a slash; every deployment is filed under its own name |
| `Router.RegistryLists` | src/routerbot/router/router.py:196-225 | the deployments of a model are those its entries with a slash describe, in their order: provider before the first slash, key resolved from the environment, address and headers |
| `Router.ErrorClasses` | src/routerbot/router/retry.py:69-101 | which errors are retried (by class, or provider errors with status 429, 500, 502 to 504) and which end a chain; none is both |
| `JobRuns.TakeIsFair` | src/routerbot/core/batch/job_queue.py:93-111 | take hands out the PENDING job that precedes all other PENDING jobs by priority, then by the time it was last queued (submitted or put back by a failure), then by identifier; it returns nothing although a job is PENDING iff the first entry is stale |
| `JobRuns.TakeMissesPending` | src/routerbot/core/batch/job_queue.py:93-108 | concrete counterexample to the documentation: a run after which a job is PENDING and take returns nothing |
| `JobRuns.EntryOfPending` | src/routerbot/core/batch/job_queue.py:70-91 | every PENDING job has an entry with its priority and the time it was last queued, which is that of its submission until it is first taken |
| `JobRuns.PollFindsFirstInLine` | src/routerbot/core/batch/worker_pool.py:92-96 | repeated polling ends with a job iff one is PENDING, and then with the one that precedes all others |
| `JobRuns.StepMovesJob` | src/routerbot/core/batch/job_queue.py:93-202 | the status diagram, job by job: what every step does to every job on record, told from status, age and number of executions; only the job taken, reported on or cancelled and the overdue ones change |
| `JobRuns.SubmitAcceptsExactly` | src/routerbot/core/batch/job_queue.py:70-91 | a job is accepted iff fewer than max_pending_jobs are PENDING, and is then on record as given, waiting, never executed |
| `JobRuns.CancelAnswersExactly` | src/routerbot/core/batch/job_queue.py:151-160 | cancel answers true iff the job is on record and PENDING, IN_PROGRESS or EXPIRED |
| `JobRuns.FailureIsRetried` | src/routerbot/core/batch/job_queue.py:123-140 | a reported failure of a job executed fewer than max_attempts times makes it PENDING again, queued at the time of the failure, and polling will hand out a job |
| `JobRuns.FailedAreExhausted` | src/routerbot/core/batch/job_queue.py:133-149 | over every run a job on record is FAILED only if it has been executed exactly max_attempts times |
| `JobRuns.ResultIsReported` | src/routerbot/core/batch/job_queue.py:113-121 | over every run the result of a COMPLETED job is one its worker reported |
| `JobRuns.ExecutionsBounded` | src/routerbot/core/batch/job_queue.py:93-149 | in every run, at most max_attempts executions per job and max_attempts per accepted submission in all |
| `JobRuns.DoneIsPermanent` | src/routerbot/core/batch/job_queue.py:113-160 | COMPLETED and FAILED records never change in any run |
| `JobRuns.FinishedIsFinal` | src/routerbot/core/batch/job_queue.py:113-202 | a finished job no worker holds never changes in any run |
| `JobRuns.CancelIsFinalExactlyWhenNotHeld` | src/routerbot/core/batch/job_queue.py:151-160 | a job that cancel reports cancelled, whatever its status was, stays so in every later run iff no worker holds it |
| `JobRuns.CancelByStatus` | src/routerbot/core/batch/job_queue.py:151-160 | of waiting and running jobs: cancelling is final iff the job was PENDING |
| `JobRuns.BacklogBounded` | src/routerbot/core/batch/job_queue.py:70-91 | PENDING plus held jobs never exceed max_pending_jobs + worker_count, although fail re-queues without a check |
| `WorkerPool.StepKeepsInv` | src/routerbot/core/batch/job_queue.py:52-222 | every step keeps: at most one entry or one holder per job and never both, PENDING jobs have an entry, IN_PROGRESS jobs a holder, COMPLETED and FAILED neither, attempts equal to executions and within the limit, FAILED jobs at the limit |
| `WorkerPool.RunKeepsInv` | src/routerbot/core/batch/worker_pool.py:89-112 | the same over every run in which only the holding worker reports |
| `WorkerPool.WorkerPool.Poll` | src/routerbot/core/batch/worker_pool.py:92-98 | the part of a worker iteration before the handler is one Take step |
| `WorkerPool.WorkerPool.Report` | src/routerbot/core/batch/worker_pool.py:99-106 | the part after the handler is one Complete or Fail step |
| `JobQueue.JobQueue.Submit` | src/routerbot/core/batch/job_queue.py:52-91 | refused at the limit of PENDING jobs, otherwise one new PENDING job and its entry |
| `JobQueue.JobQueue.Take` | src/routerbot/core/batch/job_queue.py:93-111 | pops the least entry and starts its job if that is still PENDING |
| `JobQueue.JobQueue.Complete` | src/routerbot/core/batch/job_queue.py:113-121 | marks and stores the result, unknown jobs ignored |
| `JobQueue.JobQueue.Fail` | src/routerbot/core/batch/job_queue.py:123-149 | re-queues while attempts remain, otherwise FAILED |
| `JobQueue.JobQueue.Cancel` | src/routerbot/core/batch/job_queue.py:151-160 | refused for unknown and finished jobs |
| `JobQueue.JobQueue.ExpireStaleJobs` | src/routerbot/core/batch/job_queue.py:184-202 | expires exactly the waiting and running jobs older than their time to live and counts them |
| `JobQueue.JobQueue.Clear` | src/routerbot/core/batch/job_queue.py:212-222 | removes every job and every entry |
| `JobQueue.Least` | src/routerbot/core/batch/job_queue.py:99-100 | a non-empty priority queue has one least entry by priority, time and identifier |
| `CircuitBreaker.AdmissionBound` | src/routerbot/core/resilience/circuit_breaker.py:62-113 | after opening at t, without recorded success or reset, at most floor((to - t) / recovery_timeout) * half_open_max_calls requests are admitted until to |
| `CircuitBreaker.AdmissionBoundIsTight` | src/routerbot/core/resilience/circuit_breaker.py:62-146 | for every number of periods some run admits exactly that many |
| `CircuitBreaker.CanCloseExactly` | src/routerbot/core/resilience/circuit_breaker.py:87-97 | a half-open episode can close the circuit iff success_threshold <= half_open_max_calls |
| `CircuitBreaker.StaysHalfOpen` | src/routerbot/core/resilience/circuit_breaker.py:73-97 | otherwise it stays HALF_OPEN for ever and admits only its remaining probes |
| `CircuitBreaker.OpensAtThreshold` | src/routerbot/core/resilience/circuit_breaker.py:99-113 | a closed circuit is opened by exactly the failure completing a streak of failure_threshold since the last success or reset |
| `CircuitBreaker.StaysOpen` | src/routerbot/core/resilience/circuit_breaker.py:62-97 | an open circuit admits nothing before the recovery timeout and stays open since the same time, whatever is asked and recorded, successes included |
| `CircuitBreaker.FailedProbeShuts` | src/routerbot/core/resilience/circuit_breaker.py:99-113 | one counted failure in HALF_OPEN, however many probes are left, opens the circuit at that time, and nothing is admitted for a whole recovery timeout; an excluded failure changes nothing in any state |
| `CircuitBreaker.ClosesAtThreshold` | src/routerbot/core/resilience/circuit_breaker.py:87-97 | a circuit that has just become half open is closed by exactly the success that completes success_threshold, in any run without counted failures and resets |
| `CircuitBreaker.ResetStartsAfresh` | src/routerbot/core/resilience/circuit_breaker.py:115-118 | a reset breaker behaves as a new one from any state |
| `CircuitBreaker.EveryRunIsReachable` | src/routerbot/core/resilience/circuit_breaker.py:87-162 | reachable CLOSED states have failure_count < failure_threshold, HALF_OPEN ones unfinished successes and probes within the limit |
| `CircuitBreaker.AdmitsExactly` | src/routerbot/core/resilience/circuit_breaker.py:73-85 | in reachable states: admitted iff closed, or half open with a probe left, or open for the recovery timeout |
| `CircuitBreaker.CircuitBreaker.CurrentState` | src/routerbot/core/resilience/circuit_breaker.py:62-71 | reading the state half-opens an open circuit after the timeout |
| `CircuitBreaker.CircuitBreaker.AllowRequest` | src/routerbot/core/resilience/circuit_breaker.py:73-85 | answer and new state of one request |
| `CircuitBreaker.CircuitBreaker.RecordSuccess` | src/routerbot/core/resilience/circuit_breaker.py:87-97 | new state after a success |
| `CircuitBreaker.CircuitBreaker.RecordFailure` | src/routerbot/core/resilience/circuit_breaker.py:99-113 | new state after a failure, counted or excluded |
| `CircuitBreaker.CircuitBreaker.Close` | src/routerbot/core/resilience/circuit_breaker.py:155-162 | back to the initial state |
| `CircuitBreaker.CircuitBreaker.TransitionToOpen` | src/routerbot/core/resilience/circuit_breaker.py:137-146 | opened now, counters of the episode cleared |
| `LruRuns.Inclusion` | src/routerbot/cache/memory.py:62-104 | LRU inclusion: for capacities n <= m and the same requests, stores and deletions, the key order of the small cache is always a suffix of that of the large one, whatever the TTLs |
| `LruRuns.LargerHitsAtLeast` | src/routerbot/cache/memory.py:62-104 | while nothing expires, for any operations including plain lookups, every hit of the small cache is a hit of the large one, so its hits are at most as many, and its keys are a subsequence |
| `LruRuns.EveryHitIsAHit` | src/routerbot/cache/memory.py:62-104 | the same at any one point of the run |
| `LruRuns.ExpiryBreaksHitInclusion` | src/routerbot/cache/memory.py:69-72 | for any capacities 0 < n < m, a run in the order of its times after which the smaller cache hits and the larger misses |
| `LruRuns.HitInclusionExactly` | src/routerbot/cache/memory.py:62-104 | for capacities n <= m, every hit of the smaller cache is a hit of the larger in all runs, whatever expires, iff n == 0 or n == m |
| `LruRuns.HoldsMostRecentlyUsed` | src/routerbot/cache/memory.py:74-100 | after requests and stores the cache holds exactly the last max_size distinct keys used, in order of last use |
| `LruRuns.OnlyStoresChangeEntries` | src/routerbot/cache/memory.py:79-100 | a key stands for what was last stored under it; no other operation changes it except by removal |
| `LruRuns.HitsExactly` | src/routerbot/cache/memory.py:62-77 | after any run a lookup hits iff the cache holds the key and its entry is no older than its time to live, and returns the entry last stored under the key |
| `LruRuns.LookupLeaves` | src/routerbot/cache/memory.py:62-77 | a key found becomes the most recently used, one not found is not held any more, and all other keys keep order and entries |
| `LruRuns.RemoveForgets` | src/routerbot/cache/memory.py:102-104 | a key removed is not held any more; all others keep order and entries |
| `LruRuns.PutIs` | src/routerbot/cache/memory.py:91-100 | set keeps exactly the entries of the most recently used keys |
| `LruCache.InMemoryCacheBackend.Get` | src/routerbot/cache/memory.py:62-77 | hit moves to the end, expired entries are deleted, counters |
| `LruCache.InMemoryCacheBackend.Set` | src/routerbot/cache/memory.py:79-100 | effective time to live, creation time, replacement and eviction |
| `LruCache.InMemoryCacheBackend.EvictOldest` | src/routerbot/cache/memory.py:98-100 | the eviction loop removes the oldest entries until the rest fits |
| `LruCache.InMemoryCacheBackend.Delete` | src/routerbot/cache/memory.py:102-104 | removes one key, known or not |
| `LruCache.InMemoryCacheBackend.Clear` | src/routerbot/cache/memory.py:106-110 | empties cache and counters |
| `CacheManager.ResponseCacheManager.Lookup` | src/routerbot/cache/manager.py:72-120 | bypassed requests leave the backend alone, others are one get |
| `CacheManager.ResponseCacheManager.Store` | src/routerbot/cache/manager.py:126-187 | stores unless disabled; no or zero time to live means the default |
| `CacheManager.ResponseCacheManager.Complete` | src/routerbot/proxy/routes/completions.py:214-272 | check before call, store after call, each at its own time, is one Serve step, or one Look step when the provider failed or the guardrails blocked the response; a hit is answered from the cache; a disabled cache is left alone |
| `Metrics.LcsLength` | src/routerbot/evaluation/metrics.py:130-143 | the two-row table returns the maximum length over all common subsequences |
| `Metrics.CellIsLongestCommon` | src/routerbot/evaluation/metrics.py:136-143 | the recurrence gives the length of some common subsequence and of none longer |
| `Metrics.RougeLIsAScore` | src/routerbot/evaluation/metrics.py:118-127 | on any token lists: precision times candidate length and recall times reference length are L; F1 is 2L/(m+n) or 0 if both are empty, scores lie in [0,1], swapping the texts swaps precision and recall, F1 is 1 iff the lists are equal and not empty |
| `Metrics.LcsBounds` | src/routerbot/evaluation/metrics.py:130-143 | L is symmetric, at most either length, and both lengths iff the lists are equal |
| `Benchmark.FrontierCovers` | src/routerbot/evaluation/benchmark.py:255-263 | every point has a frontier point at least as good in quality and cost |
| `Benchmark.FrontierIsStrict` | src/routerbot/evaluation/benchmark.py:255-263 | of two frontier points either both values are equal or the one of better quality costs strictly more |
| `Benchmark.OffFrontierIsBeaten` | src/routerbot/evaluation/benchmark.py:255-263 | a point off the frontier has a frontier point at least as good in quality and cost and strictly better in one |
| `Benchmark.PointMeans` | src/routerbot/evaluation/benchmark.py:238-253 | cost of a point times its samples is the total cost of the model; what was not measured counts as 0 |
| `Benchmark.BestIsFirst` | src/routerbot/evaluation/benchmark.py:279-287 | recommend is empty iff no model qualifies; otherwise its first entry has the best quality of all qualifying models and the least cost for that quality |
| `Benchmark.ParetoFrontier` | src/routerbot/evaluation/benchmark.py:238-265 | the points of the run, sorted by quality; of two marked points either both values are equal or the better one costs more, and every unmarked point is beaten by a marked one |
| `Benchmark.Recommend` | src/routerbot/evaluation/benchmark.py:267-287 | exactly the frontier points within budget and minimum quality, sorted by quality; of any two the one of better quality costs more |
| `Benchmark.ByQualitySorts` | src/routerbot/evaluation/benchmark.py:265 | the sort is a permutation in descending quality |
| `Benchmark.ByQualityIsStable` | src/routerbot/evaluation/benchmark.py:265 | points of equal quality keep their order |
| `Autoscaler.DesiredIsLeast` | src/routerbot/k8s/autoscaler.py:145-172 | the unclamped desired count is the least replica count on which value times present replicas is at most target times replicas for cpu, memory and rps, each where it is measured and has a target; the present count when nothing is measured |
| `Autoscaler.ConvergesInOneStep` | src/routerbot/k8s/autoscaler.py:72-91 | after applying the clamped count, any later evaluation under the same total load changes nothing |
| `Autoscaler.DesiredFollowsLoad` | src/routerbot/k8s/autoscaler.py:145-172 | the unclamped desired count depends only on the total load, not on the replicas it was measured on |
| `Autoscaler.Clamp` | src/routerbot/k8s/autoscaler.py:75-76 | never below the minimum, never above the maximum if the bounds are consistent, identity inside them |
| `Autoscaler.ScalesExactly` | src/routerbot/k8s/autoscaler.py:72-110 | told from the timed event log: an evaluation logs an event from the present count to the clamped desired count, in that direction, iff they differ and no event of the same gateway and direction was recorded less than that cooldown ago |
| `Autoscaler.EveryRun` | src/routerbot/k8s/autoscaler.py:92-110 | over every run of evaluations of any gateways the timestamps follow the event log, and two events of one gateway and direction are at least the cooldown apart |
| `Autoscaler.Autoscaler.Evaluate` | src/routerbot/k8s/autoscaler.py:40-110 | one step of the controller of the theorems, on the replicas in status or else in the spec; nothing happens while autoscaling is off |
| `Autoscaler.Autoscaler.ApplyScaling` | src/routerbot/k8s/autoscaler.py:112-122 | writes all four replica fields, or none when there is nothing to scale |
| `Webhooks.NothingLost` | src/routerbot/observability/webhooks.py:154-172 | batches cut so far followed by the queue spell the enqueue sequence exactly once; enqueued = pending + in flight + delivered + failed + dropped for want of a client; at most max_retries posts per batch, under overlapping flushes |
| `Webhooks.FlushCutsAll` | src/routerbot/observability/webhooks.py:161-172 | a flush cuts the whole queue off as one new batch and leaves earlier batches alone |
| `Webhooks.DropsExactly` | src/routerbot/observability/webhooks.py:219-221 | events are dropped in a run iff some flush of it meets a queue that is not empty and has no client |
| `Webhooks.DeliveredExactly` | src/routerbot/observability/webhooks.py:238-290 | a batch is delivered iff a status below 300 comes within the retries before any client error other than 429, otherwise failed whole; no post after the decisive one, and every post before it counts as retried |
| `Webhooks.DeliverIsPosts` | src/routerbot/observability/webhooks.py:238-281 | the retry loop is one post followed by the rest of the loop, unless the post settles the batch |
| `Webhooks.DeliveryIsRun` | src/routerbot/observability/webhooks.py:238-290 | the loop refines the steps: left to itself, a batch in flight is settled by a run of exactly the posts the loop makes, with the counters it leaves |
| `Webhooks.FateIsFinal` | src/routerbot/observability/webhooks.py:246-264 | a settled batch never changes in any run |
| `Webhooks.StepKeepsInv` | src/routerbot/observability/webhooks.py:154-290 | every step conserves events and counters |
| `Webhooks.WebhookDelivery.Append` | src/routerbot/observability/webhooks.py:154-159 | queues one event and reports whether the batch size is reached |
| `Webhooks.WebhookDelivery.CutBatch` | src/routerbot/observability/webhooks.py:163-169 | the whole queue becomes the batch |
| `Webhooks.WebhookDelivery.DeliverBatch` | src/routerbot/observability/webhooks.py:217-290 | the delivery loop, as the function of the theorems; without a client the batch is dropped and no counter moves |
| `PromptText.ScanPrints` | src/routerbot/hub/prompt_manager.py:28 | the pieces of the scan print back to the text |
| `PromptText.ScanIsMaximal` | src/routerbot/hub/prompt_manager.py:28 | no literal character of the scan starts a placeholder |
| `PromptText.ScanIsUnique` | src/routerbot/hub/prompt_manager.py:28 | the scan is the only decomposition with both properties |
| `PromptText.ValuesAreNotRescanned` | src/routerbot/hub/prompt_manager.py:266-270 | around each placeholder of any text the rendering is that of the text before it, then the value as it stands, then that of the text after it |
| `PromptText.FillWithNothing` | src/routerbot/hub/prompt_manager.py:266-270 | names without a value, or standing for themselves, leave the text unchanged |
| `PromptText.Names` | src/routerbot/hub/prompt_manager.py:69-72 | the detected names are those of the placeholders, each once |
| `PromptText.NamesInOrder` | src/routerbot/hub/prompt_manager.py:69-72 | the detected names come in the order in which they first occur |
| `PromptManager.DetectedRendersExactly` | src/routerbot/hub/prompt_manager.py:256-270 | with detected variables rendering fails iff some placeholder in the text has no value, naming exactly those; otherwise every placeholder is replaced by its value |
| `PromptManager.RendersExactly` | src/routerbot/hub/prompt_manager.py:256-270 | with any declared variables rendering fails iff a required one has neither value nor default, naming exactly those; otherwise a declared name is replaced by its value or the default of its last declaration, and an undeclared one stays even if a value is supplied |
| `PromptManager.CreatedRenders` | src/routerbot/hub/prompt_manager.py:63-72 | a template is not found before its creation, and then renders with the variables given, be they none, or with those detected |
| `PromptManager.LatestIsCurrent` | src/routerbot/hub/prompt_manager.py:241-252 | rendering without a version renders the newest; versions exist exactly from 1 to the current number |
| `PromptManager.HistoryIsKept` | src/routerbot/hub/prompt_manager.py:127-143 | an update changes the rendering of no earlier version and no other template |
| `PromptManager.VersionsAreImmutable` | src/routerbot/hub/prompt_manager.py:107-157 | over any run that does not delete the template, every version renders as it did before, whatever is created, updated or deleted |
| `PromptManager.EveryStoreIsConsistent` | src/routerbot/hub/prompt_manager.py:49-157 | over any run of creations, updates and deletions: versions 1, 2, ... of every template are on record, the template is the last of them, and the number of templates stays within the limit |
| `PromptManager.UpdateStaysConsistent` | src/routerbot/hub/prompt_manager.py:118-143 | version numbers stay 1, 2, ... and the template stays the last of them |
| `PromptManager.PromptManager.CreateTemplate` | src/routerbot/hub/prompt_manager.py:49-101 | refused at capacity, otherwise a template at version 1 |
| `PromptManager.PromptManager.UpdateTemplate` | src/routerbot/hub/prompt_manager.py:107-146 | adds one version to a known template |
| `PromptManager.PromptManager.DeleteTemplate` | src/routerbot/hub/prompt_manager.py:148-157 | removes the template with its versions |
| `PromptManager.PromptManager.RenderTemplate` | src/routerbot/hub/prompt_manager.py:211-270 | lookup, missing check and substitution |
| `McpNames.RoundTripExactly` | src/routerbot/core/mcp/registry.py:178-193 | for a registered, non-empty server name, resolving the function name gives server and tool back, whatever the tool, iff server + "_" contains no "__" |
| `McpNames.NoCollision` | src/routerbot/core/mcp/models.py:108-121 | under that condition no two tools share a function name |
| `McpNames.NamesDifferExactly` | src/routerbot/core/mcp/models.py:108-121 | for a set of non-empty server names: no two tools share a function name, whatever the tools are called, iff no server name followed by "__" begins another followed by "_" |
| `McpNames.CollisionWitness` | src/routerbot/core/mcp/models.py:117 | two tools that share a name, one of which is resolved to the other server |
| `McpNames.ResolveIsSound` | src/routerbot/core/mcp/registry.py:189-193 | a resolved pair has a registered server and prints back to the name |
| `McpNames.BareNames` | src/routerbot/core/mcp/models.py:108-121 | a tool without a server keeps its bare name, which resolves to nothing if it has no separator |
| `Budget.OverspendBounded` | src/routerbot/router/budget.py:188-247 | recorded spend stays below max_budget + k * c in every period when at most k admitted requests are open and each costs at most c |
| `Budget.SpendIsSum` | src/routerbot/router/budget.py:199-208 | in every run current spend is the sum of the positive costs recorded since the period began |
| `Budget.AllowedExactly` | src/routerbot/router/budget.py:231-241 | a check allows iff the costs recorded in the current period are below the budget, and reports spend, remainder and excess accordingly |
| `Budget.GatesExactly` | src/routerbot/router/budget.py:188-247 | over any run of spends and checks on any number of providers: a provider without a budget is always allowed, one with a budget iff the positive costs recorded for it since its period began come to less; spend, remainder and excess are reported accordingly |
| `Budget.LookLeaves` | src/routerbot/router/budget.py:90-99 | the first look after the end of a period begins the next one at the time of the look with nothing spent; any other look leaves the account as it is |
| `Budget.PeriodIsCurrent` | src/routerbot/router/budget.py:90-99 | every look leaves a period that is not over: the same one, or a new one with nothing spent |
| `Budget.ProviderBudgetManager.RecordSpend` | src/routerbot/router/budget.py:188-219 | charges the budget of the provider and of every tag listed, each after a due reset; other budgets and non-positive costs change nothing |
| `Budget.ChargedPerMention` | src/routerbot/router/budget.py:210-217 | a tag is charged once for every time it is listed, after at most one reset; all other accounts stay as they are |
| `Budget.ProviderBudgetManager.CheckProviderBudget` | src/routerbot/router/budget.py:223-247 | the answer and the lazy reset of one check |
| `Budget.ProviderBudgetManager.CheckTagBudget` | src/routerbot/router/budget.py:249-270 | the same for a tag |
| `Budget.ProviderBudgetManager.GetAvailableProviders` | src/routerbot/router/budget.py:272-282 | the providers a check allows, in order; the accounts of all of them have been looked at, the others not touched |
| `Budget.AllowedAre` | src/routerbot/router/budget.py:272-282 | the available providers are those without a budget and those with money left |
| `Budget.AllowedInOrder` | src/routerbot/router/budget.py:272-282 | they come in the order given |
| `RequestQueue.EveryRun` | src/routerbot/core/resilience/request_queue.py:53-142 | depth within the limit, enqueued = drained + expired + cleared + depth, items handed out in the order accepted, none twice |
| `RequestQueue.DrainsFirstLive` | src/routerbot/core/resilience/request_queue.py:78-101 | drain returns the first limit items that are no older than their time to live when popped, in order, drops only older ones, and stops as soon as it has enough |
| `RequestQueue.DrainAllEmpties` | src/routerbot/core/resilience/request_queue.py:103-105 | drain_all empties the queue and returns every live item |
| `RequestQueue.OfferedExactly` | src/routerbot/core/resilience/request_queue.py:53-72 | what becomes of an offer: switched off, invalid for a negative time to live, rejected and counted iff full, otherwise queued last with the time to live given or the default for none or zero |
| `RequestQueue.RequestQueue.Enqueue` | src/routerbot/core/resilience/request_queue.py:53-72 | disabled, invalid, full or queued, with the counters |
| `RequestQueue.RequestQueue.Drain` | src/routerbot/core/resilience/request_queue.py:78-101 | the loop, as the function of the theorems; no or zero limit means the batch size |
| `RequestQueue.RequestQueue.DrainAll` | src/routerbot/core/resilience/request_queue.py:103-105 | a drain with room for every item |
| `RequestQueue.RequestQueue.Clear` | src/routerbot/core/resilience/request_queue.py:133-142 | drops and counts everything |
| `Bulkhead.EveryRun` | src/routerbot/core/resilience/bulkhead.py:50-91 | active is the number of callers inside and at most max_concurrent, permits are conserved, arrivals = waiting + accepted + rejected, accepted = inside + gone |
| `Bulkhead.StepKeepsInv` | src/routerbot/core/resilience/bulkhead.py:50-91 | every step keeps this, and a permit is free while somebody queues only if somebody has been woken and is yet to resume |
| `Bulkhead.SomebodyWillWake` | src/routerbot/core/resilience/bulkhead.py:73-91 | while somebody queues, a caller inside or a woken one is still to pass a permit on |
| `Bulkhead.WaitsThoughNotFull` | src/routerbot/core/resilience/bulkhead.py:73-74 | a run after which the body is empty and a newcomer still has to queue |
| `Bulkhead.FailFastExactly` | src/routerbot/core/resilience/bulkhead.py:57-72 | a fail-fast arrival is rejected iff max_concurrent callers are inside |
| `Bulkhead.WaitsExactly` | src/routerbot/core/resilience/bulkhead.py:73-84 | an arrival that may wait has to iff max_concurrent callers are inside or a woken caller is yet to resume, and otherwise enters at once |
| `Bulkhead.GrantsInOrder` | src/routerbot/core/resilience/bulkhead.py:73-74 | permits are granted in the order of arrival: a step that wakes a caller wakes all that queue ahead of it |
| `Bulkhead.LineMovesForward` | src/routerbot/core/resilience/bulkhead.py:73-79 | a waiting caller is granted its permit or keeps its place or moves ahead |
| `Bulkhead.Bulkhead.AcquireArrive` | src/routerbot/core/resilience/bulkhead.py:53-74 | the part of acquire before the first suspension: enter, be turned away, or queue |
| `Bulkhead.Bulkhead.AcquireResume` | src/routerbot/core/resilience/bulkhead.py:81-84 | a woken caller enters, and the semaphore may wake others |
| `Bulkhead.Bulkhead.AcquireTimeout` | src/routerbot/core/resilience/bulkhead.py:75-79 | a waiting caller gives up, and gives back a permit it was granted |
| `Bulkhead.Bulkhead.Leave` | src/routerbot/core/resilience/bulkhead.py:86-91 | release and counter when the body ends |

## Left out

- Deployment statistics: `active_requests` and `avg_latency_ms` of a deployment only steer the load-balancing strategy, whose choice is arbitrary in the model.
- Streaming, embeddings and the other request kinds of the router: they use the same retry loop or none.
- Closing the router: `Router.aclose` (src/routerbot/router/router.py:273-277) empties the client cache; the runs of `Routing.EveryRun` and `Routing.OwnClientsExactly` do not contain it.
- Concurrent requests in the router: the run theorems of Routing are about requests one after the other; with requests in flight at once a success can end a cooldown early.
- Unknown provider names: the class lookup is an arbitrary function; that it could raise is not modelled, as the OpenAI-compatible class it ends with is always registered (src/routerbot/providers/registry.py:113-133).
- Retry delays, jitter and backoff: they only let time pass, which the clock readings allow for.
- Task cancellation everywhere, and the worker-pool start, stop and callback code.
- The heap inside `asyncio.PriorityQueue`: the queue is a multiset whose least entry is popped.
- The event loop under `asyncio.Semaphore`: the model keeps its permits, its first-come queue and the callers it has woken; how many it wakes at once is left open. On Python 3.11 `wait_for` runs the acquisition in a task of its own, so that even a caller that finds a permit suspends once; the model lets it enter at once, as later versions do.
- Timestamps that are only reported (`started_at`, `completed_at`, last failure, last success, half-opened).
- Cache keys: the digest of a request is its key; tenants and sampling parameters are part of it.
- The handling of JSON, HTTP and HMAC in webhooks, exceptions other than HTTP errors while posting, and a client that goes away between the posts of a batch.
- Tokenisation, BLEU, ROUGE-1/2 and cosine similarity; the aggregation of sample results into summaries.
- The text of reasons and messages (permission refusals, scaling reasons, errors).
- Word characters of the placeholder syntax are a parameter; the model assumes only that braces are none.
- Prompt statuses, tags, listing, A/B tests and analytics.
- `Autoscaler.clear_events`, which empties the event log but not the timestamps, and the gateway name in an event: the model logs the whole key.
- Setting and removing budgets, and the spend queries: they give only easy members.
- MCP connections, health checks and access control.
