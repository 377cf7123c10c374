# Verified models of the stackyrd core protocols

This project models the in-memory protocols and the self-contained algorithms of
stackyrd (a Go service framework) and proves what they guarantee. `dafny verify
dfyconfig.toml` checks all of it.

## How the models are built

One module stands for one component. Where the Go code is an object whose methods
take locks, the module has two layers:

* a value-level machine: a `State`, an `Event` for every critical section (or
  every channel operation, where a lock is given up in the middle of a call), a
  `Step`, and `Run(events)`. A step that is not enabled leaves the state alone
  and time moves only through `Tick`, so *every* sequence of events is an
  interleaving of the goroutines. Theorems quantify over all of them, and count
  what happened in a run with functions that read the events, not the counters
  of the state;
* a class with the Go object's fields, whose methods are written as the Go
  methods are. A ghost `history` lists the events so far and `Valid()` says that
  the fields are exactly `Run(history)`. A method that says
  `history == old(history) + [e]` together with `Valid()` thereby states its
  whole new state, and every theorem about runs applies to the object.

Pure computations and loops (images, paging, retry, the theme editor) are
functions with laws, and methods whose loops are proved against the functions.

| module | component | the guarantee at its centre |
|---|---|---|
| `RateLimit` | in-memory rate limiter | at most `rate * (1 + d)` calls in any interval as long as the window, with `d <= 1` |
| `RedisRateLimit` | sorted-set rate limiter | the decision is exact, at most `rate` calls in any window |
| `WorkerPool` | worker pool | accepted = queued + running + finished, each job once; Stop drains |
| `Batch` | batch executor | at most the batch size at once, each index completed once, Done closed once, at the end |
| `Broadcast` | event broadcaster | both indexes agree, channels closed once, delivery is conserved |
| `Cache`, `ShardIndex` | TTL caches and the shard hash | linearizable to a timed map; which key lengths are safe |
| `CircuitBreaker` | circuit breaker | sharp invariant, trips and recovers exactly when it should |
| `Hub` | WebSocket hub | who is in which map, which sends panic |
| `Cron` | cron job table | table and scheduler hold the same jobs |
| `Image`, `Resize` | image geometry | rotations add up, crops stay inside, the shape is kept |
| `Retry` | retry with backoff | call count, result and total sleep |
| `SaveTheme` | theme line editor | which line changes, and when the last writer wins |
| `Pagination`, `Users` | page windows, user table | pages tile the list; the index is id - 1 |
| `Common` | shared by the others | an optional value and one step of arithmetic |

## Where the code does not do what its documentation says

The models follow the code. Each point names the lemmas behind it; where a
promise fails, one of them says exactly when it is kept.

* Rate limiter: `rate` per window is not what the two-phase cleanup gives.
  `RateLimit.LimitBreaksIff`: with no such loss in the window so far, a delete
  lets calls break the limit if and only if it lists a key that has a live entry
  again, which is the check that is not made under the write lock.
  `RateLimit.BurstReachesTwice` lets `2 * rate` calls pass in one instant, and
  that is the worst case (`RateLimit.IntervalBound`). An allowance is `rate`, or 1
  when `rate` is less, because the first call of an entry does not look at `rate`.
* Worker pool: the comments at `async.go:256-259` and `302-303` say a late job is
  drained or dropped. `WorkerPool.QueuedJobDrainedIff`: a job in the queue has
  finished whenever Stop returns if and only if some worker had not left when it
  was queued. One that lands there later stays for good
  (`WorkerPool.SubmitAfterStopIsLost`).
* WebSocket hub: the comment at `handler.go:131-132` says SendToClient can never
  send on a closed channel. It does after a broadcast has thrown the client out
  (`Hub.SendToEvictedPanics`), because that leaves the client in `clientsByID`.
  `Hub.PanicsExactly` says this is the only case, and `Hub.EvictedIdIsPoisoned`
  that the ID then stays unusable for good.
* Sharded cache: the shard index can be negative, and the cache then panics, for
  instance on `user:123` (`ShardIndex.UserKeyPanics`). `ShardIndex.LengthIsSafeIff`:
  all keys of a length have a shard if and only if the length is at most seven
  or nine; there are keys without one of length eight and of every length from
  ten on.
* Circuit breaker: the comment at `circuit_breaker.go:118-121` says a probe that
  succeeds closes the breaker. `CircuitBreaker.SuccessClosesIff`: a success closes
  it if and only if the allowance is used up, whoever reports it.
  `CircuitBreaker.ClosesWithAllInIff`: it then finds the probes of the episode all
  in if and only if it is their own last report; for every configuration a late
  report of an older call closes the breaker while all of them are still out
  (`CircuitBreaker.LateSuccessCloses`). `CircuitBreaker.FullEpisodeAdmitsIff`: a
  full episode admits another call, after any wait, if and only if any report
  arrives or Reset is called.
* SaveTheme: last writer wins if and only if the name written first has no `#`
  (`SaveTheme.LastWriterWinsIff`). The comment at `config.go:335-336` says a theme
  outside the top-level `app:` block is never rewritten.
  `SaveTheme.SaveEditsAppThemeIff`: in a file that can be saved the line rewritten
  lies in that block if and only if the block has an editable theme line and there
  is none above it, and it is `app.theme` itself if and only if, besides, no theme
  nested more deeply in the block comes first. Two families of files in which
  another block's theme is rewritten are `SaveTheme.ThemeOfAnotherBlockIsEdited`
  and `SaveTheme.ThemeOfNestedAppIsEdited`. Trailing white space of the line turns
  into indentation (`SaveTheme.IndentKeptIff`).
* ResizeImage: a thin image can get a target without any pixel
  (`Resize.TargetEmptyIff`), and without the aspect ratio an unset limit counts
  as size 0 (`Resize.UnsetLimitWithoutAspect`).
* Task list: its form of the number of pages agrees with CalculateMeta's if and
  only if the sum in it does not overflow (`Pagination.PageCountsAgreeIff`).
* Batch executor: the 32-bit countdown makes Done mean "all complete" if and only
  if there are at most 2^32 operations (`Batch.DoneMeansAllIffFits`).
* Retry: the settings of a configuration are all ignored if and only if its
  attempt count is not positive (`Retry.SettingsIgnoredIff`).

## Model

| member | source | states |
|---|---|---|
| RateLimit.CountsCapped | internal/middleware/ratelimit.go:112-129 | an entry counts between 1 and one allowance, and was last seen no later than now |
| RateLimit.CoveredAlways | internal/middleware/ratelimit.go:91-129 | the invariant behind the bound: the calls of an interval are covered by the entry's count plus one allowance per live entry thrown away, and after one such loss the key cannot be listed again inside the interval |
| RateLimit.IntervalBound | internal/middleware/ratelimit.go:91-129 | in every run, every interval no longer than the window holds at most allowance * (1 + d) allowed calls of a key, where d counts the deletions of a live entry in it; d is at most 1 |
| RateLimit.UndisturbedBound | internal/middleware/ratelimit.go:91-129 | if no call of the key falls between a scan that lists it and its delete, no live entry is deleted and one allowance is the bound |
| RateLimit.AtomicHoldsNothing | internal/middleware/ratelimit.go:91-110 | when every scan is followed at once by its delete, no call can fall between them |
| RateLimit.AtomicCleanupBound | internal/middleware/ratelimit.go:91-129 | with scan and delete as one step, one allowance is the bound for every interval no longer than the window |
| RateLimit.CallsLetThrough | internal/middleware/ratelimit.go:112-129 | without a live entry, the next n <= rate calls of a key at one instant are all allowed, counted in every interval around it, and leave an entry that counts n |
| RateLimit.BurstReachesTwice | internal/middleware/ratelimit.go:94-109 | for every rate of at least 1 and every window there is a run that lets 2 * rate calls through in a single instant |
| RateLimit.LastCallWasLetThrough | internal/middleware/ratelimit.go:116-128 | an entry is last seen at a call that was really let through |
| RateLimit.LimitBreaksIff | internal/middleware/ratelimit.go:94-109 | in every run with no live entry of the key thrown away within the window, a delete followed by calls can exceed the rate in some interval of the window if and only if the delete lists the key and its entry is live again |
| RateLimit.CountIsBacked | internal/middleware/ratelimit.go:112-129 | an entry's count never exceeds the calls really let through within that many windows before it was last seen |
| RateLimit.DeniedOnlyAfterRate | internal/middleware/ratelimit.go:116-121 | a call is refused only if rate calls of its key were let through within the last rate windows |
| RateLimit.PassDropsIdle | internal/middleware/ratelimit.go:91-110 | a cleanup pass removes an entry exactly when nothing has touched its key for more than the window, whatever it counts |
| RateLimit.RateLimiter.constructor | internal/middleware/ratelimit.go:76-89 | the empty limiter is the empty run |
| RateLimit.RateLimiter.IsAllowed | internal/middleware/ratelimit.go:112-129 | performs the call step, returns its decision and keeps the bound of two allowances for every interval no longer than the window |
| RateLimit.RateLimiter.CleanupScan | internal/middleware/ratelimit.go:91-101 | lists exactly the keys expired at the time read, each once, and changes no entry |
| RateLimit.RateLimiter.CleanupDelete | internal/middleware/ratelimit.go:103-109 | deletes exactly the listed keys, without looking at their entries again |
| RedisRateLimit.MembersAreOld | internal/middleware/ratelimit.go:188-200 | no stored member is from the future or carries a sequence number not yet given out, so members never collide |
| RedisRateLimit.CountIsCardinality | internal/middleware/ratelimit.go:199-201 | counting requests one by one gives the size of the member set: no request is lost to a collision |
| RedisRateLimit.StoredCoversWindow | internal/middleware/ratelimit.go:199-202 | in every run, with keys expiring at any time after their time to live, the set holds every request inside the window and nothing but requests |
| RedisRateLimit.StoredIsWindow | internal/middleware/ratelimit.go:199-200 | right after a request the set is exactly the requests newer than the window, refused ones included |
| RedisRateLimit.DecisionIsExact | internal/middleware/ratelimit.go:192-214 | a request is allowed if and only if at most rate requests, itself and refused ones included, fall in the last window |
| RedisRateLimit.WindowBound | internal/middleware/ratelimit.go:192-214 | in every run, every half-open interval no longer than the window holds at most rate allowed requests |
| RedisRateLimit.AllowedAreTheAdmitted | internal/middleware/ratelimit.go:192-214 | what the bound counts: one more request counts as allowed exactly when it is one of at most rate requests of the last window |
| RedisRateLimit.RefusedRequestsCount | internal/middleware/ratelimit.go:199-213 | once rate requests, allowed or refused, lie inside the window the next one is refused |
| RedisRateLimit.RedisRateLimiter.Exec | internal/middleware/ratelimit.go:197-204 | the four commands in order: new store and the cardinality after trimming and adding |
| RedisRateLimit.RedisRateLimiter.IsAllowed | internal/middleware/ratelimit.go:192-214 | decides exactly by the count of the last window and keeps the bound for every interval |
| WorkerPool.StepKeepsInv | pkg/infrastructure/async.go:240-300 | every channel operation keeps the conservation invariant of the pool |
| WorkerPool.Reachable | pkg/infrastructure/async.go:240-300 | the invariant holds after every interleaving of submitters, workers and Stop |
| WorkerPool.Conservation | pkg/infrastructure/async.go:260-300 | a job is accepted if and only if it is queued, running or finished, in exactly one place and once; jobs are taken in the order accepted and the queue never exceeds its capacity |
| WorkerPool.PoolShape | pkg/infrastructure/async.go:223-245 | in every run the pool has the workers asked for, at least one, and a queue of two places for each |
| WorkerPool.AcceptsIff | pkg/infrastructure/async.go:256-278 | in every run SubmitOrDrop accepts exactly when fewer than two jobs per worker are queued and, once the stop channel is closed, the select chooses the queue; Submit does the same but blocks on a full queue while the pool is not stopping |
| WorkerPool.StopDrains | pkg/infrastructure/async.go:247-254 | when Stop has returned, every job accepted before the stop channel closed has finished and nothing runs |
| WorkerPool.DeadPoolTakesNothing | pkg/infrastructure/async.go:256-265 | once all workers have left, whatever follows takes or finishes no job |
| WorkerPool.ServeHeadServes | pkg/infrastructure/async.go:280-300 | any worker that has not left can run the head of the queue to its end, wherever it stands in its loop |
| WorkerPool.QueuedJobServedIffWorkerLeft | pkg/infrastructure/async.go:256-300 | a queued job can still be finished if and only if some worker has not left |
| WorkerPool.StepKeepsSafe | pkg/infrastructure/async.go:280-300 | a job that is finished, being run, or queued with some worker still there stays one of these under every step |
| WorkerPool.QueuedJobDrainedIff | pkg/infrastructure/async.go:256-300 | a queued job has finished in every continuation in which Stop returns, if and only if some worker had not left when it was queued |
| WorkerPool.CanExit | pkg/infrastructure/async.go:287-298 | after the stop channel is closed each worker can finish its job, drain the queue and leave, without moving any other worker |
| WorkerPool.StopCanReturn | pkg/infrastructure/async.go:249-254 | from every reachable state with the stop channel closed, Stop can still return |
| WorkerPool.WorkerStepsBalance | pkg/infrastructure/async.go:280-300 | under every schedule each worker step uses up one unit of work and each accepted job brings two: steps made plus work left is work at the start plus twice the jobs accepted since |
| WorkerPool.StopTerminates | pkg/infrastructure/async.go:247-300 | once the stop channel is closed, under every schedule, the worker steps are bounded by the workers, the queued and the late accepted jobs; some worker can move until Stop returns, and Stop returns as soon as none can |
| WorkerPool.SubmitAfterStopIsLost | pkg/infrastructure/async.go:256-278 | a job can be accepted after Stop has returned, and then never finishes |
| WorkerPool.Pool.constructor | pkg/infrastructure/async.go:223-245 | at least one worker, a queue twice as long, all workers idle |
| WorkerPool.Pool.SubmitJob | pkg/infrastructure/async.go:260-265 | accepts and appends exactly when there is room and, after the close, the select chooses the queue; returns unless the queue is full and the pool is not stopping |
| WorkerPool.Pool.SubmitJobOrDrop | pkg/infrastructure/async.go:269-278 | never blocks; true exactly when there was room and, after the close, the select chose the queue, and then the job is appended; nothing changes otherwise |
| WorkerPool.Pool.WorkerSelect | pkg/infrastructure/async.go:283-287 | an idle worker takes the head of the queue or sees the stop signal, and blocks only if neither is there |
| WorkerPool.Pool.JobReturns | pkg/infrastructure/async.go:285-293 | the job is finished, whether it returned or panicked, and the worker goes back to the loop it came from |
| WorkerPool.Pool.WorkerDrain | pkg/infrastructure/async.go:290-297 | a draining worker leaves exactly when the queue is empty |
| WorkerPool.Pool.CloseStopChan | pkg/infrastructure/async.go:249-253 | closes the stop channel once, however often Stop is called |
| WorkerPool.Pool.WaitForWorkers | pkg/infrastructure/async.go:252-252 | returns exactly when all workers have left, and then all jobs accepted before the close have finished |
| Batch.StepKeepsInv | pkg/infrastructure/async.go:140-209 | slots are what the running indices hold and pending is the number not yet counted, after every step |
| Batch.CountKeepsCountdown | pkg/infrastructure/async.go:145-147 | the decrement that returns zero is the one that counts the last index |
| Batch.Reachable | pkg/infrastructure/async.go:140-209 | both invariants hold in every reachable state |
| Batch.ConcurrencyAndPending | pkg/infrastructure/async.go:164-206 | at most batchSize (or 100) operations run at once, for every batch size and interleaving; pending is n minus the counted results |
| Batch.AtMostBatchSizeRun | pkg/infrastructure/async.go:164-206 | in every run at most batchSize operations run at once, or 100 when batchSize is not positive |
| Batch.TallyIsSize | pkg/infrastructure/async.go:176-193 | counting one by one is the size of the set of indices counted |
| Batch.LaunchesIff | pkg/infrastructure/async.go:175-189 | the bound is sharp: with an operation left to launch, launching changes the state if and only if fewer than batchSize (or 100) slots are held |
| Batch.WaitingIsUntouched | pkg/infrastructure/async.go:179-189 | an operation not launched yet has no result and has not been counted |
| Batch.DoneClosesOnceAtEnd | pkg/infrastructure/async.go:140-148 | Done is closed at most once, only when every index is complete, and is closed once all have passed CompleteResult; also for the empty batch |
| Batch.ResultIsOutcome | pkg/infrastructure/async.go:179-206 | a result is always what really happened to its own operation, and complete exactly as often as Complete took effect on it |
| Batch.EachCompletedOnce | pkg/infrastructure/async.go:140-206 | each index completes at most once, and exactly once with its own outcome by the time Done is closed |
| Batch.StepsClimb | pkg/infrastructure/async.go:164-209 | every step that changes anything makes progress, at most 11 times per operation |
| Batch.NeverStuck | pkg/infrastructure/async.go:179-209 | until Done is closed some step other than a cancellation is possible: the launcher never waits for a slot nobody will release |
| Batch.CancelOne | pkg/infrastructure/async.go:183-187 | a cancelled index is completed and counted at once and Done is closed if the wrapped counter reaches zero |
| Batch.DoneMeansAllIffFits | pkg/infrastructure/async.go:117-148 | Done closes only after all operations, in every run, if and only if there are at most 2^32 of them |
| Batch.BatchAsyncResult.constructor | pkg/infrastructure/async.go:120-138 | a new batch has nothing complete, pending n, and Done closed already when n is 0 |
| Batch.BatchAsyncResult.StartNext | pkg/infrastructure/async.go:179-189 | takes a slot and starts the next operation, or cancels it; waits exactly when batchSize (or 100) slots are held and nothing is cancelled |
| Batch.BatchAsyncResult.OperationEnds | pkg/infrastructure/async.go:194-203 | writes the operation's own value and error, or the panic's error |
| Batch.BatchAsyncResult.MarkComplete | pkg/infrastructure/async.go:37-44 | completes the index and touches no other |
| Batch.BatchAsyncResult.CountDown | pkg/infrastructure/async.go:145-145 | decrements in 32 bits and reports whether zero was reached |
| Batch.BatchAsyncResult.CloseIfLast | pkg/infrastructure/async.go:145-147 | closes Done exactly when this was the last decrement |
| Batch.BatchAsyncResult.CompleteResult | pkg/infrastructure/async.go:140-148 | completes, counts and signals one index, keeps its result, and never closes Done twice |
| Batch.BatchAsyncResult.ReleaseSlot | pkg/infrastructure/async.go:190-193 | gives one slot back |
| Batch.BatchAsyncResult.WaitAll | pkg/infrastructure/async.go:150-162 | returns each operation's own outcome at its own index |
| CircuitBreaker.ReachableShape | pkg/resilience/circuit_breaker.go:62-238 | closed exactly when failures < MaxFailures; the half-open count is the calls admitted in the episode, between 1 and the allowance inside it and 0 outside; while closed, failures is the streak since the last success or Reset |
| CircuitBreaker.SuccessesMatch | pkg/resilience/circuit_breaker.go:133-152 | successes counts the recorded successes since the last half-open episode began or the last Reset |
| CircuitBreaker.TripsExactly | pkg/resilience/circuit_breaker.go:170-187 | a closed breaker opens on exactly the MaxFailures-th failure in a row and on nothing else |
| CircuitBreaker.EpisodeBound | pkg/resilience/circuit_breaker.go:122-146 | a half-open episode admits at most HalfOpenMaxRequests calls |
| CircuitBreaker.AdmittedFromOpenOnlyAfterTimeout | pkg/resilience/circuit_breaker.go:129-136 | an open breaker admits a call if and only if more than ResetTimeout has passed since the latest recorded failure |
| CircuitBreaker.QuietPeriod | pkg/resilience/circuit_breaker.go:122-187 | until that time, whatever happens short of Reset, the breaker stays open and admits nothing |
| CircuitBreaker.ProbesShape | pkg/resilience/circuit_breaker.go:78-167 | after n sequential successful probes the breaker is half-open with n used, or closed and clean |
| CircuitBreaker.SequentialProbes | pkg/resilience/circuit_breaker.go:78-187 | sequential Execute calls close the breaker exactly at the HalfOpenMaxRequests-th success, and a failure before that opens it again |
| CircuitBreaker.AdmitAll | pkg/resilience/circuit_breaker.go:129-142 | after the timeout exactly the allowance of concurrent probes is let through |
| CircuitBreaker.SuccessClosesIff | pkg/resilience/circuit_breaker.go:149-164 | in every run a success, whoever reports it, closes a half-open breaker if and only if the calls admitted in the episode use up the allowance |
| CircuitBreaker.ProbesBalance | pkg/resilience/circuit_breaker.go:122-164 | with a call to every request and report, the calls an episode has admitted are those still out plus the successes its own probes have reported |
| CircuitBreaker.ClosesWithAllInIff | pkg/resilience/circuit_breaker.go:122-164 | a success that closes the breaker leaves as many other probes out as are missing to HalfOpenMaxRequests reports by the episode's own probes, and it closes with none out if and only if it completes that number |
| CircuitBreaker.LateSuccessCloses | pkg/resilience/circuit_breaker.go:149-164 | for every configuration there is a run in which a call admitted before the breaker tripped reports its success late and closes it while all HalfOpenMaxRequests probes are still out |
| CircuitBreaker.FullEpisodeAdmitsIff | pkg/resilience/circuit_breaker.go:137-142 | from a full episode, at some point of what follows and after some wait a call is admitted, if and only if any report, from whatever call, or a Reset is among what follows |
| CircuitBreaker.Breaker.constructor | pkg/resilience/circuit_breaker.go:62-76 | non-positive settings are replaced one by one and the breaker starts closed |
| CircuitBreaker.Breaker.AllowRequest | pkg/resilience/circuit_breaker.go:122-146 | decides and moves as the step says, keeps the episode bound, and lets nothing out of Open before the timeout |
| CircuitBreaker.Breaker.RecordSuccess | pkg/resilience/circuit_breaker.go:149-167 | the success step, and which change is announced |
| CircuitBreaker.Breaker.RecordFailure | pkg/resilience/circuit_breaker.go:170-187 | the failure step; a closed breaker opens exactly when this failure completes the streak |
| CircuitBreaker.Breaker.ResetBreaker | pkg/resilience/circuit_breaker.go:230-238 | closes the breaker and clears its counters |
| CircuitBreaker.Breaker.ExecuteCall | pkg/resilience/circuit_breaker.go:79-93 | calls the function exactly when admitted and records exactly its outcome |
| Cache.Refinement | pkg/cache/cache.go:59-211 | after every interleaving each key is stored in its own shard only, and there as in the timed map unless it has expired |
| Cache.AtomicGetIsSpec | pkg/cache/cache.go:59-86 | an uninterrupted Get answers as the timed map does |
| Cache.CachesAgree | pkg/cache/cache.go:59-211 | two caches that saw the same writes at the same times answer alike, whatever their number of shards, in-range shard function, cleanups and Gets |
| Cache.CleanupIsInvisible | pkg/cache/cache.go:186-211 | dropping one cleanup or one step of a Get from a run changes no later answer |
| Cache.EntryLifetime | pkg/cache/cache.go:59-211 | until its key is written again a Get returns the value exactly as long as no more than the ttl has passed since Set, and for ever without a ttl, whatever else is done to the cache |
| Cache.DeletedIsGone | pkg/cache/cache.go:104-109 | a deleted key is not found again until it is set, whatever else is done to the cache |
| Cache.FirstPhase | pkg/cache/cache.go:147-160 | reading and looking at the clock end a Get with the entry's value or a miss, unless the entry read has expired; then it goes on without an answer |
| Cache.SecondPhase | pkg/cache/cache.go:70-82 | looking again always ends the Get: with the value of an entry that has not expired, or by removing the one that has |
| Cache.PurgeDropsExpired | pkg/cache/cache.go:186-211 | a cleanup drops exactly the entries of its shard whose deadline lies before the time it read |
| Cache.OnlyExpiredAreDropped | pkg/cache/cache.go:70-80 | Get and Cleanup remove an entry only if it has expired at the moment of removal, also when it was replaced since it was read |
| Cache.GettersSound | pkg/cache/cache.go:147-170 | what a Get has read is still a correct answer for the moment of the read, or has expired |
| Cache.GetIsLinearizable | pkg/cache/cache.go:147-177 | whatever happens between its phases, a Get returns what the timed map answers at some instant between its first step and its return |
| Cache.PurgeLoop | pkg/cache/cache.go:192-196 | keeps exactly the entries that have not expired |
| Cache.PlainCache.SetItem | pkg/cache/cache.go:129-145 | replaces the key's value and deadline in the timed map; no deadline without a positive ttl |
| Cache.PlainCache.ReadPhase | pkg/cache/cache.go:150-157 | from any state other calls have left: answers as the timed map, or finds the entry expired and gives the lock up |
| Cache.PlainCache.RecheckPhase | pkg/cache/cache.go:161-172 | from any state other calls have left since: answers as the timed map does at that moment and drops exactly an entry expired then |
| Cache.PlainCache.GetItem | pkg/cache/cache.go:148-177 | an uninterrupted Get answers as the timed map and drops exactly the key asked for, if it has expired |
| Cache.PlainCache.DeleteItem | pkg/cache/cache.go:180-184 | removes the key from the timed map |
| Cache.PlainCache.Cleanup | pkg/cache/cache.go:187-197 | keeps exactly what has not expired; the timed map is untouched |
| Cache.ShardedCache.SetItem | pkg/cache/cache.go:88-102 | as the plain cache when the shard index is in range; panics and changes nothing otherwise |
| Cache.ShardedCache.ReadPhase | pkg/cache/cache.go:59-68 | reads the entry; by the time the clock is looked at it has expired or is the timed map's answer for the moment of the read; panics exactly when the index is out of range |
| Cache.ShardedCache.RecheckPhase | pkg/cache/cache.go:71-82 | from any state other calls have left since: answers as the timed map does at that moment and drops exactly an entry expired then |
| Cache.ShardedCache.GetItem | pkg/cache/cache.go:59-86 | answers as the timed map, drops only the expired key from its own shard, panics exactly when the index is out of range |
| Cache.ShardedCache.DeleteItem | pkg/cache/cache.go:104-109 | removes the key, or panics exactly when the index is out of range |
| Cache.ShardedCache.Cleanup | pkg/cache/cache.go:199-211 | every shard keeps exactly what has not expired |
| ShardIndex.ShardIndexLoop | pkg/cache/cache.go:111-117 | the hash loop in 64-bit two's complement arithmetic and the sign-keeping remainder |
| ShardIndex.ShiftCopiesSign | pkg/cache/cache.go:113-115 | the right shift of a negative hash stays negative: its leading three bits are the sign |
| ShardIndex.RemainderKeepsSign | pkg/cache/cache.go:116-116 | the remainder has the sign of the hash |
| ShardIndex.SignOfShortHash | pkg/cache/cache.go:112-115 | up to nine bytes the sign of the hash depends on the length alone: negative for eight bytes, non-negative otherwise |
| ShardIndex.HashLeads | pkg/cache/cache.go:112-115 | for one to nine bytes the leading bits of the hash lie in narrow ranges given by the length, whatever the key |
| ShardIndex.ShortKeysInRange | pkg/cache/cache.go:111-117 | every key of at most seven bytes, or of nine, has a shard |
| ShardIndex.EightByteKeys | pkg/cache/cache.go:111-117 | every key of eight bytes hashes to a negative number, so it has a shard exactly when the hash is a multiple of 32 |
| ShardIndex.UserKeyPanics | pkg/cache/cache.go:111-117 | the key "user:123" has index -15 |
| ShardIndex.StaysStuck | pkg/cache/cache.go:113-115 | a key whose hash is a certain fixed point keeps that hash however many bytes T are appended |
| ShardIndex.KeyWithoutShard | pkg/cache/cache.go:111-117 | for length eight and for every length from ten on there is a key without a shard |
| ShardIndex.LengthIsSafeIff | pkg/cache/cache.go:111-117 | all keys of a length have a shard if and only if the length is at most seven or nine |
| ShardIndex.ShardedCacheWithShortKeys | pkg/cache/cache.go:59-117 | with keys of these safe lengths the sharded cache answers exactly as the timed map |
| Hub.StepKeepsInv | pkg/websocket/handler.go:80-148 | every step keeps: open exactly while in clients, members found under their ID, every ID entry carries its own ID |
| Hub.Reachable | pkg/websocket/handler.go:80-148 | in every reachable state that holds, and clientsByID is the members plus exactly the clients broadcasts have thrown out |
| Hub.MapsAgreeIffNoEviction | pkg/websocket/handler.go:107-119 | the two maps describe the same clients if and only if no broadcast has thrown anybody out |
| Hub.NoDoubleClose | pkg/websocket/handler.go:80-148 | in every run a step closes exactly the channels that are closed after it and were not before: none is closed twice, none is forgotten |
| Hub.PanicsExactly | pkg/websocket/handler.go:107-148 | a step sends on a closed channel if and only if it is SendToClient to an ID whose client a broadcast has thrown out |
| Hub.EvictedIdIsPoisoned | pkg/websocket/handler.go:80-148 | after that, whatever follows, every send to the ID panics and every newcomer with the ID is rejected |
| Hub.MembersMissNothing | pkg/websocket/handler.go:107-142 | what a current member has taken and what waits in its channel is exactly, in order, what was broadcast or sent to it |
| Hub.NeverOverfull | pkg/websocket/handler.go:107-148 | no channel ever holds more than 256 messages |
| Hub.FullMembersGo | pkg/websocket/handler.go:107-148 | a broadcast, or a send to its ID, closes and drops a member with 256 messages waiting, gives the message to any other, and a send touches no other client |
| Hub.OutsidersAreLeftAlone | pkg/websocket/handler.go:80-148 | whatever the step, a client that is no member gets nothing put into its channel and never comes back |
| Hub.FloodFills | pkg/websocket/handler.go:111-118 | n broadcasts to a client that reads nothing leave n messages in its channel, up to 256 |
| Hub.SendToEvictedPanics | pkg/websocket/handler.go:114-140 | the panic is reachable: one registration and 257 broadcasts, then a send |
| Hub.HubObject.RegisterClient | pkg/websocket/handler.go:80-93 | registers under a new ID; a duplicate ID closes the newcomer and leaves the holder alone |
| Hub.HubObject.UnregisterClient | pkg/websocket/handler.go:95-105 | removes a member from both maps and closes it; one that is no member, already gone or not registered yet, is left alone |
| Hub.HubObject.OfferAll | pkg/websocket/handler.go:111-118 | each member gets the message or is closed and dropped when its channel is full; nobody else changes |
| Hub.HubObject.BroadcastMessage | pkg/websocket/handler.go:107-119 | the broadcast step; clientsByID is not touched |
| Hub.HubObject.TakeMessage | pkg/websocket/handler.go:237-243 | the writer takes the oldest message, also after the channel was closed |
| Hub.HubObject.SendToClient | pkg/websocket/handler.go:130-148 | the send step, and exactly when it panics |
| Broadcast.RemoveIsRemoveAll | pkg/utils/broadcast.go:64-86 | splicing the first match out of its stream's list and closing the channel is removing exactly that client from everything |
| Broadcast.RemoveAllKeepsInv | pkg/utils/broadcast.go:64-95 | removing any set of clients, registered or not, keeps both indexes in agreement |
| Broadcast.Reachable | pkg/utils/broadcast.go:62-241 | in every reachable state the client map and the stream lists describe the same clients, each once and in its own stream only; a channel is open exactly while its client is registered and holds at most 100 events |
| Broadcast.TargetsAndClosesAreOpen | pkg/utils/broadcast.go:178-204 | a broadcast reaches exactly the registered clients it is meant for; nothing is sent to a closed channel and nothing is closed twice |
| Broadcast.IdsAreForever | pkg/utils/broadcast.go:124-143 | an ID is never given out twice and whoever has left stays out |
| Broadcast.EvictionHitsOnlySlowClients | pkg/utils/broadcast.go:198-204 | however late an eviction list is carried out, it removes only listed clients still registered, each with more than 100 drops, and touches nobody else |
| Broadcast.UnsubscribeRemoves | pkg/utils/broadcast.go:64-86 | in every reachable state unsubscribing takes the client out of both indexes, closes its channel and touches nobody else |
| Broadcast.Delivery | pkg/utils/broadcast.go:166-241 | for every client ever subscribed, the events aimed at it = received + queued + dropped, and what it gets is an in-order selection of them |
| Broadcast.SubsequencePicks | pkg/utils/broadcast.go:181-195 | what an in-order selection is: its elements stand at increasing positions of the whole |
| Broadcast.QueuedUnlessFull | pkg/utils/broadcast.go:181-195 | a client the broadcast is meant for gets the event exactly when fewer than 100 are waiting in its channel, and loses it otherwise |
| Broadcast.EvictedAfterHundredLosses | pkg/utils/broadcast.go:187-194 | every client on an eviction list has, counted over the run, lost more than 100 events |
| Broadcast.EvictionListIsExact | pkg/utils/broadcast.go:181-195 | the list a broadcast leaves behind holds exactly the clients that lose its own event and have by then lost more than 100, counted over the run |
| Broadcast.NoListIsEmpty | pkg/utils/broadcast.go:198-204 | a broadcast that finds nobody to evict leaves no list behind |
| Broadcast.LastSeenIsLastContact | pkg/utils/broadcast.go:131-137 | lastSeen is the time of the subscription or of the last event put into the channel |
| Broadcast.ExpiryIsExact | pkg/utils/broadcast.go:88-95 | the TTL pass keeps exactly the clients with such a contact within the last 24 hours |
| Broadcast.SpliceAt | pkg/utils/broadcast.go:72-77 | cutting at the first match is the recursive removal of the first match |
| Broadcast.RemoveAllThenOne | pkg/utils/broadcast.go:200-202 | unsubscribing one client after another under one lock is removing the whole set at once |
| Broadcast.EventBroadcaster.SubscribeTo | pkg/utils/broadcast.go:124-143 | adds one client with the next ID, never used before, to both indexes |
| Broadcast.EventBroadcaster.TakeEvent | pkg/utils/broadcast.go:83-85 | the receiver gets the oldest queued event, also after the channel was closed |
| Broadcast.EventBroadcaster.UnsubscribeNoLock | pkg/utils/broadcast.go:64-86 | the loop and splice do exactly the removal of that client |
| Broadcast.EventBroadcaster.UnsubscribeClient | pkg/utils/broadcast.go:146-150 | removes that client and no other |
| Broadcast.EventBroadcaster.UnsubscribeEach | pkg/utils/broadcast.go:200-202 | the loop over a list removes exactly its members, repeated or missing ones included |
| Broadcast.EventBroadcaster.CarryOut | pkg/utils/broadcast.go:198-204 | carries one decided list out; everyone removed has more than 100 drops |
| Broadcast.EventBroadcaster.ExpireLoop | pkg/utils/broadcast.go:88-95 | deleting while walking the map removes exactly the stale clients |
| Broadcast.EventBroadcaster.ExpireStaleClients | pkg/utils/broadcast.go:56-95 | the expiry step as a whole |
| Broadcast.EventBroadcaster.SendEach | pkg/utils/broadcast.go:181-195 | each client of the list gets the event or one more drop; returns exactly those past 100 drops |
| Broadcast.EventBroadcaster.SendToStream | pkg/utils/broadcast.go:166-196 | the send step for one stream and its eviction list |
| Broadcast.EventBroadcaster.SendEverywhere | pkg/utils/broadcast.go:217-231 | the nested loops reach every registered client exactly once |
| Broadcast.EventBroadcaster.SendToAll | pkg/utils/broadcast.go:208-232 | the send step for all streams and its eviction list |
| Broadcast.EventBroadcaster.GetTotalClients | pkg/utils/broadcast.go:255-263 | adding the list lengths up gives the number of registered clients |
| Cron.DropRemoves | pkg/infrastructure/cron_manager.go:196-197 | removing an entry removes exactly that one and keeps ids distinct |
| Cron.StepKeepsInv | pkg/infrastructure/cron_manager.go:73-231 | every operation, and every run of an entry, keeps table and scheduler in agreement |
| Cron.Reachable | pkg/infrastructure/cron_manager.go:73-231 | the table's keys are exactly the scheduler's entry ids; each record's ID and EntryID are its key, and the entry runs the record's command on the record's schedule |
| Cron.UpdateMovesOneJob | pkg/infrastructure/cron_manager.go:205-231 | a bad schedule or unknown id changes nothing; otherwise the job moves to a new id with its name and command, every other job and both counts stay |
| Cron.AddFilesOneJob | pkg/infrastructure/cron_manager.go:73-96 | a good schedule files one job under a new id with its own name, schedule and command, every other job stays; a bad one changes nothing |
| Cron.RetiredIdsStayRetired | pkg/infrastructure/cron_manager.go:190-231 | the id of an updated or removed job never comes back |
| Cron.CronManager.RecordsNotShared | pkg/infrastructure/cron_manager.go:87-93 | no two keys share a record object |
| Cron.CronManager.AddJob | pkg/infrastructure/cron_manager.go:73-96 | adds one new record under a new id, or changes nothing when the schedule is bad |
| Cron.CronManager.EditRecord | pkg/infrastructure/cron_manager.go:220-223 | changes one record in place; every other record keeps its values |
| Cron.CronManager.Rekey | pkg/infrastructure/cron_manager.go:220-225 | changes the shared record in place and files that same object under the new id, no other record changes |
| Cron.CronManager.UpdateJob | pkg/infrastructure/cron_manager.go:205-231 | succeeds exactly for a known id and a good schedule and keeps the record object; changes nothing otherwise |
| Cron.CronManager.RemoveJob | pkg/infrastructure/cron_manager.go:190-202 | removes the job from table and scheduler, or reports that it is unknown |
| Cron.CronManager.GetJobs | pkg/infrastructure/cron_manager.go:98-114 | lists every job exactly once, in the scheduler's order and with its times |
| Image.NormalizeIsEuclidean | pkg/utils/image.go:623-624 | the normalisation is the Euclidean remainder for every sign and size; only multiples of 90 turn anything |
| Image.TurnsAdd | pkg/utils/image.go:626-655 | quarter turns add up modulo 4 on every image |
| Image.RotationsAddIff | pkg/utils/image.go:618-656 | rotating by a then b is rotating by a + b on all images if and only if the quarter turns agree |
| Image.RightAnglesAdd | pkg/utils/image.go:618-656 | for multiples of 90 of any sign and size Rotate(a) then Rotate(b) is Rotate(a + b), and the identity when a + b is a full turn |
| Image.FourQuarterTurns | pkg/utils/image.go:629-636 | four quarter turns are the identity |
| Image.FlipLaws | pkg/utils/image.go:637-684 | both flips undo themselves, and a half turn is both flips in either order |
| Image.PixelsMove | pkg/utils/image.go:618-684 | where each pixel goes: clockwise turns send the top row to the right column, the horizontal flip exchanges left and right, the vertical one top and bottom |
| Image.FlipReversesTurn | pkg/utils/image.go:629-670 | a flip reverses the sense of every rotation |
| Image.ScatterWritesOnce | pkg/utils/image.go:629-652 | the loops of Rotate write every target pixel exactly once |
| Image.Rotate | pkg/utils/image.go:618-656 | the returned image is the rotated one, stated pixel by pixel for 90, 180 and 270; the input itself comes back exactly when nothing turns |
| Image.Rotate90 | pkg/utils/image.go:629-636 | the scattering loops give the quarter turn: pixel (x, y) of the source stands at (h - 1 - y, x) |
| Image.Rotate180 | pkg/utils/image.go:637-644 | the scattering loops give the half turn: pixel (x, y) of the source stands at (w - 1 - x, h - 1 - y) |
| Image.Rotate270 | pkg/utils/image.go:645-652 | the scattering loops give three quarter turns: the source is the result turned by one more |
| Image.FlipHorizontally | pkg/utils/image.go:659-670 | the loops give the mirror image: pixel (x, y) of the source stands at (w - 1 - x, y) |
| Image.FlipVertically | pkg/utils/image.go:673-684 | the loops give the upside-down image: pixel (x, y) of the source stands at (x, h - 1 - y) |
| Image.CropRectInside | pkg/utils/image.go:190-204 | the cut rectangle lies inside the image, is not empty for a non-empty image, and is the requested one whenever that fits |
| Image.CropRectSides | pkg/utils/image.go:190-204 | the rectangle starts at the requested corner, or at the nearest pixel, and has the requested size if that is positive and fits, else it reaches the edge |
| Image.CenterRectIsLargestCentred | pkg/utils/image.go:217-234 | CenterCrop's rectangle is a square, no square inside the image is larger, and opposite margins differ by at most one pixel |
| Image.CropShows | pkg/utils/image.go:206-212 | pixel (i, j) of a crop is pixel (x + i, y + j) of the image |
| Image.CropOfCrop | pkg/utils/image.go:206-212 | cropping a crop is one crop of the shifted rectangle |
| Image.CopyRect | pkg/utils/image.go:206-212 | the copying loops give an image of the rectangle's size whose pixel (i, j) is pixel (x + i, y + j) of the source |
| Image.Crop | pkg/utils/image.go:190-213 | clamps the specification to a rectangle inside the image and returns, pixel by pixel, what the image shows there |
| Image.CenterCrop | pkg/utils/image.go:217-247 | returns, pixel by pixel, the centred square, and the size it is to be scaled to: none without a target, and a missing side taken from the other |
| Resize.ScaleToLimits | pkg/utils/image.go:272-287 | the reassignments of the target sides through all branches |
| Resize.ResizeTarget | pkg/utils/image.go:255-301 | the target size after both clamps for every image, never larger than the original and of its shape to within one pixel; an image of height 0 comes back as it is |
| Resize.ScaledShape | pkg/utils/image.go:267-288 | one side is the tighter limit, the other its exact share rounded down, and neither limit is exceeded |
| Resize.ClampKeepsShape | pkg/utils/image.go:290-295 | clamping keeps the shape: it cuts either nothing or down to the original size |
| Resize.TargetKeepsShape | pkg/utils/image.go:255-301 | for every positive size and limit pair with the aspect ratio preserved, neither original nor limits are exceeded and the shape is kept to within one pixel |
| Resize.TargetIsLargest | pkg/utils/image.go:255-301 | nothing larger would do: the target is the original or touches a limit |
| Resize.TargetEmptyIff | pkg/utils/image.go:267-301 | the target has no pixels if and only if the share of one side under the limit on the other is less than one pixel |
| Resize.UnsetLimitWithoutAspect | pkg/utils/image.go:260-301 | without the aspect ratio the target has no pixels if and only if exactly one limit is unset |
| Resize.SidesWithoutAspect | pkg/utils/image.go:260-301 | without the aspect ratio each side is its own limit, cut to the original size |
| Retry.DelayBounds | pkg/resilience/retry.go:124-143 | every delay is at most MaxDelay and at most 1.5 times its unjittered backoff |
| Retry.TotalBounds | pkg/resilience/retry.go:124-143 | n pauses sleep at most n * MaxDelay and 1.5 times the geometric backoff sum |
| Retry.DelaysNeverShrink | pkg/resilience/retry.go:124-143 | without jitter and with a factor of at least 1 no delay is shorter than the one before |
| Retry.SettingsIgnoredIff | pkg/resilience/retry.go:34-41 | all other settings are ignored if and only if the attempt count is not positive, and kept if and only if it is |
| Retry.BackoffGrows | pkg/resilience/retry.go:124-125 | the first backoff is InitialDelay and each further one BackoffFactor times the one before |
| Retry.PowerLaw | pkg/resilience/retry.go:125-125 | the power obeys the law of exponents, so the backoff is InitialDelay times that many factors |
| Retry.GeometricClosed | pkg/resilience/retry.go:124-125 | the backoff sum in closed form: times factor - 1 it is InitialDelay * (factor^n - 1) |
| Retry.DelayIsCutBackoff | pkg/resilience/retry.go:124-143 | a delay is exactly its backoff, stretched by the draw with jitter and by nothing without, cut at MaxDelay and at the largest 64-bit integer and truncated; never less than the plain backoff cut |
| Retry.CutDelay | pkg/resilience/retry.go:133-142 | the two ceilings applied one after the other and the conversion to an integer |
| Retry.CalculateDelay | pkg/resilience/retry.go:124-143 | the reassignments of the delay give the delay DelayIsCutBackoff is about |
| Retry.TotalAdds | pkg/resilience/retry.go:66-72 | a total sleep grows by each positive pause and by no other |
| Retry.RetryCall | pkg/resilience/retry.go:44-75 | calls the function between 1 and MaxAttempts times: all calls but the last failed with an error worth retrying, and one before the last allowed succeeded or failed with an error that is not; returns the last call's result, sleeps exactly the delays before the attempts 2, 3, ... and at most both bounds |
| Retry.RetryWithContext | pkg/resilience/retry.go:78-121 | as Retry, with the same bounds on the total sleep, or stops with the context's error exactly where the context was done; nil only after a successful call |
| SaveTheme.JoinSplit | config/config.go:346-378 | splitting at newlines and joining is the identity |
| SaveTheme.SplitJoin | config/config.go:346-378 | joining lines without newlines and splitting is the identity |
| SaveTheme.EditedLineTrims | config/config.go:349-363 | the new line is again a theme line with the same computed indentation |
| SaveTheme.CommentAfterEdit | config/config.go:358-363 | a second save finds the same comment if the name has no '#', and a longer one if it has |
| SaveTheme.FindAfterEdit | config/config.go:337-366 | after an edit the same app: line and the same theme line are found |
| SaveTheme.SavedLines | config/config.go:335-378 | exactly one line of the file is replaced, all others are the same byte for byte |
| SaveTheme.SaveTwice | config/config.go:335-378 | whether a file can be saved does not depend on the name, and a second save edits the line the first one wrote |
| SaveTheme.SaveRewrites | config/config.go:335-378 | for every file, in terms of its lines and their white space only: the line replaced is the first theme line with more white space around it than the first app: line, or the first theme line if there is no app: line; it becomes its white space as leading blanks, the quoted name and what follows its first '#'; no other line changes, and saving fails exactly when there is no such line |
| SaveTheme.EditableIffNested | config/config.go:337-357 | a line is editable if and only if it starts with theme: and has more white space around it than the first app: line, if there is one |
| SaveTheme.TrimIsCore | config/config.go:338-351 | trimming cuts off white space at both ends, and all of it |
| SaveTheme.BlockGoesOn | config/config.go:335-336 | what the block of the comment is: it reaches down as long as lines are blank, comments or indented |
| SaveTheme.KeyLine | config/config.go:335-336 | a key is its name, a colon and then white space or the end of the line |
| SaveTheme.EditsAppBlockIff | config/config.go:335-366 | for every file, the line the edit takes lies in the block of the top-level app: key, read off the leading white space, if and only if that block has an editable line and there is none above it; which lines are editable is stated by EditableIffNested |
| SaveTheme.EditsAppThemeIff | config/config.go:335-366 | for every file, the line the edit takes is app.theme itself if and only if an editable app.theme has nothing else editable before it, neither above the app: key nor nested more deeply in its block; which lines are editable is stated by EditableIffNested |
| SaveTheme.SaveEditsAppThemeIff | config/config.go:316-378 | both through Save: for every file that can be saved, exactly which files have a line outside the app: block, or another line than app.theme, rewritten |
| SaveTheme.LastWriterWinsIff | config/config.go:335-378 | for every file with an editable theme line, saving a then b equals saving b if and only if a has no '#' |
| SaveTheme.ThemeOfAnotherBlockIsEdited | config/config.go:335-378 | for every file of a top-level app: line, another top-level line and an editable theme line below that, saving replaces that theme line, which is not in the app: block |
| SaveTheme.ThemeOfNestedAppIsEdited | config/config.go:337-366 | for every file in which the first app: line is nested in another block and has an editable theme below it, saving replaces that theme and leaves the one of the top-level app: alone |
| SaveTheme.OtherBlockFile | config/config.go:335-378 | the file with the lines "app:", "db:" and "  theme: x" is one of these |
| SaveTheme.IndentKeptIff | config/config.go:353-363 | the leading white space keeps its width if and only if the line has no trailing white space |
| SaveTheme.QuoteRoundTrip | config/config.go:363-363 | the quoted name reads back as the name, whatever follows on the line |
| SaveTheme.QuoteShape | config/config.go:363-363 | the name stands between two quotes |
| SaveTheme.PlainNameIsKept | config/config.go:363-363 | a name of printable ASCII characters without quote and backslash is written as it is |
| SaveTheme.FindAppIndent | config/config.go:337-344 | the loop finds the indentation of the first app: line, or -1 |
| SaveTheme.EditFirst | config/config.go:346-366 | the loop edits the first editable line and no other, or reports that there is none; which line that is, and what it becomes, is stated by SaveRewrites |
| SaveTheme.SaveThemeText | config/config.go:335-378 | the whole edit: the new text with exactly that line replaced, or no result; SaveRewrites says which line and by what |
| Pagination.GetPage | pkg/response/response.go:45-50 | the given page number when it is at least 1, and 1 otherwise |
| Pagination.GetPerPage | pkg/response/response.go:52-60 | between 1 and 100: the given size when it is, 10 below and 100 above |
| Pagination.OffsetFits | pkg/response/response.go:62-69 | the offset and the end of its window never overflow 64 bits, and it is the true offset of the page if and only if the end of that page's window fits into 64 bits |
| Pagination.TotalPagesIsCeiling | pkg/response/response.go:263-276 | the number of pages is the least that covers the total, which is the ceiling of total / perPage |
| Pagination.TotalPagesOfOddInput | pkg/response/response.go:263-276 | a page size below 1 counts as 1, and a negative total is divided towards zero and adds no page |
| Pagination.PageCountsAgreeIff | internal/services/modules/tasks_service.go:89-95 | the task list's form, in wrapping 64-bit arithmetic, gives the same number of pages if and only if total + perPage - 1 does not overflow |
| Pagination.PagesArePrefix | internal/services/modules/grafana_service.go:163-177 | the first n page windows together are the first n * perPage elements |
| Pagination.PagesTile | internal/services/modules/grafana_service.go:163-177 | pages 1 to TotalPages together are the whole list, all but the last are full, and later pages are empty |
| Pagination.ClampFits | internal/services/modules/grafana_service.go:159-167 | after the clamp, start and end of the window fit into 64 bits |
| Pagination.ClampIsHarmless | internal/services/modules/grafana_service.go:159-163 | the clamp only moves pages that are empty anyway |
| Pagination.ListDashboards | internal/services/modules/grafana_service.go:137-180 | returns the window of the clamped page, which is the window of the page asked for |
| Users.IndexIsIdMinusOne | internal/services/modules/users_service.go:73-206 | in every reachable state usersIdx maps exactly the ids 1..n, each to id - 1, and each record carries its id |
| Users.GetReturnsLastWrite | internal/services/modules/users_service.go:136-206 | a record is what the last create or update of that id wrote, whatever else was written |
| Users.UsersTable.CreateUser | internal/services/modules/users_service.go:165-175 | appends the record under the next id unless there are 10000 users |
| Users.UsersTable.GetUser | internal/services/modules/users_service.go:142-151 | returns the last write to that id, or reports that it is unknown |
| Users.UsersTable.UpdateUser | internal/services/modules/users_service.go:196-205 | replaces exactly that record, whatever id the input carries |
| Users.UsersTable.CopyPage | internal/services/modules/users_service.go:120-129 | the clamped cut is the page window |
| Users.UsersTable.ListUsers | internal/services/modules/users_service.go:89-130 | refuses a page number beyond the number of users and otherwise returns its window |

## Left out

What a model leaves out of the component it covers:

- Time: clocks never run backwards and times are unbounded integers, so the saturation of `time.Sub` and the overflow of a deadline 292 years ahead are not modelled.
- RateLimit: the middleware wrappers and the ticker that calls cleanup; cleanup may start at any moment instead, one pass at a time.
- RedisRateLimit: the network, failing open on errors, several processes with colliding sequence numbers, and commands of other clients between those of one pipeline; a pipeline is one step, window and time to live are whole milliseconds, and the store keeps a key at least as long as its time to live.
- WorkerPool: a pool whose Start is never called or called twice; the logging of panics.
- Batch: the launching loop and the completion of a cancelled index are separate steps that may interleave, which allows more interleavings than the code; a context that is done may be seen or not at each select. ExecuteAsync and WaitWithTimeout are not modelled.
- Broadcast: each client record exists once and both maps refer to it by ID, so the code's sharing of one pointer by two maps is not modelled; "client_<n>" is its number; the payload of an event is its message. Broadcasts that overlap under the read lock are covered by the target `Part`, in the order in which they reach the clients; the atomic add and load of the drop counter are one step.
- Cache: the background ticker and Close; a nil item map. The read and the expiry check of the plain cache share one lock, in the model they are two steps.
- ShardIndex: which keys of ten and more bytes have a shard is said by InRangeIff in terms of the hash only; a 32-bit platform is not modelled.
- CircuitBreaker: OnStateChange itself, which sees neither the change from Open to half-open nor Reset; ExecuteWithFallback, which records as Execute does; the manager's map of breakers, whose properties are easy. No claim is made about functions that panic, beyond FullEpisodeAdmitsIff.
- Hub: the read and write pumps, JSON and the network; a client registers once, and the broadcast channel's own buffer is not modelled.
- Cron: the scheduler library is reduced to ids, entries and a predicate that says which schedules parse; RunJobNow, GetJobStatus, the lazily created pool and Close are not modelled. LastRun and NextRun come from the entries, as in GetJobs.
- Image: images whose bounds do not start at the origin, colour-model conversion on copying, and the resampling itself when CenterCrop scales its square.
- Resize: float rounding (sizes are computed over ideal reals and truncated). For an image of width 0 the code divides by zero in floating point; what the platform makes of an infinite number as an integer is a parameter.
- Retry: float rounding and infinities (ideal reals, truncated); the OnRetry callback; the random source, which is a parameter.
- SaveTheme: reading, writing and renaming the file, and viper; the block structure of a file is read off leading white space, so block scalars, flow mappings and quoted keys are not told apart; white space and printability outside ASCII.
- Pagination: the list handed to listDashboards is taken as given; parsing of the query parameters and sending of the response; GetOrder.
- Pagination.ListDashboards: that the page returned is the page asked for is stated for lists of up to 2^63 - 201 elements only; longer lists cannot exist in memory.
- Users: request binding and validation; a record is its id and one further field.

Components not modelled at all: Redis, Postgres, Mongo, Kafka, MinIO and Grafana
clients, HTTP handlers and middleware wiring (input and output and unseen
libraries); the terminal interface; JWT, HMAC, AES-GCM and SHA-256 (library
cryptography); configuration loading, log rotation, image encoding; the service
registry, sealed dependencies, response senders and health folding (true but easy).
