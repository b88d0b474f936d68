# Verified model of the kvdb task queue, connection pool and dictionary backend

This Dafny 4.11 project models the parts of kvdb in which several parties act on shared state,
and proves what they guarantee over whole runs. `dafny verify dfyconfig.toml` checks all of it.

**The task queue** (`Queue*.dfy`, `TaskQueue.dfy`). `QueueStore` holds the Redis keys of one queue
as a value: the `incomplete` sorted set, the `queued` and `active` lists, the job records with their
TTL, abort keys, the two lock keys, the stuck set and the clock. Every queue operation is one function
on that value, and the class `TaskQueueModel.TaskQueue` issues the operation's commands one by one and
is proved to add up to it. `QueueProtocol` lets any number of `process_queue` invocations ("tasks")
act on the store, each with its own copy of the job it holds. No-loss, lock spacing and the boundary
lemmas hold with few or no assumptions; the ownership, timer, life-cycle and retry results are about
*disciplined* runs (`QueueProtocol.Disciplined`): no late writes by runs that lost their job, no stuck
checker, the sweep takes active ids nobody holds, an abort key outlives the run it aborts, and a job
that is retried without delay has no schedule of its own. `QueueBoundaries` gives for every step the
exact condition under which it keeps ownership, late writes and the stuck checker included, so that a
run keeps it throughout if and only if all its steps are harmless in that sense. For the immediate
retry, the lapsing abort key, the sweep of a running job and the stuck checker `QueueRuns` gives runs
that end with two holders of one job. `QueueAnswers` says what each operation leaves behind.

**Waiting, broadcasting, matching, URLs.** `WaitForJobs` keeps the quirk of `wait_for_jobs`, a loop
that removes from the list it iterates. `Broadcast` is `prepare_job_kws`, `AttributeMatch` is
`determine_match_from_attributes`, `DbUrl` is the database number in a URL's path.

**The hybrid-blocking pool** (`Pool*.dfy`, `OptimizedPool.dfy`). asyncio tasks with program counters
over the pool's fields; each stretch of code between two awaits is one step, and each such stretch is
a method of the class `OptimizedPoolModel.OptimizedPool`. redis-py's `release` is taken as moving a
connection from in use to available. `PoolExhaustion` says when no task can get a connection any more,
and `PoolAnswers` which connection a task gets.

**The HSET dictionary** (`HashExpiry`, `TtlRefinement`, `DictionaryLaws`, `StatefulBackend`, `DumpLoad`, `Clone*`). A
data hash and a side hash of deadlines, read by the Lua get (lazy) and the sweep (eager); dump and
load; and the cloning loop. Keys and values are opaque where only equality matters, and strings in
dump/load and cloning, where prefixes are cut and replaced.

Parameters stand for what the code does not decide itself: the clock, the reply order of listings
(`ZRANGEBYSCORE`, `HKEYS`, `HGETALL`), how a job's function ends and whether its error is retried, the
delay that the backoff draws, the verdict of `Job.stuck`, how a refresh goes and what it shows, Python's
UTF-8 codec, how decoding a value ends, which connects succeed, and what other tasks pop meanwhile.

Where code and expectation part, the model follows the code, and a lemma says exactly when it holds:

- A retry without delay re-uses the job's own `scheduled` as score; for a scheduled job the id is then
  queued and due at once, and a second worker can run it (`ImmediateRetryBoundary`, `ScheduledRetryRunsTwice`).
- The stuck checker queues an id a second time when it is still queued or held (`StuckRequeueBoundary`,
  `StuckJobRunsTwice`), and puts a finished job back whose record is kept for good (`FinishedJobRevives`).
- An abort that finds the job running leaves its end to that run: a retry or a reschedule of it brings the
  aborted job back (`EndedStaysOut`, `AbortedJobReturns`).
- `wait_for_jobs` raises over a job that could not be read and was known to be over, because it removes
  it twice (`RaiseBoundary`).
- The pool counts each connection twice, so it blocks at half of `max_connections`, although the
  documentation speaks of the limit itself (`BlocksAtHalf`, `WarmsHalf`). A connection that warming could
  not connect is never uncounted, and one whose health check or reconnect raised stays in use; the pool is
  dead once the first, and twice the second, make up the limit (`DeadBoundary`, `ServiceBoundary`).
- A write without deadline inherits an old one, also after `clear` (`UndatedWriteBoundary`); `expire`
  revives a lapsed key that was not swept yet (`ExpireBoundary`).
- Cloning with the default `overwrite` (None) overwrites existing text keys, and hashes by texts
  (`TextClobberBoundary`); a renamed field can hit an existing one (`ClobberBoundary`); excluded fields are
  copied with a hash that is copied wholesale (`ExcludedFieldBoundary`); and a base key that begins inside
  the marker `_exp_:` rewrites the marker, which can take expiry keys out of the listing (`MarkerBoundary`,
  `MarkerClobbers`).
- Keys dumped under `_exp_` or `_hexed_` are lost, and so are keys in which the prefix occurs
  (`RoundTripBoundary`). The dump of an empty hash cannot be loaded, and a text dumped as `_exp_` makes the
  load raise once the data has been written (`LoadRaisesBoundary`, `IndexTextRaises`).

## Model

| member | source | states |
|---|---|---|
| `Common.RemoveFirstCount` | kvdb/tasks/queue.py:331-332 | LREM with count 1 removes one occurrence of the id and no other element |
| `Common.RemoveAllCount` | kvdb/tasks/queue.py:304 | LREM with count 0 removes every occurrence of the id and no other element |
| `TaskQueueModel.TaskQueue.constructor` | kvdb/tasks/queue.py:1603-1666 | a new queue has none of its keys |
| `TaskQueueModel.TaskQueue.Enqueue` | kvdb/tasks/static.py:27-36 | accepted exactly when the id is neither incomplete nor being aborted; then record, score and, if unscheduled, queue entry are written, otherwise nothing changes |
| `TaskQueueModel.TaskQueue.Schedule` | kvdb/tasks/static.py:1-18 | with the lock free, takes it, zeroes the score of every due id and appends them to the queue in order; otherwise changes nothing and returns nil |
| `TaskQueueModel.TaskQueue.Dequeue` | kvdb/tasks/queue.py:950-1000 | moves the last queued id to the head of active and returns its record, or reports a timeout or a missing record |
| `TaskQueueModel.TaskQueue.Finish` | kvdb/tasks/queue.py:409-429 | one active entry and the score go; the record is kept for ttl seconds, for good, or deleted |
| `TaskQueueModel.TaskQueue.Reschedule` | kvdb/tasks/queue.py:346-367 | the whole new store: finished, then waiting for the new time |
| `TaskQueueModel.TaskQueue.Abort` | kvdb/tasks/queue.py:295-314 | the whole new store for a queued id (finished, abort key gone) and for any other (abort key set, active entries gone) |
| `TaskQueueModel.TaskQueue.Sweep` | kvdb/tasks/queue.py:224-263 | under the lock, each listed id is judged by the job read beforehand and settled in turn; the swept ids are reported in order |
| `TaskQueueModel.TaskQueue.CheckStuckJob` | kvdb/tasks/queue.py:1026-1058 | a record that seems to have no TTL, the rounding of `TTL` included: first sight of a stuck-looking id marks it, second sight pushes it to the head of the queue and clears the mark |
| `TaskQueueModel.TaskQueue.CheckStuckJobs` | kvdb/tasks/queue.py:1015-1062 | the listed ids are treated one after the other |
| `TaskQueueModel.TaskQueue.ProcessQueue` | kvdb/tasks/worker.py:488-614 | a turn is a dequeue, a counted attempt and the outcome's branch: complete, failed after the last attempt, retried, failed for good, or left after a cancellation |
| `TaskQueueModel.ZeroPairs` | kvdb/tasks/static.py:8-13 | the flattened score table zeroes exactly the listed ids |
| `TaskQueueModel.UpdateThenFinish` | kvdb/tasks/worker.py:580-584 | the extra update of the JobError branch is overwritten by the finish |
| `QueueEffects.EnqueueEffect` | kvdb/tasks/static.py:27-36 | what an accepted enqueue does to its id, and that every other id is untouched |
| `QueueEffects.ScheduleEffect` | kvdb/tasks/static.py:1-18 | each due id gains one queue entry and score 0; every other id is untouched |
| `QueueEffects.DequeueEffect` | kvdb/tasks/queue.py:1484-1489 | one occurrence moves from queued to active, nothing else changes |
| `QueueEffects.FinishEffect` | kvdb/tasks/queue.py:424-427 | one active occurrence less, no score, other ids untouched |
| `QueueEffects.RetryEffect` | kvdb/tasks/queue.py:330-340 | occurrences, score and record of the id after either branch, other ids untouched |
| `QueueEffects.RescheduleEffect` | kvdb/tasks/queue.py:356-367 | occurrences, score and record of the id, other ids untouched |
| `QueueEffects.AbortEffect` | kvdb/tasks/queue.py:302-314 | the id leaves queue and scores; its abort key stays exactly when it was not queued |
| `QueueEffects.AbortRunEffect` | kvdb/tasks/worker.py:464-465 | the id loses an active entry, its score and its abort key |
| `QueueEffects.SweepMissingEffect` | kvdb/tasks/queue.py:246-251 | an id without record loses all active entries and its score |
| `QueueEffects.RequeueStuckEffect` | kvdb/tasks/queue.py:1047-1058 | the id gains a queue entry whatever it had before |
| `QueueAnswers.TurnLeavesRecord` | kvdb/tasks/worker.py:527-613 | the record after a turn of `process_queue`: completed or failed and kept by its ttl, queued again, or left active by a cancellation, with the attempt counted |
| `QueueAnswers.TurnLeavesLists` | kvdb/tasks/worker.py:559-613 | where the id is after a turn: nowhere, last in the queue, waiting for its time, or still active after a cancellation; nothing else has changed |
| `QueueAnswers.RejectedTurn` | kvdb/tasks/worker.py:512-523 | a job that is rejected, or has no record, is only moved to active |
| `QueueAnswers.FinishLeaves` | kvdb/tasks/queue.py:409-429 | a finished or aborted job keeps its record for its ttl, for good when that is 0, not at all when it is negative |
| `QueueAnswers.AbortLeaves` | kvdb/tasks/queue.py:295-314 | an abort finishes a queued job; any other gets an abort key for ttl seconds and its record lapses one second later |
| `QueueAnswers.TickLeaves` | kvdb/tasks/queue.py:306 | keys with a deadline are gone from the moment it is reached, all else stays |
| `QueueAnswers.LastDueFirst` | kvdb/tasks/queue.py:1484-1489 | of the jobs that a pass queues, the one due last is taken first, and the queue is as before when all are taken |
| `QueueAnswers.NewestFirst` | kvdb/tasks/static.py:27-36 | a job enqueued for now, or retried at once, is the next to be taken; an enqueue of a known or aborted id changes nothing |
| `QueueAnswers.LocksHold` | kvdb/tasks/queue.py:206-234 | while its lock is held a pass or sweep does nothing, otherwise it takes the lock for the lock time |
| `QueueAnswers.StuckLooks` | kvdb/tasks/queue.py:1026-1058 | what is stale in the checker's eyes, and that only every second look at it does anything: it puts the id where it is taken last |
| `QueueAnswers.SweptReasons` | kvdb/tasks/queue.py:246-255 | a listed id is reported, as often as it is listed, if and only if it has no record, its job is over, or it is active and overdue |
| `QueueAnswers.SweepLeaves` | kvdb/tasks/queue.py:224-263 | after a whole sweep: a reported id is out of active and scores and ends as aborted, kept by its ttl; any other has record, score and occurrences as before; so has the queue |
| `QueueNoLoss.NoLossStep` | kvdb/tasks/queue.py:224-429 | every step, stray copies and the stuck checker included, keeps each runnable id in a list |
| `QueueNoLoss.NoJobIsLost` | kvdb/tasks/queue.py:1015-1059 | in every state of every run from the empty queue, an id with score 0 is queued or active |
| `QueueOwnership.OwnershipStep` | kvdb/tasks/queue.py:295-429 | every disciplined step keeps: listed at most once, listed exactly when score 0, backed by a lasting record, held by at most one task |
| `QueueOwnership.ExclusiveOwnership` | kvdb/tasks/queue.py:950-1000 | in every state of every disciplined run an id occurs at most once in queued ++ active, exactly when its score is 0, and no two tasks hold it |
| `QueueOwnership.UnheldUnlessAnchored` | kvdb/tasks/static.py:28 | a queued, waiting or enqueueable id has no holder |
| `QueueBoundaries.ImmediateRetryBoundary` | kvdb/tasks/queue.py:336-338 | the end of a run, failed or cancelled, keeps ownership if and only if it is no immediate retry of a job with a schedule of its own |
| `QueueRuns.ScheduledRetryRunsTwice` | kvdb/tasks/queue.py:336-338 | a run whose only undisciplined step is such a retry ends with two holders of one id |
| `QueueBoundaries.StuckRequeueBoundary` | kvdb/tasks/queue.py:1044-1058 | the stuck checker keeps ownership if and only if the id is not queued, not held, unscheduled, and its record has no TTL |
| `QueueRuns.StuckJobRunsTwice` | kvdb/tasks/queue.py:1044-1058 | a run in which two looks at a waiting job end with two holders of its id |
| `QueueBoundaries.AbortLapseBoundary` | kvdb/tasks/queue.py:306 | passing time keeps ownership if and only if no abort key lapses under a run it still shields |
| `QueueRuns.LapsedAbortRunsTwice` | kvdb/tasks/queue.py:306 | a run whose only undisciplined step is such a lapse ends with two holders of one id |
| `QueueBoundaries.SweepBoundary` | kvdb/tasks/queue.py:246-255 | sweeping an id keeps ownership if and only if the job is left alone, or the id is not queued and any holder of it is being aborted |
| `QueueRuns.SweptHolderRunsTwice` | kvdb/tasks/queue.py:251-255 | a run whose only undisciplined step is a sweep of a running job ends with two holders of its id |
| `QueueBoundaries.StrayBoundary` | kvdb/tasks/queue.py:320-429 | for each kind of late write by a run that lost its job, exactly when it keeps ownership |
| `QueueBoundaries.OwnershipBoundary` | kvdb/tasks/queue.py:224-429 | any step of the protocol keeps ownership if and only if it is harmless |
| `QueueBoundaries.OwnedThroughout` | kvdb/tasks/queue.py:224-429 | a run from the empty queue keeps ownership in all its states if and only if all its steps are harmless |
| `QueueBoundaries.StuckRevivalBoundary` | kvdb/tasks/queue.py:1029-1058 | the stuck checker leaves a gone id gone if and only if this is not the second look at a record that looks stuck |
| `QueueBoundaries.FinishedJobRevives` | kvdb/tasks/queue.py:1026-1058 | two looks put an ended job back if and only if its ttl is 0 and it is neither scheduled nor a cron job |
| `QueueTimers.TimerStep` | kvdb/tasks/queue.py:206-221 | an id starts to wait only by an accepted enqueue, a delayed retry or a reschedule, and stops only by a late enough pass or an abort |
| `QueueTimers.TimersAreConserved` | kvdb/tasks/static.py:1-18 | timers set = fired + cancelled + running, for every id after every number of steps: exactly one queue entry per (re)scheduling |
| `QueueTimers.NeverEarly` | kvdb/tasks/queue.py:329-340 | an id waiting for T that stops waiting was aborted, or a pass whose clock had reached T queued it, and it was then queued exactly once |
| `QueueTimers.PassesKeepDistance` | kvdb/tasks/static.py:2-3 | any two successful scheduling passes of any run are at least the first one's lock time apart |
| `QueueLifeCycle.LiveUntilEnded` | kvdb/tasks/queue.py:526-553 | after an accepted enqueue the id stays incomplete until a finish, abort or sweep |
| `QueueLifeCycle.TakenUntilEnded` | kvdb/tasks/static.py:27-36 | in between every enqueue of the id is refused without effect, and its record exists, is its own and has no TTL |
| `QueueLifeCycle.DequeueFindsRecord` | kvdb/tasks/queue.py:975-997 | a dequeuing worker always finds the record and becomes the only holder |
| `QueueLifeCycle.EndingLeavesNothing` | kvdb/tasks/queue.py:224-429 | a finish, abort or sweep leaves the id in no list, without score and without holder, except for the holder that an abort has yet to reach |
| `QueueLifeCycle.GoneUntilEnqueued` | kvdb/tasks/queue.py:409-429 | no step but an accepted enqueue puts a gone id back in any structure |
| `QueueLifeCycle.EndedStaysGone` | kvdb/tasks/queue.py:224-429 | from the end of a job, by a finish, a sweep or an abort that finds no holder, to the next accepted enqueue of its id, the id is nowhere |
| `QueueLifeCycle.EndedStaysOut` | kvdb/tasks/queue.py:295-429 | from any end of a job, an abort that finds a holder included, the id stays out of lists and scores if and only if no enqueue of it is accepted and its holder neither retries nor reschedules it |
| `QueueRuns.AbortedJobReturns` | kvdb/tasks/worker.py:564-574 | a disciplined run in which a job that was aborted while it ran fails and is queued again |
| `QueueRetryBound.BoundStep` | kvdb/tasks/worker.py:564-613 | each disciplined step keeps the bound on starts and the agreement of job copies with the counted starts |
| `QueueRetryBound.StartsAreBounded` | kvdb/tasks/worker.py:527-613 | a job is started at most retries + 1 + c times, c counting cancelled-and-retried and rescheduled runs |
| `QueueRetryBound.StartUsesOneUp` | kvdb/tasks/worker.py:527-531 | the starts left are never negative and each start takes one away |
| `QueueWorker.ProcessIsRun` | kvdb/tasks/worker.py:502-614 | every turn of `process_queue` is a run of the protocol that leaves the task idle: nothing, a dequeue of an id without record, a rejected job, or a dequeue, a start and an end |
| `QueueWorker.ProcessSettles` | kvdb/tasks/worker.py:559-613 | a turn that ends the job for good leaves its id in no structure |
| `QueueWorker.SweepKeepsOwnership` | kvdb/tasks/queue.py:238-255 | a whole sweep that judges by earlier reads keeps ownership, leaves unlisted ids alone, and every reported id is gone |
| `WaitForJobs.WaitForJobs` | kvdb/tasks/queue.py:1133-1166 | the two loops, which remove from the list they iterate, compute the specified polling, refresh errors and `raise_exceptions` included |
| `WaitForJobs.PollOne` | kvdb/tasks/queue.py:1137-1160 | one turn of the inner loop: the two refresh errors, the collected and the failed job, and when it raises |
| `WaitForJobs.TurnEnters` | kvdb/tasks/queue.py:1137-1160 | who is enqueued again, who is noted as unreadable, who is collected with its result, and who is noted as failed |
| `WaitForJobs.RaiseBoundary` | kvdb/tasks/queue.py:1141-1159 | a turn raises if and only if `raise_exceptions` is set and the job is unreadable or failed, or it is unreadable, listed once and known to be over |
| `WaitForJobs.NothingLostOrDoubled` | kvdb/tasks/queue.py:1135-1160 | whatever the refreshes come to, unless the call raises, remaining, collected, failed and unreadable jobs together are a permutation of the input |
| `WaitForJobs.PassHalves` | kvdb/tasks/queue.py:1136-1160 | a pass over n finished distinct jobs leaves exactly every second one, n / 2 of them |
| `WaitForJobs.DrainsInLogPasses` | kvdb/tasks/queue.py:1135-1161 | finished jobs are drained after floor(log2 n) + 1 passes and not before |
| `WaitForJobs.PassesIsLogarithm` | kvdb/tasks/queue.py:1135 | the number of passes is floor(log2 n) + 1 |
| `WaitForJobs.CollectsExactlyTheCompleted` | kvdb/tasks/queue.py:1147-1150 | each completed job is collected once with its result, and no other |
| `Broadcast.ExpandItem` | kvdb/tasks/queue.py:711-719 | one item's argument sets; the first worker pops the supplied key, the others get generated ones |
| `Broadcast.PrepareJobKws` | kvdb/tasks/queue.py:686-720 | all argument sets in item-major order and the chosen workers, for broadcast and plain mapping |
| `Broadcast.RowCount` | kvdb/tasks/queue.py:710-719 | m items over n workers give m * n argument sets |
| `Broadcast.RowAt` | kvdb/tasks/queue.py:710-719 | the set at i * n + j joins item i, without its key, with worker j under the key of that position |
| `Broadcast.RowValues` | kvdb/tasks/queue.py:711-719 | an argument comes from the worker, else from the item, else from the call, else it is the timeout or the key |
| `Broadcast.SuppliedKeyFirst` | kvdb/tasks/queue.py:712-716 | the key that an item brings along goes to its first worker, every other one is generated |
| `Broadcast.WorkersChosen` | kvdb/tasks/queue.py:686-709 | the selected workers, else the selector's, else the named ones, else all of them |
| `Broadcast.PairOf` | kvdb/tasks/queue.py:711-718 | every position belongs to a pair of an item and a worker |
| `Broadcast.PairsApart` | kvdb/tasks/queue.py:711-718 | different pairs have different positions, so each pair occurs once |
| `Broadcast.AllKeysDistinct` | kvdb/tasks/queue.py:715 | supplied and generated keys are pairwise different although only the first worker gets the supplied one |
| `Broadcast.JobKeysDistinct` | kvdb/tasks/queue.py:713-717 | the argument sets carry pairwise different job keys |
| `AttributeMatch.DetermineMatch` | kvdb/tasks/utils.py:100-118 | in whatever order the shared keys are visited, the early exits give the verdict of the plain count |
| `AttributeMatch.CountMatches` | kvdb/tasks/utils.py:105-112 | the counting loop: all matching keys, or as many as settle the verdict |
| `AttributeMatch.WordsAsNumbers` | kvdb/tasks/utils.py:109-117 | 'any' equals 1, 'all' equals the number of shared keys, and 'all' implies 'any' |
| `AttributeMatch.FewerIsEasier` | kvdb/tasks/utils.py:114-115 | matching at n implies matching at any smaller number |
| `AttributeMatch.EdgeVerdicts` | kvdb/tasks/utils.py:100-118 | without a check everything matches; nothing matches that shares no attribute, or for a word of no meaning |
| `AttributeMatch.MatchesByWitness` | kvdb/tasks/utils.py:106-115 | matching at n holds if and only if some n shared keys match one by one |
| `DbUrl.ParsePrint` | kvdb/types/base.py:282-286 | decimal printing and parsing are inverse |
| `DbUrl.ReplaceBehindZeros` | kvdb/types/base.py:370 | replacing the old number touches only the number behind the leading zeros |
| `DbUrl.WithDbIdRoundTrip` | kvdb/types/base.py:362-381 | for every path that is absent or a slash and digits, `with_db_id(d).db_id == d`, the rest of the URL is kept, and the path is again a slash and digits |
| `DbUrl.ZerosStay` | kvdb/types/base.py:370-372 | the new path to the letter: leading zeros stay in front of the new number |
| `DbUrl.ZeroGoes` | kvdb/types/base.py:370-372 | a path of zeros only, or none, becomes a slash and the number |
| `DbUrl.OtherPaths` | kvdb/types/base.py:282-286 | an empty path gets the number, any other that is not a slash and digits raises |
| `DbUrl.LastRewriteWins` | kvdb/types/base.py:362-381 | rewriting twice leaves the last number |
| `OptimizedPoolModel.OptimizedPool.constructor` | kvdb/components/connection_pool.py:553-566 | an empty pool; a missing or zero limit means 2 ** 31 |
| `OptimizedPoolModel.OptimizedPool.MakeConnection` | kvdb/components/connection_pool.py:653-660 | raises exactly when the counter is at the maximum, otherwise counts one |
| `OptimizedPoolModel.OptimizedPool.ClaimSlow` | kvdb/components/connection_pool_optimized.py:186-205 | pops, else creates and counts twice, else gives up |
| `OptimizedPoolModel.OptimizedPool.ClaimBlocked` | kvdb/components/connection_pool_optimized.py:212-234 | one turn of the wait loop: pops, else creates, else parks |
| `OptimizedPoolModel.OptimizedPool.Release` | kvdb/components/connection_pool_optimized.py:301-305 | the connection becomes idle and the oldest parked task is notified |
| `OptimizedPoolModel.OptimizedPool.WarmPool` | kvdb/components/connection_pool_optimized.py:113-148 | the warming loop, with other tasks popping without the lock while a connection connects, and the number of connections it stored |
| `OptimizedPoolModel.WarmsHalf` | kvdb/components/connection_pool_optimized.py:130-139 | warming stores half of the connections it counts towards its target, whatever is popped meanwhile |
| `OptimizedPoolModel.WarmingStops` | kvdb/components/connection_pool_optimized.py:140-144 | at a failed connect warming stops, and the connection is lost with the count it had |
| `OptimizedPoolModel.WarmedInOrder` | kvdb/components/connection_pool_optimized.py:132-134 | connections are stored in the order in which they were made |
| `PoolAnswers.ClaimAnswers` | kvdb/components/connection_pool_optimized.py:189-234 | under the lock a task gets the connection that became idle last, else a new one counted twice, else none |
| `PoolAnswers.IdleFirst` | kvdb/components/connection_pool_optimized.py:189-234 | so in every run: with something idle a claim builds and counts nothing, and with nothing idle it builds below the limit or goes to wait |
| `PoolAnswers.FastPathUses` | kvdb/components/connection_pool_optimized.py:162-176 | the lock-free path pops the last idle connection, and the task that popped it uses it |
| `PoolAnswers.BuiltWhenNeeded` | kvdb/components/connection_pool_optimized.py:193-201 | a connection is built only by a claim that finds nothing idle and the counter below the limit, or by warming below its target |
| `PoolAnswers.GivenBackIsNext` | kvdb/components/connection_pool_optimized.py:301-305 | a connection that is given back is the next to be handed out, and the oldest waiter is notified |
| `PoolAnswers.WaitersKeepOrder` | kvdb/components/connection_pool_optimized.py:219-234 | waiters come in at the end and leave from the front |
| `PoolAnswers.WarmingAnswers` | kvdb/components/connection_pool_optimized.py:124-144 | the target is capped by the limit, a connection that connects is stored, one that does not is dropped and warming ends |
| `PoolSafety.SafetyStep` | kvdb/components/connection_pool_optimized.py:150-234 | every step keeps each connection in exactly one place, one user per connection, and the counter in step |
| `PoolSafety.PoolIsSafe` | kvdb/components/connection_pool_optimized.py:128-234 | idle, popped and in-use connections are disjoint and together the live ones; 2 * live <= created <= max + 1, so live never exceeds the limit |
| `PoolSafety.CounterIsDouble` | kvdb/components/connection_pool_optimized.py:201 | created = 2 * live + lost + 1 while warming |
| `PoolSafety.NoPutBackNoRaise` | kvdb/components/connection_pool_optimized.py:173-176 | neither put-back branch is reachable, whenever a connection is made the counter is below the maximum, so `make_connection` never raises, and a released connection is in use |
| `PoolSafety.OnlyPopsWhileLocked` | kvdb/components/connection_pool_optimized.py:162-166 | while a task has the lock, the others can only pop from the pool |
| `PoolWakeup.NoLostWakeup` | kvdb/components/connection_pool_optimized.py:210-234 | while a task is parked un-notified the counter is at the maximum and idle connections are at most the notified waiters (plus a release about to notify); no settled state has both a parked task and an idle connection |
| `PoolWakeup.OldestIsWoken` | kvdb/components/connection_pool_optimized.py:301-305 | a release wakes the task parked longest, which can then run |
| `PoolWakeup.BlocksAtHalf` | kvdb/components/connection_pool_optimized.py:195-201 | tasks park at (max + 1 - lost) / 2 live connections |
| `PoolExhaustion.DeadBoundary` | kvdb/components/connection_pool_optimized.py:130-144 | the counter is at the maximum and nothing is idle, popped, held or being warmed if and only if the lost connections and twice the leaked ones make up the limit |
| `PoolExhaustion.SomeoneCanRelease` | kvdb/components/connection_pool_optimized.py:210-234 | in a settled state with a parked task and none popped, some task holds a connection, which it can give back, if and only if those counts are below the limit |
| `PoolExhaustion.DeadForever` | kvdb/components/connection_pool_optimized.py:140-144 | a dead pool stays dead, and no task ever holds a connection |
| `PoolExhaustion.ServiceBoundary` | kvdb/components/connection_pool_optimized.py:150-234 | some continuation of a run has a task with a connection if and only if those counts are below the limit |
| `PoolExhaustion.OneFailureKills` | kvdb/components/connection_pool_optimized.py:130-144 | a run of three steps in which one failed warm-up kills a pool of one connection |
| `PoolExhaustion.OneLeakKills` | kvdb/components/connection_pool_optimized.py:247-251 | a run in which one failed health check does, and the next caller is parked with nothing lost |
| `StatefulBackendModel.StatefulBackend.RunExpirationCheck` | kvdb/components/persistence.py:329-342 | the sweep as it runs, with deadlines read once and the clock read per key |
| `StatefulBackendModel.StatefulBackend.ExpirationCheck` | kvdb/components/persistence.py:359-371 | the check of one key removes it from both hashes exactly when it has lapsed |
| `StatefulBackendModel.StatefulBackend.GetItem` | kvdb/components/persistence.py:387-404 | the get script, and the deletion of a value that does not decode |
| `StatefulBackendModel.StatefulBackend.SetItem` | kvdb/components/persistence.py:425-437 | value and deadline, by the given `ex` unless missing or zero, else by the default; without either the side hash is left alone |
| `StatefulBackendModel.StatefulBackend.SetItems` | kvdb/components/persistence.py:441-449 | all values and one deadline, by the same rule, refused without effect for an empty batch |
| `StatefulBackendModel.StatefulBackend.DeleteItem` | kvdb/components/persistence.py:459-465 | the key leaves both hashes |
| `StatefulBackendModel.StatefulBackend.ClearItems` | kvdb/components/persistence.py:468-476 | named keys leave both hashes, a full clear only the data hash |
| `StatefulBackendModel.StatefulBackend.ContainsItem` | kvdb/components/persistence.py:802-808 | check, then look |
| `StatefulBackendModel.StatefulBackend.CountItems` | kvdb/components/persistence.py:591-597 | the number of visible keys |
| `StatefulBackendModel.StatefulBackend.AllItems` | kvdb/components/persistence.py:620-636 | the visible entries that decode; one that fails for a missing attribute is deleted, any other failure raises |
| `StatefulBackendModel.StatefulBackend.GetItems` | kvdb/components/persistence.py:406-422 | sweep of the asked keys, values in order, deletion of what does not decode; an empty list sweeps everything and raises |
| `TtlRefinement.ScanMeaning` | kvdb/components/persistence.py:626-636 | in whatever order a listing goes through the keys, it raises if and only if some value fails otherwise than for a missing attribute, and if not, reports exactly what decodes and deletes exactly the rest |
| `StatefulBackendModel.StatefulBackend.ExpireItem` | kvdb/components/persistence.py:820-826 | a deadline for the key, stored or not |
| `HashExpiry.SweepBetween` | kvdb/components/persistence.py:337-341 | however the clock moves during a full sweep, it leaves no key invisible at its first reading, every key visible at its last, and later views unchanged |
| `HashExpiry.ReadsAgree` | kvdb/components/persistence.py:138-148 | at any time the Lua get, `contains`, `length` and the listings report one view, and their deletions leave it unchanged then and later |
| `HashExpiry.ReadsDelete` | kvdb/components/persistence.py:138-148 | what each read deletes from both hashes, and that nothing else changes |
| `HashExpiry.UndatedWriteBoundary` | kvdb/components/persistence.py:151-157 | a write without deadline stays visible for good if and only if its key has no old entry in the side hash |
| `HashExpiry.ClearedKeyExpires` | kvdb/components/persistence.py:472-476 | after a full clear an undated write still expires with the old entry |
| `TtlRefinement.SimulationStep` | kvdb/components/persistence.py:387-476 | each call gets the same reply from the two hashes and from one map with deadlines, and they go on agreeing |
| `TtlRefinement.ExpireBoundary` | kvdb/components/persistence.py:293-299 | `expire` refines the single map if and only if the key is not a lapsed one still stored (or the deadline is not in the future) |
| `TtlRefinement.DictionaryIsTtlMap` | kvdb/components/persistence.py:425-482 | from empty hashes every sequence of calls gets the replies of the single map |
| `DictionaryLaws.GetAnswers` | kvdb/components/persistence.py:387-404 | a get answers the visible value if it decodes, and nothing otherwise |
| `DictionaryLaws.GetValuesAnswers` | kvdb/components/persistence.py:406-422 | a batch does so position by position; an empty one raises |
| `DictionaryLaws.ListingsAnswer` | kvdb/components/persistence.py:591-597 | `contains`, `length` and the key listing answer what is visible |
| `DictionaryLaws.EntriesAnswer` | kvdb/components/persistence.py:620-636 | a listing of entries answers the visible ones that decode, unless some failure raises |
| `DictionaryLaws.WriteIsSeen` | kvdb/components/persistence.py:425-482 | what is seen of any key at any time after any write: its value up to its deadline, with the given lifetime unless missing or zero, else the default; other keys as before |
| `DictionaryLaws.WriteThenRead` | kvdb/components/persistence.py:387-437 | a get in time answers what was set, if it decodes, and a get too late nothing |
| `DictionaryLaws.ReadIsHarmless` | kvdb/components/persistence.py:138-148 | after a read every key is seen as before, except those whose values it found not to decode |
| `DictionaryLaws.DeadlineAfter` | kvdb/components/persistence.py:468-476 | the deadline that each write leaves; a full clear leaves all of them |
| `Text.DeletingChanges` | kvdb/components/persistence.py:858 | `replace` with the empty string changes exactly the strings in which the pattern occurs |
| `Hex.UnhexlifyHexlify` | kvdb/components/persistence.py:863-909 | unhexlify undoes hex |
| `Hex.HexlifyAt` | kvdb/components/persistence.py:863-864 | two lower-case digits for each byte, the high one first |
| `Hex.UnhexlifyAccepts` | kvdb/components/persistence.py:907-909 | exactly the even numbers of hexadecimal digits mean bytes |
| `DumpLoad.NamesRoundTrip` | kvdb/components/persistence.py:282-287 | loading undoes the dump's naming if and only if base key and separator do not occur in the key |
| `DumpLoad.NamesMeaning` | kvdb/components/persistence.py:853-857 | in full a key gets base key and separator in front, once; in short it goes without them |
| `DumpLoad.DumpRaw` | kvdb/components/persistence.py:839-867 | the dumping loop, with its hex list and its failure when the list's name is taken |
| `DumpLoad.DumpMeaning` | kvdb/components/persistence.py:853-867 | a dump of well-named items holds each of them as text, and lists exactly those that are not UTF-8 |
| `DumpLoad.LoadRaw` | kvdb/components/persistence.py:899-916 | the two loops of the load into an empty hash, what it leaves there, and whether it raises, for lack of an entry or over the popped `_exp_` entry |
| `DumpLoad.DumpLoadRoundTrip` | kvdb/components/persistence.py:899-957 | dump and load restore exactly the keys and bytes of a hash that is not empty, with full or short names |
| `DumpLoad.RoundTripBoundary` | kvdb/components/persistence.py:839-916 | dump and load restore a hash if and only if it is not empty, base key and separator occur in none of its keys, and none is dumped under a special name |
| `DumpLoad.LoadRaisesBoundary` | kvdb/components/persistence.py:902-915 | the load of a dump raises if and only if every key was dumped under a special name, above all for the empty hash, or the last key dumped as `_exp_` has a text; in the second case the data is written all the same |
| `DumpLoad.IndexTextRaises` | kvdb/components/persistence.py:903-915 | a hash with a key `_exp_` and another one, which is loaded before the load raises |
| `DumpLoad.DumpRaisesBoundary` | kvdb/components/persistence.py:861-867 | taking the dump raises if and only if a value that is not UTF-8 follows a key dumped as `_hexed_` |
| `CloneModel.CopyLoop` | kvdb/components/persistence.py:1432-1440 | the field-by-field loop: fields to write, completed and skipped labels |
| `CloneModel.CopyHash` | kvdb/components/persistence.py:1400-1457 | the three branches for a hash, and when a command raises |
| `CloneModel.CopyKey` | kvdb/components/persistence.py:1370-1481 | one source key: skipped, copied by its type, failed or raised |
| `CloneModel.Clone` | kvdb/components/persistence.py:1356-1493 | the whole loop, up to the first key that raises |
| `CloneAnswers.KeyOutcome` | kvdb/components/persistence.py:1366-1481 | which counter a key enters: skipped if a filter refuses one of its names or it is there already, an error or a raise if its type clashes, else completed |
| `CloneAnswers.TextIsCopied` | kvdb/components/persistence.py:1386-1399 | a text key that is not passed over leaves exactly its value under its new name, and every other key as it was |
| `CloneAnswers.CompletedTextArrives` | kvdb/components/persistence.py:1366-1399 | over the whole loop, a completed text key has the source's value under its new name in the end, unless a later key goes to the same name |
| `CloneAnswers.UntouchedStays` | kvdb/components/persistence.py:1366-1481 | a name that no key goes to is as it was |
| `CloneAnswers.OtherIsCopied` | kvdb/components/persistence.py:1459-1476 | a set, list or sorted set that is not passed over and does not clash is there afterwards |
| `CloneAnswers.HeldBackReasons` | kvdb/components/persistence.py:1401-1452 | when a field is held back, by which branch the copying takes and what is excluded, filtered or there |
| `CloneAnswers.NewNames` | kvdb/components/persistence.py:1376 | the base key in front of a name is replaced, and a name without it is kept |
| `CloneSafety.CloneDoesNotClobber` | kvdb/components/persistence.py:1359-1457 | with `overwrite` False and no renaming, every text key and hash field of the target survives, even when the loop stops half-way |
| `CloneSafety.DataKeysAreCovered` | kvdb/components/persistence.py:1376 | prefix replacement sends every key under the source base key under the target base key |
| `CloneMarker.MarkerBoundary` | kvdb/components/persistence.py:1376 | the keys under `_exp_:` and the source base key all go to covered names if and only if the base keys are equal, or the first does not begin inside the marker, or the second repeats what is in front of that place, or both repeat what is behind and end at the same place of it |
| `CloneMarker.MarkerClobbers` | kvdb/components/persistence.py:1359-1396 | for any other base keys, a clone of one such key overwrites a text in spite of `overwrite` False |
| `CloneMarker.MarkerUnsafe` | kvdb/components/persistence.py:1376 | base keys that do not meet the condition |
| `CloneMarker.CloneOfBaseKeys` | kvdb/components/persistence.py:1530-1550 | under that condition a clone of the keys that are passed on clobbers nothing |
| `CloneSafety.ClobberBoundary` | kvdb/components/persistence.py:1366-1457 | for every configuration, nothing of the target is clobbered at any moment of the loop if and only if no key that is reached overwrites a text, a hash, or a field under its new name |
| `CloneSafety.ForcedClobberBoundary` | kvdb/components/persistence.py:1366-1457 | with `overwrite` True, nothing is clobbered if and only if no key that is reached overwrites something of the target as it was before the loop; all are reached when errors are only counted |
| `CloneSafety.TextClobberBoundary` | kvdb/components/persistence.py:1359-1396 | without renaming and unless `overwrite` is True, nothing is clobbered at any moment of the loop if and only if each text key that is reached finds no other text and no hash, or `overwrite` is False and the listing covers its name |
| `CloneSafety.HashPreserves` | kvdb/components/persistence.py:1401-1441 | copying a hash keeps every existing field unless `overwrite` is True |
| `CloneSafety.HashIsCopied` | kvdb/components/persistence.py:1429-1457 | for every configuration, a field name to which a field arrives has the source's value, and every other name is as it was |
| `CloneLedger.KeysAddUp` | kvdb/components/persistence.py:1366-1481 | completed + skipped + errors is the number of source keys, and completed the length of the completed keys |
| `CloneLedger.FieldLists` | kvdb/components/persistence.py:1429-1457 | for every configuration and however the loop ends, the completed fields are the labels of the copied entries and the skipped ones those of the others, each list in order |
| `CloneLedger.FieldsAddUp` | kvdb/components/persistence.py:1429-1457 | unless a hash copy failed, and for every renaming, the entries match the fields of the hashes that the loop got through one by one, so each field is in exactly one of the two lists, under its new name or its own |
| `CloneLedger.ExcludedFieldBoundary` | kvdb/components/persistence.py:1453-1457 | an excluded field is copied if and only if its hash is copied wholesale |

## Left out

- Atomicity of `abort`, `_reschedule` and one sweep entry: each sends several commands and is taken as one change; what other clients do between those commands is not modelled.
- The end of a run after `reschedule`: the worker's shutdown reschedules a job whose run is still going and is cancelled later; the ownership results take the reschedule as the end of that run. Its late writes are covered by the no-loss result and by `QueueBoundaries.StrayBoundary`.
- Worker-specific key sets: a queue's lists for one worker id or name are another instance of the same store.
- The LUA limit on unpacked arguments in the schedule script, and scores below 1, which no pass ever picks up.
- The push queue, the `tasks_idx` counter, notifications, callbacks and cron enqueueing: no invariant is attached to them.
- `get_comparison`: the comparison of two attribute values is a parameter that always answers.
- Database numbers other than plain digits: Python's `int` also takes signs, blanks and underscores.
- Cancellation of pool tasks, pool reset and disconnect, and the auto-reset of the base pool's `get_connection`: not modelled; the health check is a step that either hands the connection out or leaves it in use.
- Non-HSET mode of the dictionary, set operations, `incrby`, and calls other than the listed ones. The asynchronous `aget_all_data` deletes after any failure; the listing modelled is the synchronous one.
- The TTL that a load puts on the whole data hash when there is a default expiration and no side hash in the dump.
- The side hash in dumps: that a dump has one is modelled, its entries are not, because keys that come back as bytes are written under their printed form.
- Schema migration, glob characters in base keys and an empty source base key in cloning; sets, lists and sorted sets are one opaque kind there.
- The synchronous pool, MultiDB, sessions, serializers, cachify, settings and process management.
