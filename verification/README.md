# Verified model of MEF's concurrent and stateful cores

This project models, in Dafny, the parts of MEF (the edge management platform and its device plugin) in
which state, concurrency or failure handling is hardest to get right, and proves what they promise:

- **The task scheduler** (`taskschedule`). `SchedulerState` is a step machine of the whole scheduler:
  submitters, the life-cycle goroutine of every task, callers of `UpdateStatus`, pool workers, the
  history cleaner, the cancellation tree and the table of rows. A run is any interleaving of their steps;
  timers, picks of a select statement and answers of the repository are choices of the environment. A pool
  may have any capacity; with capacity zero a task goes straight to a worker that waits.
  `SchedulerTasks` proves the invariant of every reachable state and `SchedulerResults`,
  `SchedulerCalls`, `SchedulerShutdown`, `SchedulerPools`, `SchedulerCounter` with `SchedulerLosses`,
  and `SchedulerWakeUp` the results about rows, callers, shutdown, pools, the counter and the done
  event; `SchedulerCleaning` says what the cleaner spares, `SchedulerProgress` what submitters and workers
  can get done. `SchedulerExample` is one concrete run. `TaskContexts` runs the goroutine of one task as the
  three loops it is, in place, against the same functions. `HistoryTrim` runs one round of the cleaner
  to its end; `SubTaskSelector` is a machine of concurrent `Select` calls.
- **The synchronous message bus** (`ChannelBus`): rendezvous channels, anonymous reply channels,
  timeouts and closing, as a step machine.
- **The segmented LRU cache**: index and linked list (`LruCache`, `SegmentedCache`) against lists of
  entries in order of recency (`LruSpec`), with the laws callers rely on (`LruLaws`).
- **Mirrored database transactions** (`MirroredTransactions`, `TransactionRunner`): begin, save points,
  rollback and commit on two databases, with failures and panics, against snapshots per call.
- **The limiters**: the ring of the bandwidth limiter against one shared budget (`BandwidthLimiter`),
  the lazy token bucket against one that is always up to date (`RateLimiter`).
- **Log rotation** (`LogRotation`), **framed backup files** (`FramedData`, `BackupFiles`, `SealedPair`),
  **matching of revocation lists and certificates** (`CrlMatching`; section 5.1 of RFC 5280) and
  **publication of NPU health** (`NpuHealth`).

Where the code works in place, classes and methods with loops change the same fields and are proved
against functions, and the promises are lemmas about those functions. Where goroutines interleave, the
model is a machine whose steps are the actions other goroutines can see.

## Where a promise does not hold

Some properties one would expect fail in the code as it is. Each has a concrete case, and the condition
under which the property holds:

- A commit that fails in `SubmitTask` leaves a registry entry behind and the counter one too low
  (`SchedulerCounter.FailedCommitLeavesEntry`); when exactly the counter is right is said by
  `SchedulerLosses.CounterExactly`, and without such a failure it is.
- A task may end with its row unfinished although the design promises otherwise: the cached phase is lost,
  and with it the last update, exactly when an allowed request meets a missing row, names no column at all, or
  is the scheduler's own and its statement fails (`SchedulerResults.LosesExactly`, `DoneMeansFinished`). A
  user's `UpdateStatus` with a zero status is enough; `SchedulerExample.BlankStatusLeavesRowUnfinished`
  is such a run, without any failure.
- A second `SendSync` with an id in flight can return an empty response: from every state in which it stores
  its channel over the other's, unless its destination is closed (`ChannelBus.SharedIdGivesEmptyResponse`,
  `EmptyResponseHappens`); with distinct ids in flight responses match.
- Concurrent `Select` calls can return the same child when as many children are read as the choosing loop has
  rounds, and only then (`SubTaskSelector.DistinctExactly`); the scheduler's bound on rows keeps them fewer.
- A finished master whose tree cannot be read or whose row cannot be deleted is passed over, and one that
  finished later goes instead (`HistoryTrim.OlderMasterStays`, `TrimmingKeepsNewest`).
- `INCR` and `DECR` take expiry times that overflow the clock (`LruSpec.ExpiryOverflow`); `Set` caps them.
- Main and backup database part ways when the backup drops a commit, when only the backup has nested
  transactions, and when the main one refuses a save point inside a call of the same function; otherwise
  they never do (`MirroredTransactions.MirrorsExactly`, `OutermostCallsMirror`, `RefusedReentryParts`).
- A nested transaction that fails may keep statements of its own when its function was called again
  from inside it, and only then (`MirroredTransactions.ReentryLeavesTrace`, `IdealExactly`).
- The bandwidth reserve of a connection is no guarantee unless nothing is reserved
  (`BandwidthLimiter.ReserveKeptExactly`, `ReserveIsNotKept`).
- Log bytes go missing in the middle when two rotations share a millisecond or when an old backup cannot be
  deleted and a newer one is (`LogRotation.SameStampLosesBytes`, `StuckBackupLeavesGap`); when exactly,
  is said by `LogRotation.SuffixExactly`.
- A file within 51 bytes of ten megabytes is backed up but cannot be restored
  (`FramedData.RestoreUndoesBackUp`).
- A main file torn before its flag is accepted unverified, although the backup is whole; torn after it, the
  old data comes back (`SealedPair.TruncatedWrite`, `BrokenWrite`). After an unframed read, and only then,
  the same object can read no more (`SealedPair.ReadingAgain`).
- Comparing certificates with lists may miss a matching exactly for relations that are not given by keys
  (`CrlMatching.NeverWrongExactly`, `ByKeyExactly`); signatures are.
- A Duo card with one sick chip has its type flagged in every round (`NpuHealth.FlaggedAgain`).

## Model

| member | source | states |
|---|---|---|
| `TaskPhases.AllowIsPermitted` | src/mef-center/common/taskschedule/context_impl.go:305-341 | Between stored phases the transition rule allows exactly what the design permits: stay, finish, or, for the scheduler only, move to a heavier phase; a finished task allows nothing |
| `TaskPhases.PermittedGains` | src/mef-center/common/taskschedule/context_impl.go:312-341 | A permitted move never loses weight and keeps it only by staying put |
| `TaskLifeCycle.HandlePermitted` | src/mef-center/common/taskschedule/context_impl.go:282-303 | The effect of one handled request on the row is a permitted transition, reported as an effect exactly when the row was updated; a request of a loop sets the phase it asked for |
| `TaskLifeCycle.HandleTakesEffect` | src/mef-center/common/taskschedule/context_impl.go:282-303 | With a cached phase that is the one of the row: a permitted request that names a column takes effect as asked, in row and cached phase, as one effect; every other case of request and answer is as said, and nothing else of the task changes |
| `TaskLifeCycle.HandleWhenLost` | src/mef-center/common/taskschedule/context_impl.go:282-341 | Once the cached phase is lost, only requests to finish or without a phase reach the row |
| `TaskLifeCycle.HandleKeepsInv` | src/mef-center/common/taskschedule/context_impl.go:282-303 | Handling any request with any answer of the repository keeps the task invariant: channels and contexts match the position in the goroutine, and the cached phase is that of the row, or unset with a row that is not finished |
| `TaskLifeCycle.AdvanceKeepsInv` | src/mef-center/common/taskschedule/context_impl.go:229-280 | Leaving a loop cancels the main context, signals graceful shutdown, closes the channels and then Done, in that order, and keeps the task invariant |
| `TaskContexts.GoroutineEndsInOrder` | src/mef-center/common/taskschedule/context_impl.go:150-280 | For every sequence of requests, timers and repository answers, the three loops either block waiting for an event or end with Done closed, graceful shutdown signalled, the main context cancelled, updates closed and the row, if it is there, finished exactly when the cached phase was not lost |
| `TaskContexts.GoroutineFinishesRow` | src/mef-center/common/taskschedule/context_impl.go:150-303 | When the row stays, no request comes without columns and no statement of the scheduler fails, a goroutine that ends leaves a finished row, whatever users ask and whichever of their statements fail |
| `TaskContexts.BlankStatusEndsGoroutine` | src/mef-center/common/taskschedule/context_impl.go:282-303 | One status without columns from a user, after the start by the worker, ends the goroutine with Done closed and the row still processing |
| `TaskContexts.TaskContext.UpdateTaskStatus` | src/mef-center/common/taskschedule/repository.go:56-66 | The update returns the stored phase and one row when it hits the row, an unset phase and no row when it matches none, and an error when it fails |
| `TaskContexts.TaskContext.HandleUpdateRequest` | src/mef-center/common/taskschedule/context_impl.go:282-303 | The method changes the cached phase and the row as the step machine does, and counts rows exactly when there was an effect |
| `TaskContexts.TaskContext.OnWaiting` | src/mef-center/common/taskschedule/context_impl.go:150-185 | The waiting loop handles events, with a forced shutdown for timers and cancellation, until the phase is no longer waiting |
| `TaskContexts.TaskContext.OnProcessing` | src/mef-center/common/taskschedule/context_impl.go:187-234 | The processing loop asks for a graceful shutdown on timers and cancellation and cancels the main context when it is left |
| `TaskContexts.TaskContext.OnAborting` | src/mef-center/common/taskschedule/context_impl.go:236-280 | Without a grace period one forced request is handled, with one the aborting loop runs; then the channels and Done are closed |
| `TaskContexts.TaskContext.Closing` | src/mef-center/common/taskschedule/context_impl.go:236-250 | The channels are closed before Done, and a master task offers its done event after that |
| `TaskContexts.TaskContext.Run` | src/mef-center/common/taskschedule/context_impl.go:413-419 | The goroutine is the three loops one after the other |
| `TaskContexts.TaskContext.RunToEnd` | src/mef-center/common/taskschedule/context_impl.go:150-280 | When Done has been closed everything was signalled and closed, a master has offered its event, and the row, if it is there, is finished exactly when the cached phase was not lost |
| `SchedulerTasks.RunKeepsCore` | src/mef-center/common/taskschedule/scheduler_impl.go:61-93 | In every reachable state of the whole scheduler: parents come before children, rows have distinct owners, the registry points to contexts under their own id, and every task satisfies its invariant |
| `SchedulerTasks.TransactKeepsCore` | src/mef-center/common/taskschedule/scheduler_impl.go:127-169 | The submit transaction, whether it rejects, fails to dispatch, fails to commit or commits, into a queue or into the hands of a waiting worker, keeps that invariant |
| `SchedulerTasks.HandleKeepsCore` | src/mef-center/common/taskschedule/context_impl.go:282-303 | Handling a request of one task keeps that invariant for all tasks |
| `SchedulerTasks.CleanKeepsCore` | src/mef-center/common/taskschedule/scheduler_impl.go:190-235 | Every action of the history cleaner keeps that invariant |
| `SchedulerResults.RowMoves` | src/mef-center/common/taskschedule/context_impl.go:282-341 | In every interleaving a row moves only while a request of its own task is handled, and only as permitted for whoever asked: users can let it stay or finish it |
| `SchedulerResults.RowHistory` | src/mef-center/common/taskschedule/context_impl.go:282-341 | Along every run the weight of a row never decreases and a finished row never changes; a row once gone stays gone |
| `SchedulerResults.LosesExactly` | src/mef-center/common/taskschedule/context_impl.go:282-303 | A step loses the cached phase exactly when an allowed request of the task meets a missing row or names no column, or is the scheduler's own and its statement fails |
| `SchedulerResults.CachedPhaseIsStored` | src/mef-center/common/taskschedule/context_impl.go:293-299 | In every reachable state the cached phase of a stored task is the stored one exactly when the last answer that touched it did not lose it, so whenever none did; otherwise it is unset and the row is not finished |
| `SchedulerResults.DoneMeansFinished` | src/mef-center/common/taskschedule/context_impl.go:236-303 | When the life cycle has closed Done, graceful shutdown was signalled, the main context is cancelled, the update channel is closed, and a row that is there is finished exactly when the cached phase was not lost at the end, so whenever no answer lost it |
| `SchedulerExample.BlankStatusLeavesRowUnfinished` | src/mef-center/common/taskschedule/context_impl.go:86-131 | A run of the whole scheduler, with a pool of capacity zero, no failing statement and no deleted row, in which a status without columns ends a task whose row stays processing |
| `SchedulerCalls.EffectIsReal` | src/mef-center/common/taskschedule/context_impl.go:282-303 | What is recorded for a caller is what its row really went through in that step |
| `SchedulerCalls.NilMeansUpdated` | src/mef-center/common/taskschedule/context_impl.go:86-131 | When UpdateStatus returns nil, a permitted transition with the requested phase updated the row |
| `SchedulerCalls.GrantedTakesEffect` | src/mef-center/common/taskschedule/context_impl.go:282-303 | A permitted request with something to set takes effect on its own row and no other, unless its statement fails |
| `SchedulerCalls.DeniedChangesNothing` | src/mef-center/common/taskschedule/context_impl.go:282-341 | A request that is not permitted changes no row and leaves the cached phase |
| `SchedulerCalls.GrantedMeansNil` | src/mef-center/common/taskschedule/context_impl.go:86-131 | Along every run, a caller that waits when its permitted request is handled gets nil, unless its own timer runs out before it has looked |
| `SchedulerCalls.StatusCanBeStored` | src/mef-center/common/taskschedule/context_impl.go:86-131 | A task in one of its loops can take any permitted status of a user, store it and answer nil |
| `SchedulerCalls.OnlyWorkersAreTrusted` | src/mef-center/common/taskschedule/context_impl.go:50-52 | In every reachable state a request handled for a caller has the rights of a user, or comes from a pool worker and asks for processing |
| `SchedulerCalls.DeafKeepsRow` | src/mef-center/common/taskschedule/context_impl.go:236-250 | Once the update channel is closed no step changes the row of the task; only deletion can follow |
| `SchedulerCalls.NoUpdateAfterClose` | src/mef-center/common/taskschedule/context_impl.go:86-131 | Once the update channel is closed, no call not taken before and no later call ever returns nil, along any run |
| `SchedulerShutdown.DescendantsAreDone` | src/mef-center/common/taskschedule/context_impl.go:371-405 | Once a task has left processing, the main context of every descendant, at any depth, is done |
| `SchedulerShutdown.TreeFollowsIds` | src/mef-center/common/taskschedule/scheduler_impl.go:66-76 | In every reachable state the main context of a task is derived from that of the task with its parent id, and that of a master from the root |
| `SchedulerShutdown.CancelReachesTree` | src/mef-center/common/taskschedule/context_impl.go:79-84 | Cancelling a task ends the main contexts of the whole tree below it |
| `SchedulerShutdown.RootReachesAll` | src/mef-center/common/taskschedule/context_impl.go:384-388 | Stopping the context of the scheduler ends every main context |
| `SchedulerShutdown.LifeCyclesMoveSeldom` | src/mef-center/common/taskschedule/context_impl.go:150-280 | Along every run, however long and whatever happens around it, a life cycle changes its phase or its position at most thirteen times |
| `SchedulerShutdown.AtMostThreeChanges` | src/mef-center/common/taskschedule/context_impl.go:305-341 | A row changes its phase at most as often as its weight says, so at most three times |
| `SchedulerShutdown.CancelledTaskCanEnd` | src/mef-center/common/taskschedule/context_impl.go:150-280 | From every state with the invariant, a started task whose main context is done can reach its end by its own steps alone, in at most 41 of them |
| `SchedulerShutdown.LoopRequestsOnlyStop` | src/mef-center/common/taskschedule/context_impl.go:145-148 | Timers and cancellation only ever abort a processing task and fail any other |
| `SchedulerPools.PoolBounds` | src/mef-center/common/taskschedule/goroutinepool.go:30-79 | In every reachable state a pool, of any capacity, has at most MaxConcurrency launched executors with an open Done and at most MaxCapacity queued tasks, and a task is launched at most once and only after its row was set to processing |
| `SchedulerPools.LaunchAfterEntering` | src/mef-center/common/taskschedule/goroutinepool.go:52-79 | A worker that launches an executor does so for a task whose row entered processing and that was never launched |
| `SchedulerPools.WorkKeepsWorkers` | src/mef-center/common/taskschedule/goroutinepool.go:39-79 | When a worker acts, every worker of every pool keeps its own task and request |
| `SchedulerPools.TransactKeepsPools` | src/mef-center/common/taskschedule/scheduler_impl.go:154-169 | A submission enters its queue or goes to a worker that waits, and keeps queues, workers and launches in order |
| `SchedulerPools.DispatchesExactly` | src/mef-center/common/taskschedule/scheduler_impl.go:163-168 | A submission is taken exactly when a worker of the pool waits or its queue has room, with capacity zero exactly when a worker waits; a waiting worker takes it over the queue |
| `SchedulerProgress.SubmissionCanSucceed` | src/mef-center/common/taskschedule/scheduler_impl.go:78-169 | A counted submission with room in table and pool and a fresh id can be stored, with a waiting row, a registry entry and its place at the end of the queue or with a waiting worker |
| `SchedulerProgress.CreatesExactly` | src/mef-center/common/taskschedule/scheduler_impl.go:61-93 | Masters can always be submitted and sub-tasks exactly while their parent is registered, and are derived from it |
| `SchedulerProgress.QueuesAreInOrder` | src/mef-center/common/taskschedule/goroutinepool.go:30-79 | In every step a queue stays, gains a task at its end or loses its head to a worker |
| `SchedulerProgress.HandedTaskCanLaunch` | src/mef-center/common/taskschedule/goroutinepool.go:39-79 | A worker that was handed a waiting task can set its row to processing and launch its executor |
| `SchedulerProgress.IdleWorkerTurns` | src/mef-center/common/taskschedule/goroutinepool.go:39-79 | An idle worker takes the head of its queue or waits |
| `SchedulerProgress.WorkersComeFree` | src/mef-center/common/taskschedule/goroutinepool.go:52-79 | A worker comes free when its task is done or did not start |
| `SchedulerProgress.CallersNeverHang` | src/mef-center/common/taskschedule/context_impl.go:94-131 | A call of UpdateStatus ends by its timer at the latest, and by an error when the update channel is closed |
| `SchedulerProgress.TimersStopTasks` | src/mef-center/common/taskschedule/context_impl.go:150-280 | Every timer that is set, and the end of the main context, can stop the task: a processing one is asked to abort, any other fails |
| `SchedulerProgress.GraceIsGiven` | src/mef-center/common/taskschedule/context_impl.go:236-280 | Without a grace period a task is failed before it is told, with one it is told first and given time |
| `SchedulerCounter.CounterIsExact` | src/mef-center/common/taskschedule/scheduler_impl.go:61-93 | In every reachable state the counter plus the entries stranded by failed commits equals the registry size plus submissions in flight plus overwritten entries; it never exceeds MaxActiveTasks and is exact as long as no commit failed |
| `SchedulerLosses.CounterExactly` | src/mef-center/common/taskschedule/scheduler_impl.go:61-93 | In every reachable state, by the state alone: the counter differs from the registry size plus submissions in flight by the entries that lead to destroyed contexts and the units of failed contexts without entry, so it is exact exactly when there are as many of these as of those |
| `SchedulerLosses.TransactGone` | src/mef-center/common/taskschedule/scheduler_impl.go:127-152 | A submission is counted as overwriting an entry exactly when one more failed context is pointed to no more |
| `SchedulerLosses.CleanKeepsGone` | src/mef-center/common/taskschedule/scheduler_impl.go:197-202 | No action of the cleaner changes which failed contexts have lost their entry |
| `SchedulerCounter.FailedCommitLeavesEntry` | src/mef-center/common/taskschedule/scheduler_impl.go:127-152 | A commit that fails leaves the registry entry of a destroyed context behind while its unit of the counter is given back |
| `SchedulerCounter.TransactSizes` | src/mef-center/common/taskschedule/scheduler_impl.go:127-152 | What the submit transaction does to the sizes of the registry and of the submissions in flight, for each of its results |
| `SchedulerCounter.CleanKeepsCounter` | src/mef-center/common/taskschedule/scheduler_impl.go:197-202 | Unregistering lowers the counter exactly for entries that existed |
| `SchedulerCounter.RowsAreBounded` | src/mef-center/common/taskschedule/scheduler_impl.go:135-150 | The table never grows past AllowedMaxTasksInDb, or past what an earlier run left in it |
| `SchedulerCounter.ChildrenFit` | src/mef-center/common/taskschedule/scheduler_impl.go:260-278 | Because the parent takes a row, the children a selector reads are always fewer than the rounds of its choosing loop |
| `SchedulerWakeUp.NoLostWakeUp` | src/mef-center/common/taskschedule/scheduler_impl.go:179-213 | In every reachable state each finished master still registered has its signal to come, or the done event is waiting, or the cleaner has yet to read or process it, or failed to read it |
| `SchedulerWakeUp.RestMeansUnregistered` | src/mef-center/common/taskschedule/scheduler_impl.go:179-213 | When all life cycles have ended, no event waits and the cleaner rests, a finished master is still registered only if a read of the cleaner failed |
| `SchedulerWakeUp.AdvanceKeepsWake` | src/mef-center/common/taskschedule/context_impl.go:243-250 | A master that ends leaves the done event behind, also when the channel was full |
| `SubTaskSelector.SelectionsAreDistinct` | src/mef-center/common/taskschedule/scheduler_impl.go:260-305 | In every interleaving of calls that read fewer children than their loop has rounds, no child is handed out twice, and no-running-sub-task is reported only when every child read has been handed out |
| `SubTaskSelector.SelectedHasFinished` | src/mef-center/common/taskschedule/scheduler_impl.go:260-305 | In every run what a call hands out is a child that has finished, by its own step or before the start, among those the call read when it began |
| `SubTaskSelector.FinishedCanBeSelected` | src/mef-center/common/taskschedule/scheduler_impl.go:260-305 | A child that has finished and was not handed out can be selected by any new call that reads it |
| `SubTaskSelector.ChooseKeepsCall` | src/mef-center/common/taskschedule/scheduler_impl.go:278-302 | A round hands a child out exactly when it was not handed out before; the loop is never used up |
| `SubTaskSelector.LastRoundRepeats` | src/mef-center/common/taskschedule/scheduler_impl.go:260-305 | For any children as many as the loop has rounds there is a run in which two calls return the same child |
| `SubTaskSelector.DistinctExactly` | src/mef-center/common/taskschedule/scheduler_impl.go:260-305 | For every limit and every bound on the children read: some run hands out a child twice exactly when as many children as rounds may be read |
| `HistoryTrim.Cleaner.WalkTaskTree` | src/mef-center/common/taskschedule/scheduler_impl.go:237-250 | The walk lists the children of a task and then the task, and nothing deeper, or fails |
| `HistoryTrim.Cleaner.SortByFinish` | src/mef-center/common/taskschedule/scheduler_impl.go:219-220 | The finished masters are listed once each, oldest finished first |
| `HistoryTrim.Cleaner.Sweep` | src/mef-center/common/taskschedule/scheduler_impl.go:197-213 | Exactly the registered finished masters with a readable tree, and their children, leave the registry, and the counter falls by as many |
| `HistoryTrim.Cleaner.Trim` | src/mef-center/common/taskschedule/scheduler_impl.go:222-235 | Trees are deleted in the order of the list until as many rows, sub-tasks included, are gone as there are masters too many |
| `HistoryTrim.Cleaner.DoRemoveHistoryTasks` | src/mef-center/common/taskschedule/scheduler_impl.go:190-235 | One round, whichever trees cannot be read and whichever rows cannot be deleted: the whole new registry, counter and table, as functions of the old ones; waiting, processing and aborting masters keep rows and entries with their children, whatever fails, and succeeded and failed ones leave the registry with theirs |
| `HistoryTrim.TrimmingKeepsNewest` | src/mef-center/common/taskschedule/scheduler_impl.go:215-235 | Whatever fails, the masters kept finished no earlier than those deleted, exactly when no spared master comes before a deletable one that finished later and that the trees before do not make up for |
| `HistoryTrim.TrimmedCount` | src/mef-center/common/taskschedule/scheduler_impl.go:222-235 | Whatever fails, at least MaxHistoryMasterTasks masters are left, or all there are; exactly that many when enough is deleted and no master reached has sub-tasks |
| `HistoryTrim.OlderMasterStays` | src/mef-center/common/taskschedule/scheduler_impl.go:230-234 | A round of the cleaner that passes over the older of two masters, whose tree cannot be read, and deletes the newer |
| `SchedulerCleaning.RunningMastersStay` | src/mef-center/common/taskschedule/scheduler_impl.go:190-250 | In every run of the whole scheduler, no step takes the row or the registry entry of a master that has not finished, or of its children |
| `SchedulerCleaning.TrimmingMeansTooMany` | src/mef-center/common/taskschedule/scheduler_impl.go:215-217 | Rows are deleted only after a query found more finished masters than may be kept |
| `SchedulerCleaning.CleanerCanSweep` | src/mef-center/common/taskschedule/scheduler_impl.go:179-213 | Whenever the done event waits and the cleaner rests, it can by acts of its own take every registered finished master and all its children out of the registry |
| `ChannelBus.ResponsesMatch` | src/common-utils/modulemgr/context/channel_context.go:141-193 | In every interleaving with unique ids in flight, SendResp returns nil exactly when its message is what the SendSync with the matching id returns, and the pairing is one to one; everything else ends with an error |
| `ChannelBus.ResponseArrives` | src/common-utils/modulemgr/context/channel_context.go:158-193 | Whenever a SendSync waits for its response, a SendResp with its id is matched with it and both return, whatever else is going on |
| `ChannelBus.LostResponseFails` | src/common-utils/modulemgr/context/channel_context.go:182-193 | A SendResp with an id that is empty or not in flight returns an error at once |
| `ChannelBus.MessageArrives` | src/common-utils/modulemgr/context/channel_context.go:110-139 | A Send to a registered name reaches a call that receives there, and both return at once |
| `ChannelBus.ReceiverTakes` | src/common-utils/modulemgr/context/channel_context.go:110-180 | A Receive on a registered name takes the message of any call blocked there |
| `ChannelBus.UnknownNameFails` | src/common-utils/modulemgr/context/channel_context.go:110-180 | Send, Receive and SendSync on a name that is not registered return an error at once |
| `ChannelBus.NamesComeAndGo` | src/common-utils/modulemgr/context/channel_context.go:195-224 | Registering gives a name a channel of its own and disturbs no other; unregistering takes it away and lets whoever is blocked there end with an error |
| `ChannelBus.TimeoutsEnd` | src/common-utils/modulemgr/context/channel_context.go:141-180 | Whoever may time out ends with an error, and a SendSync with a result closes its own channel and returns it |
| `ChannelBus.ExchangeWorks` | src/common-utils/modulemgr/context/channel_context.go:141-193 | From every bus in order a request under a free id to a registered name can be sent, received, answered and returned |
| `ChannelBus.MapHoldsInFlight` | src/common-utils/modulemgr/context/channel_context.go:60-108 | The anonymous channels in the map are exactly those of the SendSync calls in flight, each under its own id |
| `ChannelBus.BlockedResponderEnds` | src/common-utils/modulemgr/context/channel_context.go:239-258 | A blocked responder can end with an error, or its SendSync has yet to return and will close the channel |
| `ChannelBus.LateResponderFails` | src/common-utils/modulemgr/context/channel_context.go:182-193 | Once a SendSync has its result no later or further responder is matched with it |
| `ChannelBus.SharedIdGivesEmptyResponse` | src/common-utils/modulemgr/context/channel_context.go:158-180 | From every state in order: when a SendSync stores its channel over that of another in flight and its destination is not closed, some continuation makes it return an empty message as its response |
| `ChannelBus.EmptyResponseHappens` | src/common-utils/modulemgr/context/channel_context.go:141-193 | A run from the empty bus with one registered module and two calls of one id ends in an empty response |
| `ChannelBus.StepKeepsInv` | src/common-utils/modulemgr/context/channel_context.go:110-224 | Every step of registering, sending, receiving, answering, timing out and closing keeps the bus invariant |
| `LruSpec.ApplyKeepsBucket` | src/common-utils/cache/lrucache.go:170-345 | Every operation keeps the keys of a bucket distinct and the bucket within its size |
| `LruSpec.ApplyKeepsSegment` | src/common-utils/cache/lrucache.go:133-142 | Every operation keeps each key in the segment its hash picks |
| `LruSpec.RecentEntrySurvives` | src/common-utils/cache/lrucache.go:328-369 | An entry survives any operations on fewer than maxSize distinct other keys of its bucket, with value and expiry untouched |
| `LruSpec.SetThenGet` | src/common-utils/cache/lrucache.go:170-223 | A value set is read back after operations on fewer than maxSize distinct other keys, or reported expired when its time is up |
| `LruSpec.SegmentsAreIndependent` | src/common-utils/cache/lrucache.go:65-142 | Each segment of the cache runs as a cache of its own on the operations whose keys hash to it |
| `LruSpec.CachedValueSurvives` | src/common-utils/cache/lrucache.go:65-142 | In the whole cache a value set stays readable while fewer than maxSize distinct other keys of its own segment are used |
| `LruLaws.GetUses` | src/common-utils/cache/lrucache.go:201-223 | Get answers the value or its expiry, makes a hit the most recently used entry, drops an expired one, and leaves all else in order |
| `LruLaws.NewKeyEvictsOldest` | src/common-utils/cache/lrucache.go:328-345 | A new key comes first, and a full bucket loses exactly its least recently used entry |
| `LruLaws.KnownKeyMovesFirst` | src/common-utils/cache/lrucache.go:170-190 | A key that is set again comes first, and all others keep their order |
| `LruLaws.DeletedIsMissing` | src/common-utils/cache/lrucache.go:225-235 | A deleted key is missing until it is used again, and every other entry stays in its order |
| `LruLaws.SetIfNXThenGet` | src/common-utils/cache/lrucache.go:237-261 | SetIfNX is refused by a live entry, which is still read, and otherwise its value is read |
| `LruLaws.CountThenGet` | src/common-utils/cache/lrucache.go:263-326 | INCR and DECR start from one step on a missing or expired key, add it to a live integer, refuse at the ends of the 64-bit range and for other values, and what they answer is read later |
| `LruLaws.DeletedFromCache` | src/common-utils/cache/lrucache.go:88-94 | In the whole cache a deleted key is missing until it is used again |
| `LruSpec.ExpiryOverflow` | src/common-utils/cache/lrucache.go:192-199 | A positive expiry time keeps a new entry alive exactly when adding it to the clock does not overflow 64 bits |
| `LruCache.Bucket.IndexFinds` | src/common-utils/cache/lrucache.go:45-50 | The index finds the element that a search of the list would find |
| `LruCache.Bucket.SetInner` | src/common-utils/cache/lrucache.go:328-345 | A new entry is put in front, after the least recently used one has left a full bucket; index and list stay in bijection |
| `LruCache.Bucket.SetValue` | src/common-utils/cache/lrucache.go:170-190 | Setting changes the bucket as the recency list prescribes |
| `LruCache.Bucket.GetValue` | src/common-utils/cache/lrucache.go:201-223 | Getting returns and moves the entry, or drops an expired one, as the recency list prescribes |
| `LruCache.Bucket.DelValue` | src/common-utils/cache/lrucache.go:225-235 | Deleting removes exactly the entry of the key |
| `LruCache.Bucket.SetIfNotExist` | src/common-utils/cache/lrucache.go:237-261 | The value is set exactly when the key is missing or not alive; an existing entry moves to the front |
| `LruCache.Bucket.Increment` | src/common-utils/cache/lrucache.go:263-293 | Counting up: from one when missing or expired, refused for other values and at the 64-bit maximum |
| `LruCache.Bucket.Decrement` | src/common-utils/cache/lrucache.go:295-326 | Counting down: from minus one when missing or expired, refused for other values and at the 64-bit minimum |
| `SegmentedCache.ConcurrencyLRUCache.New` | src/common-utils/cache/lrucache.go:144-168 | No cache for a size that is not positive; otherwise sixteen empty buckets with room for at least the size asked for and fewer than sixteen entries more |
| `SegmentedCache.TimesTaken` | src/common-utils/cache/lrucache.go:60-131 | The expiry times each operation takes, in nanoseconds; those of Set never overflow the clock |
| `SegmentedCache.ConcurrencyLRUCache.Index` | src/common-utils/cache/lrucache.go:133-142 | The loop over the bytes of the key computes the segment of its hash |
| `SegmentedCache.ConcurrencyLRUCache.Set` | src/common-utils/cache/lrucache.go:60-73 | The bucket of the key changes as its recency list prescribes, the others do not; an expiry time out of range changes nothing |
| `SegmentedCache.ConcurrencyLRUCache.Get` | src/common-utils/cache/lrucache.go:75-86 | The same for Get, with its answer |
| `SegmentedCache.ConcurrencyLRUCache.Delete` | src/common-utils/cache/lrucache.go:88-94 | The same for Delete |
| `SegmentedCache.ConcurrencyLRUCache.SetIfNX` | src/common-utils/cache/lrucache.go:96-105 | The same for SetIfNX, with its answer |
| `SegmentedCache.ConcurrencyLRUCache.Incr` | src/common-utils/cache/lrucache.go:107-131 | The same for INCR, with its own range of expiry times |
| `SegmentedCache.ConcurrencyLRUCache.Decr` | src/common-utils/cache/lrucache.go:115-131 | The same for DECR |
| `MirroredTransactions.OutermostCallsMirror` | src/common-utils/backuputils/db_backup_helper.go:78-96 | When the backup has no nested transactions, or both databases have and no function is refused a save point inside a call of itself: after any outermost call, however its body nests, fails, swallows errors or panics, main and backup are equal, exactly unless the backup drops a change that the main database has committed |
| `MirroredTransactions.MirrorsExactly` | src/common-utils/backuputils/db_backup_helper.go:78-96 | Commits of the backup aside, for every configuration and every set of functions that may be refused a save point inside a call of themselves: the databases always stay equal exactly when the backup has no nested transactions, or both have and that set is empty |
| `MirroredTransactions.IncompatiblePartWays` | src/common-utils/backuputils/db_backup_helper.go:163-189 | With the other configuration a nested failure leaves its statement in the main database only |
| `MirroredTransactions.BodiesAreAlike` | src/common-utils/backuputils/db_backup_helper.go:163-189 | A body without refused re-entries leaves equal contents and the same save points of the functions being called, whatever else is refused |
| `MirroredTransactions.NestedCall` | src/common-utils/backuputils/db_backup_helper.go:163-189 | A nested call ends with the effect of its body, or back at the latest save points of its name; one that the main database refuses leaves the save point of the backup |
| `MirroredTransactions.OutermostCall` | src/common-utils/backuputils/db_backup_helper.go:191-221 | An outermost call commits both databases, the main one alone when the commit of the backup fails, or neither |
| `MirroredTransactions.OutermostCallsAreAtomic` | src/common-utils/backuputils/db_backup_helper.go:191-221 | An outermost call leaves no transaction open, never panics, and when it returns an error both databases are as before, whatever fails inside and however the databases are configured |
| `MirroredTransactions.OutermostCallsAreIdeal` | src/common-utils/backuputils/db_backup_helper.go:163-221 | With nested transactions on and no function called again from inside itself, the code does to the content of both databases what snapshots per call would do, whatever is refused |
| `MirroredTransactions.IdealExactly` | src/common-utils/backuputils/db_backup_helper.go:163-221 | With nested transactions on, for every set of functions that may be called again from inside themselves: all transactions have the ideal effect exactly when that set is empty |
| `MirroredTransactions.OutermostCallsAreFlat` | src/common-utils/backuputils/db_backup_helper.go:143-221 | When the backup has no nested transactions, nested calls are part of the outermost one: what they execute stays also when they fail |
| `MirroredTransactions.OutermostCallsAreMixed` | src/common-utils/backuputils/db_backup_helper.go:163-221 | When only the backup has them, a failed nested call is undone in the backup and stays in the main database |
| `MirroredTransactions.ReentryLeavesTrace` | src/common-utils/backuputils/db_backup_helper.go:164 | Save points are named after the function: for every function a call of it from inside itself can make its outer failure keep a statement, in both databases |
| `MirroredTransactions.RefusedReentryParts` | src/common-utils/backuputils/db_backup_helper.go:163-189 | A swallowed failure around a refused save point of the same function parts the databases exactly when a statement came before the re-entry |
| `MirroredTransactions.HarmlessRefusals` | src/common-utils/backuputils/db_backup_helper.go:163-189 | Bodies without refused save points, and bodies in which no function is entered again, have no refused re-entries |
| `TransactionRunner.Connection.RollbackTo` | src/common-utils/backuputils/db_backup_helper.go:181-183 | The search from the newest mark returns to the latest save point of that name and keeps it |
| `TransactionRunner.Mirror.RunFuncWithTransaction` | src/common-utils/backuputils/db_backup_helper.go:191-221 | The method changes both databases as specified, with recovery from panics and the dropped error of the backup commit |
| `TransactionRunner.Mirror.RunFuncWithNestedTransaction` | src/common-utils/backuputils/db_backup_helper.go:163-189 | The same for the nested call |
| `TransactionRunner.Mirror.RunFuncWithoutTransaction` | src/common-utils/backuputils/db_backup_helper.go:143-161 | The same for a call without save points |
| `TransactionRunner.Mirror.Transaction` | src/common-utils/backuputils/db_backup_helper.go:77-96 | The choice between the three, over two connections changed in place |
| `BandwidthLimiter.LimiterIsOneSharedBudget` | src/common-utils/limiter/bandwidth_limiter_base.go:60-127 | For budgets that are not negative, the limiter with its rings answers every sequence of requests, ticks, registrations and unregistrations as one budget over the bytes of the last ten phases |
| `BandwidthLimiter.RingSumIsWindowSum` | src/common-utils/limiter/bandwidth_limiter_base.go:129-153 | The sum over the ring is the number of bytes admitted in the last ten phases |
| `BandwidthLimiter.NeverChargesPrivate` | src/common-utils/limiter/bandwidth_limiter_base.go:66-93 | The ring of a connection is never charged, so its whole share is always left |
| `BandwidthLimiter.NeverAboveMaximum` | src/common-utils/limiter/bandwidth_limiter_base.go:60-96 | After any events from the start the shared ring adds up to the bytes admitted in the last ten phases, at most the maximum, and the ring of every connection is zero |
| `BandwidthLimiter.BudgetsSplitMaximum` | src/common-utils/limiter/bandwidth_limiter_base.go:77-82 | The reserve rate splits the maximum, each part short of its share by less than one byte |
| `BandwidthLimiter.BudgetComesBack` | src/common-utils/limiter/bandwidth_limiter_base.go:60-127 | After ten quiet phases a request is admitted exactly when it is within the whole budget |
| `BandwidthLimiter.ClientUsesMaximum` | src/common-utils/limiter/bandwidth_limiter_base.go:60-96 | Without a reserve a client may use its whole maximum at once, and no more |
| `BandwidthLimiter.BytesAreConserved` | src/common-utils/limiter/bandwidth_limiter_base.go:88-95 | The totals of the phases are exactly the bytes admitted |
| `BandwidthLimiter.ReserveIsNotKept` | src/common-utils/limiter/bandwidth_limiter_base.go:77-93 | With two connections throughout, one can use the shared budget and its share, and the other, which has sent nothing, is refused its own, exactly when the shares are positive and the first request is not negative |
| `BandwidthLimiter.ReserveKeptExactly` | src/common-utils/limiter/bandwidth_limiter_base.go:60-112 | For a server with budgets that are not negative: in no run is a connection that has sent nothing refused its share of the reserve, exactly when nothing is reserved |
| `BandwidthLimiter.SuccessorIsRefused` | src/common-utils/limiter/bandwidth_limiter_base.go:66-93 | For every limit with a reserve there is a run after which the only connection, which has sent nothing, is refused its share |
| `BandwidthLimiter.TickShows` | src/common-utils/limiter/bandwidth_limiter_base.go:114-127 | A tick clears the slot of the phase that leaves the window |
| `BandwidthLimiter.BandwidthLimiterBase.Allow` | src/common-utils/limiter/bandwidth_limiter_base.go:59-96 | The decision and the new rings are those of the specification |
| `BandwidthLimiter.BandwidthLimiterBase.Roll` | src/common-utils/limiter/bandwidth_limiter_base.go:114-127 | The new phase and the cleared slots are those of the specification, in every ring |
| `BandwidthLimiter.BandwidthLimiterBase.SumOf` | src/common-utils/limiter/bandwidth_limiter_base.go:147-153 | The loop adds up the ring |
| `BandwidthLimiter.BandwidthLimiterBase.RegisterConn` | src/common-utils/limiter/bandwidth_limiter.go:54-66 | A new connection gets an empty ring, a known one keeps its own |
| `BandwidthLimiter.BandwidthLimiterBase.UnregisterConn` | src/common-utils/limiter/bandwidth_limiter.go:68-76 | The ring of the connection is dropped and no other |
| `RateLimiter.LazyIsEager` | src/common-utils/limiter/rps_limiter.go:44-75 | The bucket that is brought up to date only when a request passes decides every request like one that is brought up to date every time |
| `RateLimiter.RateBound` | src/common-utils/limiter/rps_limiter.go:44-75 | From any bucket in order the requests that pass number at most the tokens in the bucket and those that arrive |
| `RateLimiter.RateNeverExceeded` | src/common-utils/limiter/rps_limiter.go:44-75 | Between times s and t at most burst + rps * (t - s) requests pass |
| `RateLimiter.PassesWithToken` | src/common-utils/limiter/rps_limiter.go:44-75 | A request passes exactly when the bucket then holds a token, counting what has arrived |
| `RateLimiter.BurstPasses` | src/common-utils/limiter/rps_limiter.go:58-75 | A bucket with a token for each of them passes all requests, however close together |
| `RateLimiter.BurstIsAll` | src/common-utils/limiter/rps_limiter.go:58-75 | Of more requests at one time a full bucket passes exactly the burst |
| `RateLimiter.SteadyRatePasses` | src/common-utils/limiter/rps_limiter.go:44-75 | Requests far enough apart for a token to arrive all pass |
| `RateLimiter.LazyKeepsInv` | src/common-utils/limiter/rps_limiter.go:44-75 | Tokens stay between zero and the burst |
| `RateLimiter.RpsLimiter.CalculateTokens` | src/common-utils/limiter/rps_limiter.go:44-56 | The tokens available, capped by the burst, with a clock that runs backwards counted as standing still |
| `RateLimiter.RpsLimiter.Allow` | src/common-utils/limiter/rps_limiter.go:58-75 | The decision and the new bucket are those of the specification |
| `RateLimiter.PassesAreApart` | src/common-utils/limiter/rps_limiter.go:85-100 | Any two requests that pass a time window limiter are a window apart |
| `RateLimiter.WindowPassesAgain` | src/common-utils/limiter/rps_limiter.go:85-100 | The first request passes, and any that comes a window after all that passed before |
| `RateLimiter.TimeWindowLimiter.Allow` | src/common-utils/limiter/rps_limiter.go:85-100 | The decision and the recorded time are those of the specification |
| `LogRotation.NewestComesLast` | src/common-utils/hwlog/rolog.go:232-262 | A backup with a name later than all others continues the log |
| `LogRotation.DroppingOldestLeavesSuffix` | src/common-utils/hwlog/rolog.go:327-349 | Deleting the oldest backups leaves a suffix of the log |
| `LogRotation.SuffixExactly` | src/common-utils/hwlog/rolog.go:326-389 | For all contents the files stay the end of the log exactly when the backups left are the newest and the file moves to a later name than theirs, or none is left; a copy whose source stays repeats bytes |
| `LogRotation.SameStampLosesBytes` | src/common-utils/hwlog/rolog.go:376-383 | Through the calls of a log whose backups are renamed files: two rotations within one millisecond lose the bytes in the middle |
| `LogRotation.StuckBackupLeavesGap` | src/common-utils/hwlog/rolog.go:338-347 | Through the calls of a log: a rotation that cannot delete the older of two backups and deletes the newer leaves a gap |
| `LogRotation.PurgeTakesOldest` | src/common-utils/hwlog/rolog.go:511-537 | What a purge deletes is older than everything it keeps |
| `LogRotation.PurgeLeavesFew` | src/common-utils/hwlog/rolog.go:525-537 | A purge leaves at most SaveVolume backups |
| `LogRotation.PurgeKeepsAllItMay` | src/common-utils/hwlog/rolog.go:511-537 | A purge takes every expired backup and of the others only what exceeds SaveVolume |
| `LogRotation.ExpiresWithAge` | src/common-utils/hwlog/rolog.go:512-517 | A backup expires once it is SaveTime days old, in whole seconds; zero keeps it for ever |
| `LogRotation.Logs.MaxLenth` | src/common-utils/hwlog/rolog.go:178-185 | The maximum length is the configured capacity in megabytes, or twenty when that is out of range |
| `LogRotation.Logs.OldFilesList` | src/common-utils/hwlog/rolog.go:548-578 | The backups are listed once each, newest first |
| `LogRotation.Logs.MakeSureBackupSpaceAvailable` | src/common-utils/hwlog/rolog.go:326-349 | The oldest backups go one by one, and no more than needed, until there is space; success exactly when there is |
| `LogRotation.Logs.BackupFile` | src/common-utils/hwlog/rolog.go:371-389 | The file moves under its new name, over a backup of that name when renamed, refused when copied, or is copied and stays when it cannot be removed |
| `LogRotation.Logs.Create` | src/common-utils/hwlog/rolog.go:229-254 | When it succeeds and what becomes of backups and file, exactly; no bytes go missing exactly as far as the order of names allows |
| `LogRotation.Logs.Rotate` | src/common-utils/hwlog/rolog.go:351-369 | Closing, making space and creating: when it succeeds and the exact backups and file left in every case; no bytes go missing when the backups left and the new name are in order |
| `LogRotation.Logs.OpenOrCreateFile` | src/common-utils/hwlog/rolog.go:196-227 | When an open succeeds and what it leaves; a successful one leaves room for the write |
| `LogRotation.Logs.Write` | src/common-utils/hwlog/rolog.go:92-136 | A write succeeds exactly when it fits, is taken whole and there is or can be made room; it appends to the file when that fits and to a new one otherwise, stays within the maximum length, and keeps backups and file a suffix of all bytes written when the backups left and the new name are in order |
| `LogRotation.Logs.RemoveRunOnce` | src/common-utils/hwlog/rolog.go:493-546 | A purge keeps exactly the unexpired backups with fewer than SaveVolume newer ones, but for those that cannot be deleted; no gap opens when what goes is older than what stays |
| `FramedData.FrameSplits` | src/common-utils/backuputils/config_backup.go:121-130 | The last flag in a frame is the one that was put there, for any data, even data that holds the flag, if the digest does not hold it |
| `FramedData.RestoreUndoesBackUp` | src/common-utils/backuputils/config_backup.go:79-147 | A restore brings back what was backed up, whatever became of the file, exactly when data, flag and digest together are within the ten megabytes that are read; a file just below that is backed up but cannot be restored |
| `FramedData.RestoreWritesCheckedData` | src/common-utils/backuputils/config_backup.go:111-147 | A restore that succeeds has written data with the recorded digest; one that is refused has changed nothing |
| `FramedData.InitSurvivesDamage` | src/common-utils/backuputils/config_backup.go:251-277 | A configuration that worked once can be started from again after any damage to the file |
| `FramedData.InitKeepsWorkingFiles` | src/common-utils/backuputils/config_backup.go:251-277 | A start that succeeds leaves a file that works, and a backup is only replaced by the frame of such a file |
| `BackupFiles.FindLast` | src/common-utils/backuputils/config_backup.go:125 | The search from the end finds the last occurrence |
| `BackupFiles.BackupFile.BackUp` | src/common-utils/backuputils/config_backup.go:79-108 | The new backup is the frame of the file, or nothing changed, or what a failed write left |
| `BackupFiles.BackupFile.Restore` | src/common-utils/backuputils/config_backup.go:110-147 | The file is rewritten exactly when the backup has a frame with the right digest |
| `BackupFiles.BackupFile.InitConfig` | src/common-utils/backuputils/config_backup.go:251-277 | One or two tries to start, with a backup after the first and a restore before the second |
| `SealedPair.ReadGoesByWorth` | src/common-utils/x509/backup.go:122-167 | What a read returns and leaves on disk, for all contents of the two files: it goes by the main file unless that is useless, repairs both files from framed data, and takes an unframed file on trust |
| `SealedPair.FramedReadIsVerified` | src/common-utils/x509/backup.go:122-167 | In any conditions a framed read that succeeds returns data with the right digest and leaves both files identical |
| `SealedPair.EitherFileIsEnough` | src/common-utils/x509/backup.go:79-167 | Data once written is read back although either file is lost or damaged, and both files are whole again |
| `SealedPair.BrokenWrite` | src/common-utils/x509/backup.go:97-104 | Whatever a write that breaks off in the main file leaves, the old data is read and both files hold it again exactly when the rest of that file is useless or the old data; one that breaks off in the backup gives the new data, in both files |
| `SealedPair.TruncatedWrite` | src/common-utils/x509/backup.go:97-104 | A write that breaks off after some bytes of the main file: the old data comes back once the flag has been written; before that, for data without a flag, the bytes written so far are returned unverified, none at all when the file was only emptied, and nothing is repaired |
| `SealedPair.WorthOfPrefix` | src/common-utils/x509/backup.go:137-155 | What any prefix of a frame is worth to a reader, by its length |
| `SealedPair.ReadingAgain` | src/common-utils/x509/backup.go:149-166 | Reading again with the same object gives the same data after a framed read and fails after an unframed one, because the flag was forgotten |
| `SealedPair.BackUpInstance.Write` | src/common-utils/x509/backup.go:79-107 | The method writes both files as specified |
| `SealedPair.BackUpInstance.ReadFile` | src/common-utils/x509/backup.go:137-167 | The method reads one file, falls back on the other, and changes object and files as specified |
| `SealedPair.BackUpInstance.Verify` | src/common-utils/x509/backup.go:169-181 | Verification holds exactly for data and digest that are not empty and agree |
| `CrlMatching.MatchesGivesMatching` | src/common-utils/x509/crl_chain.go:118-142 | A comparison that succeeds has matched lists and certificates one to one, none left over |
| `CrlMatching.MatchesExactlyWhenKeysAgree` | src/common-utils/x509/crl_chain.go:118-142 | When a certificate verifies exactly the lists signed with its key, the comparison succeeds exactly when lists and certificates have the same keys, as often and in any order |
| `CrlMatching.FirstChoiceMayBeWrong` | src/common-utils/x509/crl_chain.go:123-133 | Where two certificates verify a common list and another only one of them, the first choice may be the wrong one: a matching exists and is not found |
| `CrlMatching.NeverWrongExactly` | src/common-utils/x509/crl_chain.go:118-142 | For every relation of certificates and lists: taking the first certificate finds a matching whenever there is one exactly when certificates that verify a common list verify the same lists |
| `CrlMatching.ByKeyExactly` | src/common-utils/x509/crl_chain.go:118-142 | The relations for which the first choice is never wrong are exactly those given by keys, as signatures are |
| `CrlMatching.RemoveInPlace` | src/common-utils/x509/crl_chain.go:131 | Moving the later certificates down over one takes exactly that one out |
| `CrlMatching.CompareWithCerts` | src/common-utils/x509/crl_chain.go:118-142 | The loops with removal in place decide as the specification does |
| `NpuHealth.ChangedIsFlagged` | src/device-plugin/pkg/device/ascendcommon.go:193-205 | A device whose final health differs from its health before has its type flagged, provided the cards were uniform |
| `NpuHealth.FlagNeedsUniformity` | src/device-plugin/pkg/device/ascendcommon.go:203-228 | From cards that are not uniform a change can go unflagged |
| `NpuHealth.FlaggedAgain` | src/device-plugin/pkg/device/ascendcommon.go:193-228 | While the probes stay as they are, a type is flagged again exactly when it has a healthy chip on a sick card |
| `NpuHealth.FinalIsUniform` | src/device-plugin/pkg/device/ascendcommon.go:207-239 | After a round the chips of a Duo card agree in the 310P group |
| `NpuHealth.HealthyExactly` | src/device-plugin/pkg/device/ascendcommon.go:207-275 | After a round a chip is healthy exactly when the driver finds it normal or with a general alarm and, on a Duo card, every chip of the card |
| `NpuHealth.PublishedIsCurrent` | src/device-plugin/pkg/server/manager.go:164-172 | From the all-healthy start, after any rounds, what was last published is the health of every device, and the chips of a Duo card agree |
| `NpuHealth.ClassifyDevices` | src/device-plugin/pkg/device/ascendcommon.go:241-258 | One group per type with exactly the devices of that type, in order and as the same objects |
| `NpuHealth.UpdateAll` | src/device-plugin/pkg/device/ascendcommon.go:193-202 | Every device gets its probed state, and the types reported are those with a device that differed |
| `NpuHealth.GetUnHealthyCard` | src/device-plugin/pkg/device/ascendcommon.go:230-239 | The cards collected are exactly those with an unhealthy chip |
| `NpuHealth.SyncDuoCardState` | src/device-plugin/pkg/device/ascendcommon.go:207-228 | The chips of a sick card become unhealthy, and no others change |
| `NpuHealth.IsDeviceStatusChange` | src/device-plugin/pkg/device/ascendcommon.go:178-205 | One round: final health of every device as a function of the probe, and the exact types flagged |

## Left out

What the models assume:

- The repository serialises transactions (the scheduler's database has one connection, src/mef-center/edge-manager/cmd/main.go:227), so a transaction or a statement is one step; loading the parent and submitting are separate steps, with the parent taken when the context is created.
- Ids of tasks are not used again once a row was stored under them; the source draws random ids when none is given.
- Pools and executor factories are registered before the first task, and a factory creates an executor. The same pool cannot be registered again.
- The cleaner of the step machine may delete any row of the trees it listed, in any order; which rows it really deletes is proved in `HistoryTrim`, for a cleaner that is alone while it runs.
- Sorting and listing of library functions: `sort.Slice` sorts, a query lists each matching row once. Finishing times are integers; ties come in any order.
- Readings of the clock are parameters, non-decreasing where a result says so; timers may fire at any time or never. Durations are integers, or reals for the token bucket. Go caps the time since the zero time at 292 years, which is not modelled.
- The reserve rate and the token bucket are computed in real numbers; rounding of floating point is not modelled.
- Digests are a parameter; where a result needs it, they have 32 bytes in which the flag does not occur. Whether a certificate verifies a list is a parameter too.
- Every statement inside a mirrored transaction reaches both databases or neither; how the ORM plugin brings that about (`db_backup_plugin.go`) is not part of this model. Rollbacks succeed, and a failed commit leaves the database as it was before the transaction.
- A caller has not begun a transaction by hand on one of the two databases only.
- The directory of a log holds only its own backups, with names not before 1970, no two processes write the same log, and a purge runs between two calls, not within one.
- Files are whole values; permissions, owners, links and paths are one parameter that lets an operation fail.

What is not modelled:

- SchedulerState: columns of a row other than phase and parent (reason, progress, times), contexts of finished tasks read back from the table (`getHistoryTaskContext`), heartbeats themselves, whose loss may be noticed at any time, and workers that stop with the root context.
- SchedulerResults.DoneMeansFinished: promises a finished row exactly as far as the code does, which loses the cached phase on three kinds of answer and then ends without finishing the row; see `LosesExactly`.
- SchedulerWakeUp.NoLostWakeUp: masters that the cleaner skipped because a read failed stay registered until a later event, as in the code; they are recorded in the state as skipped.
- SchedulerShutdown.CancelledTaskCanEnd: says that the end can be reached by the task's own steps from every state; fairness of the Go scheduler is not part of the model.
- TaskContexts.TaskContext: events are a list given in advance, so a reply to a caller is the returned row count and not a channel.
- SubTaskSelector.SelectionsAreDistinct: starting to read the children and reading them is one step; the contexts of the children are their ids and whether Done is closed.
- ChannelBus.ResponsesMatch: runs keep the ids of SendSync calls in flight apart, which the source leaves to its callers; `SharedIdGivesEmptyResponse` shows why. Registering checks and stores in one step.
- LruCache.Bucket: the linked list is a sequence of shared elements, and an element that is not of the cache's own type, which the code guards against, cannot occur. Locks are not modelled: operations on a bucket are serial. Calls on a cache that is nil return an error and are left out.
- MirroredTransactions.RunIsIdeal: only for functions not called again from inside themselves, because the save point is named after the function; `ReentryLeavesTrace` shows what happens otherwise.
- BandwidthLimiter.LimiterIsOneSharedBudget: for a maximum and a reserve rate that are not negative; the constructors do not check them. The ticker, stopping and the default period are left out.
- LogRotation.Logs.Write: that no bytes go missing is stated for calls that leave the names in order (`InOrder`); for the others it fails for some contents, by `SuffixExactly`. Compression is taken as copying.
- LogRotation.Logs.Create: its own look for the log file always succeeds; if it failed in the code, an existing file would be emptied without a backup. A copy that fails leaves nothing under the new name; in the code part of it stays when it cannot be removed.
- SealedPair.BackUpInstance.Write: the frame is built by appending to the data slice; in the code this rewrites the bytes behind it in a shared buffer with the bytes they already hold, which a sequence does not show. Overwriting with padding ends in the same content.
- CrlMatching.CompareWithCerts: reading lists and certificates from PEM and checking their dates.
- NpuHealth.PublishedIsCurrent: publishing always reaches the server of the type; devices are grouped once.
- `BackupOrRestoreDb` and the integrity test, backing up directories, per-IP and connection counting, websocket and HTTPS plumbing, TLS, certificate issuing, gRPC, the driver interface and Kubernetes clients: I/O and library calls, or easy members.
