# A model of the sylar coroutine scheduler, timers, event registry and logger

sylar runs coroutines on a pool of threads. This project models the parts of it whose
correctness is not visible from any single function and proves what they promise, for
every run, every interleaving and every input.

**The scheduler.** Workers share a mutex-guarded task list and an eventfd that counts
like a semaphore. A submitter posts a wake-up only when the list was empty; a worker that
leaves tasks behind passes the duty on after it has released the lock. `Protocol` is this
as a state machine over its atomic steps, for any number of workers, submitters and tasks,
with Stop as one more actor; a slice from SwapIn to SwapOut is one step to begin and one to
end. `SchedulerObject` has the lock-protected methods in the program's own form, each proved
to do what a step of the protocol does. On top of them: no wake-up is lost, no worker is
stranded by Stop, nothing is lost or run twice, tasks of one target are taken in order, each
unbound task is taken after a bounded number of moves, a coroutine is never in two places, and
Stop comes to its return. Where the code falls short, the exact condition is proved: after Stop,
tasks that others submit can strand a worker exactly when there are two workers or more, and
coroutines that the workers submit again exactly when there are three or more; some task is sure to be
taken in bounded time exactly when every worker may run one of those queued; a shutdown is bounded
exactly when every worker may run all of them; the wait of one task exactly when every worker that
will scan the list again may run it.

**Coroutines.** `CoroutineObject` models a thread's switching between coroutines. The program
keeps no stack of who swapped in whom: it works out where to return to from three
thread-local pointers. The proof is that this always is the coroutine that swapped in.

**Timers.** `TimerManagerObject` is the ordered index with its cached minimum and its alarm;
`TimerIndex` what one expiry pass over a moving clock does; `TimerLedger` what becomes of
every timer over a whole history.

**Log patterns.** `LogFormat` is the grammar of patterns, its printer, and the meaning of
formatting; `LogFormatterObject` the twelve-state table-driven machine, proved to accept and
produce exactly what the grammar does.

**Loggers.** `ParentGraph` and `LoggerTree` are the tree along which events travel;
`LoggerConfig` and `LoggerManagerObject` the reconciliation of loggers with a changed
configuration, proved equal to a rebuild.

**The event registry.** `EventRegistry` is one descriptor's entry, its masks, handlers and its
mirror in the kernel; `EpollPollerObject` the registry that changes such entries in place, and
what a batch of reports from epoll_wait does to it, the task list, the semaphore and the timers.

## What the proofs show about the code

- A task that somebody else submits after Stop was called can leave a worker in epoll_wait for
  ever, and Stop with it, exactly with two workers or more. A coroutine that yields to ready after
  Stop is submitted again by its own worker; that alone can strand a worker too, exactly with three
  workers or more, since each time it posts one wake-up and sends all idle workers back to poll
  (`AgainStranding.StopIsSafeExactlyWhen`). In either case nothing is lost that was submitted by
  the workers: when Stop has returned and nobody else submitted anything after it, every task
  has been completed (`ShutdownEnd.StopDrainsExactlyWhen`).
- A task bound to one thread can be passed over for ever while another thread, which may run
  nothing that is queued, keeps waking up instead (`Waiting.BoundTaskCanBePassedOver`). That is the
  only way: `Waiting.TakeIsCertainExactlyWhen`. In a shutdown too the workers can go round for ever
  exactly when one that is not on its way out may not run some queued task
  (`ShutdownEnd.ShutdownIsBoundedExactlyWhen`).
- The test at `sylar/concurrency/scheduler.cpp:187-188` joins two inequalities with "or" and is
  always true, and SwapIn forbids only a coroutine that is executing. So a coroutine submitted twice
  is swapped in again after it has finished (`SpentCoroutines.FinishedIsSwappedIn`); only submitters
  that keep to coroutines at rest prevent it.
- The assertion that a coroutine taken from the list does not execute fails for a coroutine
  submitted twice, as soon as there are two workers (`SpentCoroutines.TakesOnlyRestedExactlyWhen`).
- The recycled wrapper of callbacks looks runnable to whoever still holds a reference to it, though
  it must not be submitted (`Exclusivity.SpentWrapperIsNotAtRest`).
- Two timers with the same expiry cannot coexist: the later one is dropped silently
  (`TimerLedger.DroppedExactlyWhen`).
- The assertion at `sylar/concurrency/timer_manager.cpp:181` holds exactly when the earliest timer was
  due at the first reading of the clock.
- A due timer with a negative repeat interval, alone in the index, keeps the expiry loop going for
  ever; beside others it may be dropped in a collision, and the loop then ends. An alarm for a time point
  that is not positive disarms the timer, or is rejected by the kernel.
- `sylar/concurrency/timer_manager.cpp:70` says that cancelling an absent timer does nothing; the
  code erases the end iterator, which is undefined.
- The branch at `sylar/concurrency/epoll_poller.cpp:122-125` clears the read handler when the write
  direction is cancelled: by a cancel, a reader that is still registered is lost exactly then. Ready
  events can lose a reader or a writer in two more ways (`EventRegistry.ReadyServesExactlyWhen`).
- Ready events that were read before another thread handled the descriptor can run a direction's
  handler a second time for one registration. A hand-over uses up no registration exactly when it runs a
  direction that is no longer registered, or runs one without taking it out of the interest.
- Registering a function for a direction leaves a coroutine from an earlier registration in place, and
  the coroutine is then run instead of the function (`EventRegistry.TakenMeans`).
- `ConfigVar::SetVal` stores the new value before it calls the monitors. When the logger monitor
  throws on a malformed pattern, the loggers stay out of step, and setting the same value again returns at once.
- A change of the root logger's formatter does not reach the loggers already built without a pattern.
- The level of the root logger's appender is never initialized; it is a parameter here.

## Model

| member | source | states |
|---|---|---|
| TaskQueue.FirstFor | sylar/concurrency/scheduler.cpp:152-164 | the scan stops at the first task this thread may run, and skips only tasks bound to others |
| TaskQueue.ScanIsFifo | sylar/concurrency/scheduler.cpp:150-179 | a scan hands out the oldest task of its class, leaves every other class as it was, loses nothing, and comes back empty only if no task is for this thread |
| SchedulerObject.Notifier.Notify | sylar/concurrency/notifier.cpp:30-37 | a write adds to the semaphore |
| SchedulerObject.Notifier.HandleEventFd | sylar/concurrency/notifier.cpp:39-46 | a read takes one unit, and fails without blocking at zero |
| SchedulerObject.Scheduler.AddTaskNoLock | sylar/concurrency/scheduler.h:109-119 | the task is appended; a wake-up is due exactly when the list was empty |
| SchedulerObject.Scheduler.Co | sylar/concurrency/scheduler.h:100-107 | the task is last on the list and one token is posted when that was empty: the whole shared state is the one the protocol steps to |
| SchedulerObject.Scheduler.TakeTask | sylar/concurrency/scheduler.cpp:150-179 | the first task bound to no thread or to this one is taken off the list, or none is there; the flag is true exactly when tasks are left behind |
| SchedulerObject.Scheduler.IsStopped | sylar/concurrency/scheduler.cpp:114-117 | true exactly when stopped with an empty list |
| Protocol.Start | sylar/concurrency/scheduler.cpp:68-79 | one worker per pool thread at its scan, and one more for the creating thread when it schedules too, waiting for Stop; nothing queued, posted or submitted |
| Protocol.SettleStep | sylar/concurrency/scheduler.cpp:186-245 | after a slice the task is completed and off the hand; exactly a ready coroutine is submitted again, bound to no thread; one that neither finished nor is ready is on hold, and no other coroutine changes |
| Protocol.WorkStep | sylar/concurrency/scheduler.cpp:119-260 | a step of one worker moves no other worker and never Stop; only a scan or a settlement touches the list and the history |
| Steps.TokensPosted | sylar/concurrency/scheduler.cpp:81-107 | every token comes from a submission to the empty list, from a worker that leaves tasks behind, or from Stop, one for each pool thread and one for its own; a read takes one |
| Steps.StopInOrder | sylar/concurrency/scheduler.cpp:81-112 | Stop sets the flag, posts, swaps its own worker in, waits for it, joins the pool, and changes nothing else |
| Steps.LoopGoesOn | sylar/concurrency/scheduler.cpp:146-260 | the way of a worker round its loop, place by place |
| Steps.OthersStep | sylar/concurrency/epoll_poller.cpp:159-176 | a submission, a new coroutine, and a timer or socket that wakes a worker up without a token |
| Steps.WrapperIsRecycled | sylar/concurrency/scheduler.cpp:204-212 | a callback runs in the worker's recycled wrapper, or in a new one when it has none |
| Steps.SliceIsSettled | sylar/concurrency/scheduler.cpp:190-203 | a task that yielded to ready is on the list again, bound to no thread, one that yielded to hold is parked, one that ended is neither |
| Steps.WrapperIsSettled | sylar/concurrency/scheduler.cpp:213-225 | the wrapper of a callback that ended is reset for the next; one that yielded goes its own way |
| WorkerShape.RunIsShaped | sylar/concurrency/scheduler.cpp:81-112 | over every run, a worker's place agrees with what it holds and with how far Stop has come; the number of workers never changes |
| NoLostWakeup.StepKeepsCovered | sylar/concurrency/scheduler.cpp:146-184 | every step keeps: tasks queued means a token in the semaphore or a worker on its way to a scan or a wake-up |
| NoLostWakeup.NoWakeupIsLost | sylar/concurrency/scheduler.cpp:146-184 | that invariant holds in every state of every run, whoever submits what and when |
| NoLostWakeup.NoWorkerSleepsOnQueuedTasks | sylar/concurrency/epoll_poller.cpp:147-178 | with tasks queued and nobody on the way, a worker in epoll_wait can return from it |
| Progress.SomeoneCanMove | sylar/concurrency/scheduler.cpp:146-184 | with tasks queued and one worker that has not left, some worker can move without help from outside |
| Progress.TidyRequeues | sylar/concurrency/scheduler.cpp:194-217 | where no coroutine is in two places, nobody can keep a worker from submitting its ready coroutine again |
| Progress.StaysAble | sylar/concurrency/scheduler.cpp:152-164 | a worker that may run some queued task, or is about to submit one, stays so until somebody takes a task |
| Progress.StepTakesOrFalls | sylar/concurrency/scheduler.cpp:119-260 | if every worker still there may run some queued task, each step takes one or comes strictly closer to it, whatever is submitted meanwhile |
| Walks.LapReturns | sylar/concurrency/scheduler.cpp:146-184 | a worker that finds no task of its own on a list of others is back in the very same state after six steps |
| Walks.NothingTaken | sylar/concurrency/scheduler.cpp:119-260 | from any state of any run, a worker that may run no queued task can go on for any number of moves without a task being taken |
| Walks.DrainsAlone | sylar/concurrency/scheduler.cpp:119-260 | and one that may not run some queued task can take all it may run by itself, and then go on for ever |
| Waiting.TakeIsCertainExactlyWhen | sylar/concurrency/scheduler.cpp:119-260 | with tasks queued, a take within 12n+6 moves, or within any bound, is certain in every continuation if and only if each of the n workers has left, is leaving, may run some queued task, or is about to submit one; in every run, with any submissions |
| Waiting.BoundTaskCanBePassedOver | sylar/concurrency/scheduler.cpp:154-159 | for every configuration with a worker, one submission bound to the second thread makes a run after which no bound on the wait holds |
| TaskWait.TaskIsTaken | sylar/concurrency/scheduler.cpp:119-260 | a task at position p of the list that every worker still to scan may run is itself taken within (p+1)(12n+7) moves, in any run, whatever else is queued or submitted; one bound to no thread always is |
| TaskWait.WaitIsBoundedExactlyWhen | sylar/concurrency/scheduler.cpp:119-260 | the wait of one queued task has that bound, or any, if and only if every worker that will scan the list again may run it |
| TaskWait.KeptBusy | sylar/concurrency/scheduler.cpp:150-179 | a worker on its way out can be given other tasks for ever, if others may submit |
| Shutdown.SettleKeepsBalanced | sylar/concurrency/scheduler.cpp:190-225 | re-queueing a ready coroutine keeps the shutdown account, with at most two workers, or when other tasks are queued |
| Shutdown.ScanKeepsBalanced | sylar/concurrency/scheduler.cpp:146-184 | taking a task and taking over the wake-up duty keeps the shutdown account |
| Shutdown.StopKeepsBalanced | sylar/concurrency/scheduler.cpp:81-112 | Stop's own steps keep the account: it owes one wake-up per worker from the moment it sets the flag |
| Shutdown.RunIsBalanced | sylar/concurrency/scheduler.cpp:81-117 | over every run with at most one worker if others submit after Stop, at most two if the workers submit what is ready again, and any number otherwise: after Stop, tokens plus wake-ups owed cover all workers that need one |
| Shutdown.NotStranded | sylar/concurrency/scheduler.cpp:81-117 | a balanced account means that Stop or some worker can always move |
| Shutdown.RunIsQuiet | sylar/concurrency/scheduler.cpp:251-260 | where nothing is put on the list after Stop, an idle coroutine that has returned proves it empty for good |
| Shutdown.ExitedMeansEmpty | sylar/concurrency/scheduler.cpp:226-234 | where nothing is put on the list after Stop, a worker leaves the scheduling function only when it is empty |
| Shutdown.RunIsTended | sylar/concurrency/scheduler.cpp:194-260 | where the workers may submit what is ready again: once an idle coroutine has returned, whatever is queued may run anywhere, and a worker will come for it |
| TaskHistory.NothingIsLost | sylar/concurrency/scheduler.cpp:150-179 | over every run, what was submitted is exactly queued plus taken, and what was taken is exactly completed plus in hand |
| TaskHistory.TakenInOrderByTheRightThread | sylar/concurrency/scheduler.cpp:152-176 | over every run, the tasks of one target are taken in the order of submission, and a bound task only by its thread |
| Draining.StopReturnsDrained | sylar/concurrency/scheduler.cpp:81-112 | when Stop has returned and nobody else submitted after it, the list is empty, all workers have exited and the completed tasks are the submitted ones, whatever the workers submitted again, for any number of them |
| Draining.ShutdownIsNeverStuck | sylar/concurrency/scheduler.cpp:81-117 | with few enough workers as above, until Stop has returned it or some worker has a step of its own to make |
| ShutdownEnd.StepGetsCloser | sylar/concurrency/scheduler.cpp:119-260 | after Stop, if every worker not on its way out may run every queued task, each move that submits nothing comes strictly closer to the return of Stop |
| ShutdownEnd.AgainGoesBack | sylar/concurrency/scheduler.cpp:194-217 | and submitting a ready coroutine again goes back by a fixed number of moves at most |
| ShutdownEnd.ShutdownIsBoundedExactlyWhen | sylar/concurrency/scheduler.cpp:81-112 | after Stop, the workers and Stop make a bounded number of moves and a fixed number for each coroutine submitted again, under every interleaving, if and only if every worker not on its way out may run every queued task |
| ShutdownEnd.StopReturns | sylar/concurrency/scheduler.cpp:81-112 | then each interleaving is bounded in that way, and with few enough workers one that cannot go on has ended with the return of Stop |
| ShutdownEnd.StopCanReturn | sylar/concurrency/scheduler.cpp:81-112 | and there is such an interleaving, without help from outside, also where workers are about to submit ready coroutines |
| ShutdownEnd.StopDrainsExactlyWhen | sylar/concurrency/scheduler.cpp:81-112 | every return of Stop leaves every task completed if and only if nobody but the workers may submit after Stop |
| Stranding.LateTasksStrand | sylar/concurrency/scheduler.cpp:81-117 | for every configuration with two workers or more there is a run, with tasks that others submit after Stop, that ends stranded |
| AgainStranding.AgainStrands | sylar/concurrency/scheduler.cpp:194-217 | a stranding run for every configuration of three workers or more, in which after Stop only one coroutine is submitted again and again by its own worker |
| AgainStranding.StopIsSafeExactlyWhen | sylar/concurrency/scheduler.cpp:81-117 | no run strands Stop if and only if there is at most one worker where others may submit after it, and at most two where workers may submit what is ready again |
| Exclusivity.ScanKeepsExclusive | sylar/concurrency/scheduler.cpp:150-179 | taking a task moves its coroutine from the list to one hand |
| Exclusivity.DispatchKeepsExclusive | sylar/concurrency/scheduler.cpp:186-212 | running it, or a callback in a new or recycled wrapper, keeps every coroutine in one place |
| Exclusivity.SettleKeepsExclusive | sylar/concurrency/scheduler.cpp:194-225 | after a slice the coroutine is re-queued, recycled or let go, and belongs to one place in each case |
| Exclusivity.RunIsExclusive | sylar/concurrency/scheduler.cpp:167-225 | if only coroutines at rest are submitted, over every run each coroutine is in one queue entry, one hand or one wrapper at most, and is runnable while queued |
| Exclusivity.SubmitKeepsExclusiveExactlyWhen | sylar/concurrency/scheduler.h:100-119 | a submission keeps that if and only if the coroutine is runnable, on no list and held by no worker |
| Exclusivity.SwapInIsSafe | sylar/concurrency/scheduler.cpp:186-212 | a coroutine about to be swapped in is neither executing nor finished, not queued, and held by nobody else |
| Exclusivity.SlicesAreDisjoint | sylar/concurrency/scheduler.cpp:190-213 | two workers never run the same coroutine at once |
| Exclusivity.SpentWrapperIsNotAtRest | sylar/concurrency/scheduler.cpp:218-222 | a reachable state in which a coroutine is runnable, unqueued and in no hand, and submitting it still breaks exclusivity, because it is a worker's wrapper |
| Executing.MarkedExactlyWhileRun | sylar/concurrency/scheduler.cpp:190-225 | over every run a coroutine is marked as executing only while a worker is in its slice or settles it, and, with tidy submitters, a worker in a slice runs a marked one |
| Executing.ReadyIsNotForgotten | sylar/concurrency/scheduler.cpp:194-217 | over every run a coroutine that yielded to ready is on the list, or a worker is about to put it there or to run it |
| SpentCoroutines.FinishedIsSwappedIn | sylar/concurrency/scheduler.cpp:186-191 | for every configuration with a worker there is a run, with one coroutine submitted twice, in which a worker is about to swap in a finished coroutine |
| SpentCoroutines.SwapsInOnlyUnfinishedExactlyWhen | sylar/concurrency/scheduler.cpp:186-213 | over all runs the scheduler swaps in only unfinished coroutines if and only if submitters keep to coroutines at rest, or there is no worker |
| SpentCoroutines.ExecutingIsTaken | sylar/concurrency/scheduler.cpp:161-173 | for every configuration of two workers or more a reached state in which a worker is about to take a coroutine that another executes |
| SpentCoroutines.TakesOnlyRestedExactlyWhen | sylar/concurrency/scheduler.cpp:161-173 | over all runs the assertion that a coroutine taken from the list does not execute holds if and only if submitters keep to coroutines at rest, or there is one worker at most |
| CoroutineStates.LifeIsAccounted | sylar/concurrency/coroutine.cpp:148-255 | over every life of a coroutine slices open and close in turn, and the ends, but a last one, are as many as the Resets and SwapIns of the finished coroutine |
| CoroutineStates.FinishedIsSwappedInAgain | sylar/concurrency/coroutine.cpp:148-172 | a life that SwapIn's assertion permits in which a finished coroutine is swapped in without a Reset |
| CoroutineStates.RestartsByResetExactlyWhen | sylar/concurrency/coroutine.cpp:192-213 | a finished coroutine is left through Reset alone if and only if it is only ever swapped in when runnable |
| CoroutineObject.Coroutine.Main | sylar/concurrency/coroutine.cpp:61-76 | the main coroutine executes from the start, without a stack or a function of its own |
| CoroutineObject.Coroutine.constructor | sylar/concurrency/coroutine.cpp:78-112 | a new coroutine is in its initial state, with a context of its own |
| CoroutineObject.Coroutine.Reset | sylar/concurrency/coroutine.cpp:192-209 | a finished or initial coroutine becomes initial with the new function, and its context starts over on its own stack |
| CoroutineObject.ThreadContext.GetMainCoroutine | sylar/concurrency/coroutine.cpp:39-53 | the main coroutine is created once and is current then |
| CoroutineObject.ThreadContext.SetSchedulingCoroutine | sylar/concurrency/scheduler.cpp:22-28 | set from the main or the dummy-main coroutine when none is set, or taken away, it keeps the nesting |
| CoroutineObject.ThreadContext.SwapIn | sylar/concurrency/coroutine.cpp:148-172 | the coroutine becomes the innermost one and the processor is on its flow; the ones below are unchanged, with contexts that continue their own flows |
| CoroutineObject.ThreadContext.SwapOut | sylar/concurrency/coroutine.cpp:174-190 | the processor is back on the flow of the coroutine that swapped this one in, and that is current again |
| CoroutineObject.ThreadContext.YieldCurCoroutineToHold | sylar/concurrency/coroutine.cpp:243-248 | the same, and the coroutine is in the state of hold, with its function and its flow kept |
| CoroutineObject.ThreadContext.YieldCurCoroutineToReady | sylar/concurrency/coroutine.cpp:250-255 | the same, and the coroutine is in the state of ready |
| CoroutineObject.ThreadContext.CoroutineFunc | sylar/concurrency/coroutine.cpp:215-241 | the same at the end of the function: terminal with the function dropped, or failed with the function kept |
| TimerIndex.Insert | sylar/concurrency/timer_manager.h:26-28 | the index stays strictly ordered by time point, beginning with the earlier of the newcomer and the old first |
| TimerIndex.InsertMembers | sylar/concurrency/timer_manager.cpp:104-113 | a timer is added unless its time point is taken, and then nothing changes |
| TimerIndex.AlarmFiresExactlyWhen | sylar/concurrency/timer_manager.cpp:135-155 | the alarm is set to the whole seconds of the earliest time and the nanoseconds beyond if that time is positive, is disarmed at zero and without timers, and is left as it was by a negative time |
| TimerIndex.RoundTakesSlack | sylar/concurrency/timer_manager.cpp:162-176 | each turn of the loop, re-insertion and dropped collisions included, uses up time left before the bound of the clock, and the earliest timer moves on |
| TimerIndex.RoundIsExact | sylar/concurrency/timer_manager.cpp:162-176 | each turn of the loop: a one-shot timer is gone, a repeated one is set to its interval after the reading that follows, or is dropped because another expires just then |
| TimerIndex.RearmedAlone | sylar/concurrency/timer_manager.cpp:165-172 | a repeated timer alone in the index expires its interval after that reading |
| TimerIndex.PassComesFrom | sylar/concurrency/timer_manager.cpp:157-176 | over a pass, each timer left, returned or dropped was in the index, or is one returned before, set to its interval after the reading that follows the one which popped it |
| TimerIndex.DueIsReturned | sylar/concurrency/timer_manager.cpp:157-176 | every timer due at the first reading is returned |
| TimerIndex.PassIsTimely | sylar/concurrency/timer_manager.cpp:157-176 | every returned timer was due at the reading it was popped at, those readings follow each other, and every remaining timer is later than the last reading |
| TimerIndex.PassIsOrdered | sylar/concurrency/timer_manager.cpp:157-176 | timers are returned in the order of their expiry, beginning with the earliest |
| TimerIndex.AssertionHoldsExactlyWhen | sylar/concurrency/timer_manager.cpp:178-183 | the earliest time has moved on after a pass if and only if the index was empty or its earliest timer was due at the first reading |
| TimerIndex.PassIsTheLoop | sylar/concurrency/timer_manager.cpp:162-176 | without negative intervals the loop ends after some number of turns, with exactly what the pass leaves |
| TimerIndex.DueAgain | sylar/concurrency/timer_manager.cpp:162-173 | a due timer with a negative interval, alone in the index, is alone and due again after any number of turns, for any clock that never runs backwards |
| TimerIndex.SingleTimerSettlesExactlyWhen | sylar/concurrency/timer_manager.cpp:162-176 | with one timer in the index the loop ends if and only if the interval is not negative or the timer is not due |
| TimerIndex.CollisionEndsTheLoop | sylar/concurrency/timer_manager.cpp:162-176 | with a second timer it may end in spite of a negative interval: the re-armed timer meets an occupied time point |
| TimerManagerObject.TimerManager.RefreshTimerFd | sylar/concurrency/timer_manager.cpp:135-155 | list, cached minimum and alarm agree afterwards |
| TimerManagerObject.InStepMeans | sylar/concurrency/timer_manager.cpp:135-155 | what their agreement is: the cached time is that of the first timer, the earliest, and the alarm is set to it in seconds and nanoseconds |
| TimerManagerObject.TimerManager.AddToHeap | sylar/concurrency/timer_manager.cpp:104-113 | inserts, and reports exactly whether the timer is the new earliest |
| TimerManagerObject.TimerManager.AddTimer | sylar/concurrency/timer_manager.cpp:40-50 | the timer is in the index, and list, minimum and alarm still agree |
| TimerManagerObject.TimerManager.RemoveFromHeap | sylar/concurrency/timer_manager.cpp:115-133 | exactly one timer is gone, and list, minimum and alarm still agree |
| TimerManagerObject.TimerManager.CancelTimer | sylar/concurrency/timer_manager.cpp:64-72 | with the id in the index, the first timer that carries it is gone and nothing else; without, the outcome is undefined |
| TimerManagerObject.TimerManager.HasTimer | sylar/concurrency/timer_manager.cpp:74-81 | true exactly when some timer carries the id |
| TimerManagerObject.TimerManager.GetAllExpiredTimers | sylar/concurrency/timer_manager.cpp:157-188 | the loop returns and leaves what the expiry pass does, keeps the agreement, and passes its assertion exactly when the earliest timer was due on entry |
| TimerManagerObject.TimerManager.UpdateLatest | sylar/concurrency/timer_manager.cpp:178-185 | list, minimum and alarm agree after a pass; the assertion holds exactly when the earliest time has moved on |
| TimerManagerObject.TimerManager.FindById | sylar/concurrency/timer_manager.cpp:66-68 | the first timer with the id, or the end |
| TimerManagerObject.TimerManager.HandleExpiredTimers | sylar/concurrency/timer_manager.cpp:85-98 | the callbacks of the expired timers join the end of the task list in order, each once, bound to no thread, with one wake-up at most |
| TimerLedger.BooksBalance | sylar/concurrency/timer_manager.cpp:40-188 | over every history, each timer added is pending, cancelled, dropped in a collision or handed over, counted exactly |
| TimerLedger.OneFate | sylar/concurrency/timer_manager.cpp:40-188 | a timer added once was never dropped in a collision if and only if it has exactly one fate: a one-shot timer pending, cancelled or handed over, a repeated one pending or cancelled |
| TimerLedger.DroppedExactlyWhen | sylar/concurrency/timer_manager.cpp:104-113 | a newcomer is lost if and only if its time point is taken, and it is then the only loss |
| LogFormat.FirstExactlyWhen | sylar/base/log.cpp:289-348 | a pattern has a first construct, and is not malformed there, if and only if it begins as some printed item does or with an unknown letter |
| LogFormat.FirstPrints | sylar/base/log.cpp:289-348 | that construct prints as the characters it takes, unless its letter is unknown |
| LogFormat.LetterIsItem | sylar/base/log.cpp:362-396 | behind a percent sign the letters m, c, L, l, t, n, f, T and R are items, a second percent sign is one, braces are malformed, and any other letter but d comes to nothing |
| LogFormat.LetterExactlyWhen | sylar/base/log.cpp:362-396 | the pattern of one letter is one item if and only if it is one of the nine, and none if and only if it is unknown |
| LogFormat.DateIsItem | sylar/base/log.cpp:297-300 | a time format is what stands between the braces up to the first closing one, without which the pattern is malformed |
| LogFormat.MissingRest | sylar/base/log.cpp:350-359 | a percent sign at the end, and a d without its opening brace, are malformed |
| LogFormat.ItemsRender | sylar/base/log.cpp:87-227 | what each item renders, letter by letter |
| LogFormat.PrintAfterParse | sylar/base/log.cpp:304-360 | printing the items of an accepted pattern gives it back if and only if it asks for no unknown letter, and each of those costs two characters |
| LogFormat.ParseAfterPrint | sylar/base/log.cpp:304-360 | parsing the print of a canonical item list gives the list |
| LogFormat.ParsedIsCanonical | sylar/base/log.cpp:375-401 | the items of a pattern are well formed, and canonical when no letter was dropped |
| LogFormat.RoundTripExactlyWhen | sylar/base/log.cpp:304-401 | an item list survives printing and parsing if and only if it is canonical |
| LogFormat.FormattedConcat | sylar/base/log.cpp:403-409 | formatting with two item lists in a row is formatting with one and then the other |
| LogFormat.ParseConcat | sylar/base/log.cpp:304-409 | after an accepted pattern, the whole is accepted if and only if the rest is, and it formats every event as the two parts do, also where two texts merge into one item |
| LogFormatterObject.TransitionFollowsGrammar | sylar/base/log.cpp:289-348 | one transition of the table keeps what the pattern denotes, or finds it malformed exactly when the grammar does |
| LogFormatterObject.EndFollowsGrammar | sylar/base/log.cpp:350-359 | at the end an open text is an item and any other open construct is malformed |
| LogFormatterObject.LogFormatter.Init | sylar/base/log.cpp:249-360 | the machine accepts a pattern if and only if the grammar does, and produces the same items, with every slice in range |
| LogFormatterObject.LogFormatter.HandleTryAddItemState | sylar/base/log.cpp:389-396 | one of the nine letters adds its item, any other adds nothing and is no error |
| LogFormatterObject.LogFormatter.Format | sylar/base/log.cpp:403-409 | the loop computes the meaning of the items |
| ParentGraph.DepthStep | sylar/base/log.cpp:496-508 | in an acyclic graph each step up is one closer to the end |
| ParentGraph.ReachingIsDeeper | sylar/base/log.cpp:496-508 | whoever reaches a logger is at least as deep as it |
| ParentGraph.LinkKeepsAcyclicExactlyWhen | sylar/base/log.cpp:496-508 | a new parent link keeps the graph acyclic if and only if the walk up from the parent does not meet the logger |
| ParentGraph.UnlinkKeepsAcyclic | sylar/base/log.cpp:496-508 | taking a parent away closes no cycle |
| LoggerTree.Logger.constructor | sylar/base/log.cpp:426-428 | a new logger has the default level, no appenders, no formatter and no parent |
| LoggerTree.Logger.AddAppender | sylar/base/log.cpp:456-463 | the appender comes last, with the logger's formatter unless it has its own |
| LoggerTree.Logger.ClearAllAppender | sylar/base/log.cpp:465-468 | no appender is left |
| LoggerTree.Logger.SetFormatter | sylar/base/log.cpp:475-488 | the appenders without a formatter of their own follow the logger, the others keep theirs |
| LoggerTree.Logger.SetParent | sylar/base/log.cpp:496-508 | the walk ends, throws if and only if the link would close a cycle, and the links stay acyclic either way |
| LoggerTree.Logger.Log | sylar/base/log.cpp:416-454 | the recursion ends, and writes exactly the lines of the appenders that the event is routed to, in order |
| LoggerTree.WritesExactlyWhen | sylar/base/log.cpp:416-424 | a line is written if and only if it is the formatted event on the sink of an appender whose own level the event passes, and there is one for each of those |
| LoggerTree.LineIsInOrder | sylar/base/log.cpp:449-450 | the line of an appender comes right behind those of the appenders before it |
| LoggerTree.PassingGrows | sylar/base/log.cpp:449-450 | of two appenders that write, the earlier has the earlier line |
| LoggerTree.DeliveryExactlyWhen | sylar/base/log.cpp:430-454 | a logger delivers an event if and only if it is the nearest one up the line with appenders and the event passes the level of every logger up to it |
| LoggerConfig.ReconciledIsSetUp | sylar/base/log.cpp:781-806 | after an update by differences every configured logger is set up as its definition says, and dropped names are gone and names in neither configuration untouched |
| LoggerConfig.UpdatesEqualRebuild | sylar/base/log.cpp:781-806 | after any run of updates, of all names ever configured exactly the latest ones have a logger, and each equals a rebuild from nothing |
| LoggerConfig.RootChangeKeepsStepExactlyWhen | sylar/base/log.cpp:851-859 | a new root formatter leaves the loggers equal to a rebuild if and only if each has a pattern of its own |
| LoggerConfig.BuiltIsSetUpAs | sylar/base/log.cpp:812-872 | a logger built from a definition has its level and formatter, and in order one appender for each definition that is not skipped, with that definition's stream or file, level and formatter |
| LoggerConfig.MakesExactlyWhen | sylar/base/log.cpp:812-872 | a definition is refused exactly for a malformed pattern, its own or that of an appender it gets |
| LoggerManagerObject.LoggerManager.constructor | sylar/base/log.cpp:510-518 | the root logger alone, with its formatter and one appender to standard output that follows it |
| LoggerManagerObject.LoggerManager.GetLogger | sylar/base/log.cpp:520-529 | an existing logger is returned as it is, a missing one is made, and no other name is affected |
| LoggerManagerObject.LoggerManager.RemoveLogger | sylar/base/log.cpp:531-534 | exactly that name is gone, the root logger's too |
| LoggerManagerObject.LoggerManager.InitLoggerAndAppend | sylar/base/log.cpp:536-548 | the new logger hangs below the root with the root's formatter and no appenders |
| LoggerManagerObject.LoggerManager.GenerateAppender | sylar/base/log.cpp:812-849 | an appender on standard output or standard error or on the file named, with the level of its definition; none for an unknown kind or a file that does not open; an error exactly when one is made with a malformed pattern |
| LoggerManagerObject.LoggerManager.Inherited | sylar/base/log.cpp:856-857 | a definition without a pattern takes over the formatter of the root logger as looked up by its name, which makes that logger again if it is missing |
| LoggerManagerObject.LoggerManager.Configure | sylar/base/log.cpp:852-870 | the logger has the level of its definition, its formatter or the inherited one, and its appenders, if and only if all patterns are well formed |
| LoggerManagerObject.LoggerManager.Generate | sylar/base/log.cpp:851-872 | the logger of the definition is set up with the root formatter that a look-up finds; no other changes, but for the root logger made again |
| LoggerManagerObject.LoggerManager.CreateOrUpdate | sylar/base/log.cpp:783-790 | every new definition is built, whatever the order of the set; it stops exactly when some new definition is malformed |
| LoggerManagerObject.LoggerManager.RemoveMissing | sylar/base/log.cpp:792-804 | exactly the names of the old configuration that the new one lacks are gone |
| LoggerManagerObject.LoggerManager.Reconcile | sylar/base/log.cpp:782-805 | the two loops together are the update by differences |
| LoggerManagerObject.ConfigVar.SetVal | sylar/base/config.h:400-419 | the value is always stored; loggers that were in step with the old value are in step with the new one if and only if nothing threw, and then each configured logger has its definition's level, formatter and appenders; an equal value changes nothing |
| EventRegistry.RunsByBits | sylar/concurrency/epoll_poller.cpp:264-277 | the reader runs for input, priority data, a closed peer and errors, the writer for output and errors |
| EventRegistry.UpdatedMeans | sylar/concurrency/epoll_poller.cpp:62-87 | an update sets the interest with the edge-trigger flag, and gives each direction it names the function, or the running coroutine without one, beside what it already had |
| EventRegistry.CancelledMeans | sylar/concurrency/epoll_poller.cpp:107-125 | a cancel takes the bits out of the interest and of the kernel's mask, and the descriptor off the kernel when no direction is left; either direction clears the reader |
| EventRegistry.TakenMeans | sylar/concurrency/epoll_poller.cpp:283-299 | a handler gives its coroutine first, and its function only without one |
| EventRegistry.ReadyMeans | sylar/concurrency/epoll_poller.cpp:231-278 | ready events that concern the interest give the reader's and then the writer's handler and are cancelled; others do nothing |
| EventRegistry.UpdateStaysInStepExactlyWhen | sylar/concurrency/epoll_poller.cpp:56-70 | the control operation is always legal, and state, interest and kernel agree afterwards if and only if the interest names a direction |
| EventRegistry.CancelStaysInStep | sylar/concurrency/epoll_poller.cpp:104-115 | cancelling anything of an added entry issues a legal control operation and keeps the agreement |
| EventRegistry.CancelTripsExactlyWhen | sylar/concurrency/epoll_poller.cpp:90-105 | a cancel passes the guard and fails the assertion if and only if the edge-trigger flag is all that is left of the interest and is asked for |
| EventRegistry.FlagIsLeftBehind | sylar/concurrency/epoll_poller.cpp:56-126 | the run that fails: register a reader, cancel it, cancel the flag |
| EventRegistry.ReadyStaysInStep | sylar/concurrency/epoll_poller.cpp:231-240 | handling ready events that do not fail the assertion keeps the agreement |
| EventRegistry.SoundExactlyWhenSensible | sylar/concurrency/epoll_poller.cpp:56-126 | over every run: added if and only if some direction is of interest, if and only if the kernel has the descriptor with that very mask, after each operation, and no assertion fails, if and only if each update names a direction and nothing asks for the flag where it is alone |
| EventRegistry.ReadyUsesUpExactlyWhen | sylar/concurrency/epoll_poller.cpp:231-278 | handling ready events uses up one registration per handler run if and only if the events are fresh |
| EventRegistry.HandlersRunOncePerRegistration | sylar/concurrency/epoll_poller.cpp:209-301 | over every run with fresh events, a direction's handler runs at most once per registration |
| EventRegistry.StaleEventsRunTheReaderTwice | sylar/concurrency/epoll_poller.cpp:232-240 | with stale events one registration runs its reader twice, the second time with nothing to run |
| EventRegistry.UpdateServes | sylar/concurrency/epoll_poller.cpp:72-87 | after an update every direction of interest has a handler |
| EventRegistry.CancelServesExactlyWhen | sylar/concurrency/epoll_poller.cpp:117-125 | after a cancel every registered direction still has a handler unless the write direction was cancelled alone below a registered reader |
| EventRegistry.ReadyServesExactlyWhen | sylar/concurrency/epoll_poller.cpp:231-301 | after ready events every registered direction still has a handler if and only if neither handler goes while its registration stays: the reader's when the descriptor is writable and not readable, or by an event that runs it outside the interest; the writer's by an error |
| EventRegistry.ServedExactlyWhenKept | sylar/concurrency/epoll_poller.cpp:56-126 | over every run, each registered direction has a handler at every moment if and only if each operation met its condition for that |
| EventRegistry.ReaderThereExactlyWhen | sylar/concurrency/epoll_poller.cpp:72-126 | over every run, the reader's context holds a handler if and only if it was armed and not emptied since |
| EventRegistry.WriterThereExactlyWhen | sylar/concurrency/epoll_poller.cpp:72-126 | the same for the writer, which nothing but running it empties |
| EventRegistry.HandOversHoldExactlyWhen | sylar/concurrency/epoll_poller.cpp:280-301 | over every run, the assertions of all hand-overs hold if and only if each direction that is run was armed and not emptied since |
| EventRegistry.HandOversHoldInRun | sylar/concurrency/epoll_poller.cpp:280-301 | they hold in particular where the events are fresh and the operations keep the handlers |
| EpollPollerObject.UpdateKeepsRegistryExactlyWhen | sylar/concurrency/epoll_poller.cpp:56-88 | the whole registry stays in step if and only if the interest names a direction |
| EpollPollerObject.EpollPoller.GetOrCreateEventObj | sylar/concurrency/epoll_poller.cpp:128-145 | an unknown descriptor gets an entry, a known one keeps its own, and no other entry changes |
| EpollPollerObject.EpollPoller.EpollCtl | sylar/concurrency/epoll_poller.cpp:244-255 | the kernel's view of this descriptor changes as the operation says, and of no other |
| EpollPollerObject.EpollPoller.UpdateEvent | sylar/concurrency/epoll_poller.cpp:56-88 | the whole registry afterwards is the old one with this entry updated |
| EpollPollerObject.EpollPoller.UpdateEventObj | sylar/concurrency/epoll_poller.cpp:62-87 | the entry afterwards, its mirror in the kernel included |
| EpollPollerObject.EpollPoller.AddCallback | sylar/concurrency/epoll_poller.cpp:72-87 | each named direction gets the function, or else the running coroutine, beside whatever it already had |
| EpollPollerObject.CancelKeepsInStep | sylar/concurrency/epoll_poller.cpp:90-102 | a cancel that does not fail the assertion keeps the whole registry in step |
| EpollPollerObject.EpollPoller.CancelEvent | sylar/concurrency/epoll_poller.cpp:90-102 | the registry afterwards is the old one with this entry cancelled, or nothing changes when it has none of the events; it stays in step |
| EpollPollerObject.EpollPoller.CancelEventObj | sylar/concurrency/epoll_poller.cpp:104-126 | the entry afterwards, its mirror in the kernel included |
| EpollPollerObject.EpollPoller.ClearContexts | sylar/concurrency/epoll_poller.cpp:117-125 | the read handler is cleared for either direction, the write handler for none |
| EpollPollerObject.TasksHandedOver | sylar/concurrency/epoll_poller.cpp:264-277 | ready events put the reader's task on the list and then the writer's, as far as they call for them |
| EpollPollerObject.EpollPoller.HandleEpollEvents | sylar/concurrency/epoll_poller.cpp:257-278 | those tasks are submitted to the scheduler, the handlers taken, and the assertions hold exactly when the handlers were there |
| EpollPollerObject.EpollPoller.EnqueueReader | sylar/concurrency/epoll_poller.cpp:280-290 | a stored coroutine joins the task list, bound to no thread, or else a stored function does; what was taken is gone, and the assertion holds exactly when either was there |
| EpollPollerObject.EpollPoller.EnqueueWriter | sylar/concurrency/epoll_poller.cpp:291-299 | the same for the writer |
| EpollPollerObject.EpollPoller.HandleDescriptor | sylar/concurrency/epoll_poller.cpp:231-240 | one ready descriptor: what is submitted, the entry afterwards, and the assertions |
| EpollPollerObject.EpollPoller.HandleReport | sylar/concurrency/epoll_poller.cpp:211-241 | one report of any of the three kinds: semaphore, alarm, descriptor |
| EpollPollerObject.EpollPoller.HandleReadyEvents | sylar/concurrency/epoll_poller.cpp:209-242 | a whole batch: registry, task list, semaphore and timers afterwards, still in step, and whether every assertion on the way held |
| EpollPollerObject.BatchAdds | sylar/concurrency/epoll_poller.cpp:209-301 | over a whole batch the task list grows at its end alone, by tasks bound to no thread, each of which runs a coroutine or function that the entry of a reported descriptor held, or the callback of a timer |

## Left out

- AppendEvent (`sylar/concurrency/epoll_poller.cpp:180-207`): it never marks an entry as added and keeps a writer's coroutine in the read context, so the registry claims do not hold of it.
- EpollPollerObject.EpollPoller.HandleReadyEvents: a report carries the descriptor where the program carries a pointer to its entry; the kernel never reports the edge-trigger flag.
- EpollPollerObject.EpollPoller.EnqueueReader: a function that was moved out of its context counts as empty; where no handler is there, the program stops at its assertion and nothing is submitted.
- EventRegistry.SoundExactlyWhenSensible: control operations are taken to succeed where they are legal.
- EventRegistry.HandlersRunOncePerRegistration: the fresh-events condition is checked at each hand-over; the exact condition for one hand-over is ReadyUsesUpExactlyWhen.
- ShutdownEnd.ShutdownIsBoundedExactlyWhen: for rules that let a worker submit its own ready coroutine again, which the program never forbids; so is TaskWait.WaitIsBoundedExactlyWhen.
- ShutdownEnd.StopReturns: counts moves of the workers and of Stop; that the threads get to run at all is the operating system's part.
- SchedulerObject.Scheduler: the worker loop, HandleIdle, Start and Stop interleave with other threads at every lock and system call, so they are steps of the protocol, not methods; the sections under the lock are methods.
- Exclusivity.RunIsExclusive: a coroutine in the list counts by identity; what its function does while it runs is not modelled, only how the slice ends.
- TimerIndex.PassIsTimely: the clock is a monotone sequence of readings with an upper bound, which stands for the finite time a pass takes; times are unbounded integers, so overflow of 64-bit nanoseconds is not modelled.
- TimerManagerObject.TimerManager.CancelTimer: says nothing about the timers after an id that is not there.
- TimerManagerObject.TimerManager.GetAllExpiredTimers: the assertion's outcome is reported as a result and the rest of the body goes on, as in a build without assertions.
- TimerIndex.SingleTimerSettlesExactlyWhen: with negative intervals among several timers, whether the loop ends depends on later readings of the clock; the methods ask for intervals that are not negative, since they would not return.
- LogFormat.FormattedConcat: rendering a time under a time format is a parameter, and numbers in an event are already decimal text.
- LoggerTree.Logger.Log: appenders are values of a logger, so one appender object shared by two loggers is not modelled; output streams are one sequence of lines.
- LoggerManagerObject.LoggerManager.constructor: the items of the root logger's fixed pattern are a parameter, as is the level of its appender.
- LoggerManagerObject.LoggerManager.GenerateAppender: whether a file opens is a parameter; a console appender must name one of the two streams, since the program dereferences null otherwise. The diagnostics about them are left out, with the look-up of the root logger for them.
- LoggerManagerObject.ConfigVar.SetVal: configurations have unique names and do not name the root logger; the monitor of the loggers is the only monitor.
- CoroutineObject.ThreadContext.SwapIn: a context is the flow of execution it continues; registers, stacks and destructors are not part of this model, nor is what runs on a flow that has come to its end. The program's own assertions are preconditions.
- The hooks of system calls and the descriptor manager are not part of this model: foreign calls.
- YAML conversions of configurations are not part of this model: they rest on a library.
- Memory order, spin locks, thread objects and backtraces are not part of this model.
- Starting a scheduler again after Stop, exceptions inside the idle coroutine, and overflow of the eventfd counter are not part of this model.
- Monitor ids, names of configuration variables, listing them, and level names from text are left out as easy members.
