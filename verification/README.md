# Threading_Library: a verified model

This project models the two halves of Threading_Library, a C threading library, in Dafny and proves what its code keeps in every run.

* **Many-one** (user-level threads on one kernel thread). `ThreadModel` is the library as a transition system: `thread_create`, the return of a start routine, `thread_exit`, the call, the wait loop and the end of `thread_join`, `thread_kill`, the scheduler (timer tick, `thread_yeild`, or the `raise` in `thread_exit`) and `cleanup`. A thread is named by the order of its allocation; its tid, status, waiter, pending signals and return value are what the C code stores, and its program point is kept beside them because the stored status does not tell whether a thread sits in the wait loop. `ThreadInvariant` proves the invariant of all reachable states, `RoundRobin` the refinement to plain round robin and bounded waiting, `JoinProtocol` what joins return and deliver, `Deadlock` which joins deadlock, `Signals` that posted signals are raised exactly once, `CallOutcomes` what `thread_create` and `thread_kill` return and which calls leave SIGALRM blocked, and `Progress` that waiting joins return and that a process can run to its exit exactly when nothing is deadlocked. `ThreadQueue` and `ThreadLibrary` are the linked queue and the library in place, over heap-allocated TCBs and nodes: each method takes the heap from showing one state of `ThreadModel` to showing the next, and `Process` drives them through any run.
* **One-one** (kernel threads). `LockModel` interleaves any number of threads at one access to shared memory per step, over the spinlock and the futex mutex of `lock.c`; `CounterModel` puts the workers of the two lock programs on top, with `c++` split into load and store. `LockLibrary` and `CounterTest` are the same in place. `ThreadList` is the doubly linked list of `dll.c`.
* **Matrix product** of `many-one/testfiles/matrix.c`: `MatrixProduct` lets the workers be preempted between any two accesses to the result.

A run is any sequence of enabled events (`Legal`, `After`); "every run" quantifies over all of them. Threads of the many-one library switch only at the scheduler, because library calls run with SIGALRM blocked; the flag `alarmBlocked` records which calls return with it still blocked. A library call is therefore one step, except that `thread_join` is its checks, each turn of its loop, and its end.

## Where the code differs from what it is for

* `thread_join` returns EDEADLK only when the target waits directly on the caller. `Deadlock.ThreeCycleReachable` gives a run in which three threads join one another and stay so for ever; `Deadlock.JoinDeadlocksExactly` states when a join deadlocks and `Deadlock.RunDeadlocksExactly` which runs do.
* `thread_create`, `thread_join` and `thread_kill` each have an error path that returns with SIGALRM still blocked; `CallOutcomes.LeavesBlockedExactly` says which. Sending a signal to oneself raises it and then returns EINVAL (`CallOutcomes.KillOutcome`).
* A thread that joins itself gets ESRCH, because it is not in the queue (`JoinProtocol.JoinOutcome`). A handle whose tid is -1 gets EDEADLK when nobody waits for the caller.
* A handle whose detach state is neither JOINABLE nor DETACHED makes `thread_join` return 0 at once, store nothing and record nobody, any number of times; `JoinProtocol.JoinedAtMostOnceExactly` says that no thread is joined with result 0 twice exactly when no such handle is used.
* FUTEX_WAIT is called with value 0, so a waiter of the mutex goes to sleep exactly when the mutex is free (`LockModel.SleepsExactlyWhenFree`); `LockModel.SleeperBesideFreeMutex` gives a run that leaves it asleep beside a free mutex, and `LockModel.SleepsUntilUnlock` says that it then sleeps until somebody calls unlock or its wait returns by itself.
* The spinlock stores UNLOCKED after it clears `flag`, so `lock_state` can read UNLOCKED while the lock is held (`LockModel.SpinStateCanDisagree`). `LockModel.SpinStateAgreesExactly` says when a holder is safe from it: exactly when no thread was between the two stores at its successful test-and-set.
* `removeNodeWithTid` does not unlink a lone node of the tid, follows the NULL `prev` of a lone node of another tid, and takes out the last of several nodes when the tid is absent (`ThreadList.RemoveFailures`); `ThreadList.RemoveMeetsIntent` says exactly when it does what it is for.

## Model

| member | source | states |
|---|---|---|
| ThreadModel.Search | many-one/library/queue.c:64-77 | the result is the first queued thread storing the tid, and none exactly when no queued thread stores it |
| ThreadInvariant.ScanFindsFirstReady | many-one/library/thread.c:114-128 | the rotating scan returns the first READY entry with the passed entries moved to the back; a failed scan leaves the queue in its original order |
| ThreadInvariant.ScheduleResult | many-one/library/thread.c:131-165 | a scheduler call resumes the first READY thread behind the requeued one, or finds none |
| ThreadInvariant.ScheduleThread | many-one/library/thread.c:131-165 | a scheduler call changes no thread's tid, waiter, value or creator, terminates or revives nobody, and moves only a dispatched new thread to its start |
| ThreadInvariant.WaiterFound | many-one/library/thread.c:232-236 | when an unfinished current thread records a waiter, that waiter is queued and READY and the tid search finds it, so the lookup in thread_exit never gives NULL |
| ThreadInvariant.ExitTouchesOnlyMe | many-one/library/thread.c:225-241 | thread_exit changes the exiting thread's record only; the write to the waiter stores the status it already has and revives nobody |
| ThreadInvariant.DecideMustWait | many-one/library/thread.c:244-277 | a join that waits has a queued target other than the caller, named by the handle, with no waiter yet and not itself waiting for the caller |
| ThreadInvariant.StepKeepsInv | many-one/library/thread.c:31-312 | every call, return, tick and clean-up keeps conservation and the join cross references |
| ThreadInvariant.ReachableInv | many-one/library/thread.c:55-312 | the invariant holds after every run from thread_init |
| ThreadInvariant.Conservation | many-one/library/thread.c:55-222 | in every reachable state the current thread and the queue hold each created thread exactly once, tids are 0 to thread_count - 1, queued threads are READY or TERMINATED, and thread_count is at most MAX_THREADS + 1 |
| ThreadInvariant.WaiterInvariant | many-one/library/thread.c:254-279 | a waiter recorded in an unfinished thread is a different, unfinished thread inside the wait loop on exactly that thread |
| ThreadInvariant.CleanupFreesEachOnce | many-one/library/thread.c:31-52 | from any reachable state, with or without a current thread, cleanup frees every TCB ever allocated exactly once, unmaps the stack of each queued thread exactly once, and leaves an empty queue and nothing that can happen |
| ThreadInvariant.WaitersArePreemptible | many-one/library/thread.c:238-289 | a thread inside thread_join or past thread_exit always has SIGALRM unblocked, so the scheduler can take over from it |
| RoundRobin.ReadyPop | many-one/library/thread.c:114-128 | with the queue filtered to READY threads, the scan pops the front, whatever other entries it rotates |
| RoundRobin.RoundRobinRefinement | many-one/library/thread.c:131-312 | each step of the library is one move of plain round robin (append the running thread if unfinished and take the first; spawn; stop) or leaves it alone |
| RoundRobin.RunRefinement | many-one/library/thread.c:131-312 | a whole run of the library is a run of plain round robin |
| RoundRobin.LineAdvances | many-one/library/thread.c:131-165 | in round robin the entry at position k is still in line, k minus the ticks so far, after at most k ticks |
| RoundRobin.BoundedWaiting | many-one/library/thread.c:114-165 | a READY thread with k READY threads ahead stays queued through the next k scheduler calls and is dispatched by exactly the next one, through any creates, exits, joins and kills, unless the process ends first |
| RoundRobin.LineIsShort | many-one/library/thread.c:184-185 | hence a READY thread runs within MAX_THREADS scheduler calls |
| RoundRobin.ExitsExactlyWhenAllDone | many-one/library/thread.c:152-162 | the scheduler reaches exit(0) exactly when every created thread, main included, is TERMINATED, and the queue then keeps its order |
| JoinProtocol.JoinOutcome | many-one/library/thread.c:244-276 | which of EDEADLK, ESRCH, EINVAL, 0 or waiting a join gets, for every handle; for a handle that is not detached and a valid tid EDEADLK exactly when the target is blocked joining the caller, ESRCH exactly for the caller itself |
| JoinProtocol.WaitEndsExactly | many-one/library/thread.c:278-289 | a turn of the wait loop changes nothing while the target is unfinished; once it is TERMINATED the turn leaves the loop, and the call stores the value if retval is not NULL, unblocks SIGALRM and returns, changing nothing else |
| JoinProtocol.NoMutualWait | many-one/library/thread.c:254-279 | no two threads wait on each other, and no thread has two waiters |
| JoinProtocol.TerminatedIsFinal | many-one/library/thread.c:113-165 | a TERMINATED thread is never dispatched again and its status and value never change |
| JoinProtocol.ResultsRecorded | many-one/library/thread.c:170-174 | over every run a thread produces one result, by return or thread_exit, and its TCB holds it from then on |
| JoinProtocol.JoinDeliversResult | many-one/library/thread.c:279-289 | a join that returns 0 after waiting has stored the one value its finished target returned or passed to thread_exit |
| JoinProtocol.ReturnsZeroExactly | many-one/library/thread.c:247-289 | a step makes a join on a thread return 0 exactly when it ends the wait for that thread, or is a call with an unset detach state for another thread that has no waiter and does not wait for the caller |
| JoinProtocol.JoinsAccounted | many-one/library/thread.c:247-289 | over every run the number of joins on a thread that returned 0, at once or after waiting, is the number of calls with an unset detach state plus one if its recorded waiter has left thread_join |
| JoinProtocol.JoinedAtMostOnce | many-one/library/thread.c:266-289 | in every run, whatever handles are used, at most one join on a thread waits and returns 0 |
| JoinProtocol.UnsetJoinsRepeat | many-one/library/thread.c:247-289 | wherever one call with an unset detach state returns 0, any number of repetitions of it do |
| JoinProtocol.JoinedAtMostOnceExactly | many-one/library/thread.c:247-289 | no run returns 0 from two joins on the same thread if and only if no handle with an unset detach state is used |
| Deadlock.DeadlockPersists | many-one/library/thread.c:278-279 | no step of any thread frees a member of a deadlocked set |
| Deadlock.DeadlockedForEver | many-one/library/thread.c:278-279 | a deadlocked set stays deadlocked in every continuation of the run |
| Deadlock.JoinDeadlocksExactly | many-one/library/thread.c:253-277 | a join that starts to wait creates a deadlock if and only if the target's chain of joins leads back to the caller; EDEADLK is returned exactly when that chain has length one |
| Deadlock.RunDeadlocksExactly | many-one/library/thread.c:253-279 | a run ends in a deadlock if and only if somewhere in it a join started to wait while its target's chain of joins led back to the caller |
| Deadlock.StuckExactlyWhenDeadlocked | many-one/library/thread.c:114-279 | in every reachable state with unfinished threads, nobody can proceed if and only if all unfinished threads are deadlocked together; without any deadlock one that can proceed is running or is dispatched within MAX_THREADS scheduler calls |
| Deadlock.ThreeCycleReachable | many-one/library/thread.c:253-279 | a run exists in which three threads join in a cycle and no call is refused |
| Deadlock.ParentsJoiningChildrenNeverDeadlock | many-one/library/thread.c:207-279 | if threads join only threads they created, waits-for follows creation order, no set is ever deadlocked, and while some thread is unfinished one exists that waits for no unfinished thread |
| Deadlock.ParentsJoiningChildrenProgress | many-one/library/thread.c:114-279 | under that discipline, while some thread is unfinished, one that nothing unfinished holds up is running or is dispatched within MAX_THREADS scheduler calls |
| Progress.JoinReturns | many-one/library/thread.c:114-289 | once its target has finished, a waiting thread with k READY threads ahead is back in thread_join at exactly the (k+1)-th scheduler call, through any steps of the others, and its next two steps deliver the target's value and return |
| Progress.JoinRoundTrip | many-one/library/thread.c:178-289 | for every value a run from thread_init exists in which a thread is created and joined, passes the value to thread_exit, and its creator gets it back and returns to user code |
| Progress.CanExitExactly | many-one/library/thread.c:114-289 | from a state of a run some continuation reaches exit(0) with every thread TERMINATED if and only if no set of threads is deadlocked |
| CallOutcomes.EverythingPossible | many-one/library/thread.c:178-312 | from user code every call is possible whatever came before, a thread returns from its start routine unless it is main, and the timer interrupts exactly while SIGALRM is not blocked |
| CallOutcomes.CreateOutcome | many-one/library/thread.c:178-222 | a create returns 0 exactly when both pointers are given and at most MAX_THREADS threads exist, and then adds one READY thread at the end of the queue; otherwise it is EAGAIN and adds nothing |
| CallOutcomes.CreatedCanBeJoined | many-one/library/thread.c:203-279 | joining the handle of a successful create waits for the thread just created |
| CallOutcomes.ThreadCountsPossible | many-one/library/thread.c:184-216 | a run with n threads exists if and only if n is 1 to MAX_THREADS + 1 |
| CallOutcomes.KillOutcome | many-one/library/thread.c:293-312 | a kill returns 0 exactly for a signal number and another existing thread, at which a positive signal is then pending; otherwise EINVAL; it raises exactly for the caller's own tid and touches nothing else |
| CallOutcomes.LeavesBlockedExactly | many-one/library/thread.c:178-312 | SIGALRM is left blocked by a refused create, a join that returns ESRCH and a kill with a bad number, and by nothing else |
| Signals.ResumeDelivers | many-one/library/thread.c:134-149 | a resumption out of setjmp raises exactly the pending signals, in strictly ascending order, and empties the set; a first dispatch raises nothing |
| Signals.KillAccount | many-one/library/thread.c:293-312 | a kill raises for the caller, posts to another thread, or coalesces with a pending signal, and does nothing else to any account |
| Signals.SignalConservation | many-one/library/thread.c:134-312 | in every run and for every number, each signal posted to a thread, repeats while pending counted once, has been raised exactly once or is still pending, and nothing else is raised |
| Signals.NothingElseRaised | many-one/library/thread.c:134-312 | in every run no number outside 1 to 64 is ever raised or pending |
| Signals.DeliveredBySecondDispatch | many-one/library/thread.c:134-149 | a pending signal stays pending until its thread resumes out of setjmp, at its next dispatch or at the second if it had not started |
| ThreadQueue.Queue.InitQueue | many-one/library/queue.c:3-11 | an initialised queue is empty and well formed |
| ThreadQueue.Queue.Enqueue | many-one/library/queue.c:14-32 | appends the thread at the end, keeping tail the last node reachable from head and count the length |
| ThreadQueue.Queue.Dequeue | many-one/library/queue.c:35-53 | returns and removes the oldest thread, or NULL exactly on the empty queue, keeping head and tail NULL together |
| ThreadQueue.Queue.IsEmpty | many-one/library/queue.c:56-61 | true exactly when the queue holds no thread |
| ThreadQueue.Queue.SearchWithTid | many-one/library/queue.c:64-77 | returns the first thread with the tid, or NULL exactly when absent |
| ThreadQueue.FifoOrder | many-one/library/queue.c:14-53 | over any operations the threads taken out followed by those still held are the threads put in, in order |
| ThreadQueue.RunOps | many-one/library/queue.c:14-53 | the linked queue behaves as that FIFO through any run of operations |
| ThreadLibrary.Library.ThreadInit | many-one/library/thread.c:55-86 | the heap shows the initial state with main as thread 0 |
| ThreadLibrary.Library.ThreadCreate | many-one/library/thread.c:178-222 | heap and result are those of the create step, the three EAGAIN cases included |
| ThreadLibrary.Library.NextReadyThread | many-one/library/thread.c:114-128 | the dequeue and enqueue loop on linked nodes computes the scan of the model |
| ThreadLibrary.Library.RaisePending | many-one/library/thread.c:141-146 | the loop over signal numbers raises the pending ones in ascending order and clears them |
| ThreadLibrary.Library.Scheduler | many-one/library/thread.c:131-167 | takes the heap from showing a state to showing its scheduler step |
| ThreadLibrary.Library.ThreadExit | many-one/library/thread.c:225-241 | takes the heap from showing a state to showing its exit step |
| ThreadLibrary.Library.CheckJoin | many-one/library/thread.c:247-270 | the error checks on the linked queue decide as the model does and find the target's TCB |
| ThreadLibrary.Library.ThreadJoin | many-one/library/thread.c:244-277 | takes the heap to the join step and returns the decided code |
| ThreadLibrary.Library.JoinPolls | many-one/library/thread.c:279 | the loop condition sees exactly whether the target is TERMINATED and changes nothing |
| ThreadLibrary.Library.JoinCollects | many-one/library/thread.c:280-289 | stores the target's value through retval when it is not NULL |
| ThreadLibrary.Library.ThreadKill | many-one/library/thread.c:293-312 | heap, raises and result are those of the kill step |
| ThreadLibrary.Library.Cleanup | many-one/library/thread.c:31-52 | frees the TCBs in the order of the model and empties the queue |
| ThreadLibrary.CallsAreSafe | many-one/library/thread.c:225-241 | every reachable state meets what the methods ask of their callers, the non-NULL waiter included |
| Process.Process.Perform | many-one/library/thread.c:114-312 | one event performed on the linked library, with the local variables of joining threads, shows the next state |
| Process.RunEvents | many-one/library/thread.c:55-312 | through every run of calls, returns and interrupts the heap shows the state of the transition system |
| LockModel.StepKeepsInv | one-one/library/lock.c:40-192 | every access of every thread keeps exclusion and the meaning of flag and pid; flag 1 means some thread holds the lock |
| LockModel.MutualExclusion | one-one/library/lock.c:40-192 | for both locks and any number of threads calling lock and unlock in any order: at most one holder, a stored pid is the holder's, flag 0 means no thread's pid is stored |
| LockModel.AcquiresExactlyWhenFree | one-one/library/lock.c:49-103 | the acquiring exchange of either lock succeeds exactly when no thread holds it, and then gives it to the caller alone; where it fails the spinlock repeats it and the mutex goes on to FUTEX_WAIT |
| LockModel.UnlockWakesOne | one-one/library/lock.c:115-118 | the FUTEX_WAKE of an unlock wakes exactly one sleeper when there is one and disturbs nobody else |
| LockModel.UnlockCheckIsExact | one-one/library/lock.c:183-186 | the owner check passes exactly for the holder; any other caller gets EINVAL and the lock is untouched |
| LockModel.ReleaseNeverFails | one-one/library/lock.c:110-115 | the releasing exchange of thread_wake always finds 1 and leaves nobody holding |
| LockModel.MutexFields | one-one/library/lock.c:157-192 | from a properly initialised mutex, flag 0 means pid -1 and UNLOCKED, and the holder has it LOCKED exactly from its store of LOCKED to its store of UNLOCKED |
| LockModel.SleepsExactlyWhenFree | one-one/library/lock.c:97-103 | FUTEX_WAIT puts a waiter to sleep if and only if flag is 0, and then nobody holds the mutex |
| LockModel.WaiterTriesAgain | one-one/library/lock.c:94-106 | however FUTEX_WAIT returns, by EAGAIN, a wake-up or by itself, and whatever the others do meanwhile, the waiter's next access is the exchange: it then holds the mutex if nobody does, and is back at FUTEX_WAIT otherwise |
| LockModel.LockThenUnlock | one-one/library/lock.c:40-192 | without contention a lock call and an unlock call return 0, the first leaves the caller's pid and LOCKED, and the second restores the free lock and wakes a sleeper if there is one |
| LockModel.SleeperBesideFreeMutex | one-one/library/lock.c:91-120 | a run exists that leaves a waiter asleep with the mutex free and everybody else in user code |
| LockModel.SleepsExactlyUntilWoken | one-one/library/lock.c:91-120 | a sleeper sleeps through exactly the runs in which no FUTEX_WAKE picks it and its FUTEX_WAIT does not return by itself |
| LockModel.SleepsUntilUnlock | one-one/library/lock.c:91-192 | once no thread is inside unlock, a sleeper sleeps through every run without a call of unlock and a spurious return, whoever calls lock |
| LockModel.SpinStateCanDisagree | one-one/library/lock.c:75-77 | a run exists in which a thread holds the spinlock while lock_state is UNLOCKED |
| LockModel.SpinStateAgreesExactly | one-one/library/lock.c:49-77 | lock_state reads LOCKED from the holder's store of it to the release, in every continuation of a successful test-and-set, if and only if no thread was between its clearing of flag and its store of UNLOCKED |
| LockLibrary.LockSystem.Step | one-one/library/lock.c:40-192 | one access performed on the fields in memory is the step of the model |
| LockLibrary.LockSystem.RunTurns | one-one/library/lock.c:40-192 | under any schedule the fields follow the model and no two threads hold the lock |
| CounterModel.NextKeepsInv | one-one/testfiles/mutextest.c:14-21 | every step of a worker, over either lock, keeps the counter equal to the private counters plus the stores not yet counted |
| CounterModel.NoLostUpdates | one-one/testfiles/mutextest.c:14-99 | for any number of workers and any interleaving the shared counter is the sum of the private ones plus the workers between their store and their private increment, and equal when all have stopped |
| CounterModel.UnlockNeverRefused | one-one/testfiles/spinlocktest.c:14-21 | no worker's unlock is ever refused |
| CounterModel.PassesCounted | one-one/testfiles/mutextest.c:14-21 | over every run a worker's private counter is the number of passes it completed, and each pass made exactly one lock call and one unlock call |
| CounterModel.TestExactly | one-one/testfiles/mutextest.c:15 | while run is 1 a worker at its loop condition enters the lock call, and otherwise it leaves the loop and touches nothing |
| CounterModel.NobodyStopsEarly | one-one/testfiles/mutextest.c:15-79 | in every run no worker leaves its loop before main stores 0 to run |
| CounterModel.AtMostOnePassMore | one-one/testfiles/mutextest.c:14-79 | once run is 0 no worker calls lock again, and each completes at most the pass it is in |
| CounterModel.TestCanPass | one-one/testfiles/mutextest.c:79-97 | from every point of every run some continuation ends with all workers out of their loops and the final check satisfied |
| CounterTest.Test.Step | one-one/testfiles/spinlocktest.c:14-21 | one step of a worker in place is the step of the model |
| CounterTest.Test.Total | one-one/testfiles/mutextest.c:93 | adds up the private counters |
| CounterTest.Test.RunTest | one-one/testfiles/spinlocktest.c:62-99 | under any schedule the final comparison succeeds once every worker has left its loop |
| MatrixProduct.DotLinear | many-one/testfiles/matrix.c:44-46 | the entries the workers compute are linear in the second matrix |
| MatrixProduct.TimesUnit | many-one/testfiles/matrix.c:38-108 | a matrix multiplied by the unit matrix is itself |
| MatrixProduct.RowSplitBalanced | many-one/testfiles/matrix.c:75-93 | three workers from three rows on, the first two with equally many rows and the last with at most two more, otherwise one |
| MatrixProduct.EachRowOnce | many-one/testfiles/matrix.c:75-93 | the row split gives each row to exactly one worker |
| MatrixProduct.Product.FreshWork | many-one/testfiles/matrix.c:41-48 | the whole computation is one store and two accesses per term for each cell of the result |
| MatrixProduct.Product.constructor | many-one/testfiles/matrix.c:95-104 | workers on a partition of the rows start in a valid state whatever the result holds |
| MatrixProduct.Product.Access | many-one/testfiles/matrix.c:41-48 | one access of a worker keeps its finished cells and partial sum right and touches no other row |
| MatrixProduct.Product.Step | many-one/testfiles/matrix.c:38-51 | an access of any worker keeps all workers right and takes one from the total work |
| MatrixProduct.Product.DoneIsProduct | many-one/testfiles/matrix.c:38-51 | when all workers are done the result is the product, whatever it held at first |
| MatrixProduct.Product.RunAll | many-one/testfiles/matrix.c:95-108 | under every order of accesses the workers finish after a fixed number of them and leave the product |
| MatrixProduct.Multiply | many-one/testfiles/matrix.c:68-108 | refuses exactly the pairs with A.y different from B.x and otherwise returns the product, after that many accesses |
| MatrixProduct.Mult | many-one/testfiles/matrix.c:38-51 | the three loops fill the given rows with the product and leave the others |
| ThreadList.RemoveMeetsIntent | one-one/library/dll.c:28-70 | the call returns and leaves the list without its first node of the tid if and only if the list is empty, or has at least two nodes and holds the tid |
| ThreadList.WithoutOne | one-one/library/dll.c:44-60 | taking out one node leaves all others in their order: putting its block back restores the list |
| ThreadList.RemoveFailures | one-one/library/dll.c:35-68 | a lone node of the tid stays, an absent tid costs the last of several nodes, and the call crashes exactly on a lone node of another tid |
| ThreadList.RemoveUndoesAdd | one-one/library/dll.c:4-51 | on a list that is not empty, removing the tid just added restores it |
| ThreadList.List.Add | one-one/library/dll.c:4-17 | puts a new node in front, keeping prev and next mutually inverse |
| ThreadList.List.IsEmpty | one-one/library/dll.c:20-24 | true exactly on the empty list |
| ThreadList.List.RemoveFromMany | one-one/library/dll.c:44-68 | on two nodes or more, unlinks and returns the first node of the tid, or the last node, keeping prev and next mutually inverse |
| ThreadList.List.RemoveNodeWithTid | one-one/library/dll.c:28-70 | whether the call crashes, the resulting list and the returned node, for every list and tid |
| ThreadList.List.GetNodeUsingTid | one-one/library/dll.c:74-93 | returns the node of the first block with the tid, or NULL exactly when absent |
| ThreadList.List.GetNodeUsingPid | one-one/library/dll.c:96-114 | returns the node of the first block with the pid, or NULL exactly when absent |
| ThreadList.AddThenRemove | one-one/library/dll.c:4-51 | the linked list is restored by adding a block and removing its tid |

## Left out

- Waking of mutex waiters: no claim is made that a sleeper ever wakes up, since it need not.
- TestCanPass: says that the test can finish, not that it must; where a sleeper has nobody left to wake it, the continuation uses a spurious return of FUTEX_WAIT.
- `getNodeUsingTid` and `getNodeUsingPid` return the address of the block inside a node; the model returns the node.
- BoundedWaiting: counts scheduler calls, not time; a call that returns with SIGALRM blocked delays the next timer tick until the caller makes another library call.
- one-one/library/thread.c: `clone`, `waitpid`, `kill` and `mmap`, and tids that are reused after a join.
- The library-internal `lock` and `unlock` of one-one/library/lock.c, whose loop repeats while its exchange succeeds and so never waits.
- many-one/library/lock.c, whose owner check compares one process id that all user threads share.
- Init and destroy of the locks: init fills a fresh allocation and not the caller's object, so the proofs start from flag 0 and a pid that is no thread's.
- `cleanup_queue` and `print_queue` of many-one/library/queue.c, which the library does not use.
- Stack set-up, pointer mangling, `setjmp` and `longjmp` register contents, timers and `sigaction`: a dispatch is a change of the current thread.
- Signal handlers that call back into the library, `thread_sigmask`, signal numbers the C library reserves, and signals whose default action ends the process.
- Printing, file reading and the exits on memory exhaustion.
- Overflow of C integers in counters and matrix entries; the locks assume sequentially consistent memory.
