# Verification of the concurrent protocols and in-place algorithms

This project models the hand-written concurrent protocols and in-place algorithms of the
course repository in Dafny and proves what they do, and exactly when they fail. Run
`dafny verify dfyconfig.toml` to check everything.

| file | models |
|---|---|
| `SleepLock.dfy` | the futex sleep lock |
| `SleepLockMain.dfy` | the sleep lock as its `main` uses it, one call per thread |
| `SpinLock.dfy` | the compare-exchange spin lock |
| `AbstractLock.dfy` | the specification both locks implement |
| `RaceCounter.dfy`, `ExactCounters.dfy` | the racy, the mutex-protected and the atomic counter |
| `SpinBarrier.dfy`, `SleepBarrier.dfy` | the two barriers of lab02 |
| `FifoScheduler.dfy` | the layout of threads on cores, and both barriers under SCHED_FIFO |
| `WorkDispatch.dfy` | barrier plus round-robin picking, as one system |
| `Handshake.dfy` | the leader/follower handshake over shared memory |
| `Quicksort.dfy` | the randomised in-place quicksort |
| `MatrixMultiply.dfy` | the serial and the parallel matrix multiply |
| `MessageServer.dfy` | the receive loop with a reused, growing buffer |
| `ProcessTree.dfy` | the recursive process tree |
| `ThreadSets.dfy`, `Sums.dfy`, `Arithmetic.dfy` | cardinalities, sums and products used by the invariants |

## How to read the models

Each protocol has a `State` (the shared variables and, for each thread, its program counter and
registers), a function `Step` that executes one atomic instruction or system call of one thread,
and a function `Exec` that runs a whole schedule. A schedule is an arbitrary sequence of events, so
a lemma about `Exec(Init(n), sched)` for every `sched` speaks about every interleaving of any number
of threads; a thread that cannot move leaves the state unchanged. The class at the end of each
module is the code itself, updating its variables in place, and its methods are proved to do
exactly what `Step` and `Exec` say.

Assumptions that hold throughout: memory is sequentially consistent; each shared access is one
step, and `x++` on a shared variable is a load and a separate store; threads may call the locks and
the spin barrier any number of times. An integer is unbounded unless its width matters: the
generation counter of the spin barrier wraps at 2^32, sizes and the swap temporary are unsigned 32-bit,
and for the lock word and the counters a lemma gives the bounds that keep an `int` from overflowing.

## What the proofs found

- Sleep lock: mutual exclusion always holds, but the store of -1 at line 36 can land when nobody owns
  the lock, as soon as two threads use it (`CanBeLostIff`). From then on nobody ever takes it again;
  without such a store every sleeper has somebody bound to wake it. A run can indeed end with sleepers
  that nobody will wake, from two threads on (`CanHangIff`). `SettledRunReturnsIff` and
  `CanAcquireIff` are the exact conditions. With one call per thread, as in `main`, every fair schedule
  lets all callers return exactly when no such store happens (`FairRunReturnsIff`).
- Spin lock: the code passes the weak flag to the compare-exchange. A holder reaches the error exit of
  `unlock` exactly when that exchange fails spuriously (`ErrorExitIffSpurious`), which can happen with a
  single thread (`CanFailToReleaseIff`).
- Racy counter: the final values are exactly 2, 3, ..., n * m (`AttainableIff`).
- Barriers: the claims of `lab02/readme.txt` about SCHED_FIFO hold in the model. The spin barrier can
  open exactly when no core has two threads (`CanOpenIff`), and then every fair run brings all threads
  through it (`FairRunPassesIff`); the sleep barrier always opens (`EveryMaximalRunPasses`). Under any schedule that keeps giving turns to all threads, as SCHED_RR does,
  the spin barrier keeps opening too (`FairSchedulesPass`).
- Barrier and dispatch: what holds before the first pick is that all threads have *reached* the barrier,
  as the readme says; some of them may still be inside it. Every run of the whole system ends with all
  rounds done (`EveryMaximalRunFinishes`).
- Handshake: safe from any contents of the segment, but from any contents it can also hang: each of the
  three resets can come after the peer's signal and overwrite it (`EachResetCanOverwrite`, `CanHang`). It
  finishes exactly when none does (`MaximalRunFinishesIff`, `CanFinishIff`).
- Quicksort: the temporary of `swap` is `unsigned`, so a swap keeps the entries exactly when its first
  operand is a whole number (`SwapExchangesIff`); results of `rand()` are.
- Matrix multiply: the size check accepts 65536, whose unsigned square wraps to zero, and sizes whose
  number of bytes wraps in a `size_t`. With 32 bits, as on the ARM boards, the safe sizes are those up to
  23170 (`AllCellsAllocated32Iff`); with 64 bits only 65536 is unsafe (`AllCellsAllocated64Iff`).
- Server: a message with a NUL is printed and recognised correctly whatever the buffer held before. One
  without is printed correctly exactly when the last earlier message long enough to reach the place
  behind it left a NUL there, or without such a message the memory held one (`EachPrintedIff`).
- The comment in `sort.c` says that the entries before the pivot are less than it; the code, and the
  proof, have less than or equal. In `lab02/src/main.c` the sleep barrier is declared under one macro
  (line 32) and used under another (line 175); the model takes both as defined.

## Model

| member | source | states |
|---|---|---|
| SleepLock.StepKeepsInv | studio11/sleeplock.c:28-66 | every instruction keeps the invariant, and the lock becomes lost only by a store of -1 without an owner |
| SleepLock.MutualExclusion | studio11/sleeplock.c:28-66 | two threads are never both between the acquiring subtraction and the releasing write, and the word is not positive meanwhile; spurious wake-ups included |
| SleepLock.WordInRange | studio11/sleeplock.c:33-36 | with p threads between lines 33 and 36 the word lies in [-1-p, 1], and p is at most n |
| SleepLock.LostIffBadStore | studio11/sleeplock.c:36 | the lock is without owner and untakable exactly when a store of -1 found no owner earlier in the run |
| SleepLock.LostForEver | studio11/sleeplock.c:28-49 | after that no continuation has an owner or a thread about to acquire |
| SleepLock.CanBeLostIff | studio11/sleeplock.c:33-59 | some run contains a store of -1 without an owner if and only if at least two threads use the lock |
| SleepLock.AllPendingNeverAcquires | studio11/sleeplock.c:33-37 | with every thread at line 36 no continuation acquires either |
| SleepLock.FallsAsleepIff | studio11/sleeplock.c:36-37 | a caller that has executed line 36 is put to sleep by line 37 if and only if the word still is what it stored, whatever the others did in between |
| SleepLock.WokenRetries | studio11/sleeplock.c:33-41 | whoever leaves the kernel, woken or not, goes straight to the subtraction, which takes the lock if and only if the word is positive |
| SleepLock.CanSleepIff | studio11/sleeplock.c:28-49 | somebody sleeps in some run if and only if at least two threads use the lock |
| SleepLock.LostCallersCanSleep | studio11/sleeplock.c:28-49 | from every reachable state of a lost lock some continuation ends with everybody that is in lock() asleep and nothing left to happen |
| SleepLock.CanHangIff | studio11/sleeplock.c:28-66 | a run can end with sleepers that nobody is going to wake if and only if at least two threads use the lock |
| SleepLock.SettledMovesIff | studio11/sleeplock.c:28-66 | in a settled state exactly a new call or a spurious wake-up of a sleeper changes anything |
| SleepLock.UncontendedRoundTrip | studio11/sleeplock.c:28-66 | without contention lock() and unlock() take three instructions, make no system call and restore the state |
| SleepLock.CanAcquireIff | studio11/sleeplock.c:28-66 | some continuation acquires the lock if and only if it is not lost and some thread is not at line 36 |
| SleepLock.SleeperHasWaker | studio11/sleeplock.c:36-37 | in a run without a bad store, a sleeping thread implies a thread that is certain to reach the wake |
| SleepLock.WakeIsBound | studio11/sleeplock.c:56-63 | in every continuation that gives that thread its remaining turns, at some moment nobody is asleep |
| SleepLock.SettledRunReturnsIff | studio11/sleeplock.c:28-66 | a run in which nothing but new calls can happen has let every caller return if and only if it contained no bad store |
| SleepLockMain.OpenIsTaken | studio11/sleeplock.c:28-49 | while nobody has the lock and nobody sleeps, a caller with turns left means that somebody takes it, unless a bad store comes |
| SleepLockMain.OneMoreReturns | studio11/sleeplock.c:28-66 | two stretches that give every thread three turns each let at least one more caller return, unless a bad store comes |
| SleepLockMain.FairRunReturnsIff | studio11/sleeplock.c:78-92 | with one call per thread, 2n such stretches let all n callers return if and only if they contain no bad store |
| SleepLock.RefinesAbstractLock | studio11/sleeplock.c:28-66 | every run is a legal history of the abstract lock, with the same owner at the end |
| SleepLock.Futex.Instruction | studio11/sleeplock.c:28-66 | the statements of lock and unlock, on the shared word, do what the step function says |
| SleepLock.Futex.WakeSleepers | studio11/sleeplock.c:63 | exactly the sleepers leave the kernel |
| SleepLock.Futex.RunSchedule | studio11/sleeplock.c:78-92 | running any schedule in place gives the state of Exec, with at most one holder |
| AbstractLock.AcquisitionsAlternate | studio11/sleeplock.c:53-54 | in a legal history, between two acquisitions the first acquirer has released the lock |
| SpinLock.StepKeepsInv | studio11/spinlock.c:23-53 | every instruction keeps the invariant; only a spurious failure in unlock leads to the error exit |
| SpinLock.MutualExclusion | studio11/spinlock.c:23-53 | two threads never hold the lock together, and the word is LOCK while it is held |
| SpinLock.ErrorExitIffSpurious | studio11/spinlock.c:46-51 | some thread is at the error exit if and only if an exchange in unlock failed spuriously; never with a strong exchange |
| SpinLock.CanFailToReleaseIff | studio11/spinlock.c:46-51 | some run reaches that failure if and only if at least one thread uses the lock |
| SpinLock.AcquiresIff | studio11/spinlock.c:29 | in every reachable state the exchange of lock() takes the lock if and only if nobody holds it and it does not fail spuriously |
| SpinLock.RetryRoundTrip | studio11/spinlock.c:29-35 | a failed exchange reports the word it found, and the reset brings its thread back to where it was |
| SpinLock.UncontendedRoundTrip | studio11/spinlock.c:23-53 | without contention lock() and unlock() take three instructions and restore the state |
| SpinLock.ExitIsFinal | studio11/spinlock.c:47-51 | the error exit ends the whole process: nothing happens after it |
| SpinLock.CanAcquireIff | studio11/spinlock.c:29-35 | some continuation acquires the lock if and only if no unlock has failed spuriously |
| SpinLock.RefinesAbstractLock | studio11/spinlock.c:23-53 | every run, spurious failures included, is a legal history of the abstract lock |
| SpinLock.Word.CompareExchange | studio11/spinlock.c:29 | the atomic builtin: the word changes exactly on success, and a failure reports the value found |
| SpinLock.Word.Instruction | studio11/spinlock.c:23-53 | the statements of lock and unlock, on the shared word, do what the step function says |
| SpinLock.Word.RunSchedule | studio11/spinlock.c:65-79 | running any schedule in place gives the state of Exec, with at most one holder |
| RaceCounter.StepKeepsInv | studio10/multi_race/main.c:19-22 | a load or a store keeps: the value is at most the number of stores, and 2 at least once all threads are done |
| RaceCounter.NeverAboveStores | studio10/multi_race/main.c:11-22 | at any time the value lies between 0 and the number of completed stores, at most n * m |
| RaceCounter.FinalBounds | studio10/multi_race/main.c:11-22 | every interleaving of n threads with m rounds ends between 2 and n * m |
| RaceCounter.Advance | studio10/multi_race/main.c:19-22 | undisturbed increments reach any target and none is lost |
| RaceCounter.Attain | studio10/multi_race/main.c:19-22 | a schedule with two overwriting stores reaches x + 2 plus the increments held back |
| RaceCounter.AttainableIff | studio10/multi_race/main.c:11-22 | for n, m >= 2 a value is the final value of some schedule if and only if it lies between 2 and n * m |
| RaceCounter.Race.Access | studio10/multi_race/main.c:21 | one memory access of race++ in place is one step |
| RaceCounter.Race.RunSchedule | studio10/multi_race/main.c:13-28 | any schedule run in place that finishes all threads leaves a value between 2 and n * m |
| AbstractCounter.NextKeepsExact | studio10/multi_atomic/main.c:19-22 | an indivisible increment keeps the value equal to the number of completed increments |
| AbstractCounter.ExactWhenFinished | studio10/multi_atomic/main.c:19-22 | the value is n * m if and only if all n threads have completed m increments |
| MutexCounter.StepRefines | studio10/multi_mutex/main.c:21-26 | each lock, load, store or unlock step is an abstract increment or invisible, and keeps the invariant |
| MutexCounter.ExactCount | studio10/multi_mutex/main.c:15-32 | in every reachable state the value counts the completed stores, and it is n * m exactly when all have finished |
| MutexCounter.Progress | studio10/multi_mutex/main.c:21-26 | until then some thread can move, and every move brings the remaining steps down by one |
| MutexCounter.Module.Instruction | studio10/multi_mutex/main.c:21-26 | the loop body in place does what the step function says |
| AtomicCounter.StepRefines | studio10/multi_atomic/main.c:19-22 | an atomic addition is an abstract increment, and a turn is one exactly when its thread has rounds left |
| AtomicCounter.ExactCount | studio10/multi_atomic/main.c:13-28 | in every reachable state the value counts the completed additions, and it is n * m exactly when all have finished |
| AtomicCounter.TurnAdds | studio10/multi_atomic/main.c:19-22 | after any run, a turn of a thread that had fewer than m turns raises the counter by one |
| AtomicCounter.CompleteIffTurns | studio10/multi_atomic/main.c:13-28 | the counter ends at n * m if and only if every thread had at least m turns |
| AtomicCounter.Module.RunSchedule | studio10/multi_atomic/main.c:13-28 | any schedule run in place ends with n * m exactly when all threads have finished, that is, had at least m turns |
| SpinBarrier.StepKeepsInv | lab02/src/main.c:43-64 | every memory access keeps the invariant: who has arrived is what gs32bar counts, and one thread at most resets |
| SpinBarrier.NobodyLeavesEarly | lab02/src/main.c:43-64 | no thread has returned more often than any other has arrived |
| SpinBarrier.RoundsStayClose | lab02/src/main.c:43-64 | the numbers of returns of two threads differ by at most one |
| SpinBarrier.WaiterReleasedExactly | lab02/src/main.c:45-60 | a waiter is at most one generation behind, and its loop ends exactly when its own round is complete, although gs32passed wraps |
| SpinBarrier.PassedCountsRounds | lab02/src/main.c:53 | gs32passed is the number of completed rounds if and only if that is less than 2^32, and always modulo 2^32 |
| SpinBarrier.OneResetPerRound | lab02/src/main.c:47-53 | the executions of the reset are those of rounds 0, 1, 2, ..., each exactly once |
| SpinBarrier.SomebodyMoves | lab02/src/main.c:43-64 | with all threads inside the barrier one of them can move |
| SpinBarrier.RoundCompletes | lab02/src/main.c:43-64 | two stretches of a schedule that give every thread three turns each complete a round, from any reachable state |
| SpinBarrier.FairSchedulesPass | lab02/readme.txt:56 | under every schedule that keeps giving turns to all threads, as SCHED_RR does, every thread returns at least r times after 2r + 2 such stretches |
| SpinBarrier.Barrier.Access | lab02/src/main.c:43-64 | the statements of barrier_wait, on the shared variables, do what the step function says |
| SpinBarrier.Barrier.RunSchedule | lab02/src/main.c:43-64 | running any schedule in place gives the state of Exec, and no return is ahead of an arrival |
| SleepBarrier.StepKeepsInv | lab02/src/main.c:176-189 | every instruction and spurious wake-up keeps the invariant: gs32remain counts who has not decremented, waiters have a broadcast coming, blocked threads a locker |
| SleepBarrier.NobodyPassesEarly | lab02/src/main.c:176-189 | no thread is past the wait before all n have decremented, spurious wake-ups included |
| SleepBarrier.WaiterHasPendingBroadcast | lab02/src/main.c:177-188 | after the last decrement a waiting thread implies one about to broadcast |
| SleepBarrier.RunDecreases | lab02/src/main.c:176-189 | every instruction that changes anything decreases the measure |
| SleepBarrier.RunsAreFinite | lab02/src/main.c:176-189 | a run has at most n(8+5n) effective instructions, plus five per spurious wake-up |
| SleepBarrier.SomebodyRunnable | lab02/src/main.c:176-189 | while a thread has not passed, some thread is not blocked |
| SleepBarrier.MaximalRunPassesAll | lab02/src/main.c:176-189 | a run cannot be continued if and only if all n threads are past the barrier |
| SleepBarrier.EveryRunCanPass | lab02/src/main.c:176-189 | every run can be continued until all n threads are past the barrier |
| SleepBarrier.SpuriousRoundTrip | lab02/src/main.c:184-187 | a waiter that wakes up for no reason finds the count unchanged and waits again, and the free barrier is as it was |
| SleepBarrier.Barrier.Instruction | lab02/src/main.c:176-189 | the statements of the block, on the shared variables, do what the step function says |
| SleepBarrier.Barrier.Signal | lab02/src/main.c:180 | exactly the threads waiting on the condition variable are woken |
| Layout.Create | lab02/src/main.c:323-351 | the creation loops pin slot t to the core of its column and give it the priority of its row |
| Layout.CreateRow | lab02/src/main.c:325-350 | the inner loop fills exactly one row and leaves the earlier ones |
| Layout.SlotOf | lab02/src/main.c:327 | slot i * p + j has row i and core j |
| Layout.SlotIsUnique | lab02/src/main.c:327 | every slot is i * p + j for its own row and core, so every core gets one thread per row |
| FifoSpin.StepKeepsInv | lab02/src/main.c:323-351 | under FIFO only the first thread of each core ever runs |
| FifoSpin.NeverOpens | lab02/readme.txt:55 | with two or more threads per core the spin barrier never opens, in any run |
| FifoSpin.CanOpenIff | lab02/readme.txt:54-55 | some run under FIFO opens the spin barrier if and only if there is one thread per core |
| FifoSpin.FirstInFirstOut | lab02/readme.txt:55 | in every reachable state and for every event: only the running thread leaves its queue, exactly when it executes after having left the barrier; the others keep their order and newcomers line up behind |
| FifoSpin.RunsTheBarrier | lab02/src/main.c:43-64 | with one thread per core, until the barrier opens a run under FIFO is a run of the barrier alone, with the cores as schedule |
| FifoSpin.TurnsLetGo | lab02/src/main.c:58-60 | once it is open, every thread leaves on its next turn |
| FifoSpin.FairRunPassesIff | lab02/readme.txt:54-55 | once all threads are created, three stretches in which every core executes three instructions bring all of them through if and only if there is one thread per core |
| FifoSleep.StepKeepsInv | lab02/src/main.c:323-351 | each queue holds exactly the created, runnable threads of its core, in any wake-up order |
| FifoSleep.FirstInFirstOut | lab02/readme.txt:55 | in every reachable state and for every event: a running thread that can go on stays at the head; only the running thread leaves, exactly when it blocks or is past the barrier; the others keep their order and newcomers line up behind |
| FifoSleep.StepDecreases | lab02/src/main.c:176-189 | every event that changes anything decreases the measure |
| FifoSleep.EveryMaximalRunPasses | lab02/readme.txt:56 | under FIFO, for any number of threads per core, runs with the sleep barrier are bounded, and those that cannot be continued are exactly those with all threads past it |
| WorkDispatch.StepKeepsInv | lab02/src/main.c:176-215 | every instruction of barrier and pick loop keeps the invariant |
| WorkDispatch.NoPickBeforeAllArrive | lab02/src/main.c:174-214 | no index is picked before all n threads have decremented at the barrier |
| WorkDispatch.RoundRobin | lab02/src/main.c:206-207 | the i-th pick overall gets index i mod cnt |
| WorkDispatch.WorksOnItsPick | lab02/src/main.c:206-214 | after a round the thread has the cabin entry of its own latest pick |
| WorkDispatch.CabinInBounds | lab02/src/main.c:214 | every read of the cabin is inside it |
| WorkDispatch.FairUse | lab02/src/main.c:197-214 | after T picks index j has been used (T + cnt - 1 - j) / cnt times |
| WorkDispatch.FinalIndex | lab02/src/main.c:197-223 | when all rounds are done, n * rounds indices have been picked and the shared index is n * rounds mod cnt |
| WorkDispatch.SomebodyMoves | lab02/src/main.c:176-223 | until all rounds are done some event moves the system |
| WorkDispatch.StepDecreases | lab02/src/main.c:176-215 | every instruction of barrier and rounds that changes anything decreases the measure |
| WorkDispatch.EveryMaximalRunFinishes | lab02/src/main.c:176-223 | a run has at most n(8+5n) + 6n * rounds effective instructions, plus five per spurious wake-up; it cannot be continued if and only if all threads passed the barrier and did all rounds, and then n * rounds indices have been picked |
| WorkDispatch.EveryRunCanFinish | lab02/src/main.c:176-223 | every run can be continued until all rounds are done and n * rounds indices picked |
| WorkDispatch.Dispatcher.Instruction | lab02/src/main.c:199-214 | the statements of a round, on the shared index and the cabin array, do what the step function says |
| Handshake.StepKeepsInv | studio15/share_mem/src/leader.c:63-93 | every access keeps: a waiter passes only after its peer's set, and both copies agree so far |
| Handshake.Safety | studio15/share_mem/src/follower.c:43-62 | from any segment contents: copy and read never overlap, the follower's array equals the leader's, the leader unmaps after the read |
| Handshake.DoomedIffBadReset | studio15/share_mem/src/leader.c:63-85 | a process waits for an overwritten signal if and only if a reset came after the peer's set |
| Handshake.BadResetIsFatal | studio15/share_mem/src/leader.c:63-85 | after such a reset no continuation lets the leader finish |
| Handshake.EachResetCanOverwrite | studio15/share_mem/src/leader.c:63-85 | from every initial segment, each of the three resets can come after its signal |
| Handshake.CanHang | studio15/share_mem/src/follower.c:43-62 | so from every initial segment some run contains a bad reset |
| Handshake.GuardsBecomeFlags | studio15/share_mem/src/leader.c:63-82 | once either process has written a guard it holds 0 or 1, whatever the segment held before |
| Handshake.StepDecreases | studio15/share_mem/src/follower.c:43-62 | every step that is not a turn of a spin loop brings the measure down by one |
| Handshake.MaximalRunFinishesIff | studio15/share_mem/src/leader.c:63-93 | a run that can only spin has let the leader finish, and then the follower too, if and only if no such reset occurred |
| Handshake.SafeScheduleFinishes | studio15/share_mem/src/leader.c:63-93 | unless a bad reset happened or is next, a schedule exists that finishes |
| Handshake.CanFinishIff | studio15/share_mem/src/leader.c:63-93 | the leader can still finish if and only if no bad reset has happened and none is the next step of its process |
| Handshake.Segment.RunLeader | studio15/share_mem/src/leader.c:63-93 | the leader's statements, on guards and arrays, do what the step function says |
| Handshake.Segment.RunFollower | studio15/share_mem/src/follower.c:43-62 | the follower's statements do what the step function says |
| Handshake.Segment.RunSchedule | studio15/share_mem/src/follower.c:55-60 | under any schedule, once the leader is past its last wait the follower's array equals the leader's |
| Quicksort.ThroughUnsignedIsLargest | studio03/test_programs/sort.c:29-32 | the unsigned temporary keeps the largest whole number that does not exceed a convertible value |
| Quicksort.WholeIff | studio03/test_programs/sort.c:29-32 | an integer is a whole entry if and only if it lies between 0 and 2^32 - 1 |
| Quicksort.SurvivesIff | studio03/test_programs/sort.c:29-32 | a convertible value survives the temporary if and only if it is whole |
| Quicksort.SwapExchangesIff | studio03/test_programs/sort.c:27-33 | swap keeps the multiset of entries if and only if its first operand is a whole number |
| Quicksort.Swap | studio03/test_programs/sort.c:27-33 | the second place gets the first operand through the unsigned temporary |
| Quicksort.WalkSwap | studio03/test_programs/sort.c:50-55 | one swap of the walk extends the part that is not above the pivot value |
| Quicksort.Partition | studio03/test_programs/sort.c:39-59 | for every pivot: the slice is permuted, entries before the result are at most the pivot, entries after it are larger |
| Quicksort.PermutedWider | studio03/test_programs/sort.c:66-70 | permuting a part of the slice permutes the slice |
| Quicksort.PermutedSlices | studio03/test_programs/sort.c:61-72 | permuted means equal outside the slice and an equal multiset inside |
| Quicksort.SortedAround | studio03/test_programs/sort.c:65-70 | a split whose sides are sorted is sorted |
| Quicksort.Quicksort | studio03/test_programs/sort.c:61-72 | for every choice of pivots the slice start..end ends up sorted, a permutation of its old contents, and the rest unchanged |
| MatrixMultiply.AtInjective | studio03/test_programs/parallel_dense_mm.c:76 | different cells have different places |
| MatrixMultiply.AtSurjective | studio03/test_programs/parallel_dense_mm.c:92 | every place of the array is a cell |
| MatrixMultiply.IsFlatProductIff | studio03/test_programs/parallel_dense_mm.c:76 | the product in terms of cells is, on the flat arrays: entry row * n + col of c is the dot product, from the left, of a[row * n .. row * n + n] with the entries k * n + col of b |
| MatrixMultiply.Accumulate | studio03/test_programs/parallel_dense_mm.c:75-77 | the innermost loop leaves the dot product, summed from the left, in its cell and nothing else changed |
| MatrixMultiply.SerialByColumns | studio03/test_programs/parallel_dense_mm.c:84-90 | the check loop computes the product, also as stated on the flat arrays |
| MatrixMultiply.SerialByRows | studio03/test_programs/dense_mm.c:56-62 | the row-outer loops compute the product, also as stated on the flat arrays |
| MatrixMultiply.OtherColumnsKeep | studio03/test_programs/parallel_dense_mm.c:72-79 | a store of one column task leaves the progress of the others intact |
| MatrixMultiply.TaskStep | studio03/test_programs/parallel_dense_mm.c:74-78 | one memory access of a column task keeps all tasks right and leaves less to do |
| MatrixMultiply.Parallel | studio03/test_programs/parallel_dense_mm.c:72-79 | every interleaving of the column tasks terminates with the product, also as stated on the flat arrays |
| MatrixMultiply.ProductUnique | studio03/test_programs/parallel_dense_mm.c:92-93 | the product is determined entry by entry |
| MatrixMultiply.VerifyParallel | studio03/test_programs/parallel_dense_mm.c:72-94 | parallel, column-outer and row-outer results are equal, with no law of arithmetic assumed |
| MatrixMultiply.AllCellsAllocatedIff | studio03/test_programs/parallel_dense_mm.c:45-56 | every cell of an accepted size lies inside the bytes malloc is asked for if and only if neither the unsigned square nor, for the given size_t, the number of bytes wraps |
| MatrixMultiply.LastAcceptedIsUnsafe | studio03/test_programs/parallel_dense_mm.c:45-50 | the largest size the check accepts is 65536, and for no size_t are its cells allocated |
| MatrixMultiply.AllCellsAllocated32Iff | studio03/test_programs/parallel_dense_mm.c:45-56 | with a 32-bit size_t, if and only if the size is at most 23170 |
| MatrixMultiply.AllCellsAllocated64Iff | studio03/test_programs/dense_mm.c:35-46 | with a 64-bit size_t, if and only if the size is not 65536 |
| MessageServer.StaleBytesInvisible | studio14/AF_Local/src/server.c:105 | with a NUL in the message, the bytes printed are those before it, whatever follows in the buffer |
| MessageServer.UnterminatedPrintedIff | studio14/AF_Local/src/server.c:105 | a message without a NUL is printed exactly if and only if a NUL happens to follow it in the buffer |
| MessageServer.HoldsLastWritten | studio14/AF_Local/src/server.c:90-103 | after any messages and any growth, a place holds the byte of the last message long enough to reach it, or else its first contents |
| MessageServer.EachPrintedIff | studio14/AF_Local/src/server.c:90-105 | the i-th printed text is that of the i-th message if it has a NUL; otherwise it is the message if and only if the last earlier message that was longer had a NUL in the place behind it, or without a longer one the memory had |
| MessageServer.TerminatedPrintsExpected | studio14/AF_Local/src/server.c:64-112 | with NUL-terminated messages, output and outcome from any buffer are those of the buffer-free specification |
| MessageServer.QuitRecognisedIff | studio14/AF_Local/src/server.c:108 | the test succeeds if and only if the message starts with quit, or lacks a NUL and stale bytes complete it |
| MessageServer.ClientRoundTrip | studio14/AF_Local/src/client.c:44-45 | what the client sends is printed as the text it was given |
| MessageServer.OneClient | studio14/AF_Local/src/server.c:64-112 | a client's text is printed, and it ends the server if and only if it starts with "quit"; five failed calls of accept end it without |
| MessageServer.SameStartIffUpToNul | studio14/AF_Local/src/server.c:108 | strncmp finds two buffers equal if and only if they agree up to their first NUL within the first n bytes |
| MessageServer.GrownNext | studio14/AF_Local/src/server.c:93-96 | the buffer length after one more byte |
| MessageServer.GrownIsMultiple | studio14/AF_Local/src/server.c:93-96 | a message shorter than the buffer leaves its length; a longer one makes it the smallest multiple of 1024 above the message |
| MessageServer.StopsAtFirstQuit | studio14/AF_Local/src/server.c:64-112 | the loop stops exactly at the first message starting with quit, having printed every message up to it |
| MessageServer.Server.Grow | studio14/AF_Local/src/server.c:95-96 | growth keeps all earlier bytes, and the new places hold whatever the memory held |
| MessageServer.Server.PutByte | studio14/AF_Local/src/server.c:91-102 | the byte lands inside the buffer behind the earlier ones, and a full buffer grows or fails |
| MessageServer.Server.Receive | studio14/AF_Local/src/server.c:90-103 | the buffer holds the message and behind it what was there before, or fresh memory; it has room for one byte more, and it fails exactly when memory runs out |
| MessageServer.Server.Handle | studio14/AF_Local/src/server.c:67-111 | one connection prints the string in the buffer and ends the loop exactly as the specification says |
| MessageServer.Server.Serve | studio14/AF_Local/src/server.c:64-112 | for any messages, the output and the way the loop ends are a function of the messages, the first contents of the buffer and of the memory it grows into; of the messages alone if they are NUL-terminated |
| ProcessTree.ForkConserves | studio07/tree.c:25 | a fork changes every total by what the parent changes plus what the copy is worth |
| ProcessTree.StepConserves | studio07/tree.c:22-53 | a fork or exec changes no total of processes, and costs one step |
| ProcessTree.Conservation | studio07/tree.c:19-63 | existing processes and those still to be spawned always total 2^(level+1) - 1 |
| ProcessTree.CompleteIffAllSteps | studio07/tree.c:22-66 | every run has at most 5 * 2^level - 4 steps, and spawning is complete if and only if that many were taken |
| ProcessTree.FinalShape | studio07/tree.c:57-64 | in the end there are exactly 2^(level-k) processes of each level k |
| ProcessTree.KeepsItsLevel | studio07/tree.c:25-54 | in every run each process keeps its place and its level through its forks, and a copy runs one level below its parent |
| ProcessTree.FirstRests | studio07/tree.c:22-66 | in the end the first process rests with the level it was started with |
| ProcessTree.Kernel.RunProcess | studio07/tree.c:22-66 | one action of a process on the process table is one step |
| ProcessTree.Kernel.RunSchedule | studio07/tree.c:19-66 | any schedule run in place keeps the conservation law |

## Left out

- Weak memory ordering and compiler reordering; the order arguments of the atomics play no role here.
- Kernel internals, clocks, `pow`, thread attribute calls and their failures. `rand()` is an arbitrary value.
- FifoSpin.NeverOpens: equal priorities only, as in the experiment the readme describes; with unequal ones a later thread may preempt a spinning one.
- FifoSpin.FairRunPassesIff: equal priorities too, and a thread exits once it is past the barrier.
- FifoSleep.EveryMaximalRunPasses: without spurious wake-ups, and a thread past the barrier leaves its core at once instead of after its rounds.
- RaceCounter.AttainableIff: for at least two threads and two rounds, the module has four threads and a million rounds.
- Quicksort.Quicksort: for entries that an unsigned can hold, which is what main generates; doubles are reals, since nothing is rounded.
- The call of quicksort in `main` of sort.c passes an end one past the allocation, so `main` is not modelled.
- MatrixMultiply.Parallel: a column is one task, executed by one thread at a time, as the OpenMP loop guarantees; failing allocations are not modelled.
- Handshake.Safety: memcpy is modelled element by element in index order, and both processes have the same segment mapped from the start.
- SleepLock.CanAcquireIff: threads may call the lock again at any time; in main each calls it once, for which SleepLockMain.FairRunReturnsIff is the statement.
- MessageServer.Server.Serve: a string that runs past the buffer prints as `RunsOff`, without saying what follows the buffer in memory; a read error counts as the end of the message; the result of the first malloc is not NULL.
- ProcessTree.FinalShape: processes that have finished sleeping and exited are still counted; the level string always fits its five bytes.
- Under a negative level argument the tree program is a leaf; levels here are natural numbers.
- `parallel_dense_mm2.c`, whose tasks update the same cells, so that it has no exact result.
- Argument parsing, GPIO and sysfs modules, timers, pipes, network sockets and signal demos.
