# Verified model of the BME680 synchronisation components and driver arithmetic

This project models the concurrency components of the BME680 application (barrier, dining
philosophers, the stage pipeline built on them, read-write lock, deadlock detector, monitor,
recursive mutex, task queue), the page cache of the SPI driver and the fixed-point compensation
formulas, and proves what they are for.

Run `dafny verify dfyconfig.toml` to check everything.

## How the concurrent parts are modelled

* A component is a value `State` with the fields of its C struct and the state of its condition
  variables, and a deterministic `Step`/`Apply` for each thread. A critical section from a lock to
  the next wait or unlock is one step; so is each fork lock and unlock, and each single access of
  the recursive mutex. `Possible` and `Run` give every interleaving of every length, and each main
  result is about every run, proved by induction from a `Valid` invariant.
* `CondVar.dfy` is the condition variable of the System Interfaces volume of IEEE Std 1003.1-2017:
  a waiter is blocked, then woken or expired, and it runs again only when it gets the mutex back. A
  signal wakes any non-empty choice of the blocked threads, if there are any, unless it is consumed by a
  thread whose wait has timed out, as the page of pthread_cond_timedwait allows; then it wakes nobody.
  Timeouts, failing waits and spurious wakeups may happen at any time; only the pipeline leaves out the
  spurious wakeups of its barrier.
* Each C struct that is updated in place is also a class with the same fields. `Abs()` is its state,
  and every method body is the code of a critical section, proved to make exactly the step of the
  specification. Facts that only the proof needs (who waits, who holds, the history) are ghost.

| file | models |
|---|---|
| `Barrier.dfy`, `Philosophers.dfy`, `Pipeline.dfy` | `barrier.c`, `dining_philosophers.c`, `assembly_line.c` |
| `RwLock.dfy` | `rwlock.c` |
| `Detector.dfy`, `Monitor.dfy` | `deadlock_detector.c`, `monitor.c` with the lock and the detector inside it |
| `RecursiveMutex.dfy` | `recursive_mutex.c` |
| `TaskQueue.dfy` | the linked list of `thread_pool.c` |
| `SpiPages.dfy` | `bme680_spi.c` |
| `Compensation.dfy` | temperature, pressure and humidity of `bme680.c` |
| `Formulas.dfy` | the polynomials these stand for, and how close the code comes to them |
| `CondVar.dfy`, `FiniteSets.dfy`, `Wrappers.dfy` | the shared vocabulary |

## How the arithmetic is specified

The functions of `Compensation.dfy` follow the code, shift by shift and cast by cast. `Formulas.dfy`
gives each of them an independent meaning: a polynomial in the calibration, scaled to integers and
free of shifts and casts, with an explicit bound on how far rounding takes the code from it
(`TFineNear`, `PressureNear`, `HumidityNear`).

## What the proofs found

* **Read-write lock.** When the last waiting writer times out, or its wait fails, nobody wakes the
  readers that were blocked because of it. `ImpatientWriterStrandsReader` is a run that ends with the
  lock free, nobody runnable and a reader blocked. `StrandedIff` gives the exact guard and
  `RunStrandsIff` lifts it to runs; without such a departure no reader is ever left behind. And when
  a timed-out writer consumes the signal of the unlock that frees the lock, nobody passes it on: the
  free lock keeps a blocked writer, and every new reader blocks (`ConsumedSignalStrandsWriter`). `LostIff`
  and `RunLosesWakeupIff` are the exact condition for that.
* **Deadlock detector.** A lock call on a slot that is held overwrites its owner, so the crossed order
  of two locks passes all four calls (`CrossedOrderPasses`). `HoldSurvivesIff` says over runs of calls
  exactly what the table remembers and `CrossedOrderCaughtIff` exactly when a crossing is noticed. The
  repository's own description promises detection by ownership tracking; the model follows the code.
* **Barrier.** It tests its condition once, with `if`, so its counter is the number of blocked threads
  throughout a run if and only if the run has no spurious wakeup (`SpuriousWakeupBreaksCount`). The
  counter is too high by the number of them since the last release (`CountsArrivals`), and the next
  release lets that many fewer threads through and makes it right again (`ReleaseFreesEveryone`).
* **Monitor.** The branches for ETIMEDOUT return without a new test of the buffer. When the thread has
  consumed a signal, a reader can stay blocked with an item in the buffer and a writer with the buffer
  full, and nobody left to wake them (`ConsumedSignalStrandsBoth`). `LostIff` and `RunLosesWakeupIff` say
  exactly when a wakeup is lost; all other runs lose none (`NoLostWakeup`).
* **Monitor samples.** The range check rejects by comparison, so a temperature that is not a number passes it
  (`InRangeIff`). Here monitor.c:67 and assembly_line.c:40 treat `temp` as floating point, while bme680.h:167
  declares an integer `temperature`; the model follows the two functions that use it.
* **SPI page cache.** A write to STATUS through regmap leaves the cache stale unless the value carries
  the bit of the page just selected (`StatusWriteIff`, over runs `CoherentIffAdmissible`), and with a stale
  cache registers of the other page are read (`WrongCacheMisreads`).
* **Pressure.** In the sensor's temperature range the divisor is zero only for `par_p1 == 0`, or
  `par_p1 == 1` with a negative gain (`DivisorPositiveIff`). No s64 step overflows (`PressureFits`). The
  cast of the dividend is exact on the interval of `DividendFitsIff`. The last cast is exact for 2000 to
  4278000000 after the division and never from 4320000000 up (`PressureExactIff`): a small `par_p1` makes
  the value too large (`PressureCanWrap`), a reading near its maximum with a negative `par_p7` makes
  it negative and the result about 2^32 (`PressureCanGoNegative`).
* **Humidity.** `HumidityFitsIff` is the exact condition under which no s32 intermediate overflows. From
  some calibration bytes `var1 * var2` does not fit, and saturated air is reported as 0 % (`HumidityCanWrap`).

## Model

| member | source | states |
|---|---|---|
| Barrier.CountsArrivals | BME680-kernel-module-thread-design-Advance/barrier.c:49-58 | over every run of any number of threads, spurious wakeups included, arrivals = total * releases + count, count is below total, and it is the number of blocked threads plus the spurious wakeups since the last release |
| Barrier.ReleaseFreesEveryone | BME680-kernel-module-thread-design-Advance/barrier.c:50-57 | a release happens exactly when all but one of the total, less the spurious wakeups since the last release, are blocked; it frees all of them at once, lets the caller through and makes the counter right; any other arrival blocks |
| Barrier.SpuriousWakeupBreaksCount | BME680-kernel-module-thread-design-Advance/barrier.c:49-58 | the counter is the number of blocked threads in every state of a run if and only if the run has no spurious wakeup |
| Barrier.BarrierObject.Wait | BME680-kernel-module-thread-design-Advance/barrier.c:43-60 | the in-place section makes the arrival step of the specification and says whether the caller waits |
| Philosophers.RunKeepsValid | BME680-kernel-module-thread-design-Advance/dining_philosophers.c:87-110 | along every interleaving of two-step acquire and two-step release each fork mutex is held by exactly whom the program counters say |
| Philosophers.FirstForkByParity | BME680-kernel-module-thread-design-Advance/dining_philosophers.c:88-94 | between its two locks an even philosopher has the fork of its own number and an odd one the next |
| Philosophers.NeighboursExclude | BME680-kernel-module-thread-design-Advance/dining_philosophers.c:88-94 | philosophers next to each other on the ring never eat together |
| Philosophers.AtMostHalfEat | BME680-kernel-module-thread-design-Advance/dining_philosophers.c:88-94 | every eater has two different forks to itself, so twice the number of eaters is at most N |
| Philosophers.WaitingLowersRank | BME680-kernel-module-thread-design-Advance/dining_philosophers.c:87-94 | each hop of the wait-for relation lowers a rank of at most 3, with the wrap-around of odd N as its own rank |
| Philosophers.WaitPathsAreShort | BME680-kernel-module-thread-design-Advance/dining_philosophers.c:87-94 | no chain of waiting philosophers has more than three hops and none returns to its start |
| Philosophers.ChainReachesAMover | BME680-kernel-module-thread-design-Advance/dining_philosophers.c:87-94 | from any philosopher the chain of fork holders reaches one that can move |
| Philosophers.ReachableTable | BME680-kernel-module-thread-design-Advance/dining_philosophers.c:77-113 | the exclusion, counting and waiting results together in every state reachable from the empty table, for every N >= 2 |
| Philosophers.ThreeHopsHappen | BME680-kernel-module-thread-design-Advance/dining_philosophers.c:87-94 | the bound is tight: a schedule of five philosophers that reaches a chain of three hops |
| Philosophers.ForkTable.LockFirst | BME680-kernel-module-thread-design-Advance/dining_philosophers.c:88-92 | the parity-ordered first lock, on the array, makes the step of the specification |
| Philosophers.ForkTable.LockSecond | BME680-kernel-module-thread-design-Advance/dining_philosophers.c:90-94 | the second lock likewise |
| Philosophers.ForkTable.UnlockLeft | BME680-kernel-module-thread-design-Advance/dining_philosophers.c:109 | the first unlock of done likewise |
| Philosophers.ForkTable.UnlockRight | BME680-kernel-module-thread-design-Advance/dining_philosophers.c:110 | the second unlock of done likewise |
| Pipeline.Lockstep | BME680-kernel-module-thread-design-Advance/assembly_line.c:36-43 | in every reachable state any two stages are at most one round apart and each has eaten once per completed round, early re-entry included |
| Pipeline.ReleasesAreFair | BME680-kernel-module-thread-design-Advance/assembly_line.c:36-43 | at each barrier release all stages have eaten equally often, once for each earlier release |
| Pipeline.RunKeepsTally | BME680-kernel-module-thread-design-Advance/assembly_line.c:37 | the barrier's arrival count holds inside the composed system |
| Pipeline.DeadlockFree | BME680-kernel-module-thread-design-Advance/assembly_line.c:33-46 | for every N >= 2 and every schedule some stage can move, unless all stages have left their loops |
| Pipeline.RunProgresses | BME680-kernel-module-thread-design-Advance/assembly_line.c:33-46 | a measure over program counters and rounds rises on every step of every schedule |
| Pipeline.NoStarvation | BME680-kernel-module-thread-design-Advance/assembly_line.c:36-43 | under any scheduler, after T steps every stage has completed r rounds with T <= N * (7r + 13) |
| Pipeline.BoundedRunsComplete | BME680-kernel-module-thread-design-Advance/assembly_line.c:33-46 | with K rounds per stage every schedule is finite, and one that cannot go on has every stage finished after eating K times |
| Pipeline.RunToCompletion | BME680-kernel-module-thread-design-Advance/assembly_line.c:48-77 | the line with N stages run by an arbitrary scheduler on the in-place objects terminates with K meals each |
| Pipeline.AssemblyLine.Advance | BME680-kernel-module-thread-design-Advance/assembly_line.c:36-43 | one step of a stage thread on the shared barrier and fork array is the step of the specification and keeps the invariant |
| RwLock.StepKeepsValid | BME680-kernel-module-thread-design-Advance/rwlock.c:46-151 | every step keeps the counters exact, the exclusion, the caps and that nobody waits or holds in two ways; the "Invalid rwlock state" branches are unreachable, and EPERM is returned only for a free lock |
| RwLock.MutualExclusion | BME680-kernel-module-thread-design-Advance/rwlock.c:51-83 | over every run with timeouts, wait errors and spurious wakeups: at most one write hold and then no read hold, four exact counters, at most 10 and 5 waiters |
| RwLock.ResultsMeanHolds | BME680-kernel-module-thread-design-Advance/rwlock.c:46-122 | for every step but an unlock the result is 0 if and only if the thread now holds the lock and did not before; EAGAIN exactly at 10 waiting readers or 5 waiting writers, ETIMEDOUT exactly after a deadline, and each error leaves the thread idle |
| RwLock.ReadResultIff | BME680-kernel-module-thread-design-Advance/rwlock.c:51-82 | a reader gets the lock if and only if no writer holds it or waits; otherwise it waits, or its failed wait is returned |
| RwLock.WriteResultIff | BME680-kernel-module-thread-design-Advance/rwlock.c:90-121 | a writer gets the lock if and only if nobody holds it |
| RwLock.OthersStay | BME680-kernel-module-thread-design-Advance/rwlock.c:46-151 | no step gives or takes a hold of another thread or its place in a queue |
| RwLock.UnlockHandsOver | BME680-kernel-module-thread-design-Advance/rwlock.c:124-148 | an unlock gives up the caller's hold, signals a writer exactly if the lock becomes free with writers waiting, and wakes all readers exactly if a writer leaves with none waiting |
| RwLock.FreeLockRefusesUnlock | BME680-kernel-module-thread-design-Advance/rwlock.c:138-142 | on a free lock an unlock returns EPERM and changes nothing |
| RwLock.WritersComeFirst | BME680-kernel-module-thread-design-Advance/rwlock.c:58 | no step gives a read hold while a writer waits or writes |
| RwLock.FreeLockHasRunnableWriter | BME680-kernel-module-thread-design-Advance/rwlock.c:125-137 | after every run in which no timed-out writer consumes the only wakeup, with the lock free and a writer waiting, some waiting writer can run and a blocked one means a woken one; after every run a woken one gets a free lock |
| RwLock.LostIff | BME680-kernel-module-thread-design-Advance/rwlock.c:97-137 | a step leaves a free lock with a blocked writer and none woken if and only if it is the unlock that frees the lock, its signal is consumed while writers are blocked, and none is woken already; that needs a timed-out writer |
| RwLock.RunLosesWakeupIff | BME680-kernel-module-thread-design-Advance/rwlock.c:46-151 | a run ever reaches such a state if and only if it contains such an unlock |
| RwLock.StrandedIff | BME680-kernel-module-thread-design-Advance/rwlock.c:97-111 | a step leaves a reader blocked with no writer in its way if and only if it is the unsuccessful departure of the last waiting writer while no writer is active and readers are blocked |
| RwLock.RunStrandsIff | BME680-kernel-module-thread-design-Advance/rwlock.c:97-148 | a run strands a reader if and only if it contains such a step |
| RwLock.QuietLockHasNoWaiters | BME680-kernel-module-thread-design-Advance/rwlock.c:124-148 | in runs without writer timeouts and wait errors, a free lock with nobody runnable has nobody blocked |
| RwLock.ImpatientWriterStrandsReader | BME680-kernel-module-thread-design-Advance/rwlock.c:99-104 | a concrete run in which a writer's timeout leaves a reader blocked on a free lock |
| RwLock.ConsumedSignalStrandsWriter | BME680-kernel-module-thread-design-Advance/rwlock.c:99-104 | a concrete run in which a timed-out writer consumes the signal: the lock is free, a writer stays blocked with no wakeup under way, and every reader that comes is blocked |
| RwLock.UncontendedUse | BME680-kernel-module-thread-design-Advance/rwlock.c:46-151 | used alone, either lock call succeeds at once and the unlock restores the initial state |
| RwLock.RwLockObject.RdLock | BME680-kernel-module-thread-design-Advance/rwlock.c:51-82 | the in-place code up to its first wait or its return makes the specified step with the specified result |
| RwLock.RwLockObject.WrLock | BME680-kernel-module-thread-design-Advance/rwlock.c:90-121 | the same for writers |
| RwLock.RwLockObject.RdResume | BME680-kernel-module-thread-design-Advance/rwlock.c:58-74 | a woken reader's next turn of its loop likewise |
| RwLock.RwLockObject.WrResume | BME680-kernel-module-thread-design-Advance/rwlock.c:97-113 | a woken writer's next turn of its loop likewise |
| RwLock.RwLockObject.Release | BME680-kernel-module-thread-design-Advance/rwlock.c:124-151 | the unlock with its signal or broadcast likewise |
| Detector.PassesIff | BME680-kernel-module-thread-design-Advance/deadlock_detector.c:58-75 | a call passes the scan if and only if all slots of the caller lie below all slots of others |
| Detector.OnlyOneHolderPasses | BME680-kernel-module-thread-design-Advance/deadlock_detector.c:58-70 | of two slot holders at most one passes in any one state of the table |
| Detector.OutcomeIff | BME680-kernel-module-thread-design-Advance/deadlock_detector.c:48-94 | when each call succeeds and which error it returns otherwise; an unlock succeeds if and only if the caller holds the slot |
| Detector.OnlyOwnSlotChanges | BME680-kernel-module-thread-design-Advance/deadlock_detector.c:48-94 | a call that succeeds gives the slot to its caller, or frees it, and touches no other slot; one that fails changes nothing |
| Detector.LockThenUnlock | BME680-kernel-module-thread-design-Advance/deadlock_detector.c:71-90 | the caller can give back what it locked, and another thread that held the slot no longer can |
| Detector.HoldSurvivesIff | BME680-kernel-module-thread-design-Advance/deadlock_detector.c:48-94 | after any run of lock and unlock calls a thread is known to hold a slot if and only if the last accepted call for that slot is a lock by it |
| Detector.CrossedOrderCaughtIff | BME680-kernel-module-thread-design-Advance/deadlock_detector.c:58-72 | whatever is held, after another thread is let through with a slot a thread is stopped at its next lock if and only if it still holds a slot above that one or above a slot of another thread |
| Detector.CrossedOrderPasses | BME680-kernel-module-thread-design-Advance/deadlock_detector.c:58-75 | two threads locking two slots in crossed order are both let through |
| Detector.DetectorObject.Scan | BME680-kernel-module-thread-design-Advance/deadlock_detector.c:58-70 | the nested loop finds a conflict if and only if the caller holds a slot above one held by another |
| Detector.DetectorObject.LockSlot | BME680-kernel-module-thread-design-Advance/deadlock_detector.c:48-76 | the whole call on the array returns and changes what the specification says |
| Detector.DetectorObject.UnlockSlot | BME680-kernel-module-thread-design-Advance/deadlock_detector.c:78-94 | the unlock likewise |
| Monitor.PutAppends | BME680-kernel-module-thread-design-Advance/monitor.c:98-100 | a store at tail appends to the contents of the ring and keeps its indices right |
| Monitor.GetRemoves | BME680-kernel-module-thread-design-Advance/monitor.c:141-143 | a load at head takes the oldest value off |
| Monitor.InRangeIff | BME680-kernel-module-thread-design-Advance/monitor.c:66-69 | the exact samples that pass the range check: in the three intervals, or with a temperature that is not a number |
| Monitor.ReadsFollowWrites | BME680-kernel-module-thread-design-Advance/monitor.c:66-143 | over every run tail = (head + count) mod size, values read followed by the buffer are the values written in order, and every value read passed the range check |
| Monitor.StoresArgument | BME680-kernel-module-thread-design-Advance/monitor.c:97-107 | a write returns 0 if and only if it has stored the argument it was called with |
| Monitor.WritesStoreArguments | BME680-kernel-module-thread-design-Advance/monitor.c:66-107 | over every run the values stored are the arguments of the write calls that returned 0, in that order |
| Monitor.ReadsReturnArguments | BME680-kernel-module-thread-design-Advance/monitor.c:66-150 | over every run the k-th value read is the argument of the k-th write call that returned 0 |
| Monitor.StepKeepsFifo | BME680-kernel-module-thread-design-Advance/monitor.c:91-96 | the "Invalid monitor count" branches are unreachable: EINVAL is only ever returned for a sample out of range |
| Monitor.WriteBeginIff | BME680-kernel-module-thread-design-Advance/monitor.c:66-74 | a write call is refused with EINVAL exactly for a sample out of range, with EDEADLK exactly if the detector is busy, both without effect; else it is under way and owns its slot |
| Monitor.ReadBeginIff | BME680-kernel-module-thread-design-Advance/monitor.c:114-118 | a read call likewise |
| Monitor.WriteResultIff | BME680-kernel-module-thread-design-Advance/monitor.c:76-107 | a write returns 0 if and only if there was room, and then one value more is stored; with a full buffer it waits or returns the error of its wait |
| Monitor.ReadResultIff | BME680-kernel-module-thread-design-Advance/monitor.c:119-150 | a read returns 0 if and only if there was a value, and then it takes the oldest |
| Monitor.QuietStepMeans | BME680-kernel-module-thread-design-Advance/monitor.c:77-89 | ETIMEDOUT is returned exactly after a deadline, and no other step touches the buffer |
| Monitor.SlotsChangeAtEnds | BME680-kernel-module-thread-design-Advance/monitor.c:71-147 | the slots of the detector change at the ends of a call only, and its end gives up the caller's own |
| Monitor.OthersStay | BME680-kernel-module-thread-design-Advance/monitor.c:66-150 | no step moves another thread |
| Monitor.EnabledIffInPlace | BME680-kernel-module-thread-design-Advance/monitor.c:71-147 | in every reachable state a thread at the start of a step can make it: the ring and the stored argument are always as the step needs them |
| Monitor.LostIff | BME680-kernel-module-thread-design-Advance/monitor.c:76-147 | a step leaves fewer woken threads than there is for the blocked side to take if and only if its signal is consumed while threads there are blocked and the woken ones are just enough for what there was; that needs a timed-out thread |
| Monitor.RunLosesWakeupIff | BME680-kernel-module-thread-design-Advance/monitor.c:76-147 | a run ever loses a wakeup if and only if it contains such a step |
| Monitor.TimelyRunsLoseNothing | BME680-kernel-module-thread-design-Advance/monitor.c:76-147 | as long as no deadline passes no wakeup is lost |
| Monitor.NoLostWakeup | BME680-kernel-module-thread-design-Advance/monitor.c:76-147 | over every run that loses no signal in the way of LostIff, with timeouts, failing waits and spurious wakeups, a blocked reader has as many woken readers as items, a blocked writer as many woken writers as room, so both sides are never stuck |
| Monitor.ConsumedSignalStrandsBoth | BME680-kernel-module-thread-design-Advance/monitor.c:120-126 | a concrete run on a buffer of size one in which a timed-out reader consumes a signal: a reader is blocked with an item there, a writer is blocked by the full buffer and nobody else is in a call |
| Monitor.WokenThreadsSucceed | BME680-kernel-module-thread-design-Advance/monitor.c:76-147 | in a state with no wakeup lost, items with a blocked reader mean a woken reader and room with a blocked writer a woken writer; in every valid state a woken thread that finds an item or room completes |
| Monitor.NestedLocksNeverRefuse | BME680-kernel-module-thread-design-Advance/monitor.c:71-147 | the scan never rejects a monitor call, the lock inside the mutex is always got at once, and the table is empty when no call is in progress |
| Monitor.MonitorObject.BeginWrite | BME680-kernel-module-thread-design-Advance/monitor.c:66-74 | range check and detector call, on the object, as specified |
| Monitor.MonitorObject.Store | BME680-kernel-module-thread-design-Advance/monitor.c:97-102 | the store, the index updates, the signal and the nested write lock have the specified effect on ring and lock |
| Monitor.MonitorObject.Load | BME680-kernel-module-thread-design-Advance/monitor.c:140-145 | the load under the nested read lock likewise |
| Monitor.MonitorObject.TryWrite | BME680-kernel-module-thread-design-Advance/monitor.c:76-106 | the write section on the array, with its nested lock and its signal, makes the specified step |
| Monitor.MonitorObject.TryRead | BME680-kernel-module-thread-design-Advance/monitor.c:119-149 | the read section likewise, and it returns the oldest value in the buffer |
| Monitor.MonitorObject.EndWrite | BME680-kernel-module-thread-design-Advance/monitor.c:104 | the detector's unlock closes the call |
| RecursiveMutex.StepKeepsValid | BME680-kernel-module-thread-design-Advance/recursive_mutex.c:36-67 | every single shared access of any thread, loads and stores apart, keeps owner, count and inner mutex consistent with every thread's depth and place |
| RecursiveMutex.MutualExclusion | BME680-kernel-module-thread-design-Advance/recursive_mutex.c:36-67 | under every interleaving at most one thread is inside, between calls its count is its locks less its unlocks, and the inner mutex is never locked again by its holder |
| RecursiveMutex.OwnerTestIsStable | BME680-kernel-module-thread-design-Advance/recursive_mutex.c:38-55 | no other thread's step can change the outcome of the unprotected test, nor the owner's count between its load and its store |
| RecursiveMutex.TestsDecideByDepth | BME680-kernel-module-thread-design-Advance/recursive_mutex.c:54-59 | re-entry exactly if inside, EPERM exactly if not inside, release exactly at the last unlock |
| RecursiveMutex.BlockedByAMover | BME680-kernel-module-thread-design-Advance/recursive_mutex.c:43 | a thread is only held up by another one that is inside and can itself move |
| RecursiveMutex.RecursiveMutexObject.Access | BME680-kernel-module-thread-design-Advance/recursive_mutex.c:36-67 | each statement on the shared fields makes the step of the specification |
| RecursiveMutex.RecursiveMutexObject.Lock | BME680-kernel-module-thread-design-Advance/recursive_mutex.c:36-50 | an uninterrupted lock adds one to the caller's depth, makes it the owner and leaves others alone |
| RecursiveMutex.RecursiveMutexObject.Unlock | BME680-kernel-module-thread-design-Advance/recursive_mutex.c:52-67 | an uninterrupted unlock takes one off, frees the mutex at zero, and fails without effect for a thread outside |
| TaskQueue.Queue.Enqueue | BME680-kernel-module-thread-design-Advance/thread_pool.c:133-158 | the link is added at the end of an acyclic list whose last node is tail; errors change nothing |
| TaskQueue.Queue.Take | BME680-kernel-module-thread-design-Advance/thread_pool.c:64-68 | the oldest task is unlinked and the rest stays a list; taken tasks followed by linked tasks are the enqueued ones |
| TaskQueue.Queue.Drain | BME680-kernel-module-thread-design-Advance/thread_pool.c:118-123 | the destroy loop ends after freeing each remaining task exactly once, in order |
| TaskQueue.Queue.TakenInOrder | BME680-kernel-module-thread-design-Advance/thread_pool.c:64-68 | the k-th task taken is the k-th enqueued, and the head is the oldest task left |
| SpiPages.SelectPageSelects | BME680-kernel-module-thread-design-Advance/bme680_spi.c:26-63 | the selection fails if and only if it has to talk to the chip and a transfer fails, and then changes nothing; the cache stays undefined or right and no register changes but the page bit; on success the chip is in the register's page |
| SpiPages.WriteHits | BME680-kernel-module-thread-design-Advance/bme680_spi.c:74-95 | a write that succeeds, to STATUS and its other name too, changes exactly the 8-bit register it names, one that fails changes none; the cache stays right if and only if it fails or keeps the page bit |
| SpiPages.ReadHits | BME680-kernel-module-thread-design-Advance/bme680_spi.c:97-112 | a read returns the 8-bit register it names and changes none |
| SpiPages.SoftResetRestores | BME680-kernel-module-thread-design-Advance/bme680_spi.c:74-95 | the soft reset sets every register to its default and leaves the cache right |
| SpiPages.RefinesFlatFile | BME680-kernel-module-thread-design-Advance/bme680_spi.c:26-112 | every sequence of accesses with any faults, in which each successful write to STATUS has the right page bit, behaves as on a flat register file: exactly those accesses succeed that no fault stops, and they read or write the register they name |
| SpiPages.CoherentIffAdmissible | BME680-kernel-module-thread-design-Advance/bme680_spi.c:26-112 | the cache is right after every access of a run if and only if each successful write to STATUS in it has the page bit just selected |
| SpiPages.StatusWriteIff | BME680-kernel-module-thread-design-Advance/bme680_spi.c:34-60 | a successful write to STATUS keeps the cache right if and only if its page bit is that of the page just selected |
| SpiPages.WrongCacheMisreads | BME680-kernel-module-thread-design-Advance/bme680_spi.c:31-36 | with a cache that is wrong a read returns the register of the other page |
| SpiPages.BitForms | BME680-kernel-module-thread-design-Advance/bme680_spi.c:32-109 | the arithmetic on bytes in the model is the bit arithmetic of the code |
| SpiPages.BitPlaces | BME680-kernel-module-thread-design-Advance/bme680_spi.c:32-109 | the functions test, set and clear bit 7 of an address and bit 4 of STATUS |
| SpiPages.SpiBusContext.Select | BME680-kernel-module-thread-design-Advance/bme680_spi.c:26-63 | the in-place page selection makes the specified change to cache and chip |
| SpiPages.SpiBusContext.RegWrite | BME680-kernel-module-thread-design-Advance/bme680_spi.c:74-95 | the in-place write likewise |
| SpiPages.SpiBusContext.RegRead | BME680-kernel-module-thread-design-Advance/bme680_spi.c:97-112 | the in-place read likewise |
| Compensation.UnpackForms | BME680-kernel-module-thread-design-Advance/bme680.c:404-405 | the shifts and disjunctions that unpack calibration and raw readings are the sums used in the model |
| Compensation.Unpack20 | BME680-kernel-module-thread-design-Advance/bme680.c:596-597 | a raw pressure or temperature reading is below 2^20 for every frame |
| Formulas.UnpackedFields | BME680-kernel-module-thread-design-Advance/bme680.c:404-405 | the unpacked raw reading and par_h1 and par_h2 give back the bytes and nibbles they were put together from |
| Compensation.TFineBounded | BME680-kernel-module-thread-design-Advance/bme680.c:436-441 | for every frame and calibration abs(t_fine) <= 2228224 and the s32 store is exact |
| Formulas.TFineNear | BME680-kernel-module-thread-design-Advance/bme680.c:429-440 | for every frame and calibration t_fine is within 20/5120 degree of its polynomial in par_t1 to par_t3 and the reading |
| Formulas.CentidegreesRound | BME680-kernel-module-thread-design-Advance/bme680.c:441 | the temperature is t_fine in hundredths of a degree, rounded to the nearest |
| Compensation.TFineMonotone | BME680-kernel-module-thread-design-Advance/bme680.c:436-440 | with par_t2 >= 8192 t_fine does not fall as temp_adc rises, for all par_t1 and par_t3 |
| Compensation.TemperatureExactIff | BME680-kernel-module-thread-design-Advance/bme680.c:441 | the s16 cast is exact if and only if -1677747 <= t_fine <= 1677695 |
| Compensation.TemperatureMonotone | BME680-kernel-module-thread-design-Advance/bme680.c:429-444 | where the cast is exact the returned temperature does not fall as the reading rises |
| Compensation.DivisorPositiveIff | BME680-kernel-module-thread-design-Advance/bme680.c:454-464 | from -40 to 85 degrees the divisor is computed without overflow, is never negative, and is positive if and only if par_p1 >= 2, or par_p1 is 1 and the gain is not negative |
| Formulas.GainNear | BME680-kernel-module-thread-design-Advance/bme680.c:454-459 | the factor of par_p2 and par_p3 is within 1.02 of its polynomial |
| Formulas.OffsetNear | BME680-kernel-module-thread-design-Advance/bme680.c:454-457 | the offset of par_p4 to par_p6 is within 253 of its polynomial, about 1/16 of a count |
| Formulas.DivisorNear | BME680-kernel-module-thread-design-Advance/bme680.c:460 | the divisor is par_p1 times the gain up to that rounding and one |
| Formulas.PressedNear | BME680-kernel-module-thread-design-Advance/bme680.c:461-464 | the value after the division solves the quotient of the formula up to an explicit bound |
| Formulas.TailNear | BME680-kernel-module-thread-design-Advance/bme680.c:465-468 | the correction by par_p7 to par_p10 is its polynomial up to an explicit bound |
| Formulas.PressureNear | BME680-kernel-module-thread-design-Advance/bme680.c:446-471 | calc_pressure, as the code returns it wherever its last cast is exact, meets the formula end to end |
| Compensation.PressureFits | BME680-kernel-module-thread-design-Advance/bme680.c:446-471 | with par_p1 >= 2 no s64 step of calc_pressure overflows: it equals the formula on unbounded integers with its two u32 casts |
| Compensation.PressureExact | BME680-kernel-module-thread-design-Advance/bme680.c:446-471 | where the cast of the scaled reading is exact, calc_pressure equals the formula on unbounded integers without any cast if and only if the value of that formula is a u32 |
| Compensation.PressureExactIff | BME680-kernel-module-thread-design-Advance/bme680.c:463-470 | up to 4278000000 after the division the final cast is exact if and only if that value is at least 2000, or 0 or 1000 with a par_p7 that keeps the result from being negative; from 4320000000 it never is |
| Compensation.PressureCanWrap | BME680-kernel-module-thread-design-Advance/bme680.c:463-470 | a calibration and reading for which the final cast loses the high part of the pressure |
| Compensation.PressureCanGoNegative | BME680-kernel-module-thread-design-Advance/bme680.c:461-470 | a calibration and reading for which the formula gives -1024 and the code 4294966272 |
| Compensation.DividendFitsIff | BME680-kernel-module-thread-design-Advance/bme680.c:461-462 | the u32 cast of the scaled reading is exact if and only if that reading is between 0 and 1374389 |
| Compensation.PressedFalls | BME680-kernel-module-thread-design-Advance/bme680.c:446-464 | where that cast is exact, a higher reading never gives a higher pressure out of the division in s64 words |
| Formulas.Var1Near | BME680-kernel-module-thread-design-Advance/bme680.c:485 | var1 is the reading less 16 par_h1 and the temperature times par_h3 over 200, within one |
| Formulas.Var2Near | BME680-kernel-module-thread-design-Advance/bme680.c:486 | var2 is its polynomial in par_h2, par_h4 and par_h5 up to an explicit bound |
| Formulas.Var4Near | BME680-kernel-module-thread-design-Advance/bme680.c:488-489 | var4 is its polynomial in par_h6 and par_h7 within one |
| Formulas.HumidityTailNear | BME680-kernel-module-thread-design-Advance/bme680.c:490-492 | the uncapped result is its polynomial in the product and var4 up to an explicit bound |
| Formulas.HumidityNear | BME680-kernel-module-thread-design-Advance/bme680.c:484-498 | calc_humidity, in s32 words wherever nothing overflows, meets the formula end to end, moved to the nearest end of 0 to 100 % |
| Compensation.HumidityFitsIff | BME680-kernel-module-thread-design-Advance/bme680.c:484-493 | with unpacked calibration and temperature in range, no s32 intermediate of calc_humidity overflows if and only if -759234560 <= var1 * var2 < 759250944 and var4 * var5 fits |
| Compensation.HumidityExact | BME680-kernel-module-thread-design-Advance/bme680.c:484-498 | on that condition calc_humidity in s32 words equals the capped formula on unbounded integers |
| Compensation.SmallProductFits | BME680-kernel-module-thread-design-Advance/bme680.c:484-493 | for every calibration abs(var1 * var2) <= 465000000 is small enough |
| Compensation.HumidityCanWrap | BME680-kernel-module-thread-design-Advance/bme680.c:487-496 | register bytes and a reading from which the wrapped product turns 100 % into 0 % |

## Left out

- RwLock.MutualExclusion: threads unlock only what they hold; the code cannot tell, and returns EPERM only when nobody holds the lock.
- Pipeline.DeadlockFree: without spurious wakeups at the barrier; what they do there is in the barrier's own results.
- Compensation.PressedFalls: about the division; the correction terms after it may bend the result either way, depending on par_p7 to par_p10.
- Compensation.PressureExactIff: between 4278000000 and 4320000000 after the division par_p8 and par_p9 decide, as PressureExact says.
- Compensation.TFineMonotone: par_t2 >= 8192 is sufficient; the exact threshold depends on the other calibration values.
- SpiPages.RefinesFlatFile: single-byte accesses; the registers change only by the driver's writes; the STATUS read at bme680_spi.c:42, whose command byte has bit 7 clear, is taken to be a read; the page bit, which the repository does not define, is bit 4 as the comment there says; a failed transfer leaves the chip unchanged.
- Signed wrap-around of overflowing s32 and s64 products is two's complement; the temperature formula is modelled on unbounded integers, whose bound shows that nothing overflows.
- The C memory model: every access to a shared variable is one atomic step, in program order.
- One timed-out thread may consume any number of signals in the model; runs in which it consumes at most one are among those covered.
- Real time: deadlines are nondeterministic steps.
- Initialisation and allocation: several init functions assign a local pointer; the model starts from the state they intend.
- Teardown: `running` stays set while stages run, so the early returns of think, eat and done are not modelled; stages leave only by finishing their rounds.
- One philosopher (both forks are one mutex) and a monitor of size zero.
- The update of the shared temperature in the stage loop, which no lock protects.
- The thread pool beyond its list: the barrier of num_threads + 1, the event pair, and the ETIMEDOUT branch that goes on without the mutex.
- Gas resistance, whose lookup tables are not part of this model, and the second set of compensation functions.
- The FIFO semaphore, event pair, publish-subscribe, timer, logger, configuration, I2C, IPC, netlink and driver registration code.
