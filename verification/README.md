# Verified models of the firmware framework

This project models six parts of the firmware framework in Dafny and proves what each of them is for.

**The discrete-event scheduler of the simulator** (`impl/sil`). Simulated threads and external events are
grouped into priority brackets; the scheduler runs one of them at a time and advances a virtual clock when
nothing can run. `SchedulerModel` describes it as functions on simulation states. `Scheduler` is the scheduler
with its items as objects that are updated in place, each method proved to do what the function of the same name
does. On the functions rest the theorems: which item runs next, strict priority and bounded waiting (`SchedulerPriority`,
`PriorityBrackets`), what the run of an item does in terms of what application code asks for (`SchedulerItems`), the invariants of every step (`SchedulerInvariants`), what whole runs arrive at, when they
return, and that splitting a run changes nothing (`SchedulerRuns`), termination and success of `Shutdown` and conservation of
events over whole simulations (`SchedulerShutdown`). Application code is a `Program`: deterministic functions of
the history of the simulation, so that every application whose memory is determined by what has happened is one.

**The handshake between the scheduler and the threads** (`Handshake`). Simulated threads are real threads that take
turns by a mutex, a wakeup request each, and a flag. Every interleaving is a behaviour of a transition system with
one program counter for each party. Mutual exclusion is what justifies the sequential scheduler model.

**The I2C timing search** (`I2cTiming`, `TimingRegister`, `ClockSafety`, `KnownTimings`): the search for prescaler, delays
and clock counts in unsigned 32-bit arithmetic in which loop bounds wrap around, the packing of the timing register, which
bounds the timings that are returned keep, and two timings in full.

**The circular buffer** (`CircularBuffer`) with its two iterators over pointers, against "the last N elements pushed".

**The state chart runner** (`StateChartProtocol`, `StateChart`, `StateChartMisuse`): a mailbox for one event that
interrupts fill, and a guard against reentrance. The protocol is a transition system with a stack of calls, in which
an interrupt may be entered between any two steps and transitions may call the runner; it says which calls an
interrupt may make. The runner itself is a class whose methods are proved to be runs of the protocol.

**The CRC and the string builder** (`Bits`, `Crc`, `Decimal`, `StringBuilder`): the bitwise CRC-16 with its
error-detection theorems, and the printing of integers. `Wrappers` and `Modulus` hold small helpers.

What the proofs brought to light about the code:

- Splitting a run of `RunUntil` needs no assumption on the application except that unblock conditions do not read the
  clock; that it never asks for the past is not needed.
- `RunUntilNextTimePoint` turns the clock back exactly if nothing can run and its bound lies in the past
  (`NextTimePointTurnsClockBack` gives a state and a bound). An external event that is registered in the past turns
  the clock back too (`PastEventTurnsClockBack`); `SimulateMisoData` (impl/sil/spi.cppm:147-165) does not refuse one,
  unlike `SimulateRx` (impl/sil/uart.cppm:142-146).
- `RunUntil` returns if and only if there is a rank that every item that runs in the course of the run lowers; it always
  returns for applications that block until later and wait for time only (`ForwardReturns`).
- The error of `Shutdown` that no thread has a timeout cannot occur. If threads finish when they run next, `Shutdown`
  succeeds with as many wakeups as there are running threads and pending events, and never with fewer than running threads.
- The round-robin position moves by one whichever slot ran, and still every item that stays in front runs within as
  many runs as its bracket has members.
- The I2C search chooses no hold delay. It looks at choices whose high period is too short (`HighCanBeTooShort`) or whose
  clock is too fast.
  Every timing that `CalculateI2cTiming` returns keeps all bounds nevertheless, because the coarse prescalers for which
  this matters never come first. `ComputeScllSclh` on other timings can return such a choice (`ReturnsFastClock`);
  source clock and prescaler decide whether it does (`ShortHighExactly`, `FastClockExactly`), and it does not if one
  count is at most 866 ns in standard mode.
- Fast mode and fast mode plus are computed with the clock characteristic of standard mode
  (impl/stm32g4_old/internal/i2c_timing.h:307 and 326), so their clock is never faster than 212 kHz; for a source clock
  of 16 MHz it is 100 kHz in every mode (`SixteenMegahertzTiming`).
- An interrupt that calls `ApplyEvent`, which its documentation forbids, or `ProcessEnqueuedEvent`, which nothing
  forbids, can make an accepted event be overwritten. It can exactly if the guard is free and either some `EnqueueEvent`
  call below it has set the flag of the mailbox and not yet filled the slot, or the call directly below it is a
  `ProcessEnqueuedEvent` call that has seen the flag and not yet taken the guard (`RuleIsExact`).
- `ApplyEvent` leaves the flag of the mailbox set when nothing was queued, so that the next `EnqueueEvent` is refused.
- The CRC detects every burst of 16 bits if and only if bit 15 of the polynomial is set.
- The overflow test of `NumDigits` does not notice that the tenth power of ten does not fit into 32 bits, and the
  result is right for every 32-bit number nevertheless. `Append` of a string refuses one that fits exactly.

## Model

| member | source | states |
|---|---|---|
| SchedulerModel.NextTimeout | impl/sil/scheduler_scheduler.cpp:330-363 | The result is the earliest timeout among the items that count, and none only if no item counts; an item due now counts only if it is at least as good as the minimum priority |
| SchedulerModel.PickMember | impl/sil/scheduler_scheduler.cpp:292-318 | The member found is ready and the first ready one, counted from the round-robin position; if none is found, no member from there on is ready |
| SchedulerModel.PickBracket | impl/sil/scheduler_scheduler.cpp:289-328 | The bracket found has a ready member and no bracket before it has one |
| SchedulerModel.Picked | impl/sil/scheduler_scheduler.cpp:289-328 | Only ready items are picked |
| SchedulerModel.RegisterAllKeepsShape | impl/sil/scheduler_external_event_item.cpp:14-26 | Registering actions leaves time, brackets and threads alone, and never replaces an action that is pending |
| SchedulerModel.RunItemKeepsShape | impl/sil/scheduler_scheduler.cpp:300-313 | Running an item changes neither time nor brackets nor the kinds and priorities of items, and no other thread |
| SchedulerPriority.PickedIsBest | impl/sil/scheduler_scheduler.cpp:289-328 | If an item is ready, an item is picked, and the ready one is not better than it |
| SchedulerPriority.LeastNumberGoesFirst | impl/sil/scheduler.cppm:38-48 | Events go before threads, and among threads as among events no ready one has a lower priority number than the one picked |
| SchedulerPriority.PickedExactly | impl/sil/scheduler_scheduler.cpp:289-328 | An item is picked if and only if it is ready, none is ready in a better bracket, and none in its bracket that is closer, upward and around, to the round-robin position |
| SchedulerPriority.RunsBestReadyItem | impl/sil/scheduler_scheduler.cpp:289-328 | HandleNextItem runs a ready item of the best priority among all ready ones, and runs none exactly if none is ready |
| SchedulerPriority.EventsGoBeforeThreads | impl/sil/scheduler.cppm:38-48 | While an external event stamped with the current time waits, what is run is an external event |
| SchedulerPriority.HandleNextItemKeepsPartition | impl/sil/scheduler_scheduler.cpp:289-328 | The brackets stay a partition of the items by priority; only one round-robin position moves |
| SchedulerPriority.RunWhileInFront | impl/sil/scheduler_scheduler.cpp:315-324 | While an item stays in front, a run brings the round-robin position exactly one closer to it |
| SchedulerPriority.RunsWithinBracketSize | impl/sil/scheduler_scheduler.cpp:289-328 | Bounded waiting: an item that stays ready with no better item ready is run within as many runs as its bracket has members |
| SchedulerPriority.DrainIsRun | impl/sil/scheduler_scheduler.cpp:97-110 | The loop over HandleNextItem ends in the state after some number of item runs, at the first one in which none is ready |
| SchedulerItems.RegisterAllMeans | impl/sil/scheduler_external_event_item.cpp:14-26 | Every free event holds the first action that was registered on it, and none if there was no attempt; nothing else changes; the log grows by the accepted attempts in order |
| SchedulerItems.RegisterMeans | impl/sil/scheduler_external_event_item.cpp:14-26 | A single registration is stored exactly if the event held no action |
| SchedulerItems.EventRunMeans | impl/sil/scheduler_external_event_item.cpp:52-61 | The callback runs with the history so far, what it registers on other free events is stored, and the event itself is free afterwards |
| SchedulerItems.EventRunsExactly | impl/sil/scheduler_external_event_item.cpp:36-46 | An event can run exactly at the time stamp of its pending action |
| SchedulerItems.WakeThreadMeans | impl/sil/scheduler_thread_item.cpp:82-94 | The thread is told the synchronization primitive exactly if it waits on a condition that holds, otherwise the timeout; both reasons are cleared |
| SchedulerItems.BlockMeans | impl/sil/scheduler.cppm:269-300 | The thread blocks as asked for: until a time, on a condition with a timeout, until the earliest timeout of another item that counts or else the bound, with the result which of the two, or for good |
| SchedulerItems.ThreadRunMeans | impl/sil/scheduler_thread_item.cpp:74-95 | A run of a thread in terms of the outcome of its code: the reason told, the events registered, how it blocks, and exactly what is added to the log |
| SchedulerItems.RunsAgainExactly | impl/sil/scheduler_thread_item.cpp:41-52 | While its item is untouched, a thread that blocked until t can run exactly at t, one that blocked on a condition exactly at its timeout or when the condition holds, and one that finished never |
| SchedulerItems.WokenWithReason | impl/sil/scheduler.cppm:139-162 | A thread that blocked on a condition is told SyncPrimitive exactly if the condition holds when it runs again |
| SchedulerItems.RunItemExtendsLog | impl/sil/scheduler_scheduler.cpp:300-313 | The history only grows, by at least one entry for each run |
| PriorityBrackets.FindBracket | impl/sil/scheduler_scheduler.cpp:231-234 | The first bracket of the priority, if there is one |
| PriorityBrackets.AddItem | impl/sil/scheduler_scheduler.cpp:230-257 | After it the brackets group one item more, each by its own priority, with all priorities different |
| PriorityBrackets.Insert | impl/sil/scheduler_scheduler.cpp:259-262 | The result is strictly sorted and holds the new bracket besides the old ones |
| PriorityBrackets.Sort | impl/sil/scheduler_scheduler.cpp:259-262 | Strictly sorted by priority, and a permutation |
| PriorityBrackets.SortedGroupsPartition | impl/sil/scheduler_scheduler.cpp:228-263 | Sorted groups partition all items, best priority first, with round-robin positions zero |
| PriorityBrackets.MembersByPriority | impl/sil/scheduler_scheduler.cpp:228-263 | The members of a bracket are exactly the items of its priority |
| PriorityBrackets.InitialBracketsAreUnique | impl/sil/scheduler_scheduler.cpp:228-263 | There is only one way to build the brackets, however the groups are found |
| SchedulerInvariants.HandleNextItemKeepsValid | impl/sil/scheduler_scheduler.cpp:289-328 | Every step keeps: a thread has a timeout exactly while it is running, and the brackets partition the items |
| SchedulerInvariants.EveryTimeoutCounts | impl/sil/scheduler_scheduler.cpp:330-363 | With the default options the earliest timeout does not depend on the time, and no timeout is left out |
| SchedulerInvariants.DueIsReady | impl/sil/scheduler_thread_item.cpp:37-52 | An item whose timeout is now can be run |
| SchedulerInvariants.NextTimeoutIsReady | impl/sil/scheduler_scheduler.cpp:129-158 | After time has been advanced to the earliest timeout, an item runs |
| SchedulerInvariants.RegisterAllKeepsInTime | impl/sil/scheduler_external_event_item.cpp:14-26 | Registering at the current time or later leaves nothing overdue |
| SchedulerInvariants.RunItemKeepsInTime | impl/sil/scheduler_scheduler.cpp:300-313 | If application code looks ahead, running an item leaves no timeout in the past; the history stays in order, with every run at its time |
| SchedulerInvariants.HandleNextItemKeepsInTime | impl/sil/scheduler_scheduler.cpp:289-328 | The same for a step of the scheduler |
| SchedulerInvariants.RegisterAllBalance | impl/sil/scheduler_external_event_item.cpp:14-26 | An event accepts exactly what becomes pending, and nothing while it holds an action, as during its own callback |
| SchedulerInvariants.RunThreadBalance | impl/sil/scheduler_thread_item.cpp:58-95 | Running a thread keeps accepted = run + pending for every event |
| SchedulerInvariants.RunEventBalance | impl/sil/scheduler_external_event_item.cpp:52-61 | Running an event keeps accepted = run + pending, whatever its callback registers |
| SchedulerInvariants.HandleNextItemConserves | impl/sil/scheduler_scheduler.cpp:289-328 | Every step of the scheduler keeps accepted = run + pending for all events |
| SchedulerInvariants.RegisterConserves | impl/sil/scheduler_external_event_item.cpp:14-26 | So does a registration by the test bench |
| SchedulerRuns.HandleNextItemRunsOne | impl/sil/scheduler_scheduler.cpp:289-328 | A step runs exactly one item |
| SchedulerRuns.IdleUntilNextTimeout | impl/sil/scheduler_scheduler.cpp:69-84 | When nothing can run, nothing can before the earliest timeout |
| SchedulerRuns.StepsAgree | impl/sil/scheduler_scheduler.cpp:56-86 | Runs to an earlier and to a later target take the same steps until the earlier one is done |
| SchedulerRuns.JoinRuns | impl/sil/scheduler_scheduler.cpp:56-86 | Two runs in a row end in the state of the single run |
| SchedulerRuns.SplitRun | impl/sil/scheduler_scheduler.cpp:56-86 | A run that returns can be interrupted at any earlier target, and continued to the same state |
| SchedulerRuns.SplittingChangesNothing | impl/sil/scheduler_scheduler.cpp:56-86 | RunUntil(t1) then RunUntil(t2) returns exactly if RunUntil(t2) does, in the same state and with the same history, inclusive or not |
| SchedulerRuns.RunUntilStepKeepsInTime | impl/sil/scheduler_scheduler.cpp:64-85 | Each iteration keeps everything in time and never turns the clock back or past the target |
| SchedulerRuns.RunUntilMissesNothing | impl/sil/scheduler_scheduler.cpp:56-86 | A run from now ≤ t ends with now = t and no timeout before t; an inclusive one leaves no timeout at t and nothing ready |
| SchedulerRuns.NothingDueWhenIdle | impl/sil/scheduler_scheduler.cpp:64-85 | When nothing can run, every timeout lies in the future |
| SchedulerRuns.ClockGoesBackExactly | impl/sil/scheduler_scheduler.cpp:64-85 | An iteration turns the clock back if and only if nothing can run and some timeout lies in the past |
| SchedulerRuns.PastEventTurnsClockBack | impl/sil/spi.cppm:147-165 | An instance of it: an event registered in the past |
| SchedulerRuns.StepGetsCloser | impl/sil/scheduler_scheduler.cpp:64-85 | Each iteration advances time, or lowers a rank that every run of an item in the course of the run lowers |
| SchedulerRuns.RunUntilReturns | impl/sil/scheduler_scheduler.cpp:56-86 | RunUntil returns, inclusive or not, if every item that runs in the states the run visits lowers some rank |
| SchedulerRuns.ReturnsExactly | impl/sil/scheduler_scheduler.cpp:56-86 | It returns if and only if there is such a rank |
| SchedulerRuns.FewerReadyReturns | impl/sil/scheduler_scheduler.cpp:56-86 | In particular if every item that runs in the states the run visits leaves fewer items ready |
| SchedulerRuns.ForwardLeavesFewerReady | impl/sil/scheduler_scheduler.cpp:289-328 | Which is so for every application that blocks and registers strictly later and has no unblock condition that holds |
| SchedulerRuns.ForwardReturns | impl/sil/scheduler_scheduler.cpp:56-86 | So RunUntil returns for every such application, from every state |
| SchedulerRuns.YieldingForeverNeverReturns | impl/sil/scheduler_thread_item.cpp:69-72 | A thread that only yields keeps RunUntil from returning |
| SchedulerRuns.DrainRunsAll | impl/sil/scheduler_scheduler.cpp:96-105 | Handling items until none is handled leaves none ready, at the same time |
| SchedulerRuns.DrainKeepsInTime | impl/sil/scheduler_scheduler.cpp:96-105 | And keeps everything in time |
| SchedulerRuns.RunUntilNextTimePointMeans | impl/sil/scheduler_scheduler.cpp:88-127 | True exactly if an item ran: then nothing is ready, and time is unchanged or at the earliest timeout; otherwise time is at the bound and all timeouts lie beyond it |
| SchedulerRuns.NextTimePointTurnsClockBackExactly | impl/sil/scheduler_scheduler.cpp:112-118 | It turns the clock back if and only if nothing is ready and the bound lies in the past |
| SchedulerShutdown.NextTimePointTurnsClockBack | impl/sil/scheduler_scheduler.cpp:112-118 | An instance of it, from the start: a thread waits for 20, the simulation runs until 10, and then until the next time point up to 5 |
| SchedulerShutdown.WakeNextMakesProgress | impl/sil/scheduler_scheduler.cpp:135-148 | A time advance is followed by a run of an item |
| SchedulerShutdown.RunningThreadHasTimeout | impl/sil/scheduler_scheduler.cpp:141-145 | While a thread is running there is a timeout, so the error cannot occur |
| SchedulerShutdown.NeverLacksTimeout | impl/sil/scheduler_scheduler.cpp:141-145 | Shutdown never reports that no thread has a timeout |
| SchedulerShutdown.ShutdownIsBounded | impl/sil/scheduler_scheduler.cpp:129-158 | At most two iterations for every wakeup that may be counted; success means all threads stopped within the limit, failure means exactly one wakeup more |
| SchedulerShutdown.LoopStopsAll | impl/sil/scheduler_scheduler.cpp:133-157 | Each wakeup stops at most one thread; when all do as asked, each stops one item |
| SchedulerShutdown.ShutdownStopsAll | impl/sil/scheduler_scheduler.cpp:129-158 | The stop is requested before anything runs; success takes at least as many wakeups as threads are running; for threads that finish when they run next, a limit of running threads plus pending events is enough |
| SchedulerShutdown.ShutdownSucceedsExactly | impl/sil/scheduler_scheduler.cpp:129-158 | For such threads, with no event pending, Shutdown succeeds if and only if the limit is at least the number of running threads |
| SchedulerShutdown.RunUntilConserves | impl/sil/scheduler_scheduler.cpp:56-86 | RunUntil keeps accepted = run + pending |
| SchedulerShutdown.DrainConserves | impl/sil/scheduler_scheduler.cpp:96-105 | So does handling all items |
| SchedulerShutdown.ShutdownConserves | impl/sil/scheduler_scheduler.cpp:129-158 | So does Shutdown, which also keeps everything in time and does not turn the clock back |
| SchedulerShutdown.ExecuteConserves | impl/sil/scheduler_scheduler.cpp:21-158 | So does every command of a test bench |
| SchedulerShutdown.ExecuteKeepsInTime | impl/sil/scheduler_scheduler.cpp:21-158 | Commands that do not ask for the past keep everything in time, and do not turn the clock back |
| SchedulerShutdown.TimeNeverGoesBack | impl/sil/scheduler_scheduler.cpp:21-158 | Nor do sequences of them, from whatever moment of a simulation |
| SchedulerShutdown.EveryEventIsConserved | impl/sil/scheduler_external_event_item.cpp:14-61 | Over every simulation: the actions an event accepted are those it ran, in order, and the one still pending |
| SchedulerShutdown.EverythingRunsOnTime | impl/sil/scheduler_scheduler.cpp:56-158 | Over every simulation that does not ask for the past, between any two moments of it: the clock does not go back, nothing is overdue, every event and every timeout ran at its time |
| Scheduler.ThreadItem.constructor | impl/sil/scheduler_thread_item.cpp:12-17 | A new thread is running and waits for nothing |
| Scheduler.ThreadItem.Initialize | impl/sil/scheduler_thread_item.cpp:19-26 | The thread waits for the epoch |
| Scheduler.ThreadItem.MarkStopped | impl/sil/scheduler_thread_item.cpp:28-31 | The thread is no longer running, nothing else changes |
| Scheduler.ThreadItem.BlockUntilUs | impl/sil/scheduler_thread_item.cpp:64-67 | The thread has the timeout, nothing else changes |
| Scheduler.ThreadItem.BlockOnSyncPrimitive | impl/sil/scheduler.cppm:139-153 | The thread has the timeout and waits for the condition |
| Scheduler.ThreadItem.Woken | impl/sil/scheduler_thread_item.cpp:82-94 | The reason is the condition if it holds and the timeout otherwise; both are cleared |
| Scheduler.ExternalEventItem.constructor | impl/sil/scheduler_external_event_item.cpp:11-12 | A new event has no pending action |
| Scheduler.ExternalEventItem.RegisterPendingAction | impl/sil/scheduler_external_event_item.cpp:14-26 | Accepted exactly if none is pending, and otherwise without effect |
| Scheduler.ExternalEventItem.Reset | impl/sil/scheduler_external_event_item.cpp:59-59 | The action is removed |
| Scheduler.Scheduler.constructor | impl/sil/scheduler.cppm:401-413 | Time is at the epoch and there are no items |
| Scheduler.Scheduler.RegisterPendingAction | impl/sil/scheduler_external_event_item.cpp:14-26 | Refines the registration on states |
| Scheduler.Scheduler.RegisterAll | impl/sil/scheduler_external_event_item.cpp:14-26 | Refines the sequence of registrations whose effect RegisterAllMeans states |
| Scheduler.Scheduler.BlockUntilNextTimePoint | impl/sil/scheduler.cppm:273-292 | Refines blocking until the next time point of an item that is at least as good, or until the bound |
| Scheduler.Scheduler.BlockThread | impl/sil/scheduler_thread_item.cpp:64-72 | Refines the blocking of a thread, whose effect BlockMeans and RunsAgainExactly state |
| Scheduler.Scheduler.RunThread | impl/sil/scheduler_thread_item.cpp:58-95 | Refines a run of a thread |
| Scheduler.Scheduler.RunEvent | impl/sil/scheduler_external_event_item.cpp:52-61 | Refines a run of an event, whose action is only reset when its callback has returned |
| Scheduler.Scheduler.RunItem | impl/sil/scheduler_scheduler.cpp:300-313 | Refines a run of an item |
| Scheduler.Scheduler.RunPicked | impl/sil/scheduler_scheduler.cpp:300-324 | Refines a whole step, given the item that the scan has found |
| Scheduler.Scheduler.HandleNextItem | impl/sil/scheduler_scheduler.cpp:289-328 | The nested loops refine the choice of the next item, which PickedExactly fixes, and its run, and tell whether there was one |
| Scheduler.Scheduler.GetNextBlockTimeout | impl/sil/scheduler_scheduler.cpp:330-363 | The nested loops find the earliest timeout that counts |
| Scheduler.Scheduler.RegisterExternalEvent | impl/sil/scheduler_scheduler.cpp:177-180 | A fresh event without an action is added |
| Scheduler.Scheduler.InitializeThread | impl/sil/scheduler_scheduler.cpp:186-212 | Refused exactly if the scheduler has started or time has moved; otherwise a fresh thread that waits for the epoch is added |
| Scheduler.Scheduler.InitializePriorityBrackets | impl/sil/scheduler_scheduler.cpp:228-263 | The brackets partition all items, best priority first |
| Scheduler.Scheduler.AdvanceTime | impl/sil/scheduler_scheduler.cpp:70-84 | Time is at the earliest timeout, or at the target if there is none up to it |
| Scheduler.Scheduler.RunUntil | impl/sil/scheduler_scheduler.cpp:56-86 | The loop refines RunUntil on states |
| Scheduler.Scheduler.Drain | impl/sil/scheduler_scheduler.cpp:96-105 | The loop refines handling items until none is ready |
| Scheduler.Scheduler.RunUntilNextTimePoint | impl/sil/scheduler_scheduler.cpp:88-127 | Refines RunUntilNextTimePoint on states, with its result |
| Scheduler.Scheduler.AllThreadsStopped | impl/sil/scheduler_scheduler.cpp:365-368 | True exactly if no thread is running |
| Scheduler.Scheduler.WakeNext | impl/sil/scheduler_scheduler.cpp:136-148 | Refines one iteration of Shutdown |
| Scheduler.Scheduler.RequestStop | impl/sil/scheduler_scheduler.cpp:130-131 | The request is recorded |
| Scheduler.Scheduler.Shutdown | impl/sil/scheduler_scheduler.cpp:129-158 | The loop terminates, refines Shutdown on states, which ShutdownStopsAll and ShutdownIsBounded describe, and never reports a missing timeout |
| Scheduler.Scheduler.Start | impl/sil/scheduler_scheduler.cpp:21-54 | Fails exactly if the number of threads is not the announced one; otherwise the epoch has been simulated, inclusively, on freshly built brackets |
| Handshake.InitHolds | impl/sil/scheduler_scheduler.cpp:21-54 | The invariant holds before the start |
| Handshake.SchedStepKeeps | impl/sil/scheduler_scheduler.cpp:300-313 | Every action of the scheduler keeps the invariant |
| Handshake.ThreadStepAt | impl/sil/scheduler_thread_item.cpp:74-95 | What an action of one thread leaves true of every thread |
| Handshake.ThreadStepKeeps | impl/sil/scheduler_thread_item.cpp:19-95 | Every action of a thread keeps the invariant |
| Handshake.InvariantHolds | impl/sil/scheduler_scheduler.cpp:21-54 | The invariant holds in every state of every interleaving |
| Handshake.MutualExclusion | impl/sil/scheduler_scheduler.cpp:300-313 | At most one of the application code of a thread, an event callback and the scan executes at any time, and no thread has an outstanding wakeup during the scan |
| Handshake.ThreadTakesTurn | impl/sil/scheduler_thread_item.cpp:74-80 | A thread ends only its own turn, by blocking or leaving |
| Handshake.RefinesTakingTurns | impl/sil/scheduler_scheduler.cpp:214-226 | Every step of the handshake is a step of taking turns, or none |
| Handshake.OwnerCanStep | impl/sil/scheduler_thread_item.cpp:19-31 | A thread that holds the mutex can go on |
| Handshake.NoDeadlock | impl/sil/scheduler_scheduler.cpp:21-54 | In every reachable state some party can go on |
| Handshake.GetsCloser | impl/sil/scheduler_thread_item.cpp:74-80 | In every reachable state some party has a step that brings the next scan closer |
| Handshake.ReturnsToScan | impl/sil/scheduler_scheduler.cpp:300-313 | From every reachable state, startup included, the scheduler can come back to its scan within Rank steps: at most 8 after it has chosen a thread |
| Handshake.PollsDoNotDelay | impl/sil/scheduler_thread_item.cpp:79-80 | While a thread has its turn, every step of it brings the end of the turn closer, and polls of other threads never put it off |
| Handshake.TurnEnds | impl/sil/scheduler_thread_item.cpp:74-80 | On every path on which the awaited thread takes as many steps as its rank, less one, it gives the turn back, whatever the others do in between |
| Handshake.LostWakeupNeverReturns | impl/sil/scheduler_thread_item.cpp:79-80 | If the wakeup request of the awaited thread were lost, the scheduler would never scan again: with ReturnsToScan, no wakeup is lost |
| Handshake.NonePassed | impl/sil/scheduler_scheduler.cpp:28-30 | The latch is at zero exactly if all threads have passed it |
| I2cTiming.ClockPeriod | impl/stm32g4_old/internal/i2c_timing.h:107-109 | The period of the source clock is at least 1 ns and at most 500 us, so no division by it fails |
| I2cTiming.ComputePrescScldelSdadel | impl/stm32g4_old/internal/i2c_timing.h:94-176 | The result is the first n feasible prescalers in increasing order, or all of them, each with its lexicographically least delays; EnumeratedMeans and PrescOccursExactly say in numbers what that is |
| I2cTiming.LeastDelaysAreShort | impl/stm32g4_old/internal/i2c_timing.h:120-156 | The hold delay is always zero, and a shorter setup delay would not do |
| I2cTiming.LeastDelaysAreUnique | impl/stm32g4_old/internal/i2c_timing.h:146-169 | A prescaler has one choice of least delays |
| I2cTiming.EnumerationIsUnique | impl/stm32g4_old/internal/i2c_timing.h:146-175 | There is only one enumeration of the feasible prescalers |
| I2cTiming.EnumeratedMeans | impl/stm32g4_old/internal/i2c_timing.h:146-169 | In numbers: no hold delay, and the least setup delay for which (scldel + 1)(presc + 1) source periods reach the setup time |
| I2cTiming.PrescOccursExactly | impl/stm32g4_old/internal/i2c_timing.h:146-169 | A prescaler occurs if and only if 16 (presc + 1) source periods reach the setup time |
| I2cTiming.LowerBoundMeans | impl/stm32g4_old/internal/i2c_timing.h:224-234 | A lower bound that wraps around admits exactly the counts above the true bound, and none if it wraps |
| I2cTiming.UpperBoundMeans | impl/stm32g4_old/internal/i2c_timing.h:235-243 | The same for the upper bound |
| I2cTiming.LoopsAreCandidates | impl/stm32g4_old/internal/i2c_timing.h:214-245 | The loops visit exactly the counts that meet the unwrapped conditions on the clock |
| I2cTiming.CandidateIsSafe | impl/stm32g4_old/internal/i2c_timing.h:220-253 | Every visited choice has tLOW above its minimum and tSCL, with two counts more, up to its maximum; tHIGH may be short of its minimum, by less than one count, and tSCL of its minimum, by less than two |
| I2cTiming.HighCanBeTooShort | impl/stm32g4_old/internal/i2c_timing.h:224-253 | A visited choice with a high period of 3956 ns against 4000 |
| I2cTiming.ErrorFits | impl/stm32g4_old/internal/i2c_timing.h:248-259 | The times and the deviation are computed without wrapping, and the deviation is below the initial one |
| I2cTiming.ClockError | impl/stm32g4_old/internal/i2c_timing.h:248-259 | The error is the distance of the true period from the ideal one |
| I2cTiming.SearchSclh | impl/stm32g4_old/internal/i2c_timing.h:224-269 | After the inner loop, the best choice so far is the first with the least error |
| I2cTiming.SearchScll | impl/stm32g4_old/internal/i2c_timing.h:212-270 | The same after the middle loop |
| I2cTiming.BestIsUnique | impl/stm32g4_old/internal/i2c_timing.h:261-268 | There is only one first choice with the least error |
| I2cTiming.ComputeScllSclh | impl/stm32g4_old/internal/i2c_timing.h:178-281 | The result is the first of all admissible choices with the least deviation from the ideal period, and nothing exactly if there is no admissible choice |
| TimingRegister.PackKeepsFields | impl/stm32g4_old/internal/i2c_timing.h:293-299 | The packed word holds all five fields and no other bits |
| TimingRegister.DecodeEncode | impl/stm32g4_old/internal/i2c_timing.h:293-299 | The register decodes back to the timing, and its reserved bits are zero |
| TimingRegister.NeverFull | impl/stm32g4_old/internal/i2c_timing.h:287-291 | 128 places are enough for all feasible prescalers |
| TimingRegister.CalculatedMeans | impl/stm32g4_old/internal/i2c_timing.h:283-342 | A calculated timing has the least delays of its mode and counts that are admissible in standard mode, and all fields fit |
| TimingRegister.CalculationIsUnique | impl/stm32g4_old/internal/i2c_timing.h:283-342 | Source clock and mode determine the timing |
| TimingRegister.SixteenMegahertzHasTiming | impl/stm32g4_old/internal/i2c_timing.h:283-342 | The search does find something: a source clock of 16 MHz has a timing in every mode |
| TimingRegister.CalculateI2cTiming | impl/stm32g4_old/internal/i2c_timing.h:283-342 | The word decodes to the calculated timing, with reserved bits zero, and with its delays and counts as CalculatedMeans and RegisterWords state; there is no word exactly if there is no timing |
| TimingRegister.FastModesAreNotFast | impl/stm32g4_old/internal/i2c_timing.h:304-339 | In every mode the clock period is above 4.7 us, so the clock is at most 212 kHz |
| ClockSafety.CalculatedIsSafe | impl/stm32g4_old/internal/i2c_timing.h:283-342 | Every calculated timing, in every mode and for every source clock, has tLOW and tHIGH at least their minima and tSCL between clk_min and clk_max, all of standard mode |
| KnownTimings.SixteenMegahertzTiming | impl/stm32g4_old/internal/i2c_timing.h:283-342 | The timing for a source clock of 16 MHz in full, in every mode; it gives 100 kHz in the fast modes, too |
| KnownTimings.DividedTiming | impl/stm32g4_old/internal/i2c_timing.h:283-342 | The timing for a source clock of 170 MHz in full, in every mode: prescaler 4, which is the first that comes within 6 ns of the ideal period |
| KnownTimings.DecodeIsInjective | impl/stm32g4_old/internal/i2c_timing.h:293-299 | Fields and reserved bits determine the register value |
| KnownTimings.RegisterWords | impl/stm32g4_old/internal/i2c_timing.h:293-299 | In standard mode the register value is 0x00305047 for 16 MHz and 0x4080AD9A for 170 MHz |
| ClockSafety.ShortHighIsForeseen | impl/stm32g4_old/internal/i2c_timing.h:178-281 | For any timings and characteristic: if the returned tHIGH is too short, HighFallsShort holds of source clock and prescaler |
| ClockSafety.FastClockIsForeseen | impl/stm32g4_old/internal/i2c_timing.h:178-281 | If the returned tSCL is below clk_min, ClockTooFast holds of source clock and prescaler |
| ClockSafety.ShortHighExactly | impl/stm32g4_old/internal/i2c_timing.h:178-281 | For any timings, the returned tHIGH is too short if and only if HighFallsShort holds of source clock and prescaler |
| ClockSafety.ShortHighOfOne | impl/stm32g4_old/internal/i2c_timing.h:178-281 | For a single prescaler, where HighFallsShort also says that something is returned |
| ClockSafety.FastClockExactly | impl/stm32g4_old/internal/i2c_timing.h:178-281 | For any timings, the returned tSCL is below clk_min if and only if ClockTooFast holds |
| ClockSafety.FastClockOfOne | impl/stm32g4_old/internal/i2c_timing.h:178-281 | For a single prescaler, where ClockTooFast also says that something is returned |
| ClockSafety.AllAreTooFast | impl/stm32g4_old/internal/i2c_timing.h:220-245 | Where ClockTooFast holds, every choice that the search looks at is too fast |
| ClockSafety.FineIsSafe | impl/stm32g4_old/internal/i2c_timing.h:212-212 | Neither holds if one count is small against the gaps of the characteristic |
| ClockSafety.FineMeans | impl/stm32g4_old/internal/i2c_timing.h:44-84 | Which is up to 866 ns in standard mode, 306 ns in fast mode and 122 ns in fast mode plus |
| ClockSafety.ReturnsFastClock | impl/stm32g4_old/internal/i2c_timing.h:178-281 | An instance that is returned: at 10.638 MHz with prescaler 15 alone, standard mode, tSCL is 7996 ns against 8333, and tHIGH 3246 ns against 4000 |
| CircularBuffer.WriteOnlyCircularBuffer.constructor | core/hstd/buffers.cppm:286-289 | The buffer is empty |
| CircularBuffer.WriteOnlyCircularBuffer.Push | core/hstd/buffers.cppm:188-198 | The element is added, and the head points at it |
| CircularBuffer.WriteOnlyCircularBuffer.Clear | core/hstd/buffers.cppm:203-207 | The buffer is empty again |
| CircularBuffer.WriteOnlyCircularBuffer.Size | core/hstd/buffers.cppm:255-261 | The size is that of the last N elements pushed since the last clear |
| CircularBuffer.WriteOnlyCircularBuffer.Head | core/hstd/buffers.cppm:213-213 | Null exactly if the buffer is empty, and otherwise at the newest element |
| CircularBuffer.WriteOnlyCircularBuffer.Get | core/hstd/buffers.cppm:271-281 | Element k is the k-th oldest of the last N elements pushed |
| CircularBuffer.WriteOnlyCircularBuffer.Begin | core/hstd/buffers.cppm:215-226 | The iterator is at the oldest element, or at the end if there is none |
| CircularBuffer.WriteOnlyCircularBuffer.End | core/hstd/buffers.cppm:228-230 | The end sentinel is where a walk ends |
| CircularBuffer.WriteOnlyCircularBuffer.RBegin | core/hstd/buffers.cppm:232-239 | The iterator is at the newest element, or at the reverse end |
| CircularBuffer.WriteOnlyCircularBuffer.REnd | core/hstd/buffers.cppm:241-249 | The reverse end sentinel, which differs between filled and unfilled buffers, is where a walk backward ends |
| CircularBuffer.WriteOnlyCircularBuffer.StepForward | core/hstd/buffers.cppm:110-119 | Each step of the iterator goes from an element to the next newer one, and reaches the sentinel not before the end |
| CircularBuffer.WriteOnlyCircularBuffer.StepBackward | core/hstd/buffers.cppm:50-59 | The same backward |
| CircularBuffer.WriteOnlyCircularBuffer.Forward | core/hstd/buffers.cppm:110-119 | A walk yields the last N elements pushed, oldest first, in exactly size steps |
| CircularBuffer.WriteOnlyCircularBuffer.Backward | core/hstd/buffers.cppm:50-59 | A walk backward yields their reverse, in exactly size steps |
| CircularBuffer.Iterator.Next | core/hstd/buffers.cppm:110-119 | The pointer moves as the walk needs it |
| CircularBuffer.ReverseIterator.Next | core/hstd/buffers.cppm:50-59 | The same backward |
| StateChartProtocol.BeginKeepsInv | core/sc/core.cppm:253-328 | A call that begins keeps the invariant: EnqueueEvent at any moment, the others whenever the rule of RuleIsExact allows them |
| StateChartProtocol.EnqueueKeepsInv | core/sc/core.cppm:294-302 | So does every step of EnqueueEvent, in any nesting of interrupts |
| StateChartProtocol.ApplyKeepsInv | core/sc/core.cppm:253-285 | So does every step of ApplyEvent |
| StateChartProtocol.ProcessKeepsInv | core/sc/core.cppm:307-328 | So does every step of ProcessEnqueuedEvent |
| StateChartProtocol.FinishKeepsInv | core/sc/core.cppm:142-165 | So does a transition that returns a new state |
| StateChartProtocol.DoKeepsInv | core/sc/core.cppm:253-328 | Every step of every call keeps the invariant |
| StateChartProtocol.RunKeepsInv | core/sc/core.cppm:253-328 | The invariant holds after every run, with interrupts that make any call, at any moment, that cannot lose an event (RuleIsExact) |
| StateChartProtocol.FilledSlotIsFlagged | core/sc/core.cppm:294-302 | A filled slot is flagged and no call is about to fill it, so no event is overwritten |
| StateChartProtocol.AcceptedEventsAreConsumedOnce | core/sc/core.cppm:253-328 | Over every run: the accepted events are those given to the chart, once each and in order, at most one in the hands of a call, and at most one in the slot |
| StateChartProtocol.EarlierEventsComeFirst | core/sc/core.cppm:253-281 | When the event of an ApplyEvent call is applied, all events accepted before the call have been given to the chart |
| StateChartProtocol.ProcessingEmptiesTheMailbox | core/sc/core.cppm:307-328 | When ProcessEnqueuedEvent has had the guard, all events accepted before the call have been given to the chart |
| StateChartProtocol.TransitionsDoNotNest | core/hstd/atomic.cppm:77-96 | No transition runs inside another, and the state and the queued event that a transition refers to do not change under it |
| StateChartProtocol.StateIsTheResultOfTheLog | core/sc/core.cppm:142-165 | The state is what the events given to the chart have made of the initial one, one after the other, each by a transition exactly if there is one |
| StateChartProtocol.ApplyReportsItsTransition | core/sc/core.cppm:272-284 | The result of ApplyEvent tells whether its event had a transition in the state that it met |
| StateChartProtocol.NestedCallsAreRefused | core/hstd/atomic.cppm:77-96 | While the guard is held, calls of ApplyEvent and ProcessEnqueuedEvent have no effect at all, whoever makes them |
| StateChartProtocol.ReentrantCallsAreRefused | core/hstd/atomic.cppm:77-96 | In particular those made by the code of a transition |
| StateChart.StateChartRunner.constructor | core/sc/core.cppm:241-242 | The runner is in the initial state of the protocol |
| StateChart.StateChartRunner.EnqueueEvent | core/sc/core.cppm:294-302 | Accepted exactly if the flag was clear, and then in the slot; refused without effect; a run of the protocol |
| StateChart.StateChartRunner.Interrupt | core/sc/core.cppm:287-302 | Interrupts that find the flag set change nothing, others only the mailbox |
| StateChart.StateChartRunner.Transition | core/sc/core.cppm:142-165 | The chart goes to the state that the transition returns, whatever it calls and whatever interrupts it |
| StateChart.StateChartRunner.ApplyIncoming | core/sc/core.cppm:272-280 | The incoming event is given to the chart, and the result says whether it had a transition |
| StateChart.StateChartRunner.ApplyEvent | core/sc/core.cppm:253-285 | Refused without effect exactly if the guard is set; otherwise the event is given to the chart after all events accepted before; a run of the protocol |
| StateChart.StateChartRunner.NothingIsWaiting | core/sc/core.cppm:307-308 | If the flag is clear, every accepted event has been given to the chart |
| StateChart.StateChartRunner.ProcessEnqueuedEvent | core/sc/core.cppm:307-328 | Refused without effect if the guard is set; otherwise all events accepted before have been given to the chart; a run of the protocol |
| StateChartMisuse.ApplyInInterrupt | core/sc/core.cppm:244-250 | ApplyEvent in an interrupt, which the documentation forbids, clears a flag that another call relies on |
| StateChartMisuse.ProcessInInterrupt | core/sc/core.cppm:304-328 | So does ProcessEnqueuedEvent, which it does not forbid |
| StateChartMisuse.CallWhileFillingLosesAnEvent | core/sc/core.cppm:294-302 | If either interrupts EnqueueEvent before the slot is filled, of two accepted events the first is overwritten and never given to the chart |
| StateChartMisuse.CallWhileAcquiringLosesAnEvent | core/sc/core.cppm:307-326 | The same if it interrupts ProcessEnqueuedEvent before the guard is taken |
| StateChartMisuse.FillingBelowLoses | core/sc/core.cppm:294-302 | The same if further EnqueueEvent calls lie between the one that is about to fill the slot and the interrupt |
| StateChartMisuse.ForbiddenLoses | core/sc/core.cppm:253-328 | Every call that the rule forbids can lead to a lost event, whatever the slot holds and whichever transitions there are |
| StateChartMisuse.AllowedLosesNothing | core/sc/core.cppm:253-328 | No call that it allows can |
| StateChartMisuse.RuleIsExact | core/sc/core.cppm:253-328 | In every reachable state, a call of ApplyEvent or ProcessEnqueuedEvent can lead to a lost event if and only if the rule forbids it: the guard is free, and either some EnqueueEvent is about to fill the slot or the innermost call is about to take the guard |
| StateChartMisuse.RuleIsEnough | core/sc/core.cppm:253-328 | While the rule is kept, nothing is lost |
| StateChartMisuse.ApplyLeavesFlagSet | core/sc/core.cppm:253-270 | From the start, an ApplyEvent call without a transition leads to an empty slot whose flag is set |
| StateChartMisuse.AcquiringIsReached | core/sc/core.cppm:307-326 | Both moments occur: ProcessEnqueuedEvent about to take the guard with an empty slot |
| StateChartMisuse.FillingIsReached | core/sc/core.cppm:294-302 | And EnqueueEvent about to fill the slot |
| Crc.Crc16 | core/hstd/crc.cppm:15-31 | The two loops compute the function that the theorems are about, for every message, polynomial and initial value |
| Crc.KnownMessage | test/core/hstd/test_crc.cpp:5-11 | The CRC of AA BB CC DD is A4C4 |
| Crc.Composition | core/hstd/crc.cppm:15-31 | The CRC of a concatenation is the CRC of the second part started from that of the first |
| Crc.ZeroResidue | core/hstd/crc.cppm:15-31 | A message followed by its CRC, low byte first as in section 2.5.1.2 of MODBUS over Serial Line V1.02, has CRC zero |
| Crc.StepIsLinear | core/hstd/crc.cppm:21-27 | A bit step is linear over GF(2) |
| Crc.CrcTakesBits | core/hstd/crc.cppm:15-31 | The CRC takes its message bit by bit, least significant bit of each byte first |
| Crc.CrcIsAffine | core/hstd/crc.cppm:15-31 | Differences of messages and initial values add up in the CRC |
| Crc.DetectionDependsOnDifference | core/hstd/crc.cppm:15-31 | Whether an error is detected depends on the differing bits alone |
| Crc.BitsToZero | core/hstd/crc.cppm:21-27 | Up to 16 bits take the register to zero only if they are its own bits |
| Crc.BurstIsDetected | core/hstd/crc.cppm:15-31 | With bit 15 of the polynomial set, different messages of equal length that differ only within 16 consecutive bits have different CRCs, for every initial value |
| Crc.TwoBytesAreDetected | core/hstd/crc.cppm:15-31 | In particular messages that differ in two neighbouring bytes |
| Crc.BurstIsMissed | core/hstd/crc.cppm:15-31 | With bit 15 clear, two different messages of two bytes have the same CRC, for every initial value |
| Decimal.DigitsOfValue | core/hstd/static_string_builder.cppm:77-89 | The digits of a number have its value and no leading zero |
| Decimal.CanonicalIsUnique | core/hstd/static_string_builder.cppm:77-89 | No other digits without a leading zero have that value |
| Decimal.DigitCount | core/hstd/math.cppm:100-116 | A number with k digits lies between two powers of ten |
| Decimal.NumDigits | core/hstd/math.cppm:100-116 | The result is the number of digits, for every 32-bit number, in wrapping 32-bit arithmetic |
| StringBuilder.TextRoundTrip | core/hstd/static_string_builder.cppm:17-31 | The notation of an integer, with its sign, stands for the integer |
| StringBuilder.StaticStringBuilder.constructor | core/hstd/static_string_builder.cppm:94-95 | The builder is empty |
| StringBuilder.StaticStringBuilder.AppendChar | core/hstd/static_string_builder.cppm:46-57 | Appended exactly if there is room; what was there stays |
| StringBuilder.StaticStringBuilder.AppendString | core/hstd/static_string_builder.cppm:33-44 | Appended exactly if it leaves a character free; what was there stays |
| StringBuilder.StaticStringBuilder.ExtractDigits | core/hstd/static_string_builder.cppm:73-83 | The scratch array is large enough and holds the digits, last one first |
| StringBuilder.StaticStringBuilder.WriteUnsignedIntDecimal | core/hstd/static_string_builder.cppm:68-92 | As many digits as there is room for are appended; it succeeds exactly if all are; what was there stays |
| StringBuilder.StaticStringBuilder.AppendUnsigned | core/hstd/static_string_builder.cppm:17-31 | The same for the notation of an unsigned integer |
| StringBuilder.StaticStringBuilder.AppendSigned | core/hstd/static_string_builder.cppm:17-31 | The same for a signed integer, sign included |
| StringBuilder.AppendedTextReadsBack | core/hstd/static_string_builder.cppm:17-92 | What a successful call appends can be read back as the integer, after what was there |

## Left out

- Scheduler.Scheduler.RunUntil: takes as ghost argument a number of iterations after which the run returns, because not every application lets it return (`RunUntilReturns`, `YieldingForeverNeverReturns`); likewise `Drain`, `RunUntilNextTimePoint` and `Start`. `Shutdown` needs none.
- Scheduler.Scheduler.AdvanceTime: part of the body of RunUntil that is a method of its own here; likewise `Drain`, `WakeNext`, `RequestStop` and `RunPicked`, the loops `SearchScll` and `SearchSclh` of the I2C search, and the parts of `ApplyEvent` and `ProcessEnqueuedEvent`.
- Scheduler.Scheduler.Start: the latch and the mutex are in `Handshake`; here all announced threads have come up.
- Application code whose behaviour depends on more than the history, or that throws. A refused registration throws in the program; here it is refused and the application code goes on.
- External events that are registered after the start: they are in no bracket and never run.
- `CheckSyncPrimitivePreemption`, the `exclude_now` option, and the identity checks on threads (a run started from a simulated thread, a thread initialized twice).
- The addition of a duration to the current time in `BlockCurrentThreadFor`; time points are compared and copied only, so their 64-bit width does not show.
- Handshake.ReturnsToScan: says that the scan can be reached, and PollsDoNotDelay that nothing undoes what has been achieved; that the operating system lets the right party go on is not part of this model.
- The condition variable: a timed wait is a poll that may look at any time. Operating-system threads and their creation are not part of this model.
- I2cTiming.ComputePrescScldelSdadel: for source clocks from 2 kHz to 2 GHz. Above that the clock period rounds to zero and is divided by, below it products leave 32 bits. The entries of the array that the program leaves zero are not part of the result.
- TimingRegister.FastModesAreNotFast: describes the code as it is, with the clock characteristic of standard mode in every mode.
- Copying and moving a circular buffer: the storage is copied but the positions are reset. The postfix increments of the iterators, which do what the prefix ones do.
- StateChartProtocol.RunKeepsInv: consecutive operations on the state of the chart, which no interrupt touches, are one step.
- StateChart.StateChartRunner.ApplyEvent: in the class, interrupts only enqueue, and the other calls come from the main loop and from transitions; what else interrupts may do is in the protocol.
- StateChart.StateChartRunner.Transition: the state that a transition returns is a function of the old one and the event; in the protocol it is arbitrary. A transition calls the runner before its last interrupts.
- Transition tables, which are built at compile time from state and event types: here any relation of states and events.
- Decimal.NumDigits: base ten and 32 bits only.
- StringBuilder.StaticStringBuilder.AppendSigned: the least 32-bit integer has no counterpart above zero, and its negation is undefined in the program. Wider integers are cut to 32 bits by the program and are not modelled.
- Register setup, DMA and pin tables, enumerations of clocks, calls of the hardware abstraction layer, floating-point code, code generators, proxies and viewers.
