/**
 Shutting the scheduler down: it always returns, and a run of commands of any kind keeps
 everything that holds at the start.
 */
module SchedulerShutdown {
  import opened Wrappers
  import opened SchedulerModel
  import opened SchedulerPriority
  import opened SchedulerInvariants
  import opened SchedulerRuns
  import opened SchedulerItems

  datatype ShutdownResult = AllStopped | NoTimeoutSet | TooManyWakeups

  predicate AllThreadsStopped(items: seq<Item>) {
    forall id :: 0 <= id < |items| && items[id].Thread? ==> !items[id].running
  }

  // The next state, and whether an item was run to get there: otherwise time has advanced.
  function WakeNext(p: Program, s: Sim): Option<(Sim, bool)> {
    var ran := HandleNextItem(p, s);
    if ran.Some? then Some((ran.value, true))
    else
      var next := NextTimeout(s.items, s.now, LOWEST_PRIO);
      if next.Some? then Some((s.(now := next.value), false)) else None
  }

  // 0 when the next iteration runs an item, 1 when it advances time first.
  function Delay(p: Program, s: Sim): (d: nat)
    ensures d <= 1
  {
    if HandleNextItem(p, s).Some? then 0 else 1
  }

  lemma WakeNextMakesProgress(p: Program, s: Sim)
    requires Valid(s) && WakeNext(p, s).Some?
    ensures var (r, ran) := WakeNext(p, s).value;
            && Valid(r) && ran == (Delay(p, s) == 0)
            && (!ran ==> Delay(p, r) == 0)
            && Runs(r.log) == Runs(s.log) + (if ran then 1 else 0)
  {
    HandleNextItemKeepsValid(p, s);
    HandleNextItemRunsOne(p, s);
    if HandleNextItem(p, s).None? {
      NextTimeoutIsReady(p, s);
    }
  }

  // The rest of the Shutdown loop after so many wakeups. Its termination measure: a time advance
  // is always followed by an item run.
  function ShutdownLoop(p: Program, s: Sim, wakeups: nat, maxWakeups: nat): (Sim, ShutdownResult)
    requires Valid(s) && wakeups <= maxWakeups
    decreases maxWakeups - wakeups, Delay(p, s)
  {
    if AllThreadsStopped(s.items) then (s, AllStopped)
    else if WakeNext(p, s).None? then (s, NoTimeoutSet)
    else
      var (r, ran) := WakeNext(p, s).value;
      WakeNextMakesProgress(p, s);
      if !ran then ShutdownLoop(p, r, wakeups, maxWakeups)
      else if wakeups + 1 > maxWakeups then (r, TooManyWakeups)
      else ShutdownLoop(p, r, wakeups + 1, maxWakeups)
  }

  // The first step of the Shutdown loop.
  lemma TakesStep(p: Program, s: Sim, wakeups: nat, maxWakeups: nat)
    requires Valid(s) && wakeups <= maxWakeups
    ensures var next := WakeNext(p, s);
            && (next.Some? ==> Valid(next.value.0))
            && ShutdownLoop(p, s, wakeups, maxWakeups) ==
               if AllThreadsStopped(s.items) then (s, AllStopped)
               else if next.None? then (s, NoTimeoutSet)
               else if !next.value.1 then ShutdownLoop(p, next.value.0, wakeups, maxWakeups)
               else if wakeups + 1 > maxWakeups then (next.value.0, TooManyWakeups)
               else ShutdownLoop(p, next.value.0, wakeups + 1, maxWakeups)
  {
    if WakeNext(p, s).Some? {
      WakeNextMakesProgress(p, s);
    }
  }

  lemma RequestKeepsValid(s: Sim)
    requires Valid(s)
    ensures Valid(s.(log := s.log + [StopRequested(s.now)]))
  {
  }

  function Shutdown(p: Program, s: Sim, maxWakeups: nat): (Sim, ShutdownResult)
    requires Valid(s)
  {
    ShutdownLoop(p, s.(log := s.log + [StopRequested(s.now)]), 0, maxWakeups)
  }

  // How often the body of the Shutdown loop is executed.
  function Iterations(p: Program, s: Sim, wakeups: nat, maxWakeups: nat): nat
    requires Valid(s) && wakeups <= maxWakeups
    decreases maxWakeups - wakeups, Delay(p, s)
  {
    if AllThreadsStopped(s.items) then 0
    else if WakeNext(p, s).None? then 1
    else
      var (r, ran) := WakeNext(p, s).value;
      WakeNextMakesProgress(p, s);
      if !ran then 1 + Iterations(p, r, wakeups, maxWakeups)
      else if wakeups + 1 > maxWakeups then 1
      else 1 + Iterations(p, r, wakeups + 1, maxWakeups)
  }

  // A running thread always has a timeout, so there is always something to wake.
  lemma RunningThreadHasTimeout(p: Program, s: Sim)
    requires Valid(s) && !AllThreadsStopped(s.items)
    ensures WakeNext(p, s).Some?
  {
    var id :| 0 <= id < |s.items| && s.items[id].Thread? && s.items[id].running;
    assert Settled(s.items[id]);
    EveryTimeoutCounts(s.items, s.now, s.now);
    assert Eligible(s.items[id], s.now, LOWEST_PRIO);
  }

  /**
   Shutdown runs its loop body at most twice for every wakeup it may count. It never reports that
   no thread has a timeout. It reports that all threads have stopped when they have after at most
   maxWakeups items, and it gives up after exactly one item more.
   */
  lemma {:induction false} ShutdownIsBounded(p: Program, s: Sim, wakeups: nat, maxWakeups: nat)
    requires Valid(s) && wakeups <= maxWakeups
    ensures Iterations(p, s, wakeups, maxWakeups) <= 2 * (maxWakeups + 1 - wakeups) - 1 + Delay(p, s)
    ensures var (r, result) := ShutdownLoop(p, s, wakeups, maxWakeups);
            && Valid(r) && Runs(s.log) <= Runs(r.log)
            && match result
               case AllStopped => AllThreadsStopped(r.items) && Runs(r.log) - Runs(s.log) <= maxWakeups - wakeups
               case TooManyWakeups => Runs(r.log) - Runs(s.log) == maxWakeups + 1 - wakeups
               case NoTimeoutSet => false
    decreases maxWakeups - wakeups, Delay(p, s)
  {
    hide WakeNext, HandleNextItem, Delay;
    if !AllThreadsStopped(s.items) {
      RunningThreadHasTimeout(p, s);
      WakeNextMakesProgress(p, s);
      var (r, ran) := WakeNext(p, s).value;
      if !ran {
        ShutdownIsBounded(p, r, wakeups, maxWakeups);
      } else if wakeups + 1 <= maxWakeups {
        ShutdownIsBounded(p, r, wakeups + 1, maxWakeups);
      }
    }
  }

  lemma NeverLacksTimeout(p: Program, s: Sim, maxWakeups: nat)
    requires Valid(s)
    ensures ShutdownLoop(p, s, 0, maxWakeups).1 != NoTimeoutSet
  {
    ShutdownIsBounded(p, s, 0, maxWakeups);
  }

  // ---------------------------------------------------------------------------------------
  // How many wakeups a shutdown takes

  predicate StopAsked(log: seq<Entry>) {
    exists i :: 0 <= i < |log| && log[i].StopRequested?
  }

  // Once a stop has been requested, threads finish when they run next, and nothing registers an action any more.
  ghost predicate ObeysStop(p: Program) {
    && (forall id, now, reason, log :: StopAsked(log) ==> p.threadCode(id, now, reason, log) == Outcome([], Finish))
    && (forall callback, now, log :: StopAsked(log) ==> p.callbackCode(callback, now, log) == [])
  }

  function RunningItems(items: seq<Item>): set<nat> {
    set id | 0 <= id < |items| && items[id].IsRunning()
  }

  function RunningThreads(items: seq<Item>): set<nat> {
    set id | 0 <= id < |items| && items[id].Thread? && items[id].running
  }

  lemma WithoutOne(a: set<nat>, x: nat)
    requires x in a
    ensures |a - {x}| == |a| - 1
  {
  }

  lemma RunStopsOne(p: Program, s: Sim, id: nat)
    requires ObeysStop(p) && StopAsked(s.log) && Ready(p, s, id)
    ensures RunningItems(RunItem(p, s, id).items) == RunningItems(s.items) - {id}
  {
    if s.items[id].Thread? {
      var _ := ThreadRunMeans(p, s, id);
    } else {
      EventRunMeans(p, s, id);
    }
    hide RunItem, ObeysStop;
  }

  // An item that runs stops no thread but itself.
  lemma RunStopsNoOther(p: Program, s: Sim, id: nat)
    requires Ready(p, s, id)
    ensures RunningThreads(s.items) - {id} <= RunningThreads(RunItem(p, s, id).items)
  {
    RunItemKeepsShape(p, s, id);
    hide RunItem;
  }

  lemma HandleNextItemStops(p: Program, s: Sim)
    requires HandleNextItem(p, s).Some?
    ensures var r := HandleNextItem(p, s).value;
            && s.log <= r.log
            && |RunningThreads(s.items)| <= |RunningThreads(r.items)| + 1
            && (ObeysStop(p) && StopAsked(s.log) ==> |RunningItems(r.items)| + 1 == |RunningItems(s.items)|)
  {
    var id := Picked(p, s).value;
    RunItemKeepsShape(p, s, id);
    var r := HandleNextItem(p, s).value;
    assert r.items == RunItem(p, s, id).items && r.log == RunItem(p, s, id).log;
    RunItemExtendsLog(p, s, id);
    RunStopsNoOther(p, s, id);
    SubsetIsSmaller(RunningThreads(s.items) - {id}, RunningThreads(r.items));
    if id in RunningThreads(s.items) {
      WithoutOne(RunningThreads(s.items), id);
    } else {
      assert RunningThreads(s.items) - {id} == RunningThreads(s.items);
    }
    hide RunItem, HandleNextItem, Picked, PickBracket, PickMember, ObeysStop, StopAsked;
    if ObeysStop(p) && StopAsked(s.log) {
      RunStopsOne(p, s, id);
      WithoutOne(RunningItems(s.items), id);
    }
  }

  lemma WakeNextStops(p: Program, s: Sim)
    requires WakeNext(p, s).Some?
    ensures var (r, ran) := WakeNext(p, s).value;
            && s.log <= r.log
            && |RunningThreads(s.items)| <= |RunningThreads(r.items)| + (if ran then 1 else 0)
            && (ObeysStop(p) && StopAsked(s.log) ==> |RunningItems(r.items)| + (if ran then 1 else 0) == |RunningItems(s.items)|)
  {
    hide HandleNextItem, ObeysStop, StopAsked;
    if HandleNextItem(p, s).Some? {
      HandleNextItemStops(p, s);
    }
  }

  lemma StopStaysAsked(log: seq<Entry>, later: seq<Entry>)
    requires StopAsked(log) && log <= later
    ensures StopAsked(later)
  {
    var i :| 0 <= i < |log| && log[i].StopRequested?;
    assert later[i].StopRequested?;
  }

  lemma SomeRunning(items: seq<Item>)
    requires !AllThreadsStopped(items)
    ensures |RunningItems(items)| > 0
  {
    var id :| 0 <= id < |items| && items[id].Thread? && items[id].running;
    assert id in RunningItems(items);
  }

  lemma NoneRunning(items: seq<Item>)
    requires AllThreadsStopped(items)
    ensures |RunningThreads(items)| == 0
  {
    assert RunningThreads(items) == {};
  }

  lemma {:induction false} LoopStopsAll(p: Program, s: Sim, wakeups: nat, maxWakeups: nat)
    requires Valid(s) && wakeups <= maxWakeups
    ensures var (r, result) := ShutdownLoop(p, s, wakeups, maxWakeups);
            && s.log <= r.log
            && (result == AllStopped ==> |RunningThreads(s.items)| <= maxWakeups - wakeups)
            && (ObeysStop(p) && StopAsked(s.log) && |RunningItems(s.items)| <= maxWakeups - wakeups ==> result == AllStopped)
    decreases maxWakeups - wakeups, Delay(p, s)
  {
    hide WakeNext, HandleNextItem, Delay, Valid, ShutdownLoop, AllThreadsStopped, ObeysStop, StopAsked, RunningItems, RunningThreads;
    TakesStep(p, s, wakeups, maxWakeups);
    if AllThreadsStopped(s.items) {
      NoneRunning(s.items);
    } else {
      SomeRunning(s.items);
      RunningThreadHasTimeout(p, s);
      WakeNextMakesProgress(p, s);
      WakeNextStops(p, s);
      var (r, ran) := WakeNext(p, s).value;
      if StopAsked(s.log) {
        StopStaysAsked(s.log, r.log);
      }
      if !ran {
        LoopStopsAll(p, r, wakeups, maxWakeups);
      } else if wakeups + 1 <= maxWakeups {
        LoopStopsAll(p, r, wakeups + 1, maxWakeups);
      }
    }
  }

  /**
   Shutdown asks all threads to stop before it runs anything. It cannot succeed with fewer wakeups than threads
   are running. If the threads do as asked when they run next, as many wakeups as there are running threads and
   pending events are enough.
   */
  lemma ShutdownStopsAll(p: Program, s: Sim, maxWakeups: nat)
    requires Valid(s)
    ensures var (r, result) := Shutdown(p, s, maxWakeups);
            && s.log + [StopRequested(s.now)] <= r.log
            && (result == AllStopped ==> |RunningThreads(s.items)| <= maxWakeups)
            && (ObeysStop(p) && |RunningItems(s.items)| <= maxWakeups ==> result == AllStopped)
  {
    var asked := s.(log := s.log + [StopRequested(s.now)]);
    RequestKeepsValid(s);
    LoopStopsAll(p, asked, 0, maxWakeups);
    assert asked.log[|s.log|].StopRequested?;
  }

  /** If no event is pending, that number is exact. */
  lemma ShutdownSucceedsExactly(p: Program, s: Sim, maxWakeups: nat)
    requires Valid(s) && ObeysStop(p)
    requires forall id :: 0 <= id < |s.items| && s.items[id].Event? ==> s.items[id].pending.None?
    ensures Shutdown(p, s, maxWakeups).1 == AllStopped <==> |RunningThreads(s.items)| <= maxWakeups
  {
    assert RunningItems(s.items) == RunningThreads(s.items);
    hide ObeysStop;
    ShutdownStopsAll(p, s, maxWakeups);
  }

  // ---------------------------------------------------------------------------------------
  // Whole simulations

  /** What the test bench can do with a simulation. */
  datatype Command =
    | RegisterEvent(attempt: Attempt)
    | RunTo(time: TimePoint, inclusive: bool)
    | RunToNextTimePoint(upperBound: TimePoint)
    | ShutDown(maxWakeups: nat)

  // The state after a command, None when it does not return with the given fuel.
  function Execute(p: Program, s: Sim, c: Command, fuel: nat): Option<Sim>
    requires Valid(s)
  {
    match c
    case RegisterEvent(attempt) => Some(Register(s, attempt))
    case RunTo(time, inclusive) => RunUntil(p, s, time, inclusive, fuel)
    case RunToNextTimePoint(upperBound) =>
      var r := RunUntilNextTimePoint(p, s, upperBound, fuel);
      if r.Some? then Some(r.value.0) else None
    case ShutDown(maxWakeups) => Some(Shutdown(p, s, maxWakeups).0)
  }

  // A command of a test bench that does not ask for the past.
  predicate CommandAhead(c: Command, now: TimePoint) {
    match c
    case RegisterEvent(attempt) => now <= attempt.action.timestamp
    case RunToNextTimePoint(upperBound) => now <= upperBound
    case _ => true
  }

  lemma RegisterKeepsValid(s: Sim, a: Attempt)
    requires Valid(s)
    ensures Valid(Register(s, a))
  {
    if s.brackets != [] {
      PartitionFrame(s.items, Register(s, a).items, s.brackets, 0);
    }
  }

  lemma {:induction false} RunUntilConserves(p: Program, s: Sim, time: TimePoint, inclusive: bool, fuel: nat)
    requires Valid(s) && Conserved(s) && RunUntil(p, s, time, inclusive, fuel).Some?
    ensures Valid(RunUntil(p, s, time, inclusive, fuel).value)
    ensures Conserved(RunUntil(p, s, time, inclusive, fuel).value)
    decreases fuel
  {
    hide HandleNextItem;
    HandleNextItemKeepsValid(p, s);
    HandleNextItemConserves(p, s);
    var step := RunUntilStep(p, s, time, inclusive);
    if step.More? {
      RunUntilConserves(p, step.next, time, inclusive, fuel - 1);
    }
  }

  lemma {:induction false} DrainConserves(p: Program, s: Sim, fuel: nat)
    requires Valid(s) && Conserved(s) && Drain(p, s, fuel).Some?
    ensures Conserved(Drain(p, s, fuel).value)
    decreases fuel
  {
    hide HandleNextItem;
    HandleNextItemKeepsValid(p, s);
    HandleNextItemConserves(p, s);
    var ran := HandleNextItem(p, s);
    if ran.Some? {
      DrainConserves(p, ran.value, fuel - 1);
    }
  }

  lemma RunKeepsNow(p: Program, s: Sim)
    requires Valid(s)
    ensures HandleNextItem(p, s).Some? ==> HandleNextItem(p, s).value.now == s.now
  {
    if HandleNextItem(p, s).Some? {
      HandleNextItemKeepsPartition(p, s);
    }
  }

  lemma {:induction false} ShutdownConserves(p: Program, s: Sim, wakeups: nat, maxWakeups: nat)
    requires Valid(s) && Conserved(s) && wakeups <= maxWakeups
    ensures Conserved(ShutdownLoop(p, s, wakeups, maxWakeups).0)
    ensures LooksAhead(p) && InTime(s) ==>
              && InTime(ShutdownLoop(p, s, wakeups, maxWakeups).0)
              && s.now <= ShutdownLoop(p, s, wakeups, maxWakeups).0.now
    decreases maxWakeups - wakeups, Delay(p, s)
  {
    if !AllThreadsStopped(s.items) && WakeNext(p, s).Some? {
      var (r, ran) := WakeNext(p, s).value;
      WakeNextMakesProgress(p, s);
      HandleNextItemConserves(p, s);
      EveryTimeoutCounts(s.items, s.now, s.now);
      if LooksAhead(p) && InTime(s) {
        HandleNextItemKeepsInTime(p, s);
      }
      RunKeepsNow(p, s);
      assert Conserved(r) && (LooksAhead(p) && InTime(s) ==> InTime(r) && s.now <= r.now);
      hide WakeNext, HandleNextItem, Delay;
      if !ran {
        ShutdownConserves(p, r, wakeups, maxWakeups);
      } else if wakeups + 1 <= maxWakeups {
        ShutdownConserves(p, r, wakeups + 1, maxWakeups);
      }
    }
  }

  lemma StopRequestKeepsAll(s: Sim)
    requires Valid(s) && Conserved(s)
    ensures var r := s.(log := s.log + [StopRequested(s.now)]);
            Valid(r) && Conserved(r) && (InTime(s) ==> InTime(r))
  {
    forall id | 0 <= id < |s.items| && s.items[id].Event?
      ensures AcceptedBy(s.log + [StopRequested(s.now)], id) == AcceptedBy(s.log, id)
      ensures RanBy(s.log + [StopRequested(s.now)], id) == RanBy(s.log, id)
    {
      LogGrows(s.log, StopRequested(s.now), id);
    }
  }

  lemma ExecuteConserves(p: Program, s: Sim, c: Command, fuel: nat)
    requires Valid(s) && Conserved(s) && Execute(p, s, c, fuel).Some?
    ensures var r := Execute(p, s, c, fuel).value; Valid(r) && Conserved(r)
  {
    hide HandleNextItem, RunUntilStep, WakeNext;
    match c
    case RegisterEvent(attempt) =>
      RegisterKeepsValid(s, attempt);
      RegisterConserves(s, attempt);
    case RunTo(time, inclusive) =>
      RunUntilConserves(p, s, time, inclusive, fuel);
    case RunToNextTimePoint(upperBound) =>
      RunUntilNextTimePointMeans(p, s, upperBound, fuel);
      DrainConserves(p, s, fuel);
      var next := NextTimeout(s.items, s.now, LOWEST_PRIO);
      if HandleNextItem(p, s).None? && next.Some? && next.value <= upperBound {
        DrainConserves(p, s.(now := next.value), fuel);
      }
    case ShutDown(maxWakeups) =>
      StopRequestKeepsAll(s);
      var stopping := s.(log := s.log + [StopRequested(s.now)]);
      ShutdownIsBounded(p, stopping, 0, maxWakeups);
      ShutdownConserves(p, stopping, 0, maxWakeups);
  }

  lemma ExecuteKeepsInTime(p: Program, s: Sim, c: Command, fuel: nat)
    requires LooksAhead(p) && Valid(s) && Conserved(s) && InTime(s) && CommandAhead(c, s.now)
    requires Execute(p, s, c, fuel).Some?
    ensures InTime(Execute(p, s, c, fuel).value) && s.now <= Execute(p, s, c, fuel).value.now
  {
    hide HandleNextItem, RunUntilStep, WakeNext;
    match c
    case RegisterEvent(attempt) =>
      assert RegisterAll(s, [attempt]) == RegisterAll(Register(s, attempt), []);
      RegisterAllKeepsInTime(s, [attempt]);
    case RunTo(time, inclusive) =>
      RunUntilMissesNothing(p, s, time, inclusive, fuel);
    case RunToNextTimePoint(upperBound) =>
      NextTimePointTurnsClockBackExactly(p, s, upperBound, fuel);
    case ShutDown(maxWakeups) =>
      StopRequestKeepsAll(s);
      ShutdownConserves(p, s.(log := s.log + [StopRequested(s.now)]), 0, maxWakeups);
  }

  // The state in which the scheduler starts: every thread waits for the epoch.
  ghost predicate IsStart(s: Sim) {
    && s.now == 0 && s.log == []
    && Partitions(s.items, s.brackets)
    && (forall id :: 0 <= id < |s.items| ==>
          s.items[id] == Thread(s.items[id].prio, true, Some(0), None) || s.items[id] == Event(s.items[id].prio, None))
  }

  // s leads to r by the commands, the last of which is the last executed.
  ghost predicate Leads(p: Program, s: Sim, commands: seq<Command>, r: Sim) {
    if commands == [] then r == s
    else
      var last := |commands| - 1;
      exists mid, fuel: nat :: Leads(p, s, commands[..last], mid) && Valid(mid) && Execute(p, mid, commands[last], fuel) == Some(r)
  }

  // As Leads, and no command asks for the past of the moment it is given in.
  ghost predicate LeadsAhead(p: Program, s: Sim, commands: seq<Command>, r: Sim) {
    if commands == [] then r == s
    else
      var last := |commands| - 1;
      exists mid, fuel: nat ::
        && LeadsAhead(p, s, commands[..last], mid) && CommandAhead(commands[last], mid.now)
        && Valid(mid) && Execute(p, mid, commands[last], fuel) == Some(r)
  }

  /**
   Event conservation over whole simulations: whatever the test bench does, every action accepted by
   an external event has been run once, in the order of acceptance, or is the one still pending.
   */
  lemma {:induction false} EveryEventIsConserved(p: Program, s: Sim, commands: seq<Command>, r: Sim)
    requires IsStart(s) && Leads(p, s, commands, r)
    ensures Valid(r) && Conserved(r)
    decreases |commands|
  {
    if commands != [] {
      var last := |commands| - 1;
      var mid, fuel: nat :|
        Leads(p, s, commands[..last], mid) && Valid(mid) && Execute(p, mid, commands[last], fuel) == Some(r);
      EveryEventIsConserved(p, s, commands[..last], mid);
      ExecuteConserves(p, mid, commands[last], fuel);
    }
  }

  /** Commands that do not ask for the past never turn the clock back, from whatever moment of a simulation. */
  lemma {:induction false} TimeNeverGoesBack(p: Program, s: Sim, commands: seq<Command>, r: Sim)
    requires LooksAhead(p) && Valid(s) && Conserved(s) && InTime(s) && LeadsAhead(p, s, commands, r)
    ensures Valid(r) && Conserved(r) && InTime(r) && s.now <= r.now
    decreases |commands|
  {
    hide Valid, Conserved, InTime, LooksAhead, Execute;
    if commands != [] {
      var last := |commands| - 1;
      var mid, fuel: nat :|
        && LeadsAhead(p, s, commands[..last], mid) && CommandAhead(commands[last], mid.now)
        && Valid(mid) && Execute(p, mid, commands[last], fuel) == Some(r);
      TimeNeverGoesBack(p, s, commands[..last], mid);
      ExecuteConserves(p, mid, commands[last], fuel);
      ExecuteKeepsInTime(p, mid, commands[last], fuel);
    }
  }

  lemma StartIsInTime(s: Sim)
    requires IsStart(s)
    ensures Valid(s) && Conserved(s) && InTime(s)
  {
  }

  /**
   When neither the application nor the test bench asks for the past, in every simulation and at every
   moment of it, time has not gone back since any earlier moment, no timeout is overdue, and everything
   that ran did so at its time.
   */
  lemma EverythingRunsOnTime(p: Program, s: Sim, before: seq<Command>, mid: Sim, after: seq<Command>, r: Sim)
    requires LooksAhead(p) && IsStart(s) && LeadsAhead(p, s, before, mid) && LeadsAhead(p, mid, after, r)
    ensures mid.now <= r.now && Valid(r) && Conserved(r) && InTime(r)
  {
    hide Valid, Conserved, InTime, LooksAhead, LeadsAhead, IsStart;
    StartIsInTime(s);
    TimeNeverGoesBack(p, s, before, mid);
    TimeNeverGoesBack(p, mid, after, r);
  }

  /**
   RunUntilNextTimePoint does turn the clock back: a simulation of one thread, which waits for 20 after its first run, runs
   until 10 and then until the next time point up to 5.
   */
  lemma NextTimePointTurnsClockBack(p: Program, s: Sim, mid: Sim, r: Sim)
    requires p.threadCode(0, 0, Timeout, []) == Outcome([], BlockUntil(20))
    requires s == Sim(0, [Thread(0, true, Some(0), None)], [Bracket(ItemPrio(THREAD_PRIORITY_LEVEL, 0), 0, [0])], [])
    requires mid == s.(now := 10, items := [Thread(0, true, Some(20), None)], log := [ThreadRan(0, 0, Some(0), Timeout)])
    requires r == mid.(now := 5)
    ensures IsStart(s) && Leads(p, s, [RunTo(10, false), RunToNextTimePoint(5)], r)
    ensures InTime(mid) && Execute(p, s, RunTo(10, false), 2) == Some(mid)
    ensures Valid(mid) && Execute(p, mid, RunToNextTimePoint(5), 1) == Some(r)
  {
    OneThreadIsStart(s);
    OneThreadIsInTime(mid);
    hide HandleNextItem, RunUntilStep, RunUntil, RunUntilNextTimePoint, Drain, NextTimeout, IsStart, InTime, Leads, Valid, Partitions;
    OneThreadIsValid(s);
    OneThreadIsValid(mid);
    OneThreadStarts(p, s, mid);
    OneThreadTurnsBack(p, mid, r);
    TwoCommands(p, s, RunTo(10, false), 2, mid, RunToNextTimePoint(5), 1, r);
  }

  lemma OneThreadIsStart(s: Sim)
    requires s == Sim(0, [Thread(0, true, Some(0), None)], [Bracket(ItemPrio(THREAD_PRIORITY_LEVEL, 0), 0, [0])], [])
    ensures IsStart(s)
  {
    OneThreadIsValid(s);
  }

  lemma OneThreadIsInTime(s: Sim)
    requires s.now == 10 && s.items == [Thread(0, true, Some(20), None)] && s.log == [ThreadRan(0, 0, Some(0), Timeout)]
    ensures InTime(s)
  {
  }

  lemma TwoCommands(p: Program, s: Sim, c: Command, f: nat, mid: Sim, d: Command, g: nat, r: Sim)
    requires Valid(s) && Execute(p, s, c, f) == Some(mid) && Valid(mid) && Execute(p, mid, d, g) == Some(r)
    ensures Leads(p, s, [c, d], r)
  {
    hide Execute, Valid;
    assert Leads(p, s, [], s);
    hide Leads;
    LeadsOn(p, s, [], s, c, f, mid);
    LeadsOn(p, s, [c], mid, d, g, r);
    assert [] + [c] == [c] && [c] + [d] == [c, d];
  }

  lemma LeadsOn(p: Program, s: Sim, commands: seq<Command>, mid: Sim, c: Command, fuel: nat, r: Sim)
    requires Leads(p, s, commands, mid) && Valid(mid) && Execute(p, mid, c, fuel) == Some(r)
    ensures Leads(p, s, commands + [c], r)
  {
    hide Execute, Valid;
    var last := |commands + [c]| - 1;
    assert (commands + [c])[..last] == commands && (commands + [c])[last] == c;
  }

  // The first run of the thread, and the advance to 10.
  lemma OneThreadStarts(p: Program, s: Sim, mid: Sim)
    requires p.threadCode(0, 0, Timeout, []) == Outcome([], BlockUntil(20))
    requires s == Sim(0, [Thread(0, true, Some(0), None)], [Bracket(ItemPrio(THREAD_PRIORITY_LEVEL, 0), 0, [0])], [])
    requires mid == s.(now := 10, items := [Thread(0, true, Some(20), None)], log := [ThreadRan(0, 0, Some(0), Timeout)])
    ensures RunUntil(p, s, 10, false, 2) == Some(mid)
  {
    var ran := mid.(now := 0);
    assert Ready(p, s, 0) && Slot(s.brackets[0], 0) == 0;
    assert Picked(p, s) == Some(0);
    assert RegisterAll(WakeThread(p, s, 0), []) == WakeThread(p, s, 0);
    var next := HandleNextItem(p, s).value;
    assert WakeReason(p, s.items[0], s.log) == Timeout;
    assert next.items == ran.items && next.log == ran.log && next.brackets == ran.brackets && next.now == 0;
    assert HandleNextItem(p, s) == Some(ran);
    OneThreadIsIdle(p, ran);
    EveryTimeoutCounts(ran.items, 0, 0);
    assert ran.items[0].GetTimeout() == Some(20);
    assert RunUntilStep(p, ran, 10, false) == Done(mid);
  }

  lemma OneThreadTurnsBack(p: Program, mid: Sim, r: Sim)
    requires mid.brackets == [Bracket(ItemPrio(THREAD_PRIORITY_LEVEL, 0), 0, [0])]
    requires mid.items == [Thread(0, true, Some(20), None)] && mid.now == 10 && r == mid.(now := 5)
    ensures RunUntilNextTimePoint(p, mid, 5, 1) == Some((r, false))
  {
    OneThreadIsIdle(p, mid);
    EveryTimeoutCounts(mid.items, 10, 10);
    assert mid.items[0].GetTimeout() == Some(20);
    hide HandleNextItem;
  }

  lemma OneThreadIsIdle(p: Program, s: Sim)
    requires s.brackets == [Bracket(ItemPrio(THREAD_PRIORITY_LEVEL, 0), 0, [0])]
    requires s.items == [Thread(0, true, Some(20), None)] && s.now < 20
    ensures HandleNextItem(p, s).None? && Drain(p, s, 1) == Some(s)
  {
    OneThreadIsValid(s);
    RunsBestReadyItem(p, s);
  }

  lemma OneThreadIsValid(s: Sim)
    requires s.brackets == [Bracket(ItemPrio(THREAD_PRIORITY_LEVEL, 0), 0, [0])]
    requires |s.items| == 1 && s.items[0].Thread? && s.items[0].prio == 0 && s.items[0].running
    requires s.items[0].timeout.Some?
    ensures Valid(s) && Partitions(s.items, s.brackets)
  {
    assert 0 in s.brackets[0].members;
    assert InSomeBracket(s.brackets, 0);
  }
}
