/**
 The scheduler and its items as objects that are updated in place. Every method is proved to
 do what the function of the same name in SchedulerModel does to the state of the simulation.
 */
module Scheduler {
  import opened Wrappers
  import opened SchedulerModel
  import opened SchedulerPriority
  import opened SchedulerInvariants
  import SchedulerRuns
  import PriorityBrackets
  import SchedulerShutdown

  datatype SchedulerState = Stopped | Started | Stopping

  /** A simulated thread. */
  class ThreadItem {
    const prio: nat
    var running: bool
    var blockTimeoutAt: Option<TimePoint>
    var syncPrimitiveBlock: Option<nat>

    function View(): Item
      reads this
    {
      Thread(prio, running, blockTimeoutAt, syncPrimitiveBlock)
    }

    constructor (prio: nat)
      ensures View() == Thread(prio, true, None, None)
    {
      this.prio := prio;
      running := true;
      blockTimeoutAt := None;
      syncPrimitiveBlock := None;
    }

    // The thread has announced itself and waits for the epoch.
    method Initialize()
      modifies this`blockTimeoutAt
      ensures View() == Thread(prio, running, Some(0), syncPrimitiveBlock)
    {
      blockTimeoutAt := Some(0);
    }

    method MarkStopped()
      modifies this`running
      ensures View() == Thread(prio, false, blockTimeoutAt, syncPrimitiveBlock)
    {
      running := false;
    }

    method BlockUntilUs(time: TimePoint)
      modifies this`blockTimeoutAt
      ensures View() == Thread(prio, running, Some(time), syncPrimitiveBlock)
    {
      blockTimeoutAt := Some(time);
    }

    method BlockOnSyncPrimitive(condition: nat, timeout: TimePoint)
      modifies this`blockTimeoutAt, this`syncPrimitiveBlock
      ensures View() == Thread(prio, running, Some(timeout), Some(condition))
    {
      blockTimeoutAt := Some(timeout);
      syncPrimitiveBlock := Some(condition);
    }

    // What the thread does when it has been woken, before it goes on with its own code.
    method Woken(program: Program, log: seq<Entry>) returns (reason: UnblockReason)
      modifies this`blockTimeoutAt, this`syncPrimitiveBlock
      ensures reason == WakeReason(program, old(View()), log)
      ensures View() == Thread(prio, running, None, None)
    {
      reason := Timeout;
      if syncPrimitiveBlock.Some? && program.unblocked(syncPrimitiveBlock.value, log) {
        reason := SyncPrimitive;
      }
      blockTimeoutAt := None;
      syncPrimitiveBlock := None;
    }
  }

  /** An external event, which holds at most one pending action. */
  class ExternalEventItem {
    const priority: nat
    var pendingAction: Option<Action>

    function View(): Item
      reads this
    {
      Event(priority, pendingAction)
    }

    constructor (prio: nat)
      ensures View() == Event(prio, None)
    {
      priority := prio;
      pendingAction := None;
    }

    // Refused while an earlier action is still pending.
    method RegisterPendingAction(action: Action) returns (accepted: bool)
      modifies this`pendingAction
      ensures accepted <==> old(pendingAction).None?
      ensures View() == Event(priority, if accepted then Some(action) else old(pendingAction))
    {
      if pendingAction.Some? {
        return false;
      }
      pendingAction := Some(action);
      return true;
    }

    method Reset()
      modifies this`pendingAction
      ensures View() == Event(priority, None)
    {
      pendingAction := None;
    }
  }

  class Scheduler {
    const program: Program
    var now: TimePoint
    var state: SchedulerState
    var threads: seq<ThreadItem>
    var externalEvents: seq<ExternalEventItem>
    var priorityBrackets: seq<Bracket>
    var log: seq<Entry>

    // Threads come before external events in the numbering of the items.
    function Item(id: nat): Item
      requires id < |threads| + |externalEvents|
      reads `threads, `externalEvents, threads, externalEvents
    {
      if id < |threads| then threads[id].View() else externalEvents[id - |threads|].View()
    }

    function ItemsUpTo(n: nat): (items: seq<Item>)
      requires n <= |threads| + |externalEvents|
      reads `threads, `externalEvents, threads, externalEvents
      ensures |items| == n && forall id :: 0 <= id < n ==> items[id] == Item(id)
    {
      if n == 0 then [] else ItemsUpTo(n - 1) + [Item(n - 1)]
    }

    function Items(): (items: seq<Item>)
      reads `threads, `externalEvents, threads, externalEvents
    {
      ItemsUpTo(|threads| + |externalEvents|)
    }

    function State(): Sim
      reads this, threads, externalEvents
    {
      Sim(now, Items(), priorityBrackets, log)
    }

    // No two items are the same object, and every item is in some bracket.
    ghost predicate Wired()
      reads `threads, `externalEvents, `priorityBrackets
    {
      && (forall i, j :: 0 <= i < j < |threads| ==> threads[i] != threads[j])
      && (forall i, j :: 0 <= i < j < |externalEvents| ==> externalEvents[i] != externalEvents[j])
      && Covers(|threads| + |externalEvents|, priorityBrackets)
    }

    constructor (program: Program)
      ensures State() == Sim(0, [], [], []) && state == Stopped && Wired()
      ensures this.program == program && threads == [] && externalEvents == []
    {
      this.program := program;
      now := 0;
      state := Stopped;
      threads := [];
      externalEvents := [];
      priorityBrackets := [];
      log := [];
    }

    // -------------------------------------------------------------------------------------
    // Running one item

    // Attempts to register events, as application code makes them while it runs.
    method RegisterPendingAction(a: Attempt)
      requires Wired()
      modifies this`log, externalEvents
      ensures State() == Register(old(State()), a)
    {
      hide ItemsUpTo;
      if |threads| <= a.id < |threads| + |externalEvents| {
        var event := externalEvents[a.id - |threads|];
        var accepted := event.RegisterPendingAction(a.action);
        assert Items() == old(Items())[a.id := event.View()];
        if accepted {
          log := log + [Accepted(now, a.id, a.action)];
        }
      }
    }

    method RegisterAll(attempts: seq<Attempt>)
      requires Wired()
      modifies this`log, externalEvents
      ensures State() == SchedulerModel.RegisterAll(old(State()), attempts)
    {
      ghost var s := State();
      var i := 0;
      while i < |attempts|
        invariant 0 <= i <= |attempts|
        invariant SchedulerModel.RegisterAll(s, attempts) == SchedulerModel.RegisterAll(State(), attempts[i..])
      {
        ghost var before := State();
        RegisterPendingAction(attempts[i]);
        assert SchedulerModel.RegisterAll(before, attempts[i..]) == SchedulerModel.RegisterAll(State(), attempts[i + 1..]) by {
          hide Register;
          assert attempts[i..][1..] == attempts[i + 1..];
        }
        i := i + 1;
      }
      assert attempts[i..] == [];
    }

    // Blocks until the next time point of an item that is as good, or until the bound.
    method BlockUntilNextTimePoint(id: nat, upperBound: TimePoint)
      requires Wired() && id < |threads|
      modifies this`log, threads
      ensures State() == Block(old(State()), id, Request.BlockUntilNextTimePoint(upperBound))
    {
      hide ItemsUpTo, NextTimeout;
      var thread := threads[id];
      var next := GetNextBlockTimeout(thread.View().Priority());
      var hit := next.Some? && next.value <= upperBound;
      var time := if hit then next.value else upperBound;
      assert FindTimePoint(State(), thread.View().Priority(), upperBound) == (time, hit);
      hide FindTimePoint;
      thread.BlockUntilUs(time);
      log := log + [FoundTimePoint(now, id, hit)];
      assert Items() == old(Items())[id := thread.View()];
    }

    method BlockThread(id: nat, request: Request)
      requires Wired() && id < |threads|
      modifies this`log, threads
      ensures State() == Block(old(State()), id, request)
    {
      if request.BlockUntilNextTimePoint? {
        BlockUntilNextTimePoint(id, request.upperBound);
        return;
      }
      match request {
        case BlockUntil(time) =>
          threads[id].BlockUntilUs(time);
        case BlockOnSyncPrimitive(condition, time) =>
          threads[id].BlockOnSyncPrimitive(condition, time);
        case Finish =>
          threads[id].MarkStopped();
      }
      assert Items() == old(Items())[id := threads[id].View()];
    }

    method RunThread(id: nat)
      requires Wired() && id < |threads|
      modifies this`log, threads, externalEvents
      ensures State() == SchedulerModel.RunThread(program, old(State()), id)
    {
      hide ItemsUpTo;
      var history := log;
      var deadline := threads[id].blockTimeoutAt;
      var reason := threads[id].Woken(program, history);
      assert Items() == old(Items())[id := threads[id].View()];
      log := log + [ThreadRan(now, id, deadline, reason)];
      assert State() == WakeThread(program, old(State()), id);
      var outcome := program.threadCode(id, now, reason, history);
      RegisterAllKeepsShape(State(), outcome.attempts);
      hide SchedulerModel.RegisterAll, Block;
      RegisterAll(outcome.attempts);
      BlockThread(id, outcome.request);
    }

    method RunEvent(id: nat)
      requires Wired() && |threads| <= id < |threads| + |externalEvents|
      requires externalEvents[id - |threads|].pendingAction.Some?
      modifies this`log, externalEvents
      ensures State() == SchedulerModel.RunEvent(program, old(State()), id)
    {
      hide ItemsUpTo, SchedulerModel.RegisterAll, SchedulerModel.RunEvent;
      ghost var s := State();
      var event := externalEvents[id - |threads|];
      var history := log;
      var action := event.pendingAction.value;
      log := log + [EventRan(now, id, action)];
      assert State() == s.(log := s.log + [EventRan(s.now, id, action)]);
      RegisterAll(program.callbackCode(action.callback, now, history));
      ghost var called := State();
      EventRuns(program, s, id, action, called);
      event.Reset();
      assert Items() == called.items[id := Event(event.priority, None)];
    }

    // -------------------------------------------------------------------------------------
    // Choosing the item to run

    predicate IsRunning(id: nat)
      requires id < |threads| + |externalEvents|
      reads this, threads, externalEvents
    {
      if id < |threads| then threads[id].running else externalEvents[id - |threads|].pendingAction.Some?
    }

    predicate IsPending(id: nat)
      requires id < |threads| + |externalEvents|
      reads this, threads, externalEvents
    {
      if id < |threads| then
        var t := threads[id];
        || t.blockTimeoutAt == Some(now)
        || (t.syncPrimitiveBlock.Some? && program.unblocked(t.syncPrimitiveBlock.value, log))
      else
        var a := externalEvents[id - |threads|].pendingAction;
        a.Some? && a.value.timestamp == now
    }

    lemma ReadyItem(id: nat)
      requires id < |threads| + |externalEvents|
      ensures Ready(program, State(), id) <==> IsRunning(id) && IsPending(id)
    {
    }

    method RunItem(id: nat)
      requires Wired() && Ready(program, State(), id)
      modifies this`log, threads, externalEvents
      ensures State() == SchedulerModel.RunItem(program, old(State()), id)
    {
      if id < |threads| {
        RunThread(id);
      } else {
        RunEvent(id);
      }
    }

    // Runs the item picked from bracket number k, and moves the round-robin position of the bracket.
    method RunPicked(k: nat, id: nat)
      requires Wired()
      requires PickBracket(program, State(), 0) == Some(k) && PickMember(program, State(), priorityBrackets[k], 0) == Some(id)
      modifies this`log, this`priorityBrackets, threads, externalEvents
      ensures Some(State()) == SchedulerModel.HandleNextItem(program, old(State()))
      ensures Wired()
    {
      hide ItemsUpTo, SchedulerModel.RunItem, Ready, PickMember, PickBracket;
      HandlesPicked(program, State(), k, id);
      CoversFrame(|threads| + |externalEvents|, priorityBrackets, k);
      RunItem(id);
      var bracket := priorityBrackets[k];
      priorityBrackets := priorityBrackets[k := bracket.(rrIdx := (bracket.rrIdx + 1) % |bracket.members|)];
    }

    // Runs the best ready item, if any, and tells whether there was one.
    method HandleNextItem() returns (threadRan: bool)
      requires Wired()
      modifies this`log, this`priorityBrackets, threads, externalEvents
      ensures threadRan <==> SchedulerModel.HandleNextItem(program, old(State())).Some?
      ensures State() == if threadRan then SchedulerModel.HandleNextItem(program, old(State())).value else old(State())
      ensures Wired()
    {
      hide ItemsUpTo, Ready, PickMember, PickBracket, SchedulerModel.HandleNextItem;
      ghost var s := State();
      RunsPicked(program, s);
      var k := 0;
      while k < |priorityBrackets|
        invariant 0 <= k <= |priorityBrackets|
        invariant State() == s && Wired()
        invariant PickBracket(program, s, 0) == PickBracket(program, s, k)
      {
        var bracket := priorityBrackets[k];
        TriesBracket(program, s, k);
        var i := 0;
        while i < |bracket.members|
          invariant 0 <= i <= |bracket.members|
          invariant State() == s && Wired()
          invariant PickMember(program, s, bracket, 0) == PickMember(program, s, bracket, i)
        {
          var id := bracket.members[(i + bracket.rrIdx) % |bracket.members|];
          assert id in bracket.members;
          ReadyItem(id);
          TriesMember(program, s, bracket, i);
          if IsRunning(id) && IsPending(id) {
            RunPicked(k, id);
            return true;
          }
          i := i + 1;
        }
        k := k + 1;
      }
      return false;
    }

    // The earliest timeout of all items, leaving out those due now that are worse than minPrio.
    method GetNextBlockTimeout(minPrio: ItemPrio) returns (next: Option<TimePoint>)
      requires Wired()
      ensures next == NextTimeout(Items(), now, minPrio)
    {
      hide ItemsUpTo;
      ghost var items := Items();
      next := None;
      var k := 0;
      while k < |priorityBrackets|
        invariant 0 <= k <= |priorityBrackets|
        invariant next.Some? ==> exists id :: 0 <= id < |items| && Eligible(items[id], now, minPrio) && items[id].DueAt(next.value)
        invariant forall l, id :: 0 <= l < k && id in priorityBrackets[l].members ==> NotEarlier(items, now, minPrio, id, next)
      {
        var members := priorityBrackets[k].members;
        ghost var next0 := next;
        assert forall id :: id in members ==> id < |items|;
        var i := 0;
        while i < |members|
          invariant 0 <= i <= |members|
          invariant next.Some? ==> exists id :: 0 <= id < |items| && Eligible(items[id], now, minPrio) && items[id].DueAt(next.value)
          invariant next0.Some? ==> next.Some? && next.value <= next0.value
          invariant forall j :: 0 <= j < i ==> NotEarlier(items, now, minPrio, members[j], next)
        {
          assert members[i] in members;
          var it := Item(members[i]);
          assert items[members[i]] == it;
          var timeout := it.GetTimeout();
          if timeout.Some? && (next.None? || timeout.value < next.value) {
            if !(timeout.value == now && Better(minPrio, it.Priority())) {
              next := timeout;
            }
          }
          i := i + 1;
        }
        forall l, id | 0 <= l <= k && id in priorityBrackets[l].members
          ensures NotEarlier(items, now, minPrio, id, next)
        {
          assert l < k ==> NotEarlier(items, now, minPrio, id, next0);
        }
        k := k + 1;
      }
      forall id | 0 <= id < |items|
        ensures NotEarlier(items, now, minPrio, id, next)
      {
        assert InSomeBracket(priorityBrackets, id);
      }
      EarliestIsUnique(items, now, minPrio, next, NextTimeout(items, now, minPrio));
    }

    // -------------------------------------------------------------------------------------
    // Starting, running and shutting down

    // Announces an external event. It takes part in the simulation once the scheduler starts.
    method RegisterExternalEvent(prio: nat) returns (event: ExternalEventItem)
      modifies this`externalEvents
      ensures fresh(event) && event.View() == Event(prio, None)
      ensures externalEvents == old(externalEvents) + [event]
    {
      event := new ExternalEventItem(prio);
      externalEvents := externalEvents + [event];
    }

    // Registers a thread that has come up, refused once the scheduler has started.
    method InitializeThread(prio: nat) returns (thread: ThreadItem?)
      modifies this`threads
      ensures thread == null <==> old(now) != 0 || old(state) != Stopped
      ensures thread == null ==> threads == old(threads)
      ensures thread != null ==>
                && fresh(thread) && thread.View() == Thread(prio, true, Some(0), None)
                && threads == old(threads) + [thread]
    {
      if now != 0 || state != Stopped {
        return null;
      }
      var t := new ThreadItem(prio);
      t.Initialize();
      threads := threads + [t];
      return t;
    }

    method InitializePriorityBrackets()
      requires priorityBrackets == []
      modifies this`priorityBrackets
      ensures PriorityBrackets.IsInitial(Items(), priorityBrackets)
    {
      hide ItemsUpTo, PriorityBrackets.Groups, PriorityBrackets.IsInitial;
      ghost var items := Items();
      var brackets := [];
      PriorityBrackets.NoGroups(items);
      var n := 0;
      while n < |threads|
        invariant 0 <= n <= |threads| && PriorityBrackets.Groups(items, n, brackets)
      {
        assert items[n] == Item(n);
        brackets := PriorityBrackets.AddItem(items, brackets, n, ItemPrio(THREAD_PRIORITY_LEVEL, threads[n].prio));
        n := n + 1;
      }
      while n < |threads| + |externalEvents|
        invariant |threads| <= n <= |threads| + |externalEvents| && PriorityBrackets.Groups(items, n, brackets)
      {
        assert items[n] == Item(n);
        var event := externalEvents[n - |threads|];
        brackets := PriorityBrackets.AddItem(items, brackets, n, ItemPrio(EXTERNAL_EVENT_PRIORITY_LEVEL, event.priority));
        n := n + 1;
      }
      PriorityBrackets.PrioritiesDiffer(items, n, brackets);
      priorityBrackets := PriorityBrackets.Sort(brackets);
      PriorityBrackets.SortedGroupsPartition(items, brackets, priorityBrackets);
    }

    // Advances time to the earliest timeout, or to the target, which is then reached.
    method AdvanceTime(time: TimePoint) returns (reached: bool)
      requires Wired()
      modifies this`now
      ensures var next := NextTimeout(old(State()).items, old(now), LOWEST_PRIO);
              && (reached <==> next.None? || next.value > time)
              && State() == old(State()).(now := if reached then time else next.value)
    {
      hide Wired, ItemsUpTo, NextTimeout;
      var nextBlockTimeout := GetNextBlockTimeout(LOWEST_PRIO);
      if nextBlockTimeout.Some? {
        if nextBlockTimeout.value > time {
          now := time;
          return true;
        } else {
          now := nextBlockTimeout.value;
          return false;
        }
      } else {
        now := time;
        return true;
      }
    }

    // The fuel says that the run returns, which not every program lets it do.
    method RunUntil(time: TimePoint, inclusive: bool, ghost fuel: nat)
      requires Wired()
      requires SchedulerModel.RunUntil(program, State(), time, inclusive, fuel).Some?
      modifies this`now, this`log, this`priorityBrackets, threads, externalEvents
      ensures SchedulerModel.RunUntil(program, old(State()), time, inclusive, fuel) == Some(State())
      ensures Wired()
    {
      hide Wired, ItemsUpTo, SchedulerModel.HandleNextItem, NextTimeout, SchedulerModel.RunUntil;
      ghost var s := State();
      ghost var f: nat := fuel;
      while (!inclusive && now < time) || (inclusive && now <= time)
        invariant Wired() && s == State()
        invariant SchedulerModel.RunUntil(program, s, time, inclusive, f).Some?
        invariant SchedulerModel.RunUntil(program, old(State()), time, inclusive, fuel)
               == SchedulerModel.RunUntil(program, s, time, inclusive, f)
        decreases f
      {
        TakesStep(program, s, time, inclusive, f);
        var threadRan := HandleNextItem();
        if !threadRan {
          var reached := AdvanceTime(time);
          if reached {
            return;
          }
        }
        assert RunUntilStep(program, s, time, inclusive) == More(State());
        s, f := State(), f - 1;
      }
      TakesStep(program, s, time, inclusive, f);
    }

    // Runs items until none is ready, and tells whether there was one.
    method Drain(ghost fuel: nat) returns (ranItem: bool)
      requires Wired()
      requires SchedulerModel.Drain(program, State(), fuel).Some?
      modifies this`log, this`priorityBrackets, threads, externalEvents
      ensures SchedulerModel.Drain(program, old(State()), fuel) == Some(State())
      ensures ranItem <==> SchedulerModel.HandleNextItem(program, old(State())).Some?
      ensures Wired()
    {
      hide Wired, ItemsUpTo, SchedulerModel.HandleNextItem;
      ghost var f: nat := fuel;
      ranItem := false;
      var handledItem := true;
      while handledItem
        invariant Wired() && f <= fuel
        invariant handledItem ==>
                    && SchedulerModel.Drain(program, State(), f).Some?
                    && SchedulerModel.Drain(program, old(State()), fuel) == SchedulerModel.Drain(program, State(), f)
        invariant !handledItem ==> SchedulerModel.Drain(program, old(State()), fuel) == Some(State())
        invariant if handledItem && !ranItem then State() == old(State())
                  else ranItem <==> SchedulerModel.HandleNextItem(program, old(State())).Some?
        decreases f, handledItem
      {
        handledItem := HandleNextItem();
        if handledItem {
          ranItem := true;
          f := f - 1;
        }
      }
    }

    method RunUntilNextTimePoint(upperBound: TimePoint, ghost fuel: nat) returns (ran: bool)
      requires Wired()
      requires SchedulerModel.RunUntilNextTimePoint(program, State(), upperBound, fuel).Some?
      modifies this`now, this`log, this`priorityBrackets, threads, externalEvents
      ensures SchedulerModel.RunUntilNextTimePoint(program, old(State()), upperBound, fuel) == Some((State(), ran))
      ensures Wired()
    {
      hide Wired, ItemsUpTo, SchedulerModel.HandleNextItem, NextTimeout;
      var ranItemAtCurrentTime := Drain(fuel);
      if ranItemAtCurrentTime {
        return true;
      }
      var nextBlockTimeout := GetNextBlockTimeout(LOWEST_PRIO);
      if nextBlockTimeout.Some? && nextBlockTimeout.value <= upperBound {
        now := nextBlockTimeout.value;
      } else {
        now := upperBound;
        return false;
      }
      var _ := Drain(fuel);
      return true;
    }

    method AllThreadsStopped() returns (stopped: bool)
      ensures stopped <==> SchedulerShutdown.AllThreadsStopped(State().items)
    {
      hide ItemsUpTo;
      var i := 0;
      while i < |threads|
        invariant 0 <= i <= |threads|
        invariant forall j :: 0 <= j < i ==> !threads[j].running
      {
        if threads[i].running {
          assert Items()[i].running;
          return false;
        }
        i := i + 1;
      }
      return true;
    }

    // Runs an item, or else advances time to the earliest timeout, if there is one.
    method WakeNext() returns (threadRan: bool, timeoutSet: bool)
      requires Wired()
      modifies this`now, this`log, this`priorityBrackets, threads, externalEvents
      ensures threadRan || timeoutSet ==> SchedulerShutdown.WakeNext(program, old(State())) == Some((State(), threadRan))
      ensures !threadRan && !timeoutSet ==> SchedulerShutdown.WakeNext(program, old(State())).None? && State() == old(State())
      ensures Wired()
    {
      hide Wired, ItemsUpTo, SchedulerModel.HandleNextItem, NextTimeout;
      threadRan := HandleNextItem();
      timeoutSet := false;
      if !threadRan {
        var nextBlockTimeout := GetNextBlockTimeout(LOWEST_PRIO);
        if nextBlockTimeout.Some? {
          timeoutSet := true;
          now := nextBlockTimeout.value;
        }
      }
    }

    // All threads are told that they shall stop.
    method RequestStop()
      modifies this`state, this`log
      ensures state == Stopping && State() == old(State()).(log := old(State()).log + [StopRequested(old(State()).now)])
    {
      hide ItemsUpTo;
      state := Stopping;
      log := log + [StopRequested(now)];
    }

    // Unlike the other runs, this one always returns.
    method Shutdown(maxWakeups: nat) returns (result: SchedulerShutdown.ShutdownResult)
      requires Wired() && SchedulerInvariants.Valid(State())
      modifies this`now, this`state, this`log, this`priorityBrackets, threads, externalEvents
      ensures (State(), result) == SchedulerShutdown.Shutdown(program, old(State()), maxWakeups)
      ensures state == Stopping && result != SchedulerShutdown.NoTimeoutSet
      ensures Wired()
    {
      hide Wired, State, SchedulerInvariants.Valid;
      hide SchedulerShutdown.WakeNext, SchedulerShutdown.Delay, SchedulerShutdown.ShutdownLoop;
      hide SchedulerShutdown.AllThreadsStopped;
      SchedulerShutdown.RequestKeepsValid(State());
      RequestStop();
      ghost var s := State();
      ghost var final := SchedulerShutdown.ShutdownLoop(program, s, 0, maxWakeups);
      SchedulerShutdown.NeverLacksTimeout(program, s, maxWakeups);
      var wakeups := 0;
      while true
        invariant state == Stopping && Wired() && SchedulerInvariants.Valid(s) && 0 <= wakeups <= maxWakeups && s == State()
        invariant SchedulerShutdown.ShutdownLoop(program, s, wakeups, maxWakeups) == final
        decreases maxWakeups - wakeups, SchedulerShutdown.Delay(program, s)
      {
        SchedulerShutdown.TakesStep(program, s, wakeups, maxWakeups);
        var stopped := AllThreadsStopped();
        if stopped {
          return SchedulerShutdown.AllStopped;
        }
        var threadRan, timeoutSet := WakeNext();
        if !threadRan && !timeoutSet {
          return SchedulerShutdown.NoTimeoutSet;
        }
        SchedulerShutdown.WakeNextMakesProgress(program, s);
        s := State();
        if threadRan {
          wakeups := wakeups + 1;
          if wakeups > maxWakeups {
            return SchedulerShutdown.TooManyWakeups;
          }
        }
      }
    }

    // Starts the simulation and simulates the epoch. All announced threads have come up.
    method Start(announcedThreads: nat, ghost fuel: nat) returns (started: bool)
      requires priorityBrackets == []
      requires forall i, j :: 0 <= i < j < |threads| ==> threads[i] != threads[j]
      requires forall i, j :: 0 <= i < j < |externalEvents| ==> externalEvents[i] != externalEvents[j]
      requires forall brackets :: PriorityBrackets.IsInitial(Items(), brackets) ==>
                 SchedulerModel.RunUntil(program, Sim(now, Items(), brackets, log), 0, true, fuel).Some?
      modifies this`now, this`state, this`log, this`priorityBrackets, threads, externalEvents
      ensures started <==> |threads| == announcedThreads
      ensures state == Started && Wired()
      ensures started ==>
                exists brackets ::
                  && PriorityBrackets.IsInitial(old(Items()), brackets)
                  && SchedulerModel.RunUntil(program, Sim(old(now), old(Items()), brackets, old(log)), 0, true, fuel) == Some(State())
    {
      hide ItemsUpTo, SchedulerModel.RunUntil;
      InitializePriorityBrackets();
      PartitionCovers(Items(), priorityBrackets);
      state := Started;
      if |threads| != announcedThreads {
        return false;
      }
      RunUntil(0, true, fuel);
      return true;
    }
  }

  // The first step of a run that returns.
  lemma TakesStep(p: Program, s: Sim, time: TimePoint, inclusive: bool, fuel: nat)
    requires SchedulerModel.RunUntil(p, s, time, inclusive, fuel).Some?
    ensures fuel > 0
    ensures SchedulerModel.RunUntil(p, s, time, inclusive, fuel) ==
            match RunUntilStep(p, s, time, inclusive)
            case Done(r) => Some(r)
            case More(r) => SchedulerModel.RunUntil(p, r, time, inclusive, fuel - 1)
  {
  }

  lemma PartitionCovers(items: seq<Item>, brackets: seq<Bracket>)
    requires Partitions(items, brackets)
    ensures Covers(|items|, brackets)
  {
    forall k, id | 0 <= k < |brackets| && id in brackets[k].members
      ensures id < |items|
    {
      assert HoldsItems(items, brackets[k]);
    }
  }

  lemma CoversFrame(count: nat, brackets: seq<Bracket>, k: nat)
    requires Covers(count, brackets) && k < |brackets| && brackets[k].members != []
    ensures Covers(count, brackets[k := AdvanceRoundRobin(brackets[k])])
  {
    var brackets' := brackets[k := AdvanceRoundRobin(brackets[k])];
    forall id | 0 <= id < count
      ensures InSomeBracket(brackets', id)
    {
      assert InSomeBracket(brackets, id);
      var l :| 0 <= l < |brackets| && id in brackets[l].members;
      assert id in brackets'[l].members;
    }
  }

  // How an event is run, once its callback has returned.
  lemma EventRuns(p: Program, s: Sim, id: nat, action: Action, called: Sim)
    requires id < |s.items| && s.items[id].Event? && s.items[id].pending == Some(action)
    requires called == SchedulerModel.RegisterAll(s.(log := s.log + [EventRan(s.now, id, action)]),
                                                  p.callbackCode(action.callback, s.now, s.log))
    ensures id < |called.items|
    ensures SchedulerModel.RunEvent(p, s, id) == called.(items := called.items[id := Event(s.items[id].prio, None)])
  {
    hide SchedulerModel.RegisterAll;
    RegisterAllKeepsShape(s.(log := s.log + [EventRan(s.now, id, action)]), p.callbackCode(action.callback, s.now, s.log));
  }

  // One round of the loops over brackets and members.
  lemma RunsPicked(p: Program, s: Sim)
    ensures HandleNextItem(p, s).Some? <==> PickBracket(p, s, 0).Some?
    ensures PickBracket(p, s, |s.brackets|).None?
  {
  }

  lemma TriesBracket(p: Program, s: Sim, k: nat)
    requires k < |s.brackets|
    ensures PickBracket(p, s, k) == if PickMember(p, s, s.brackets[k], 0).Some? then Some(k) else PickBracket(p, s, k + 1)
    ensures PickMember(p, s, s.brackets[k], |s.brackets[k].members|).None?
  {
  }

  lemma TriesMember(p: Program, s: Sim, b: Bracket, i: nat)
    requires i < |b.members|
    ensures PickMember(p, s, b, i) == if Ready(p, s, Slot(b, i)) then Some(Slot(b, i)) else PickMember(p, s, b, i + 1)
  {
  }

  lemma HandlesPicked(p: Program, s: Sim, k: nat, id: nat)
    requires PickBracket(p, s, 0) == Some(k) && PickMember(p, s, s.brackets[k], 0) == Some(id)
    ensures SchedulerModel.HandleNextItem(p, s)
         == Some(SchedulerModel.RunItem(p, s, id).(brackets := s.brackets[k := AdvanceRoundRobin(s.brackets[k])]))
  {
    RunItemKeepsShape(p, s, id);
  }

  ghost predicate NotEarlier(items: seq<Item>, now: TimePoint, minPrio: ItemPrio, id: nat, next: Option<TimePoint>) {
    id < |items| && Eligible(items[id], now, minPrio) ==> next.Some? && next.value <= items[id].GetTimeout().value
  }

  ghost predicate Covers(count: nat, brackets: seq<Bracket>) {
    && (forall k, id :: 0 <= k < |brackets| && id in brackets[k].members ==> id < count)
    && (forall id :: 0 <= id < count ==> InSomeBracket(brackets, id))
  }

  lemma EarliestIsUnique(items: seq<Item>, now: TimePoint, minPrio: ItemPrio, a: Option<TimePoint>, b: Option<TimePoint>)
    requires a.Some? ==> exists id :: 0 <= id < |items| && Eligible(items[id], now, minPrio) && items[id].DueAt(a.value)
    requires forall id :: 0 <= id < |items| ==> NotEarlier(items, now, minPrio, id, a)
    requires IsEarliest(items, now, minPrio, b)
    ensures a == b
  {
    if a.Some? {
      var id :| 0 <= id < |items| && Eligible(items[id], now, minPrio) && items[id].DueAt(a.value);
    }
    if b.Some? {
      var id :| 0 <= id < |items| && Eligible(items[id], now, minPrio) && items[id].DueAt(b.value);
      assert NotEarlier(items, now, minPrio, id, a);
    }
  }
}
