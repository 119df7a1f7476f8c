/**
 Whole runs of the scheduler: what RunUntil and RunUntilNextTimePoint arrive at, when they
 return, and that splitting a run changes nothing.
 */
module SchedulerRuns {
  import opened Wrappers
  import opened SchedulerModel
  import opened SchedulerPriority
  import opened SchedulerInvariants

  // ---------------------------------------------------------------------------------------
  // Counting the items that ran

  function Runs(log: seq<Entry>): nat {
    if log == [] then 0
    else
      var last := log[|log| - 1];
      Runs(log[..|log| - 1]) + (if last.ThreadRan? || last.EventRan? then 1 else 0)
  }

  lemma RunsOneMore(log: seq<Entry>, e: Entry)
    ensures Runs(log + [e]) == Runs(log) + (if e.ThreadRan? || e.EventRan? then 1 else 0)
  {
    assert (log + [e])[..|log|] == log;
  }

  lemma {:induction false} RegisterAllRunsNothing(s: Sim, attempts: seq<Attempt>)
    ensures Runs(RegisterAll(s, attempts).log) == Runs(s.log)
    decreases |attempts|
  {
    if attempts != [] {
      RunsOneMore(s.log, Accepted(s.now, attempts[0].id, attempts[0].action));
      RegisterAllRunsNothing(Register(s, attempts[0]), attempts[1..]);
    }
  }

  lemma BlockRunsNothing(s: Sim, id: nat, request: Request)
    requires id < |s.items| && s.items[id].Thread?
    ensures Runs(Block(s, id, request).log) == Runs(s.log)
  {
    hide Runs, FindTimePoint;
    if request.BlockUntilNextTimePoint? {
      var hit := FindTimePoint(s, s.items[id].Priority(), request.upperBound).1;
      RunsOneMore(s.log, FoundTimePoint(s.now, id, hit));
    }
  }

  lemma RunThreadRunsOne(p: Program, s: Sim, id: nat)
    requires id < |s.items| && s.items[id].Thread?
    ensures Runs(RunThread(p, s, id).log) == Runs(s.log) + 1
  {
    hide Runs, RegisterAll, Block;
    var reason := WakeReason(p, s.items[id], s.log);
    var outcome := p.threadCode(id, s.now, reason, s.log);
    var woken := WakeThread(p, s, id);
    RunsOneMore(s.log, ThreadRan(s.now, id, s.items[id].timeout, reason));
    RegisterAllRunsNothing(woken, outcome.attempts);
    RegisterAllKeepsShape(woken, outcome.attempts);
    BlockRunsNothing(RegisterAll(woken, outcome.attempts), id, outcome.request);
  }

  lemma RunEventRunsOne(p: Program, s: Sim, id: nat)
    requires id < |s.items| && s.items[id].Event? && s.items[id].pending.Some?
    ensures Runs(RunEvent(p, s, id).log) == Runs(s.log) + 1
  {
    hide Runs, RegisterAll;
    var action := s.items[id].pending.value;
    RunsOneMore(s.log, EventRan(s.now, id, action));
    RegisterAllRunsNothing(s.(log := s.log + [EventRan(s.now, id, action)]), p.callbackCode(action.callback, s.now, s.log));
  }

  lemma HandleNextItemRunsOne(p: Program, s: Sim)
    ensures HandleNextItem(p, s).Some? ==> Runs(HandleNextItem(p, s).value.log) == Runs(s.log) + 1
  {
    hide Runs, RunThread, RunEvent;
    if HandleNextItem(p, s).Some? {
      var id := Picked(p, s).value;
      if s.items[id].Thread? {
        RunThreadRunsOne(p, s, id);
      } else {
        RunEventRunsOne(p, s, id);
      }
    }
  }

  // ---------------------------------------------------------------------------------------
  // RunUntil

  // RunUntil(time, inclusive) returns from s, in state r.
  ghost predicate Reaches(p: Program, s: Sim, time: TimePoint, inclusive: bool, r: Sim) {
    exists fuel: nat :: RunUntil(p, s, time, inclusive, fuel) == Some(r)
  }

  lemma {:induction false} MoreFuel(p: Program, s: Sim, time: TimePoint, inclusive: bool, fuel: nat, more: nat)
    requires fuel <= more && RunUntil(p, s, time, inclusive, fuel).Some?
    ensures RunUntil(p, s, time, inclusive, more) == RunUntil(p, s, time, inclusive, fuel)
    decreases fuel
  {
    hide RunUntilStep, HandleNextItem;
    var step := RunUntilStep(p, s, time, inclusive);
    if step.More? {
      MoreFuel(p, step.next, time, inclusive, fuel - 1, more - 1);
    }
  }

  // Before the next timeout nothing can become ready.
  lemma IdleUntilNextTimeout(p: Program, s: Sim, time: TimePoint)
    requires Partitions(s.items, s.brackets)
    requires HandleNextItem(p, s).None?
    requires var next := NextTimeout(s.items, s.now, LOWEST_PRIO); next.Some? ==> time < next.value
    ensures HandleNextItem(p, s.(now := time)).None?
    ensures NextTimeout(s.items, time, LOWEST_PRIO) == NextTimeout(s.items, s.now, LOWEST_PRIO)
  {
    EveryTimeoutCounts(s.items, s.now, time);
    RunsBestReadyItem(p, s);
    var later := s.(now := time);
    forall id | 0 <= id < |s.items|
      ensures !Ready(p, later, id)
    {
      assert !Ready(p, s, id);
    }
    RunsBestReadyItem(p, later);
  }

  // A run that ends at (t1, i1) is a prefix of one that ends at (t2, i2).
  predicate NoLater(t1: TimePoint, i1: bool, t2: TimePoint, i2: bool) {
    t1 < t2 || (t1 == t2 && (i1 ==> i2))
  }

  // The two runs take the same steps until the earlier one is done, and from where that one ends
  // the other goes on as it would have.
  lemma StepsAgree(p: Program, s: Sim, t1: TimePoint, i1: bool, t2: TimePoint, i2: bool)
    requires Partitions(s.items, s.brackets) && NoLater(t1, i1, t2, i2)
    ensures var step := RunUntilStep(p, s, t1, i1);
            match step
            case More(next) => RunUntilStep(p, s, t2, i2) == step && Partitions(next.items, next.brackets)
            case Done(mid) =>
              || mid == s
              || RunUntilStep(p, mid, t2, i2) == RunUntilStep(p, s, t2, i2)
              || (RunUntilStep(p, mid, t2, i2) == Done(mid) && RunUntilStep(p, s, t2, i2) == Done(mid))
  {
    if HandleNextItem(p, s).Some? {
      HandleNextItemKeepsPartition(p, s);
    } else if Before(s.now, t1, i1) {
      var next := NextTimeout(s.items, s.now, LOWEST_PRIO);
      if next.None? || t1 < next.value {
        IdleUntilNextTimeout(p, s, t1);
      }
    }
  }

  lemma {:induction false} JoinRuns(p: Program, s: Sim, t1: TimePoint, i1: bool, f1: nat, t2: TimePoint, i2: bool, f2: nat)
    requires Partitions(s.items, s.brackets) && NoLater(t1, i1, t2, i2)
    requires RunUntil(p, s, t1, i1, f1).Some?
    requires RunUntil(p, RunUntil(p, s, t1, i1, f1).value, t2, i2, f2).Some?
    ensures RunUntil(p, s, t2, i2, f1 + f2) == RunUntil(p, RunUntil(p, s, t1, i1, f1).value, t2, i2, f2)
    decreases f1
  {
    hide RunUntilStep, HandleNextItem;
    StepsAgree(p, s, t1, i1, t2, i2);
    match RunUntilStep(p, s, t1, i1)
    case More(next) =>
      JoinRuns(p, next, t1, i1, f1 - 1, t2, i2, f2);
    case Done(mid) =>
      assert RunUntil(p, s, t2, i2, f2) == RunUntil(p, mid, t2, i2, f2);
      MoreFuel(p, s, t2, i2, f2, f1 + f2);
  }

  lemma {:induction false} SplitRun(p: Program, s: Sim, t1: TimePoint, i1: bool, t2: TimePoint, i2: bool, f: nat)
    requires Partitions(s.items, s.brackets) && NoLater(t1, i1, t2, i2)
    requires RunUntil(p, s, t2, i2, f).Some?
    ensures RunUntil(p, s, t1, i1, f).Some?
    ensures RunUntil(p, RunUntil(p, s, t1, i1, f).value, t2, i2, f) == RunUntil(p, s, t2, i2, f)
    decreases f
  {
    hide RunUntilStep, HandleNextItem;
    StepsAgree(p, s, t1, i1, t2, i2);
    match RunUntilStep(p, s, t1, i1)
    case More(next) =>
      SplitRun(p, next, t1, i1, t2, i2, f - 1);
      MoreFuel(p, RunUntil(p, next, t1, i1, f - 1).value, t2, i2, f - 1, f);
    case Done(mid) =>
      assert RunUntil(p, s, t2, i2, f) == RunUntil(p, mid, t2, i2, f);
  }

  /**
   Splitting a run changes nothing: running to (t1, i1) and then on to (t2, i2) returns exactly
   when running to (t2, i2) at once does, in the same state and with the same log. This holds
   for every program, whether or not it looks ahead, because unblock conditions do not see the
   clock.
   */
  lemma SplittingChangesNothing(p: Program, s: Sim, t1: TimePoint, i1: bool, t2: TimePoint, i2: bool, r: Sim)
    requires Partitions(s.items, s.brackets) && NoLater(t1, i1, t2, i2)
    ensures Reaches(p, s, t2, i2, r) <==> exists mid :: Reaches(p, s, t1, i1, mid) && Reaches(p, mid, t2, i2, r)
  {
    if Reaches(p, s, t2, i2, r) {
      var f: nat :| RunUntil(p, s, t2, i2, f) == Some(r);
      SplitRun(p, s, t1, i1, t2, i2, f);
      var mid := RunUntil(p, s, t1, i1, f).value;
      assert Reaches(p, s, t1, i1, mid) && Reaches(p, mid, t2, i2, r);
    }
    forall mid | Reaches(p, s, t1, i1, mid) && Reaches(p, mid, t2, i2, r)
      ensures Reaches(p, s, t2, i2, r)
    {
      var f1: nat :| RunUntil(p, s, t1, i1, f1) == Some(mid);
      var f2: nat :| RunUntil(p, mid, t2, i2, f2) == Some(r);
      JoinRuns(p, s, t1, i1, f1, t2, i2, f2);
    }
  }

  lemma RunUntilStepKeepsInTime(p: Program, s: Sim, time: TimePoint, inclusive: bool)
    requires LooksAhead(p) && Valid(s) && InTime(s)
    ensures var step := RunUntilStep(p, s, time, inclusive);
            var r := if step.More? then step.next else step.result;
            && Valid(r) && InTime(r) && s.now <= r.now && (s.now <= time ==> r.now <= time)
            && (time < s.now ==> step == Done(s))
            && (step.Done? && s.now <= time ==> r.now == time && (inclusive ==> Idle(p, r)))
  {
    HandleNextItemKeepsValid(p, s);
    HandleNextItemKeepsInTime(p, s);
    EveryTimeoutCounts(s.items, s.now, s.now);
    if HandleNextItem(p, s).Some? {
      RunItemKeepsShape(p, s, Picked(p, s).value);
    } else if Before(s.now, time, inclusive) {
      var next := NextTimeout(s.items, s.now, LOWEST_PRIO);
      if next.None? || time < next.value {
        IdleUntilNextTimeout(p, s, time);
        RunsBestReadyItem(p, s.(now := time));
      }
    }
  }

  /**
   No event is missed: a run that starts no later than its target ends exactly there, with no
   timeout passed over, and an inclusive one leaves nothing to run and no timeout up to the target.
   All runs in the log happened in order, and at their time stamps.
   */
  lemma {:induction false} RunUntilMissesNothing(p: Program, s: Sim, time: TimePoint, inclusive: bool, fuel: nat)
    requires LooksAhead(p) && Valid(s) && InTime(s)
    requires RunUntil(p, s, time, inclusive, fuel).Some?
    ensures var r := RunUntil(p, s, time, inclusive, fuel).value;
            && Valid(r) && InTime(r) && s.now <= r.now
            && (s.now <= time ==> r.now == time)
            && (time < s.now ==> r == s)
            && (forall id :: 0 <= id < |r.items| && r.items[id].GetTimeout().Some? ==> time <= r.items[id].GetTimeout().value || time < s.now)
            && (inclusive && s.now <= time ==>
                  && Idle(p, r)
                  && forall id :: 0 <= id < |r.items| && r.items[id].GetTimeout().Some? ==> time < r.items[id].GetTimeout().value)
    decreases fuel
  {
    hide RunUntilStep, HandleNextItem;
    RunUntilStepKeepsInTime(p, s, time, inclusive);
    var step := RunUntilStep(p, s, time, inclusive);
    if step.More? {
      RunUntilMissesNothing(p, step.next, time, inclusive, fuel - 1);
    } else {
      NothingDueWhenIdle(p, step.result);
    }
  }

  lemma NothingDueWhenIdle(p: Program, s: Sim)
    requires Valid(s) && InTime(s)
    ensures Idle(p, s) ==> forall id :: 0 <= id < |s.items| && s.items[id].GetTimeout().Some? ==> s.now < s.items[id].GetTimeout().value
  {
    if Idle(p, s) {
      forall id | 0 <= id < |s.items| && s.items[id].GetTimeout().Some?
        ensures s.now < s.items[id].GetTimeout().value
      {
        if s.items[id].DueAt(s.now) {
          DueIsReady(p, s, id);
        }
      }
    }
  }

  /** The clock goes back in a step of RunUntil exactly when nothing can run and a timeout lies in the past. */
  lemma ClockGoesBackExactly(p: Program, s: Sim, time: TimePoint, inclusive: bool)
    requires Valid(s)
    ensures var step := RunUntilStep(p, s, time, inclusive);
            (if step.More? then step.next else step.result).now < s.now
            <==>
            && Before(s.now, time, inclusive) && Idle(p, s)
            && exists id :: 0 <= id < |s.items| && s.items[id].GetTimeout().Some? && s.items[id].GetTimeout().value < s.now
  {
    EveryTimeoutCounts(s.items, s.now, s.now);
    RunsBestReadyItem(p, s);
    if HandleNextItem(p, s).Some? {
      RunItemKeepsShape(p, s, Picked(p, s).value);
    }
  }

  /** An event registered in the past, which not every peripheral refuses, does turn the clock back. */
  lemma PastEventTurnsClockBack(p: Program)
    ensures var s := Register(Sim(10, [Event(0, None)], [Bracket(ItemPrio(EXTERNAL_EVENT_PRIORITY_LEVEL, 0), 0, [0])], []),
                              Attempt(0, Action(0, 5)));
            Valid(s) && RunUntilStep(p, s, 20, false) == More(s.(now := 5))
  {
    var s := Register(Sim(10, [Event(0, None)], [Bracket(ItemPrio(EXTERNAL_EVENT_PRIORITY_LEVEL, 0), 0, [0])], []),
                      Attempt(0, Action(0, 5)));
    assert 0 in s.brackets[0].members;
    assert InSomeBracket(s.brackets, 0);
    assert Valid(s);
    RunsBestReadyItem(p, s);
    EveryTimeoutCounts(s.items, 10, 10);
    assert s.items[0].GetTimeout() == Some(5);
  }

  // ---------------------------------------------------------------------------------------
  // When RunUntil returns

  // The state after n iterations of RunUntil, if it has not returned before.
  function Visited(p: Program, s: Sim, time: TimePoint, inclusive: bool, n: nat): Option<Sim>
    decreases n
  {
    if n == 0 then Some(s)
    else
      match RunUntilStep(p, s, time, inclusive)
      case Done(_) => None
      case More(next) => Visited(p, next, time, inclusive, n - 1)
  }

  // Every item that runs in the course of the run lowers the rank.
  ghost predicate Calms(p: Program, rank: Sim -> nat, s: Sim, time: TimePoint, inclusive: bool) {
    forall n: nat ::
      var t := Visited(p, s, time, inclusive, n);
      t.Some? && Before(t.value.now, time, inclusive) && HandleNextItem(p, t.value).Some? ==>
        rank(HandleNextItem(p, t.value).value) < rank(t.value)
  }

  lemma CalmsOn(p: Program, rank: Sim -> nat, s: Sim, time: TimePoint, inclusive: bool)
    requires Calms(p, rank, s, time, inclusive) && RunUntilStep(p, s, time, inclusive).More?
    ensures Calms(p, rank, RunUntilStep(p, s, time, inclusive).next, time, inclusive)
    ensures HandleNextItem(p, s).Some? ==> rank(HandleNextItem(p, s).value) < rank(s)
  {
    hide HandleNextItem;
    var next := RunUntilStep(p, s, time, inclusive).next;
    forall n: nat
      ensures Visited(p, next, time, inclusive, n) == Visited(p, s, time, inclusive, n + 1)
    {
    }
    assert Visited(p, s, time, inclusive, 0) == Some(s);
  }

  // Each step of RunUntil gets closer to the target, or lowers the rank.
  lemma StepGetsCloser(p: Program, rank: Sim -> nat, s: Sim, time: TimePoint, inclusive: bool)
    requires LooksAhead(p) && Calms(p, rank, s, time, inclusive) && Valid(s) && InTime(s)
    requires RunUntilStep(p, s, time, inclusive).More?
    ensures var next := RunUntilStep(p, s, time, inclusive).next;
            && Valid(next) && InTime(next) && next.now <= time && Calms(p, rank, next, time, inclusive)
            && (s.now < next.now || (s.now == next.now && rank(next) < rank(s)))
  {
    CalmsOn(p, rank, s, time, inclusive);
    hide Calms;
    RunUntilStepKeepsInTime(p, s, time, inclusive);
    if HandleNextItem(p, s).None? {
      RunsBestReadyItem(p, s);
      NothingDueWhenIdle(p, s);
    } else {
      HandleNextItemKeepsPartition(p, s);
    }
  }

  /** RunUntil returns, in both modes, when only so many items can run at one instant of the run. */
  lemma RunUntilReturns(p: Program, rank: Sim -> nat, s: Sim, time: TimePoint, inclusive: bool)
    returns (fuel: nat)
    requires LooksAhead(p) && Calms(p, rank, s, time, inclusive) && Valid(s) && InTime(s)
    ensures RunUntil(p, s, time, inclusive, fuel).Some?
    decreases if s.now <= time then time - s.now + 1 else 0, rank(s)
  {
    hide RunUntilStep, HandleNextItem, LooksAhead, Calms, Valid, InTime;
    match RunUntilStep(p, s, time, inclusive)
    case Done(_) =>
      fuel := 1;
    case More(next) =>
      StepGetsCloser(p, rank, s, time, inclusive);
      var rest := RunUntilReturns(p, rank, next, time, inclusive);
      fuel := rest + 1;
  }

  // How many iterations a run takes that returns within fuel guards.
  function Remaining(p: Program, s: Sim, time: TimePoint, inclusive: bool, fuel: nat): nat
    decreases fuel
  {
    if fuel == 0 then 0
    else
      match RunUntilStep(p, s, time, inclusive)
      case Done(_) => 0
      case More(next) => 1 + Remaining(p, next, time, inclusive, fuel - 1)
  }

  lemma {:induction false} RemainingIsFixed(p: Program, s: Sim, time: TimePoint, inclusive: bool, fuel: nat, more: nat)
    requires RunUntil(p, s, time, inclusive, fuel).Some? && fuel <= more
    ensures Remaining(p, s, time, inclusive, fuel) == Remaining(p, s, time, inclusive, more)
    decreases fuel
  {
    hide RunUntilStep;
    var step := RunUntilStep(p, s, time, inclusive);
    if step.More? {
      RemainingIsFixed(p, step.next, time, inclusive, fuel - 1, more - 1);
    }
  }

  lemma {:induction false} VisitedReturns(p: Program, s: Sim, time: TimePoint, inclusive: bool, fuel: nat, n: nat)
    requires RunUntil(p, s, time, inclusive, fuel).Some? && Visited(p, s, time, inclusive, n).Some?
    ensures RunUntil(p, Visited(p, s, time, inclusive, n).value, time, inclusive, fuel).Some?
    decreases n
  {
    hide RunUntilStep;
    if n > 0 {
      var next := RunUntilStep(p, s, time, inclusive).next;
      MoreFuel(p, next, time, inclusive, fuel - 1, fuel);
      VisitedReturns(p, next, time, inclusive, fuel, n - 1);
    }
  }

  // A run that returns is calmed by the number of iterations that remain.
  lemma ReturningCalms(p: Program, s: Sim, time: TimePoint, inclusive: bool, fuel: nat)
    requires RunUntil(p, s, time, inclusive, fuel).Some?
    ensures Calms(p, (t: Sim) => Remaining(p, t, time, inclusive, fuel), s, time, inclusive)
  {
    hide HandleNextItem;
    var rank := (t: Sim) => Remaining(p, t, time, inclusive, fuel);
    forall n: nat | Visited(p, s, time, inclusive, n).Some?
      && Before(Visited(p, s, time, inclusive, n).value.now, time, inclusive)
      && HandleNextItem(p, Visited(p, s, time, inclusive, n).value).Some?
      ensures var t := Visited(p, s, time, inclusive, n).value;
              rank(HandleNextItem(p, t).value) < rank(t)
    {
      var t := Visited(p, s, time, inclusive, n).value;
      VisitedReturns(p, s, time, inclusive, fuel, n);
      var next := HandleNextItem(p, t).value;
      assert RunUntilStep(p, t, time, inclusive) == More(next);
      RemainingIsFixed(p, next, time, inclusive, fuel - 1, fuel);
    }
  }

  /** RunUntil returns if and only if there is a rank that every item that runs in the course of it lowers. */
  lemma ReturnsExactly(p: Program, s: Sim, time: TimePoint, inclusive: bool)
    requires LooksAhead(p) && Valid(s) && InTime(s)
    ensures (exists r :: Reaches(p, s, time, inclusive, r)) <==> (exists rank :: Calms(p, rank, s, time, inclusive))
  {
    hide RunUntil, Calms, Valid, InTime, LooksAhead;
    if r :| Reaches(p, s, time, inclusive, r) {
      var fuel: nat :| RunUntil(p, s, time, inclusive, fuel) == Some(r);
      ReturningCalms(p, s, time, inclusive, fuel);
    }
    if rank :| Calms(p, rank, s, time, inclusive) {
      var fuel := RunUntilReturns(p, rank, s, time, inclusive);
      assert Reaches(p, s, time, inclusive, RunUntil(p, s, time, inclusive, fuel).value);
    }
  }

  function ReadyItems(p: Program, s: Sim): set<nat> {
    set id | 0 <= id < |s.items| && Ready(p, s, id)
  }

  /** RunUntil returns when every item that runs in the course of it leaves strictly fewer items ready. */
  lemma FewerReadyReturns(p: Program, s: Sim, time: TimePoint, inclusive: bool)
    requires LooksAhead(p) && Valid(s) && InTime(s)
    requires forall n: nat ::
               var t := Visited(p, s, time, inclusive, n);
               t.Some? && Before(t.value.now, time, inclusive) && HandleNextItem(p, t.value).Some? ==>
                 |ReadyItems(p, HandleNextItem(p, t.value).value)| < |ReadyItems(p, t.value)|
    ensures exists r :: Reaches(p, s, time, inclusive, r)
  {
    var rank := (t: Sim) => |ReadyItems(p, t)|;
    assert Calms(p, rank, s, time, inclusive);
    var fuel := RunUntilReturns(p, rank, s, time, inclusive);
    assert Reaches(p, s, time, inclusive, RunUntil(p, s, time, inclusive, fuel).value);
  }

  // Requests and attempts of application code lie strictly in the future, and no condition unblocks a thread.
  ghost predicate AlwaysForward(p: Program) {
    && (forall condition, log :: !p.unblocked(condition, log))
    && (forall id, now, reason, log ::
          && ForwardRequest(p.threadCode(id, now, reason, log).request, now)
          && ForwardAttempts(p.threadCode(id, now, reason, log).attempts, now))
    && (forall callback, now, log :: ForwardAttempts(p.callbackCode(callback, now, log), now))
  }

  predicate ForwardRequest(request: Request, now: TimePoint) {
    match request
    case BlockUntil(time) => now < time
    case BlockOnSyncPrimitive(_, time) => now < time
    case BlockUntilNextTimePoint(_) => false
    case Finish => true
  }

  predicate ForwardAttempts(attempts: seq<Attempt>, now: TimePoint) {
    forall i :: 0 <= i < |attempts| ==> now < attempts[i].action.timestamp
  }

  // Registering for the future makes no item due.
  lemma {:induction false} RegisterAllMakesNothingDue(s: Sim, attempts: seq<Attempt>, id: nat)
    requires ForwardAttempts(attempts, s.now) && id < |s.items|
    ensures var r := RegisterAll(s, attempts);
            |r.items| == |s.items| && r.now == s.now && (r.items[id].DueAt(s.now) ==> s.items[id].DueAt(s.now))
    decreases |attempts|
  {
    if attempts != [] {
      RegisterAllMakesNothingDue(Register(s, attempts[0]), attempts[1..], id);
    }
  }

  // An item that has run is not due again, and no other one has become due.
  lemma RunMakesNothingDue(p: Program, s: Sim, ran: nat, id: nat)
    requires AlwaysForward(p) && Ready(p, s, ran) && id < |s.items|
    ensures var r := RunItem(p, s, ran);
            && |r.items| == |s.items| && !r.items[ran].DueAt(s.now)
            && (r.items[id].DueAt(s.now) ==> s.items[id].DueAt(s.now))
  {
    if s.items[ran].Thread? {
      var outcome := p.threadCode(ran, s.now, WakeReason(p, s.items[ran], s.log), s.log);
      var woken := WakeThread(p, s, ran);
      RegisterAllKeepsShape(woken, outcome.attempts);
      RegisterAllMakesNothingDue(woken, outcome.attempts, id);
      assert ForwardRequest(outcome.request, s.now);
    } else {
      var action := s.items[ran].pending.value;
      var started := s.(log := s.log + [EventRan(s.now, ran, action)]);
      RegisterAllKeepsShape(started, p.callbackCode(action.callback, s.now, s.log));
      RegisterAllMakesNothingDue(started, p.callbackCode(action.callback, s.now, s.log), id);
    }
  }

  // What is ready after the run of an item was ready before, and is another item.
  lemma ReadyBefore(p: Program, s: Sim, ran: nat, id: nat)
    requires AlwaysForward(p) && Ready(p, s, ran) && Ready(p, RunItem(p, s, ran), id)
    ensures id != ran && Ready(p, s, id)
  {
    RunItemKeepsShape(p, s, ran);
    var r := RunItem(p, s, ran);
    assert r.items[id].DueAt(r.now) by {
      assert !ConditionMet(p, r.items[id], r.log);
    }
    hide RunItem, AlwaysForward;
    RunMakesNothingDue(p, s, ran, id);
  }

  lemma Fewer(a: set<nat>, b: set<nat>, x: nat)
    requires a <= b && x in b && x !in a
    ensures |a| < |b|
  {
    SubsetIsSmaller(a, b - {x});
  }

  lemma {:induction false} SubsetIsSmaller(a: set<nat>, b: set<nat>)
    requires a <= b
    ensures |a| <= |b|
    decreases b
  {
    if x :| x in a {
      SubsetIsSmaller(a - {x}, b - {x});
    }
  }

  lemma ForwardLeavesFewerReady(p: Program, s: Sim)
    requires AlwaysForward(p) && HandleNextItem(p, s).Some?
    ensures |ReadyItems(p, HandleNextItem(p, s).value)| < |ReadyItems(p, s)|
  {
    var ran := Picked(p, s).value;
    var r := HandleNextItem(p, s).value;
    RunItemKeepsShape(p, s, ran);
    var run := RunItem(p, s, ran);
    assert r.items == run.items && r.now == run.now && r.log == run.log;
    hide HandleNextItem, RunItem, AlwaysForward, Picked;
    assert ReadyItems(p, r) == ReadyItems(p, run);
    forall id | id in ReadyItems(p, run)
      ensures id != ran && id in ReadyItems(p, s)
    {
      ReadyBefore(p, s, ran, id);
    }
    Fewer(ReadyItems(p, run), ReadyItems(p, s), ran);
  }

  /** RunUntil returns, from every state, for every application that always blocks until later and waits for time only. */
  lemma ForwardReturns(p: Program, s: Sim, time: TimePoint, inclusive: bool)
    requires AlwaysForward(p) && Valid(s) && InTime(s)
    ensures exists r :: Reaches(p, s, time, inclusive, r)
  {
    forall n: nat
      ensures var t := Visited(p, s, time, inclusive, n);
              t.Some? && HandleNextItem(p, t.value).Some? ==>
                |ReadyItems(p, HandleNextItem(p, t.value).value)| < |ReadyItems(p, t.value)|
    {
      var t := Visited(p, s, time, inclusive, n);
      if t.Some? && HandleNextItem(p, t.value).Some? {
        ForwardLeavesFewerReady(p, t.value);
      }
    }
    assert LooksAhead(p);
    hide HandleNextItem, LooksAhead, AlwaysForward, ReadyItems, Visited;
    FewerReadyReturns(p, s, time, inclusive);
  }

  /** A thread that only ever yields keeps RunUntil from returning. */
  lemma {:induction false} YieldingForeverNeverReturns(p: Program, s: Sim, prio: nat, time: TimePoint, inclusive: bool, fuel: nat)
    requires forall id, now, reason, log :: p.threadCode(id, now, reason, log) == Outcome([], BlockUntil(now))
    requires s.items == [Thread(prio, true, Some(s.now), None)]
    requires s.brackets == [Bracket(ItemPrio(THREAD_PRIORITY_LEVEL, prio), 0, [0])]
    requires Before(s.now, time, inclusive)
    ensures RunUntil(p, s, time, inclusive, fuel).None?
    decreases fuel
  {
    if fuel > 0 {
      assert Ready(p, s, 0);
      assert Slot(s.brackets[0], 0) == 0;
      assert Picked(p, s) == Some(0);
      var r := HandleNextItem(p, s).value;
      assert RegisterAll(WakeThread(p, s, 0), []) == WakeThread(p, s, 0);
      assert r.items == s.items && r.brackets == s.brackets && r.now == s.now;
      YieldingForeverNeverReturns(p, r, prio, time, inclusive, fuel - 1);
    }
  }

  // ---------------------------------------------------------------------------------------
  // RunUntilNextTimePoint

  lemma {:induction false} DrainRunsAll(p: Program, s: Sim, fuel: nat)
    requires Valid(s) && Drain(p, s, fuel).Some?
    ensures var r := Drain(p, s, fuel).value;
            && Valid(r) && HandleNextItem(p, r).None? && r.now == s.now
            && Runs(r.log) >= Runs(s.log) + (if HandleNextItem(p, s).Some? then 1 else 0)
            && (HandleNextItem(p, s).None? ==> r == s)
    decreases fuel
  {
    hide HandleNextItem;
    var ran := HandleNextItem(p, s);
    if ran.Some? {
      HandleNextItemKeepsValid(p, s);
      HandleNextItemRunsOne(p, s);
      HandleNextItemKeepsPartition(p, s);
      DrainRunsAll(p, ran.value, fuel - 1);
    }
  }

  lemma {:induction false} DrainKeepsInTime(p: Program, s: Sim, fuel: nat)
    requires LooksAhead(p) && Valid(s) && InTime(s)
    requires Drain(p, s, fuel).Some?
    ensures InTime(Drain(p, s, fuel).value)
    decreases fuel
  {
    hide HandleNextItem;
    var ran := HandleNextItem(p, s);
    if ran.Some? {
      HandleNextItemKeepsValid(p, s);
      HandleNextItemKeepsInTime(p, s);
      DrainKeepsInTime(p, ran.value, fuel - 1);
    }
  }

  /**
   RunUntilNextTimePoint returns true exactly when an item ran. Then nothing is ready at the new
   time, which is the old one if something was ready there, and else the earliest timeout, which is
   within the bound. Otherwise time is at the bound and every timeout lies beyond it.
   */
  lemma RunUntilNextTimePointMeans(p: Program, s: Sim, upperBound: TimePoint, fuel: nat)
    requires Valid(s) && RunUntilNextTimePoint(p, s, upperBound, fuel).Some?
    ensures var (r, ran) := RunUntilNextTimePoint(p, s, upperBound, fuel).value;
            && Valid(r)
            && (ran <==> Runs(s.log) < Runs(r.log))
            && (ran ==> Idle(p, r))
            && (ran && !Idle(p, s) ==> r.now == s.now)
            && (ran && Idle(p, s) ==> NextTimeout(s.items, s.now, LOWEST_PRIO) == Some(r.now) && r.now <= upperBound)
            && (!ran ==>
                  && r == s.(now := upperBound) && Idle(p, s)
                  && forall id :: 0 <= id < |r.items| && r.items[id].GetTimeout().Some? ==> upperBound < r.items[id].GetTimeout().value)
  {
    RunsBestReadyItem(p, s);
    DrainRunsAll(p, s, fuel);
    RunsBestReadyItem(p, Drain(p, s, fuel).value);
    EveryTimeoutCounts(s.items, s.now, s.now);
    var next := NextTimeout(s.items, s.now, LOWEST_PRIO);
    if HandleNextItem(p, s).None? && next.Some? && next.value <= upperBound {
      var advanced := s.(now := next.value);
      NextTimeoutIsReady(p, s);
      DrainRunsAll(p, advanced, fuel);
      RunsBestReadyItem(p, Drain(p, advanced, fuel).value);
    }
  }

  /**
   Unlike RunUntil, RunUntilNextTimePoint does not compare its bound with the current time: it
   turns the clock back exactly when nothing is ready and the bound lies in the past. With a bound
   that does not lie in the past it keeps everything in time.
   */
  lemma NextTimePointTurnsClockBackExactly(p: Program, s: Sim, upperBound: TimePoint, fuel: nat)
    requires LooksAhead(p) && Valid(s) && InTime(s)
    requires RunUntilNextTimePoint(p, s, upperBound, fuel).Some?
    ensures var (r, ran) := RunUntilNextTimePoint(p, s, upperBound, fuel).value;
            && (r.now < s.now <==> upperBound < s.now && Idle(p, s))
            && (s.now <= upperBound ==> InTime(r))
  {
    RunUntilNextTimePointMeans(p, s, upperBound, fuel);
    DrainKeepsInTime(p, s, fuel);
    RunsBestReadyItem(p, s);
    var next := NextTimeout(s.items, s.now, LOWEST_PRIO);
    if HandleNextItem(p, s).None? && next.Some? && next.value <= upperBound {
      EveryTimeoutCounts(s.items, s.now, s.now);
      NextTimeoutIsReady(p, s);
      DrainKeepsInTime(p, s.(now := next.value), fuel);
    }
  }
}
