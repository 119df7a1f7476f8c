/**
 What every run of an item keeps: which items can be due, that nothing is missed, and that no
 accepted event is lost or run twice.
 */
module SchedulerInvariants {
  import opened Wrappers
  import opened SchedulerModel
  import opened SchedulerPriority

  // ---------------------------------------------------------------------------------------
  // Only running threads have a timeout, and all of them do

  predicate Settled(it: Item) {
    it.Thread? ==> (it.running <==> it.timeout.Some?) && (it.waitsOn.Some? ==> it.running)
  }

  ghost predicate Valid(s: Sim) {
    Partitions(s.items, s.brackets) && forall id :: 0 <= id < |s.items| ==> Settled(s.items[id])
  }

  lemma RunItemKeepsSettled(p: Program, s: Sim, id: nat)
    requires Ready(p, s, id)
    requires forall i :: 0 <= i < |s.items| ==> Settled(s.items[i])
    ensures var r := RunItem(p, s, id);
            |r.items| == |s.items| && forall i :: 0 <= i < |s.items| ==> Settled(r.items[i])
  {
    RunItemKeepsShape(p, s, id);
    if s.items[id].Thread? {
      var outcome := p.threadCode(id, s.now, WakeReason(p, s.items[id], s.log), s.log);
      var woken := WakeThread(p, s, id);
      RegisterAllKeepsShape(woken, outcome.attempts);
      assert Settled(RunThread(p, s, id).items[id]);
    }
  }

  lemma HandleNextItemKeepsValid(p: Program, s: Sim)
    requires Valid(s)
    ensures HandleNextItem(p, s).Some? ==> Valid(HandleNextItem(p, s).value)
  {
    if HandleNextItem(p, s).Some? {
      RunItemKeepsSettled(p, s, Picked(p, s).value);
      HandleNextItemKeepsPartition(p, s);
      RunItemKeepsShape(p, s, Picked(p, s).value);
    }
  }

  // With the default options every timeout counts, whatever the time.
  lemma EveryTimeoutCounts(items: seq<Item>, now: TimePoint, time: TimePoint)
    ensures NextTimeout(items, now, LOWEST_PRIO) == NextTimeout(items, time, LOWEST_PRIO)
    ensures forall id :: 0 <= id < |items| && items[id].GetTimeout().Some? ==> Eligible(items[id], now, LOWEST_PRIO)
    decreases |items|
  {
    if items != [] {
      EveryTimeoutCounts(items[..|items| - 1], now, time);
    }
  }

  /** At a time at which an item is due, some item can be run. */
  lemma DueIsReady(p: Program, s: Sim, id: nat)
    requires Valid(s) && id < |s.items| && s.items[id].DueAt(s.now)
    ensures Ready(p, s, id) && HandleNextItem(p, s).Some?
  {
    assert Settled(s.items[id]);
    assert Ready(p, s, id);
    RunsBestReadyItem(p, s);
  }

  lemma NextTimeoutIsReady(p: Program, s: Sim)
    requires Valid(s)
    requires NextTimeout(s.items, s.now, LOWEST_PRIO).Some?
    ensures var advanced := s.(now := NextTimeout(s.items, s.now, LOWEST_PRIO).value);
            Valid(advanced) && HandleNextItem(p, advanced).Some?
  {
    var next := NextTimeout(s.items, s.now, LOWEST_PRIO);
    var id :| 0 <= id < |s.items| && Eligible(s.items[id], s.now, LOWEST_PRIO) && s.items[id].DueAt(next.value);
    DueIsReady(p, s.(now := next.value), id);
  }

  // ---------------------------------------------------------------------------------------
  // Nothing is missed and time does not go back

  predicate RequestAhead(request: Request, now: TimePoint) {
    match request
    case BlockUntil(time) => now <= time
    case BlockOnSyncPrimitive(_, time) => now <= time
    case BlockUntilNextTimePoint(upperBound) => now <= upperBound
    case Finish => true
  }

  predicate AttemptsAhead(attempts: seq<Attempt>, now: TimePoint) {
    forall i :: 0 <= i < |attempts| ==> now <= attempts[i].action.timestamp
  }

  /** Application code that blocks, and registers external events, at the current time or later. */
  ghost predicate LooksAhead(p: Program) {
    && (forall id, now, reason, log ::
          && RequestAhead(p.threadCode(id, now, reason, log).request, now)
          && AttemptsAhead(p.threadCode(id, now, reason, log).attempts, now))
    && (forall callback, now, log :: AttemptsAhead(p.callbackCode(callback, now, log), now))
  }

  // No thread runs after its deadline, one that timed out runs at its deadline, and an external
  // event runs at its time stamp.
  predicate Punctual(e: Entry) {
    match e
    case ThreadRan(at, _, deadline, reason) =>
      deadline.Some? && at <= deadline.value && (reason == Timeout ==> at == deadline.value)
    case EventRan(at, _, action) => at == action.timestamp
    case Accepted(at, _, action) => at <= action.timestamp
    case _ => true
  }

  ghost predicate Chronological(log: seq<Entry>, now: TimePoint) {
    && (forall i, j :: 0 <= i < j < |log| ==> log[i].at <= log[j].at)
    && (forall i :: 0 <= i < |log| ==> log[i].at <= now && Punctual(log[i]))
  }

  ghost predicate NothingOverdue(items: seq<Item>, now: TimePoint) {
    forall id :: 0 <= id < |items| && items[id].GetTimeout().Some? ==> now <= items[id].GetTimeout().value
  }

  ghost predicate InTime(s: Sim) {
    NothingOverdue(s.items, s.now) && Chronological(s.log, s.now)
  }

  lemma {:induction false} RegisterAllKeepsInTime(s: Sim, attempts: seq<Attempt>)
    requires InTime(s) && AttemptsAhead(attempts, s.now)
    ensures InTime(RegisterAll(s, attempts)) && RegisterAll(s, attempts).now == s.now
    decreases |attempts|
  {
    if attempts != [] {
      RegisterAllKeepsInTime(Register(s, attempts[0]), attempts[1..]);
    }
  }

  lemma BlockKeepsInTime(s: Sim, id: nat, request: Request)
    requires id < |s.items| && s.items[id].Thread?
    requires InTime(s) && RequestAhead(request, s.now)
    ensures InTime(Block(s, id, request))
  {
  }

  lemma RunItemKeepsInTime(p: Program, s: Sim, id: nat)
    requires LooksAhead(p) && Ready(p, s, id) && Settled(s.items[id]) && InTime(s)
    ensures InTime(RunItem(p, s, id))
  {
    if s.items[id].Thread? {
      var outcome := p.threadCode(id, s.now, WakeReason(p, s.items[id], s.log), s.log);
      var woken := WakeThread(p, s, id);
      assert InTime(woken);
      RegisterAllKeepsInTime(woken, outcome.attempts);
      RegisterAllKeepsShape(woken, outcome.attempts);
      BlockKeepsInTime(RegisterAll(woken, outcome.attempts), id, outcome.request);
    } else {
      var action := s.items[id].pending.value;
      var started := s.(log := s.log + [EventRan(s.now, id, action)]);
      assert InTime(started);
      RegisterAllKeepsInTime(started, p.callbackCode(action.callback, s.now, s.log));
      RegisterAllKeepsShape(started, p.callbackCode(action.callback, s.now, s.log));
    }
  }

  lemma HandleNextItemKeepsInTime(p: Program, s: Sim)
    requires LooksAhead(p) && Valid(s) && InTime(s)
    ensures HandleNextItem(p, s).Some? ==> InTime(HandleNextItem(p, s).value)
  {
    if HandleNextItem(p, s).Some? {
      RunItemKeepsInTime(p, s, Picked(p, s).value);
      RunItemKeepsShape(p, s, Picked(p, s).value);
    }
  }

  // ---------------------------------------------------------------------------------------
  // Event conservation

  // The actions that external event number id has accepted, oldest first.
  function AcceptedBy(log: seq<Entry>, id: nat): seq<Action> {
    if log == [] then []
    else
      var last := log[|log| - 1];
      AcceptedBy(log[..|log| - 1], id) + (if last.Accepted? && last.id == id then [last.action] else [])
  }

  // The actions that external event number id has run, oldest first.
  function RanBy(log: seq<Entry>, id: nat): seq<Action> {
    if log == [] then []
    else
      var last := log[|log| - 1];
      RanBy(log[..|log| - 1], id) + (if last.EventRan? && last.id == id then [last.action] else [])
  }

  function PendingOf(it: Item): seq<Action> {
    if it.Event? && it.pending.Some? then [it.pending.value] else []
  }

  /** Every accepted action has been run once, in the order of acceptance, or is still pending. */
  ghost predicate Conserved(s: Sim) {
    forall id :: 0 <= id < |s.items| && s.items[id].Event? ==>
      AcceptedBy(s.log, id) == RanBy(s.log, id) + PendingOf(s.items[id])
  }

  lemma LogGrows(log: seq<Entry>, e: Entry, id: nat)
    ensures AcceptedBy(log + [e], id) == AcceptedBy(log, id) + (if e.Accepted? && e.id == id then [e.action] else [])
    ensures RanBy(log + [e], id) == RanBy(log, id) + (if e.EventRan? && e.id == id then [e.action] else [])
  {
    assert (log + [e])[..|log|] == log;
  }

  // Registration adds to the accepted actions exactly what becomes pending. An event that still
  // holds an action, such as the one whose callback runs, accepts nothing.
  lemma {:induction false} RegisterAllBalance(s: Sim, attempts: seq<Attempt>, id: nat)
    requires id < |s.items| && s.items[id].Event?
    ensures var r := RegisterAll(s, attempts);
            && id < |r.items| && r.items[id].Event?
            && RanBy(r.log, id) == RanBy(s.log, id)
            && (if s.items[id].pending.Some? then r.items[id] == s.items[id] && AcceptedBy(r.log, id) == AcceptedBy(s.log, id)
                else AcceptedBy(r.log, id) == AcceptedBy(s.log, id) + PendingOf(r.items[id]))
    decreases |attempts|
  {
    if attempts != [] {
      LogGrows(s.log, Accepted(s.now, attempts[0].id, attempts[0].action), id);
      RegisterAllBalance(Register(s, attempts[0]), attempts[1..], id);
    }
  }

  lemma BlockBalance(s: Sim, thread: nat, request: Request, id: nat)
    requires thread < |s.items| && s.items[thread].Thread?
    requires id < |s.items| && s.items[id].Event?
    ensures var r := Block(s, thread, request);
            && |r.items| == |s.items| && r.items[id] == s.items[id]
            && AcceptedBy(r.log, id) == AcceptedBy(s.log, id) && RanBy(r.log, id) == RanBy(s.log, id)
  {
    if request.BlockUntilNextTimePoint? {
      var hit := FindTimePoint(s, s.items[thread].Priority(), request.upperBound).1;
      LogGrows(s.log, FoundTimePoint(s.now, thread, hit), id);
    }
  }

  lemma RunThreadBalance(p: Program, s: Sim, thread: nat, id: nat)
    requires thread < |s.items| && s.items[thread].Thread?
    requires id < |s.items| && s.items[id].Event?
    requires AcceptedBy(s.log, id) == RanBy(s.log, id) + PendingOf(s.items[id])
    ensures var r := RunThread(p, s, thread);
            && |r.items| == |s.items| && r.items[id].Event?
            && AcceptedBy(r.log, id) == RanBy(r.log, id) + PendingOf(r.items[id])
  {
    var reason := WakeReason(p, s.items[thread], s.log);
    var attempts := p.threadCode(thread, s.now, reason, s.log).attempts;
    var woken := WakeThread(p, s, thread);
    LogGrows(s.log, ThreadRan(s.now, thread, s.items[thread].timeout, reason), id);
    RegisterAllBalance(woken, attempts, id);
    RegisterAllKeepsShape(woken, attempts);
    BlockBalance(RegisterAll(woken, attempts), thread, p.threadCode(thread, s.now, reason, s.log).request, id);
  }

  lemma RunEventBalance(p: Program, s: Sim, event: nat, id: nat)
    requires event < |s.items| && s.items[event].Event? && s.items[event].pending.Some?
    requires id < |s.items| && s.items[id].Event?
    requires AcceptedBy(s.log, id) == RanBy(s.log, id) + PendingOf(s.items[id])
    ensures var r := RunEvent(p, s, event);
            && |r.items| == |s.items| && r.items[id].Event?
            && AcceptedBy(r.log, id) == RanBy(r.log, id) + PendingOf(r.items[id])
  {
    var action := s.items[event].pending.value;
    var started := s.(log := s.log + [EventRan(s.now, event, action)]);
    var attempts := p.callbackCode(action.callback, s.now, s.log);
    LogGrows(s.log, EventRan(s.now, event, action), id);
    RegisterAllBalance(started, attempts, id);
    RegisterAllKeepsShape(started, attempts);
  }

  lemma HandleNextItemConserves(p: Program, s: Sim)
    requires Conserved(s)
    ensures HandleNextItem(p, s).Some? ==> Conserved(HandleNextItem(p, s).value)
  {
    if HandleNextItem(p, s).Some? {
      var picked := Picked(p, s).value;
      RunItemKeepsShape(p, s, picked);
      var r := RunItem(p, s, picked);
      forall id | 0 <= id < |s.items| && s.items[id].Event?
        ensures AcceptedBy(r.log, id) == RanBy(r.log, id) + PendingOf(r.items[id])
      {
        if s.items[picked].Thread? {
          RunThreadBalance(p, s, picked, id);
        } else {
          RunEventBalance(p, s, picked, id);
        }
      }
    }
  }

  lemma RegisterConserves(s: Sim, a: Attempt)
    requires Conserved(s)
    ensures Conserved(Register(s, a))
  {
    var r := Register(s, a);
    forall id | 0 <= id < |s.items| && s.items[id].Event?
      ensures AcceptedBy(r.log, id) == RanBy(r.log, id) + PendingOf(r.items[id])
    {
      LogGrows(s.log, Accepted(s.now, a.id, a.action), id);
    }
  }
}
