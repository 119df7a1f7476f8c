/**
 The discrete-event scheduler of the software-in-the-loop simulator, as a function from
 simulation states to simulation states.

 The simulated application is a `Program`: deterministic code that is told what has happened
 so far (the log) and answers with what it does until it blocks again. Everything application
 code remembers is determined by that history, so no separate application memory is needed.
 */
module SchedulerModel {
  import opened Wrappers

  // Microseconds since the simulated epoch. The scheduler compares and copies time points, it
  // never computes with them, so their 64-bit width plays no role here.
  type TimePoint = nat

  const EXTERNAL_EVENT_PRIORITY_LEVEL := 1
  const THREAD_PRIORITY_LEVEL := 10
  const LOWEST_PRIORITY_LEVEL := 10_000

  datatype ItemPrio = ItemPrio(level: nat, sub: nat)

  const LOWEST_PRIO := ItemPrio(LOWEST_PRIORITY_LEVEL, 0)

  // Lexicographic order on priorities. A smaller priority is a better one.
  predicate Better(a: ItemPrio, b: ItemPrio) {
    a.level < b.level || (a.level == b.level && a.sub < b.sub)
  }

  datatype UnblockReason = Timeout | SyncPrimitive

  datatype Action = Action(callback: nat, timestamp: TimePoint)

  /** A scheduler item between two of its runs. */
  datatype Item =
    | Thread(prio: nat, running: bool, timeout: Option<TimePoint>, waitsOn: Option<nat>)
    | Event(prio: nat, pending: Option<Action>)
  {
    function Priority(): ItemPrio {
      if Thread? then ItemPrio(THREAD_PRIORITY_LEVEL, prio) else ItemPrio(EXTERNAL_EVENT_PRIORITY_LEVEL, prio)
    }

    predicate IsRunning() {
      if Thread? then running else pending.Some?
    }

    function GetTimeout(): Option<TimePoint> {
      if Thread? then timeout else if pending.Some? then Some(pending.value.timestamp) else None
    }

    predicate DueAt(time: TimePoint) {
      GetTimeout() == Some(time)
    }
  }

  /** What has happened in a simulation, oldest first. */
  datatype Entry =
    | ThreadRan(at: TimePoint, id: nat, deadline: Option<TimePoint>, reason: UnblockReason)
    | FoundTimePoint(at: TimePoint, id: nat, hit: bool)
    | Accepted(at: TimePoint, id: nat, action: Action)
    | EventRan(at: TimePoint, id: nat, action: Action)
    | StopRequested(at: TimePoint)

  /** How a thread ends its run. Yielding is blocking until the current time. */
  datatype Request =
    | BlockUntil(time: TimePoint)
    | BlockOnSyncPrimitive(condition: nat, time: TimePoint)
    | BlockUntilNextTimePoint(upperBound: TimePoint)
    | Finish

  // An attempt to register a pending action on external event number id.
  datatype Attempt = Attempt(id: nat, action: Action)

  datatype Outcome = Outcome(attempts: seq<Attempt>, request: Request)

  /**
   The simulated application: the code of its threads, the code of its event callbacks, and its
   unblock conditions. Conditions see the history, but not the clock.
   */
  datatype Program = Program(
    threadCode: (nat, TimePoint, UnblockReason, seq<Entry>) -> Outcome,
    callbackCode: (nat, TimePoint, seq<Entry>) -> seq<Attempt>,
    unblocked: (nat, seq<Entry>) -> bool)

  // Items of equal priority. Members are item numbers.
  datatype Bracket = Bracket(prio: ItemPrio, rrIdx: nat, members: seq<nat>)

  datatype Sim = Sim(now: TimePoint, items: seq<Item>, brackets: seq<Bracket>, log: seq<Entry>)

  // ---------------------------------------------------------------------------------------
  // Pending items

  predicate ConditionMet(p: Program, it: Item, log: seq<Entry>) {
    it.Thread? && it.waitsOn.Some? && p.unblocked(it.waitsOn.value, log)
  }

  predicate IsPending(p: Program, it: Item, time: TimePoint, log: seq<Entry>) {
    it.DueAt(time) || ConditionMet(p, it, log)
  }

  // Item number id can be run right now.
  predicate Ready(p: Program, s: Sim, id: nat) {
    id < |s.items| && s.items[id].IsRunning() && IsPending(p, s.items[id], s.now, s.log)
  }

  predicate Idle(p: Program, s: Sim) {
    forall id :: 0 <= id < |s.items| ==> !Ready(p, s, id)
  }

  // ---------------------------------------------------------------------------------------
  // The next timeout

  // An item that is due right now only counts when it is at least as good as minPrio.
  predicate Eligible(it: Item, now: TimePoint, minPrio: ItemPrio) {
    it.GetTimeout().Some? && !(it.DueAt(now) && Better(minPrio, it.Priority()))
  }

  // r is the earliest timeout among the eligible items, None when no item is eligible.
  ghost predicate IsEarliest(items: seq<Item>, now: TimePoint, minPrio: ItemPrio, r: Option<TimePoint>) {
    && (r.Some? ==> exists id :: 0 <= id < |items| && Eligible(items[id], now, minPrio) && items[id].DueAt(r.value))
    && (forall id :: 0 <= id < |items| && Eligible(items[id], now, minPrio) ==>
          r.Some? && r.value <= items[id].GetTimeout().value)
  }

  function Earlier(a: Option<TimePoint>, b: Option<TimePoint>): Option<TimePoint> {
    if a.None? then b else if b.None? then a else if b.value < a.value then b else a
  }

  function NextTimeout(items: seq<Item>, now: TimePoint, minPrio: ItemPrio): (r: Option<TimePoint>)
    ensures IsEarliest(items, now, minPrio, r)
  {
    if items == [] then None
    else
      var last := |items| - 1;
      var rest := NextTimeout(items[..last], now, minPrio);
      if Eligible(items[last], now, minPrio) then Earlier(rest, items[last].GetTimeout()) else rest
  }

  // ---------------------------------------------------------------------------------------
  // Running one item

  // Registers a pending action, unless the event still holds one.
  function Register(s: Sim, a: Attempt): Sim {
    if a.id < |s.items| && s.items[a.id].Event? && s.items[a.id].pending.None? then
      s.(items := s.items[a.id := s.items[a.id].(pending := Some(a.action))],
         log := s.log + [Accepted(s.now, a.id, a.action)])
    else s
  }

  function RegisterAll(s: Sim, attempts: seq<Attempt>): Sim
    decreases |attempts|
  {
    if attempts == [] then s else RegisterAll(Register(s, attempts[0]), attempts[1..])
  }

  // Until when a thread of priority prio blocks that asks for the next time point, and whether
  // that is a time point of another item.
  function FindTimePoint(s: Sim, prio: ItemPrio, upperBound: TimePoint): (TimePoint, bool) {
    var next := NextTimeout(s.items, s.now, prio);
    if next.Some? && next.value <= upperBound then (next.value, true) else (upperBound, false)
  }

  // Thread number id, which has just run, blocks or stops.
  function Block(s: Sim, id: nat, request: Request): Sim
    requires id < |s.items| && s.items[id].Thread?
  {
    var it := s.items[id];
    match request
    case BlockUntil(time) =>
      s.(items := s.items[id := it.(timeout := Some(time))])
    case BlockOnSyncPrimitive(condition, time) =>
      s.(items := s.items[id := it.(timeout := Some(time), waitsOn := Some(condition))])
    case BlockUntilNextTimePoint(upperBound) =>
      var (time, hit) := FindTimePoint(s, it.Priority(), upperBound);
      s.(items := s.items[id := it.(timeout := Some(time))], log := s.log + [FoundTimePoint(s.now, id, hit)])
    case Finish =>
      s.(items := s.items[id := it.(running := false)])
  }

  function WakeReason(p: Program, it: Item, log: seq<Entry>): UnblockReason {
    if ConditionMet(p, it, log) then SyncPrimitive else Timeout
  }

  // The thread has been woken: its unblock reasons are cleared.
  function WakeThread(p: Program, s: Sim, id: nat): Sim
    requires id < |s.items| && s.items[id].Thread?
  {
    var it := s.items[id];
    s.(items := s.items[id := it.(timeout := None, waitsOn := None)],
       log := s.log + [ThreadRan(s.now, id, it.timeout, WakeReason(p, it, s.log))])
  }

  lemma RegisterAllKeepsShape(s: Sim, attempts: seq<Attempt>)
    ensures var r := RegisterAll(s, attempts);
            && r.now == s.now && r.brackets == s.brackets && |r.items| == |s.items|
            && (forall id :: 0 <= id < |s.items| && s.items[id].Thread? ==> r.items[id] == s.items[id])
            && (forall id :: 0 <= id < |s.items| && s.items[id].Event? ==>
                  && r.items[id].Event? && r.items[id].prio == s.items[id].prio
                  && (s.items[id].pending.Some? ==> r.items[id] == s.items[id]))
    decreases |attempts|
  {
    if attempts != [] {
      RegisterAllKeepsShape(Register(s, attempts[0]), attempts[1..]);
    }
  }

  function RunThread(p: Program, s: Sim, id: nat): Sim
    requires id < |s.items| && s.items[id].Thread?
  {
    var reason := WakeReason(p, s.items[id], s.log);
    var outcome := p.threadCode(id, s.now, reason, s.log);
    var woken := WakeThread(p, s, id);
    RegisterAllKeepsShape(woken, outcome.attempts);
    Block(RegisterAll(woken, outcome.attempts), id, outcome.request)
  }

  // The pending action is only reset when its callback has returned.
  function RunEvent(p: Program, s: Sim, id: nat): Sim
    requires id < |s.items| && s.items[id].Event? && s.items[id].pending.Some?
  {
    var action := s.items[id].pending.value;
    var started := s.(log := s.log + [EventRan(s.now, id, action)]);
    var called := RegisterAll(started, p.callbackCode(action.callback, s.now, s.log));
    RegisterAllKeepsShape(started, p.callbackCode(action.callback, s.now, s.log));
    called.(items := called.items[id := called.items[id].(pending := None)])
  }

  function RunItem(p: Program, s: Sim, id: nat): Sim
    requires Ready(p, s, id)
  {
    if s.items[id].Thread? then RunThread(p, s, id) else RunEvent(p, s, id)
  }

  // ---------------------------------------------------------------------------------------
  // Choosing the item to run

  // The i-th member of bracket b, counted from its round-robin position.
  function Slot(b: Bracket, i: nat): nat
    requires b.members != []
  {
    b.members[(i + b.rrIdx) % |b.members|]
  }

  // The first ready member of bracket b, from its round-robin position plus i on.
  function PickMember(p: Program, s: Sim, b: Bracket, i: nat): (r: Option<nat>)
    requires i <= |b.members|
    ensures r.Some? ==> r.value in b.members && Ready(p, s, r.value)
    ensures r.Some? ==> exists j :: i <= j < |b.members| && Slot(b, j) == r.value && forall m :: i <= m < j ==> !Ready(p, s, Slot(b, m))
    ensures r.None? ==> forall j :: i <= j < |b.members| ==> !Ready(p, s, Slot(b, j))
    decreases |b.members| - i
  {
    if i == |b.members| then None
    else
      var id := Slot(b, i);
      if Ready(p, s, id) then Some(id) else PickMember(p, s, b, i + 1)
  }

  // The first bracket from number k on that has a ready member.
  function PickBracket(p: Program, s: Sim, k: nat): (r: Option<nat>)
    requires k <= |s.brackets|
    ensures r.Some? ==> k <= r.value < |s.brackets| && PickMember(p, s, s.brackets[r.value], 0).Some?
    ensures forall l :: k <= l < (if r.Some? then r.value else |s.brackets|) ==> PickMember(p, s, s.brackets[l], 0).None?
    decreases |s.brackets| - k
  {
    if k == |s.brackets| then None
    else if PickMember(p, s, s.brackets[k], 0).Some? then Some(k)
    else PickBracket(p, s, k + 1)
  }

  // The item that the scheduler runs next.
  function Picked(p: Program, s: Sim): (r: Option<nat>)
    ensures r.Some? ==> Ready(p, s, r.value)
  {
    var k := PickBracket(p, s, 0);
    if k.None? then None else PickMember(p, s, s.brackets[k.value], 0)
  }

  function AdvanceRoundRobin(b: Bracket): Bracket
    requires b.members != []
  {
    b.(rrIdx := (b.rrIdx + 1) % |b.members|)
  }

  lemma RunItemKeepsShape(p: Program, s: Sim, id: nat)
    requires Ready(p, s, id)
    ensures var r := RunItem(p, s, id);
            && r.now == s.now && r.brackets == s.brackets && |r.items| == |s.items|
            && (forall i :: 0 <= i < |s.items| ==>
                  r.items[i].Thread? == s.items[i].Thread? && r.items[i].prio == s.items[i].prio)
            && (forall i :: 0 <= i < |s.items| && i != id && s.items[i].Thread? ==> r.items[i] == s.items[i])
  {
    if s.items[id].Thread? {
      var outcome := p.threadCode(id, s.now, WakeReason(p, s.items[id], s.log), s.log);
      RegisterAllKeepsShape(WakeThread(p, s, id), outcome.attempts);
    } else {
      var action := s.items[id].pending.value;
      RegisterAllKeepsShape(s.(log := s.log + [EventRan(s.now, id, action)]),
                            p.callbackCode(action.callback, s.now, s.log));
    }
  }

  // Runs one item, if any is ready.
  function HandleNextItem(p: Program, s: Sim): Option<Sim> {
    var k := PickBracket(p, s, 0);
    if k.None? then None
    else
      var id := PickMember(p, s, s.brackets[k.value], 0).value;
      RunItemKeepsShape(p, s, id);
      var r := RunItem(p, s, id);
      Some(r.(brackets := r.brackets[k.value := AdvanceRoundRobin(r.brackets[k.value])]))
  }

  // ---------------------------------------------------------------------------------------
  // Running the simulation

  datatype Progress = Done(result: Sim) | More(next: Sim)

  predicate Before(now: TimePoint, time: TimePoint, inclusive: bool) {
    if inclusive then now <= time else now < time
  }

  // One evaluation of the guard of the RunUntil loop, with the iteration that follows it.
  function RunUntilStep(p: Program, s: Sim, time: TimePoint, inclusive: bool): Progress {
    if !Before(s.now, time, inclusive) then Done(s)
    else
      var ran := HandleNextItem(p, s);
      if ran.Some? then More(ran.value)
      else
        var next := NextTimeout(s.items, s.now, LOWEST_PRIO);
        if next.Some? && next.value <= time then More(s.(now := next.value)) else Done(s.(now := time))
  }

  // The state in which RunUntil returns, None when it has not returned after fuel guards.
  function RunUntil(p: Program, s: Sim, time: TimePoint, inclusive: bool, fuel: nat): Option<Sim>
    decreases fuel
  {
    if fuel == 0 then None
    else
      match RunUntilStep(p, s, time, inclusive)
      case Done(r) => Some(r)
      case More(r) => RunUntil(p, r, time, inclusive, fuel - 1)
  }

  // Runs items until none is ready, None when that takes fuel or more items.
  function Drain(p: Program, s: Sim, fuel: nat): Option<Sim>
    decreases fuel
  {
    if fuel == 0 then None
    else
      var ran := HandleNextItem(p, s);
      if ran.None? then Some(s) else Drain(p, ran.value, fuel - 1)
  }

  // The final state and result of RunUntilNextTimePoint, None when it has not returned.
  function RunUntilNextTimePoint(p: Program, s: Sim, upperBound: TimePoint, fuel: nat): Option<(Sim, bool)> {
    var drained := Drain(p, s, fuel);
    if drained.None? then None
    else if HandleNextItem(p, s).Some? then Some((drained.value, true))
    else
      var next := NextTimeout(s.items, s.now, LOWEST_PRIO);
      if next.Some? && next.value <= upperBound then
        var again := Drain(p, s.(now := next.value), fuel);
        if again.None? then None else Some((again.value, true))
      else Some((s.(now := upperBound), false))
  }
}
