/**
 What a run of an item does, told by what the code of the application asks for: which registrations are
 accepted, with which reason a thread is woken, and when a blocked thread can run again.
 */
module SchedulerItems {
  import opened Wrappers
  import opened SchedulerModel

  // ---------------------------------------------------------------------------------------
  // Registrations

  // Item number id is an external event that holds no action.
  predicate Free(items: seq<Item>, id: nat) {
    id < |items| && items[id].Event? && items[id].pending.None?
  }

  // The i-th attempt is the first one on its event.
  predicate IsFirst(attempts: seq<Attempt>, i: nat) {
    i < |attempts| && forall j :: 0 <= j < i ==> attempts[j].id != attempts[i].id
  }

  // The entries of the log for the accepted ones among the first n attempts.
  function AcceptedEntries(items: seq<Item>, attempts: seq<Attempt>, now: TimePoint, n: nat): seq<Entry>
    requires n <= |attempts|
  {
    if n == 0 then []
    else
      var a := attempts[n - 1];
      AcceptedEntries(items, attempts, now, n - 1) +
      if IsFirst(attempts, n - 1) && Free(items, a.id) then [Accepted(now, a.id, a.action)] else []
  }

  /**
   Apart from item number running, an event that was free holds the action of the first attempt on it, or none if
   there is none, and everything else is as before.
   */
  ghost predicate Registered(before: seq<Item>, attempts: seq<Attempt>, after: seq<Item>, running: int) {
    && |after| == |before|
    && (forall id: nat :: id < |before| && id != running && !Free(before, id) ==> after[id] == before[id])
    && (forall i: nat :: IsFirst(attempts, i) && Free(before, attempts[i].id) && attempts[i].id != running ==>
          after[attempts[i].id] == Event(before[attempts[i].id].prio, Some(attempts[i].action)))
    && (forall id: nat :: Free(before, id) && id != running && (forall i :: 0 <= i < |attempts| ==> attempts[i].id != id) ==>
          after[id] == before[id])
  }

  lemma {:induction false} RegisterAllLast(s: Sim, attempts: seq<Attempt>)
    requires attempts != []
    ensures RegisterAll(s, attempts) == Register(RegisterAll(s, attempts[..|attempts| - 1]), attempts[|attempts| - 1])
    decreases |attempts|
  {
    hide Register;
    if |attempts| == 1 {
      assert attempts[1..] == [] && attempts[..0] == [];
    } else {
      RegisterAllLast(Register(s, attempts[0]), attempts[1..]);
      assert attempts[1..][..|attempts| - 2] == attempts[..|attempts| - 1][1..];
    }
  }

  lemma {:induction false} EntriesOfPrefix(items: seq<Item>, attempts: seq<Attempt>, now: TimePoint, n: nat, m: nat)
    requires n <= m <= |attempts|
    ensures AcceptedEntries(items, attempts[..m], now, n) == AcceptedEntries(items, attempts, now, n)
    decreases n
  {
    if n > 0 {
      EntriesOfPrefix(items, attempts, now, n - 1, m);
      assert IsFirst(attempts[..m], n - 1) <==> IsFirst(attempts, n - 1);
    }
  }

  /** Registration accepts the first attempt on every event that is free, and no other. */
  lemma {:induction false} RegisterAllMeans(s: Sim, attempts: seq<Attempt>)
    ensures var r := RegisterAll(s, attempts);
            && r == s.(items := r.items, log := s.log + AcceptedEntries(s.items, attempts, s.now, |attempts|))
            && Registered(s.items, attempts, r.items, -1)
    decreases |attempts|
  {
    if attempts == [] {
      assert Registered(s.items, attempts, s.items, -1);
    } else {
      hide RegisterAll, Register, Registered, IsFirst, Free;
      var n := |attempts| - 1;
      RegisterAllMeans(s, attempts[..n]);
      RegisterAllLast(s, attempts);
      EntriesOfPrefix(s.items, attempts, s.now, n, n);
      var mid := RegisterAll(s, attempts[..n]);
      FreeAfter(s.items, attempts, mid.items, n);
      RegisteredLast(s.items, attempts, mid, n);
      RegisterMeans(mid, attempts[n]);
    }
  }

  // The last attempt keeps what the others have registered.
  lemma RegisteredLast(before: seq<Item>, attempts: seq<Attempt>, mid: Sim, n: nat)
    requires |attempts| == n + 1 && Registered(before, attempts[..n], mid.items, -1)
    ensures Registered(before, attempts, Register(mid, attempts[n]).items, -1)
  {
    var init, id := attempts[..n], attempts[n].id;
    FreeAfter(before, attempts, mid.items, n);
    var after := Register(mid, attempts[n]).items;
    assert after == if Free(mid.items, id) then mid.items[id := Event(mid.items[id].prio, Some(attempts[n].action))] else mid.items;
    hide Register;
    forall i: nat | IsFirst(attempts, i) && Free(before, attempts[i].id)
      ensures after[attempts[i].id] == Event(before[attempts[i].id].prio, Some(attempts[i].action))
    {
      assert i < n ==> IsFirst(init, i) && init[i] == attempts[i];
    }
    forall k: nat | Free(before, k) && forall i :: 0 <= i < |attempts| ==> attempts[i].id != k
      ensures after[k] == before[k]
    {
      assert forall i :: 0 <= i < |init| ==> init[i].id != k;
    }
  }

  // An event is still free before the last attempt exactly if that is the first one on it.
  lemma FreeAfter(before: seq<Item>, attempts: seq<Attempt>, after: seq<Item>, n: nat)
    requires n < |attempts| && Registered(before, attempts[..n], after, -1)
    ensures Free(after, attempts[n].id) <==> Free(before, attempts[n].id) && IsFirst(attempts, n)
  {
    var id := attempts[n].id;
    if Free(before, id) && !IsFirst(attempts, n) {
      var i := FirstOn(attempts, id, n);
      assert IsFirst(attempts[..n], i);
    }
  }

  lemma {:induction false} FirstOn(attempts: seq<Attempt>, id: nat, n: nat) returns (i: nat)
    requires n <= |attempts| && exists j :: 0 <= j < n && attempts[j].id == id
    ensures i < n && attempts[i].id == id && IsFirst(attempts, i)
    decreases n
  {
    if j :| 0 <= j < n - 1 && attempts[j].id == id {
      i := FirstOn(attempts, id, n - 1);
    } else {
      i := n - 1;
    }
  }

  /** A single registration, as the test bench makes it, is accepted exactly if the event is free. */
  lemma RegisterMeans(s: Sim, a: Attempt)
    ensures Register(s, a) ==
            if Free(s.items, a.id) then
              s.(items := s.items[a.id := Event(s.items[a.id].prio, Some(a.action))], log := s.log + [Accepted(s.now, a.id, a.action)])
            else s
  {
  }

  // ---------------------------------------------------------------------------------------
  // Runs of external events

  /** The callback of the action runs, with the history so far; then the event is free, and the others hold what it asks for. */
  lemma EventRunMeans(p: Program, s: Sim, id: nat)
    requires Ready(p, s, id) && s.items[id].Event?
    ensures var action := s.items[id].pending.value;
            var attempts := p.callbackCode(action.callback, s.now, s.log);
            var r := RunItem(p, s, id);
            && r == s.(items := r.items,
                       log := s.log + [EventRan(s.now, id, action)] + AcceptedEntries(s.items, attempts, s.now, |attempts|))
            && Registered(s.items, attempts, r.items, id)
            && r.items[id] == Event(s.items[id].prio, None)
  {
    var action := s.items[id].pending.value;
    var attempts := p.callbackCode(action.callback, s.now, s.log);
    RegisterAllMeans(s.(log := s.log + [EventRan(s.now, id, action)]), attempts);
    RegisterAllKeepsShape(s.(log := s.log + [EventRan(s.now, id, action)]), attempts);
    hide RegisterAll, AcceptedEntries;
  }

  /** An external event can run exactly at the time stamp of the action that it holds. */
  lemma EventRunsExactly(p: Program, s: Sim, id: nat)
    requires id < |s.items| && s.items[id].Event?
    ensures Ready(p, s, id) <==> s.items[id].pending.Some? && s.items[id].pending.value.timestamp == s.now
  {
  }

  // ---------------------------------------------------------------------------------------
  // Runs of threads

  // The timeout of an item counts for a thread of priority prio that asks for the next time point.
  predicate Counts(it: Item, now: TimePoint, prio: ItemPrio) {
    it.GetTimeout().Some? && (it.GetTimeout().value == now ==> !Better(prio, it.Priority()))
  }

  // A thread, which is item number id, blocks until t: the next time point of another item, or else the bound.
  ghost predicate Found(items: seq<Item>, id: nat, now: TimePoint, upperBound: TimePoint, t: TimePoint, hit: bool)
    requires id < |items|
  {
    if hit then
      && t <= upperBound
      && (exists j: nat :: j < |items| && j != id && Counts(items[j], now, items[id].Priority()) && items[j].DueAt(t))
      && (forall j: nat :: j < |items| && j != id && Counts(items[j], now, items[id].Priority()) ==> t <= items[j].GetTimeout().value)
    else
      && t == upperBound
      && (forall j: nat :: j < |items| && j != id && Counts(items[j], now, items[id].Priority()) ==> upperBound < items[j].GetTimeout().value)
  }

  // The thread blocks as it has asked for.
  ghost predicate Blocks(items: seq<Item>, id: nat, now: TimePoint, prio: nat, request: Request, hit: bool)
    requires id < |items|
  {
    match request
    case BlockUntil(t) => items[id] == Thread(prio, true, Some(t), None)
    case BlockOnSyncPrimitive(c, t) => items[id] == Thread(prio, true, Some(t), Some(c))
    case BlockUntilNextTimePoint(upperBound) =>
      && items[id].Thread? && items[id].timeout.Some?
      && items[id] == Thread(prio, true, items[id].timeout, None)
      && Found(items, id, now, upperBound, items[id].timeout.value, hit)
    case Finish => items[id] == Thread(prio, false, None, None)
  }

  // Why the thread is woken.
  function Reason(p: Program, it: Item, log: seq<Entry>): UnblockReason
    requires it.Thread?
  {
    match it.waitsOn
    case Some(c) => if p.unblocked(c, log) then SyncPrimitive else Timeout
    case None => Timeout
  }

  lemma WakeThreadMeans(p: Program, s: Sim, id: nat)
    requires id < |s.items| && s.items[id].Thread?
    ensures WakeReason(p, s.items[id], s.log) == Reason(p, s.items[id], s.log)
    ensures WakeThread(p, s, id) == s.(items := s.items[id := Thread(s.items[id].prio, s.items[id].running, None, None)],
              log := s.log + [ThreadRan(s.now, id, s.items[id].timeout, Reason(p, s.items[id], s.log))])
  {
  }

  // The thread, which has no timeout of its own, blocks.
  lemma BlockMeans(s: Sim, id: nat, request: Request) returns (hit: bool)
    requires id < |s.items| && s.items[id].Thread? && s.items[id].running && s.items[id].timeout.None? && s.items[id].waitsOn.None?
    ensures var r := Block(s, id, request);
            && r == s.(items := s.items[id := r.items[id]],
                       log := s.log + if request.BlockUntilNextTimePoint? then [FoundTimePoint(s.now, id, hit)] else [])
            && Blocks(r.items, id, s.now, s.items[id].prio, request, hit)
  {
    hit := false;
    if request.BlockUntilNextTimePoint? {
      var prio := s.items[id].Priority();
      var next := NextTimeout(s.items, s.now, prio);
      hide NextTimeout;
      hit := next.Some? && next.value <= request.upperBound;
      assert forall j :: 0 <= j < |s.items| ==> (Eligible(s.items[j], s.now, prio) <==> Counts(s.items[j], s.now, prio));
      assert forall j :: 0 <= j < |s.items| && j != id ==> Block(s, id, request).items[j] == s.items[j];
      assert !Counts(s.items[id], s.now, prio);
    }
  }

  /**
   The thread code runs with the reason and the history so far; then the thread is blocked as it asks for, and the
   events hold what it has registered.
   */
  lemma ThreadRunMeans(p: Program, s: Sim, id: nat) returns (hit: bool)
    requires Ready(p, s, id) && s.items[id].Thread?
    ensures var it := s.items[id];
            var reason := Reason(p, it, s.log);
            var outcome := p.threadCode(id, s.now, reason, s.log);
            var r := RunItem(p, s, id);
            && r == s.(items := r.items,
                       log := s.log + [ThreadRan(s.now, id, it.timeout, reason)]
                            + AcceptedEntries(s.items, outcome.attempts, s.now, |outcome.attempts|)
                            + if outcome.request.BlockUntilNextTimePoint? then [FoundTimePoint(s.now, id, hit)] else [])
            && Registered(s.items, outcome.attempts, r.items, id)
            && Blocks(r.items, id, s.now, it.prio, outcome.request, hit)
  {
    var it := s.items[id];
    WakeThreadMeans(p, s, id);
    var outcome := p.threadCode(id, s.now, WakeReason(p, it, s.log), s.log);
    var woken := WakeThread(p, s, id);
    RegisterAllMeans(woken, outcome.attempts);
    RegisterAllKeepsShape(woken, outcome.attempts);
    EntriesIgnoreThread(s.items, woken.items, outcome.attempts, s.now, |outcome.attempts|, id);
    hide RegisterAll, WakeThread, Block, Blocks, AcceptedEntries, WakeReason;
    var registered := RegisterAll(woken, outcome.attempts);
    hit := BlockMeans(registered, id, outcome.request);
  }

  lemma {:induction false} EntriesIgnoreThread(a: seq<Item>, b: seq<Item>, attempts: seq<Attempt>, now: TimePoint, n: nat, id: nat)
    requires id < |a| == |b| && a[id].Thread? && b == a[id := b[id]] && b[id].Thread? && n <= |attempts|
    ensures AcceptedEntries(a, attempts, now, n) == AcceptedEntries(b, attempts, now, n)
    decreases n
  {
    if n > 0 {
      EntriesIgnoreThread(a, b, attempts, now, n - 1, id);
    }
  }

  // ---------------------------------------------------------------------------------------
  // When a blocked thread can run again

  // What the code of thread number id asks for in its run from s.
  function RequestOf(p: Program, s: Sim, id: nat): Request
    requires id < |s.items| && s.items[id].Thread?
  {
    p.threadCode(id, s.now, Reason(p, s.items[id], s.log), s.log).request
  }

  /**
   As long as nothing touches it, a thread that has blocked until t can run exactly at t; one that has blocked on a
   condition until t exactly at t and whenever the condition holds; and one that has finished never.
   */
  lemma RunsAgainExactly(p: Program, s: Sim, id: nat, later: Sim)
    requires Ready(p, s, id) && s.items[id].Thread?
    requires id < |later.items| && id < |RunItem(p, s, id).items| && later.items[id] == RunItem(p, s, id).items[id]
    ensures match RequestOf(p, s, id)
            case BlockUntil(t) => Ready(p, later, id) <==> later.now == t
            case BlockOnSyncPrimitive(c, t) => Ready(p, later, id) <==> later.now == t || p.unblocked(c, later.log)
            case BlockUntilNextTimePoint(_) => later.items[id].Thread? && (Ready(p, later, id) <==> later.items[id].timeout == Some(later.now))
            case Finish => !Ready(p, later, id)
  {
    var _ := ThreadRunMeans(p, s, id);
    hide RunItem;
  }

  /** When it runs again, it is told the condition exactly if that holds, and the timeout otherwise. */
  lemma WokenWithReason(p: Program, s: Sim, id: nat, later: Sim)
    requires Ready(p, s, id) && s.items[id].Thread? && RequestOf(p, s, id).BlockOnSyncPrimitive?
    requires Ready(p, later, id) && id < |RunItem(p, s, id).items| && later.items[id] == RunItem(p, s, id).items[id]
    ensures var c, t := RequestOf(p, s, id).condition, RequestOf(p, s, id).time;
            var entry := ThreadRan(later.now, id, Some(t), if p.unblocked(c, later.log) then SyncPrimitive else Timeout);
            later.log + [entry] <= RunItem(p, later, id).log
  {
    var _ := ThreadRunMeans(p, s, id);
    var _ := ThreadRunMeans(p, later, id);
    hide RunItem;
  }

  /** The history only grows. */
  lemma RunItemExtendsLog(p: Program, s: Sim, id: nat)
    requires Ready(p, s, id)
    ensures s.log <= RunItem(p, s, id).log && |s.log| < |RunItem(p, s, id).log|
  {
    if s.items[id].Thread? {
      var _ := ThreadRunMeans(p, s, id);
    } else {
      EventRunMeans(p, s, id);
    }
    hide RunItem, AcceptedEntries;
  }
}
