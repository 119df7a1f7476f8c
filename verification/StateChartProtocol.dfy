/**
 The mailbox and the guard of a state chart runner under interrupts. Calls live on one stack: an
 interrupt handler may be entered between any two steps of whatever is running and runs to its end
 before that goes on, and the code of a transition may call the runner again. Interrupt handlers may
 enqueue at any moment. They may call the runner otherwise, too, exactly when that cannot lose an event,
 as StateChartMisuse shows.
 */
module StateChartProtocol {
  import opened Wrappers

  // An event that was given to the chart: whether it came out of the mailbox, the states before and
  // after it, and whether it had a transition.
  datatype Dispatched<S, E> = Dispatched(event: E, queued: bool, from: S, to: S, ran: bool)

  datatype Call<E> = ApplyCall(event: E) | ProcessCall | EnqueueCall(event: E)

  // What an ApplyEvent call does next.
  datatype ApplyPoint<S, E> =
    | Enter                          // test and set the guard
    | TakeFlag                       // test and set the flag of the mailbox
    | CheckSlot                      // look for an event in the slot, and for its transition
    | RunQueued(queued: E, from: S)  // the transition of the queued event is running
    | ResetSlot
    | ClearFlag
    | Incoming                       // look for the transition of the incoming event
    | RunIncoming(from: S)           // the transition of the incoming event is running
    | Leave(applied: bool)           // clear the guard and return

  // What a ProcessEnqueuedEvent call does next.
  datatype ProcessPoint<S, E> =
    | TestFlag
    | Acquire                        // test and set the guard
    | CopySlot                       // look for an event in the slot and copy it
    | ResetCopied(copy: E)
    | Reopen(copy: E)                // clear the flag of the mailbox
    | Dispatch(copy: E)              // look for the transition of the copied event
    | RunCopied(copy: E, from: S)    // the transition of the copied event is running
    | Discard                        // clear the flag that was set without an event
    | Release                        // clear the guard and return

  datatype Frame<S, E> =
    | Applying(event: E, before: nat, at: ApplyPoint<S, E>)  // before: events accepted when it was called
    | Processing(before: nat, point: ProcessPoint<S, E>)
    | Enqueueing(event: E, won: bool)                        // won: the call has set the flag

  // The runner, the stack of calls in progress (innermost last), and what has happened.
  datatype Runner<S, E> = Runner(
    state: S,
    slot: Option<E>,
    flag: bool,
    holder: Option<nat>,     // the place on the stack of the call that holds the guard
    stack: seq<Frame<S, E>>,
    accepted: seq<E>,
    log: seq<Dispatched<S, E>>)

  // Which pairs of a state and an event have a transition.
  type Table<!S, !E> = (S, E) -> bool

  // A call begins, the innermost call goes on, or the transition in it returns a state.
  datatype Action<S, E> = Begin(call: Call<E>) | Step | Finish(result: S)

  // ---------------------------------------------------------------------------------------
  // Steps

  function Start<S, E>(call: Call<E>, accepted: nat): Frame<S, E> {
    match call
    case ApplyCall(e) => Applying(e, accepted, Enter)
    case ProcessCall => Processing(accepted, TestFlag)
    case EnqueueCall(e) => Enqueueing(e, false)
  }

  predicate Running<S, E>(f: Frame<S, E>) {
    match f
    case Applying(_, _, at) => at.RunQueued? || at.RunIncoming?
    case Processing(_, point) => point.RunCopied?
    case Enqueueing(_, _) => false
  }

  // The call holds the guard.
  predicate Inside<S, E>(f: Frame<S, E>) {
    match f
    case Applying(_, _, at) => !at.Enter?
    case Processing(_, point) => !point.TestFlag? && !point.Acquire?
    case Enqueueing(_, _) => false
  }

  function Top<S, E>(r: Runner<S, E>): Frame<S, E>
    requires r.stack != []
  {
    r.stack[|r.stack| - 1]
  }

  function At<S, E>(r: Runner<S, E>, f: Frame<S, E>): Runner<S, E>
    requires r.stack != []
  {
    r.(stack := r.stack[|r.stack| - 1 := f])
  }

  function Return<S, E>(r: Runner<S, E>): Runner<S, E>
    requires r.stack != []
  {
    r.(stack := r.stack[..|r.stack| - 1])
  }

  function Skip<S, E>(r: Runner<S, E>, e: E, queued: bool): Runner<S, E> {
    r.(log := r.log + [Dispatched(e, queued, r.state, r.state, false)])
  }

  function Change<S, E>(r: Runner<S, E>, e: E, queued: bool, from: S, to: S): Runner<S, E> {
    r.(state := to, log := r.log + [Dispatched(e, queued, from, to, true)])
  }

  function Apply<S, E>(table: Table<S, E>, r: Runner<S, E>): Runner<S, E>
    requires r.stack != [] && Top(r).Applying? && !Running(Top(r))
  {
    var f := Top(r);
    match f.at
    case Enter => if r.holder.Some? then Return(r) else At(r, f.(at := TakeFlag)).(holder := Some(|r.stack| - 1))
    case TakeFlag => At(r, f.(at := if r.flag then CheckSlot else Incoming)).(flag := true)
    case CheckSlot =>
      if r.slot.None? then At(r, f.(at := ResetSlot))
      else if table(r.state, r.slot.value) then At(r, f.(at := RunQueued(r.slot.value, r.state)))
      else Skip(At(r, f.(at := ResetSlot)), r.slot.value, true)
    case ResetSlot => At(r, f.(at := ClearFlag)).(slot := None)
    case ClearFlag => At(r, f.(at := Incoming)).(flag := false)
    case Incoming =>
      if table(r.state, f.event) then At(r, f.(at := RunIncoming(r.state)))
      else Skip(At(r, f.(at := Leave(false))), f.event, false)
    case Leave(_) => Return(r).(holder := None)
  }

  function Process<S, E>(table: Table<S, E>, r: Runner<S, E>): Runner<S, E>
    requires r.stack != [] && Top(r).Processing? && !Running(Top(r))
  {
    var f := Top(r);
    match f.point
    case TestFlag => if r.flag then At(r, f.(point := Acquire)) else Return(r)
    case Acquire => if r.holder.Some? then Return(r) else At(r, f.(point := CopySlot)).(holder := Some(|r.stack| - 1))
    case CopySlot => At(r, f.(point := if r.slot.Some? then ResetCopied(r.slot.value) else Discard))
    case ResetCopied(e) => At(r, f.(point := Reopen(e))).(slot := None)
    case Reopen(e) => At(r, f.(point := Dispatch(e))).(flag := false)
    case Dispatch(e) =>
      if table(r.state, e) then At(r, f.(point := RunCopied(e, r.state)))
      else Skip(At(r, f.(point := Release)), e, true)
    case Discard => At(r, f.(point := Release)).(flag := false)
    case Release => Return(r).(holder := None)
  }

  function Enqueue<S, E>(r: Runner<S, E>): Runner<S, E>
    requires r.stack != [] && Top(r).Enqueueing?
  {
    var f := Top(r);
    if f.won then Return(r).(slot := Some(f.event), accepted := r.accepted + [f.event])
    else if r.flag then Return(r)
    else At(r, f.(won := true)).(flag := true)
  }

  function Conclude<S, E>(r: Runner<S, E>, result: S): Runner<S, E>
    requires r.stack != [] && Running(Top(r))
  {
    var f := Top(r);
    match f
    case Applying(_, _, RunQueued(e, from)) => Change(At(r, f.(at := ResetSlot)), e, true, from, result)
    case Applying(e, _, RunIncoming(from)) => Change(At(r, f.(at := Leave(true))), e, false, from, result)
    case Processing(_, RunCopied(e, from)) => Change(At(r, f.(point := Release)), e, true, from, result)
  }

  predicate Won<S, E>(f: Frame<S, E>) {
    f.Enqueueing? && f.won
  }

  // The call has seen the flag, and is about to take the guard.
  predicate Acquiring<S, E>(f: Frame<S, E>) {
    f.Processing? && f.point.Acquire?
  }

  /**
   EnqueueEvent may be called at any moment. ApplyEvent and ProcessEnqueuedEvent may be called by the main
   loop, by the code of a transition, and even by an interrupt, unless the guard is free and either some
   EnqueueEvent call is about to fill the slot, or the innermost call is about to take the guard.
   */
  predicate Allowed<S, E>(r: Runner<S, E>, a: Action<S, E>) {
    match a
    case Begin(call) =>
      || call.EnqueueCall?
      || r.holder.Some?
      || ( && (forall i :: 0 <= i < |r.stack| ==> !Won(r.stack[i]))
           && (r.stack != [] ==> !Acquiring(Top(r))))
    case Step => r.stack != [] && !Running(Top(r))
    case Finish(_) => r.stack != [] && Running(Top(r))
  }

  function Do<S, E>(table: Table<S, E>, r: Runner<S, E>, a: Action<S, E>): Runner<S, E>
    requires !a.Begin? ==> Allowed(r, a)
  {
    match a
    case Begin(call) => r.(stack := r.stack + [Start(call, |r.accepted|)])
    case Step =>
      (match Top(r)
       case Applying(_, _, _) => Apply(table, r)
       case Processing(_, _) => Process(table, r)
       case Enqueueing(_, _) => Enqueue(r))
    case Finish(result) => Conclude(r, result)
  }

  // The runner after a run of actions, or nothing if one of them was not possible.
  function Run<S, E>(table: Table<S, E>, r: Runner<S, E>, actions: seq<Action<S, E>>): Option<Runner<S, E>>
    decreases |actions|
  {
    if actions == [] then Some(r)
    else if Allowed(r, actions[0]) then Run(table, Do(table, r, actions[0]), actions[1..])
    else None
  }

  function Init<S, E>(state: S): Runner<S, E> {
    Runner(state, None, false, None, [], [], [])
  }

  // ---------------------------------------------------------------------------------------
  // The invariant

  // The holder is the only call inside; below it nobody is about to fill the slot, and directly above a
  // call that is about to take the guard is an EnqueueEvent call that has not yet tested the flag.
  predicate Guarded<S, E>(r: Runner<S, E>) {
    && (forall i :: 0 <= i < |r.stack| && Inside(r.stack[i]) ==> r.holder == Some(i))
    && (r.holder.Some? ==>
          && r.holder.value < |r.stack| && Inside(r.stack[r.holder.value])
          && (forall i :: 0 <= i < r.holder.value ==> !Won(r.stack[i]))
          && (forall i :: 0 <= i < r.holder.value && Acquiring(r.stack[i]) ==> r.stack[i + 1].Enqueueing?))
  }

  // While the guard is free, above a call that is about to fill the slot there are only EnqueueEvent calls
  // that find the flag set, and directly above a call that is about to take the guard is one.
  predicate Unguarded<S, E>(r: Runner<S, E>) {
    r.holder.None? ==>
      && (forall i, j :: 0 <= i < j < |r.stack| && Won(r.stack[i]) ==> r.stack[j].Enqueueing? && !r.stack[j].won)
      && (forall i :: 0 <= i < |r.stack| - 1 && Acquiring(r.stack[i]) ==> r.stack[i + 1].Enqueueing?)
  }

  // The call holds the guard, has seen the flag set, and has not cleared it yet.
  predicate Reserving<S, E>(f: Frame<S, E>) {
    match f
    case Applying(_, _, at) => at.CheckSlot? || at.RunQueued? || at.ResetSlot? || at.ClearFlag?
    case Processing(_, point) => point.CopySlot? || point.ResetCopied? || point.Reopen? || point.Discard?
    case Enqueueing(_, _) => false
  }

  predicate NobodyFills<S, E>(r: Runner<S, E>) {
    r.flag && forall i :: 0 <= i < |r.stack| ==> !Won(r.stack[i])
  }

  // The call that has set the flag finds the slot empty, and there is only one; there is none while
  // another call relies on the flag.
  predicate Filling<S, E>(r: Runner<S, E>) {
    && (forall i :: 0 <= i < |r.stack| && Won(r.stack[i]) ==> r.flag && r.slot.None?)
    && (forall i, j :: 0 <= i < j < |r.stack| && Won(r.stack[i]) ==> !Won(r.stack[j]))
    && (r.holder.Some? && r.holder.value < |r.stack| && Reserving(r.stack[r.holder.value]) ==> NobodyFills(r))
    && (r.holder.None? && r.stack != [] && Acquiring(Top(r)) ==> NobodyFills(r))
  }

  ghost predicate Holding<S, E>(r: Runner<S, E>, f: Frame<S, E>) {
    match f
    case Applying(e, _, at) =>
      && (at.RunQueued? ==> r.slot == Some(at.queued))
      && (at.ClearFlag? ==> r.slot.None?)
      && (at.RunQueued? || at.RunIncoming? ==> at.from == r.state)
      && (at.Leave? ==> r.log != [] && var d := r.log[|r.log| - 1]; d.event == e && !d.queued && d.ran == at.applied)
    case Processing(_, point) =>
      && (point.ResetCopied? ==> r.slot == Some(point.copy))
      && (point.Reopen? || point.Discard? ==> r.slot.None?)
      && (point.RunCopied? ==> point.from == r.state)
    case Enqueueing(_, _) => true
  }

  // The events that came out of the mailbox and were given to the chart, in order.
  function Consumed<S, E>(log: seq<Dispatched<S, E>>): seq<E> {
    if log == [] then []
    else
      var d := log[|log| - 1];
      Consumed(log[..|log| - 1]) + if d.queued then [d.event] else []
  }

  // The event that a call has taken, and that the chart is not done with.
  function Hand<S, E>(f: Frame<S, E>): seq<E> {
    match f
    case Applying(_, _, RunQueued(e, _)) => [e]
    case Processing(_, ResetCopied(e)) => [e]
    case Processing(_, Reopen(e)) => [e]
    case Processing(_, Dispatch(e)) => [e]
    case Processing(_, RunCopied(e, _)) => [e]
    case _ => []
  }

  function InHand<S, E>(r: Runner<S, E>): seq<E> {
    if r.holder.Some? && r.holder.value < |r.stack| then Hand(r.stack[r.holder.value]) else []
  }

  // The slot still holds an event that was taken.
  predicate Stale<S, E>(f: Frame<S, E>) {
    match f
    case Applying(_, _, at) => at.RunQueued? || at.ResetSlot?
    case Processing(_, point) => point.ResetCopied?
    case Enqueueing(_, _) => false
  }

  function InBox<S, E>(r: Runner<S, E>): seq<E> {
    if r.slot.None? || (r.holder.Some? && r.holder.value < |r.stack| && Stale(r.stack[r.holder.value])) then []
    else [r.slot.value]
  }

  ghost predicate Accounted<S, E>(r: Runner<S, E>) {
    r.accepted == Consumed(r.log) + InHand(r) + InBox(r)
  }

  // The events that were accepted before the call come before its own event, and before its end.
  predicate Ordered<S, E>(f: Frame<S, E>, consumed: nat) {
    match f
    case Applying(_, before, at) =>
      !at.Enter? && !at.TakeFlag? && !at.CheckSlot? && !at.RunQueued? ==> before <= consumed
    case Processing(before, point) =>
      && (Hand(f) != [] ==> before <= consumed + 1)
      && (point.Discard? || point.Release? ==> before <= consumed)
    case Enqueueing(_, _) => true
  }

  predicate Dated<S, E>(r: Runner<S, E>) {
    forall i :: 0 <= i < |r.stack| && !r.stack[i].Enqueueing? ==> r.stack[i].before <= |r.accepted|
  }

  // Every event meets the state that the previous one left; it changes the state only by a
  // transition, which runs exactly if the table has one.
  ghost predicate Chained<S, E>(table: Table<S, E>, initial: S, log: seq<Dispatched<S, E>>, state: S) {
    if log == [] then state == initial
    else
      var d := log[|log| - 1];
      && d.to == state
      && (d.ran <==> table(d.from, d.event))
      && (!d.ran ==> d.to == d.from)
      && Chained(table, initial, log[..|log| - 1], d.from)
  }

  // The event whose transition is running.
  function EventOf<S, E>(f: Frame<S, E>): E
    requires Running(f)
  {
    match f
    case Applying(_, _, RunQueued(e, _)) => e
    case Applying(e, _, RunIncoming(_)) => e
    case Processing(_, RunCopied(e, _)) => e
  }

  ghost predicate Inv<S, E>(table: Table<S, E>, initial: S, r: Runner<S, E>) {
    && Guarded(r) && Unguarded(r) && Filling(r) && (r.slot.Some? ==> r.flag)
    && Dated(r) && Accounted(r)
    && Chained(table, initial, r.log, r.state)
    && (r.holder.Some? ==>
          var f := r.stack[r.holder.value];
          Holding(r, f) && Ordered(f, |Consumed(r.log)|) && (Running(f) ==> table(r.state, EventOf(f))))
  }

  lemma Logged<S, E>(table: Table<S, E>, initial: S, log: seq<Dispatched<S, E>>, d: Dispatched<S, E>)
    requires Chained(table, initial, log, d.from)
    requires (d.ran <==> table(d.from, d.event)) && (!d.ran ==> d.to == d.from)
    ensures Chained(table, initial, log + [d], d.to)
    ensures Consumed(log + [d]) == Consumed(log) + if d.queued then [d.event] else []
  {
    assert (log + [d])[..|log|] == log;
  }

  lemma BeginKeepsInv<S, E>(table: Table<S, E>, initial: S, r: Runner<S, E>, a: Action<S, E>)
    requires Inv(table, initial, r) && a.Begin? && Allowed(r, a)
    ensures Inv(table, initial, Do(table, r, a))
  {
    hide Consumed, Chained, Hand, Reserving, Stale;
    var s := Do(table, r, a);
    assert !Inside(Top(s)) && !Acquiring(Top(s)) && !Won(Top(s));
    assert forall i :: 0 <= i < |r.stack| ==> s.stack[i] == r.stack[i];
  }

  // A call returns that has neither the guard nor the flag.
  lemma ReturnKeepsInv<S, E>(table: Table<S, E>, initial: S, r: Runner<S, E>)
    requires Inv(table, initial, r) && r.stack != [] && !Inside(Top(r)) && !Won(Top(r))
    requires Top(r).Enqueueing? ==> r.flag
    ensures Inv(table, initial, Return(r))
  {
    hide Consumed, Chained, Hand, Reserving, Stale;
    assert r.holder != Some(|r.stack| - 1);
  }

  lemma FillKeepsInv<S, E>(table: Table<S, E>, initial: S, r: Runner<S, E>)
    requires Inv(table, initial, r) && r.stack != [] && Won(Top(r))
    ensures Inv(table, initial, Enqueue(r))
  {
    hide Consumed, Chained, Hand;
    var n := |r.stack| - 1;
    assert Won(r.stack[n]);
    assert r.holder != Some(n);
  }

  lemma SetFlagKeepsInv<S, E>(table: Table<S, E>, initial: S, r: Runner<S, E>)
    requires Inv(table, initial, r) && r.stack != [] && Top(r).Enqueueing? && !Top(r).won && !r.flag
    ensures Inv(table, initial, Enqueue(r))
  {
    hide Consumed, Chained, Hand, Stale;
    var n := |r.stack| - 1;
    var s := Enqueue(r);
    assert forall i :: 0 <= i < n ==> s.stack[i] == r.stack[i];
    assert r.holder != Some(n);
  }

  lemma EnqueueKeepsInv<S, E>(table: Table<S, E>, initial: S, r: Runner<S, E>)
    requires Inv(table, initial, r) && r.stack != [] && Top(r).Enqueueing?
    ensures Inv(table, initial, Enqueue(r))
  {
    hide Inv;
    if Top(r).won {
      FillKeepsInv(table, initial, r);
    } else if r.flag {
      ReturnKeepsInv(table, initial, r);
    } else {
      SetFlagKeepsInv(table, initial, r);
    }
  }

  // A call takes the guard, when it is free.
  lemma TakeGuardKeepsInv<S, E>(table: Table<S, E>, initial: S, r: Runner<S, E>, f: Frame<S, E>)
    requires Inv(table, initial, r) && r.stack != [] && r.holder.None?
    requires (Top(r).Applying? && Top(r).at.Enter? && f == Top(r).(at := TakeFlag))
          || (Top(r).Processing? && Top(r).point.Acquire? && f == Top(r).(point := CopySlot))
    ensures Inv(table, initial, At(r, f).(holder := Some(|r.stack| - 1)))
  {
    hide Consumed, Chained;
    var n := |r.stack| - 1;
    var s := At(r, f).(holder := Some(n));
    assert forall i :: 0 <= i < n ==> s.stack[i] == r.stack[i] && !Won(r.stack[i]);
  }

  // A call sees the flag.
  lemma SeeFlagKeepsInv<S, E>(table: Table<S, E>, initial: S, r: Runner<S, E>)
    requires Inv(table, initial, r) && r.stack != [] && Top(r).Processing? && Top(r).point.TestFlag? && r.flag
    ensures Inv(table, initial, At(r, Top(r).(point := Acquire)))
  {
    hide Consumed, Chained, Hand, Stale, Reserving;
    var n := |r.stack| - 1;
    var s := At(r, Top(r).(point := Acquire));
    assert r.holder != Some(n);
    assert forall i :: 0 <= i < n ==> s.stack[i] == r.stack[i];
  }

  // What the holder of the guard does when it is the innermost call.
  ghost predicate Holds<S, E>(table: Table<S, E>, initial: S, r: Runner<S, E>) {
    && Inv(table, initial, r) && r.stack != [] && r.holder == Some(|r.stack| - 1)
  }

  // The holder goes on, with the guard.
  lemma HolderKeepsInv<S, E>(table: Table<S, E>, initial: S, r: Runner<S, E>, s: Runner<S, E>)
    requires Holds(table, initial, r)
    requires s.stack != [] && Inside(Top(s)) && s == r.(state := s.state, slot := s.slot, flag := s.flag, stack := At(r, Top(s)).stack, log := s.log)
    requires Reserving(Top(s)) ==> s.flag
    requires s.slot.Some? ==> s.flag
    requires s.accepted == Consumed(s.log) + Hand(Top(s)) + if s.slot.None? || Stale(Top(s)) then [] else [s.slot.value]
    requires Chained(table, initial, s.log, s.state)
    requires Holding(s, Top(s)) && Ordered(Top(s), |Consumed(s.log)|)
    requires !Top(s).Enqueueing? ==> Top(s).before <= |s.accepted|
    requires Running(Top(s)) ==> table(s.state, EventOf(Top(s)))
    ensures Inv(table, initial, s)
  {
    hide Consumed, Chained, Hand, Stale, Reserving, Holding, Ordered;
    var n := |r.stack| - 1;
    assert |s.stack| == n + 1 && s.stack[n] == Top(s);
    assert forall i :: 0 <= i < n ==> s.stack[i] == r.stack[i] && !Won(r.stack[i]) && !Inside(r.stack[i]);
  }

  // The holder returns.
  lemma HolderReturns<S, E>(table: Table<S, E>, initial: S, r: Runner<S, E>)
    requires Holds(table, initial, r) && Hand(Top(r)) == [] && !Stale(Top(r))
    ensures Inv(table, initial, Return(r).(holder := None))
  {
    hide Consumed, Chained, Hand, Stale, Reserving, Holding, Ordered;
    var n := |r.stack| - 1;
    var s := Return(r).(holder := None);
    assert forall i :: 0 <= i < n ==> s.stack[i] == r.stack[i] && !Won(r.stack[i]) && !Inside(r.stack[i]);
  }

  // The steps that give an event to the chart, or find no transition for it.
  lemma HolderLooksUpKeepsInv<S, E>(table: Table<S, E>, initial: S, r: Runner<S, E>)
    requires Holds(table, initial, r) && Top(r).Applying? && (Top(r).at.CheckSlot? || Top(r).at.Incoming?)
    ensures Inv(table, initial, Apply(table, r))
  {
    hide Consumed, Chained, Filling, Guarded, Unguarded, Dated;
    var f := Top(r);
    if f.at.CheckSlot? && r.slot.Some? && !table(r.state, r.slot.value) {
      Logged(table, initial, r.log, Dispatched(r.slot.value, true, r.state, r.state, false));
    }
    if f.at.Incoming? && !table(r.state, f.event) {
      Logged(table, initial, r.log, Dispatched(f.event, false, r.state, r.state, false));
    }
    HolderFacts(table, initial, r);
    HolderKeepsInv(table, initial, r, Apply(table, r));
  }

  lemma HolderAppliesKeepsInv<S, E>(table: Table<S, E>, initial: S, r: Runner<S, E>)
    requires Holds(table, initial, r) && Top(r).Applying? && !Running(Top(r))
    ensures Inv(table, initial, Apply(table, r))
  {
    hide Consumed, Chained, Filling, Guarded, Unguarded, Dated;
    var f := Top(r);
    if f.at.Leave? {
      HolderReturns(table, initial, r);
    } else if f.at.CheckSlot? || f.at.Incoming? {
      HolderLooksUpKeepsInv(table, initial, r);
    } else {
      HolderFacts(table, initial, r);
      HolderKeepsInv(table, initial, r, Apply(table, r));
    }
  }

  lemma HolderFacts<S, E>(table: Table<S, E>, initial: S, r: Runner<S, E>)
    requires Holds(table, initial, r)
    ensures Inside(Top(r)) && (Reserving(Top(r)) ==> r.flag)
    ensures !Top(r).Enqueueing? ==> Top(r).before <= |r.accepted|
  {
    hide Consumed, Chained, Hand, Stale, Holding, Ordered;
  }

  lemma HolderProcessesKeepsInv<S, E>(table: Table<S, E>, initial: S, r: Runner<S, E>)
    requires Holds(table, initial, r) && Top(r).Processing? && !Running(Top(r))
    ensures Inv(table, initial, Process(table, r))
  {
    hide Consumed, Chained, Filling, Guarded, Unguarded, Dated;
    HolderFacts(table, initial, r);
    var f := Top(r);
    if f.point.Release? {
      HolderReturns(table, initial, r);
    } else {
      if f.point.Dispatch? && !table(r.state, f.point.copy) {
        Logged(table, initial, r.log, Dispatched(f.point.copy, true, r.state, r.state, false));
      }
      HolderKeepsInv(table, initial, r, Process(table, r));
    }
  }

  lemma ApplyKeepsInv<S, E>(table: Table<S, E>, initial: S, r: Runner<S, E>)
    requires Inv(table, initial, r) && r.stack != [] && Top(r).Applying? && !Running(Top(r))
    ensures Inv(table, initial, Apply(table, r))
  {
    if Inside(Top(r)) {
      HolderAppliesKeepsInv(table, initial, r);
    } else if r.holder.Some? {
      ReturnKeepsInv(table, initial, r);
    } else {
      TakeGuardKeepsInv(table, initial, r, Top(r).(at := TakeFlag));
    }
  }

  lemma ProcessKeepsInv<S, E>(table: Table<S, E>, initial: S, r: Runner<S, E>)
    requires Inv(table, initial, r) && r.stack != [] && Top(r).Processing? && !Running(Top(r))
    ensures Inv(table, initial, Process(table, r))
  {
    if Inside(Top(r)) {
      HolderProcessesKeepsInv(table, initial, r);
    } else if Top(r).point.TestFlag? && r.flag {
      SeeFlagKeepsInv(table, initial, r);
    } else if Top(r).point.TestFlag? || r.holder.Some? {
      ReturnKeepsInv(table, initial, r);
    } else {
      TakeGuardKeepsInv(table, initial, r, Top(r).(point := CopySlot));
    }
  }

  lemma RunningHolds<S, E>(table: Table<S, E>, initial: S, r: Runner<S, E>)
    requires Inv(table, initial, r) && r.stack != [] && Running(Top(r))
    ensures Holds(table, initial, r)
  {
    hide Consumed, Chained, Hand, Stale, Reserving, Filling, Unguarded, Dated;
    assert Inside(r.stack[|r.stack| - 1]);
  }

  lemma FinishApplyKeepsInv<S, E>(table: Table<S, E>, initial: S, r: Runner<S, E>, result: S)
    requires Holds(table, initial, r) && Running(Top(r)) && Top(r).Applying?
    ensures Inv(table, initial, Conclude(r, result))
  {
    hide Consumed, Chained, Filling, Guarded, Unguarded, Dated;
    HolderFacts(table, initial, r);
    var f := Top(r);
    var s := Conclude(r, result);
    Logged(table, initial, r.log, Dispatched(EventOf(f), f.at.RunQueued?, f.at.from, result, true));
    HolderKeepsInv(table, initial, r, s);
  }

  lemma FinishProcessKeepsInv<S, E>(table: Table<S, E>, initial: S, r: Runner<S, E>, result: S)
    requires Holds(table, initial, r) && Running(Top(r)) && Top(r).Processing?
    ensures Inv(table, initial, Conclude(r, result))
  {
    hide Consumed, Chained, Filling, Guarded, Unguarded, Dated;
    HolderFacts(table, initial, r);
    var f := Top(r);
    Logged(table, initial, r.log, Dispatched(EventOf(f), true, f.point.from, result, true));
    HolderKeepsInv(table, initial, r, Conclude(r, result));
  }

  lemma FinishKeepsInv<S, E>(table: Table<S, E>, initial: S, r: Runner<S, E>, result: S)
    requires Inv(table, initial, r) && r.stack != [] && Running(Top(r))
    ensures Inv(table, initial, Conclude(r, result))
  {
    hide Inv, Holds, Conclude;
    RunningHolds(table, initial, r);
    if Top(r).Applying? {
      FinishApplyKeepsInv(table, initial, r, result);
    } else {
      FinishProcessKeepsInv(table, initial, r, result);
    }
  }

  lemma DoKeepsInv<S, E>(table: Table<S, E>, initial: S, r: Runner<S, E>, a: Action<S, E>)
    requires Inv(table, initial, r) && Allowed(r, a)
    ensures Inv(table, initial, Do(table, r, a))
  {
    hide Inv;
    match a
    case Begin(_) => BeginKeepsInv(table, initial, r, a);
    case Finish(result) => FinishKeepsInv(table, initial, r, result);
    case Step =>
      match Top(r)
      case Applying(_, _, _) => ApplyKeepsInv(table, initial, r);
      case Processing(_, _) => ProcessKeepsInv(table, initial, r);
      case Enqueueing(_, _) => EnqueueKeepsInv(table, initial, r);
  }

  /** The invariant holds after every run. */
  lemma {:induction false} RunKeepsInv<S, E>(table: Table<S, E>, initial: S, r: Runner<S, E>, actions: seq<Action<S, E>>)
    requires Inv(table, initial, r) && Run(table, r, actions).Some?
    ensures Inv(table, initial, Run(table, r, actions).value)
    decreases |actions|
  {
    hide Inv, Do, Allowed;
    if actions != [] {
      DoKeepsInv(table, initial, r, actions[0]);
      RunKeepsInv(table, initial, Do(table, r, actions[0]), actions[1..]);
    }
  }

  lemma InitIsInv<S, E>(table: Table<S, E>, initial: S)
    ensures Inv(table, initial, Init<S, E>(initial))
  {
  }

  // ---------------------------------------------------------------------------------------
  // What holds in every reachable state

  // The runner after actions, from the beginning.
  ghost predicate Reached<S, E>(table: Table<S, E>, initial: S, actions: seq<Action<S, E>>, r: Runner<S, E>) {
    Run(table, Init(initial), actions) == Some(r)
  }

  lemma ReachedHasInv<S, E>(table: Table<S, E>, initial: S, actions: seq<Action<S, E>>, r: Runner<S, E>)
    requires Reached(table, initial, actions, r)
    ensures Inv(table, initial, r)
  {
    hide Inv;
    InitIsInv<S, E>(table, initial);
    RunKeepsInv(table, initial, Init<S, E>(initial), actions);
  }

  /** A filled slot is always flagged, and no call is about to fill it, so that no event is overwritten. */
  lemma FilledSlotIsFlagged<S, E>(table: Table<S, E>, initial: S, actions: seq<Action<S, E>>, r: Runner<S, E>)
    requires Reached(table, initial, actions, r)
    ensures r.slot.Some? ==> r.flag
    ensures r.slot.Some? ==> forall i :: 0 <= i < |r.stack| ==> !Won(r.stack[i])
  {
    ReachedHasInv(table, initial, actions, r);
  }

  /**
   Every accepted event is given to the chart exactly once and in the order of acceptance, except for
   at most one that a call has in its hands and one that is in the slot.
   */
  lemma AcceptedEventsAreConsumedOnce<S, E>(table: Table<S, E>, initial: S, actions: seq<Action<S, E>>, r: Runner<S, E>)
    requires Reached(table, initial, actions, r)
    ensures r.accepted == Consumed(r.log) + InHand(r) + InBox(r)
    ensures |InHand(r)| <= 1 && |InBox(r)| <= 1
    ensures r.stack == [] ==> r.accepted == Consumed(r.log) + if r.slot.Some? then [r.slot.value] else []
  {
    hide Consumed, Chained;
    ReachedHasInv(table, initial, actions, r);
  }

  /**
   When the transition of the event of an ApplyEvent call runs, or the call returns because there is
   none, all events that had been accepted before the call have been given to the chart.
   */
  lemma EarlierEventsComeFirst<S, E>(table: Table<S, E>, initial: S, actions: seq<Action<S, E>>, r: Runner<S, E>, i: nat)
    requires Reached(table, initial, actions, r)
    requires i < |r.stack| && r.stack[i].Applying? && (r.stack[i].at.RunIncoming? || r.stack[i].at.Leave?)
    ensures r.stack[i].before <= |r.accepted| && r.accepted[..r.stack[i].before] <= Consumed(r.log)
  {
    hide Consumed, Chained;
    ReachedHasInv(table, initial, actions, r);
    assert Inside(r.stack[i]);
  }

  /** When ProcessEnqueuedEvent has had the guard, all events that had been accepted before it have been given to the chart. */
  lemma ProcessingEmptiesTheMailbox<S, E>(table: Table<S, E>, initial: S, actions: seq<Action<S, E>>, r: Runner<S, E>, i: nat)
    requires Reached(table, initial, actions, r)
    requires i < |r.stack| && r.stack[i].Processing? && r.stack[i].point.Release?
    ensures r.stack[i].before <= |r.accepted| && r.accepted[..r.stack[i].before] <= Consumed(r.log)
  {
    hide Consumed, Chained;
    ReachedHasInv(table, initial, actions, r);
    assert Inside(r.stack[i]);
  }

  /** No transition runs inside another, and what it refers to stays what it was when it began. */
  lemma TransitionsDoNotNest<S, E>(table: Table<S, E>, initial: S, actions: seq<Action<S, E>>, r: Runner<S, E>, i: nat, j: nat)
    requires Reached(table, initial, actions, r)
    requires i < |r.stack| && j < |r.stack| && Running(r.stack[i]) && Running(r.stack[j])
    ensures i == j && r.holder == Some(i)
    ensures match r.stack[i]
            case Applying(_, _, RunQueued(e, from)) => r.slot == Some(e) && r.state == from
            case Applying(_, _, RunIncoming(from)) => r.state == from
            case Processing(_, RunCopied(_, from)) => r.state == from
  {
    hide Consumed, Chained;
    ReachedHasInv(table, initial, actions, r);
    assert Inside(r.stack[i]) && Inside(r.stack[j]);
  }

  /** The chart is where its transitions have taken it, one after the other. */
  lemma StateIsTheResultOfTheLog<S, E>(table: Table<S, E>, initial: S, actions: seq<Action<S, E>>, r: Runner<S, E>)
    requires Reached(table, initial, actions, r)
    ensures Chained(table, initial, r.log, r.state)
  {
    hide Consumed, Chained;
    ReachedHasInv(table, initial, actions, r);
  }

  /** ApplyEvent reports whether its event had a transition in the state that it met. */
  lemma ApplyReportsItsTransition<S, E>(table: Table<S, E>, initial: S, actions: seq<Action<S, E>>, r: Runner<S, E>, i: nat)
    requires Reached(table, initial, actions, r)
    requires i < |r.stack| && r.stack[i].Applying? && r.stack[i].at.Leave?
    ensures r.log != []
    ensures var d := r.log[|r.log| - 1];
            d.event == r.stack[i].event && !d.queued && r.stack[i].at.applied == d.ran == table(d.from, d.event)
  {
    hide Consumed;
    ReachedHasInv(table, initial, actions, r);
    assert Inside(r.stack[i]);
  }

  lemma RunFirst<S, E>(table: Table<S, E>, r: Runner<S, E>, actions: seq<Action<S, E>>)
    requires actions != [] && Allowed(r, actions[0])
    ensures Run(table, r, actions) == Run(table, Do(table, r, actions[0]), actions[1..])
  {
  }

  lemma RunOne<S, E>(table: Table<S, E>, r: Runner<S, E>, a: Action<S, E>)
    requires Allowed(r, a)
    ensures Run(table, r, [a]) == Some(Do(table, r, a))
  {
    hide Allowed, Do;
    assert [a][1..] == [];
  }

  lemma RunTwo<S, E>(table: Table<S, E>, r: Runner<S, E>, a: Action<S, E>, b: Action<S, E>)
    requires Allowed(r, a) && Allowed(Do(table, r, a), b)
    ensures Run(table, r, [a, b]) == Some(Do(table, Do(table, r, a), b))
  {
    hide Allowed, Do, Run;
    assert [a, b][1..] == [b];
    RunFirst(table, r, [a, b]);
    RunOne(table, Do(table, r, a), b);
  }

  lemma {:induction false} RunMore<S, E>(table: Table<S, E>, r: Runner<S, E>, actions: seq<Action<S, E>>, a: Action<S, E>)
    requires Run(table, r, actions).Some? && Allowed(Run(table, r, actions).value, a)
    ensures Run(table, r, actions + [a]) == Some(Do(table, Run(table, r, actions).value, a))
    decreases |actions|
  {
    hide Allowed, Do;
    if actions == [] {
      RunOne(table, r, a);
      assert actions + [a] == [a];
    } else {
      assert (actions + [a])[1..] == actions[1..] + [a];
      RunMore(table, Do(table, r, actions[0]), actions[1..], a);
    }
  }

  /**
   While the guard is held, calls of ApplyEvent and ProcessEnqueuedEvent by the code of a transition, or by an
   interrupt, are refused without any effect.
   */
  lemma NestedCallsAreRefused<S, E>(table: Table<S, E>, r: Runner<S, E>, e: E)
    requires r.holder.Some?
    ensures Run(table, r, [Begin(ApplyCall(e)), Step]) == Some(r)
    ensures Run(table, r, if r.flag then [Begin(ProcessCall), Step, Step] else [Begin(ProcessCall), Step]) == Some(r)
  {
    ApplyIsRefused(table, r, e);
    ProcessIsRefused(table, r);
  }

  lemma ApplyIsRefused<S, E>(table: Table<S, E>, r: Runner<S, E>, e: E)
    requires r.holder.Some?
    ensures Run(table, r, [Begin(ApplyCall(e)), Step]) == Some(r)
  {
    var s := Do(table, r, Begin(ApplyCall(e)));
    assert Do(table, s, Step) == Return(s) == r;
    RunTwo(table, r, Begin(ApplyCall(e)), Step);
  }

  lemma ProcessIsRefused<S, E>(table: Table<S, E>, r: Runner<S, E>)
    requires r.holder.Some?
    ensures Run(table, r, if r.flag then [Begin(ProcessCall), Step, Step] else [Begin(ProcessCall), Step]) == Some(r)
  {
    var begin: Action<S, E> := Begin(ProcessCall);
    var s := Do(table, r, begin);
    var t := Do(table, s, Step);
    if r.flag {
      assert Do(table, t, Step) == Return(t) == r;
      RunTwo(table, s, Step, Step);
      RunFirst(table, r, [begin, Step, Step]);
      assert [begin, Step, Step][1..] == [Step, Step];
    } else {
      assert t == Return(s) == r;
      RunTwo(table, r, begin, Step);
    }
  }

  /** The code of a transition that calls ApplyEvent or ProcessEnqueuedEvent is refused, without any effect. */
  lemma ReentrantCallsAreRefused<S, E>(table: Table<S, E>, initial: S, actions: seq<Action<S, E>>, r: Runner<S, E>, e: E)
    requires Reached(table, initial, actions, r) && r.stack != [] && Running(Top(r))
    ensures Run(table, r, [Begin(ApplyCall(e)), Step]) == Some(r)
    ensures Run(table, r, if r.flag then [Begin(ProcessCall), Step, Step] else [Begin(ProcessCall), Step]) == Some(r)
  {
    hide Reached, Run, Do, Inv;
    ReachedHasInv(table, initial, actions, r);
    RunningHolds(table, initial, r);
    NestedCallsAreRefused(table, r, e);
  }
}
