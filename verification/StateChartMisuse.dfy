/**
 When an interrupt must not call ApplyEvent or ProcessEnqueuedEvent. The program's documentation forbids the
 first, at any moment, and does not mention the second. Either clears the flag of the mailbox behind the back
 of a call that relies on it, so that an accepted event is overwritten, exactly at the moments that the rule
 of StateChartProtocol excludes.
 */
module StateChartMisuse {
  import opened Wrappers
  import opened StateChartProtocol

  // The innermost call takes n steps.
  function Steps<S, E>(table: Table<S, E>, r: Runner<S, E>, n: nat): Option<Runner<S, E>>
    decreases n
  {
    if n == 0 then Some(r)
    else if Allowed(r, Step) then Steps(table, Do(table, r, Step), n - 1)
    else None
  }

  // A whole call, entered at any moment, that takes n steps.
  function Interrupted<S, E>(table: Table<S, E>, r: Runner<S, E>, call: Call<E>, n: nat): Option<Runner<S, E>> {
    Steps(table, Do(table, r, Begin(call)), n)
  }

  lemma StepOnce<S, E>(table: Table<S, E>, r: Runner<S, E>, s: Runner<S, E>, n: nat)
    requires n > 0 && Allowed(r, Step) && Do(table, r, Step) == s
    ensures Steps(table, r, n) == Steps(table, s, n - 1)
  {
    hide Do, Allowed;
  }

  lemma NoStep<S, E>(table: Table<S, E>, r: Runner<S, E>)
    ensures Steps(table, r, 0) == Some(r)
  {
  }

  // With one more call on the stack.
  function Under<S, E>(r: Runner<S, E>, f: Frame<S, E>): (s: Runner<S, E>)
    ensures s.stack != [] && Top(s) == f
  {
    r.(stack := r.stack + [f])
  }

  // The innermost call of Under goes to g, or returns.
  lemma OnTop<S, E>(r: Runner<S, E>, f: Frame<S, E>, g: Frame<S, E>)
    ensures At(Under(r, f), g) == Under(r, g) && Return(Under(r, f)) == r
  {
  }

  // The moments at which a call sees a flag that nothing stands behind.
  ghost predicate Flagged<S, E>(r: Runner<S, E>) {
    r.holder.None? && r.flag && r.slot.None?
  }

  // ---------------------------------------------------------------------------------------
  // The calls of the interrupt

  // ApplyEvent finds the flag set and the slot empty, clears the flag, and returns.
  lemma ApplyInInterrupt<S, E>(table: Table<S, E>, r: Runner<S, E>, e: E)
    requires Flagged(r) && !table(r.state, e)
    ensures Interrupted(table, r, ApplyCall(e), 7) == Some(Skip(r, e, false).(flag := false))
  {
    var n := |r.accepted|;
    var held := r.(holder := Some(|r.stack|));
    var enter, take, check, reset, open :=
      Applying(e, n, Enter), Applying(e, n, TakeFlag), Applying(e, n, CheckSlot), Applying(e, n, ResetSlot), Applying(e, n, ClearFlag);
    OnTop(r, enter, take);
    OnTop(held, take, check);
    OnTop(held, check, reset);
    OnTop(held, reset, open);
    hide At, Return;
    assert Do(table, r, Begin(ApplyCall(e))) == Under(r, enter);
    StepOnce(table, Under(r, enter), Under(held, take), 7);
    StepOnce(table, Under(held, take), Under(held, check), 6);
    StepOnce(table, Under(held, check), Under(held, reset), 5);
    StepOnce(table, Under(held, reset), Under(held, open), 4);
    ApplyGoesOn(table, r, e, n);
  }

  lemma ApplyGoesOn<S, E>(table: Table<S, E>, r: Runner<S, E>, e: E, n: nat)
    requires Flagged(r) && !table(r.state, e)
    ensures Steps(table, Under(r.(holder := Some(|r.stack|)), Applying(e, n, ClearFlag)), 3) == Some(Skip(r, e, false).(flag := false))
  {
    var held := r.(holder := Some(|r.stack|));
    var clear := held.(flag := false);
    var done := Skip(clear, e, false);
    var open, incoming, leave := Applying(e, n, ClearFlag), Applying(e, n, Incoming), Applying(e, n, Leave(false));
    OnTop(held, open, incoming);
    OnTop(clear, incoming, leave);
    OnTop(done, leave, leave);
    hide At, Return;
    StepOnce(table, Under(held, open), Under(clear, incoming), 3);
    StepOnce(table, Under(clear, incoming), Under(done, leave), 2);
    StepOnce(table, Under(done, leave), done.(holder := None), 1);
    NoStep(table, done.(holder := None));
  }

  // So does ProcessEnqueuedEvent.
  lemma ProcessInInterrupt<S, E>(table: Table<S, E>, r: Runner<S, E>)
    requires Flagged(r)
    ensures Interrupted(table, r, ProcessCall, 5) == Some(r.(flag := false))
  {
    var n := |r.accepted|;
    var held := r.(holder := Some(|r.stack|));
    var test, acquire, copy: Frame<S, E> := Processing(n, TestFlag), Processing(n, Acquire), Processing(n, CopySlot);
    OnTop(r, test, acquire);
    OnTop(r, acquire, copy);
    hide At, Return;
    assert Do(table, r, Begin(ProcessCall)) == Under(r, test);
    StepOnce(table, Under(r, test), Under(r, acquire), 5);
    StepOnce(table, Under(r, acquire), Under(held, copy), 4);
    ProcessGoesOn(table, r, n);
  }

  lemma ProcessGoesOn<S, E>(table: Table<S, E>, r: Runner<S, E>, n: nat)
    requires Flagged(r)
    ensures Steps(table, Under(r.(holder := Some(|r.stack|)), Processing(n, CopySlot)), 3) == Some(r.(flag := false))
  {
    var held := r.(holder := Some(|r.stack|));
    var clear := held.(flag := false);
    var copy, discard, release: Frame<S, E> := Processing(n, CopySlot), Processing(n, Discard), Processing(n, Release);
    OnTop(held, copy, discard);
    OnTop(held, discard, release);
    OnTop(clear, release, release);
    hide At, Return;
    StepOnce(table, Under(held, copy), Under(held, discard), 3);
    StepOnce(table, Under(held, discard), Under(clear, release), 2);
    StepOnce(table, Under(clear, release), clear.(holder := None), 1);
    NoStep(table, clear.(holder := None));
  }

  lemma EnqueueInInterrupt<S, E>(table: Table<S, E>, r: Runner<S, E>, e: E)
    requires !r.flag
    ensures Interrupted(table, r, EnqueueCall(e), 2) == Some(r.(flag := true, slot := Some(e), accepted := r.accepted + [e]))
  {
    var begun: Frame<S, E> := Enqueueing(e, false);
    var won: Frame<S, E> := Enqueueing(e, true);
    var flagged := r.(flag := true);
    var filled := r.(flag := true, slot := Some(e), accepted := r.accepted + [e]);
    OnTop(r, begun, won);
    OnTop(flagged, won, won);
    hide At, Return;
    assert Do(table, r, Begin(EnqueueCall(e))) == Under(r, begun);
    StepOnce(table, Under(r, begun), Under(flagged, won), 2);
    StepOnce(table, Under(flagged, won), filled, 1);
    NoStep(table, filled);
  }

  // What the two forbidden calls have in common.
  predicate Forbidden<S, E>(table: Table<S, E>, r: Runner<S, E>, call: Call<E>) {
    call.ProcessCall? || (call.ApplyCall? && !table(r.state, call.event))
  }

  function Length<E>(call: Call<E>): nat {
    if call.ApplyCall? then 7 else 5
  }

  lemma CallClearsFlag<S, E>(table: Table<S, E>, r: Runner<S, E>, call: Call<E>) returns (s: Runner<S, E>)
    requires Flagged(r) && Forbidden(table, r, call)
    ensures Interrupted(table, r, call, Length(call)) == Some(s)
    ensures s == r.(flag := false, log := s.log) && Consumed(s.log) == Consumed(r.log)
  {
    hide Interrupted, Steps;
    if call.ApplyCall? {
      ApplyInInterrupt(table, r, call.event);
      s := Skip(r, call.event, false).(flag := false);
      assert s.log[..|r.log|] == r.log;
    } else {
      ProcessInInterrupt(table, r);
      s := r.(flag := false);
    }
  }

  // ---------------------------------------------------------------------------------------
  // While a call is about to fill the slot

  lemma FillWrongly<S, E>(table: Table<S, E>, r: Runner<S, E>, a: E)
    requires r.stack != [] && Top(r) == Enqueueing(a, true)
    ensures Steps(table, r, 1) == Some(Return(r).(slot := Some(a), accepted := r.accepted + [a]))
  {
    var s := Return(r).(slot := Some(a), accepted := r.accepted + [a]);
    StepOnce(table, r, s, 1);
    NoStep(table, s);
  }

  /**
   EnqueueEvent of a has set the flag; an interrupt calls ApplyEvent or ProcessEnqueuedEvent; the slot is filled
   with a; later b is enqueued. Both are accepted, but a is never given to the chart.
   */
  lemma CallWhileFillingLosesAnEvent<S, E>(table: Table<S, E>, r: Runner<S, E>, call: Call<E>, a: E, b: E)
    requires Flagged(r) && Forbidden(table, r, call) && r.stack != [] && Top(r) == Enqueueing(a, true)
    ensures var s1 := Interrupted(table, r, call, Length(call));
            s1.Some? &&
            var s2 := Steps(table, s1.value, 1);
            s2.Some? &&
            var s3 := Interrupted(table, s2.value, EnqueueCall(b), 2);
            s3.Some? &&
            var s := s3.value;
            && s.stack == Return(r).stack && s.holder.None? && s.accepted == r.accepted + [a, b]
            && Consumed(s.log) == Consumed(r.log) && s.slot == Some(b)
  {
    hide Interrupted, Steps;
    var r1 := CallClearsFlag(table, r, call);
    FillWrongly(table, r1, a);
    var r2 := Return(r1).(slot := Some(a), accepted := r.accepted + [a]);
    EnqueueInInterrupt(table, r2, b);
    assert r.accepted + [a] + [b] == r.accepted + [a, b];
  }

  // ---------------------------------------------------------------------------------------
  // While ProcessEnqueuedEvent is about to take the guard

  // It has seen the flag, which an earlier ApplyEvent has left set.
  ghost predicate AboutToAcquire<S, E>(r: Runner<S, E>) {
    Flagged(r) && r.stack != [] && Top(r).Processing? && Top(r).point.Acquire?
  }

  // It looks into the empty slot.
  lemma LookIntoSlot<S, E>(table: Table<S, E>, r: Runner<S, E>)
    requires r.stack != [] && Top(r).Processing? && Top(r).point.Acquire? && r.slot.None? && r.holder.None?
    ensures Steps(table, r, 2) == Some(At(r, Top(r).(point := Discard)).(holder := Some(|r.stack| - 1)))
  {
    var f := Top(r);
    var s1 := At(r, f.(point := CopySlot)).(holder := Some(|r.stack| - 1));
    var s2 := At(r, f.(point := Discard)).(holder := Some(|r.stack| - 1));
    assert At(s1, f.(point := Discard)) == s2;
    StepOnce(table, r, s1, 2);
    StepOnce(table, s1, s2, 1);
    NoStep(table, s2);
  }

  // It clears the flag, although the slot is filled by now.
  lemma ClearWrongly<S, E>(table: Table<S, E>, r: Runner<S, E>)
    requires r.stack != [] && Top(r).Processing? && Top(r).point.Discard?
    ensures Steps(table, r, 2) == Some(Return(r).(flag := false, holder := None))
  {
    var s1 := At(r, Top(r).(point := Release)).(flag := false);
    var s2 := Return(r).(flag := false, holder := None);
    assert Return(s1).stack == Return(r).stack;
    StepOnce(table, r, s1, 2);
    StepOnce(table, s1, s2, 1);
    NoStep(table, s2);
  }

  /**
   ProcessEnqueuedEvent has seen the flag; an interrupt calls ApplyEvent or ProcessEnqueuedEvent; later ones
   enqueue a and b. Both are accepted, but a is never given to the chart.
   */
  lemma CallWhileAcquiringLosesAnEvent<S, E>(table: Table<S, E>, r: Runner<S, E>, call: Call<E>, a: E, b: E)
    requires AboutToAcquire(r) && Forbidden(table, r, call)
    ensures var s1 := Interrupted(table, r, call, Length(call));
            s1.Some? &&
            var s2 := Steps(table, s1.value, 2);
            s2.Some? &&
            var s3 := Interrupted(table, s2.value, EnqueueCall(a), 2);
            s3.Some? &&
            var s4 := Steps(table, s3.value, 2);
            s4.Some? &&
            var s5 := Interrupted(table, s4.value, EnqueueCall(b), 2);
            s5.Some? &&
            var s := s5.value;
            && s.stack == Return(r).stack && s.holder.None? && s.accepted == r.accepted + [a, b]
            && Consumed(s.log) == Consumed(r.log) && s.slot == Some(b)
  {
    hide Interrupted, Steps;
    var r1 := CallClearsFlag(table, r, call);
    LookIntoSlot(table, r1);
    var r2 := At(r1, Top(r1).(point := Discard)).(holder := Some(|r.stack| - 1));
    EnqueueInInterrupt(table, r2, a);
    var r3 := r2.(flag := true, slot := Some(a), accepted := r.accepted + [a]);
    ClearWrongly(table, r3);
    var r4 := Return(r3).(flag := false, holder := None);
    EnqueueInInterrupt(table, r4, b);
    assert r4.stack == Return(r).stack;
    assert r.accepted + [a] + [b] == r.accepted + [a, b];
  }

  // ---------------------------------------------------------------------------------------
  // Both moments occur

  // An ApplyEvent call without a transition leaves the flag set, and the slot empty.
  lemma ApplyLeavesFlagSet<S, E>(table: Table<S, E>, initial: S, e: E) returns (actions: seq<Action<S, E>>)
    requires !table(initial, e)
    ensures Reached(table, initial, actions, Skip(Init<S, E>(initial), e, false).(flag := true))
  {
    hide Reached;
    var s0 := Init<S, E>(initial);
    var s1 := s0.(stack := [Applying(e, 0, Enter)]);
    var s2 := s0.(stack := [Applying(e, 0, TakeFlag)], holder := Some(0));
    var s3 := s0.(stack := [Applying(e, 0, Incoming)], holder := Some(0), flag := true);
    var s4 := Skip(s3, e, false).(stack := [Applying(e, 0, Leave(false))]);
    var s5 := Skip(s0, e, false).(flag := true);
    StartIsReached(table, initial);
    actions := Reach(table, initial, [], s0, Begin(ApplyCall(e)), s1);
    actions := Reach(table, initial, actions, s1, Step, s2);
    actions := Reach(table, initial, actions, s2, Step, s3);
    actions := Reach(table, initial, actions, s3, Step, s4);
    actions := Reach(table, initial, actions, s4, Step, s5);
  }

  /** ProcessEnqueuedEvent comes to be about to take the guard with an empty slot. */
  lemma AcquiringIsReached<S, E>(table: Table<S, E>, initial: S, e: E)
    requires !table(initial, e)
    ensures exists actions, r :: Reached(table, initial, actions, r) && AboutToAcquire(r)
  {
    hide Reached;
    var s5 := Skip(Init<S, E>(initial), e, false).(flag := true);
    var s6 := s5.(stack := [Processing(0, TestFlag)]);
    var s7 := s5.(stack := [Processing(0, Acquire)]);
    var actions := ApplyLeavesFlagSet(table, initial, e);
    actions := Reach(table, initial, actions, s5, Begin(ProcessCall), s6);
    actions := Reach(table, initial, actions, s6, Step, s7);
    assert AboutToAcquire(s7);
  }

  /** EnqueueEvent comes to be about to fill the slot. */
  lemma FillingIsReached<S, E>(table: Table<S, E>, initial: S, a: E)
    ensures exists actions, r :: Reached(table, initial, actions, r) && Flagged(r) && r.stack == [Enqueueing(a, true)]
  {
    hide Reached;
    var s0 := Init<S, E>(initial);
    var s1 := s0.(stack := [Enqueueing(a, false)]);
    var s2 := s0.(stack := [Enqueueing(a, true)], flag := true);
    StartIsReached(table, initial);
    var actions := Reach(table, initial, [], s0, Begin(EnqueueCall(a)), s1);
    actions := Reach(table, initial, actions, s1, Step, s2);
    assert Flagged(s2);
  }

  lemma StartIsReached<S, E>(table: Table<S, E>, initial: S)
    ensures Reached(table, initial, [], Init<S, E>(initial))
  {
  }

  // One more action.
  lemma Reach<S, E>(table: Table<S, E>, initial: S, actions: seq<Action<S, E>>, r: Runner<S, E>, a: Action<S, E>, s: Runner<S, E>)
    returns (more: seq<Action<S, E>>)
    requires Reached(table, initial, actions, r) && Allowed(r, a) && Do(table, r, a) == s
    ensures Reached(table, initial, more, s)
  {
    hide Run, Do, Allowed;
    RunMore(table, Init<S, E>(initial), actions, a);
    more := actions + [a];
  }

  // ---------------------------------------------------------------------------------------
  // The rule is needed

  // s can be reached from o by allowed actions.
  ghost predicate Leads<S(!new), E(!new)>(table: Table<S, E>, o: Runner<S, E>, s: Runner<S, E>) {
    exists actions :: Run(table, o, actions) == Some(s)
  }

  lemma Onward<S(!new), E(!new)>(table: Table<S, E>, o: Runner<S, E>, r: Runner<S, E>, a: Action<S, E>)
    requires Leads(table, o, r) && Allowed(r, a)
    ensures Leads(table, o, Do(table, r, a))
  {
    hide Run, Do, Allowed;
    var actions :| Run(table, o, actions) == Some(r);
    RunMore(table, o, actions, a);
    assert Run(table, o, actions + [a]) == Some(Do(table, r, a));
  }

  lemma {:induction false} StepsLead<S(!new), E(!new)>(table: Table<S, E>, o: Runner<S, E>, r: Runner<S, E>, n: nat)
    requires Leads(table, o, r) && Steps(table, r, n).Some?
    ensures Leads(table, o, Steps(table, r, n).value)
    decreases n
  {
    hide Leads, Do, Allowed;
    if n > 0 {
      Onward(table, o, r, Step);
      StepsLead(table, o, Do(table, r, Step), n - 1);
    }
  }

  lemma EnqueueLeads<S(!new), E(!new)>(table: Table<S, E>, o: Runner<S, E>, r: Runner<S, E>, e: E, n: nat)
    requires Leads(table, o, r) && Interrupted(table, r, EnqueueCall(e), n).Some?
    ensures Leads(table, o, Interrupted(table, r, EnqueueCall(e), n).value)
  {
    hide Leads, Do, Steps;
    Onward(table, o, r, Begin(EnqueueCall(e)));
    StepsLead(table, o, Do(table, r, Begin(EnqueueCall(e))), n);
  }

  // The guard is free, and the runner has accepted more events than the chart has been given and the slot holds.
  ghost predicate HasLost<S, E>(s: Runner<S, E>) {
    s.holder.None? && |s.accepted| > |Consumed(s.log)| + |InBox(s)|
  }

  // Once the call has begun, allowed actions lead to a lost event.
  ghost predicate Loses<S(!new), E(!new)>(table: Table<S, E>, r: Runner<S, E>, call: Call<E>) {
    exists s :: Leads(table, Do(table, r, Begin(call)), s) && HasLost(s)
  }

  // One more action.
  lemma Go<S(!new), E(!new)>(table: Table<S, E>, o: Runner<S, E>, r: Runner<S, E>, a: Action<S, E>, s: Runner<S, E>)
    requires Leads(table, o, r) && Allowed(r, a) && Do(table, r, a) == s
    ensures Leads(table, o, s)
  {
    hide Run, Do, Allowed, Leads;
    Onward(table, o, r, a);
  }

  // The log after e was given to the chart, and the state has not changed.
  function Given<S, E>(table: Table<S, E>, r: Runner<S, E>, e: E, queued: bool): Runner<S, E> {
    r.(log := r.log + [Dispatched(e, queued, r.state, r.state, table(r.state, e))])
  }

  // A frame f below the top gives e to the chart and goes to g; run is where it is in the meantime.
  lemma Gives<S(!new), E(!new)>(table: Table<S, E>, o: Runner<S, E>, r: Runner<S, E>, e: E, queued: bool,
      f: Frame<S, E>, run: Frame<S, E>, g: Frame<S, E>)
    requires Leads(table, o, Under(r, f)) && !Running(f) && Running(run)
    requires Do(table, Under(r, f), Step) == if table(r.state, e) then Under(r, run) else Skip(Under(r, g), e, queued)
    requires Conclude(Under(r, run), r.state) == Change(Under(r, g), e, queued, r.state, r.state)
    ensures Leads(table, o, Under(Given(table, r, e, queued), g))
  {
    var finish: Action<S, E> := Finish(r.state);
    assert Do(table, Under(r, run), finish) == Conclude(Under(r, run), r.state);
    hide Leads, Do, Conclude;
    var s := Under(Given(table, r, e, queued), g);
    if table(r.state, e) {
      assert Change(Under(r, g), e, queued, r.state, r.state) == s;
      Go(table, o, Under(r, f), Step, Under(r, run));
      Go(table, o, Under(r, run), finish, s);
    } else {
      assert Skip(Under(r, g), e, queued) == s;
      Go(table, o, Under(r, f), Step, s);
    }
  }

  // What ProcessEnqueuedEvent leaves.
  function Processed<S, E>(table: Table<S, E>, r: Runner<S, E>): Runner<S, E> {
    var s := r.(slot := None, flag := false);
    if r.slot.Some? then Given(table, s, r.slot.value, true) else s
  }

  lemma ProcessTakes<S(!new), E(!new)>(table: Table<S, E>, r: Runner<S, E>)
    requires r.holder.None? && r.flag && r.slot.Some?
    ensures Leads(table, Do(table, r, Begin(ProcessCall)), Processed(table, r))
  {
    var n, x := |r.accepted|, r.slot.value;
    var held := r.(holder := Some(|r.stack|));
    var test, acquire, copy, reset: Frame<S, E> :=
      Processing(n, TestFlag), Processing(n, Acquire), Processing(n, CopySlot), Processing(n, ResetCopied(x));
    var o := Do(table, r, Begin(ProcessCall));
    assert o == Under(r, test);
    assert Run(table, o, []) == Some(o);
    OnTop(r, test, acquire);
    OnTop(r, acquire, copy);
    OnTop(held, copy, reset);
    hide At, Return, Leads;
    Go(table, o, Under(r, test), Step, Under(r, acquire));
    Go(table, o, Under(r, acquire), Step, Under(held, copy));
    Go(table, o, Under(held, copy), Step, Under(held, reset));
    ProcessTakesCopy(table, o, held, x, n);
    assert Given(table, held.(slot := None, flag := false), x, true).(holder := None) == Processed(table, r);
  }

  // From the reset of the slot on.
  lemma ProcessTakesCopy<S(!new), E(!new)>(table: Table<S, E>, o: Runner<S, E>, held: Runner<S, E>, x: E, n: nat)
    requires Leads(table, o, Under(held, Processing(n, ResetCopied(x))))
    ensures Leads(table, o, Given(table, held.(slot := None, flag := false), x, true).(holder := None))
  {
    var empty := held.(slot := None);
    var clear := empty.(flag := false);
    var done := Given(table, clear, x, true);
    var reset, reopen, dispatch, release: Frame<S, E> :=
      Processing(n, ResetCopied(x)), Processing(n, Reopen(x)), Processing(n, Dispatch(x)), Processing(n, Release);
    OnTop(held, reset, reopen);
    OnTop(empty, reopen, dispatch);
    OnTop(done, release, release);
    hide At, Return, Leads;
    Go(table, o, Under(held, reset), Step, Under(empty, reopen));
    Go(table, o, Under(empty, reopen), Step, Under(clear, dispatch));
    ProcessGives(table, o, clear, x, n);
    Go(table, o, Under(done, release), Step, done.(holder := None));
  }

  lemma ProcessGives<S(!new), E(!new)>(table: Table<S, E>, o: Runner<S, E>, r: Runner<S, E>, x: E, n: nat)
    requires Leads(table, o, Under(r, Processing(n, Dispatch(x))))
    ensures Leads(table, o, Under(Given(table, r, x, true), Processing(n, Release)))
  {
    var dispatch, run, release: Frame<S, E> := Processing(n, Dispatch(x)), Processing(n, RunCopied(x, r.state)), Processing(n, Release);
    OnTop(r, dispatch, run);
    OnTop(r, dispatch, release);
    OnTop(r, run, release);
    hide At, Leads;
    Gives(table, o, r, x, true, dispatch, run, release);
  }

  // What ApplyEvent of e leaves.
  function Applied<S, E>(table: Table<S, E>, r: Runner<S, E>, e: E): Runner<S, E> {
    Given(table, Processed(table, r), e, false)
  }

  lemma ApplyTakes<S(!new), E(!new)>(table: Table<S, E>, r: Runner<S, E>, e: E)
    requires r.holder.None? && r.flag
    ensures Leads(table, Do(table, r, Begin(ApplyCall(e))), Applied(table, r, e))
  {
    var n := |r.accepted|;
    var held := r.(holder := Some(|r.stack|));
    var enter, take, check, reset := Applying(e, n, Enter), Applying(e, n, TakeFlag), Applying(e, n, CheckSlot), Applying(e, n, ResetSlot);
    var o := Do(table, r, Begin(ApplyCall(e)));
    assert o == Under(r, enter);
    assert Run(table, o, []) == Some(o);
    OnTop(r, enter, take);
    OnTop(held, take, check);
    OnTop(held, check, reset);
    var given := if r.slot.Some? then Given(table, held, r.slot.value, true) else held;
    hide At, Return, Leads;
    Go(table, o, Under(r, enter), Step, Under(held, take));
    Go(table, o, Under(held, take), Step, Under(held, check));
    if r.slot.Some? {
      var run := Applying(e, n, RunQueued(r.slot.value, r.state));
      OnTop(held, check, run);
      OnTop(held, run, reset);
      Gives(table, o, held, r.slot.value, true, check, run, reset);
    } else {
      Go(table, o, Under(held, check), Step, Under(held, reset));
    }
    ApplyTakesItsOwn(table, o, given, e, n);
    assert given.(slot := None, flag := false, holder := None) == Processed(table, r);
  }

  // From the reset of the slot on.
  lemma ApplyTakesItsOwn<S(!new), E(!new)>(table: Table<S, E>, o: Runner<S, E>, held: Runner<S, E>, e: E, n: nat)
    requires Leads(table, o, Under(held, Applying(e, n, ResetSlot)))
    ensures Leads(table, o, Given(table, held.(slot := None, flag := false, holder := None), e, false))
  {
    var empty := held.(slot := None);
    var clear := empty.(flag := false);
    var done := Given(table, clear, e, false);
    var reset, open, incoming, run := Applying(e, n, ResetSlot), Applying(e, n, ClearFlag), Applying(e, n, Incoming), Applying(e, n, RunIncoming(held.state));
    var leave := Applying(e, n, Leave(table(held.state, e)));
    OnTop(held, reset, open);
    OnTop(empty, open, incoming);
    OnTop(clear, incoming, run);
    OnTop(clear, incoming, leave);
    OnTop(clear, run, leave);
    OnTop(done, leave, leave);
    hide At, Return, Leads;
    Go(table, o, Under(held, reset), Step, Under(empty, open));
    Go(table, o, Under(empty, open), Step, Under(clear, incoming));
    ApplyGives(table, o, clear, e, n);
    Go(table, o, Under(done, leave), Step, done.(holder := None));
  }

  lemma ApplyGives<S(!new), E(!new)>(table: Table<S, E>, o: Runner<S, E>, r: Runner<S, E>, e: E, n: nat)
    requires Leads(table, o, Under(r, Applying(e, n, Incoming)))
    ensures Leads(table, o, Under(Given(table, r, e, false), Applying(e, n, Leave(table(r.state, e)))))
  {
    var incoming, run := Applying(e, n, Incoming), Applying(e, n, RunIncoming(r.state));
    var leave := Applying(e, n, Leave(table(r.state, e)));
    OnTop(r, incoming, run);
    OnTop(r, incoming, leave);
    OnTop(r, run, leave);
    hide At, Leads;
    var s := Under(Given(table, r, e, false), leave);
    if table(r.state, e) {
      Go(table, o, Under(r, incoming), Step, Under(r, run));
      Go(table, o, Under(r, run), Finish(r.state), s);
    } else {
      Go(table, o, Under(r, incoming), Step, s);
    }
  }

  lemma GivenIsConsumed<S, E>(table: Table<S, E>, r: Runner<S, E>, e: E, queued: bool)
    ensures Consumed(Given(table, r, e, queued).log) == Consumed(r.log) + if queued then [e] else []
  {
    assert Given(table, r, e, queued).log[..|r.log|] == r.log;
  }

  // Whichever call it is, it takes what is in the slot and clears the flag.
  lemma CallTakes<S(!new), E(!new)>(table: Table<S, E>, r: Runner<S, E>, call: Call<E>) returns (s: Runner<S, E>)
    requires r.holder.None? && r.flag && !call.EnqueueCall?
    ensures Leads(table, Do(table, r, Begin(call)), s)
    ensures s == r.(slot := None, flag := false, log := s.log)
    ensures Consumed(s.log) == Consumed(r.log) + if r.slot.Some? then [r.slot.value] else []
  {
    var o := Do(table, r, Begin(call));
    assert Run(table, o, []) == Some(o);
    hide Leads, Do, Steps, Consumed;
    s := Processed(table, r);
    if r.slot.Some? {
      GivenIsConsumed(table, r.(slot := None, flag := false), r.slot.value, true);
    }
    if call.ApplyCall? {
      ApplyTakes(table, r, call.event);
      GivenIsConsumed(table, s, call.event, false);
      s := Applied(table, r, call.event);
    } else if r.slot.Some? {
      ProcessTakes(table, r);
    } else {
      assert Leads(table, o, o);
      assert Interrupted(table, r, ProcessCall, 5) == Steps(table, o, 5);
      hide Interrupted;
      ProcessInInterrupt(table, r);
      StepsLead(table, o, o, 5);
    }
  }

  lemma FillingLoses<S(!new), E(!new)>(table: Table<S, E>, r: Runner<S, E>, call: Call<E>, b: E)
    requires Flagged(r) && !call.EnqueueCall? && r.stack != [] && Won(Top(r)) && r.accepted == Consumed(r.log)
    ensures Loses(table, r, call)
  {
    var o := Do(table, r, Begin(call));
    hide Interrupted, Steps, Do, Leads, Consumed;
    var s1 := CallTakes(table, r, call);
    FillWrongly(table, s1, Top(r).event);
    StepsLead(table, o, s1, 1);
    var s2 := Steps(table, s1, 1).value;
    EnqueueInInterrupt(table, s2, b);
    EnqueueLeads(table, o, s2, b, 2);
    assert HasLost(Interrupted(table, s2, EnqueueCall(b), 2).value);
  }

  lemma AcquiringLoses<S(!new), E(!new)>(table: Table<S, E>, r: Runner<S, E>, call: Call<E>, b: E)
    requires r.holder.None? && r.flag && r.stack != [] && Top(r).Processing? && Top(r).point.Acquire? && !call.EnqueueCall?
    requires r.accepted == Consumed(r.log) + if r.slot.Some? then [r.slot.value] else []
    ensures Loses(table, r, call)
  {
    var o := Do(table, r, Begin(call));
    hide Interrupted, Steps, Do, Leads, Consumed;
    var s1 := CallTakes(table, r, call);
    LookIntoSlot(table, s1);
    StepsLead(table, o, s1, 2);
    var s2 := Steps(table, s1, 2).value;
    EnqueueInInterrupt(table, s2, b);
    EnqueueLeads(table, o, s2, b, 2);
    var s3 := Interrupted(table, s2, EnqueueCall(b), 2).value;
    ClearWrongly(table, s3);
    StepsLead(table, o, s3, 2);
    var s4 := Steps(table, s3, 2).value;
    EnqueueInInterrupt(table, s4, b);
    EnqueueLeads(table, o, s4, b, 2);
    assert HasLost(Interrupted(table, s4, EnqueueCall(b), 2).value);
  }

  // EnqueueEvent calls above place i that find the flag set return, one after the other.
  lemma {:induction false} RefusedReturn<S(!new), E(!new)>(table: Table<S, E>, o: Runner<S, E>, r: Runner<S, E>, i: nat)
    requires Leads(table, o, r) && r.flag && i < |r.stack|
    requires forall j :: i < j < |r.stack| ==> r.stack[j].Enqueueing? && !r.stack[j].won
    ensures Leads(table, o, r.(stack := r.stack[..i + 1]))
    decreases |r.stack|
  {
    hide Leads;
    if i + 1 == |r.stack| {
      assert r.stack[..i + 1] == r.stack;
    } else {
      var s := Return(r);
      Go(table, o, r, Step, s);
      assert s.stack[..i + 1] == r.stack[..i + 1];
      RefusedReturn(table, o, s, i);
    }
  }

  // An EnqueueEvent call that is about to fill the slot is interrupted by further ones, and they by the call.
  lemma FillingBelowLoses<S(!new), E(!new)>(table: Table<S, E>, r: Runner<S, E>, call: Call<E>, i: nat)
    requires Flagged(r) && !call.EnqueueCall? && r.accepted == Consumed(r.log)
    requires i < |r.stack| - 1 && Won(r.stack[i])
    requires forall j :: i < j < |r.stack| ==> r.stack[j].Enqueueing? && !r.stack[j].won
    ensures Loses(table, r, call)
  {
    var o := Do(table, r, Begin(call));
    hide Leads, Consumed;
    var s1 := CallTakes(table, r, call);
    var n := |r.stack| - 1;
    var s2 := Enqueue(s1);
    var s3 := Enqueue(s2);
    assert s2.stack[..n] == r.stack[..n];
    Go(table, o, s1, Step, s2);
    Go(table, o, s2, Step, s3);
    assert s3.stack == r.stack[..n];
    RefusedReturn(table, o, s3, i);
    var s4 := s3.(stack := s3.stack[..i + 1]);
    assert Top(s4) == r.stack[i];
    var s5 := Enqueue(s4);
    Go(table, o, s4, Step, s5);
    assert HasLost(s5);
  }

  // What is known of a reachable state in which the guard is free and the rule forbids a call.
  lemma ForbiddenMeans<S, E>(table: Table<S, E>, initial: S, r: Runner<S, E>, call: Call<E>)
    requires Inv(table, initial, r) && !Allowed(r, Begin(call))
    ensures r.holder.None? && r.flag && !call.EnqueueCall?
    ensures r.accepted == Consumed(r.log) + if r.slot.Some? then [r.slot.value] else []
    ensures forall i :: 0 <= i < |r.stack| && Won(r.stack[i]) ==>
              r.slot.None? && forall j :: i < j < |r.stack| ==> r.stack[j].Enqueueing? && !r.stack[j].won
  {
    hide Consumed, Chained;
  }

  lemma ForbiddenLoses<S(!new), E(!new)>(table: Table<S, E>, initial: S, r: Runner<S, E>, call: Call<E>, b: E)
    requires Inv(table, initial, r) && !Allowed(r, Begin(call))
    ensures Loses(table, r, call)
  {
    ForbiddenMeans(table, initial, r, call);
    hide Inv, Loses, Consumed;
    if i :| 0 <= i < |r.stack| && Won(r.stack[i]) {
      if i == |r.stack| - 1 {
        FillingLoses(table, r, call, b);
      } else {
        FillingBelowLoses(table, r, call, i);
      }
    } else {
      AcquiringLoses(table, r, call, b);
    }
  }

  lemma {:induction false} RunJoin<S, E>(table: Table<S, E>, r: Runner<S, E>, a: seq<Action<S, E>>, b: seq<Action<S, E>>)
    requires Run(table, r, a).Some?
    ensures Run(table, r, a + b) == Run(table, Run(table, r, a).value, b)
    decreases |a|
  {
    hide Allowed, Do;
    if a == [] {
      assert a + b == b;
    } else {
      assert (a + b)[1..] == a[1..] + b;
      RunJoin(table, Do(table, r, a[0]), a[1..], b);
    }
  }

  // Where an allowed call leads is reachable.
  lemma AllowedLosesNothing<S(!new), E(!new)>(table: Table<S, E>, initial: S, actions: seq<Action<S, E>>, r: Runner<S, E>, call: Call<E>)
    requires Reached(table, initial, actions, r) && Allowed(r, Begin(call))
    ensures !Loses(table, r, call)
  {
    hide Allowed, Do, HasLost;
    var o := Do(table, r, Begin(call));
    RunMore(table, Init<S, E>(initial), actions, Begin(call));
    forall s | Leads(table, o, s)
      ensures !HasLost(s)
    {
      var after :| Run(table, o, after) == Some(s);
      RunJoin(table, Init<S, E>(initial), actions + [Begin(call)], after);
      RuleIsEnough(table, initial, actions + [Begin(call)] + after, s);
    }
  }

  /**
   The rule for interrupts is exact: in every reachable state, a call of ApplyEvent or ProcessEnqueuedEvent can lead
   to a lost event, by allowed actions after it, if and only if the rule forbids it.
   */
  lemma RuleIsExact<S(!new), E(!new)>(table: Table<S, E>, initial: S, actions: seq<Action<S, E>>, r: Runner<S, E>, call: Call<E>, b: E)
    requires Reached(table, initial, actions, r) && !call.EnqueueCall?
    ensures Loses(table, r, call) <==> !Allowed(r, Begin(call))
  {
    hide Reached, Loses, Allowed, Inv;
    if Allowed(r, Begin(call)) {
      AllowedLosesNothing(table, initial, actions, r, call);
    } else {
      ReachedHasInv(table, initial, actions, r);
      ForbiddenLoses(table, initial, r, call, b);
    }
  }

  /** While the rule is kept, a runner whose guard is free has lost nothing. */
  lemma RuleIsEnough<S, E>(table: Table<S, E>, initial: S, actions: seq<Action<S, E>>, r: Runner<S, E>)
    requires Reached(table, initial, actions, r)
    ensures !HasLost(r)
  {
    hide Consumed;
    AcceptedEventsAreConsumedOnce(table, initial, actions, r);
  }
}
