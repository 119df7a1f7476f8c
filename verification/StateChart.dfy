/**
 The state chart runner itself. Each of its methods is a run of the protocol, in which interrupts
 enqueue events between any two of its steps and the code of a transition may call the runner again;
 so everything that holds in every state of the protocol holds of the runner.
 */
module StateChart {
  import opened Wrappers
  import opened StateChartProtocol

  // The events that interrupts enqueue while a method is at its k-th step.
  type Interrupts<!E> = nat -> seq<E>

  // The transitions: which there are, the state each returns, and its calls of the runner.
  datatype Code<!S, !E> = Code(table: Table<S, E>, next: (S, E) -> S, calls: (S, E) -> seq<Call<E>>)

  class StateChartRunner<S(!new), E(!new)> {
    const code: Code<S, E>
    var state: S
    var enqueuedEvent: Option<E>
    var hasEnqueuedEvent: bool
    var processingEvent: bool

    ghost const initial: S
    ghost var run: seq<Action<S, E>>
    ghost var view: Runner<S, E>

    // The runner is where the protocol is after the steps that have been taken.
    ghost predicate Valid()
      reads this
    {
      && Reached(code.table, initial, run, view)
      && view.state == state && view.slot == enqueuedEvent
      && view.flag == hasEnqueuedEvent && view.holder.Some? == processingEvent
    }

    constructor (code: Code<S, E>, initial: S)
      ensures Valid() && view == Init(initial)
      ensures this.code == code && this.initial == initial
    {
      this.code, this.initial := code, initial;
      state, enqueuedEvent, hasEnqueuedEvent, processingEvent := initial, None, false, false;
      run, view := [], Init(initial);
    }

    ghost method Advance(a: Action<S, E>)
      requires Reached(code.table, initial, run, view) && Allowed(view, a)
      modifies this`run, this`view
      ensures Reached(code.table, initial, run, view)
      ensures run == old(run) + [a] && view == Do(code.table, old(view), a)
    {
      RunMore(code.table, Init<S, E>(initial), run, a);
      run, view := run + [a], Do(code.table, view, a);
    }

    /** The call is accepted exactly if the flag was clear; it changes nothing otherwise. */
    method EnqueueEvent(event: E) returns (accepted: bool)
      requires Valid()
      modifies this`enqueuedEvent, this`hasEnqueuedEvent, this`run, this`view
      ensures Valid() && old(run) <= run
      ensures accepted <==> !old(hasEnqueuedEvent)
      ensures view == if accepted then old(view).(flag := true, slot := Some(event), accepted := old(view).accepted + [event])
                      else old(view)
    {
      hide Reached;
      Advance(Begin(EnqueueCall(event)));
      ghost var stack := old(view).stack;
      assert view.stack == stack + [Enqueueing(event, false)] && view.stack[..|stack|] == stack;
      Advance(Step);
      var eventAlreadyEnqueued := hasEnqueuedEvent;
      hasEnqueuedEvent := true;
      if !eventAlreadyEnqueued {
        assert view.stack == stack + [Enqueueing(event, true)] && view.stack[..|stack|] == stack;
        Advance(Step);
        enqueuedEvent := Some(event);
        accepted := true;
      } else {
        accepted := false;
      }
    }

    method Interrupt(events: seq<E>)
      requires Valid()
      modifies this`enqueuedEvent, this`hasEnqueuedEvent, this`run, this`view
      ensures Valid() && old(run) <= run
      ensures view == old(view).(flag := view.flag, slot := view.slot, accepted := view.accepted)
      ensures old(view).accepted <= view.accepted
      ensures old(hasEnqueuedEvent) ==> view == old(view)
    {
      hide Reached;
      for k := 0 to |events|
        invariant Valid() && old(run) <= run
        invariant view == old(view).(flag := view.flag, slot := view.slot, accepted := view.accepted)
        invariant old(view).accepted <= view.accepted
        invariant old(hasEnqueuedEvent) ==> view == old(view)
      {
        var _ := EnqueueEvent(events[k]);
      }
    }

    // The code of a transition runs, with its own calls of the runner, and interrupts before it returns.
    method Transition(event: E, interrupts: seq<E>)
      requires Valid() && |view.stack| == 1 && Running(view.stack[0]) && event == EventOf(view.stack[0])
      modifies this
      decreases 1
      ensures Valid() && old(run) <= run
      ensures state == code.next(old(state), event)
      ensures hasEnqueuedEvent == view.flag && (old(hasEnqueuedEvent) ==> view.flag)
      ensures old(view).accepted <= view.accepted
      ensures view == Conclude(old(view), state).(flag := view.flag, slot := view.slot, accepted := view.accepted)
    {
      hide Reached;
      var calls := code.calls(state, event);
      ghost var before := view;
      for k := 0 to |calls|
        invariant Valid() && old(run) <= run
        invariant view == before.(flag := view.flag, slot := view.slot, accepted := view.accepted)
        invariant before.accepted <= view.accepted
        invariant before.flag ==> view == before
      {
        assert processingEvent by { ReachedHasInv(code.table, initial, run, view); }
        match calls[k]
        case ApplyCall(e) => var _ := ApplyEvent(e, _ => []);
        case ProcessCall => ProcessEnqueuedEvent(_ => []);
        case EnqueueCall(e) => var _ := EnqueueEvent(e);
      }
      Interrupt(interrupts);
      var result := code.next(state, event);
      Advance(Finish(result));
      state := result;
    }

    // The event in the slot has been given to the chart; the mailbox is opened again.
    method EmptyMailbox(interrupts: Interrupts<E>)
      requires Valid() && |view.stack| == 1 && view.stack[0].Applying? && view.stack[0].at.ResetSlot? && hasEnqueuedEvent
      modifies this
      ensures Valid() && old(run) <= run && view.log == old(view).log && old(view).accepted <= view.accepted
      ensures view.stack == [old(view).stack[0].(at := Incoming)] && state == old(state)
    {
      hide Reached;
      Interrupt(interrupts(2));
      enqueuedEvent := None;
      Advance(Step);
      Interrupt(interrupts(3));
      hasEnqueuedEvent := false;
      Advance(Step);
      Interrupt(interrupts(4));
    }

    // The event in the slot, if there is one, is given to the chart.
    method ApplySlot(interrupts: Interrupts<E>)
      requires Valid() && |view.stack| == 1 && view.stack[0].Applying? && view.stack[0].at.CheckSlot? && hasEnqueuedEvent
      modifies this
      decreases 2
      ensures Valid() && old(run) <= run && old(view).log <= view.log && old(view).accepted <= view.accepted
      ensures view.stack == [old(view).stack[0].(at := ResetSlot)] && hasEnqueuedEvent
    {
      hide Reached;
      if enqueuedEvent.Some? {
        var ee := enqueuedEvent.value;
        Advance(Step);
        if code.table(state, ee) {
          Transition(ee, interrupts(1));
        }
      } else {
        Advance(Step);
      }
    }

    // ApplyEvent holds the guard and deals with the event in the mailbox.
    method ApplyQueued(interrupts: Interrupts<E>)
      requires Valid() && |view.stack| == 1 && view.stack[0].Applying? && view.stack[0].at.TakeFlag?
      modifies this
      decreases 3
      ensures Valid() && old(run) <= run && old(view).log <= view.log && old(view).accepted <= view.accepted
      ensures view.stack == [old(view).stack[0].(at := Incoming)]
    {
      hide Reached;
      var alreadySet := hasEnqueuedEvent;
      hasEnqueuedEvent := true;
      Advance(Step);
      Interrupt(interrupts(0));
      if alreadySet {
        ApplySlot(interrupts);
        EmptyMailbox(interrupts);
      }
    }

    // ApplyEvent holds the guard and deals with its own event.
    method ApplyIncoming(event: E, interrupts: Interrupts<E>) returns (applied: bool)
      requires Valid() && |view.stack| == 1
      requires view.stack[0].Applying? && view.stack[0].event == event && view.stack[0].at.Incoming?
      modifies this
      decreases 2
      ensures Valid() && old(run) <= run
      ensures view.stack == [old(view).stack[0].(at := Leave(applied))]
      ensures applied == code.table(old(state), event) && old(view).accepted <= view.accepted
      ensures view.log == old(view).log + [Dispatched(event, false, old(state), state, applied)]
      ensures state == if applied then code.next(old(state), event) else old(state)
    {
      hide Reached;
      applied := code.table(state, event);
      Advance(Step);
      if applied {
        Transition(event, interrupts(5));
      }
      Interrupt(interrupts(6));
    }

    lemma OnlyTransitionsCall()
      requires Valid() && (view.stack == [] || Running(Top(view)))
      ensures processingEvent <==> view.stack != []
    {
      hide Reached;
      ReachedHasInv(code.table, initial, run, view);
    }

    /**
     The call is refused exactly if the guard is set. Otherwise the event is given to the chart after
     every event that had been accepted before, and the result says whether it had a transition.
     */
    method ApplyEvent(event: E, interrupts: Interrupts<E>) returns (applied: bool)
      requires Valid() && (view.stack == [] || Running(Top(view)))
      modifies this
      decreases if processingEvent then 0 else 5
      ensures Valid() && old(run) <= run && view.stack == old(view).stack
      ensures old(processingEvent) ==> !applied && view == old(view)
      ensures !old(processingEvent) ==> !processingEvent && old(view).log <= view.log && |view.log| > |old(view).log|
      ensures !old(processingEvent) ==>
                var d := view.log[|view.log| - 1];
                && d.event == event && !d.queued && d.to == state
                && applied == d.ran == code.table(d.from, event)
                && (applied ==> state == code.next(d.from, event))
      ensures !old(processingEvent) ==> old(view).accepted <= Consumed(view.log)
    {
      hide Reached, Consumed;
      OnlyTransitionsCall();
      if processingEvent {
        RefuseApply(event);
        return false;
      }
      applied := ApplyExclusively(event, interrupts);
    }

    // ApplyEvent takes the guard.
    method ApplyExclusively(event: E, interrupts: Interrupts<E>) returns (applied: bool)
      requires Valid() && view.stack == [] && !processingEvent
      modifies this
      decreases 4
      ensures Valid() && old(run) <= run && view.stack == [] && !processingEvent
      ensures old(view).log <= view.log && |view.log| > |old(view).log|
      ensures var d := view.log[|view.log| - 1];
              && d.event == event && !d.queued && d.to == state
              && applied == d.ran == code.table(d.from, event)
              && (applied ==> state == code.next(d.from, event))
      ensures old(view).accepted <= Consumed(view.log)
    {
      hide Reached, Consumed;
      ghost var before := |view.accepted|;
      Advance(Begin(ApplyCall(event)));
      assert view.stack == [Applying(event, before, Enter)];
      processingEvent := true;
      Advance(Step);
      assert view.stack == [Applying(event, before, TakeFlag)];
      ApplyQueued(interrupts);
      applied := ApplyIncoming(event, interrupts);
      EarlierEventsComeFirst(code.table, initial, run, view, 0);
      processingEvent := false;
      Advance(Step);
    }

    // A call that finds the guard set.
    ghost method RefuseApply(event: E)
      requires Valid() && processingEvent
      modifies this`run, this`view
      ensures Valid() && old(run) <= run && view == old(view)
    {
      hide Reached;
      Advance(Begin(ApplyCall(event)));
      Advance(Step);
      assert view.stack == old(view).stack;
    }

    ghost method RefuseProcess()
      requires Valid() && processingEvent
      modifies this`run, this`view
      ensures Valid() && old(run) <= run && view == old(view)
    {
      hide Reached;
      Advance(Begin(ProcessCall));
      Advance(Step);
      if hasEnqueuedEvent {
        Advance(Step);
      }
      assert view.stack == old(view).stack;
    }

    lemma NothingIsWaiting()
      requires Valid() && view.stack == [] && !hasEnqueuedEvent
      ensures view.accepted == Consumed(view.log)
    {
      hide Reached, Consumed;
      AcceptedEventsAreConsumedOnce(code.table, initial, run, view);
      FilledSlotIsFlagged(code.table, initial, run, view);
    }

    /** All events that had been accepted before are given to the chart, unless the guard is set. */
    method ProcessEnqueuedEvent(interrupts: Interrupts<E>)
      requires Valid() && (view.stack == [] || Running(Top(view)))
      modifies this
      decreases if processingEvent then 0 else 5
      ensures Valid() && old(run) <= run && view.stack == old(view).stack
      ensures old(processingEvent) ==> view == old(view)
      ensures !old(processingEvent) ==> !processingEvent && old(view).log <= view.log
      ensures !old(processingEvent) ==> old(view).accepted <= Consumed(view.log)
    {
      hide Reached, Consumed;
      OnlyTransitionsCall();
      if processingEvent {
        RefuseProcess();
      }
      if hasEnqueuedEvent {
        if !processingEvent {
          ProcessExclusively(interrupts);
        }
      } else if view.stack == [] {
        SeeNothing();
        NothingIsWaiting();
      }
    }

    // A call that finds the flag clear.
    ghost method SeeNothing()
      requires Valid() && view.stack == [] && !hasEnqueuedEvent
      modifies this`run, this`view
      ensures Valid() && old(run) <= run && view == old(view)
    {
      hide Reached;
      Advance(Begin(ProcessCall));
      Advance(Step);
      assert view.stack == old(view).stack;
    }

    // ProcessEnqueuedEvent has seen the flag, and takes the guard.
    method ProcessExclusively(interrupts: Interrupts<E>)
      requires Valid() && view.stack == [] && hasEnqueuedEvent && !processingEvent
      modifies this
      decreases 4
      ensures Valid() && old(run) <= run && view.stack == [] && !processingEvent
      ensures old(view).log <= view.log && old(view).accepted <= Consumed(view.log)
    {
      hide Reached, Consumed;
      ghost var before := |view.accepted|;
      Advance(Begin(ProcessCall));
      Advance(Step);
      assert view.stack == [Processing(before, Acquire)];
      Interrupt(interrupts(0));
      processingEvent := true;
      Advance(Step);
      assert view.stack == [Processing(before, CopySlot)];
      ProcessQueued(interrupts);
      ProcessingEmptiesTheMailbox(code.table, initial, run, view, 0);
      processingEvent := false;
      Advance(Step);
    }

    // A copied event is given to the chart.
    method ProcessCopy(ee: E, interrupts: Interrupts<E>)
      requires Valid() && |view.stack| == 1 && view.stack[0].Processing? && view.stack[0].point == Dispatch(ee)
      modifies this
      decreases 2
      ensures Valid() && old(run) <= run && old(view).log <= view.log && old(view).accepted <= view.accepted
      ensures view.stack == [old(view).stack[0].(point := Release)]
    {
      hide Reached;
      var runs := code.table(state, ee);
      Advance(Step);
      if runs {
        Transition(ee, interrupts(4));
      }
    }

    // The event in the slot is copied, and the mailbox is opened again.
    method TakeCopy(interrupts: Interrupts<E>)
      requires Valid() && |view.stack| == 1 && view.stack[0].Processing?
      requires enqueuedEvent.Some? && view.stack[0].point == ResetCopied(enqueuedEvent.value) && hasEnqueuedEvent
      modifies this
      ensures Valid() && old(run) <= run && view.log == old(view).log && old(view).accepted <= view.accepted
      ensures view.stack == [old(view).stack[0].(point := Dispatch(old(enqueuedEvent).value))]
    {
      hide Reached;
      Interrupt(interrupts(1));
      enqueuedEvent := None;
      Advance(Step);
      Interrupt(interrupts(2));
      hasEnqueuedEvent := false;
      Advance(Step);
      Interrupt(interrupts(3));
    }

    // ProcessEnqueuedEvent holds the guard.
    method ProcessQueued(interrupts: Interrupts<E>)
      requires Valid() && |view.stack| == 1 && view.stack[0].Processing? && view.stack[0].point.CopySlot? && hasEnqueuedEvent
      modifies this
      decreases 3
      ensures Valid() && old(run) <= run && old(view).log <= view.log && old(view).accepted <= view.accepted
      ensures view.stack == [old(view).stack[0].(point := Release)]
    {
      hide Reached;
      Advance(Step);
      if enqueuedEvent.Some? {
        var ee := enqueuedEvent.value;
        TakeCopy(interrupts);
        ProcessCopy(ee, interrupts);
      } else {
        Interrupt(interrupts(1));
        hasEnqueuedEvent := false;
        Advance(Step);
      }
      Interrupt(interrupts(5));
    }
  }
}
