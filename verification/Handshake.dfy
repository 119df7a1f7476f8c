/**
 The handshake by which the scheduler and the simulated threads, which are real threads, take
 turns: the system mutex, the wakeup request of each thread, the flag that tells the scheduler
 that the thread it woke is blocked again, and the startup latch.

 Each party is a program counter, and every interleaving of their atomic actions is a behaviour.
 A wait with a timeout on the condition variable is a poll: the thread may take the mutex, look at
 its wakeup request, and release the mutex again at any time.
 */
module Handshake {
  import opened Wrappers

  datatype Owner = Nobody | Sched | Thread(i: nat)

  datatype SchedPc =
    | Boot                 // holds the mutex, the simulation has not been started
    | AwaitLatch           // waits until all threads have passed the latch
    | AwaitMutex           // locks the mutex again
    | Building             // holds the mutex, builds the priority brackets
    | Scanning             // looks for the next item to run, or executes code of the test bench
    | Waking(i: nat)       // has cleared the blocked flag, is about to request a wakeup of i
    | Awaiting(i: nat)     // waits until the blocked flag is set
    | Callback             // executes the callback of an external event

  datatype ThreadPc =
    | Fresh                // has not entered InitializeThread
    | Registering          // holds the mutex, adds itself to the scheduler
    | Registered           // locks the mutex for good
    | Initializing         // holds the mutex, sets its timeout to the epoch
    | Blocking             // holds the mutex, is about to set the blocked flag
    | Checking             // holds the mutex, is about to look at its wakeup request
    | Sleeping             // waits on its condition variable
    | User                 // holds the mutex, executes application code
    | Stopping             // holds the mutex, has marked itself as stopped
    | Leaving              // has released the mutex, is about to set the blocked flag
    | Gone

  datatype State = State(
    owner: Owner,
    latch: nat,
    blocked: bool,
    sched: SchedPc,
    pc: seq<ThreadPc>,
    wakeup: seq<bool>)

  ghost predicate Init(s: State) {
    && s.owner == Sched && s.sched == Boot && !s.blocked
    && s.latch == |s.pc| == |s.wakeup|
    && (forall i :: 0 <= i < |s.pc| ==> s.pc[i] == Fresh && !s.wakeup[i])
  }

  // ---------------------------------------------------------------------------------------
  // The scheduler's actions

  ghost predicate SchedStep(s: State, s': State) {
    || (s.sched == Boot && s' == s.(owner := Nobody, sched := AwaitLatch))
    || (s.sched == AwaitLatch && s.latch == 0 && s' == s.(sched := AwaitMutex))
    || (s.sched == AwaitMutex && s.owner == Nobody && s' == s.(owner := Sched, sched := Building))
    || (s.sched == Building && s' == s.(owner := Nobody, sched := Scanning))
    || (s.sched == Scanning && s' == s.(blocked := false, sched := Callback))
    || (s.sched == Callback && s' == s.(blocked := true, sched := Scanning))
    || (s.sched == Scanning && s'.sched.Waking? && Alive(s, s'.sched.i) && s' == s.(blocked := false, sched := s'.sched))
    || (s.sched.Waking? && s.sched.i < |s.wakeup|
        && s' == s.(wakeup := s.wakeup[s.sched.i := true], sched := Awaiting(s.sched.i)))
    || (s.sched.Awaiting? && s.blocked && s' == s.(sched := Scanning))
  }

  // Only threads that have not stopped are pending.
  ghost predicate Alive(s: State, i: nat) {
    i < |s.pc| && (s.pc[i].Blocking? || s.pc[i].Checking? || s.pc[i].Sleeping? || s.pc[i].User?)
  }

  // ---------------------------------------------------------------------------------------
  // The actions of thread number i

  ghost predicate Goto(s: State, s': State, i: nat, pc: ThreadPc)
    requires i < |s.pc|
  {
    s' == s.(pc := s.pc[i := pc])
  }

  ghost predicate Lock(s: State, s': State, i: nat, pc: ThreadPc)
    requires i < |s.pc|
  {
    s.owner == Nobody && s' == s.(owner := Thread(i), pc := s.pc[i := pc])
  }

  ghost predicate Unlock(s: State, s': State, i: nat, pc: ThreadPc)
    requires i < |s.pc|
  {
    s' == s.(owner := Nobody, pc := s.pc[i := pc])
  }

  ghost predicate ThreadStep(s: State, s': State, i: nat)
    requires i < |s.pc| && |s.wakeup| == |s.pc|
  {
    match s.pc[i]
    case Fresh => Lock(s, s', i, Registering)
    case Registering => Unlock(s, s', i, Registered)
    case Registered => Lock(s, s', i, Initializing)
    case Initializing => s.latch > 0 && s' == s.(latch := s.latch - 1, pc := s.pc[i := Blocking])
    case Blocking => s' == s.(blocked := true, pc := s.pc[i := Checking])
    case Checking =>
      if s.wakeup[i] then s' == s.(wakeup := s.wakeup[i := false], pc := s.pc[i := User])
      else Unlock(s, s', i, Sleeping)
    case Sleeping => Lock(s, s', i, Checking)
    case User => Goto(s, s', i, Blocking) || Goto(s, s', i, Stopping)
    case Stopping => Unlock(s, s', i, Leaving)
    case Leaving => s' == s.(blocked := true, pc := s.pc[i := Gone])
    case Gone => false
  }

  ghost predicate Next(s: State, s': State) {
    SchedStep(s, s') || exists i: nat :: i < |s.pc| && |s.wakeup| == |s.pc| && ThreadStep(s, s', i)
  }

  // ---------------------------------------------------------------------------------------
  // The inductive invariant

  predicate HoldsMutex(pc: ThreadPc) {
    pc.Registering? || pc.Initializing? || pc.Blocking? || pc.Checking? || pc.User? || pc.Stopping?
  }

  predicate BeforeLatch(pc: ThreadPc) {
    pc.Fresh? || pc.Registering? || pc.Registered? || pc.Initializing?
  }

  // The thread waits for its turn, or has left for good.
  predicate AtRest(pc: ThreadPc) {
    pc.Checking? || pc.Sleeping? || pc.Gone?
  }

  function NotPassed(pc: seq<ThreadPc>): nat {
    if pc == [] then 0 else (if BeforeLatch(pc[|pc| - 1]) then 1 else 0) + NotPassed(pc[..|pc| - 1])
  }

  // What thread i and its wakeup request can be, given where the scheduler is.
  predicate ThreadInvariant(s: State, i: nat)
    requires i < |s.pc| && |s.wakeup| == |s.pc|
  {
    match s.sched
    case Boot => s.pc[i] == Fresh && !s.wakeup[i]
    case AwaitLatch => (BeforeLatch(s.pc[i]) || (s.pc[i].Blocking? || s.pc[i].Checking? || s.pc[i].Sleeping?)) && !s.wakeup[i]
    case AwaitMutex => (s.pc[i].Blocking? || s.pc[i].Checking? || s.pc[i].Sleeping?) && !s.wakeup[i]
    case Building => s.pc[i] == Sleeping && !s.wakeup[i]
    case Scanning => AtRest(s.pc[i]) && !s.wakeup[i]
    case Callback => AtRest(s.pc[i]) && !s.wakeup[i]
    case Waking(j) => AtRest(s.pc[i]) && !s.wakeup[i] && (i == j ==> s.pc[i] != Gone)
    case Awaiting(j) =>
      if i != j then AtRest(s.pc[i]) && !s.wakeup[i]
      else if s.blocked then AtRest(s.pc[i]) && !s.wakeup[i]
      else if s.wakeup[i] then (s.pc[i].Checking? || s.pc[i].Sleeping?)
      else (s.pc[i].User? || s.pc[i].Blocking? || s.pc[i].Stopping? || s.pc[i].Leaving?)
  }

  ghost predicate Invariant(s: State) {
    && |s.wakeup| == |s.pc|
    && (s.owner == Sched <==> (s.sched.Boot? || s.sched.Building?))
    && (s.owner.Thread? ==> s.owner.i < |s.pc|)
    && (forall i :: 0 <= i < |s.pc| ==> (HoldsMutex(s.pc[i]) <==> s.owner == Thread(i)))
    && (forall i :: 0 <= i < |s.pc| ==> ThreadInvariant(s, i))
    && (s.sched.Waking? || s.sched.Awaiting? ==> s.sched.i < |s.pc|)
    && (s.sched.Waking? ==> !s.blocked)
    && s.latch == NotPassed(s.pc)
  }

  lemma {:induction false} NotPassedUpdate(pc: seq<ThreadPc>, i: nat, p: ThreadPc)
    requires i < |pc|
    ensures NotPassed(pc[i := p]) + (if BeforeLatch(pc[i]) then 1 else 0) == NotPassed(pc) + (if BeforeLatch(p) then 1 else 0)
    decreases |pc|
  {
    var last := |pc| - 1;
    if i < last {
      NotPassedUpdate(pc[..last], i, p);
      assert pc[i := p][..last] == pc[..last][i := p];
    } else {
      assert pc[i := p][..last] == pc[..last];
    }
  }

  lemma {:induction false} NonePassed(pc: seq<ThreadPc>)
    ensures NotPassed(pc) == 0 <==> forall i :: 0 <= i < |pc| ==> !BeforeLatch(pc[i])
    ensures (forall i :: 0 <= i < |pc| ==> BeforeLatch(pc[i])) ==> NotPassed(pc) == |pc|
    decreases |pc|
  {
    if pc != [] {
      NonePassed(pc[..|pc| - 1]);
    }
  }

  lemma InitHolds(s: State)
    requires Init(s)
    ensures Invariant(s)
  {
    NonePassed(s.pc);
  }

  lemma SchedStepKeeps(s: State, s': State)
    requires Invariant(s) && SchedStep(s, s')
    ensures Invariant(s')
  {
    NonePassed(s.pc);
    forall j | 0 <= j < |s.pc|
      ensures ThreadInvariant(s', j)
    {
      assert ThreadInvariant(s, j);
      assert HoldsMutex(s.pc[j]) <==> s.owner == Thread(j);
    }
  }

  // What a step of thread i leaves true of thread j.
  lemma ThreadStepAt(s: State, s': State, i: nat, j: nat)
    requires i < |s.pc| && j < |s.pc| && |s.wakeup| == |s.pc|
    requires ThreadStep(s, s', i)
    requires ThreadInvariant(s, i) && ThreadInvariant(s, j)
    requires HoldsMutex(s.pc[i]) <==> s.owner == Thread(i)
    requires HoldsMutex(s.pc[j]) <==> s.owner == Thread(j)
    requires s.sched.Boot? || s.sched.Building? ==> s.owner == Sched
    ensures |s'.pc| == |s'.wakeup| == |s.pc| && s'.pc == s.pc[i := s'.pc[i]] && s'.sched == s.sched
    ensures ThreadInvariant(s', j)
    ensures HoldsMutex(s'.pc[j]) <==> s'.owner == Thread(j)
    ensures s'.owner == s.owner || s'.owner == Nobody || (s.owner == Nobody && s'.owner == Thread(i))
    ensures s.owner == Sched ==> s'.owner == Sched
    ensures s'.latch + (if BeforeLatch(s.pc[i]) then 1 else 0) == s.latch + (if BeforeLatch(s'.pc[i]) then 1 else 0)
  {
  }

  lemma ThreadStepKeeps(s: State, s': State, i: nat)
    requires Invariant(s) && i < |s.pc| && ThreadStep(s, s', i)
    ensures Invariant(s')
  {
    forall j | 0 <= j < |s.pc|
      ensures |s'.pc| == |s'.wakeup| == |s.pc| && ThreadInvariant(s', j)
      ensures HoldsMutex(s'.pc[j]) <==> s'.owner == Thread(j)
    {
      ThreadStepAt(s, s', i, j);
    }
    ThreadStepAt(s, s', i, i);
    NotPassedUpdate(s.pc, i, s'.pc[i]);
    hide ThreadStep, ThreadInvariant;
  }

  // ---------------------------------------------------------------------------------------
  // Mutual exclusion over every behaviour

  ghost predicate Behaviour(states: seq<State>) {
    && states != [] && Init(states[0])
    && forall k :: 0 <= k < |states| - 1 ==> Next(states[k], states[k + 1])
  }

  lemma {:induction false} InvariantHolds(states: seq<State>, k: nat)
    requires Behaviour(states) && k < |states|
    ensures Invariant(states[k])
    decreases k
  {
    if k == 0 {
      InitHolds(states[0]);
    } else {
      InvariantHolds(states, k - 1);
      var s, s' := states[k - 1], states[k];
      assert Next(states[k - 1], states[k - 1 + 1]);
      if SchedStep(s, s') {
        SchedStepKeeps(s, s');
      } else {
        var i: nat :| i < |s.pc| && ThreadStep(s, s', i);
        ThreadStepKeeps(s, s', i);
      }
    }
  }

  /** The parties that execute code that reads and writes the simulation. */
  datatype Party = Scan | EventCallback | UserCode(i: nat)

  ghost predicate Executes(s: State, p: Party) {
    match p
    case Scan => s.sched.Building? || s.sched.Scanning?
    case EventCallback => s.sched == Callback
    case UserCode(i) => i < |s.pc| && s.pc[i] == User
  }

  /**
   At any time at most one of these executes: the application code of a thread, the callback of an
   external event, the scheduler's scan of its items. While the scheduler scans, no thread has an
   outstanding wakeup request.
   */
  lemma MutualExclusion(states: seq<State>, k: nat, p: Party, q: Party)
    requires Behaviour(states) && k < |states|
    requires Executes(states[k], p) && Executes(states[k], q)
    ensures p == q
    ensures p == Scan ==> forall i :: 0 <= i < |states[k].pc| ==> AtRest(states[k].pc[i])
    ensures p == Scan ==> forall i :: 0 <= i < |states[k].wakeup| ==> !states[k].wakeup[i]
  {
    InvariantHolds(states, k);
    var s := states[k];
    if p == Scan {
      forall i | 0 <= i < |s.pc|
        ensures AtRest(s.pc[i]) && !s.wakeup[i]
      {
        assert ThreadInvariant(s, i);
      }
    }
    assert p.UserCode? ==> ThreadInvariant(s, p.i);
    assert q.UserCode? ==> ThreadInvariant(s, q.i);
  }

  // ---------------------------------------------------------------------------------------
  // The handshake refines taking turns

  datatype Turn = StartingUp | SchedulersTurn | ThreadsTurn(i: nat) | EventsTurn

  function TurnOf(s: State): Turn {
    match s.sched
    case Boot => StartingUp
    case AwaitLatch => StartingUp
    case AwaitMutex => StartingUp
    case Building => SchedulersTurn
    case Scanning => SchedulersTurn
    case Callback => EventsTurn
    case Waking(i) => ThreadsTurn(i)
    case Awaiting(i) => if s.blocked then SchedulersTurn else ThreadsTurn(i)
  }

  // Turns are handed out by the scheduler and go back to it.
  predicate TurnStep(t: Turn, t': Turn) {
    || t' == t
    || (t == StartingUp && t' == SchedulersTurn)
    || (t == SchedulersTurn && (t'.ThreadsTurn? || t' == EventsTurn))
    || (t.ThreadsTurn? && t' == SchedulersTurn)
    || (t == EventsTurn && t' == SchedulersTurn)
  }

  lemma ThreadTakesTurn(s: State, s': State, i: nat)
    requires i < |s.pc| && |s.wakeup| == |s.pc|
    requires ThreadStep(s, s', i) && ThreadInvariant(s, i)
    ensures TurnOf(s) == TurnOf(s')
         || ( && TurnOf(s) == ThreadsTurn(i) && TurnOf(s') == SchedulersTurn
              && i < |s'.pc| == |s'.wakeup| == |s.pc| && !s'.wakeup[i]
              && (s.pc[i].Blocking? || s.pc[i].Leaving?) && (s'.pc[i].Checking? || s'.pc[i].Gone?))
  {
  }

  /**
   The handshake refines taking turns: every step passes the turn on or leaves it where it is,
   application code only runs in the turn of its thread, and only the thread itself ends its turn, by
   blocking or by leaving, with its wakeup request used up.
   */
  lemma RefinesTakingTurns(s: State, s': State)
    requires Invariant(s) && Next(s, s')
    ensures TurnStep(TurnOf(s), TurnOf(s'))
    ensures forall i :: 0 <= i < |s.pc| && s.pc[i] == User ==> TurnOf(s) == ThreadsTurn(i)
    ensures forall i: nat :: TurnOf(s) == ThreadsTurn(i) && TurnOf(s') == SchedulersTurn ==>
              && i < |s.pc| == |s'.pc| == |s'.wakeup|
              && (s.pc[i].Blocking? || s.pc[i].Leaving?) && (s'.pc[i].Checking? || s'.pc[i].Gone?) && !s'.wakeup[i]
  {
    forall i | 0 <= i < |s.pc| && s.pc[i] == User
      ensures TurnOf(s) == ThreadsTurn(i)
    {
      assert ThreadInvariant(s, i);
    }
    if !SchedStep(s, s') {
      var i: nat :| i < |s.pc| && ThreadStep(s, s', i);
      ThreadTakesTurn(s, s', i);
    }
  }

  // ---------------------------------------------------------------------------------------
  // No wakeup is lost

  ghost predicate CanStep(s: State, i: nat) {
    i < |s.pc| && |s.wakeup| == |s.pc| && exists s' :: ThreadStep(s, s', i)
  }

  // A thread that holds the mutex can always go on.
  lemma OwnerCanStep(s: State, i: nat)
    requires Invariant(s) && s.owner == Thread(i)
    ensures CanStep(s, i)
  {
    assert i < |s.pc| && HoldsMutex(s.pc[i]);
    match s.pc[i]
    case Registering => assert ThreadStep(s, s.(owner := Nobody, pc := s.pc[i := Registered]), i);
    case Initializing =>
      NonePassed(s.pc);
      assert ThreadStep(s, s.(latch := s.latch - 1, pc := s.pc[i := Blocking]), i);
    case Blocking => assert ThreadStep(s, s.(blocked := true, pc := s.pc[i := Checking]), i);
    case Checking =>
      if s.wakeup[i] {
        assert ThreadStep(s, s.(wakeup := s.wakeup[i := false], pc := s.pc[i := User]), i);
      } else {
        assert ThreadStep(s, s.(owner := Nobody, pc := s.pc[i := Sleeping]), i);
      }
    case User => assert ThreadStep(s, s.(pc := s.pc[i := Blocking]), i);
    case Stopping => assert ThreadStep(s, s.(owner := Nobody, pc := s.pc[i := Leaving]), i);
  }

  /** The handshake never blocks for good: in every reachable state the scheduler or some thread can go on. */
  lemma NoDeadlock(s: State)
    requires Invariant(s)
    ensures (exists s' :: SchedStep(s, s')) || exists i: nat :: CanStep(s, i)
  {
    if s.owner.Thread? {
      OwnerCanStep(s, s.owner.i);
    } else {
      match s.sched
      case Boot => assert SchedStep(s, s.(owner := Nobody, sched := AwaitLatch));
      case AwaitLatch =>
        if s.latch == 0 {
          assert SchedStep(s, s.(sched := AwaitMutex));
        } else {
          NonePassed(s.pc);
          var i :| 0 <= i < |s.pc| && BeforeLatch(s.pc[i]);
          var pc := if s.pc[i] == Fresh then Registering else Initializing;
          assert ThreadStep(s, s.(owner := Thread(i), pc := s.pc[i := pc]), i);
          assert CanStep(s, i);
        }
      case AwaitMutex => assert SchedStep(s, s.(owner := Sched, sched := Building));
      case Building => assert SchedStep(s, s.(owner := Nobody, sched := Scanning));
      case Scanning => assert SchedStep(s, s.(blocked := false, sched := Callback));
      case Callback => assert SchedStep(s, s.(blocked := true, sched := Scanning));
      case Waking(i) => assert SchedStep(s, s.(wakeup := s.wakeup[i := true], sched := Awaiting(i)));
      case Awaiting(i) =>
        if s.blocked {
          assert SchedStep(s, s.(sched := Scanning));
        } else {
          assert ThreadInvariant(s, i);
          if s.pc[i] == Sleeping {
            assert ThreadStep(s, s.(owner := Thread(i), pc := s.pc[i := Checking]), i);
          } else {
            assert ThreadStep(s, s.(blocked := true, pc := s.pc[i := Gone]), i);
          }
          assert CanStep(s, i);
        }
    }
  }

  // ---------------------------------------------------------------------------------------
  // No wakeup is lost: the scheduler's turn always comes back

  function ThreadRank(pc: ThreadPc): nat {
    match pc
    case Fresh => 6
    case Registering => 5
    case Registered => 4
    case Initializing => 3
    case Blocking => 2
    case Checking => 1
    case _ => 0
  }

  function StartupRank(pc: seq<ThreadPc>): nat {
    if pc == [] then 0 else ThreadRank(pc[|pc| - 1]) + StartupRank(pc[..|pc| - 1])
  }

  lemma {:induction false} StartupRankUpdate(pc: seq<ThreadPc>, i: nat, p: ThreadPc)
    requires i < |pc|
    ensures StartupRank(pc[i := p]) + ThreadRank(pc[i]) == StartupRank(pc) + ThreadRank(p)
    decreases |pc|
  {
    var last := |pc| - 1;
    if i < last {
      StartupRankUpdate(pc[..last], i, p);
      assert pc[i := p][..last] == pc[..last][i := p];
    } else {
      assert pc[i := p][..last] == pc[..last];
    }
  }

  // How far the thread whose turn it is has to go until it gives the turn back.
  function TurnRank(s: State): nat {
    match s.sched
    case Awaiting(i) =>
      if s.blocked || i >= |s.pc| then 1
      else
        (match s.pc[i]
         case Sleeping => 6
         case Checking => 5
         case User => 4
         case Stopping => 3
         case _ => 2)
    case _ => 0
  }

  // How many steps it takes until the scheduler scans, if the right party goes on each time.
  function Rank(s: State): nat {
    match s.sched
    case Boot => StartupRank(s.pc) + 5
    case AwaitLatch => StartupRank(s.pc) + 4
    case AwaitMutex => StartupRank(s.pc) + 3
    case Building => 1
    case Scanning => 0
    case Callback => 1
    case Waking(_) => 8
    case Awaiting(i) => TurnRank(s) + if s.owner.Thread? && s.owner.i != i then 1 else 0
  }

  // What thread i does next. Application code blocks sooner or later.
  function Move(s: State, i: nat): State
    requires i < |s.pc| == |s.wakeup|
  {
    match s.pc[i]
    case Fresh => s.(owner := Thread(i), pc := s.pc[i := Registering])
    case Registering => s.(owner := Nobody, pc := s.pc[i := Registered])
    case Registered => s.(owner := Thread(i), pc := s.pc[i := Initializing])
    case Initializing => s.(latch := if s.latch > 0 then s.latch - 1 else 0, pc := s.pc[i := Blocking])
    case Blocking => s.(blocked := true, pc := s.pc[i := Checking])
    case Checking =>
      if s.wakeup[i] then s.(wakeup := s.wakeup[i := false], pc := s.pc[i := User])
      else s.(owner := Nobody, pc := s.pc[i := Sleeping])
    case Sleeping => s.(owner := Thread(i), pc := s.pc[i := Checking])
    case User => s.(pc := s.pc[i := Blocking])
    case Stopping => s.(owner := Nobody, pc := s.pc[i := Leaving])
    case Leaving => s.(blocked := true, pc := s.pc[i := Gone])
    case Gone => s
  }

  lemma Moves(s: State, i: nat)
    requires i < |s.pc| == |s.wakeup| && s.pc[i] != Gone
    requires s.pc[i].Fresh? || s.pc[i].Registered? || s.pc[i].Sleeping? ==> s.owner == Nobody
    requires s.pc[i].Initializing? ==> s.latch > 0
    ensures Next(s, Move(s, i))
  {
    assert ThreadStep(s, Move(s, i), i);
  }

  // Until the scheduler scans for the first time.
  lemma StartupGetsCloser(s: State) returns (s': State)
    requires Invariant(s) && (s.sched.Boot? || s.sched.AwaitLatch? || s.sched.AwaitMutex? || s.sched.Building?)
    ensures Next(s, s') && Rank(s') < Rank(s)
  {
    NonePassed(s.pc);
    if s.sched == Boot {
      s' := s.(owner := Nobody, sched := AwaitLatch);
      assert SchedStep(s, s');
    } else if s.sched == Building {
      s' := s.(owner := Nobody, sched := Scanning);
      assert SchedStep(s, s');
    } else if s.owner.Thread? {
      var i := s.owner.i;
      assert ThreadInvariant(s, i) && HoldsMutex(s.pc[i]);
      s' := Move(s, i);
      Moves(s, i);
      StartupRankUpdate(s.pc, i, s'.pc[i]);
    } else if s.sched == AwaitMutex {
      s' := s.(owner := Sched, sched := Building);
      assert SchedStep(s, s');
    } else if s.latch == 0 {
      s' := s.(sched := AwaitMutex);
      assert SchedStep(s, s');
    } else {
      var i :| 0 <= i < |s.pc| && BeforeLatch(s.pc[i]);
      assert HoldsMutex(s.pc[i]) <==> s.owner == Thread(i);
      s' := Move(s, i);
      Moves(s, i);
      StartupRankUpdate(s.pc, i, s'.pc[i]);
    }
  }

  // While the scheduler awaits the thread that it has woken.
  lemma TurnGetsCloser(s: State) returns (s': State)
    requires Invariant(s) && s.sched.Awaiting? && !s.blocked
    ensures Next(s, s') && Rank(s') < Rank(s)
  {
    var i := s.sched.i;
    assert ThreadInvariant(s, i);
    // Another thread that holds the mutex polls: it finds no request, and releases the mutex.
    var j := if s.owner.Thread? then s.owner.i else i;
    assert ThreadInvariant(s, j) && (HoldsMutex(s.pc[j]) <==> s.owner == Thread(j));
    s' := Move(s, j);
    Moves(s, j);
  }

  lemma GetsCloser(s: State) returns (s': State)
    requires Invariant(s) && s.sched != Scanning
    ensures Next(s, s') && Rank(s') < Rank(s)
  {
    match s.sched
    case Callback =>
      s' := s.(blocked := true, sched := Scanning);
      assert SchedStep(s, s');
    case Waking(i) =>
      s' := s.(wakeup := s.wakeup[i := true], sched := Awaiting(i));
      assert SchedStep(s, s');
    case Awaiting(_) =>
      if s.blocked {
        s' := s.(sched := Scanning);
        assert SchedStep(s, s');
      } else {
        s' := TurnGetsCloser(s);
      }
    case _ => s' := StartupGetsCloser(s);
  }

  lemma NextKeeps(s: State, s': State)
    requires Invariant(s) && Next(s, s')
    ensures Invariant(s')
  {
    if SchedStep(s, s') {
      SchedStepKeeps(s, s');
    } else {
      var i: nat :| i < |s.pc| && ThreadStep(s, s', i);
      ThreadStepKeeps(s, s', i);
    }
  }

  ghost predicate Path(states: seq<State>) {
    forall k :: 0 <= k < |states| - 1 ==> Next(states[k], states[k + 1])
  }

  /**
   From every reachable state the scheduler comes back to its scan, within Rank steps: 8 after it has woken
   a thread, however the threads have polled before.
   */
  lemma ReturnsToScan(s: State) returns (states: seq<State>)
    requires Invariant(s)
    ensures states != [] && states[0] == s && Path(states)
    ensures states[|states| - 1].sched == Scanning && |states| <= Rank(s) + 1
    decreases Rank(s)
  {
    hide Invariant, Next, Rank;
    if s.sched == Scanning {
      states := [s];
    } else {
      var s' := GetsCloser(s);
      NextKeeps(s, s');
      var rest := ReturnsToScan(s');
      states := [s] + rest;
      forall k | 0 <= k < |states| - 1
        ensures Next(states[k], states[k + 1])
      {
        assert k > 0 ==> Next(rest[k - 1], rest[k - 1 + 1]);
      }
    }
  }

  /**
   Nothing delays a turn: while the scheduler awaits thread i, every step of that thread lowers the rank of its turn,
   and no step of another party, which can only poll, raises it.
   */
  lemma PollsDoNotDelay(s: State, s': State, i: nat)
    requires Invariant(s) && Next(s, s') && s.sched == Awaiting(i) && !s.blocked
    ensures s'.sched == Awaiting(i) && TurnRank(s') <= TurnRank(s)
    ensures |s'.pc| == |s.pc| == |s.wakeup| && i < |s.pc|
    ensures s'.pc[i] != s.pc[i] ==> TurnRank(s') < TurnRank(s)
    ensures forall j: nat :: j < |s.pc| && j != i && s'.pc[j] != s.pc[j] ==>
              (s.pc[j].Sleeping? && s'.pc[j].Checking?) || (s.pc[j].Checking? && s'.pc[j].Sleeping?)
  {
    assert ThreadInvariant(s, i);
    var j: nat :| j < |s.pc| && ThreadStep(s, s', j);
    assert ThreadInvariant(s, j);
    assert j != i ==> AtRest(s.pc[j]) && !s.wakeup[j];
  }

  // The scheduler awaits thread i.
  predicate HasTurn(s: State, i: nat) {
    s.sched == Awaiting(i) && !s.blocked
  }

  predicate Moved(s: State, s': State, i: nat) {
    i < |s.pc| && i < |s'.pc| && s'.pc[i] != s.pc[i]
  }

  // How many steps thread i has taken after k steps.
  function Taken(states: seq<State>, i: nat, k: nat): nat
    requires k < |states|
  {
    if k == 0 then 0 else Taken(states, i, k - 1) + if Moved(states[k - 1], states[k], i) then 1 else 0
  }

  lemma {:induction false} TurnWearsOff(states: seq<State>, i: nat, k: nat)
    requires states != [] && Path(states) && Invariant(states[0]) && HasTurn(states[0], i) && k < |states|
    requires forall j :: 0 <= j < k ==> HasTurn(states[j], i)
    ensures Invariant(states[k])
    ensures k > 0 ==> states[k].sched == Awaiting(i)
    ensures TurnRank(states[k]) + Taken(states, i, k) <= TurnRank(states[0])
    decreases k
  {
    hide Invariant, Next, TurnRank;
    if k > 0 {
      TurnWearsOff(states, i, k - 1);
      var s, s' := states[k - 1], states[k];
      assert Next(states[k - 1], states[k - 1 + 1]);
      NextKeeps(s, s');
      PollsDoNotDelay(s, s', i);
    }
  }

  /**
   A turn ends: on every path on which the awaited thread takes as many steps as its rank, less one, whatever the other
   threads do in between, it gives the turn back.
   */
  lemma TurnEnds(states: seq<State>, i: nat)
    requires states != [] && Path(states) && Invariant(states[0]) && HasTurn(states[0], i)
    requires Taken(states, i, |states| - 1) >= TurnRank(states[0]) - 1
    ensures exists k :: 0 <= k < |states| && states[k].sched == Awaiting(i) && states[k].blocked
  {
    var last := |states| - 1;
    if j :| 0 <= j <= last && !HasTurn(states[j], i) {
      FirstEnd(states, i, j);
    } else {
      TurnWearsOff(states, i, last);
    }
  }

  // The first moment at which the thread has not the turn is one at which it has given it back.
  lemma {:induction false} FirstEnd(states: seq<State>, i: nat, j: nat)
    requires states != [] && Path(states) && Invariant(states[0]) && HasTurn(states[0], i)
    requires j < |states| && !HasTurn(states[j], i)
    ensures exists k :: 0 <= k < |states| && states[k].sched == Awaiting(i) && states[k].blocked
    decreases j
  {
    hide Invariant, TurnRank, Taken;
    if m :| 0 <= m < j && !HasTurn(states[m], i) {
      FirstEnd(states, i, m);
    } else {
      TurnWearsOff(states, i, j);
    }
  }

  // The request that woke thread i is gone, and nobody remembers it.
  ghost predicate Lost(s: State, i: nat) {
    && s.sched == Awaiting(i) && !s.blocked && |s.wakeup| == |s.pc| && i < |s.pc|
    && (forall j :: 0 <= j < |s.pc| ==> AtRest(s.pc[j]) && !s.wakeup[j])
  }

  /** If a wakeup were lost, the scheduler would never scan again, so that by ReturnsToScan none is. */
  lemma {:induction false} LostWakeupNeverReturns(states: seq<State>, i: nat, k: nat)
    requires states != [] && Path(states) && Lost(states[0], i) && k < |states|
    ensures Lost(states[k], i)
    decreases k
  {
    if k > 0 {
      LostWakeupNeverReturns(states, i, k - 1);
      var s, s' := states[k - 1], states[k];
      assert Next(states[k - 1], states[k - 1 + 1]);
      if !SchedStep(s, s') {
        var j: nat :| j < |s.pc| && ThreadStep(s, s', j);
        assert AtRest(s.pc[j]) && !s.wakeup[j];
      }
    }
  }
}
