/**
 Which item the scheduler runs: strict priority between brackets, round robin inside one.
 */
module SchedulerPriority {
  import opened Wrappers
  import opened SchedulerModel
  import Modulus

  ghost predicate InSomeBracket(brackets: seq<Bracket>, id: nat) {
    exists k :: 0 <= k < |brackets| && id in brackets[k].members
  }

  // Every bracket holds items of its priority only, in increasing order of their numbers.
  ghost predicate HoldsItems(items: seq<Item>, b: Bracket) {
    && b.rrIdx < |b.members|
    && (forall j :: 0 <= j < |b.members| ==> b.members[j] < |items| && items[b.members[j]].Priority() == b.prio)
    && (forall i, j :: 0 <= i < j < |b.members| ==> b.members[i] < b.members[j])
  }

  /** The brackets partition the items by priority, best priority first. */
  ghost predicate Partitions(items: seq<Item>, brackets: seq<Bracket>) {
    && (forall k :: 0 <= k < |brackets| ==> HoldsItems(items, brackets[k]))
    && (forall k, l :: 0 <= k < l < |brackets| ==> Better(brackets[k].prio, brackets[l].prio))
    && (forall id :: 0 <= id < |items| ==> InSomeBracket(brackets, id))
  }

  // ---------------------------------------------------------------------------------------
  // Strict priority

  // The distance of member number j of b from the round-robin position.
  function Distance(b: Bracket, j: nat): (i: nat)
    requires b.rrIdx < |b.members| && j < |b.members|
    ensures i < |b.members|
  {
    if b.rrIdx <= j then j - b.rrIdx else j + |b.members| - b.rrIdx
  }

  lemma SlotAtDistance(b: Bracket, j: nat)
    requires b.rrIdx < |b.members| && j < |b.members|
    ensures Slot(b, Distance(b, j)) == b.members[j]
  {
    Modulus.WrapsAround(Distance(b, j) + b.rrIdx, |b.members|);
  }

  lemma NoMemberReady(p: Program, s: Sim, b: Bracket)
    requires b.rrIdx < |b.members|
    requires PickMember(p, s, b, 0).None?
    ensures forall id :: id in b.members ==> !Ready(p, s, id)
  {
    forall id | id in b.members
      ensures !Ready(p, s, id)
    {
      var j :| 0 <= j < |b.members| && b.members[j] == id;
      SlotAtDistance(b, j);
    }
  }

  // The bracket that an item of priority prio would be picked from.
  lemma PickedIsInBracket(p: Program, s: Sim)
    requires Partitions(s.items, s.brackets)
    requires Picked(p, s).Some?
    ensures s.items[Picked(p, s).value].Priority() == s.brackets[PickBracket(p, s, 0).value].prio
  {
    var b := s.brackets[PickBracket(p, s, 0).value];
    var j :| 0 <= j < |b.members| && b.members[j] == Picked(p, s).value;
    assert HoldsItems(s.items, b);
  }

  lemma PickedIsBest(p: Program, s: Sim, id: nat)
    requires Partitions(s.items, s.brackets)
    requires Ready(p, s, id)
    ensures Picked(p, s).Some? && !Better(s.items[id].Priority(), s.items[Picked(p, s).value].Priority())
  {
    assert InSomeBracket(s.brackets, id);
    var k :| 0 <= k < |s.brackets| && id in s.brackets[k].members;
    var b := s.brackets[k];
    assert HoldsItems(s.items, b);
    assert PickMember(p, s, b, 0).Some? by {
      if PickMember(p, s, b, 0).None? {
        NoMemberReady(p, s, b);
      }
    }
    var r := PickBracket(p, s, 0);
    assert r.Some? && r.value <= k;
    PickedIsInBracket(p, s);
    assert s.items[id].Priority() == b.prio;
    assert r.value < k ==> Better(s.brackets[r.value].prio, b.prio);
  }

  /**
   HandleNextItem runs an item of the best priority among all ready items, and runs none
   exactly when no item is ready.
   */
  lemma RunsBestReadyItem(p: Program, s: Sim)
    requires Partitions(s.items, s.brackets)
    ensures HandleNextItem(p, s).None? <==> Idle(p, s)
    ensures Picked(p, s).None? <==> Idle(p, s)
    ensures Picked(p, s).Some? ==>
              && (forall id: nat :: Ready(p, s, id) ==>
                    !Better(s.items[id].Priority(), s.items[Picked(p, s).value].Priority()))
              && var ran := HandleNextItem(p, s).value;
                 ran == RunItem(p, s, Picked(p, s).value).(brackets := ran.brackets)
  {
    forall id: nat | Ready(p, s, id)
      ensures Picked(p, s).Some? && !Better(s.items[id].Priority(), s.items[Picked(p, s).value].Priority())
    {
      PickedIsBest(p, s, id);
    }
    if Picked(p, s).Some? {
      RunItemKeepsShape(p, s, Picked(p, s).value);
    }
  }

  /**
   Priorities count from zero, which is the best: events go first, and among threads as among events those with the
   least number.
   */
  lemma LeastNumberGoesFirst(p: Program, s: Sim, id: nat)
    requires Partitions(s.items, s.brackets) && Ready(p, s, id)
    ensures Picked(p, s).Some?
    ensures var picked := s.items[Picked(p, s).value];
            && (s.items[id].Event? ==> picked.Event?)
            && (s.items[id].Event? == picked.Event? ==> picked.prio <= s.items[id].prio)
  {
    PickedIsBest(p, s, id);
  }

  // The i-th slot holds member number j, if that is the distance of j.
  lemma DistanceOfSlot(b: Bracket, i: nat) returns (j: nat)
    requires b.rrIdx < |b.members| && i < |b.members|
    ensures j < |b.members| && Slot(b, i) == b.members[j] && Distance(b, j) == i
  {
    Modulus.WrapsAround(i + b.rrIdx, |b.members|);
    j := (i + b.rrIdx) % |b.members|;
  }

  // No member of b that is closer to the round-robin position than i is ready.
  ghost predicate NoneCloser(p: Program, s: Sim, b: Bracket, i: nat)
    requires b.rrIdx < |b.members|
  {
    forall m :: 0 <= m < |b.members| && Distance(b, m) < i ==> !Ready(p, s, b.members[m])
  }

  // Item number id, member number j of bracket k, is ready, and none that is closer to the round-robin position or in a better
  // bracket.
  ghost predicate ComesFirst(p: Program, s: Sim, k: nat, j: nat, id: nat)
    requires Partitions(s.items, s.brackets)
  {
    && k < |s.brackets| && j < |s.brackets[k].members| && id == s.brackets[k].members[j] && Ready(p, s, id)
    && (forall l, m :: 0 <= l < k && 0 <= m < |s.brackets[l].members| ==> !Ready(p, s, s.brackets[l].members[m]))
    && HoldsItems(s.items, s.brackets[k]) && NoneCloser(p, s, s.brackets[k], Distance(s.brackets[k], j))
  }

  // The scan of bracket b finds the ready member that is closest to the round-robin position.
  lemma PickMemberMeans(p: Program, s: Sim, b: Bracket)
    requires b.rrIdx < |b.members| && PickMember(p, s, b, 0).Some?
    ensures exists j :: 0 <= j < |b.members| && b.members[j] == PickMember(p, s, b, 0).value && NoneCloser(p, s, b, Distance(b, j))
  {
    var i :| 0 <= i < |b.members| && Slot(b, i) == PickMember(p, s, b, 0).value && forall m :: 0 <= m < i ==> !Ready(p, s, Slot(b, m));
    var j := DistanceOfSlot(b, i);
    forall m | 0 <= m < |b.members| && Distance(b, m) < i
      ensures !Ready(p, s, b.members[m])
    {
      SlotAtDistance(b, m);
    }
    assert NoneCloser(p, s, b, Distance(b, j));
  }

  lemma DistanceIsUnique(b: Bracket, j: nat)
    requires b.rrIdx < |b.members| && j < |b.members|
    ensures forall m :: 0 <= m < |b.members| && Distance(b, m) == Distance(b, j) ==> m == j
  {
  }

  // Two items that both come first are the same.
  lemma FirstIsUnique(p: Program, s: Sim, k: nat, j: nat, id: nat, k': nat, j': nat, id': nat)
    requires Partitions(s.items, s.brackets) && ComesFirst(p, s, k, j, id) && ComesFirst(p, s, k', j', id')
    ensures id == id'
  {
    DistanceIsUnique(s.brackets[k], j);
    hide Partitions, Ready, Distance;
  }

  lemma PickedComesFirst(p: Program, s: Sim)
    requires Partitions(s.items, s.brackets)
    ensures Picked(p, s).Some? ==> exists k: nat, j: nat :: ComesFirst(p, s, k, j, Picked(p, s).value)
  {
    if Picked(p, s).Some? {
      var k := PickBracket(p, s, 0).value;
      forall l, m | 0 <= l < k && 0 <= m < |s.brackets[l].members|
        ensures !Ready(p, s, s.brackets[l].members[m])
      {
        assert HoldsItems(s.items, s.brackets[l]);
        NoMemberReady(p, s, s.brackets[l]);
      }
      var b := s.brackets[k];
      assert HoldsItems(s.items, b);
      PickMemberMeans(p, s, b);
      var j :| 0 <= j < |b.members| && b.members[j] == Picked(p, s).value && NoneCloser(p, s, b, Distance(b, j));
      assert ComesFirst(p, s, k, j, Picked(p, s).value);
    }
  }

  /**
   The item that runs is the ready member of the best bracket with one that is closest, going up and around, to the round-robin
   position.
   */
  lemma PickedExactly(p: Program, s: Sim, id: nat)
    requires Partitions(s.items, s.brackets)
    ensures Picked(p, s) == Some(id) <==> exists k: nat, j: nat :: ComesFirst(p, s, k, j, id)
  {
    PickedComesFirst(p, s);
    hide Partitions, Picked, ComesFirst;
    if k: nat, j: nat :| ComesFirst(p, s, k, j, id) {
      FirstIsReady(p, s, k, j, id);
      var k': nat, j': nat :| ComesFirst(p, s, k', j', Picked(p, s).value);
      FirstIsUnique(p, s, k, j, id, k', j', Picked(p, s).value);
    }
  }

  lemma FirstIsReady(p: Program, s: Sim, k: nat, j: nat, id: nat)
    requires Partitions(s.items, s.brackets) && ComesFirst(p, s, k, j, id)
    ensures Picked(p, s).Some?
  {
    PickedIsBest(p, s, id);
  }

  /** No thread runs while an external event stamped with the current time waits. */
  lemma EventsGoBeforeThreads(p: Program, s: Sim, id: nat)
    requires Partitions(s.items, s.brackets)
    requires id < |s.items| && s.items[id].Event? && s.items[id].DueAt(s.now)
    ensures Picked(p, s).Some? && s.items[Picked(p, s).value].Event?
  {
    RunsBestReadyItem(p, s);
    assert Ready(p, s, id);
  }

  // States whose items have the same kinds and priorities.
  ghost predicate SameItems(a: seq<Item>, b: seq<Item>) {
    |a| == |b| && forall i :: 0 <= i < |a| ==> a[i].Thread? == b[i].Thread? && a[i].prio == b[i].prio
  }

  lemma PartitionFrame(items: seq<Item>, items': seq<Item>, brackets: seq<Bracket>, k: nat)
    requires Partitions(items, brackets) && SameItems(items, items')
    requires k < |brackets|
    ensures Partitions(items', brackets)
    ensures Partitions(items', brackets[k := AdvanceRoundRobin(brackets[k])])
  {
    var brackets' := brackets[k := AdvanceRoundRobin(brackets[k])];
    forall l | 0 <= l < |brackets|
      ensures HoldsItems(items', brackets[l]) && HoldsItems(items', brackets'[l])
    {
      assert HoldsItems(items, brackets[l]);
      forall j | 0 <= j < |brackets[l].members|
        ensures items'[brackets[l].members[j]].Priority() == brackets[l].prio
      {
        assert items[brackets[l].members[j]].Priority() == brackets[l].prio;
      }
    }
    forall id | 0 <= id < |items'|
      ensures InSomeBracket(brackets, id) && InSomeBracket(brackets', id)
    {
      assert InSomeBracket(brackets, id);
      var l :| 0 <= l < |brackets| && id in brackets[l].members;
      assert id in brackets'[l].members;
    }
  }

  lemma HandleNextItemKeepsPartition(p: Program, s: Sim)
    requires Partitions(s.items, s.brackets)
    requires HandleNextItem(p, s).Some?
    ensures var r := HandleNextItem(p, s).value;
            && Partitions(r.items, r.brackets) && SameItems(s.items, r.items) && r.now == s.now
            && var k := PickBracket(p, s, 0).value;
               r.brackets == s.brackets[k := AdvanceRoundRobin(s.brackets[k])]
  {
    RunItemKeepsShape(p, s, Picked(p, s).value);
    var r := RunItem(p, s, Picked(p, s).value);
    PartitionFrame(s.items, r.items, s.brackets, PickBracket(p, s, 0).value);
  }

  // ---------------------------------------------------------------------------------------
  // Bounded waiting

  // The state after n items have been run.
  function After(p: Program, s: Sim, n: nat): Option<Sim> {
    if n == 0 then Some(s)
    else
      var r := After(p, s, n - 1);
      if r.None? then None else HandleNextItem(p, r.value)
  }

  lemma {:induction false} AfterFirst(p: Program, s: Sim, n: nat)
    requires HandleNextItem(p, s).Some?
    ensures After(p, s, n + 1) == After(p, HandleNextItem(p, s).value, n)
  {
    hide HandleNextItem;
    if n > 0 {
      AfterFirst(p, s, n - 1);
    } else {
      assert After(p, s, 0) == Some(s);
    }
  }

  /** Draining is running items, one after the other, until none is ready. */
  lemma {:induction false} DrainIsRun(p: Program, s: Sim, fuel: nat) returns (n: nat)
    requires Drain(p, s, fuel).Some?
    ensures n < fuel && After(p, s, n) == Drain(p, s, fuel) && After(p, s, n + 1).None?
    decreases fuel
  {
    hide HandleNextItem;
    n := 0;
    if HandleNextItem(p, s).Some? {
      var rest := DrainIsRun(p, HandleNextItem(p, s).value, fuel - 1);
      AfterFirst(p, s, rest);
      AfterFirst(p, s, rest + 1);
      n := rest + 1;
    } else {
      assert After(p, s, 0) == Some(s);
    }
  }

  // Item number id is ready, and no ready item has a better priority.
  ghost predicate InFront(p: Program, s: Sim, id: nat) {
    Ready(p, s, id) && forall i: nat :: Ready(p, s, i) ==> !Better(s.items[i].Priority(), s.items[id].Priority())
  }

  lemma BracketInFrontIsPicked(p: Program, s: Sim, k: nat, j: nat)
    requires Partitions(s.items, s.brackets)
    requires k < |s.brackets| && j < |s.brackets[k].members|
    requires InFront(p, s, s.brackets[k].members[j])
    ensures PickBracket(p, s, 0) == Some(k)
    ensures s.brackets[k].rrIdx == j ==> Picked(p, s) == Some(s.brackets[k].members[j])
  {
    var b := s.brackets[k];
    assert HoldsItems(s.items, b);
    PickedIsBest(p, s, b.members[j]);
    PickedIsInBracket(p, s);
    if PickMember(p, s, b, 0).None? {
      NoMemberReady(p, s, b);
    }
    SlotAtDistance(b, j);
  }

  lemma AdvanceApproaches(b: Bracket, j: nat)
    requires b.rrIdx < |b.members| && j < |b.members| && Distance(b, j) > 0
    ensures AdvanceRoundRobin(b).rrIdx < |b.members|
    ensures Distance(AdvanceRoundRobin(b), j) == Distance(b, j) - 1
  {
    Modulus.WrapsAround(b.rrIdx + 1, |b.members|);
  }

  lemma RunWhileInFront(p: Program, s: Sim, k: nat, j: nat)
    requires Partitions(s.items, s.brackets)
    requires k < |s.brackets| && j < |s.brackets[k].members|
    requires InFront(p, s, s.brackets[k].members[j])
    requires s.brackets[k].rrIdx < |s.brackets[k].members| && Distance(s.brackets[k], j) > 0
    ensures HandleNextItem(p, s).Some?
    ensures var r := HandleNextItem(p, s).value;
            && Partitions(r.items, r.brackets) && |r.brackets| == |s.brackets|
            && r.brackets[k].members == s.brackets[k].members
            && r.brackets[k].rrIdx < |r.brackets[k].members|
            && Distance(r.brackets[k], j) == Distance(s.brackets[k], j) - 1
  {
    BracketInFrontIsPicked(p, s, k, j);
    HandleNextItemKeepsPartition(p, s);
    AdvanceApproaches(s.brackets[k], j);
  }

  /** While member j stays in front, each run takes the round-robin position one step closer to it. */
  lemma {:induction false} RoundRobinApproaches(p: Program, s: Sim, k: nat, j: nat, n: nat)
    requires Partitions(s.items, s.brackets)
    requires k < |s.brackets| && j < |s.brackets[k].members|
    requires s.brackets[k].rrIdx < |s.brackets[k].members| && n <= Distance(s.brackets[k], j)
    requires forall i :: 0 <= i < n && After(p, s, i).Some? ==> InFront(p, After(p, s, i).value, s.brackets[k].members[j])
    ensures After(p, s, n).Some?
    ensures var r := After(p, s, n).value;
            && Partitions(r.items, r.brackets) && |r.brackets| == |s.brackets|
            && r.brackets[k].members == s.brackets[k].members
            && r.brackets[k].rrIdx < |r.brackets[k].members|
            && Distance(r.brackets[k], j) == Distance(s.brackets[k], j) - n
  {
    hide HandleNextItem, Partitions, InFront, Distance;
    if n > 0 {
      RoundRobinApproaches(p, s, k, j, n - 1);
      RunWhileInFront(p, After(p, s, n - 1).value, k, j);
    }
  }

  /**
   Bounded waiting: an item that stays in front is among the next n items that run, n being the
   size of its bracket, although the round-robin position moves by one whichever slot ran.
   */
  lemma RunsWithinBracketSize(p: Program, s: Sim, k: nat, j: nat)
    requires Partitions(s.items, s.brackets)
    requires k < |s.brackets| && j < |s.brackets[k].members|
    requires forall i :: 0 <= i < |s.brackets[k].members| && After(p, s, i).Some? ==>
               InFront(p, After(p, s, i).value, s.brackets[k].members[j])
    ensures exists i :: 0 <= i < |s.brackets[k].members| && After(p, s, i).Some?
              && Picked(p, After(p, s, i).value) == Some(s.brackets[k].members[j])
  {
    assert HoldsItems(s.items, s.brackets[k]);
    var i := Distance(s.brackets[k], j);
    RoundRobinApproaches(p, s, k, j, i);
    BracketInFrontIsPicked(p, After(p, s, i).value, k, j);
  }
}
