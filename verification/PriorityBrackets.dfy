/**
 Grouping the items into priority brackets when the scheduler starts.
 */
module PriorityBrackets {
  import opened SchedulerModel
  import opened SchedulerPriority

  /** The brackets partition the first n items by priority, in no particular order. */
  ghost predicate Groups(items: seq<Item>, n: nat, brackets: seq<Bracket>) {
    && n <= |items|
    && (forall k :: 0 <= k < |brackets| ==> HoldsItems(items[..n], brackets[k]) && brackets[k].rrIdx == 0)
    && (forall k, l :: 0 <= k < l < |brackets| ==> brackets[k].prio != brackets[l].prio)
    && (forall id :: 0 <= id < n ==> InSomeBracket(brackets, id))
  }

  lemma NoGroups(items: seq<Item>)
    ensures Groups(items, 0, [])
  {
  }

  lemma PrioritiesDiffer(items: seq<Item>, n: nat, brackets: seq<Bracket>)
    requires Groups(items, n, brackets)
    ensures forall k, l :: 0 <= k < l < |brackets| ==> brackets[k].prio != brackets[l].prio
  {
  }

  /** The brackets as they are when the scheduler starts. */
  ghost predicate IsInitial(items: seq<Item>, brackets: seq<Bracket>) {
    Partitions(items, brackets) && forall k :: 0 <= k < |brackets| ==> brackets[k].rrIdx == 0
  }

  // The first bracket of priority prio, or the number of brackets.
  method FindBracket(brackets: seq<Bracket>, prio: ItemPrio) returns (k: nat)
    ensures k <= |brackets| && (k < |brackets| ==> brackets[k].prio == prio)
    ensures forall l :: 0 <= l < k ==> brackets[l].prio != prio
  {
    k := 0;
    while k < |brackets| && brackets[k].prio != prio
      invariant k <= |brackets|
      invariant forall l :: 0 <= l < k ==> brackets[l].prio != prio
    {
      k := k + 1;
    }
  }

  // Adds item number n to the bracket of its priority, which is created when it is missing.
  method AddItem(ghost items: seq<Item>, brackets: seq<Bracket>, n: nat, prio: ItemPrio) returns (r: seq<Bracket>)
    requires n < |items| && items[n].Priority() == prio
    requires Groups(items, n, brackets)
    ensures Groups(items, n + 1, r)
  {
    var k := FindBracket(brackets, prio);
    if k == |brackets| {
      r := brackets + [Bracket(prio, 0, [n])];
    } else {
      r := brackets[k := brackets[k].(members := brackets[k].members + [n])];
    }
    forall l | 0 <= l < |r|
      ensures HoldsItems(items[..n + 1], r[l])
    {
      assert l < |brackets| ==> HoldsItems(items[..n], brackets[l]);
    }
    AllAreIn(brackets, r, k, n);
  }

  lemma AllAreIn(brackets: seq<Bracket>, r: seq<Bracket>, k: nat, n: nat)
    requires forall id :: 0 <= id < n ==> InSomeBracket(brackets, id)
    requires k < |r| && n in r[k].members
    requires |brackets| <= |r| && forall l :: 0 <= l < |brackets| ==> brackets[l].members <= r[l].members
    ensures forall id :: 0 <= id < n + 1 ==> InSomeBracket(r, id)
  {
    forall id | 0 <= id < n
      ensures InSomeBracket(r, id)
    {
      assert InSomeBracket(brackets, id);
      var l :| 0 <= l < |brackets| && id in brackets[l].members;
      assert id in r[l].members;
    }
  }

  ghost predicate Sorted(brackets: seq<Bracket>) {
    forall k, l :: 0 <= k < l < |brackets| ==> Better(brackets[k].prio, brackets[l].prio)
  }

  // Inserts b where its priority belongs.
  method Insert(brackets: seq<Bracket>, b: Bracket) returns (r: seq<Bracket>)
    requires Sorted(brackets)
    requires forall k :: 0 <= k < |brackets| ==> brackets[k].prio != b.prio
    ensures Sorted(r)
    ensures multiset(r) == multiset(brackets) + multiset{b}
  {
    var i := 0;
    while i < |brackets| && Better(brackets[i].prio, b.prio)
      invariant 0 <= i <= |brackets|
      invariant forall k :: 0 <= k < i ==> Better(brackets[k].prio, b.prio)
    {
      i := i + 1;
    }
    r := brackets[..i] + [b] + brackets[i..];
    InsertedIsSorted(brackets, b, i);
    InsertedIsThere(brackets, b, i);
  }

  lemma InsertedIsThere(brackets: seq<Bracket>, b: Bracket, i: nat)
    requires i <= |brackets|
    ensures multiset(brackets[..i] + [b] + brackets[i..]) == multiset(brackets) + multiset{b}
  {
    assert brackets == brackets[..i] + brackets[i..];
  }

  lemma InsertedIsSorted(brackets: seq<Bracket>, b: Bracket, i: nat)
    requires Sorted(brackets) && i <= |brackets|
    requires forall k :: 0 <= k < |brackets| ==> brackets[k].prio != b.prio
    requires forall k :: 0 <= k < i ==> Better(brackets[k].prio, b.prio)
    requires i < |brackets| ==> !Better(brackets[i].prio, b.prio)
    ensures Sorted(brackets[..i] + [b] + brackets[i..])
  {
  }

  /** Sorts brackets of different priorities, best priority first. */
  method Sort(brackets: seq<Bracket>) returns (r: seq<Bracket>)
    requires forall k, l :: 0 <= k < l < |brackets| ==> brackets[k].prio != brackets[l].prio
    ensures Sorted(r)
    ensures multiset(r) == multiset(brackets)
  {
    r := [];
    var i := 0;
    while i < |brackets|
      invariant 0 <= i <= |brackets|
      invariant Sorted(r) && multiset(r) == multiset(brackets[..i])
    {
      forall k | 0 <= k < |r|
        ensures r[k].prio != brackets[i].prio
      {
        assert r[k] in multiset(r);
        assert r[k] in brackets[..i];
      }
      r := Insert(r, brackets[i]);
      assert brackets[..i + 1] == brackets[..i] + [brackets[i]];
      i := i + 1;
    }
    assert brackets[..i] == brackets;
  }

  lemma SortedGroupsPartition(items: seq<Item>, brackets: seq<Bracket>, sorted: seq<Bracket>)
    requires Groups(items, |items|, brackets)
    requires Sorted(sorted) && multiset(sorted) == multiset(brackets)
    ensures IsInitial(items, sorted)
  {
    assert items[..|items|] == items;
    forall k | 0 <= k < |sorted|
      ensures HoldsItems(items, sorted[k]) && sorted[k].rrIdx == 0
    {
      assert sorted[k] in multiset(sorted);
      assert sorted[k] in brackets;
    }
    forall id | 0 <= id < |items|
      ensures InSomeBracket(sorted, id)
    {
      assert InSomeBracket(brackets, id);
      var l :| 0 <= l < |brackets| && id in brackets[l].members;
      assert brackets[l] in multiset(brackets);
      assert brackets[l] in sorted;
    }
  }

  // ---------------------------------------------------------------------------------------
  // There is only one way to partition items

  // The members of a bracket are exactly the items of its priority.
  lemma MembersByPriority(items: seq<Item>, brackets: seq<Bracket>, k: nat, id: nat)
    requires Partitions(items, brackets) && k < |brackets| && id < |items|
    ensures id in brackets[k].members <==> items[id].Priority() == brackets[k].prio
  {
    assert HoldsItems(items, brackets[k]);
    assert InSomeBracket(brackets, id);
    var l :| 0 <= l < |brackets| && id in brackets[l].members;
    assert HoldsItems(items, brackets[l]);
    assert l < k ==> Better(brackets[l].prio, brackets[k].prio);
    assert k < l ==> Better(brackets[k].prio, brackets[l].prio);
  }

  ghost predicate Ascending(s: seq<nat>) {
    forall i, j :: 0 <= i < j < |s| ==> s[i] < s[j]
  }

  lemma {:induction false} AscendingIsUnique(a: seq<nat>, b: seq<nat>)
    requires Ascending(a) && Ascending(b)
    requires forall x: nat :: x in a <==> x in b
    ensures a == b
    decreases |a|
  {
    if a == [] {
      assert forall i :: 0 <= i < |b| ==> b[i] in b;
    } else {
      assert a[0] in b;
      var i :| 0 <= i < |b| && b[i] == a[0];
      assert b[0] in a;
      var j :| 0 <= j < |a| && a[j] == b[0];
      assert a[0] == b[0];
      forall x: nat
        ensures x in a[1..] <==> x in b[1..]
      {
        assert x in a[1..] <==> x in a && x != a[0];
        assert x in b[1..] <==> x in b && x != b[0];
      }
      AscendingIsUnique(a[1..], b[1..]);
    }
  }

  lemma SamePrioritySameBracket(items: seq<Item>, a: seq<Bracket>, b: seq<Bracket>, k: nat, l: nat)
    requires Partitions(items, a) && Partitions(items, b)
    requires k < |a| && l < |b| && a[k].prio == b[l].prio && a[k].rrIdx == b[l].rrIdx
    ensures a[k] == b[l]
  {
    assert HoldsItems(items, a[k]) && HoldsItems(items, b[l]);
    forall x: nat
      ensures x in a[k].members <==> x in b[l].members
    {
      if x < |items| {
        MembersByPriority(items, a, k, x);
        MembersByPriority(items, b, l, x);
      }
    }
    AscendingIsUnique(a[k].members, b[l].members);
  }

  lemma PriorityOccurs(items: seq<Item>, a: seq<Bracket>, b: seq<Bracket>, k: nat) returns (l: nat)
    requires Partitions(items, a) && Partitions(items, b) && k < |a|
    ensures l < |b| && b[l].prio == a[k].prio
  {
    assert HoldsItems(items, a[k]);
    var id := a[k].members[0];
    assert InSomeBracket(b, id);
    l :| 0 <= l < |b| && id in b[l].members;
    assert HoldsItems(items, b[l]);
  }

  lemma PrioritiesLineUp(items: seq<Item>, a: seq<Bracket>, b: seq<Bracket>, k: nat)
    requires Partitions(items, a) && Partitions(items, b)
    requires k < |a| && forall i :: 0 <= i < k ==> i < |b| && a[i].prio == b[i].prio
    ensures k < |b| && a[k].prio == b[k].prio
  {
    var l := PriorityOccurs(items, a, b, k);
    assert l < k ==> Better(a[l].prio, a[k].prio);
    var i := PriorityOccurs(items, b, a, k);
    assert i < k ==> a[i].prio == b[i].prio && Better(b[i].prio, b[k].prio);
    assert k < l ==> Better(b[k].prio, b[l].prio);
    assert k < i ==> Better(a[k].prio, a[i].prio);
  }

  /** The items determine the brackets at the start. */
  lemma InitialBracketsAreUnique(items: seq<Item>, a: seq<Bracket>, b: seq<Bracket>)
    requires IsInitial(items, a) && IsInitial(items, b)
    ensures a == b
  {
    var k := 0;
    while k < |a|
      invariant 0 <= k <= |a| && k <= |b|
      invariant forall i :: 0 <= i < k ==> a[i] == b[i]
    {
      PrioritiesLineUp(items, a, b, k);
      SamePrioritySameBracket(items, a, b, k, k);
      k := k + 1;
    }
    if |a| < |b| {
      PrioritiesLineUp(items, b, a, |a|);
    }
  }
}
