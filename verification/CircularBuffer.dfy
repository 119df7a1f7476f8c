/**
 A buffer that holds the last N elements pushed to it, with iterators that walk it in both
 directions.
 */
module CircularBuffer {
  import Modulus

  // A pointer into the storage of a buffer, as the index it points at. One past the last element
  // and one before the first are pointers too.
  datatype Pointer = Null | At(index: int)

  // The last n elements of s, all of them when there are fewer.
  function Last<T>(s: seq<T>, n: nat): seq<T> {
    if |s| <= n then s else s[|s| - n..]
  }

  function Reverse<T>(s: seq<T>): (r: seq<T>)
    ensures |r| == |s| && forall i :: 0 <= i < |s| ==> r[i] == s[|s| - 1 - i]
  {
    if s == [] then [] else Reverse(s[1..]) + [s[0]]
  }

  class WriteOnlyCircularBuffer<T(0)> {
    const storage: array<T>
    var initialized: bool
    var h: Pointer         // the last written element
    var nh: Pointer        // the next element to write
    ghost var pushed: seq<T>   // everything pushed since the buffer was last cleared

    ghost predicate Valid()
      reads this, storage
    {
      && storage.Length > 0
      && nh.At? && 0 <= nh.index < storage.Length
      && (if initialized then storage.Length <= |pushed| else nh.index == |pushed|)
      && h == (if pushed == [] then Null else At(if nh.index == 0 then storage.Length - 1 else nh.index - 1))
      && (forall i :: 0 <= i < nh.index ==> storage[i] == pushed[|pushed| - nh.index + i])
      && (initialized ==> forall i :: nh.index <= i < storage.Length ==>
            storage[i] == pushed[|pushed| - nh.index - storage.Length + i])
    }

    // The elements in the buffer, oldest first.
    ghost function Contents(): seq<T>
      requires Valid()
      reads this, storage
    {
      Last(pushed, storage.Length)
    }

    constructor (n: nat)
      requires n > 0
      ensures Valid() && fresh(storage) && storage.Length == n && pushed == []
    {
      storage := new T[n];
      initialized := false;
      h := Null;
      nh := At(0);
      pushed := [];
    }

    method Push(value: T)
      requires Valid()
      modifies this, storage
      ensures Valid() && pushed == old(pushed) + [value]
      ensures h.At? && storage[h.index] == value
    {
      storage[nh.index] := value;
      h := nh;
      nh := At(nh.index + 1);
      if nh == At(storage.Length) {
        nh := At(0);
        initialized := true;
      }
      pushed := pushed + [value];
    }

    method Clear()
      requires Valid()
      modifies this
      ensures Valid() && pushed == []
    {
      h := Null;
      nh := At(0);
      initialized := false;
      pushed := [];
    }

    function Size(): (n: nat)
      requires Valid()
      reads this, storage
      ensures n == |Contents()|
    {
      if initialized then storage.Length else nh.index
    }

    // The last written element, if there is one.
    function Head(): (p: Pointer)
      requires Valid()
      reads this, storage
      ensures p == Null <==> Contents() == []
      ensures p.At? ==> 0 <= p.index < storage.Length && storage[p.index] == Contents()[Size() - 1]
    {
      h
    }

    // Element 0 is the oldest one.
    function Get(idx: nat): (v: T)
      requires Valid() && idx < Size()
      reads this, storage
      ensures v == Contents()[idx]
    {
      if !initialized then storage[idx]
      else
        Modulus.WrapsAround(nh.index + idx, storage.Length);
        storage[(nh.index + idx) % storage.Length]
    }

    // -------------------------------------------------------------------------------------
    // Iterators

    method Begin() returns (it: Iterator<T>)
      requires Valid()
      ensures fresh(it) && it.storage == storage && it.head == nh
      ensures it.ptr == ForwardPath()[0]
    {
      if initialized {
        it := new Iterator(nh, storage, nh);
      } else {
        if nh == At(0) {
          it := End();
          return;
        }
        it := new Iterator(nh, storage, At(0));
      }
    }

    method End() returns (it: Iterator<T>)
      requires Valid()
      ensures fresh(it) && it.storage == storage && it.head == nh && it.ptr == Null == ForwardPath()[Size()]
    {
      it := new Iterator(nh, storage, Null);
    }

    method RBegin() returns (it: ReverseIterator<T>)
      requires Valid()
      ensures fresh(it) && it.storage == storage && it.head == h
      ensures it.ptr == BackwardPath()[0]
    {
      if !initialized && nh == At(0) {
        it := REnd();
        assert Size() == 0;
        return;
      }
      assert BackwardPath()[0] == At(Place(initialized, nh.index, storage.Length, Size() - 1));
      it := new ReverseIterator(h, storage, h);
    }

    method REnd() returns (it: ReverseIterator<T>)
      requires Valid()
      ensures fresh(it) && it.storage == storage && it.head == h
      ensures it.ptr == RLast() == BackwardPath()[Size()]
    {
      if initialized {
        it := new ReverseIterator(h, storage, Null);
      } else {
        it := new ReverseIterator(h, storage, At(storage.Length - 1));
      }
    }

    lemma ElementAt(k: nat)
      requires Valid() && k < Size()
      ensures var i := Place(initialized, nh.index, storage.Length, k); 0 <= i < storage.Length && storage[i] == Contents()[k]
    {
    }

    // The end of a reverse iteration.
    ghost function RLast(): Pointer
      reads this
    {
      if initialized then Null else At(storage.Length - 1)
    }

    // Where a forward iterator is after each of its steps.
    ghost function ForwardPath(): (path: seq<Pointer>)
      requires Valid()
      reads this, storage
      ensures |path| == Size() + 1
    {
      var filled, next, length, n := initialized, nh.index, storage.Length, Size();
      seq(n + 1, k => if k < n then At(Place(filled, next, length, k)) else Null)
    }

    // Where a reverse iterator is after each of its steps.
    ghost function BackwardPath(): (path: seq<Pointer>)
      requires Valid()
      reads this, storage
      ensures |path| == Size() + 1
    {
      var filled, next, length, n, last := initialized, nh.index, storage.Length, Size(), RLast();
      seq(n + 1, k => if k < n then At(Place(filled, next, length, n - 1 - k)) else last)
    }

    // An iterator on the path is at the k-th oldest element, and its next step stays on the path.
    lemma StepForward(k: nat)
      requires Valid() && k < Size()
      ensures var p, q := ForwardPath()[k], ForwardPath()[k + 1];
              && p.At? && 0 <= p.index < storage.Length && storage[p.index] == Contents()[k]
              && q == Ahead(p.index, nh, storage.Length) && p != ForwardPath()[Size()]
    {
      ElementAt(k);
    }

    lemma StepsForward(n: nat, contents: seq<T>, path: seq<Pointer>)
      requires Valid() && n == Size() && contents == Contents() && path == ForwardPath()
      ensures |contents| == n && |path| == n + 1
      ensures forall k :: 0 <= k < n ==>
                && path[k].At? && 0 <= path[k].index < storage.Length && storage[path[k].index] == contents[k]
                && path[k + 1] == Ahead(path[k].index, nh, storage.Length) && path[k] != path[n]
    {
      forall k: nat | k < n
        ensures path[k].At? && 0 <= path[k].index < storage.Length && storage[path[k].index] == contents[k]
        ensures path[k + 1] == Ahead(path[k].index, nh, storage.Length) && path[k] != path[n]
      {
        StepForward(k);
      }
    }

    lemma StepsBackward(n: nat, contents: seq<T>, path: seq<Pointer>)
      requires Valid() && n == Size() && contents == Reverse(Contents()) && path == BackwardPath()
      ensures |contents| == n && |path| == n + 1
      ensures forall k :: 0 <= k < n ==>
                && path[k].At? && 0 <= path[k].index < storage.Length && storage[path[k].index] == contents[k]
                && path[k + 1] == Behind(path[k].index, h, storage.Length) && path[k] != path[n]
    {
      forall k: nat | k < n
        ensures path[k].At? && 0 <= path[k].index < storage.Length && storage[path[k].index] == contents[k]
        ensures path[k + 1] == Behind(path[k].index, h, storage.Length) && path[k] != path[n]
      {
        StepBackward(k);
      }
    }

    lemma StepBackward(k: nat)
      requires Valid() && k < Size()
      ensures var p, q := BackwardPath()[k], BackwardPath()[k + 1];
              && p.At? && 0 <= p.index < storage.Length && storage[p.index] == Reverse(Contents())[k]
              && q == Behind(p.index, h, storage.Length) && p != BackwardPath()[Size()]
    {
      ElementAt(Size() - 1 - k);
      var filled, next, length, n := initialized, nh.index, storage.Length, Size();
      assert BackwardPath()[k] == At(Place(filled, next, length, n - 1 - k));
      if k + 1 < n {
        assert BackwardPath()[k + 1] == At(Place(filled, next, length, n - 2 - k));
      } else {
        assert Behind(Place(filled, next, length, 0), h, length) == RLast();
      }
    }

    /**
     Walking from begin to end yields the contents, oldest first, and reaches the end after exactly
     as many steps as there are elements.
     */
    method Forward() returns (elements: seq<T>, steps: nat)
      requires Valid()
      ensures elements == Contents() && steps == Size()
    {
      hide Valid, Contents, Size, ForwardPath;
      elements := [];
      steps := 0;
      var it := Begin();
      var end := End();
      ghost var n, contents, path := Size(), Contents(), ForwardPath();
      StepsForward(n, contents, path);
      while it.ptr != end.ptr
        invariant fresh(it) && it.storage == storage && it.head == nh && end.ptr == path[n]
        invariant 0 <= steps <= n && elements == contents[..steps] && it.ptr == path[steps]
        decreases n - steps
      {
        elements := elements + [it.Deref()];
        it.Next();
        steps := steps + 1;
      }
    }

    /** Walking backward yields the contents, newest first, in as many steps. */
    method Backward() returns (elements: seq<T>, steps: nat)
      requires Valid()
      ensures elements == Reverse(Contents()) && steps == Size()
    {
      hide Valid, Contents, Size, Reverse, RLast, BackwardPath;
      elements := [];
      steps := 0;
      var it := RBegin();
      var end := REnd();
      ghost var n, contents, path := Size(), Reverse(Contents()), BackwardPath();
      StepsBackward(n, contents, path);
      while it.ptr != end.ptr
        invariant fresh(it) && it.storage == storage && it.head == h && end.ptr == path[n]
        invariant 0 <= steps <= n && elements == contents[..steps] && it.ptr == path[steps]
        decreases n - steps
      {
        elements := elements + [it.Deref()];
        it.Next();
        steps := steps + 1;
      }
    }
  }

  // The index of the k-th oldest element.
  function Place(filled: bool, next: int, length: int, k: int): int {
    if !filled then k
    else if next + k < length then next + k
    else next + k - length
  }

  // Where operator++ of a forward iterator goes from index i.
  function Ahead(i: int, head: Pointer, length: nat): Pointer {
    var next := if i + 1 == length then 0 else i + 1;
    if At(next) == head then Null else At(next)
  }

  // Where operator++ of a reverse iterator goes from index i.
  function Behind(i: int, head: Pointer, length: nat): Pointer {
    var next := if i == 0 then length - 1 else i - 1;
    if At(next) == head then Null else At(next)
  }

  class Iterator<T> {
    const head: Pointer
    const storage: array<T>
    var ptr: Pointer

    constructor (head: Pointer, storage: array<T>, ptr: Pointer)
      ensures this.head == head && this.storage == storage && this.ptr == ptr
    {
      this.head := head;
      this.storage := storage;
      this.ptr := ptr;
    }

    function Deref(): T
      requires ptr.At? && 0 <= ptr.index < storage.Length
      reads this, storage
    {
      storage[ptr.index]
    }

    method Next()
      requires ptr.At?
      modifies this
      ensures ptr == Ahead(old(ptr.index), head, storage.Length)
    {
      ptr := At(ptr.index + 1);
      if ptr == At(storage.Length) {
        ptr := At(0);
      }
      if ptr == head {
        ptr := Null;
      }
    }
  }

  class ReverseIterator<T> {
    const head: Pointer
    const storage: array<T>
    var ptr: Pointer

    constructor (head: Pointer, storage: array<T>, ptr: Pointer)
      ensures this.head == head && this.storage == storage && this.ptr == ptr
    {
      this.head := head;
      this.storage := storage;
      this.ptr := ptr;
    }

    function Deref(): T
      requires ptr.At? && 0 <= ptr.index < storage.Length
      reads this, storage
    {
      storage[ptr.index]
    }

    method Next()
      requires ptr.At?
      modifies this
      ensures ptr == Behind(old(ptr.index), head, storage.Length)
    {
      ptr := At(ptr.index - 1);
      if ptr == At(-1) {
        ptr := At(storage.Length - 1);
      }
      if ptr == head {
        ptr := Null;
      }
    }
  }
}
