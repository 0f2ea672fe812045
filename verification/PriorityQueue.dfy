/** The array max-heap of internal/data/priority.go, driven by the algorithms of Go's
    container/heap package over the queue's own Less, Swap, Push and Pop. */
module PriorityQueues {

  /** What the queue stores about one item, without its identity. */
  datatype Entry<T> = Entry(value: T, priority: int)

  class Item<T> {
    var value: T
    var priority: int
    var index: int

    constructor (value: T, priority: int)
      ensures this.value == value && this.priority == priority && index == 0
    {
      this.value := value;
      this.priority := priority;
      index := 0;
    }

    ghost function View(): Entry<T>
      reads this
    {
      Entry(value, priority)
    }
  }

  /** Index of the heap parent of position k; the root is its own parent, as Go's truncating
      (k-1)/2 makes it. */
  function Parent(k: nat): (p: nat)
    ensures p <= k && (k > 0 ==> p < k)
  {
    if k == 0 then 0 else (k - 1) / 2
  }

  ghost predicate EdgeOk<T>(s: seq<Entry<T>>, k: nat)
    requires k < |s|
  {
    s[Parent(k)].priority >= s[k].priority
  }

  /** No child outranks its parent. */
  ghost predicate HeapOrdered<T>(s: seq<Entry<T>>) {
    forall k: nat :: k < |s| ==> EdgeOk(s, k)
  }

  /** Heap order with one hole: only the edge into j may be wrong, and j's children already fit
      below j's parent. */
  ghost predicate RisingAt<T>(s: seq<Entry<T>>, j: nat)
    requires j < |s|
  {
    && (forall k: nat :: k < |s| && k != j ==> EdgeOk(s, k))
    && (forall k: nat :: k < |s| && Parent(k) == j && k != j ==> s[Parent(j)].priority >= s[k].priority)
  }

  /** Heap order on the first n slots for parents at lo or later, except below i. The edge into
      start is not promised while nothing has moved. */
  ghost predicate SinkingAt<T>(s: seq<Entry<T>>, lo: nat, start: nat, i: nat, n: nat)
    requires n <= |s|
  {
    && (forall k: nat :: 0 < k < n && lo <= Parent(k) && Parent(k) != i && (k != start || i != start) ==>
          EdgeOk(s, k))
    && (forall k: nat :: 0 < k < n && Parent(k) == i && i > 0 && lo <= Parent(i) ==>
          s[Parent(i)].priority >= s[k].priority)
  }

  /** Heap order on the first n slots for parents at lo or later, except possibly the edge into skip. */
  ghost predicate OrderedExcept<T>(s: seq<Entry<T>>, lo: nat, skip: int, n: nat)
    requires n <= |s|
  {
    forall k: nat :: 0 < k < n && lo <= Parent(k) && k != skip ==> EdgeOk(s, k)
  }

  ghost function Swapped<T>(s: seq<Entry<T>>, i: nat, j: nat): (r: seq<Entry<T>>)
    requires i < |s| && j < |s|
    ensures |r| == |s| && multiset(r) == multiset(s)
  {
    s[i := s[j]][j := s[i]]
  }

  lemma RiseStep<T>(s: seq<Entry<T>>, j: nat)
    requires 0 < j < |s| && RisingAt(s, j) && s[j].priority > s[Parent(j)].priority
    ensures RisingAt(Swapped(s, Parent(j), j), Parent(j))
  {
    var i := Parent(j);
    var t := Swapped(s, i, j);
    forall k: nat | k < |t| && k != i
      ensures EdgeOk(t, k)
    {
      assert EdgeOk(s, i) && (k != j ==> EdgeOk(s, k));
    }
    forall k: nat | k < |t| && Parent(k) == i && k != i
      ensures t[Parent(i)].priority >= t[k].priority
    {
      assert EdgeOk(s, i) && (k != j ==> EdgeOk(s, k));
    }
  }

  /** Neither child of i outranks it. */
  ghost predicate RestsAt<T>(s: seq<Entry<T>>, i: nat, n: nat)
    requires n <= |s|
  {
    && (2 * i + 1 < n ==> s[i].priority >= s[2 * i + 1].priority)
    && (2 * i + 2 < n ==> s[i].priority >= s[2 * i + 2].priority)
  }

  /** The larger child j of i outranks it. */
  ghost predicate Outranks<T>(s: seq<Entry<T>>, j: nat, i: nat, n: nat)
    requires n <= |s|
  {
    && i < j < n && Parent(j) == i && s[j].priority > s[i].priority
    && s[j].priority >= s[2 * i + 1].priority
    && (2 * i + 2 < n ==> s[j].priority >= s[2 * i + 2].priority)
  }

  lemma SinkStep<T>(s: seq<Entry<T>>, lo: nat, start: nat, i: nat, j: nat, n: nat)
    requires n <= |s| && lo <= start && SinkingAt(s, lo, start, i, n) && start <= i && Outranks(s, j, i, n)
    ensures SinkingAt(Swapped(s, i, j), lo, start, j, n)
  {
    var t := Swapped(s, i, j);
    assert forall k: nat :: 0 < k < n && Parent(k) == i ==> k == 2 * i + 1 || k == 2 * i + 2;
    forall k: nat | 0 < k < n && lo <= Parent(k) && Parent(k) != j
      ensures EdgeOk(t, k)
    {
      if k != i && Parent(k) != i {
        assert EdgeOk(s, k);
      }
    }
    forall k: nat | 0 < k < n && Parent(k) == j
      ensures t[Parent(j)].priority >= t[k].priority
    {
      assert EdgeOk(s, k);
    }
  }

  lemma SinkDone<T>(s: seq<Entry<T>>, lo: nat, start: nat, i: nat, n: nat)
    requires lo <= start <= i && n <= |s| && SinkingAt(s, lo, start, i, n)
    requires RestsAt(s, i, n)
    ensures OrderedExcept(s, lo, if i > start then -1 else start, n)
  {
    forall k: nat | 0 < k < n && lo <= Parent(k) && (i > start || k != start)
      ensures EdgeOk(s, k)
    {
      assert Parent(k) == i ==> k == 2 * i + 1 || k == 2 * i + 2;
    }
  }

  lemma AppendRises<T>(s: seq<Entry<T>>, e: Entry<T>)
    requires HeapOrdered(s)
    ensures RisingAt(s + [e], |s|)
  {
    forall k: nat | k < |s|
      ensures EdgeOk(s + [e], k)
    {
      assert EdgeOk(s, k);
    }
  }

  /** Moving the last entry of a heap to the root leaves a hole at the root only. */
  lemma LastToRootSinks<T>(s: seq<Entry<T>>, n: nat)
    requires HeapOrdered(s) && |s| == n + 1
    ensures SinkingAt(Swapped(s, 0, n), 0, 0, 0, n)
  {
    var t := Swapped(s, 0, n);
    forall k: nat | 0 < k < n && Parent(k) != 0
      ensures EdgeOk(t, k)
    {
      assert EdgeOk(s, k);
    }
  }

  /** Changing one entry of a heap leaves a hole around that entry only. */
  lemma ChangedSinks<T>(s: seq<Entry<T>>, i: nat, e: Entry<T>)
    requires i < |s| && HeapOrdered(s)
    ensures SinkingAt(s[i := e], 0, i, i, |s|)
  {
    var t := s[i := e];
    forall k: nat | 0 < k < |t| && Parent(k) != i && k != i
      ensures EdgeOk(t, k)
    {
      assert EdgeOk(s, k);
    }
    forall k: nat | 0 < k < |t| && Parent(k) == i && i > 0
      ensures t[Parent(i)].priority >= t[k].priority
    {
      assert EdgeOk(s, k) && EdgeOk(s, i);
    }
  }

  lemma DropLast<T>(s: seq<Entry<T>>, e: Entry<T>)
    requires |s| > 0 && s[|s| - 1] == e
    ensures multiset(s[..|s| - 1]) == multiset(s) - multiset{e}
  {
    assert s == s[..|s| - 1] + [e];
  }

  lemma FixedOrder<T>(s: seq<Entry<T>>)
    requires OrderedExcept(s, 0, -1, |s|)
    ensures HeapOrdered(s)
  {
    forall k: nat | k < |s|
      ensures EdgeOk(s, k)
    {
    }
  }

  lemma OrderedFront<T>(s: seq<Entry<T>>)
    requires |s| > 0 && OrderedExcept(s, 0, -1, |s| - 1)
    ensures HeapOrdered(s[..|s| - 1])
  {
    var front := s[..|s| - 1];
    forall k: nat | k < |front|
      ensures EdgeOk(front, k)
    {
      assert k > 0 ==> EdgeOk(s, k);
    }
  }

  lemma SettledRises<T>(s: seq<Entry<T>>, i: nat)
    requires i < |s| && SinkingAt(s, 0, i, i, |s|) && OrderedExcept(s, 0, i, |s|)
    ensures RisingAt(s, i)
  {
    forall k: nat | k < |s| && k != i
      ensures EdgeOk(s, k)
    {
    }
    forall k: nat | k < |s| && Parent(k) == i && k != i
      ensures s[Parent(i)].priority >= s[k].priority
    {
      assert EdgeOk(s, k);
    }
  }

  /** The root of a heap outranks every entry. */
  lemma {:induction false} RootIsMaximum<T>(s: seq<Entry<T>>, k: nat)
    requires k < |s| && HeapOrdered(s)
    ensures s[0].priority >= s[k].priority
    decreases k
  {
    if k > 0 {
      assert EdgeOk(s, k);
      RootIsMaximum(s, Parent(k));
    }
  }

  lemma NoneAboveRoot<T>(s: seq<Entry<T>>)
    requires |s| > 0 && HeapOrdered(s)
    ensures forall e :: e in s ==> e.priority <= s[0].priority
  {
    forall e | e in s
      ensures e.priority <= s[0].priority
    {
      var k: nat :| k < |s| && s[k] == e;
      RootIsMaximum(s, k);
    }
  }

  class PriorityQueue<T(==)> {
    var items: seq<Item<T>>

    constructor ()
      ensures items == []
    {
      items := [];
    }

    ghost function Stored(): set<Item<T>>
      reads this
    {
      set item | item in items
    }

    ghost function Snapshot(): (s: seq<Entry<T>>)
      reads this, items
      ensures |s| == |items|
      ensures forall i :: 0 <= i < |s| ==> s[i] == items[i].View()
    {
      seq(|items|, i requires 0 <= i < |items| reads this, items => items[i].View())
    }

    /** Every stored item's back-index is its position; in particular the items are distinct. */
    ghost predicate Indexed()
      reads this, items
    {
      forall i :: 0 <= i < |items| ==> items[i].index == i
    }

    ghost predicate Valid()
      reads this, items
    {
      Indexed() && HeapOrdered(Snapshot())
    }

    function Len(): (n: nat)
      reads this
    {
      |items|
    }

    predicate Less(i: nat, j: nat)
      requires i < |items| && j < |items|
      reads this, items
    {
      items[i].priority > items[j].priority
    }

    method Swap(i: nat, j: nat)
      requires i < |items| && j < |items| && Indexed()
      modifies this`items, Stored()`index
      ensures items == old(items)[i := old(items)[j]][j := old(items)[i]]
      ensures Indexed()
      ensures Snapshot() == Swapped(old(Snapshot()), i, j)
      ensures |items| == |old(items)| && Stored() == old(Stored())
    {
      items := items[i := items[j]][j := items[i]];
      items[i].index := i;
      items[j].index := j;
      assert Stored() == old(Stored()) by {
        assert items[i] == old(items)[j] && items[j] == old(items)[i];
        assert forall k :: 0 <= k < |items| && k != i && k != j ==> items[k] == old(items)[k];
      }
    }

    /** Add a new item as the last one. */
    method Append(item: Item<T>)
      requires Indexed() && item !in items
      modifies this`items, item`index
      ensures items == old(items) + [item] && Indexed() && Stored() == old(Stored()) + {item}
      ensures Snapshot() == old(Snapshot()) + [old(item.View())]
    {
      item.index := |items|;
      items := items + [item];
    }

    /** Remove the last item. */
    method RemoveLast() returns (item: Item<T>)
      requires Indexed() && |items| > 0
      modifies this`items, Stored()`index
      ensures items == old(items)[..|old(items)| - 1] && item == old(items)[|old(items)| - 1]
      ensures item.index == -1 && item !in items && Indexed() && Stored() == old(Stored()) - {item}
      ensures Snapshot() == old(Snapshot())[..|old(items)| - 1]
    {
      var n := |items|;
      item := items[n - 1];
      item.index := -1;
      items := items[..n - 1];
    }

    /** container/heap's up: move the item at j towards the root. */
    method Up(j0: nat)
      requires j0 < |items| && Indexed() && RisingAt(Snapshot(), j0)
      modifies this`items, Stored()`index
      ensures Valid()
      ensures |items| == |old(items)| && Stored() == old(Stored())
      ensures multiset(Snapshot()) == old(multiset(Snapshot()))
    {
      var j: nat := j0;
      while true
        invariant |items| == |old(items)| && Stored() == old(Stored())
        invariant j < |items| && Indexed() && RisingAt(Snapshot(), j)
        invariant multiset(Snapshot()) == old(multiset(Snapshot()))
        decreases j
      {
        var i := Parent(j);
        if i == j || !Less(j, i) {
          break;
        }
        RiseStep(Snapshot(), j);
        Swap(i, j);
        j := i;
      }
      assert EdgeOk(Snapshot(), j);
    }

    /** The child of higher priority among positions j1 and j1 + 1, within the first n slots. */
    method LargerChild(j1: nat, n: nat) returns (j: nat)
      requires j1 < n <= |items|
      ensures j1 <= j <= j1 + 1 && j < n
      ensures Snapshot()[j].priority >= Snapshot()[j1].priority
      ensures j1 + 1 < n ==> Snapshot()[j].priority >= Snapshot()[j1 + 1].priority
    {
      j := j1;
      var j2 := j1 + 1;
      if j2 < n && Less(j2, j1) {
        j := j2;
      }
    }

    /** The larger child of i, and whether i outranks its children already. */
    method FindSink(i: nat, n: nat) returns (j: nat, rests: bool)
      requires n <= |items|
      ensures if rests then RestsAt(Snapshot(), i, n) else Outranks(Snapshot(), j, i, n)
    {
      var j1 := 2 * i + 1;
      j, rests := j1, true;
      if j1 < n {
        j := LargerChild(j1, n);
        rests := !Less(j, i);
      }
    }

    /** The entry at i trades places with its larger child j. */
    method Sink(i: nat, j: nat, n: nat, ghost lo: nat, ghost start: nat)
      requires lo <= start <= i && n <= |items| && Indexed()
      requires SinkingAt(Snapshot(), lo, start, i, n) && Outranks(Snapshot(), j, i, n)
      modifies this`items, Stored()`index
      ensures |items| == |old(items)| && Stored() == old(Stored()) && Indexed()
      ensures SinkingAt(Snapshot(), lo, start, j, n)
      ensures forall k :: n <= k < |items| ==> items[k] == old(items)[k]
      ensures multiset(Snapshot()) == old(multiset(Snapshot()))
    {
      SinkStep(Snapshot(), lo, start, i, j, n);
      Swap(i, j);
    }

    /** One round of container/heap's down: either the entry at i rests, or it trades places with
        its larger child j. */
    method SinkOnce(i: nat, n: nat, ghost lo: nat, ghost start: nat) returns (j: nat, rests: bool)
      requires lo <= start <= i && n <= |items| && Indexed()
      requires SinkingAt(Snapshot(), lo, start, i, n)
      modifies this`items, Stored()`index
      ensures |items| == |old(items)| && Stored() == old(Stored()) && Indexed()
      ensures rests ==> items == old(items) && OrderedExcept(Snapshot(), lo, if i > start then -1 else start, n)
      ensures !rests ==> i < j < n && SinkingAt(Snapshot(), lo, start, j, n)
      ensures forall k :: n <= k < |items| ==> items[k] == old(items)[k]
      ensures multiset(Snapshot()) == old(multiset(Snapshot()))
    {
      j, rests := FindSink(i, n);
      if rests {
        SinkDone(Snapshot(), lo, start, i, n);
      } else {
        Sink(i, j, n, lo, start);
      }
    }

    /** container/heap's down: move the item at start away from the root, within the first n slots. */
    method Down(start: nat, n: nat, ghost lo: nat) returns (moved: bool)
      requires lo <= start && n <= |items| && Indexed()
      requires SinkingAt(Snapshot(), lo, start, start, n)
      modifies this`items, Stored()`index
      ensures |items| == |old(items)| && Stored() == old(Stored()) && Indexed()
      ensures OrderedExcept(Snapshot(), lo, if moved then -1 else start, n)
      ensures !moved ==> items == old(items)
      ensures forall k :: n <= k < |items| ==> items[k] == old(items)[k]
      ensures multiset(Snapshot()) == old(multiset(Snapshot()))
    {
      var i := start;
      while true
        invariant |items| == |old(items)| && Stored() == old(Stored()) && Indexed()
        invariant lo <= start <= i && SinkingAt(Snapshot(), lo, start, i, n)
        invariant i == start ==> items == old(items)
        invariant forall k :: n <= k < |items| ==> items[k] == old(items)[k]
        invariant multiset(Snapshot()) == old(multiset(Snapshot()))
        decreases n - i
      {
        var j, rests := SinkOnce(i, n, lo, start);
        if rests {
          break;
        }
        i := j;
      }
      moved := i > start;
    }

    /** container/heap's Init: establish heap order over whatever is stored. */
    method Init()
      requires Indexed()
      modifies this`items, Stored()`index
      ensures Valid()
      ensures |items| == |old(items)| && Stored() == old(Stored())
      ensures multiset(Snapshot()) == old(multiset(Snapshot()))
    {
      var n := |items|;
      var i := n / 2;
      while i > 0
        invariant |items| == n && Stored() == old(Stored())
        invariant 0 <= i <= n / 2 && Indexed()
        invariant OrderedExcept(Snapshot(), i, -1, n)
        invariant multiset(Snapshot()) == old(multiset(Snapshot()))
      {
        i := i - 1;
        var _ := Down(i, n, i);
      }
    }

    /** container/heap's Push. */
    method Push(item: Item<T>)
      requires Valid() && item !in items
      modifies this`items, Stored()`index, item`index
      ensures Valid()
      ensures |items| == |old(items)| + 1 && Stored() == old(Stored()) + {item}
      ensures multiset(Snapshot()) == old(multiset(Snapshot())) + multiset{old(item.View())}
    {
      ghost var before := Snapshot();
      Append(item);
      AppendRises(before, item.View());
      Up(Len() - 1);
    }

    /** The first half of container/heap's Pop: the root goes last, the rest becomes a heap. */
    method RootToLast()
      requires Valid() && |items| > 0
      modifies this`items, Stored()`index
      ensures |items| == |old(items)| && Stored() == old(Stored()) && Indexed()
      ensures OrderedExcept(Snapshot(), 0, -1, |items| - 1)
      ensures items[|items| - 1] == old(items)[0]
      ensures multiset(Snapshot()) == old(multiset(Snapshot()))
    {
      var n := Len() - 1;
      LastToRootSinks(Snapshot(), n);
      Swap(0, n);
      var _ := Down(0, n, 0);
    }

    /** container/heap's Pop: remove an item of maximum priority. */
    method Pop() returns (item: Item<T>)
      requires Valid() && |items| > 0
      modifies this`items, Stored()`index
      ensures Valid()
      ensures item in old(items) && item.index == -1 && item !in items
      ensures |items| == |old(items)| - 1 && Stored() == old(Stored()) - {item}
      ensures multiset(Snapshot()) == old(multiset(Snapshot())) - multiset{item.View()}
      ensures forall e :: e in old(Snapshot()) ==> e.priority <= item.priority
    {
      ghost var before := Snapshot();
      NoneAboveRoot(before);
      RootToLast();
      ghost var full := Snapshot();
      item := RemoveLast();
      DropLast(full, before[0]);
      OrderedFront(full);
    }

    /** container/heap's Fix: restore heap order after the priority at i changed. */
    method Fix(i: nat)
      requires i < |items| && Indexed()
      requires SinkingAt(Snapshot(), 0, i, i, |items|)
      modifies this`items, Stored()`index
      ensures Valid()
      ensures |items| == |old(items)| && Stored() == old(Stored())
      ensures multiset(Snapshot()) == old(multiset(Snapshot()))
    {
      var moved := Down(i, Len(), 0);
      if moved {
        FixedOrder(Snapshot());
      } else {
        SettledRises(Snapshot(), i);
        Up(i);
      }
    }

    /** Give a stored item a new value and any new priority. */
    method Update(item: Item<T>, value: T, priority: int)
      requires Valid() && item in items
      modifies this`items, Stored()`index, item
      ensures Valid()
      ensures item.value == value && item.priority == priority
      ensures |items| == |old(items)| && Stored() == old(Stored())
      ensures multiset(Snapshot()) ==
              old(multiset(Snapshot())) - multiset{old(item.View())} + multiset{Entry(value, priority)}
    {
      ghost var before, i := Snapshot(), item.index;
      item.value := value;
      item.priority := priority;
      ChangedSinks(before, i, item.View());
      assert Snapshot() == before[i := item.View()];
      Fix(item.index);
    }
  }
}
