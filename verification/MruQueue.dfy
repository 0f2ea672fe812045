/** The capacity-bounded most-recently-used queue of internal/data/mru.go. Its mutex makes every
    operation one step, so the operations are modelled one at a time. */
module MruQueues {
  import opened Time
  import opened PriorityQueues

  /** A positive capacity bounds the queue; any other capacity disables the limit. */
  predicate Full(capacity: int, size: nat) {
    capacity > 0 && size == capacity
  }

  class MruQueue<T(==)> {
    const capacity: int
    const store: PriorityQueue<T>

    /** The abstract queue: what is stored and the second at which it was last used. */
    ghost function Entries(): multiset<Entry<T>>
      reads store, store.items
    {
      multiset(store.Snapshot())
    }

    ghost predicate Valid()
      reads store, store.items
    {
      store.Valid() && (capacity > 0 ==> |Entries()| <= capacity)
    }

    constructor (capacity: int)
      ensures Valid() && this.capacity == capacity && Entries() == multiset{}
      ensures fresh(store) && store.Stored() == {}
    {
      this.capacity := capacity;
      store := new PriorityQueue<T>();
      new;
      store.Init();
    }

    /** Insert a value used just now; refused exactly when the queue is full. */
    method Push(value: T, now: int) returns (ok: bool)
      requires Valid()
      modifies store`items, store.Stored()`index
      ensures Valid() && fresh(store.Stored() - old(store.Stored()))
      ensures ok <==> capacity <= 0 || |old(Entries())| < capacity
      ensures Entries() == old(Entries()) + (if ok then multiset{Entry(value, UnixSecond(now))} else multiset{})
    {
      if capacity > 0 && store.Len() == capacity {
        return false;
      }
      var item := new Item(value, UnixSecond(now));
      store.Push(item);
      return true;
    }

    /** Remove a most recently used value; ties within one second go either way. Nothing is
        returned exactly when the queue is empty. */
    method Pop() returns (r: PopResult<T>)
      requires Valid()
      modifies store`items, store.Stored()`index
      ensures Valid() && store.Stored() <= old(store.Stored())
      ensures r.Nothing? <==> old(Entries()) == multiset{}
      ensures r.Nothing? ==> Entries() == multiset{}
      ensures r.Popped? ==>
                && IsMostRecent(old(Entries()), Entry(r.value, r.second))
                && Entries() == old(Entries()) - multiset{Entry(r.value, r.second)}
    {
      if store.Len() == 0 {
        return Nothing;
      }
      var item := store.Pop();
      return Popped(item.value, item.priority);
    }

    method Size() returns (n: nat)
      requires Valid()
      ensures n == |Entries()|
    {
      n := store.Len();
    }

    method Empty() returns (empty: bool)
      requires Valid()
      ensures empty <==> Entries() == multiset{}
    {
      empty := store.Len() == 0;
    }
  }

  datatype PopResult<T> = Nothing | Popped(value: T, second: int)

  /** e is stored and nothing stored was used in a later second. */
  ghost predicate IsMostRecent<T>(entries: multiset<Entry<T>>, e: Entry<T>) {
    e in entries && forall other :: other in entries ==> other.priority <= e.priority
  }
}
