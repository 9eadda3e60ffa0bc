/** The queue of span events and links: it keeps the newest, shifting in place. */
module EvictedQueue {
  import opened Prelude

  /** What is kept of the values added: all, or the last ones that fit. */
  function Newest<T>(capacity: int, all: seq<T>): seq<T>
  {
    if capacity < 0 || |all| <= capacity then all else all[|all| - capacity..]
  }

  /** One value more. */
  lemma NewestNext<T>(capacity: int, all: seq<T>, value: T)
    requires capacity != 0
    ensures var (kept, next) := (Newest(capacity, all), Newest(capacity, all + [value]));
      next == (if |kept| == capacity then kept[1..] else kept) + [value]
  {}

  /** The dropped count that a snapshot shows. */
  function Reported<T>(capacity: int, all: seq<T>): nat
  {
    if Newest(capacity, all) == [] then 0 else |all| - |Newest(capacity, all)|
  }

  /** The count shown is the number of values lost exactly when the capacity is not 0 or nothing was added. */
  lemma ReportedIff<T>(capacity: int, all: seq<T>)
    ensures Reported(capacity, all) == |all| - |Newest(capacity, all)| <==> capacity != 0 || all == []
  {}

  class Queue<T> {
    var store: array<T>
    var len: nat
    const capacity: int
    var droppedCount: nat
    /** The first drop has been logged. */
    var logged: bool
    ghost var all: seq<T>

    ghost predicate Valid()
      reads this, store
    {
      && len <= store.Length && store[..len] == Newest(capacity, all)
      && droppedCount == |all| - len && logged == (droppedCount > 0)
    }

    constructor (capacity: int)
      ensures Valid() && fresh(store) && all == [] && this.capacity == capacity
    {
      this.capacity := capacity;
      store := new T[0];
      len, droppedCount, logged, all := 0, 0, false, [];
    }

    /** One value more; the oldest goes when the queue is full, and every value lost is counted. */
    method Add(value: T)
      requires Valid()
      modifies this, store
      ensures Valid() && all == old(all) + [value] && (store == old(store) || fresh(store))
    {
      if capacity == 0 {
        droppedCount, logged, all := droppedCount + 1, true, all + [value];
        return;
      }
      ghost var kept := store[..len];
      if capacity > 0 && len == capacity {
        ShiftDown();
        len := capacity - 1;
        droppedCount, logged := droppedCount + 1, true;
        kept := kept[1..];
      }
      NewestNext(capacity, all, value);
      hide Newest;
      Append(value);
      assert kept + [value] == Newest(capacity, all + [value]);
      all := all + [value];
    }

    /** What `snapshot` takes from the queue: nothing at all, not even the count, when no value is held. */
    method Report() returns (values: seq<T>, dropped: nat)
      requires Valid()
      ensures values == Newest(capacity, all) && dropped == Reported(capacity, all)
    {
      values, dropped := [], 0;
      if len > 0 { values, dropped := store[..len], droppedCount; }
    }

    /** `copy` of the slice onto its own front. */
    method ShiftDown()
      requires 0 < len <= store.Length
      modifies store
      ensures store[..len - 1] == old(store[1..len])
    {
      forall i | 0 <= i < len - 1 { store[i] := store[i + 1]; }
    }

    /** `append`: a full backing array is replaced by a larger one. */
    method Append(value: T)
      requires len <= store.Length
      modifies this`store, this`len, store
      ensures len == old(len) + 1 <= store.Length && store[..len] == old(store[..len]) + [value]
      ensures store == old(store) || fresh(store)
    {
      if len == store.Length {
        var larger := new T[2 * len + 1](i requires 0 <= i reads this, store =>
          if i < store.Length then store[i] else value);
        assert larger[..len] == store[..len];
        store := larger;
      }
      store[len] := value;
      len := len + 1;
    }
  }
}
