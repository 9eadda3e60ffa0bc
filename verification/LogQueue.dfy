/** The queue of the log batch processor: a bounded FIFO that overwrites its oldest record. */
module LogQueue {
  import opened Prelude
  import opened Ring

  /** The modulus of the atomic 64-bit drop counter. */
  const COUNTER := 0x1_0000_0000_0000_0000

  /** What a queue is, apart from how it is stored. */
  datatype Fifo<T> = Fifo(cap: int, items: seq<T>, closed: bool, dropped: int)

  function Enqueued<T>(q: Fifo<T>, r: T): Fifo<T>
  {
    if q.closed then q
    else if |q.items| < q.cap then q.(items := q.items + [r])
    else if |q.items| == 0 then q
    else q.(items := q.items[1..] + [r], dropped := (q.dropped + 1) % COUNTER)
  }

  function Taken<T>(q: Fifo<T>, room: nat): seq<T>
  {
    q.items[..Min(room, |q.items|)]
  }

  function Dequeued<T>(q: Fifo<T>, room: nat): Fifo<T>
  {
    q.(items := q.items[Min(room, |q.items|)..])
  }

  /** The records as they stand in a slice. */
  function Records<T>(items: seq<T>): seq<Option<T>>
  {
    seq(|items|, i requires 0 <= i < |items| => Some(items[i]))
  }

  // ---------------------------------------------------------------- where records go

  /** How a record left the queue. */
  datatype Fate = Removed | Evicted

  datatype Gone<T> = Gone(item: T, fate: Fate)

  /** A queue with its past: what it accepted, what left it, and the drop counts reported so far. */
  datatype Tracked<T> = Tracked(q: Fifo<T>, accepted: seq<T>, gone: seq<Gone<T>>, told: nat)

  datatype Op<T> = Enqueue(r: T) | Dequeue(room: nat) | Close | Dropped

  function Labelled<T>(items: seq<T>, fate: Fate): (r: seq<Gone<T>>)
    ensures |r| == |items|
  {
    seq(|items|, i requires 0 <= i < |items| => Gone(items[i], fate))
  }

  function Apply<T>(t: Tracked<T>, op: Op<T>): Tracked<T>
  {
    match op
    case Enqueue(r) =>
      if t.q.closed then t
      else Tracked(Enqueued(t.q, r), t.accepted + [r], t.gone + Evictee(t.q), t.told)
    case Dequeue(room) =>
      t.(q := Dequeued(t.q, room), gone := t.gone + Labelled(Taken(t.q, room), Removed))
    case Close => t.(q := t.q.(closed := true))
    case Dropped => t.(q := t.q.(dropped := 0), told := t.told + Max(0, t.q.dropped))
  }

  /** What an accepted record pushes out. */
  function Evictee<T>(q: Fifo<T>): seq<Gone<T>>
  {
    if 0 < |q.items| && |q.items| >= q.cap then [Gone(q.items[0], Evicted)] else []
  }

  function ApplyAll<T>(t: Tracked<T>, ops: seq<Op<T>>): Tracked<T>
  {
    if |ops| == 0 then t else Apply(ApplyAll(t, ops[..|ops| - 1]), ops[|ops| - 1])
  }

  function Items<T>(gone: seq<Gone<T>>): (r: seq<T>)
    ensures |r| == |gone|
  {
    seq(|gone|, i requires 0 <= i < |gone| => gone[i].item)
  }

  function RemovedItems<T>(gone: seq<Gone<T>>): seq<T>
  {
    if |gone| == 0 then [] else
    var last := gone[|gone| - 1];
    RemovedItems(gone[..|gone| - 1]) + if last.fate == Removed then [last.item] else []
  }

  function Evictions<T>(gone: seq<Gone<T>>): nat
  {
    if |gone| == 0 then 0
    else Evictions(gone[..|gone| - 1]) + if gone[|gone| - 1].fate == Evicted then 1 else 0
  }

  /** Nothing is lost or reordered: what was accepted is what left, then what is held. */
  ghost predicate Conserved<T>(t: Tracked<T>)
  {
    && t.accepted == Items(t.gone) + t.q.items
    && t.q.cap >= 1 && |t.q.items| <= t.q.cap
    && Tallies(t.told, t.q.dropped, Evictions(t.gone))
  }

  /** The counts told and the counter account for the evictions, up to the width of the counter. */
  predicate Tallies(told: nat, dropped: int, evicted: nat)
  {
    0 <= dropped < COUNTER && (told + dropped - evicted) % COUNTER == 0
  }

  function Fresh<T>(cap: nat): Tracked<T> { Tracked(Fifo(cap, [], false, 0), [], [], 0) }

  lemma TalliesNext(told: nat, dropped: int, evicted: nat)
    requires Tallies(told, dropped, evicted)
    ensures Tallies(told, (dropped + 1) % COUNTER, evicted + 1)
  {
    if dropped + 1 == COUNTER {
      assert told + (dropped + 1) % COUNTER - (evicted + 1) == (told + dropped - evicted) - COUNTER;
    }
  }

  lemma TalliesTold(told: nat, dropped: int, evicted: nat)
    requires Tallies(told, dropped, evicted)
    ensures dropped >= 0 && Tallies(told + dropped, 0, evicted)
  {}

  lemma GoneNext<T>(gone: seq<Gone<T>>, g: Gone<T>)
    ensures RemovedItems(gone + [g]) == RemovedItems(gone) + if g.fate == Removed then [g.item] else []
    ensures Evictions(gone + [g]) == Evictions(gone) + if g.fate == Evicted then 1 else 0
    ensures Items(gone + [g]) == Items(gone) + [g.item]
  {
    assert (gone + [g])[..|gone|] == gone;
  }

  lemma {:induction false} LabelledEffect<T>(gone: seq<Gone<T>>, items: seq<T>)
    ensures RemovedItems(gone + Labelled(items, Removed)) == RemovedItems(gone) + items
    ensures Evictions(gone + Labelled(items, Removed)) == Evictions(gone)
    ensures Items(gone + Labelled(items, Removed)) == Items(gone) + items
  {
    if |items| == 0 {
      assert gone + Labelled(items, Removed) == gone;
    } else {
      var init, last := items[..|items| - 1], items[|items| - 1];
      LabelledNext(init, last, Removed);
      assert items == init + [last];
      hide RemovedItems, Evictions, Items, Labelled;
      LabelledEffect(gone, init);
      GoneNext(gone + Labelled(init, Removed), Gone(last, Removed));
      Rebracket(gone, Labelled(init, Removed), [Gone(last, Removed)]);
      Rebracket(RemovedItems(gone), init, [last]);
      Rebracket(Items(gone), init, [last]);
    }
  }

  lemma LabelledNext<T>(items: seq<T>, last: T, fate: Fate)
    ensures Labelled(items + [last], fate) == Labelled(items, fate) + [Gone(last, fate)]
  {}

  lemma EnqueueConserves<T>(t: Tracked<T>, r: T)
    requires Conserved(t)
    ensures Conserved(Apply(t, Enqueue(r)))
  {
    hide Items, Evictions, Tallies;
    if !t.q.closed {
      var items := t.q.items;
      if |items| == t.q.cap {
        GoneNext(t.gone, Gone(items[0], Evicted));
        TalliesNext(t.told, t.q.dropped, Evictions(t.gone));
        assert items + [r] == [items[0]] + (items[1..] + [r]);
      } else {
        assert t.gone + [] == t.gone;
      }
    }
  }

  lemma DequeueConserves<T>(t: Tracked<T>, room: nat)
    requires Conserved(t)
    ensures Conserved(Apply(t, Dequeue(room)))
  {
    hide Items, Evictions, Labelled, Tallies;
    var items, k := t.q.items, Min(room, |t.q.items|);
    LabelledEffect(t.gone, items[..k]);
    assert items == items[..k] + items[k..];
  }

  lemma ApplyConserves<T>(t: Tracked<T>, op: Op<T>)
    requires Conserved(t)
    ensures Conserved(Apply(t, op))
  {
    match op
    case Enqueue(r) => EnqueueConserves(t, r);
    case Dequeue(room) => DequeueConserves(t, room);
    case Close =>
    case Dropped => TalliesTold(t.told, t.q.dropped, Evictions(t.gone));
  }

  /** Every run of queue operations conserves its records, and counts every eviction once. */
  lemma {:induction false} RunsConserve<T>(cap: nat, ops: seq<Op<T>>)
    requires cap >= 1
    ensures Conserved(ApplyAll(Fresh(cap), ops))
  {
    if |ops| == 0 {
    } else {
      RunsConserve(cap, ops[..|ops| - 1]);
      ApplyConserves(ApplyAll(Fresh(cap), ops[..|ops| - 1]), ops[|ops| - 1]);
    }
  }

  /** The newest of one record more. */
  lemma NewestNext<T>(cap: nat, rs: seq<T>)
    requires cap >= 1 && |rs| > 0
    ensures var n := |rs| - 1;
      var kept := rs[..n][Max(0, n - cap)..];
      rs[Max(0, |rs| - cap)..] == (if |kept| == cap then kept[1..] else kept) + [rs[n]]
  {}

  /** Enqueueing alone keeps the newest records. */
  lemma {:induction false} NewestKept<T>(cap: nat, rs: seq<T>, ops: seq<Op<T>>)
    requires cap >= 1 && |ops| == |rs| && forall i :: 0 <= i < |rs| ==> ops[i] == Enqueue(rs[i])
    ensures var q := ApplyAll(Fresh(cap), ops).q;
      !q.closed && q.cap == cap && q.items == rs[Max(0, |rs| - cap)..]
  {
    if |ops| == 0 {
    } else {
      var n := |rs| - 1;
      NewestKept(cap, rs[..n], ops[..n]);
      assert ApplyAll(Fresh(cap), ops) == Apply(ApplyAll(Fresh(cap), ops[..n]), Enqueue(rs[n]));
      hide ApplyAll;
      NewestNext(cap, rs);
    }
  }

  // ---------------------------------------------------------------- slots of the ring

  /** The items lie in consecutive slots from start on; every other slot is zero. */
  ghost predicate Holds<T>(slots: seq<Option<T>>, start: nat, items: seq<T>)
  {
    && |items| <= |slots| && start < |slots|
    && (forall i {:trigger items[i]} :: 0 <= i < |items| ==> slots[Wrap(start + i, |slots|)] == Some(items[i]))
    && (forall k :: 0 <= k < |slots| && !InTurn(k, start, |items|, |slots|) ==> slots[k] == None)
  }

  /** Slot k is among the n slots from start on. */
  predicate InTurn(k: int, start: int, n: int, size: int)
  {
    start <= k < start + n || start <= k + size < start + n
  }

  /** A free slot takes the newest item. */
  lemma HoldsMore<T>(slots: seq<Option<T>>, start: nat, items: seq<T>, r: T)
    requires Holds(slots, start, items) && |items| < |slots|
    ensures Holds(slots[Wrap(start + |items|, |slots|) := Some(r)], start, items + [r])
    ensures Wrap(Wrap(start + |items|, |slots|) + 1, |slots|) == Wrap(start + |items| + 1, |slots|)
  {}

  /** With no free slot the newest item overwrites the oldest, and the one after that becomes oldest. */
  lemma HoldsNewest<T>(slots: seq<Option<T>>, start: nat, items: seq<T>, r: T)
    requires Holds(slots, start, items) && |items| == |slots|
    ensures Wrap(start + |items|, |slots|) == start
    ensures Holds(slots[start := Some(r)], Wrap(start + 1, |slots|), items[1..] + [r])
    ensures Wrap(Wrap(start + 1, |slots|) + |slots|, |slots|) == Wrap(start + 1, |slots|)
  {
    var start', items' := Wrap(start + 1, |slots|), items[1..] + [r];
    forall i | 0 <= i < |items'| ensures slots[start := Some(r)][Wrap(start' + i, |slots|)] == Some(items'[i]) {
      if i + 1 < |items| { assert items'[i] == items[i + 1]; }
    }
  }

  lemma HoldsPut<T>(slots: seq<Option<T>>, start: nat, items: seq<T>, r: T)
    requires Holds(slots, start, items)
    ensures var n := |slots|;
      var at := Wrap(start + |items|, n);
      && 0 <= at < n && start < n && |items| <= n
      && (|items| < n ==>
        && Holds(slots[at := Some(r)], start, items + [r])
        && Wrap(at + 1, n) == Wrap(start + |items| + 1, n))
      && (|items| == n ==>
        && Holds(slots[at := Some(r)], Wrap(start + 1, n), items[1..] + [r])
        && Wrap(at + 1, n) == Wrap(start + 1, n))
  {
    if |items| < |slots| { HoldsMore(slots, start, items, r); } else { HoldsNewest(slots, start, items, r); }
  }

  lemma HoldsLess<T>(slots: seq<Option<T>>, start: nat, items: seq<T>)
    requires Holds(slots, start, items) && |items| > 0
    ensures slots[start] == Some(items[0])
    ensures Holds(slots[start := None], Wrap(start + 1, |slots|), items[1..])
    ensures Wrap(Wrap(start + 1, |slots|) + |items| - 1, |slots|) == Wrap(start + |items|, |slots|)
  {
    var start', items' := Wrap(start + 1, |slots|), items[1..];
    forall i | 0 <= i < |items'| ensures slots[start := None][Wrap(start' + i, |slots|)] == Some(items'[i]) {
      assert items'[i] == items[i + 1];
    }
  }

  /** What the nodes hold, in order. */
  ghost predicate Mirrors<T>(nodes: seq<Ring<T>>, slots: seq<Option<T>>)
    reads nodes`value
  {
    |nodes| == |slots| && forall i :: 0 <= i < |nodes| ==> nodes[i].value == slots[i]
  }

  /** Storing in one node changes one slot. */
  method Store<T>(node: Ring<T>, v: Option<T>, ghost nodes: seq<Ring<T>>, ghost slots: seq<Option<T>>, ghost at: nat)
    requires Cycle(nodes) && Mirrors(nodes, slots) && at < |nodes| && nodes[at] == node
    modifies node`value
    ensures Mirrors(nodes, slots[at := v])
  {
    node.value := v;
  }

  class Queue<T> {
    var dropped: int
    var cap: int
    var len: int
    var read: Ring?<T>
    var write: Ring?<T>
    var closed: bool

    ghost var nodes: seq<Ring<T>>
    ghost var slots: seq<Option<T>>
    ghost var start: nat
    ghost var items: seq<T>

    ghost predicate Valid()
      reads this, nodes
    {
      Linked() && len == |items|
    }

    /** The items lie in the ring from read up to write, and `len` need not say so yet. */
    ghost predicate Linked()
      reads `cap, `dropped, `read, `write, `nodes, `slots, `start, `items, nodes
    {
      && Cycle(nodes) && Mirrors(nodes, slots)
      && |nodes| == Max(cap, 0) && 0 <= dropped < COUNTER
      && (nodes == [] ==> read == write == null && items == [])
      && (nodes != [] ==>
        && Holds(slots, start, items)
        && read == nodes[start] && write == nodes[Wrap(start + |items|, |nodes|)])
    }

    ghost function State(): Fifo<T>
      reads this
    {
      Fifo(cap, items, closed, dropped)
    }

    /** `newQueue` */
    constructor (size: int)
      ensures Valid() && forall x :: x in nodes ==> fresh(x)
      ensures State() == Fifo(size, [], false, 0)
    {
      var r, ring := NewRing<T>(size);
      cap, len, closed, dropped := size, 0, false, 0;
      read, write := r, r;
      nodes, slots, start, items := ring, seq(|ring|, _ => None), 0, [];
    }

    method Len() returns (n: int)
      requires Valid()
      ensures n == |State().items|
    {
      return len;
    }

    /** `Dropped` reads the counter and sets it back. */
    method Dropped() returns (n: int)
      requires Valid()
      modifies this`dropped
      ensures Valid() && n == old(dropped)
      ensures State() == old(State()).(dropped := 0)
    {
      n := dropped;
      dropped := 0;
    }

    method Close()
      requires Valid()
      modifies this`closed
      ensures Valid() && State() == old(State()).(closed := true)
    {
      closed := true;
    }

    /** On a queue without room for any record, `Enqueue` dereferences nil unless it is closed. */
    method Enqueue(r: T) returns (n: int, accepted: bool)
      requires Valid() && (cap >= 1 || closed)
      modifies this, read, write
      ensures Valid() && nodes == old(nodes)
      ensures State() == Enqueued(old(State()), r)
      ensures n == |State().items| && accepted == !old(closed)
    {
      if closed { return len, false; }
      Write(r);
      hide Valid, Written;
      if len > cap {
        Overflow(r);
      } else {
        Settle(r);
      }
      return len, true;
    }

    /** r has been written and counted, and it is not settled yet whether it overwrote the oldest record. */
    ghost predicate Written(r: T)
      reads this, nodes
    {
      && Cycle(nodes) && Mirrors(nodes, slots) && 0 <= dropped < COUNTER
      && |nodes| == cap >= 1 && len == |items| + 1 <= cap + 1 && start < cap && read == nodes[start]
      && (len <= cap ==> Holds(slots, start, items + [r]) && write == nodes[Wrap(start + len, cap)])
      && (len > cap ==> Holds(slots, Wrap(start + 1, cap), items[1..] + [r]) && write == nodes[Wrap(start + 1, cap)])
    }

    method Write(r: T)
      requires Valid() && cap >= 1
      modifies this`write, this`slots, this`len, write
      ensures Written(r) && len == old(len) + 1
    {
      assert |slots| == cap && start < cap;
      hide Holds, Mirrors, Cycle, Wrap;
      HoldsPut(slots, start, items, r);
      Fill(r, Wrap(start + len, cap));
      len := len + 1;
    }

    /** The record goes where write points, and write moves on. */
    method Fill(r: T, ghost at: nat)
      requires Cycle(nodes) && Mirrors(nodes, slots) && at < |nodes| && write == nodes[at]
      modifies this`write, this`slots, write
      ensures Cycle(nodes) && Mirrors(nodes, slots) && slots == old(slots)[at := Some(r)]
      ensures write == nodes[Wrap(at + 1, |nodes|)]
    {
      Store(write, Some(r), nodes, slots, at);
      hide Mirrors, Cycle;
      write := Second(write, nodes, at);
      slots := slots[at := Some(r)];
    }

    /** The oldest record is counted as dropped, and the next one is oldest. */
    method Overflow(r: T)
      requires Written(r) && len > cap
      modifies this`len, this`read, this`dropped, this`start, this`items, read
      ensures Valid() && len == cap && items == old(items[1..]) + [r] && dropped == (old(dropped) + 1) % COUNTER
    {
      hide Cycle, Mirrors, Holds;
      len := cap;
      read := Second(read, nodes, start);
      dropped := (dropped + 1) % COUNTER;
      start, items := Wrap(start + 1, cap), items[1..] + [r];
    }

    ghost method Settle(r: T)
      requires Written(r) && len <= cap
      modifies this`items
      ensures Valid() && items == old(items) + [r]
    {
      items := items + [r];
    }

    /** The loop body of `Dequeue` and `flush`: hand out the oldest record and zero its slot. */
    method Pop() returns (r: Option<T>)
      requires Linked() && items != []
      modifies this`read, this`slots, this`start, this`items, nodes
      ensures Linked() && r == Some(old(items[0])) && items == old(items[1..])
    {
      assert |slots| == |nodes| && start < |nodes|;
      HoldsLess(slots, start, items);
      hide Holds, Cycle, Mirrors, Wrap;
      r := Erase();
      start, items := Wrap(start + 1, |nodes|), items[1..];
    }

    /** Zero the slot that read points to, and move read on. */
    method Erase() returns (r: Option<T>)
      requires Cycle(nodes) && Mirrors(nodes, slots) && start < |nodes| && read == nodes[start]
      modifies this`read, this`slots, read
      ensures Cycle(nodes) && Mirrors(nodes, slots) && slots == old(slots)[start := None]
      ensures r == old(slots)[start] && read == nodes[Wrap(start + 1, |nodes|)]
    {
      r := read.value;
      Store(read, None, nodes, slots, start);
      hide Mirrors, Cycle;
      read := Second(read, nodes, start);
      slots := slots[start := None];
    }

    /** Records move to the front of buf; what lies behind them there stays. */
    method Dequeue(buf: array<Option<T>>) returns (n: int, remaining: int)
      requires Valid()
      modifies this, nodes, buf
      ensures Valid() && nodes == old(nodes)
      ensures State() == Dequeued(old(State()), buf.Length)
      ensures n == |Taken(old(State()), buf.Length)| && remaining == |State().items|
      ensures buf[..n] == Records(Taken(old(State()), buf.Length))
      ensures buf[n..] == old(buf[n..])
    {
      hide Linked;
      n := Min(buf.Length, len);
      FillFrom(buf, n);
      len := len - n;
      return n, len;
    }

    /** `flush`, the whole of the queue. */
    method Flush() returns (out: array<Option<T>>)
      requires Valid()
      modifies this, nodes
      ensures Valid() && nodes == old(nodes) && fresh(out)
      ensures State() == Dequeued(old(State()), |old(State()).items|)
      ensures out[..] == Records(old(State()).items)
    {
      hide Linked;
      out := new Option<T>[len](_ => None);
      FillFrom(out, out.Length);
      len := 0;
    }

    /** The loop of `Dequeue` and `flush`. */
    method FillFrom(buf: array<Option<T>>, n: int)
      requires Linked() && 0 <= n <= buf.Length && n <= |items|
      modifies this`read, this`slots, this`start, this`items, nodes, buf
      ensures Linked() && items == old(items[n..])
      ensures buf[..n] == Records(old(items[..n])) && buf[n..] == old(buf[n..])
    {
      hide Linked;
      ghost var all := items;
      for i := 0 to n
        invariant Linked() && items == all[i..]
        invariant forall k :: 0 <= k < i ==> buf[k] == Some(all[k])
        invariant buf[n..] == old(buf[n..])
      {
        var r := Pop();
        buf[i] := r;
      }
    }
  }
}
