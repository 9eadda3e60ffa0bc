/** The circular doubly linked list under the log queue. */
module Ring {
  import opened Prelude

  /** Position i of a circle of n, for i below 2 n. */
  function Wrap(i: int, n: int): int
  {
    if i < n then i else i - n
  }

  class Ring<T> {
    var next: Ring?<T>
    var prev: Ring?<T>
    /** None is the zero record. */
    var value: Option<T>

    /** The zero value: a ring of one element whose links are not set yet. */
    constructor ()
      ensures next == null && prev == null && value == None
    {
      next, prev, value := null, null, None;
    }

    method Init() returns (r: Ring<T>)
      modifies this`next, this`prev
      ensures r == next == prev == this
    {
      next := this;
      prev := this;
      return this;
    }

    method Next() returns (r: Ring<T>)
      modifies this`next, this`prev
      ensures r == next
      ensures if old(next) == null then next == prev == this else next == old(next) && prev == old(prev)
    {
      if next == null {
        r := Init();
        return;
      }
      return next;
    }

    method Prev() returns (r: Ring?<T>)
      modifies this`next, this`prev
      ensures r == prev
      ensures if old(next) == null then next == prev == this else next == old(next) && prev == old(prev)
    {
      if next == null {
        r := Init();
        return;
      }
      return prev;
    }
  }

  /** The nodes, in order, are linked forwards and backwards into one cycle and no node comes twice. */
  ghost predicate Cycle<T>(nodes: seq<Ring<T>>)
    reads nodes`next, nodes`prev
  {
    && (forall i, j :: 0 <= i < j < |nodes| ==> nodes[i] != nodes[j])
    && (forall i {:trigger nodes[i].next} :: 0 <= i < |nodes| ==>
      nodes[i].next == nodes[Wrap(i + 1, |nodes|)] && nodes[Wrap(i + 1, |nodes|)].prev == nodes[i])
  }

  /** The nodes are linked both ways, except that the last one has no successor yet. */
  ghost predicate Chain<T>(nodes: seq<Ring<T>>)
    reads nodes
  {
    && (forall i, j :: 0 <= i < j < |nodes| ==> nodes[i] != nodes[j])
    && (forall i {:trigger nodes[i].next} :: 0 <= i < |nodes| - 1 ==>
      nodes[i].next == nodes[i + 1] && nodes[i + 1].prev == nodes[i])
    && (forall i :: 0 <= i < |nodes| ==> nodes[i].value == None)
  }

  /** `newRing` */
  method NewRing<T>(n: int) returns (r: Ring?<T>, ghost nodes: seq<Ring<T>>)
    ensures n <= 0 ==> r == null && nodes == []
    ensures n > 0 ==> |nodes| == n && r == nodes[0]
    ensures forall i :: 0 <= i < |nodes| ==> fresh(nodes[i])
    ensures Cycle(nodes)
    ensures forall i :: 0 <= i < |nodes| ==> nodes[i].value == None
  {
    if n <= 0 { return null, []; }
    var first := new Ring<T>();
    var p := first;
    nodes := [p];
    for i := 1 to n
      invariant |nodes| == i && nodes[0] == first && nodes[i - 1] == p
      invariant forall k :: 0 <= k < |nodes| ==> fresh(nodes[k])
      invariant Chain(nodes)
    {
      var q := Extend(p, nodes);
      nodes := nodes + [q];
      p := q;
    }
    Join(p, first, nodes);
    r := first;
  }

  /** The body of the loop of `newRing`: one more node behind p. */
  method Extend<T>(p: Ring<T>, ghost nodes: seq<Ring<T>>) returns (q: Ring<T>)
    requires Chain(nodes) && |nodes| > 0 && nodes[|nodes| - 1] == p
    modifies p
    ensures fresh(q) && Chain(nodes + [q])
  {
    q := new Ring<T>();
    q.prev := p;
    p.next := q;
    ghost var all, n := nodes + [q], |nodes|;
    forall i | 0 <= i < n ensures all[i].next == all[i + 1] && all[i + 1].prev == all[i] {
      assert all[i] == nodes[i] && (i < n - 1 ==> all[i + 1] == nodes[i + 1]);
    }
  }

  /** The last two assignments of `newRing`. */
  method Join<T>(p: Ring<T>, first: Ring<T>, ghost nodes: seq<Ring<T>>)
    requires Chain(nodes) && |nodes| > 0 && nodes[|nodes| - 1] == p && nodes[0] == first
    modifies p, first
    ensures Cycle(nodes) && forall i :: 0 <= i < |nodes| ==> nodes[i].value == None
  {
    p.next := first;
    first.prev := p;
  }

  /** r is the element at position start of a ring: a cycle, or the zero value of one element. */
  ghost predicate IsRing<T>(r: Ring?<T>, nodes: seq<Ring<T>>, start: nat)
    reads nodes
  {
    if r == null then nodes == []
    else start < |nodes| && nodes[start] == r && (Cycle(nodes) || (nodes == [r] && r.next == null))
  }

  /** `r.Next()` on a ring: a zero ring becomes a cycle of one. */
  method Second<T>(r: Ring<T>, ghost nodes: seq<Ring<T>>, ghost start: nat) returns (p: Ring<T>)
    requires IsRing(r, nodes, start)
    modifies r`next, r`prev
    ensures Cycle(nodes) && p == nodes[Wrap(start + 1, |nodes|)]
  {
    assert Cycle(nodes) ==> r.next == nodes[Wrap(start + 1, |nodes|)];
    p := r.Next();
  }

  /** `Len`: one full turn visits every node of the cycle once. */
  method Len<T>(r: Ring?<T>, ghost nodes: seq<Ring<T>>, ghost start: nat) returns (n: nat)
    requires IsRing(r, nodes, start)
    modifies if r == null then {} else {r}
    ensures n == |nodes| && Cycle(nodes)
  {
    n := 0;
    if r != null {
      n := 1;
      var p := Second(r, nodes, start);
      while p != r
        invariant Cycle(nodes)
        invariant 1 <= n <= |nodes| && p == nodes[Wrap(start + n, |nodes|)]
        modifies {}
        decreases |nodes| - n
      {
        n := n + 1;
        p := p.next;
      }
    }
  }

  /** The first values from position start on, forwards. */
  ghost predicate Seen<T>(seen: seq<Option<T>>, nodes: seq<Ring<T>>, start: nat)
    reads nodes
  {
    && start < |nodes| && |seen| <= |nodes|
    && forall i {:trigger seen[i]} :: 0 <= i < |seen| ==> seen[i] == nodes[Wrap(start + i, |nodes|)].value
  }

  lemma SeenNext<T>(seen: seq<Option<T>>, nodes: seq<Ring<T>>, start: nat)
    requires Seen(seen, nodes, start) && |seen| < |nodes|
    ensures Seen(seen + [nodes[Wrap(start + |seen|, |nodes|)].value], nodes, start)
  {}

  /** `Do`, with the calls of f written down: every value once, forwards from r. */
  method Do<T>(r: Ring?<T>, ghost nodes: seq<Ring<T>>, ghost start: nat) returns (seen: seq<Option<T>>)
    requires IsRing(r, nodes, start)
    modifies if r == null then {} else {r}
    ensures Cycle(nodes) && |seen| == |nodes|
    ensures r != null ==> Seen(seen, nodes, start)
  {
    seen := [];
    if r != null {
      var p := Second(r, nodes, start);
      SeenNext([], nodes, start);
      seen := seen + [r.value];
      hide Seen;
      while p != r
        invariant Cycle(nodes) && Seen(seen, nodes, start)
        invariant 1 <= |seen| <= |nodes| && p == nodes[Wrap(start + |seen|, |nodes|)]
        decreases |nodes| - |seen|
      {
        SeenNext(seen, nodes, start);
        seen := seen + [p.value];
        p := p.next;
      }
    }
  }
}
