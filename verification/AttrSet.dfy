/**
  Attribute sets: in-place construction by stable sort and backwards de-duplication, lookup by binary
  search, and the iterators that walk one set or merge two.
  A set is the list its fixed-size array holds; the zero `Set` and `EmptySet` are both the empty list.
 */
module AttrSet {
  import opened Prelude
  import opened AttrValue

  /** The canonical form of a list of attributes: one entry per key, ascending, last value. */
  function Canonical(kvs: seq<KeyValue>): seq<KeyValue> { Collapse(StableSort(kvs)) }

  lemma CanonicalForm(kvs: seq<KeyValue>)
    ensures Ascending(Canonical(kvs))
    ensures ToMap(Canonical(kvs)) == ToMap(kvs)
    ensures forall kv :: kv in Canonical(kvs) ==> kv in kvs
  {
    StableSortSorted(kvs);
    CollapseAscending(StableSort(kvs));
    CollapseToMap(StableSort(kvs));
    StableSortToMap(kvs);
    CollapseMembers(StableSort(kvs));
    forall kv | kv in Canonical(kvs) ensures kv in kvs {
      assert kv in multiset(StableSort(kvs));
    }
  }

  /** Two lists build sets with the same contents exactly when they mean the same map. */
  lemma SameContentsIff(a: seq<KeyValue>, b: seq<KeyValue>)
    ensures Canonical(a) == Canonical(b) <==> ToMap(a) == ToMap(b)
  {
    CanonicalForm(a);
    CanonicalForm(b);
    if ToMap(a) == ToMap(b) { AscendingUnique(Canonical(a), Canonical(b)); }
  }

  lemma CanonicalFixed(s: seq<KeyValue>)
    requires Ascending(s)
    ensures Canonical(s) == s
  {
    AscendingIsSorted(s);
    StableSortFixed(s);
    CollapseFixed(s);
  }

  lemma {:induction false} CollapseHead(s: seq<KeyValue>)
    requires |s| > 0
    ensures Collapse(s)[0].key == s[0].key
  {
    if |s| > 1 { CollapseHead(s[1..]); }
  }

  /** `slices.SortStableFunc` on the argument's storage. */
  method SortStable(kvs: array<KeyValue>)
    modifies kvs
    ensures kvs[..] == StableSort(old(kvs[..]))
  {
    var sorted := StableSort(kvs[..]);
    forall i | 0 <= i < kvs.Length { kvs[i] := sorted[i]; }
  }

  lemma SwapKeepsContents(before: seq<KeyValue>, after: seq<KeyValue>, i: nat, j: nat)
    requires |before| == |after| && i < |before| && j < |before|
    requires after == before[i := before[j]][j := before[i]]
    ensures multiset(after) == multiset(before)
  {}

  /** The backwards loop of `NewSet`, offset entries still to go: s was sorted when it began. */
  ghost predicate Collapsing(s: seq<KeyValue>, sorted: seq<KeyValue>, offset: int, position: int)
  {
    && |s| == |sorted| && -1 <= offset < position < |s|
    && s[..offset + 1] == sorted[..offset + 1]
    && s[position..] == Collapse(sorted[offset + 1..])
    && multiset(s) == multiset(sorted)
  }

  lemma CollapsingStep(s: seq<KeyValue>, sorted: seq<KeyValue>, offset: nat, position: nat)
    requires Collapsing(s, sorted, offset, position)
    ensures s[offset].key == s[position].key ==> Collapsing(s, sorted, offset - 1, position)
    ensures s[offset].key != s[position].key ==>
      Collapsing(s[offset := s[position - 1]][position - 1 := s[offset]], sorted, offset - 1, position - 1)
  {
    var rest := sorted[offset + 1..];
    CollapseHead(rest);
    assert sorted[offset..] == [sorted[offset]] + rest;
    assert s[..offset] == s[..offset + 1][..offset] == sorted[..offset];
    assert s[offset] == s[..offset + 1][offset] == sorted[offset];
    assert s[position] == s[position..][0];
    if s[offset].key != s[position].key {
      var t := s[offset := s[position - 1]][position - 1 := s[offset]];
      assert t[position - 1..] == [sorted[offset]] + s[position..];
      assert t[..offset] == s[..offset];
      SwapKeepsContents(s, t, offset, position - 1);
    }
  }

  method CollapseInPlace(kvs: array<KeyValue>) returns (position: nat)
    requires kvs.Length > 0
    modifies kvs
    ensures position < kvs.Length
    ensures kvs[position..] == Collapse(old(kvs[..]))
    ensures multiset(kvs[..]) == multiset(old(kvs[..]))
  {
    ghost var sorted := kvs[..];
    position := kvs.Length - 1;
    var offset := position - 1;
    while offset >= 0
      invariant Collapsing(kvs[..], sorted, offset, position)
    {
      CollapsingStep(kvs[..], sorted, offset, position);
      if kvs[offset].key != kvs[position].key {
        ghost var before := kvs[..];
        position := position - 1;
        kvs[offset], kvs[position] := kvs[position], kvs[offset];
        assert kvs[..] == before[offset := before[position]][position := before[offset]];
      }
      offset := offset - 1;
    }
    assert sorted[0..] == sorted;
    assert kvs[..][position..] == kvs[position..];
  }

  /** The list left of the kept suffix holds the overwritten duplicates, so nothing is lost. */
  method NewSet(kvs: array<KeyValue>) returns (attrs: seq<KeyValue>)
    modifies kvs
    ensures attrs == Canonical(old(kvs[..]))
    ensures Ascending(attrs) && ToMap(attrs) == ToMap(old(kvs[..]))
    ensures |attrs| <= kvs.Length && kvs[kvs.Length - |attrs|..] == attrs
    ensures multiset(kvs[..]) == multiset(old(kvs[..]))
  {
    hide Ascending, Sorted, ToMap, StableSort, Collapse;
    CanonicalForm(kvs[..]);
    StableSortSorted(kvs[..]);
    if kvs.Length == 0 { return []; }
    SortStable(kvs);
    var position := CollapseInPlace(kvs);
    attrs := kvs[position..];
  }

  /** `Set.Value`: `sort.Search` for the first key that is not smaller, then one comparison. */
  method Lookup(attrs: seq<KeyValue>, k: bytes) returns (r: Option<Value>)
    requires Ascending(attrs)
    ensures r == if k in ToMap(attrs) then Some(ToMap(attrs)[k]) else None
  {
    var i, j := 0, |attrs|;
    while i < j
      invariant 0 <= i <= j <= |attrs|
      invariant forall x :: 0 <= x < i ==> Less(attrs[x].key, k)
      invariant forall x :: j <= x < |attrs| ==> !Less(attrs[x].key, k)
    {
      var h := (i + j) / 2;
      if Less(attrs[h].key, k) {
        forall x | 0 <= x < h ensures Less(attrs[x].key, k) {
          LessTransitive(attrs[x].key, attrs[h].key, k);
        }
        i := h + 1;
      } else {
        forall x | h <= x < |attrs| ensures !Less(attrs[x].key, k) {
          if x > h && Less(attrs[x].key, k) { LessTransitive(attrs[h].key, attrs[x].key, k); }
        }
        j := h;
      }
    }
    LessIrreflexive(k);
    ToMapKeys(attrs, k);
    if i < |attrs| && attrs[i].key == k {
      AscendingLookup(attrs, i);
      return Some(attrs[i].value);
    }
    forall x | i < x < |attrs| ensures attrs[x].key != k {
      assert Less(attrs[i].key, attrs[x].key);
    }
    return None;
  }

  // ---------------------------------------------------------------- iterators

  /** `Iterator` and `oneIterator` are structs held by value: their methods give the updated struct. */
  datatype Iterator = Iterator(storage: seq<KeyValue>, idx: int) {
    function Next(): (Iterator, bool)
    {
      (this.(idx := idx + 1), idx + 1 < |storage|)
    }

    /** The attribute at the cursor; the zero KeyValue when there is none. */
    function Attribute(): KeyValue
    {
      if 0 <= idx < |storage| then storage[idx] else KeyValue([], Empty)
    }
  }

  datatype OneIterator = OneIterator(iter: Iterator, done: bool, attr: KeyValue) {
    predicate Valid()
    {
      && 0 <= iter.idx
      && done == (iter.idx >= |iter.storage|)
      && (!done ==> attr == iter.storage[iter.idx])
    }

    /** What this iterator has yet to yield, the loaded attribute included. */
    function Rest(): seq<KeyValue>
      requires Valid()
    {
      if done then [] else iter.storage[iter.idx..]
    }

    function Advance(): (r: OneIterator)
      requires iter.idx >= -1
      ensures r.Valid() && r.iter.storage == iter.storage && r.iter.idx == iter.idx + 1
    {
      var (next, ok) := iter.Next();
      if ok then OneIterator(next, false, next.Attribute()) else OneIterator(next, true, attr)
    }

    lemma AdvanceRest()
      requires Valid() && !done
      ensures Rest() == [attr] + Advance().Rest()
    {}
  }

  /** `makeOne(s.Iter())` */
  function MakeOne(attrs: seq<KeyValue>): (r: OneIterator)
    ensures r.Valid() && r.Rest() == attrs
  {
    var r := OneIterator(Iterator(attrs, -1), false, KeyValue([], Empty)).Advance();
    assert r.Rest() == attrs;
    r
  }

  /** The first-biased merge of two ascending lists; the lemmas below say what it denotes. */
  function Merged(a: seq<KeyValue>, b: seq<KeyValue>): seq<KeyValue>
    decreases |a| + |b|
  {
    if |a| == 0 then b
    else if |b| == 0 then a
    else if a[0].key == b[0].key then [a[0]] + Merged(a[1..], b[1..])
    else if Less(a[0].key, b[0].key) then [a[0]] + Merged(a[1..], b)
    else [b[0]] + Merged(a, b[1..])
  }

  class MergeIterator {
    var one: OneIterator
    var two: OneIterator
    var current: KeyValue

    predicate Valid()
      reads this
    {
      one.Valid() && two.Valid()
    }

    /** What is still to be yielded. */
    function Rest(): seq<KeyValue>
      reads this
      requires Valid()
    {
      Merged(one.Rest(), two.Rest())
    }

    constructor (s1: seq<KeyValue>, s2: seq<KeyValue>)
      ensures Valid() && Rest() == Merged(s1, s2)
    {
      one, two := MakeOne(s1), MakeOne(s2);
      current := KeyValue([], Empty);
    }

    /** Each call yields the next element of the merge. */
    method Next() returns (ok: bool)
      requires Valid()
      modifies this
      ensures Valid()
      ensures ok == (old(Rest()) != [])
      ensures ok ==> old(Rest()) == [current] + Rest()
      ensures !ok ==> Rest() == []
    {
      if one.done && two.done { return false; }
      if one.done {
        current := two.attr;
        two.AdvanceRest();
        two := two.Advance();
        return true;
      }
      if two.done {
        current := one.attr;
        one.AdvanceRest();
        one := one.Advance();
        return true;
      }
      if one.attr.key == two.attr.key {
        current := one.attr; // the first iterator's value wins
        one.AdvanceRest();
        one := one.Advance();
        two.AdvanceRest();
        two := two.Advance();
        return true;
      }
      if Less(one.attr.key, two.attr.key) {
        current := one.attr;
        one.AdvanceRest();
        one := one.Advance();
        return true;
      }
      current := two.attr;
      two.AdvanceRest();
      two := two.Advance();
      return true;
    }
  }

  lemma {:induction false} MergedMembers(a: seq<KeyValue>, b: seq<KeyValue>, kv: KeyValue)
    requires kv in Merged(a, b)
    ensures kv in a || kv in b
    decreases |a| + |b|
  {
    if |a| == 0 || |b| == 0 {
    } else if kv == Merged(a, b)[0] {
    } else if a[0].key == b[0].key { MergedMembers(a[1..], b[1..], kv);
    } else if Less(a[0].key, b[0].key) { MergedMembers(a[1..], b, kv);
    } else { MergedMembers(a, b[1..], kv); }
  }

  /** A key below everything in both lists is below everything in the merge. */
  lemma BelowMerged(k: bytes, a: seq<KeyValue>, b: seq<KeyValue>)
    requires forall i :: 0 <= i < |a| ==> Less(k, a[i].key)
    requires forall i :: 0 <= i < |b| ==> Less(k, b[i].key)
    ensures forall i :: 0 <= i < |Merged(a, b)| ==> Less(k, Merged(a, b)[i].key)
  {
    forall i | 0 <= i < |Merged(a, b)| ensures Less(k, Merged(a, b)[i].key) {
      MergedMembers(a, b, Merged(a, b)[i]);
    }
  }

  /** A key below the head of an ascending list is below all of it. */
  lemma BelowHead(k: bytes, s: seq<KeyValue>)
    requires Ascending(s) && |s| > 0 && Less(k, s[0].key)
    ensures forall i :: 0 <= i < |s| ==> Less(k, s[i].key)
  {
    forall i | 1 <= i < |s| ensures Less(k, s[i].key) {
      LessTransitive(k, s[0].key, s[i].key);
    }
  }

  lemma {:induction false} MergedAscending(a: seq<KeyValue>, b: seq<KeyValue>)
    requires Ascending(a) && Ascending(b)
    ensures Ascending(Merged(a, b))
    decreases |a| + |b|
  {
    if |a| > 0 && |b| > 0 {
      LessTrichotomy(a[0].key, b[0].key);
      if a[0].key == b[0].key {
        MergedAscending(a[1..], b[1..]);
        BelowMerged(a[0].key, a[1..], b[1..]);
      } else if Less(a[0].key, b[0].key) {
        MergedAscending(a[1..], b);
        BelowHead(a[0].key, b);
        BelowMerged(a[0].key, a[1..], b);
      } else {
        MergedAscending(a, b[1..]);
        BelowHead(b[0].key, a);
        BelowMerged(b[0].key, a, b[1..]);
      }
    }
  }

  function One(kv: KeyValue): Dict { map[kv.key := kv.value] }

  lemma FirstOfBothWins(x: KeyValue, y: KeyValue, m: Dict, n: Dict)
    requires x.key == y.key && x.key !in m && x.key !in n
    ensures One(x) + (n + m) == (One(y) + n) + (One(x) + m)
  {}

  lemma SmallestOfFirst(x: KeyValue, m: Dict, n: Dict)
    requires x.key !in n
    ensures One(x) + (n + m) == n + (One(x) + m)
  {}

  lemma {:induction false} MergedToMap(a: seq<KeyValue>, b: seq<KeyValue>)
    requires Ascending(a) && Ascending(b)
    ensures ToMap(Merged(a, b)) == ToMap(b) + ToMap(a)
    decreases |a| + |b|
  {
    if |a| > 0 && |b| > 0 {
      LessTrichotomy(a[0].key, b[0].key);
      if a[0].key == b[0].key {
        MergedToMap(a[1..], b[1..]);
        HeadKeyNotInTail(a);
        HeadKeyNotInTail(b);
        assert Merged(a, b)[1..] == Merged(a[1..], b[1..]);
        FirstOfBothWins(a[0], b[0], ToMap(a[1..]), ToMap(b[1..]));
      } else if Less(a[0].key, b[0].key) {
        MergedToMap(a[1..], b);
        SmallerKeyNotIn(a[0].key, b);
        assert Merged(a, b)[1..] == Merged(a[1..], b);
        SmallestOfFirst(a[0], ToMap(a[1..]), ToMap(b));
      } else {
        MergedToMap(a, b[1..]);
        assert Merged(a, b)[1..] == Merged(a, b[1..]);
        MapUnionAssociative(One(b[0]), ToMap(b[1..]), ToMap(a));
      }
    }
  }

  lemma SmallerKeyNotIn(k: bytes, s: seq<KeyValue>)
    requires Ascending(s) && |s| > 0 && Less(k, s[0].key)
    ensures k !in ToMap(s)
  {
    BelowHead(k, s);
    LessIrreflexive(k);
    ToMapKeys(s, k);
  }

  lemma HeadKeyNotInTail(s: seq<KeyValue>)
    requires Ascending(s) && |s| > 0
    ensures s[0].key !in ToMap(s[1..])
  {
    AscendingIsSorted(s);
    ToMapKeys(s[1..], s[0].key);
  }

  /** Merging two sets is the set built from the second list followed by the first. */
  lemma MergedIsCanonical(a: seq<KeyValue>, b: seq<KeyValue>)
    requires Ascending(a) && Ascending(b)
    ensures Merged(a, b) == Canonical(b + a)
  {
    MergedAscending(a, b);
    MergedToMap(a, b);
    CanonicalForm(b + a);
    ToMapAppend(b, a);
    AscendingUnique(Merged(a, b), Canonical(b + a));
  }

  /** Drain a merge iterator into a slice, as `Merge` and `mergeSets` do. */
  method Combine(first: seq<KeyValue>, second: seq<KeyValue>) returns (combined: seq<KeyValue>)
    ensures combined == Merged(first, second)
  {
    hide Merged;
    var mi := new MergeIterator(first, second);
    combined := [];
    ghost var rest := mi.Rest();
    var ok := mi.Next();
    while ok
      invariant mi.Valid()
      invariant fresh(mi)
      invariant Merged(first, second) == combined + rest
      invariant ok == (rest != []) && (ok ==> rest == [mi.current] + mi.Rest())
      decreases |rest|
    {
      combined := combined + [mi.current];
      rest := rest[1..];
      ok := mi.Next();
    }
  }

  /** `mergeSets`: the union of two sets, the second one's values winning. */
  method MergeSets(a: seq<KeyValue>, b: seq<KeyValue>) returns (attrs: seq<KeyValue>)
    requires Ascending(a) && Ascending(b)
    ensures attrs == Canonical(a + b)
    ensures Ascending(attrs) && ToMap(attrs) == ToMap(a) + ToMap(b)
  {
    var merged := Combine(b, a);
    MergedAscending(b, a);
    MergedToMap(b, a);
    MergedIsCanonical(b, a);
    CanonicalFixed(merged);
    var storage := new KeyValue[|merged|](i requires 0 <= i < |merged| => merged[i]);
    assert storage[..] == merged;
    attrs := NewSet(storage);
  }
}
