/**
  The attributes of a log record: the first five in an inline array, the rest in a slice, with keys
  found through an index of signed positions.
 */
module LogRecord {
  import opened Prelude
  import opened AttrValue
  import opened KeyedList
  import opened Truncate

  /** `attributesInlineCount` */
  const INLINE := 5

  function NormalAll(valueLimit: int, kvs: seq<KeyValue>): (r: seq<KeyValue>)
    ensures |r| == |kvs|
  {
    seq(|kvs|, i requires 0 <= i < |kvs| => Normal(valueLimit, kvs[i]))
  }

  /** How many of p's entries may stay when n of them were there before. */
  function Retained(limit: int, n: nat, p: seq<KeyValue>): (k: nat)
    requires n <= |p|
    ensures n <= k <= |p|
  {
    if limit < 0 then |p| else Max(n, Min(limit, |p|))
  }

  /**
    The ordered map after `AddAttributes`: attrs are set one by one, then the new keys beyond the limit
    are cut off and counted.  New entries are normalised; overwritten ones hold the value as passed.
   */
  function Added(l: Limits, m: Attrs, attrs: seq<KeyValue>): Attrs
  {
    var n := |m.entries|;
    var p := PutAll(m.entries, attrs);
    PutAllGrows(m.entries, attrs);
    var k := Retained(l.count, n, p);
    Attrs(p[..n] + NormalAll(l.value, p[n..k]), m.dropped + |p| - k)
  }

  lemma {:induction false} PutAllGrows(s: seq<KeyValue>, kvs: seq<KeyValue>)
    ensures |PutAll(s, kvs)| >= |s|
    ensures forall i :: 0 <= i < |s| ==> PutAll(s, kvs)[i].key == s[i].key
  {
    if |kvs| == 0 {
    } else {
      PutAllGrows(s, kvs[..|kvs| - 1]);
    }
  }

  lemma {:induction false} PutAllStorable(s: seq<KeyValue>, kvs: seq<KeyValue>)
    requires StorableAttrs(kvs)
    ensures forall i :: |s| <= i < |PutAll(s, kvs)| ==> WellFormed(PutAll(s, kvs)[i].value)
  {
    PutAllGrows(s, kvs);
    if |kvs| == 0 {
    } else {
      PutAllStorable(s, kvs[..|kvs| - 1]);
      PutAllGrows(s, kvs[..|kvs| - 1]);
    }
  }

  lemma AddedToNone(l: Limits, dropped: nat, attrs: seq<KeyValue>, kept: seq<KeyValue>)
    requires kept == Distinct(attrs)[..Retained(l.count, 0, Distinct(attrs))] && StorableAttrs(attrs)
    ensures StorableAttrs(kept)
    ensures Added(l, Attrs([], dropped), attrs) ==
      Attrs(NormalAll(l.value, kept), dropped + |Distinct(attrs)| - |kept|)
  {
    PutAllStorable([], attrs);
    assert Distinct(attrs)[0..|kept|] == kept;
    hide Normal;
  }

  /** How many of u new entries fit beside n old ones. */
  function Room(limit: int, n: nat, u: nat): (last: nat)
    ensures last <= u
  {
    if limit >= 0 && n + u > limit then Max(0, limit - n) else u
  }

  lemma AddedByParts(l: Limits, m: Attrs, attrs: seq<KeyValue>, held: seq<KeyValue>, unique: seq<KeyValue>)
    requires held + unique == PutAll(m.entries, attrs) && |held| == |m.entries| && StorableAttrs(attrs)
    ensures StorableAttrs(unique)
    ensures var last := Room(l.count, |held|, |unique|);
      Added(l, m, attrs) == Attrs(held + NormalAll(l.value, unique[..last]), m.dropped + |unique| - last)
  {
    PutAllGrows(m.entries, attrs);
    PutAllStorable(m.entries, attrs);
    var n, p := |held|, held + unique;
    forall i | 0 <= i < |unique| ensures WellFormed(unique[i].value) { assert unique[i] == p[n + i]; }
    assert p[..n] == held && p[n..Retained(l.count, n, p)] == unique[..Room(l.count, n, |unique|)];
  }

  // ---------------------------------------------------------------- signed positions

  /** `attrIndex`: -(i + 1) for position i of front, j for position j of back. */
  ghost predicate SignedIndex(index: map<bytes, int>, front: seq<KeyValue>, back: seq<KeyValue>)
  {
    && (forall i :: 0 <= i < |front| ==> front[i].key in index && index[front[i].key] == -i - 1)
    && (forall j :: 0 <= j < |back| ==> back[j].key in index && index[back[j].key] == j)
    && (forall k :: k in index ==>
      var x := index[k];
      if x < 0 then -x <= |front| && front[-x - 1].key == k else x < |back| && back[x].key == k)
  }

  lemma SignedIndexFront(index: map<bytes, int>, f: seq<KeyValue>, b: seq<KeyValue>, i: int)
    requires 0 <= i < |f| && UniqueKeys(f + b) && SignedIndex(index, f[..i], [])
    ensures SignedIndex(index[f[i].key := -i - 1], f[..i + 1], [])
  {
    forall x | 0 <= x < i ensures f[x].key != f[i].key {
      assert (f + b)[x] == f[x] && (f + b)[i] == f[i];
    }
    hide UniqueKeys;
    forall x | 0 <= x < i ensures f[..i + 1][x] == f[..i][x] {}
  }

  lemma SignedIndexBack(index: map<bytes, int>, f: seq<KeyValue>, b: seq<KeyValue>, j: int)
    requires 0 <= j < |b| && UniqueKeys(f + b) && SignedIndex(index, f, b[..j])
    ensures SignedIndex(index[b[j].key := j], f, b[..j + 1])
  {
    forall x | 0 <= x < |f| ensures f[x].key != b[j].key {
      assert (f + b)[x] == f[x] && (f + b)[|f| + j] == b[j];
    }
    forall x | 0 <= x < j ensures b[x].key != b[j].key && b[..j + 1][x] == b[..j][x] {
      assert (f + b)[|f| + x] == b[x] && (f + b)[|f| + j] == b[j];
    }
  }

  /** The positions found are those in front + back, and absent keys are absent there. */
  lemma SignedIndexFinds(index: map<bytes, int>, front: seq<KeyValue>, back: seq<KeyValue>, k: bytes)
    requires SignedIndex(index, front, back)
    ensures k in index <==> Has(front + back, k)
    ensures k in index ==> Find(front + back, k) == if index[k] < 0 then -index[k] - 1 else |front| + index[k]
  {
    var all := front + back;
    if Has(all, k) {
      var i := Find(all, k);
      if i < |front| { assert front[i].key == k; } else { assert back[i - |front|].key == k; }
    }
    if k in index {
      var x := index[k];
      assert all[if x < 0 then -x - 1 else |front| + x].key == k;
    }
  }

  /** Storing at the position found is `Put`, and moves no key. */
  lemma StoredFront(index: map<bytes, int>, f: seq<KeyValue>, b: seq<KeyValue>, a: KeyValue)
    requires SignedIndex(index, f, b) && a.key in index && index[a.key] < 0
    ensures var i := -(index[a.key] + 1);
      i < |f| && f[i := a] + b == Put(f + b, a) && SignedIndex(index, f[i := a], b)
  {
    SignedIndexFinds(index, f, b, a.key);
    assert f[-(index[a.key] + 1) := a] + b == (f + b)[Find(f + b, a.key) := a];
  }

  lemma StoredBack(index: map<bytes, int>, f: seq<KeyValue>, b: seq<KeyValue>, a: KeyValue)
    requires SignedIndex(index, f, b) && a.key in index && index[a.key] >= 0
    ensures var j := index[a.key];
      j < |b| && f + b[j := a] == Put(f + b, a) && SignedIndex(index, f, b[j := a])
  {
    SignedIndexFinds(index, f, b, a.key);
    assert f + b[index[a.key] := a] == (f + b)[Find(f + b, a.key) := a];
  }

  // ---------------------------------------------------------------- the code

  /** `dedup`: the argument itself comes back when it repeats no key. */
  method Dedup(kvs: seq<KeyValue>) returns (unique: seq<KeyValue>, dropped: nat)
    ensures unique == Distinct(kvs) && dropped == |kvs| - |unique|
  {
    if |kvs| <= 1 {
      if |kvs| == 1 { PutAllOne([], kvs[0]); assert kvs == [kvs[0]]; }
      return kvs, 0;
    }
    assert kvs[..0] == [] && kvs[..|kvs|] == kvs && Distinct([]) == [];
    hide PutAll;
    var index: map<bytes, int> := map[];
    unique, dropped := [], 0;
    for i := 0 to |kvs|
      invariant unique == Distinct(kvs[..i]) && dropped == i - |unique|
      invariant Indexes(index, unique)
      invariant dropped == 0 ==> unique == kvs[..i]
    {
      var a := kvs[i];
      PutAllNext([], kvs, i);
      IndexFinds(index, unique, a.key);
      IndexPut(index, unique, a);
      if a.key in index {
        dropped := dropped + 1;
        unique := unique[index[a.key] := a];
      } else {
        index := index[a.key := |unique|];
        unique := unique + [a];
      }
    }
    if dropped == 0 { return kvs, 0; }
  }

  class Record {
    var front: array<KeyValue>
    var nFront: nat
    var back: seq<KeyValue>
    var dropped: nat
    const limits: Limits

    predicate Valid()
      reads this
    {
      front.Length == INLINE && nFront <= INLINE && (back != [] ==> nFront == INLINE)
    }

    function Attributes(): seq<KeyValue>
      reads this, front
      requires Valid()
    {
      front[..nFront] + back
    }

    function State(): Attrs
      reads this, front
      requires Valid()
    {
      Attrs(Attributes(), dropped)
    }

    constructor (limits: Limits)
      ensures Valid() && fresh(front) && this.limits == limits
      ensures State() == Attrs([], 0)
    {
      this.limits := limits;
      front := new KeyValue[INLINE](_ => KeyValue([], Empty));
      nFront, back, dropped := 0, [], 0;
    }

    /** A copy that shares no storage with the original. */
    constructor Clone(r: Record)
      requires r.Valid()
      ensures Valid() && fresh(front) && limits == r.limits
      ensures State() == r.State()
    {
      limits := r.limits;
      var copy := new KeyValue[INLINE](i requires 0 <= i < INLINE reads r, r.front requires r.Valid() => r.front[i]);
      front := copy;
      nFront, back, dropped := r.nFront, r.back, r.dropped;
      new;
      assert front[..nFront] == r.front[..nFront];
    }

    /** The loop that `AddAttrs` and `SetAttributes` begin with; i attributes fit. */
    method FillFront(attrs: seq<KeyValue>) returns (i: nat)
      requires front.Length == INLINE && nFront <= INLINE && StorableAttrs(attrs)
      modifies this`nFront, front
      ensures i <= |attrs| && nFront == old(nFront) + i <= INLINE
      ensures i < |attrs| ==> nFront == INLINE
      ensures front[..nFront] == old(front[..nFront]) + NormalAll(limits.value, attrs[..i])
    {
      i := 0;
      while i < |attrs| && nFront < INLINE
        invariant i <= |attrs| && nFront == old(nFront) + i <= INLINE
        invariant front[..nFront] == old(front[..nFront]) + NormalAll(limits.value, attrs[..i])
      {
        var a := NormalizeAttr(limits.value, attrs[i]);
        ghost var before := front[..nFront];
        front[nFront] := a;
        nFront := nFront + 1;
        i := i + 1;
        assert front[..nFront] == before + [a];
        assert NormalAll(limits.value, attrs[..i]) == NormalAll(limits.value, attrs[..i - 1]) + [a];
      }
    }

    /** Normalise the slice in place from position j on. */
    method NormalizeBack(j: nat)
      requires j <= |back| && StorableAttrs(back[j..])
      modifies this`back
      ensures back == old(back)[..j] + NormalAll(limits.value, old(back)[j..])
    {
      for x := j to |back|
        invariant |back| == |old(back)|
        invariant forall y :: 0 <= y < j || x <= y < |back| ==> back[y] == old(back)[y]
        invariant forall y :: j <= y < x ==> back[y] == Normal(limits.value, old(back)[y])
      {
        assert old(back)[j..][x - j] == back[x];
        var a := NormalizeAttr(limits.value, back[x]);
        back := back[x := a];
      }
    }

    /** `AddAttrs`: fill the inline array, then the slice. */
    method AddAttrs(attrs: seq<KeyValue>)
      requires Valid() && StorableAttrs(attrs)
      modifies this`nFront, this`back, front
      ensures Valid()
      ensures Attributes() == old(Attributes()) + NormalAll(limits.value, attrs)
    {
      ghost var f, b := front[..nFront], back;
      var i := FillFront(attrs);
      var j := |back|;
      back := back + attrs[i..];
      assert back[j..] == attrs[i..] && back[..j] == b;
      NormalizeBack(j);
      NormalAllSplit(limits.value, attrs, i);
      Rejoin(f, b, NormalAll(limits.value, attrs[..i]), NormalAll(limits.value, attrs[i..]));
    }

    /** `SetAttributes` */
    method SetAttributes(attrs: seq<KeyValue>)
      requires Valid() && StorableAttrs(attrs)
      modifies this`nFront, this`back, this`dropped, front
      ensures Valid()
      ensures State() == Added(limits, Attrs([], 0), attrs)
    {
      dropped := 0;
      var unique, _ := Dedup(attrs);
      var kept, drop := Head(unique);
      AddedToNone(limits, 0, attrs, kept);
      hide Added, PutAll, Retained;
      dropped := dropped + drop;
      Refill(kept);
    }

    /** Array and slice are filled anew. */
    method Refill(kept: seq<KeyValue>)
      requires Valid() && StorableAttrs(kept)
      modifies this`nFront, this`back, front
      ensures Valid() && Attributes() == NormalAll(limits.value, kept)
    {
      hide StorableAttrs, NormalAll;
      nFront := 0;
      StorableTail(kept);
      var i := FillFront(kept);
      back := kept[i..];
      assert back[0..] == back && back[..0] == [] && front[..0] == [];
      NormalizeBack(0);
      NormalAllSplit(limits.value, kept, i);
    }

    /** `head` */
    method Head(kvs: seq<KeyValue>) returns (out: seq<KeyValue>, drop: nat)
      ensures out == kvs[..Retained(limits.count, 0, kvs)] && drop == |kvs| - |out|
    {
      if limits.count < 0 || |kvs| <= limits.count { return kvs, 0; }
      if limits.count == 0 { return [], |kvs|; }
      return kvs[..limits.count], |kvs| - limits.count;
    }

    /** `attrIndex` */
    method AttrIndex() returns (index: map<bytes, int>)
      requires Valid() && UniqueKeys(Attributes())
      ensures SignedIndex(index, front[..nFront], back)
    {
      hide UniqueKeys;
      index := map[];
      ghost var f := front[..nFront];
      for i := 0 to nFront
        invariant SignedIndex(index, f[..i], [])
      {
        SignedIndexFront(index, f, back, i);
        index := index[front[i].key := -i - 1];
      }
      assert f[..nFront] == f && back[..0] == [];
      for j := 0 to |back|
        invariant SignedIndex(index, f, back[..j])
      {
        SignedIndexBack(index, f, back, j);
        index := index[back[j].key := j];
      }
      assert back[..|back|] == back;
    }

    /** `AddAttributes` */
    method AddAttributes(attrs: seq<KeyValue>)
      requires Valid() && UniqueKeys(Attributes()) && StorableAttrs(attrs)
      modifies this`nFront, this`back, this`dropped, front
      ensures Valid()
      ensures State() == Added(limits, old(State()), attrs)
    {
      if nFront + |back| == 0 {
        AddToEmpty(attrs);
      } else {
        AddToSome(attrs);
      }
    }

    method AddToEmpty(attrs: seq<KeyValue>)
      requires Valid() && Attributes() == [] && StorableAttrs(attrs)
      modifies this`nFront, this`back, this`dropped, front
      ensures Valid()
      ensures State() == Added(limits, old(State()), attrs)
    {
      var unique, _ := Dedup(attrs);
      var kept, drop := Head(unique);
      AddedToNone(limits, dropped, attrs, kept);
      hide Added, PutAll, Retained;
      dropped := dropped + drop;
      AddAttrs(kept);
    }

    method AddToSome(attrs: seq<KeyValue>)
      requires Valid() && UniqueKeys(Attributes()) && StorableAttrs(attrs)
      modifies this`nFront, this`back, this`dropped, front
      ensures Valid()
      ensures State() == Added(limits, old(State()), attrs)
    {
      var n := nFront + |back|;
      var rIndex := AttrIndex();
      var unique := Overwrite(attrs, rIndex);
      AddedByParts(limits, old(State()), attrs, Attributes(), unique);
      unique := Trim(n, unique);
      AddAttrs(unique);
    }

    /** Cut off, and count, the new attributes for which n held ones leave no room. */
    method Trim(n: nat, unique: seq<KeyValue>) returns (kept: seq<KeyValue>)
      modifies this`dropped
      ensures var last := Room(limits.count, n, |unique|);
        kept == unique[..last] && dropped == old(dropped) + |unique| - last
    {
      kept := unique;
      if limits.count >= 0 && n + |unique| > limits.count {
        var last := Max(0, limits.count - n);
        dropped := dropped + (|unique| - last);
        kept := unique[..last];
      }
    }

    method StoreFront(i: nat, a: KeyValue)
      requires Valid() && i < nFront
      modifies front
      ensures Valid() && front[..nFront] == old(front[..nFront])[i := a]
      ensures Attributes() == old(front[..nFront])[i := a] + back
    {
      front[i] := a;
    }

    /** A value for a key already held goes where the key is. */
    method StoreAt(a: KeyValue, rIndex: map<bytes, int>)
      requires Valid() && SignedIndex(rIndex, front[..nFront], back) && a.key in rIndex
      modifies this`back, front
      ensures Valid() && |back| == old(|back|)
      ensures Attributes() == Put(old(Attributes()), a)
      ensures SignedIndex(rIndex, front[..nFront], back)
    {
      hide SignedIndex, Put;
      var idx := rIndex[a.key];
      if idx < 0 {
        StoredFront(rIndex, front[..nFront], back, a);
        hide Attributes;
        StoreFront(-(idx + 1), a);
      } else {
        StoredBack(rIndex, front[..nFront], back, a);
        back := back[idx := a];
      }
    }

    /**
      The loop of `AddAttributes`: attributes already held are overwritten where they are, the others
      come back once each, in order, with their last values.
     */
    method Overwrite(attrs: seq<KeyValue>, rIndex: map<bytes, int>) returns (unique: seq<KeyValue>)
      requires Valid() && SignedIndex(rIndex, front[..nFront], back)
      modifies this`back, front
      ensures Valid() && |back| == old(|back|)
      ensures Attributes() + unique == PutAll(old(Attributes()), attrs)
    {
      var uIndex: map<bytes, int> := map[];
      unique := [];
      for i := 0 to |attrs|
        invariant Valid() && |back| == old(|back|)
        invariant SignedIndex(rIndex, front[..nFront], back)
        invariant Indexes(uIndex, unique) && forall k :: k in uIndex ==> k !in rIndex
        invariant Attributes() + unique == PutAll(old(Attributes()), attrs[..i])
      {
        assert attrs[..i + 1][..i] == attrs[..i];
        uIndex, unique := OverwriteOne(attrs[i], rIndex, uIndex, unique);
      }
      assert attrs[..|attrs|] == attrs;
    }

    method OverwriteOne(a: KeyValue, rIndex: map<bytes, int>, uIndex: map<bytes, int>, unique: seq<KeyValue>)
      returns (uIndex': map<bytes, int>, unique': seq<KeyValue>)
      requires Valid() && SignedIndex(rIndex, front[..nFront], back) && Indexes(uIndex, unique)
      requires forall k :: k in uIndex ==> k !in rIndex
      modifies this`back, front
      ensures Valid() && |back| == old(|back|)
      ensures SignedIndex(rIndex, front[..nFront], back) && Indexes(uIndex', unique')
      ensures forall k :: k in uIndex' ==> k !in rIndex
      ensures Attributes() + unique' == Put(old(Attributes()) + unique, a)
    {
      ghost var held := Attributes();
      IndexPut(uIndex, unique, a);
      IndexFinds(uIndex, unique, a.key);
      SignedIndexFinds(rIndex, front[..nFront], back, a.key);
      PutJoined(held, unique, a);
      if a.key in uIndex {
        return uIndex, unique[uIndex[a.key] := a];
      } else if a.key in rIndex {
        StoreAt(a, rIndex);
        return uIndex, unique;
      } else {
        return uIndex[a.key := |unique|], unique + [a];
      }
    }
  }

  lemma Rejoin(f: seq<KeyValue>, b: seq<KeyValue>, x: seq<KeyValue>, y: seq<KeyValue>)
    requires b == [] || x == []
    ensures (f + x) + (b + y) == (f + b) + (x + y)
  {}

  lemma StorableTail(kvs: seq<KeyValue>)
    requires StorableAttrs(kvs)
    ensures forall i :: 0 <= i <= |kvs| ==> StorableAttrs(kvs[i..])
  {}

  lemma NormalAllSplit(valueLimit: int, kvs: seq<KeyValue>, i: nat)
    requires i <= |kvs|
    ensures NormalAll(valueLimit, kvs) == NormalAll(valueLimit, kvs[..i]) + NormalAll(valueLimit, kvs[i..])
  {}

  // ---------------------------------------------------------------- what a record holds afterwards

  /** Keys stay unique, and a limit that was respected still is. */
  lemma AddedShape(l: Limits, m: Attrs, attrs: seq<KeyValue>)
    requires UniqueKeys(m.entries)
    ensures UniqueKeys(Added(l, m, attrs).entries)
    ensures 0 <= l.count && |m.entries| <= l.count ==> |Added(l, m, attrs).entries| <= l.count
    ensures forall i :: 0 <= i < |m.entries| ==>
      i < |Added(l, m, attrs).entries| && Added(l, m, attrs).entries[i].key == m.entries[i].key
  {
    var n, p := |m.entries|, PutAll(m.entries, attrs);
    PutAllUnique(m.entries, attrs);
    PutAllGrows(m.entries, attrs);
    var r, k := Added(l, m, attrs).entries, Retained(l.count, n, p);
    assert |r| == k;
    forall i | 0 <= i < k ensures r[i].key == p[i].key {}
  }

  /** The keys given that the record does not hold afterwards. */
  function RefusedKeys(l: Limits, m: Attrs, attrs: seq<KeyValue>): set<bytes>
  {
    KeySet(attrs) - KeySet(Added(l, m, attrs).entries)
  }

  /** The dropped count grows by the number of distinct new keys that were refused. */
  lemma AddedDropped(l: Limits, m: Attrs, attrs: seq<KeyValue>)
    requires UniqueKeys(m.entries)
    ensures Added(l, m, attrs).dropped == m.dropped + |RefusedKeys(l, m, attrs)|
  {
    var n, p := |m.entries|, PutAll(m.entries, attrs);
    PutAllUnique(m.entries, attrs);
    PutAllGrows(m.entries, attrs);
    PutAllKeys(m.entries, attrs);
    KeySetSize(Cut(l, m, attrs));
    forall x ensures x in KeySet(Cut(l, m, attrs)) <==> x in RefusedKeys(l, m, attrs) {
      RefusedIff(l, m, attrs, x);
    }
    assert KeySet(Cut(l, m, attrs)) == RefusedKeys(l, m, attrs);
  }

  /** The new entries that the limit cuts off. */
  function Cut(l: Limits, m: Attrs, attrs: seq<KeyValue>): seq<KeyValue>
  {
    PutAllGrows(m.entries, attrs);
    var p := PutAll(m.entries, attrs);
    p[Retained(l.count, |m.entries|, p)..]
  }

  lemma RefusedIff(l: Limits, m: Attrs, attrs: seq<KeyValue>, x: bytes)
    requires UniqueKeys(m.entries)
    ensures x in KeySet(Cut(l, m, attrs)) <==> x in RefusedKeys(l, m, attrs)
  {
    var n, p := |m.entries|, PutAll(m.entries, attrs);
    PutAllUnique(m.entries, attrs);
    PutAllGrows(m.entries, attrs);
    PutAllKeys(m.entries, attrs);
    var r, k := Added(l, m, attrs).entries, Retained(l.count, n, p);
    assert |r| == k && forall i :: 0 <= i < k ==> r[i].key == p[i].key;
    KeySetHas(p[k..], x);
    KeySetHas(attrs, x);
    KeySetHas(r, x);
    FindCut(p, r, k, x);
    SplitFind(p, k, x);
    FindUnchanged(m.entries, p, x);
  }

  lemma FindCut(p: seq<KeyValue>, r: seq<KeyValue>, k: nat, x: bytes)
    requires k == |r| <= |p| && forall i :: 0 <= i < k ==> r[i].key == p[i].key
    ensures Has(r, x) <==> Find(p, x) < k
  {
    if Has(r, x) { assert p[Find(r, x)].key == x; }
    if Find(p, x) < k { assert r[Find(p, x)].key == x; }
  }

  lemma SplitFind(p: seq<KeyValue>, k: nat, x: bytes)
    requires k <= |p| && UniqueKeys(p)
    ensures Has(p[k..], x) <==> k <= Find(p, x) < |p|
  {
    assert p == p[..k] + p[k..];
    FindAppend(p[..k], p[k..], x);
    if Has(p[k..], x) { FindUnique(p, k + Find(p[k..], x)); }
  }

  lemma FindUnchanged(s: seq<KeyValue>, p: seq<KeyValue>, x: bytes)
    requires |s| <= |p| && forall i :: 0 <= i < |s| ==> p[i].key == s[i].key
    ensures Has(s, x) <==> Find(p, x) < |s|
  {
    FindCut(p, s, |s|, x);
  }

  lemma PutAllReads(s: seq<KeyValue>, attrs: seq<KeyValue>, i: nat)
    requires UniqueKeys(s) && i < |PutAll(s, attrs)|
    ensures var kv := PutAll(s, attrs)[i];
      && (i < |s| ==> kv == if kv.key in ToMap(attrs) then KeyValue(kv.key, ToMap(attrs)[kv.key]) else s[i])
      && (i >= |s| ==> kv.key in ToMap(attrs) && kv.value == ToMap(attrs)[kv.key])
  {
    var p := PutAll(s, attrs);
    PutAllUnique(s, attrs);
    PutAllGrows(s, attrs);
    PutAllToMap(s, attrs);
    UniqueToMap(p, i);
    if i < |s| {
      UniqueToMap(s, i);
    } else {
      HasIffInMap(s, p[i].key);
      FindUnique(p, i);
      FindUnchanged(s, p, p[i].key);
    }
  }

  /**
    What each held key reads afterwards: a key held before has the last value given for it, as passed,
    or its old value; a new key has its last value, normalised.
   */
  lemma AddedReads(l: Limits, m: Attrs, attrs: seq<KeyValue>, i: nat)
    requires UniqueKeys(m.entries) && i < |Added(l, m, attrs).entries|
    ensures var kv := Added(l, m, attrs).entries[i];
      && (i < |m.entries| ==>
        kv == if kv.key in ToMap(attrs) then KeyValue(kv.key, ToMap(attrs)[kv.key]) else m.entries[i])
      && (i >= |m.entries| ==>
        kv.key in ToMap(attrs) && kv == Normal(l.value, KeyValue(kv.key, ToMap(attrs)[kv.key])))
  {
    PutAllGrows(m.entries, attrs);
    PutAllReads(m.entries, attrs, i);
  }

  // ---------------------------------------------------------------- when a record stays normalised

  /** Normalising kv would not change it. */
  predicate IsNormal(valueLimit: int, kv: KeyValue) { Normal(valueLimit, kv) == kv }

  predicate AllNormal(valueLimit: int, kvs: seq<KeyValue>)
  {
    forall i :: 0 <= i < |kvs| ==> IsNormal(valueLimit, kvs[i])
  }

  /** The last value that attrs gives for each key held already is normal as it was passed. */
  predicate OverwritesNormal(valueLimit: int, held: seq<KeyValue>, attrs: seq<KeyValue>)
  {
    forall i :: 0 <= i < |held| && held[i].key in ToMap(attrs) ==>
      IsNormal(valueLimit, KeyValue(held[i].key, ToMap(attrs)[held[i].key]))
  }

  /** A new entry of the record is normal. */
  lemma NewIsNormal(l: Limits, m: Attrs, attrs: seq<KeyValue>, i: nat)
    requires StorableAttrs(attrs) && |m.entries| <= i < |Added(l, m, attrs).entries|
    ensures IsNormal(l.value, Added(l, m, attrs).entries[i])
  {
    PutAllGrows(m.entries, attrs);
    PutAllStorable(m.entries, attrs);
    var p := PutAll(m.entries, attrs);
    assert Added(l, m, attrs).entries[i] == Normal(l.value, p[i]);
    NormalIdempotent(l.value, p[i]);
  }

  /** Adding to a normalised record keeps it so exactly when what overwrites a held key is normal as passed. */
  lemma AddedNormalIff(l: Limits, m: Attrs, attrs: seq<KeyValue>)
    requires UniqueKeys(m.entries) && AllNormal(l.value, m.entries) && StorableAttrs(attrs)
    ensures AllNormal(l.value, Added(l, m, attrs).entries) <==> OverwritesNormal(l.value, m.entries, attrs)
  {
    var r := Added(l, m, attrs).entries;
    AddedShape(l, m, attrs);
    forall i | 0 <= i < |r|
      ensures i < |m.entries| && m.entries[i].key in ToMap(attrs) ==>
        r[i] == KeyValue(m.entries[i].key, ToMap(attrs)[m.entries[i].key])
      ensures i >= |m.entries| || m.entries[i].key !in ToMap(attrs) ==> IsNormal(l.value, r[i])
    {
      if i < |m.entries| { AddedReads(l, m, attrs, i); } else { NewIsNormal(l, m, attrs, i); }
    }
    hide Added, IsNormal;
  }

  /** Under a value limit of 1 the string "bb", given for a key that is held, is stored whole. */
  lemma OverwriteIsNotCut()
    ensures var (l, k) := (Limits(-1, 1), [107]);
      var (m, attrs) := (Attrs([KeyValue(k, Str([97]))], 0), [KeyValue(k, Str([98, 98]))]);
      && AllNormal(1, m.entries) && Added(l, m, attrs).entries == attrs && !AllNormal(1, attrs)
  {
    var m, a := Attrs([KeyValue([107], Str([97]))], 0), KeyValue([107], Str([98, 98]));
    assert Has(m.entries, [107]) && Find(m.entries, [107]) == 0;
    PutAllOne(m.entries, a);
    assert Truncated(1, [98, 98]) == [98];
    assert !IsNormal(1, [a][0]) && IsNormal(1, m.entries[0]);
  }

  // ---------------------------------------------------------------- the array and the slice

  /** The invariant the record's comment gives for its slice fails for records of exactly five attributes. */
  lemma SliceCommentIff(r: Record)
    requires r.Valid()
    ensures (r.nFront == r.front.Length ==> |r.back| > 0) <==> |r.Attributes()| != INLINE
  {}

  /** Such a record: five attributes with different keys, added to an empty one. */
  method FiveAttributes(l: Limits, attrs: seq<KeyValue>) returns (r: Record)
    requires |attrs| == INLINE && UniqueKeys(attrs) && StorableAttrs(attrs)
    requires l.count < 0 || l.count >= INLINE
    ensures fresh(r) && r.Valid() && r.nFront == r.front.Length && r.back == []
  {
    r := new Record(l);
    r.AddAttributes(attrs);
    DistinctFixed(attrs);
    assert |r.Attributes()| == INLINE;
  }

  // ---------------------------------------------------------------- which keys a record holds

  /**
    The keys after an addition are the first of those held and given, in order of appearance: all of them, or
    as many as the limit allows, but never fewer than were held.
   */
  lemma AddedIsPrefix(l: Limits, m: Attrs, attrs: seq<KeyValue>)
    requires UniqueKeys(m.entries)
    ensures var (d, r) := (Distinct(m.entries + attrs), Added(l, m, attrs));
      && |r.entries| == (if l.count < 0 || |d| <= l.count then |d| else Max(|m.entries|, l.count))
      && |r.entries| <= |d| && r.dropped == m.dropped + |d| - |r.entries|
      && forall i :: 0 <= i < |r.entries| ==> r.entries[i].key == d[i].key
  {
    PutAllAppend([], m.entries, attrs);
    DistinctFixed(m.entries);
    PutAllGrows(m.entries, attrs);
    var d := PutAll(m.entries, attrs);
    assert d == Distinct(m.entries + attrs);
    hide PutAll, UniqueKeys;
    KeptPrefix(l, m, attrs, d);
  }

  lemma KeptPrefix(l: Limits, m: Attrs, attrs: seq<KeyValue>, d: seq<KeyValue>)
    requires d == PutAll(m.entries, attrs) && |m.entries| <= |d|
    ensures var r := Added(l, m, attrs);
      && |r.entries| == (if l.count < 0 || |d| <= l.count then |d| else Max(|m.entries|, l.count))
      && |r.entries| <= |d| && r.dropped == m.dropped + |d| - |r.entries|
      && forall i :: 0 <= i < |r.entries| ==> r.entries[i].key == d[i].key
  {
    PutAllGrows(m.entries, attrs);
    hide PutAll;
  }

  /** Two attributes under a count limit of 1: the first one stays. */
  lemma FirstIsKept(k: bytes, z: bytes, v: Value, w: Value)
    requires k != z
    ensures Added(Limits(1, -1), Attrs([], 0), [KeyValue(k, v), KeyValue(z, w)]).entries[..1]
      == [Normal(-1, KeyValue(k, v))]
  {
    var a, b := KeyValue(k, v), KeyValue(z, w);
    PutAllAppend([], [a], [b]);
    PutAllOne([], a);
    PutAllOne([a], b);
    assert [a] + [b] == [a, b] && Put([], a) == [a] && Put([a], b) == [a, b];
    hide PutAll, Put;
  }
}
