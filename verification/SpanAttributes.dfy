/**
  The attributes of a span: stored with repeats while that cannot exceed the limit, compacted in place
  over the same backing array when it could, and compacted once more when the span is read.
 */
module SpanAttributes {
  import opened Prelude
  import opened AttrValue
  import opened KeyedList
  import opened AttrNorm
  import opened Truncate

  /** The valid attributes of kvs, normalised. */
  function NormalValid(valueLimit: int, kvs: seq<KeyValue>): seq<KeyValue>
  {
    if |kvs| == 0 then [] else
    var last := kvs[|kvs| - 1];
    NormalValid(valueLimit, kvs[..|kvs| - 1]) + if IsValid(last) then [Normal(valueLimit, last)] else []
  }

  function Invalid(kvs: seq<KeyValue>): (n: nat)
    ensures n <= |kvs|
  {
    if |kvs| == 0 then 0 else Invalid(kvs[..|kvs| - 1]) + if IsValid(kvs[|kvs| - 1]) then 0 else 1
  }

  // ---------------------------------------------------------------- the eager reference

  /** One attribute added to an ordered map of bounded size; a negative limit means no bound. */
  function EagerAdd(l: Limits, m: Attrs, kv: KeyValue): Attrs
  {
    if !IsValid(kv) then m.(dropped := m.dropped + 1)
    else if !Has(m.entries, kv.key) && 0 <= l.count <= |m.entries| then m.(dropped := m.dropped + 1)
    else m.(entries := Put(m.entries, Normal(l.value, kv)))
  }

  function EagerAddAll(l: Limits, m: Attrs, kvs: seq<KeyValue>): Attrs
  {
    if |kvs| == 0 then m else EagerAdd(l, EagerAddAll(l, m, kvs[..|kvs| - 1]), kvs[|kvs| - 1])
  }

  // ---------------------------------------------------------------- what the code stores

  function LazySet(l: Limits, st: Attrs, kvs: seq<KeyValue>): Attrs
  {
    if |kvs| == 0 then st
    else if l.count == 0 then st.(dropped := st.dropped + |kvs|)
    else if l.count > 0 && |st.entries| + |kvs| > l.count then
      EagerAddAll(l, st.(entries := Distinct(st.entries)), kvs)
    else Attrs(st.entries + NormalValid(l.value, kvs), st.dropped + Invalid(kvs))
  }

  /** In-place compaction of s, held in t: i entries read, the unique ones moved to the front. */
  ghost predicate Compacting(s: seq<KeyValue>, t: seq<KeyValue>, i: nat, unique: nat, record: map<bytes, int>)
  {
    && |s| == |t| && unique <= i <= |s|
    && t[..unique] == Distinct(s[..i])
    && t[i..] == s[i..]
    && Indexes(record, t[..unique])
  }

  lemma DistinctNext(s: seq<KeyValue>, i: nat)
    requires i < |s|
    ensures Distinct(s[..i + 1]) == Put(Distinct(s[..i]), s[i])
  {
    assert s[..i + 1][..i] == s[..i];
  }

  lemma CompactingStep(s: seq<KeyValue>, t: seq<KeyValue>, i: nat, unique: nat, record: map<bytes, int>)
    requires Compacting(s, t, i, unique, record) && i < |s|
    ensures t[i].key in record ==>
      0 <= record[t[i].key] < unique && Compacting(s, t[record[t[i].key] := t[i]], i + 1, unique, record)
    ensures t[i].key !in record ==>
      Compacting(s, t[unique := t[i]], i + 1, unique + 1, record[t[i].key := unique])
  {
    var a, front := t[i], t[..unique];
    assert a == t[i..][0] == s[i];
    DistinctNext(s, i);
    IndexPut(record, front, a);
    hide Indexes, Distinct, Put;
    if a.key in record {
      var u := t[record[a.key] := a];
      assert u[..unique] == Put(front, a);
      assert u[i + 1..] == t[i..][1..];
    } else {
      var u := t[unique := a];
      assert u[..unique + 1] == Put(front, a);
      assert u[i + 1..] == t[i..][1..];
    }
  }

  lemma CompactingStart(s: seq<KeyValue>)
    ensures Compacting(s, s, 0, 0, map[])
  {
    assert s[..0] == [];
  }

  lemma CompactingBound(s: seq<KeyValue>, t: seq<KeyValue>, i: nat, unique: nat, record: map<bytes, int>)
    requires Compacting(s, t, i, unique, record)
    ensures |s| == |t| && unique <= i <= |s|
  {}

  lemma CompactingEnd(s: seq<KeyValue>, t: seq<KeyValue>, unique: nat, record: map<bytes, int>)
    requires Compacting(s, t, |s|, unique, record)
    ensures unique <= |t| == |s| && t[..unique] == Distinct(s) && Indexes(record, t[..unique])
  {
    assert s[..|s|] == s;
  }

  lemma NormalValidNone(valueLimit: int, kvs: seq<KeyValue>)
    ensures NormalValid(valueLimit, kvs[..0]) == [] && Invalid(kvs[..0]) == 0
  {}

  lemma NormalValidNext(valueLimit: int, kvs: seq<KeyValue>, i: nat)
    requires i < |kvs|
    ensures NormalValid(valueLimit, kvs[..i + 1]) ==
      NormalValid(valueLimit, kvs[..i]) + if IsValid(kvs[i]) then [Normal(valueLimit, kvs[i])] else []
    ensures Invalid(kvs[..i + 1]) == Invalid(kvs[..i]) + if IsValid(kvs[i]) then 0 else 1
  {
    assert kvs[..i + 1][..i] == kvs[..i];
  }

  class Span {
    /** The backing array of the attribute slice and the length of the slice. */
    var store: array<KeyValue>
    var len: nat
    var droppedAttributes: nat
    var recording: bool
    const limits: Limits

    predicate Valid()
      reads this
    {
      len <= store.Length
    }

    function Attributes(): seq<KeyValue>
      reads this, store
      requires Valid()
    {
      store[..len]
    }

    function State(): Attrs
      reads this, store
      requires Valid()
    {
      Attrs(Attributes(), droppedAttributes)
    }

    constructor (limits: Limits)
      ensures Valid() && fresh(store) && this.limits == limits
      ensures State() == Attrs([], 0) && recording
    {
      this.limits := limits;
      store := new KeyValue[0];
      len, droppedAttributes, recording := 0, 0, true;
    }

    /** `dedupeAttrsFromRecord`: the unique entries are written over the array being read. */
    method DedupeAttrsFromRecord() returns (record: map<bytes, int>)
      requires Valid()
      modifies this`len, store
      ensures Valid()
      ensures Attributes() == Distinct(old(Attributes()))
      ensures Indexes(record, Attributes())
      ensures forall i :: len <= i < old(len) ==> store[i] == KeyValue([], Empty)
    {
      ghost var s := Attributes();
      var n := len;
      record := map[];
      var unique: nat := 0;
      CompactingStart(s);
      hide Compacting, Distinct, Indexes;
      for i := 0 to n
        invariant unique <= i && len == n <= store.Length
        invariant Compacting(s, store[..n], i, unique, record)
      {
        unique, record := CompactOne(s, i, unique, record);
      }
      CompactingEnd(s, store[..n], unique, record);
      assert store[..n][..unique] == store[..unique];
      forall i | unique <= i < n { store[i] := KeyValue([], Empty); }
      len := unique;
    }

    /** The body of the loop of `dedupeAttrsFromRecord`. */
    method CompactOne(ghost s: seq<KeyValue>, i: nat, unique: nat, record: map<bytes, int>)
      returns (unique': nat, record': map<bytes, int>)
      requires i < len <= store.Length && Compacting(s, store[..len], i, unique, record)
      modifies store
      ensures Compacting(s, store[..len], i + 1, unique', record') && unique' <= i + 1
    {
      var a := store[i];
      CompactingBound(s, store[..len], i, unique, record);
      CompactingStep(s, store[..len], i, unique, record);
      hide Compacting;
      unique', record' := unique, record;
      ghost var before := store[..len];
      if a.key in record {
        store[record[a.key]] := a;
        assert store[..len] == before[record[a.key] := a];
      } else {
        store[unique] := a;
        assert store[..len] == before[unique := a];
        record' := record[a.key := unique];
        unique' := unique + 1;
      }
    }

    /** Append to the slice, moving to a larger array when the backing array is full. */
    method Append(a: KeyValue)
      requires Valid()
      modifies this`len, this`store, store
      ensures Valid()
      ensures Attributes() == old(Attributes()) + [a]
      ensures store == old(store) || fresh(store)
    {
      if len == store.Length {
        ghost var s := Attributes();
        var larger := new KeyValue[2 * len + 1](_ => KeyValue([], Empty));
        forall i | 0 <= i < len { larger[i] := store[i]; }
        store := larger;
        assert store[..len] == s;
      }
      store[len] := a;
      len := len + 1;
    }

    method AddOverCapAttrs(attrs: seq<KeyValue>)
      requires Valid() && limits.count > 0 && StorableAttrs(attrs)
      modifies this`len, this`store, this`droppedAttributes, store
      ensures Valid() && (store == old(store) || fresh(store))
      ensures State() == EagerAddAll(limits, old(State()).(entries := Distinct(old(Attributes()))), attrs)
    {
      ghost var start := State().(entries := Distinct(Attributes()));
      var index := DedupeAttrsFromRecord();
      for i := 0 to |attrs|
        invariant Valid() && (store == old(store) || fresh(store))
        invariant State() == EagerAddAll(limits, start, attrs[..i])
        invariant Indexes(index, Attributes())
      {
        assert attrs[..i + 1][..i] == attrs[..i];
        index := AddAttr(attrs[i], index);
      }
      assert attrs[..|attrs|] == attrs;
    }

    /** The body of the loop of `addOverCapAttrs`. */
    method AddAttr(a: KeyValue, index: map<bytes, int>) returns (index': map<bytes, int>)
      requires Valid() && limits.count > 0 && WellFormed(a.value)
      requires Indexes(index, Attributes())
      modifies this`len, this`store, this`droppedAttributes, store
      ensures Valid() && (store == old(store) || fresh(store))
      ensures State() == EagerAdd(limits, old(State()), a)
      ensures Indexes(index', Attributes())
    {
      index' := index;
      ghost var entries := Attributes();
      IndexFinds(index, entries, a.key);
      IndexPut(index, entries, Normal(limits.value, a));
      if !IsValid(a) {
        droppedAttributes := droppedAttributes + 1;
      } else if a.key in index {
        // Updates are performed even when at capacity.
        var n := NormalizeAttr(limits.value, a);
        store[index[a.key]] := n;
        assert Attributes() == entries[index[a.key] := n];
      } else if len >= limits.count {
        droppedAttributes := droppedAttributes + 1;
      } else {
        var n := NormalizeAttr(limits.value, a);
        Append(n);
        index' := index[a.key := len - 1];
      }
    }

    method SetAttributes(attributes: seq<KeyValue>)
      requires Valid() && StorableAttrs(attributes)
      modifies this`len, this`store, this`droppedAttributes, store
      ensures Valid() && (store == old(store) || fresh(store))
      ensures State() == if recording then LazySet(limits, old(State()), attributes) else old(State())
    {
      if |attributes| == 0 || !recording { return; }
      hide NormalValid, Invalid, Distinct, EagerAddAll, IsValid, Normal;
      NormalValidNone(limits.value, attributes);
      var limit := limits.count;
      if limit == 0 {
        droppedAttributes := droppedAttributes + |attributes|;
        return;
      }
      if limit > 0 && len + |attributes| > limit {
        AddOverCapAttrs(attributes);
        return;
      }
      for i := 0 to |attributes|
        invariant Valid() && (store == old(store) || fresh(store))
        invariant Attributes() == old(Attributes()) + NormalValid(limits.value, attributes[..i])
        invariant droppedAttributes == old(droppedAttributes) + Invalid(attributes[..i])
      {
        var a := attributes[i];
        NormalValidNext(limits.value, attributes, i);
        if !IsValid(a) {
          droppedAttributes := droppedAttributes + 1;
        } else {
          var n := NormalizeAttr(limits.value, a);
          Append(n);
        }
      }
      assert attributes[..|attributes|] == attributes;
    }

    /** The attribute part of `snapshot`. */
    method Snapshot() returns (sd: Attrs)
      requires Valid()
      modifies this`len, store
      ensures Valid()
      ensures sd == State() == Attrs(Distinct(old(Attributes())), droppedAttributes)
    {
      if len > 0 { var _ := DedupeAttrsFromRecord(); }
      sd := Attrs(store[..len], droppedAttributes);
    }
  }

  // ---------------------------------------------------------------- the lazy list refines the eager map

  /** The stored list stands for the ordered map m, and is itself within the limit. */
  ghost predicate Represents(l: Limits, st: Attrs, m: Attrs)
  {
    && Distinct(st.entries) == m.entries
    && st.dropped == m.dropped
    && (l.count >= 0 ==> |st.entries| <= l.count)
  }

  lemma {:induction false} EagerShape(l: Limits, m: Attrs, kvs: seq<KeyValue>)
    requires UniqueKeys(m.entries)
    ensures UniqueKeys(EagerAddAll(l, m, kvs).entries)
    ensures 0 <= l.count && |m.entries| <= l.count ==> |EagerAddAll(l, m, kvs).entries| <= l.count
    ensures l.count == 0 && m.entries == [] ==> EagerAddAll(l, m, kvs) == Attrs([], m.dropped + |kvs|)
  {
    if |kvs| == 0 {
    } else {
      var init, last := kvs[..|kvs| - 1], kvs[|kvs| - 1];
      EagerShape(l, m, init);
      PutUnique(EagerAddAll(l, m, init).entries, Normal(l.value, last));
    }
  }

  /** While there is room for every attribute given, adding eagerly is just setting keys. */
  lemma {:induction false} EagerWithRoom(l: Limits, m: Attrs, kvs: seq<KeyValue>)
    requires l.count < 0 || |m.entries| + |kvs| <= l.count
    ensures EagerAddAll(l, m, kvs) == Attrs(PutAll(m.entries, NormalValid(l.value, kvs)), m.dropped + Invalid(kvs))
    ensures |EagerAddAll(l, m, kvs).entries| <= |m.entries| + |kvs|
  {
    hide Put, Normal, IsValid, Has;
    if |kvs| == 0 {
    } else {
      var init, last := kvs[..|kvs| - 1], kvs[|kvs| - 1];
      EagerWithRoom(l, m, init);
      var entries, nv, n := EagerAddAll(l, m, init).entries, NormalValid(l.value, init), Normal(l.value, last);
      assert EagerAddAll(l, m, kvs) == EagerAdd(l, EagerAddAll(l, m, init), last);
      assert NormalValid(l.value, kvs) == nv + if IsValid(last) then [n] else [];
      assert Invalid(kvs) == Invalid(init) + if IsValid(last) then 0 else 1;
      assert PutAll(m.entries, nv + [n]) == Put(entries, n) by { assert (nv + [n])[..|nv|] == nv; }
      PutLength(entries, n);
      hide PutAll, NormalValid, Invalid, EagerAddAll;
      assert nv + [] == nv;
    }
  }

  lemma {:induction false} NormalValidLength(valueLimit: int, kvs: seq<KeyValue>)
    ensures |NormalValid(valueLimit, kvs)| <= |kvs|
  {
    if |kvs| == 0 {
    } else {
      NormalValidLength(valueLimit, kvs[..|kvs| - 1]);
    }
  }

  /** One call of SetAttributes keeps the correspondence, for every limit. */
  lemma LazyRefinesEager(l: Limits, st: Attrs, m: Attrs, kvs: seq<KeyValue>)
    requires Represents(l, st, m)
    ensures Represents(l, LazySet(l, st, kvs), EagerAddAll(l, m, kvs))
  {
    PutAllUnique([], st.entries);
    PutAllKeys([], st.entries);
    EagerShape(l, m, kvs);
    if |kvs| == 0 || l.count == 0 {
    } else if l.count > 0 && |st.entries| + |kvs| > l.count {
      assert st.(entries := Distinct(st.entries)) == m;
      DistinctFixed(EagerAddAll(l, m, kvs).entries);
    } else {
      EagerWithRoom(l, m, kvs);
      PutAllAppend([], st.entries, NormalValid(l.value, kvs));
      NormalValidLength(l.value, kvs);
    }
  }

  function Flatten(calls: seq<seq<KeyValue>>): seq<KeyValue>
  {
    if |calls| == 0 then [] else Flatten(calls[..|calls| - 1]) + calls[|calls| - 1]
  }

  /** The stored list after a whole sequence of calls on a new span. */
  function LazyRun(l: Limits, calls: seq<seq<KeyValue>>): Attrs
  {
    if |calls| == 0 then Attrs([], 0) else LazySet(l, LazyRun(l, calls[..|calls| - 1]), calls[|calls| - 1])
  }

  lemma {:induction false} EagerAppend(l: Limits, m: Attrs, a: seq<KeyValue>, b: seq<KeyValue>)
    ensures EagerAddAll(l, m, a + b) == EagerAddAll(l, EagerAddAll(l, m, a), b)
    decreases |b|
  {
    if |b| == 0 {
      assert a + b == a;
    } else {
      EagerAppend(l, m, a, b[..|b| - 1]);
      assert (a + b)[..|a + b| - 1] == a + b[..|b| - 1];
    }
  }

  lemma {:induction false} LazyRunRefinesEager(l: Limits, calls: seq<seq<KeyValue>>)
    ensures Represents(l, LazyRun(l, calls), EagerAddAll(l, Attrs([], 0), Flatten(calls)))
  {
    if |calls| == 0 {
    } else {
      var init, last := calls[..|calls| - 1], calls[|calls| - 1];
      LazyRunRefinesEager(l, init);
      var m := EagerAddAll(l, Attrs([], 0), Flatten(init));
      LazyRefinesEager(l, LazyRun(l, init), m, last);
      EagerAppend(l, Attrs([], 0), Flatten(init), last);
    }
  }

  // ---------------------------------------------------------------- what a reader of the span sees

  /** At most limit entries; all of them for a negative limit. */
  function Capped(limit: int, s: seq<KeyValue>): seq<KeyValue>
  {
    if 0 <= limit < |s| then s[..limit] else s
  }

  /** The attributes that are invalid or whose key was not kept. */
  function Refused(kept: seq<KeyValue>, kvs: seq<KeyValue>): nat
  {
    if |kvs| == 0 then 0 else
    var last := kvs[|kvs| - 1];
    Refused(kept, kvs[..|kvs| - 1]) + if IsValid(last) && Has(kept, last.key) then 0 else 1
  }

  lemma {:induction false} NormalValidHas(valueLimit: int, kvs: seq<KeyValue>, k: bytes)
    requires |k| != 0
    ensures Has(NormalValid(valueLimit, kvs), k) <==> Has(kvs, k)
  {
    if |kvs| == 0 {
    } else {
      var init, last := kvs[..|kvs| - 1], kvs[|kvs| - 1];
      NormalValidHas(valueLimit, init, k);
      HasAppend(init, last, k);
      assert kvs == init + [last];
      var nv := NormalValid(valueLimit, init);
      if IsValid(last) { HasAppend(nv, Normal(valueLimit, last), k); } else { assert nv + [] == nv; }
    }
  }

  /** Keeping one more key changes the count only for lists in which it occurs. */
  lemma {:induction false} RefusedNewKey(a: seq<KeyValue>, b: seq<KeyValue>, kvs: seq<KeyValue>, k: bytes)
    requires forall x :: x != k ==> (Has(a, x) <==> Has(b, x))
    requires !Has(kvs, k)
    ensures Refused(a, kvs) == Refused(b, kvs)
  {
    if |kvs| == 0 {
    } else {
      var init, last := kvs[..|kvs| - 1], kvs[|kvs| - 1];
      HasAppend(init, last, k);
      assert kvs == init + [last];
      RefusedNewKey(a, b, init, k);
    }
  }

  lemma {:induction false} RefusedSameKeys(a: seq<KeyValue>, b: seq<KeyValue>, kvs: seq<KeyValue>)
    requires forall x :: Has(a, x) <==> Has(b, x)
    ensures Refused(a, kvs) == Refused(b, kvs)
  {
    if |kvs| == 0 {
    } else {
      RefusedSameKeys(a, b, kvs[..|kvs| - 1]);
    }
  }

  /** Setting a key and cutting to the limit commute: a key beyond the limit leaves the cut alone. */
  lemma CappedPut(limit: int, d: seq<KeyValue>, kv: KeyValue)
    requires UniqueKeys(d)
    ensures var c := Capped(limit, d);
      Capped(limit, Put(d, kv)) == if !Has(c, kv.key) && 0 <= limit <= |c| then c else Put(c, kv)
  {
    FindCapped(d, |Capped(limit, d)|, kv.key);
  }

  lemma FindCapped(d: seq<KeyValue>, n: nat, k: bytes)
    requires n <= |d|
    ensures Find(d[..n], k) == Min(Find(d, k), n)
  {
    assert d == d[..n] + d[n..];
    FindAppend(d[..n], d[n..], k);
  }

  /** The eager map is the first limit keys in order of appearance, each with its last value. */
  lemma {:induction false} EagerMeaning(l: Limits, kvs: seq<KeyValue>)
    ensures var m := EagerAddAll(l, Attrs([], 0), kvs);
      && m.entries == Capped(l.count, Distinct(NormalValid(l.value, kvs)))
      && m.dropped == Refused(m.entries, kvs)
  {
    if |kvs| == 0 {
    } else {
      var init, last := kvs[..|kvs| - 1], kvs[|kvs| - 1];
      EagerMeaning(l, init);
      var m, m' := EagerAddAll(l, Attrs([], 0), init), EagerAddAll(l, Attrs([], 0), kvs);
      var nv := NormalValid(l.value, init);
      if IsValid(last) {
        var n := Normal(l.value, last);
        assert (nv + [n])[..|nv|] == nv;
        assert Distinct(nv + [n]) == Put(Distinct(nv), n);
        DistinctMeaning(nv);
        CappedPut(l.count, Distinct(nv), n);
        EagerMeaningDropped(l, init, last, m, m');
      } else {
        assert nv + [] == nv;
      }
    }
  }

  lemma EagerMeaningDropped(l: Limits, init: seq<KeyValue>, last: KeyValue, m: Attrs, m': Attrs)
    requires IsValid(last) && m' == EagerAdd(l, m, last)
    requires m.entries == Capped(l.count, Distinct(NormalValid(l.value, init)))
    requires m.dropped == Refused(m.entries, init)
    ensures m'.dropped == Refused(m'.entries, init + [last])
  {
    var n, d := Normal(l.value, last), Distinct(NormalValid(l.value, init));
    assert (init + [last])[..|init|] == init;
    forall x ensures Has(Put(m.entries, n), x) <==> Has(m.entries, x) || x == last.key {
      HasPut(m.entries, n, x);
    }
    if Has(m.entries, last.key) {
      RefusedSameKeys(m.entries, m'.entries, init);
    } else if !(0 <= l.count <= |m.entries|) {
      // There was room, so the key is new to the whole list.
      assert m.entries == d;
      PutAllKeys([], NormalValid(l.value, init));
      NormalValidHas(l.value, init, last.key);
      RefusedNewKey(m.entries, m'.entries, init, last.key);
    }
  }

  /**
    Whatever the calls and whatever the limits, the attributes read from a span are the first limit
    distinct valid keys in order of appearance with their last values, normalised; the dropped count is
    the number of attributes that are invalid or have another key; and the list held never exceeds a
    non-negative limit.
   */
  lemma SpanReadsAs(l: Limits, calls: seq<seq<KeyValue>>)
    ensures var st, all := LazyRun(l, calls), Flatten(calls);
      && Distinct(st.entries) == Capped(l.count, Distinct(NormalValid(l.value, all)))
      && st.dropped == Refused(Distinct(st.entries), all)
      && (l.count >= 0 ==> |st.entries| <= l.count)
  {
    LazyRunRefinesEager(l, calls);
    EagerMeaning(l, Flatten(calls));
  }
}
