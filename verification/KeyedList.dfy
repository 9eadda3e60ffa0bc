/**
  Lists of attributes as ordered maps: a key keeps the place of its first appearance and has the last
  value given for it.  Both the span and the log record keep their attributes this way.
 */
module KeyedList {
  import opened Prelude
  import opened AttrValue

  /** How many attributes, and how long their values may be; a negative limit is none. */
  datatype Limits = Limits(count: int, value: int)

  /** The attributes held, and how many were dropped. */
  datatype Attrs = Attrs(entries: seq<KeyValue>, dropped: nat)

  /** Position of key k in s, |s| if it is not there. */
  function Find(s: seq<KeyValue>, k: bytes): (i: nat)
    ensures i <= |s|
    ensures i < |s| ==> s[i].key == k
    ensures forall j :: 0 <= j < i ==> s[j].key != k
  {
    if |s| == 0 || s[0].key == k then 0 else
    var i := Find(s[1..], k);
    assert forall j :: 0 < j < |s| ==> s[j] == s[1..][j - 1];
    1 + i
  }

  predicate Has(s: seq<KeyValue>, k: bytes) { Find(s, k) < |s| }

  predicate UniqueKeys(s: seq<KeyValue>)
  {
    forall i, j :: 0 <= i < j < |s| ==> s[i].key != s[j].key
  }

  lemma FindUnique(s: seq<KeyValue>, i: nat)
    requires UniqueKeys(s) && i < |s|
    ensures Find(s, s[i].key) == i
  {}

  /** Set a key: in place if it is there, at the end if it is new. */
  function Put(s: seq<KeyValue>, kv: KeyValue): seq<KeyValue>
  {
    if Has(s, kv.key) then s[Find(s, kv.key) := kv] else s + [kv]
  }

  lemma PutLength(s: seq<KeyValue>, kv: KeyValue)
    ensures |s| <= |Put(s, kv)| <= |s| + 1
  {}

  function PutAll(s: seq<KeyValue>, kvs: seq<KeyValue>): seq<KeyValue>
  {
    if |kvs| == 0 then s else Put(PutAll(s, kvs[..|kvs| - 1]), kvs[|kvs| - 1])
  }

  /** The ordered map a list of attributes stands for. */
  function Distinct(kvs: seq<KeyValue>): seq<KeyValue> { PutAll([], kvs) }

  lemma PutUnique(s: seq<KeyValue>, kv: KeyValue)
    requires UniqueKeys(s)
    ensures UniqueKeys(Put(s, kv))
  {}

  lemma {:induction false} PutAllUnique(s: seq<KeyValue>, kvs: seq<KeyValue>)
    requires UniqueKeys(s)
    ensures UniqueKeys(PutAll(s, kvs))
  {
    if |kvs| == 0 {
    } else {
      PutAllUnique(s, kvs[..|kvs| - 1]);
      PutUnique(PutAll(s, kvs[..|kvs| - 1]), kvs[|kvs| - 1]);
    }
  }

  lemma {:induction false} PutAllAppend(s: seq<KeyValue>, a: seq<KeyValue>, b: seq<KeyValue>)
    ensures PutAll(s, a + b) == PutAll(PutAll(s, a), b)
    decreases |b|
  {
    if |b| == 0 {
      assert a + b == a;
    } else {
      var init := b[..|b| - 1];
      PutAllAppend(s, a, init);
      assert (a + b)[..|a + b| - 1] == a + init;
    }
  }

  lemma PutAllNext(s: seq<KeyValue>, kvs: seq<KeyValue>, i: nat)
    requires i < |kvs|
    ensures PutAll(s, kvs[..i + 1]) == Put(PutAll(s, kvs[..i]), kvs[i])
  {
    assert kvs[..i + 1][..i] == kvs[..i];
  }

  lemma PutAllOne(s: seq<KeyValue>, a: KeyValue)
    ensures PutAll(s, [a]) == Put(s, a)
  {
    assert [a][..0] == [] && PutAll(s, []) == s;
  }

  lemma {:induction false} PutAllKeys(s: seq<KeyValue>, kvs: seq<KeyValue>)
    ensures |PutAll(s, kvs)| <= |s| + |kvs|
    ensures forall k :: Has(PutAll(s, kvs), k) <==> Has(s, k) || Has(kvs, k)
  {
    if |kvs| == 0 {
    } else {
      var init, last := kvs[..|kvs| - 1], kvs[|kvs| - 1];
      PutAllKeys(s, init);
      var before := PutAll(s, init);
      forall k ensures Has(PutAll(s, kvs), k) <==> Has(s, k) || Has(kvs, k) {
        HasPut(before, last, k);
        HasPut(init, last, k);
        HasAppend(init, last, k);
        assert kvs == init + [last];
      }
    }
  }

  lemma HasPut(s: seq<KeyValue>, kv: KeyValue, k: bytes)
    ensures Has(Put(s, kv), k) <==> Has(s, k) || kv.key == k
  {
    var p := Put(s, kv);
    if Has(s, k) { assert p[Find(s, k)].key == k; }
    if kv.key == k { assert if Has(s, k) then p[Find(s, k)].key == k else p[|s|].key == k; }
    if Has(p, k) && kv.key != k { assert s[Find(p, k)].key == k; }
  }

  lemma {:induction false} FindAppend(s: seq<KeyValue>, t: seq<KeyValue>, k: bytes)
    ensures Find(s + t, k) == if Has(s, k) then Find(s, k) else |s| + Find(t, k)
  {
    if |s| == 0 {
      assert s + t == t;
    } else {
      FindAppend(s[1..], t, k);
      assert (s + t)[1..] == s[1..] + t;
    }
  }

  lemma HasAppend(s: seq<KeyValue>, kv: KeyValue, k: bytes)
    ensures Has(s + [kv], k) <==> Has(s, k) || kv.key == k
  {
    FindAppend(s, [kv], k);
  }

  /** Setting a key in a list made of two parts touches the part that holds it. */
  lemma PutJoined(s: seq<KeyValue>, t: seq<KeyValue>, a: KeyValue)
    ensures Has(s, a.key) ==> Put(s + t, a) == Put(s, a) + t
    ensures !Has(s, a.key) ==> Put(s + t, a) == s + Put(t, a)
  {
    FindAppend(s, t, a.key);
  }

  // ---------------------------------------------------------------- what Distinct means

  lemma HasIffInMap(s: seq<KeyValue>, k: bytes)
    ensures Has(s, k) <==> k in ToMap(s)
  {
    ToMapKeys(s, k);
  }

  lemma UniqueToMap(s: seq<KeyValue>, i: nat)
    requires UniqueKeys(s) && i < |s|
    ensures s[i].key in ToMap(s) && ToMap(s)[s[i].key] == s[i].value
  {
    ToMapIsLast(s, i);
  }

  lemma PutToMap(s: seq<KeyValue>, kv: KeyValue)
    requires UniqueKeys(s)
    ensures ToMap(Put(s, kv)) == ToMap(s)[kv.key := kv.value]
  {
    var p := Put(s, kv);
    PutUnique(s, kv);
    forall k ensures k in ToMap(p) <==> k in ToMap(s) || k == kv.key {
      HasPut(s, kv, k);
      HasIffInMap(s, k);
      HasIffInMap(p, k);
    }
    forall k | k in ToMap(p) ensures ToMap(p)[k] == if k == kv.key then kv.value else ToMap(s)[k] {
      HasIffInMap(p, k);
      var i := Find(p, k);
      UniqueToMap(p, i);
      if k != kv.key { UniqueToMap(s, i); }
    }
  }

  lemma ToMapLast(kvs: seq<KeyValue>)
    requires |kvs| > 0
    ensures ToMap(kvs) == ToMap(kvs[..|kvs| - 1])[kvs[|kvs| - 1].key := kvs[|kvs| - 1].value]
  {
    var init, last := kvs[..|kvs| - 1], kvs[|kvs| - 1];
    assert kvs == init + [last];
    ToMapAppend(init, [last]);
    assert ToMap([last]) == map[last.key := last.value] by { assert [last][1..] == []; }
    UnionUpdate(ToMap(init), last.key, last.value);
  }

  lemma UnionUpdate(m: Dict, k: bytes, v: Value)
    ensures m + map[k := v] == m[k := v]
  {}

  /** Setting a list of keys overrides the map with the list's reading. */
  lemma {:induction false} PutAllToMap(s: seq<KeyValue>, kvs: seq<KeyValue>)
    requires UniqueKeys(s)
    ensures ToMap(PutAll(s, kvs)) == ToMap(s) + ToMap(kvs)
  {
    if |kvs| == 0 {
    } else {
      var init, last := kvs[..|kvs| - 1], kvs[|kvs| - 1];
      PutAllToMap(s, init);
      PutAllUnique(s, init);
      PutToMap(PutAll(s, init), last);
      ToMapLast(kvs);
      UpdateUnion(ToMap(s), ToMap(init), last.key, last.value);
    }
  }

  lemma UpdateUnion(m: Dict, n: Dict, k: bytes, v: Value)
    ensures (m + n)[k := v] == m + n[k := v]
  {}

  function KeySet(s: seq<KeyValue>): set<bytes> { set kv | kv in s :: kv.key }

  lemma KeySetHas(s: seq<KeyValue>, k: bytes)
    ensures k in KeySet(s) <==> Has(s, k)
  {
    if Has(s, k) { assert s[Find(s, k)] in s; }
  }

  lemma {:induction false} KeySetSize(s: seq<KeyValue>)
    requires UniqueKeys(s)
    ensures |KeySet(s)| == |s|
  {
    if |s| == 0 {
    } else {
      var init, last := s[..|s| - 1], s[|s| - 1];
      KeySetSize(init);
      assert s == init + [last];
      assert KeySet(s) == KeySet(init) + {last.key};
      assert last.key !in KeySet(init);
    }
  }

  /** Distinct has each key once and reads, key by key, as the list it came from. */
  lemma DistinctMeaning(kvs: seq<KeyValue>)
    ensures UniqueKeys(Distinct(kvs))
    ensures ToMap(Distinct(kvs)) == ToMap(kvs)
  {
    PutAllUnique([], kvs);
    PutAllToMap([], kvs);
  }

  /** Distinct lists keys by first appearance. */
  lemma {:induction false} DistinctOrder(kvs: seq<KeyValue>)
    ensures forall i, j :: 0 <= i < j < |Distinct(kvs)| ==>
      Find(kvs, Distinct(kvs)[i].key) < Find(kvs, Distinct(kvs)[j].key)
  {
    if |kvs| == 0 {
    } else {
      var init, last := kvs[..|kvs| - 1], kvs[|kvs| - 1];
      DistinctOrder(init);
      var d, e := Distinct(init), Distinct(kvs);
      assert e == Put(d, last);
      PutAllKeys([], init);
      hide PutAll;
      forall i, j | 0 <= i < j < |e| ensures Find(kvs, e[i].key) < Find(kvs, e[j].key) {
        assert e[i].key == d[i].key;
        DistinctKeyInPrefix(kvs, d[i].key);
        if j < |d| { DistinctKeyInPrefix(kvs, d[j].key); } else { FindInPrefix(kvs, e[j].key); }
      }
    }
  }

  lemma DistinctKeyInPrefix(kvs: seq<KeyValue>, k: bytes)
    requires |kvs| > 0 && Has(Distinct(kvs[..|kvs| - 1]), k)
    ensures Find(kvs, k) == Find(kvs[..|kvs| - 1], k) < |kvs| - 1
  {
    PutAllKeys([], kvs[..|kvs| - 1]);
    FindInPrefix(kvs, k);
  }

  lemma FindInPrefix(kvs: seq<KeyValue>, k: bytes)
    requires |kvs| > 0
    ensures Has(kvs[..|kvs| - 1], k) ==> Find(kvs, k) == Find(kvs[..|kvs| - 1], k)
    ensures !Has(kvs[..|kvs| - 1], k) ==> Find(kvs, k) >= |kvs| - 1
  {
    assert kvs == kvs[..|kvs| - 1] + [kvs[|kvs| - 1]];
    FindAppend(kvs[..|kvs| - 1], [kvs[|kvs| - 1]], k);
  }

  /** Distinct changes nothing in a list whose keys are unique. */
  lemma {:induction false} DistinctFixed(s: seq<KeyValue>)
    requires UniqueKeys(s)
    ensures Distinct(s) == s
  {
    if |s| == 0 {
    } else {
      var init := s[..|s| - 1];
      DistinctFixed(init);
      assert s == init + [s[|s| - 1]];
    }
  }

  /** An index of a list by key, as the code keeps in a map. */
  ghost predicate Indexes(record: map<bytes, int>, s: seq<KeyValue>)
  {
    && (forall k :: k in record ==> 0 <= record[k] < |s| && s[record[k]].key == k)
    && (forall j :: 0 <= j < |s| ==> s[j].key in record && record[s[j].key] == j)
  }

  lemma IndexFinds(record: map<bytes, int>, s: seq<KeyValue>, k: bytes)
    requires Indexes(record, s)
    ensures k in record <==> Has(s, k)
    ensures k in record ==> record[k] == Find(s, k)
    ensures UniqueKeys(s)
  {
    if Has(s, k) { assert s[Find(s, k)].key == k; }
  }

  /** The index stays right when a listed key is overwritten in place or a new one appended. */
  lemma IndexPut(record: map<bytes, int>, s: seq<KeyValue>, kv: KeyValue)
    requires Indexes(record, s)
    ensures kv.key in record ==>
      0 <= record[kv.key] < |s| && Put(s, kv) == s[record[kv.key] := kv] && Indexes(record, Put(s, kv))
    ensures kv.key !in record ==>
      Put(s, kv) == s + [kv] && Indexes(record[kv.key := |s|], Put(s, kv))
  {
    IndexFinds(record, s, kv.key);
  }
}
