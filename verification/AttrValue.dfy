/**
  Attribute values, and the key-sorted lists of key-values that `MAP` values and attribute sets are
  stored as.  The meaning of a list of key-values is the finite map in which the last value given for
  a key wins.
 */
module AttrValue {
  import opened Prelude

  datatype Value =
    | Empty
    | Bool(b: bool)
    | Int64(i: int)
    | Float64(bits: nat)
    | BoolSlice(bs: seq<bool>)
    | Int64Slice(ints: seq<int>)
    | Float64Slice(floats: seq<nat>)
    | Str(s: bytes)
    | StrSlice(ss: seq<bytes>)
    | ByteSlice(raw: bytes)
    | Slice(elems: seq<Value>)
    | Map(entries: seq<KeyValue>)

  datatype KeyValue = KeyValue(key: bytes, value: Value)

  type Dict = map<bytes, Value>

  /** An attribute is valid when its key is defined. */
  predicate IsValid(kv: KeyValue) { |kv.key| != 0 }

  // ---------------------------------------------------------------- key order

  predicate Sorted(kvs: seq<KeyValue>)
  {
    forall i, j :: 0 <= i < j < |kvs| ==> !Less(kvs[j].key, kvs[i].key)
  }

  predicate Ascending(kvs: seq<KeyValue>)
  {
    forall i, j :: 0 <= i < j < |kvs| ==> Less(kvs[i].key, kvs[j].key)
  }

  lemma AscendingIsSorted(kvs: seq<KeyValue>)
    requires Ascending(kvs)
    ensures Sorted(kvs)
    ensures forall i, j :: 0 <= i < j < |kvs| ==> kvs[i].key != kvs[j].key
  {
    forall i, j | 0 <= i < j < |kvs|
      ensures !Less(kvs[j].key, kvs[i].key) && kvs[i].key != kvs[j].key
    {
      LessTrichotomy(kvs[i].key, kvs[j].key);
    }
  }

  /** The last-wins reading of a list of key-values. */
  function ToMap(kvs: seq<KeyValue>): Dict
  {
    if |kvs| == 0 then map[] else map[kvs[0].key := kvs[0].value] + ToMap(kvs[1..])
  }

  lemma {:induction false} ToMapKeys(kvs: seq<KeyValue>, k: bytes)
    ensures k in ToMap(kvs) <==> exists i :: 0 <= i < |kvs| && kvs[i].key == k
  {
    if |kvs| == 0 {
    } else {
      ToMapKeys(kvs[1..], k);
      assert forall i :: 0 < i < |kvs| ==> kvs[i] == kvs[1..][i - 1];
    }
  }

  /** ToMap reads the last occurrence of each key. */
  lemma {:induction false} ToMapIsLast(kvs: seq<KeyValue>, i: nat)
    requires i < |kvs|
    requires forall j :: i < j < |kvs| ==> kvs[j].key != kvs[i].key
    ensures kvs[i].key in ToMap(kvs) && ToMap(kvs)[kvs[i].key] == kvs[i].value
  {
    if i > 0 {
      ToMapIsLast(kvs[1..], i - 1);
    } else {
      ToMapKeys(kvs[1..], kvs[0].key);
    }
  }

  lemma MapUnionAssociative(a: Dict, b: Dict, c: Dict)
    ensures (a + b) + c == a + (b + c)
  {}

  lemma {:induction false} ToMapAppend(a: seq<KeyValue>, b: seq<KeyValue>)
    ensures ToMap(a + b) == ToMap(a) + ToMap(b)
  {
    if |a| == 0 {
      assert a + b == b;
    } else {
      ToMapAppend(a[1..], b);
      assert (a + b)[1..] == a[1..] + b;
      MapUnionAssociative(map[a[0].key := a[0].value], ToMap(a[1..]), ToMap(b));
    }
  }

  // ---------------------------------------------------------------- stable sort

  function InsertSorted(x: KeyValue, s: seq<KeyValue>): seq<KeyValue>
  {
    if |s| == 0 || !Less(s[0].key, x.key) then [x] + s
    else [s[0]] + InsertSorted(x, s[1..])
  }

  /** What `slices.SortStableFunc` by key yields; the four lemmas below pin it down. */
  function StableSort(s: seq<KeyValue>): (r: seq<KeyValue>)
    ensures |r| == |s|
  {
    if |s| == 0 then [] else
    InsertSortedContents(s[0], StableSort(s[1..]));
    InsertSorted(s[0], StableSort(s[1..]))
  }

  lemma {:induction false} InsertSortedContents(x: KeyValue, s: seq<KeyValue>)
    ensures multiset(InsertSorted(x, s)) == multiset{x} + multiset(s)
    ensures |InsertSorted(x, s)| == |s| + 1
  {
    if |s| == 0 || !Less(s[0].key, x.key) {
    } else {
      InsertSortedContents(x, s[1..]);
      assert s == [s[0]] + s[1..];
    }
  }

  lemma {:induction false} InsertSortedKeepsOrder(x: KeyValue, s: seq<KeyValue>)
    requires Sorted(s)
    ensures Sorted(InsertSorted(x, s))
  {
    var r := InsertSorted(x, s);
    if |s| == 0 {
    } else if !Less(s[0].key, x.key) {
      forall j | 0 <= j < |s| ensures !Less(s[j].key, x.key) {
        if Less(s[j].key, x.key) {
          LessTrichotomy(s[0].key, s[j].key);
          if j > 0 && Less(s[0].key, s[j].key) { LessTransitive(s[0].key, s[j].key, x.key); }
        }
      }
    } else {
      var t := InsertSorted(x, s[1..]);
      InsertSortedKeepsOrder(x, s[1..]);
      InsertSortedContents(x, s[1..]);
      LessTrichotomy(s[0].key, x.key);
      forall j | 0 <= j < |t| ensures !Less(t[j].key, s[0].key) {
        assert t[j] in multiset(t);
        if t[j] != x {
          assert t[j] in s[1..];
        }
      }
    }
  }

  lemma {:induction false} StableSortSorted(s: seq<KeyValue>)
    ensures Sorted(StableSort(s))
    ensures multiset(StableSort(s)) == multiset(s)
  {
    if |s| == 0 {
    } else {
      StableSortSorted(s[1..]);
      InsertSortedKeepsOrder(s[0], StableSort(s[1..]));
      InsertSortedContents(s[0], StableSort(s[1..]));
      assert s == [s[0]] + s[1..];
    }
  }

  /** The entries of s with a given key, in order. */
  function WithKey(s: seq<KeyValue>, k: bytes): seq<KeyValue>
  {
    if |s| == 0 then [] else (if s[0].key == k then [s[0]] else []) + WithKey(s[1..], k)
  }

  lemma {:induction false} InsertSortedWithKey(x: KeyValue, s: seq<KeyValue>, k: bytes)
    ensures WithKey(InsertSorted(x, s), k) == (if x.key == k then [x] else []) + WithKey(s, k)
  {
    if |s| > 0 && Less(s[0].key, x.key) {
      LessIrreflexive(x.key);
      InsertSortedWithKey(x, s[1..], k);
      assert ([s[0]] + InsertSorted(x, s[1..]))[1..] == InsertSorted(x, s[1..]);
      if s[0].key == k {
        assert x.key != k;
      } else {
        assert WithKey(s, k) == WithKey(s[1..], k);
      }
    } else {
      assert ([x] + s)[1..] == s;
    }
  }

  /** The sort is stable: entries with equal keys keep their order. */
  lemma {:induction false} StableSortStable(s: seq<KeyValue>, k: bytes)
    ensures WithKey(StableSort(s), k) == WithKey(s, k)
  {
    if |s| == 0 {
    } else {
      StableSortStable(s[1..], k);
      InsertSortedWithKey(s[0], StableSort(s[1..]), k);
    }
  }

  lemma MapUnionSwap(x: KeyValue, y: KeyValue, m: Dict)
    requires x.key != y.key
    ensures map[y.key := y.value] + (map[x.key := x.value] + m)
         == map[x.key := x.value] + (map[y.key := y.value] + m)
  {}

  lemma {:induction false} InsertSortedToMap(x: KeyValue, s: seq<KeyValue>)
    ensures ToMap(InsertSorted(x, s)) == map[x.key := x.value] + ToMap(s)
  {
    if |s| > 0 && Less(s[0].key, x.key) {
      LessIrreflexive(x.key);
      InsertSortedToMap(x, s[1..]);
      assert ([s[0]] + InsertSorted(x, s[1..]))[1..] == InsertSorted(x, s[1..]);
      MapUnionSwap(x, s[0], ToMap(s[1..]));
    } else {
      assert ([x] + s)[1..] == s;
    }
  }

  lemma {:induction false} StableSortToMap(s: seq<KeyValue>)
    ensures ToMap(StableSort(s)) == ToMap(s)
  {
    if |s| == 0 {
    } else {
      StableSortToMap(s[1..]);
      InsertSortedToMap(s[0], StableSort(s[1..]));
    }
  }

  /** Sorting an already sorted list changes nothing. */
  lemma {:induction false} StableSortFixed(s: seq<KeyValue>)
    requires Sorted(s)
    ensures StableSort(s) == s
  {
    if |s| == 0 {
    } else {
      StableSortFixed(s[1..]);
    }
  }

  // ---------------------------------------------------------------- runs of equal keys

  /** Keep the last entry of every run of equal keys. */
  function Collapse(s: seq<KeyValue>): (r: seq<KeyValue>)
    ensures |r| <= |s| && (|s| > 0 ==> |r| > 0)
  {
    if |s| <= 1 then s
    else if s[0].key == s[1].key then Collapse(s[1..])
    else [s[0]] + Collapse(s[1..])
  }

  lemma {:induction false} CollapseMembers(s: seq<KeyValue>)
    ensures forall kv :: kv in Collapse(s) ==> kv in s
  {
    if |s| > 1 { CollapseMembers(s[1..]); }
  }

  lemma {:induction false} CollapseAscending(s: seq<KeyValue>)
    requires Sorted(s)
    ensures Ascending(Collapse(s))
  {
    if |s| > 1 {
      CollapseAscending(s[1..]);
      if s[0].key != s[1].key {
        var t := Collapse(s[1..]);
        forall j | 0 <= j < |t| ensures Less(s[0].key, t[j].key) {
          CollapseMembers(s[1..]);
          assert t[j] in s[1..];
          var i :| 1 <= i < |s| && s[i] == t[j];
          LessTrichotomy(s[0].key, s[1].key);
          LessTrichotomy(s[1].key, s[i].key);
          if i > 1 && Less(s[1].key, s[i].key) { LessTransitive(s[0].key, s[1].key, s[i].key); }
        }
      }
    }
  }

  lemma {:induction false} CollapseToMap(s: seq<KeyValue>)
    ensures ToMap(Collapse(s)) == ToMap(s)
  {
    if |s| > 1 {
      CollapseToMap(s[1..]);
      if s[0].key != s[1].key {
        assert ([s[0]] + Collapse(s[1..]))[1..] == Collapse(s[1..]);
      }
    }
  }

  lemma {:induction false} CollapseFixed(s: seq<KeyValue>)
    requires Ascending(s)
    ensures Collapse(s) == s
  {
    if |s| > 1 {
      AscendingIsSorted(s);
      CollapseFixed(s[1..]);
    }
  }

  // ---------------------------------------------------------------- canonical lists

  /** In an ascending list the map value of a listed key is the listed value. */
  lemma AscendingLookup(s: seq<KeyValue>, i: nat)
    requires Ascending(s) && i < |s|
    ensures s[i].key in ToMap(s) && ToMap(s)[s[i].key] == s[i].value
  {
    AscendingIsSorted(s);
    ToMapIsLast(s, i);
  }

  lemma {:induction false} AscendingHeads(a: seq<KeyValue>, b: seq<KeyValue>)
    requires Ascending(a) && Ascending(b) && ToMap(a) == ToMap(b)
    requires |a| > 0
    ensures |b| > 0 && !Less(b[0].key, a[0].key)
  {
    AscendingLookup(a, 0);
    ToMapKeys(b, a[0].key);
    var j :| 0 <= j < |b| && b[j].key == a[0].key;
    AscendingLookup(b, 0);
    ToMapKeys(a, b[0].key);
    var i :| 0 <= i < |a| && a[i].key == b[0].key;
    AscendingIsSorted(a);
    LessIrreflexive(a[0].key);
  }

  /** A strictly ascending list is determined by the map it denotes. */
  lemma {:induction false} AscendingUnique(a: seq<KeyValue>, b: seq<KeyValue>)
    requires Ascending(a) && Ascending(b) && ToMap(a) == ToMap(b)
    ensures a == b
  {
    if |a| == 0 {
      if |b| > 0 { AscendingLookup(b, 0); }
    } else {
      AscendingHeads(a, b);
      AscendingHeads(b, a);
      LessTrichotomy(a[0].key, b[0].key);
      AscendingLookup(a, 0);
      AscendingLookup(b, 0);
      AscendingIsSorted(a);
      AscendingIsSorted(b);
      var k := a[0].key;
      assert ToMap(a[1..]) == ToMap(a) - {k} by {
        ToMapKeys(a[1..], k);
        assert ToMap(a) == map[k := a[0].value] + ToMap(a[1..]);
      }
      assert ToMap(b[1..]) == ToMap(b) - {k} by {
        ToMapKeys(b[1..], k);
        assert ToMap(b) == map[k := b[0].value] + ToMap(b[1..]);
      }
      AscendingUnique(a[1..], b[1..]);
      assert a == [a[0]] + a[1..] && b == [b[0]] + b[1..];
    }
  }

  // ---------------------------------------------------------------- stored values

  /** `MapValue` stores its entries stably sorted by key. */
  function MapValue(kvs: seq<KeyValue>): Value { Map(StableSort(kvs)) }

  /** Every map inside v is stored sorted, as MapValue leaves it. */
  predicate WellFormed(v: Value)
  {
    match v
    case Slice(elems) => forall i :: 0 <= i < |elems| ==> WellFormed(elems[i])
    case Map(entries) => Sorted(entries) && forall i :: 0 <= i < |entries| ==> WellFormed(entries[i].value)
    case _ => true
  }

  predicate StorableAttrs(kvs: seq<KeyValue>)
  {
    forall i :: 0 <= i < |kvs| ==> WellFormed(kvs[i].value)
  }

  /** The entries are sorted at every depth, and those of one key keep their order. */
  lemma MapValueWellFormed(kvs: seq<KeyValue>)
    requires StorableAttrs(kvs)
    ensures WellFormed(MapValue(kvs)) && multiset(MapValue(kvs).entries) == multiset(kvs)
    ensures forall k :: WithKey(MapValue(kvs).entries, k) == WithKey(kvs, k)
  {
    forall k ensures WithKey(StableSort(kvs), k) == WithKey(kvs, k) { StableSortStable(kvs, k); }
    StableSortSorted(kvs);
    var s := StableSort(kvs);
    forall i | 0 <= i < |s| ensures WellFormed(s[i].value) {
      assert s[i] in multiset(s);
      assert s[i] in kvs;
    }
  }
}
