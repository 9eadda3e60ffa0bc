/**
  Normalisation of attribute values: duplicate keys inside nested maps are removed, the last value
  given for a key winning, with the original value handed back untouched when nothing changes.
 */
module AttrNorm {
  import opened Prelude
  import opened AttrValue
  import AttrSet

  // ---------------------------------------------------------------- what normalising yields

  /** v with only the last entry of each run of equal keys kept, in every map at every depth. */
  function Deduped(v: Value): Value
  {
    match v
    case Slice(elems) => Slice(seq(|elems|, i requires 0 <= i < |elems| => Deduped(elems[i])))
    case Map(entries) => Map(Collapse(DedupedEntries(entries)))
    case _ => v
  }

  function DedupedEntries(kvs: seq<KeyValue>): (r: seq<KeyValue>)
    ensures |r| == |kvs|
  {
    seq(|kvs|, i requires 0 <= i < |kvs| => KeyValue(kvs[i].key, Deduped(kvs[i].value)))
  }

  /** An independent reading of values: maps are finite maps in which the last value of a key counts. */
  datatype Reading = Atom(v: Value) | List(items: seq<Reading>) | Table(table: map<bytes, Reading>)

  function Meaning(v: Value): Reading
  {
    match v
    case Slice(elems) => List(seq(|elems|, i requires 0 <= i < |elems| => Meaning(elems[i])))
    case Map(entries) => Table(TableOf(entries))
    case _ => Atom(v)
  }

  function TableOf(kvs: seq<KeyValue>): map<bytes, Reading>
  {
    if |kvs| == 0 then map[] else map[kvs[0].key := Meaning(kvs[0].value)] + TableOf(kvs[1..])
  }

  /** No map inside v, at any depth, repeats a key; keys ascend. */
  predicate Unique(v: Value)
  {
    match v
    case Slice(elems) => forall i :: 0 <= i < |elems| ==> Unique(elems[i])
    case Map(entries) => Ascending(entries) && forall i :: 0 <= i < |entries| ==> Unique(entries[i].value)
    case _ => true
  }

  // ---------------------------------------------------------------- meaning is kept

  lemma {:induction false} CollapseTable(kvs: seq<KeyValue>)
    ensures TableOf(Collapse(kvs)) == TableOf(kvs)
  {
    if |kvs| > 1 {
      CollapseTable(kvs[1..]);
      if kvs[0].key != kvs[1].key {
        assert ([kvs[0]] + Collapse(kvs[1..]))[1..] == Collapse(kvs[1..]);
      }
    }
  }

  /** The reading of every nested map survives normalisation, for any value whatever. */
  lemma {:induction false} DedupedKeepsMeaning(v: Value)
    ensures Meaning(Deduped(v)) == Meaning(v)
  {
    match v
    case Slice(elems) =>
      forall i | 0 <= i < |elems| ensures Meaning(Deduped(elems[i])) == Meaning(elems[i]) {
        DedupedKeepsMeaning(elems[i]);
      }
    case Map(entries) =>
      DedupedEntriesKeepTable(entries);
      CollapseTable(DedupedEntries(entries));
    case _ =>
  }

  lemma {:induction false} DedupedEntriesKeepTable(kvs: seq<KeyValue>)
    ensures TableOf(DedupedEntries(kvs)) == TableOf(kvs)
  {
    if |kvs| == 0 {
    } else {
      DedupedKeepsMeaning(kvs[0].value);
      DedupedEntriesKeepTable(kvs[1..]);
      assert DedupedEntries(kvs)[1..] == DedupedEntries(kvs[1..]);
    }
  }

  // ---------------------------------------------------------------- the result is canonical

  lemma {:induction false} DedupedIsUnique(v: Value)
    requires WellFormed(v)
    ensures Unique(Deduped(v))
  {
    match v
    case Slice(elems) =>
      forall i | 0 <= i < |elems| ensures Unique(Deduped(elems[i])) { DedupedIsUnique(elems[i]); }
    case Map(entries) =>
      var d := DedupedEntries(entries);
      CollapseAscending(d);
      forall i | 0 <= i < |entries| ensures Unique(d[i].value) { DedupedIsUnique(entries[i].value); }
      CollapseMembers(d);
      forall i | 0 <= i < |Collapse(d)| ensures Unique(Collapse(d)[i].value) {
        assert Collapse(d)[i] in d;
      }
    case _ =>
  }

  lemma {:induction false} UniqueIsFixed(v: Value)
    requires Unique(v)
    ensures Deduped(v) == v && WellFormed(v)
  {
    match v
    case Slice(elems) =>
      forall i | 0 <= i < |elems| ensures Deduped(elems[i]) == elems[i] && WellFormed(elems[i]) {
        UniqueIsFixed(elems[i]);
      }
      assert seq(|elems|, i requires 0 <= i < |elems| => Deduped(elems[i])) == elems;
    case Map(entries) =>
      forall i | 0 <= i < |entries|
        ensures DedupedEntries(entries)[i] == entries[i] && WellFormed(entries[i].value)
      {
        UniqueIsFixed(entries[i].value);
      }
      assert DedupedEntries(entries) == entries;
      AscendingIsSorted(entries);
      CollapseFixed(entries);
    case _ =>
  }

  lemma DedupedIdempotent(v: Value)
    requires WellFormed(v)
    ensures Deduped(Deduped(v)) == Deduped(v)
  {
    DedupedIsUnique(v);
    UniqueIsFixed(Deduped(v));
  }

  /** The entries of an ascending list, as their table reads them. */
  lemma {:induction false} TableEntries(kvs: seq<KeyValue>)
    requires Ascending(kvs)
    ensures TableOf(kvs).Keys == ToMap(kvs).Keys
    ensures forall i :: 0 <= i < |kvs| ==>
      kvs[i].key in TableOf(kvs) && TableOf(kvs)[kvs[i].key] == Meaning(kvs[i].value)
  {
    if |kvs| == 0 {
    } else {
      TableEntries(kvs[1..]);
      AscendingIsSorted(kvs);
      forall i | 0 <= i < |kvs|
        ensures kvs[i].key in TableOf(kvs) && TableOf(kvs)[kvs[i].key] == Meaning(kvs[i].value)
      {
        if i > 0 {
          assert kvs[i] == kvs[1..][i - 1];
        } else {
          ToMapKeys(kvs[1..], kvs[0].key);
        }
      }
    }
  }

  function Blank(kvs: seq<KeyValue>): seq<KeyValue>
  {
    seq(|kvs|, i requires 0 <= i < |kvs| => KeyValue(kvs[i].key, Empty))
  }

  lemma {:induction false} BlankMap(kvs: seq<KeyValue>)
    ensures ToMap(Blank(kvs)) == map k | k in ToMap(kvs).Keys :: Empty
  {
    if |kvs| == 0 {
    } else {
      BlankMap(kvs[1..]);
      assert Blank(kvs)[1..] == Blank(kvs[1..]);
    }
  }

  /** Ascending lists with the same keys list them in the same order. */
  lemma AscendingSameKeys(a: seq<KeyValue>, b: seq<KeyValue>)
    requires Ascending(a) && Ascending(b) && ToMap(a).Keys == ToMap(b).Keys
    ensures |a| == |b| && forall i :: 0 <= i < |a| ==> a[i].key == b[i].key
  {
    var blankA, blankB := Blank(a), Blank(b);
    assert Ascending(blankA) && Ascending(blankB);
    assert blankA == blankB by {
      BlankMap(a);
      BlankMap(b);
      AscendingUnique(blankA, blankB);
    }
    forall i | 0 <= i < |a| ensures a[i].key == b[i].key {
      assert blankA[i] == blankB[i];
    }
  }

  /** Duplicate-free values that read the same are the same. */
  lemma {:induction false} UniqueByMeaning(a: Value, b: Value)
    requires Unique(a) && Unique(b) && Meaning(a) == Meaning(b)
    ensures a == b
  {
    match (a, b)
    case (Slice(xs), Slice(ys)) =>
      assert |xs| == |Meaning(a).items| == |Meaning(b).items| == |ys|;
      forall i | 0 <= i < |xs| ensures xs[i] == ys[i] {
        assert Meaning(a).items[i] == Meaning(b).items[i];
        UniqueByMeaning(xs[i], ys[i]);
      }
    case (Map(xs), Map(ys)) =>
      TableEntries(xs);
      TableEntries(ys);
      AscendingSameKeys(xs, ys);
      forall i | 0 <= i < |xs| ensures xs[i] == ys[i] {
        UniqueByMeaning(xs[i].value, ys[i].value);
      }
    case _ =>
  }

  /** Normalising is a canonical form: two stored values normalise alike exactly when they read alike. */
  lemma DedupedIffSameMeaning(a: Value, b: Value)
    requires WellFormed(a) && WellFormed(b)
    ensures Deduped(a) == Deduped(b) <==> Meaning(a) == Meaning(b)
  {
    DedupedKeepsMeaning(a);
    DedupedKeepsMeaning(b);
    DedupedIsUnique(a);
    DedupedIsUnique(b);
    if Meaning(a) == Meaning(b) { UniqueByMeaning(Deduped(a), Deduped(b)); }
  }

  // ---------------------------------------------------------------- the code

  lemma {:induction false} CollapseSplit(s: seq<KeyValue>, i: nat)
    requires 0 < i < |s| && s[i - 1].key != s[i].key
    ensures Collapse(s) == Collapse(s[..i]) + Collapse(s[i..])
  {
    if i == 1 {
      assert s[..1] == [s[0]];
    } else {
      CollapseSplit(s[1..], i - 1);
      assert s[1..][..i - 1] == s[..i][1..];
      assert s[1..][i - 1..] == s[i..];
    }
  }

  lemma {:induction false} CollapseRun(s: seq<KeyValue>)
    requires |s| > 0 && forall i :: 0 <= i < |s| ==> s[i].key == s[0].key
    ensures Collapse(s) == [s[|s| - 1]]
  {
    if |s| > 1 { CollapseRun(s[1..]); }
  }

  /** One run [i, j) of equal keys adds one entry, its last. */
  lemma CollapseNextRun(s: seq<KeyValue>, i: nat, j: nat)
    requires i < j <= |s| && (i == 0 || s[i - 1].key != s[i].key)
    requires forall x :: i <= x < j ==> s[x].key == s[i].key
    ensures Collapse(s[..j]) == Collapse(s[..i]) + [s[j - 1]]
  {
    CollapseRun(s[i..j]);
    if i > 0 {
      CollapseSplit(s[..j], i);
      assert s[..j][..i] == s[..i];
      assert s[..j][i..] == s[i..j];
    } else {
      assert s[..j] == s[i..j];
    }
  }

  /** `attrnorm.Value` */
  method NormalizeValue(v: Value) returns (r: Value, changed: bool)
    requires WellFormed(v)
    ensures r == Deduped(v)
    ensures changed <==> r != v
    decreases v, 1
  {
    match v
    case Slice(_) => r, changed := DeduplicateSliceValue(v);
    case Map(_) => r, changed := DeduplicateMapValue(v);
    case _ => return v, false;
  }

  /** `attrnorm.KeyValue` */
  method NormalizeKeyValue(kv: KeyValue) returns (r: KeyValue, changed: bool)
    requires WellFormed(kv.value)
    ensures r == KeyValue(kv.key, Deduped(kv.value))
    ensures changed <==> r != kv
    decreases kv
  {
    var value, c := NormalizeValue(kv.value);
    return if c then kv.(value := value) else kv, c;
  }

  /** `attrnorm.KeyValues`: the argument itself comes back unless some value changed. */
  method NormalizeKeyValues(kvs: seq<KeyValue>) returns (r: seq<KeyValue>, changed: bool)
    requires forall i :: 0 <= i < |kvs| ==> WellFormed(kvs[i].value)
    ensures r == DedupedEntries(kvs)
    ensures changed <==> r != kvs
  {
    var normalized: array?<KeyValue> := null;
    for i := 0 to |kvs|
      invariant normalized != null ==> fresh(normalized) && normalized.Length == |kvs|
      invariant normalized != null ==> normalized[..i] == DedupedEntries(kvs)[..i] != kvs[..i]
      invariant normalized == null ==> DedupedEntries(kvs)[..i] == kvs[..i]
    {
      var kv, c := NormalizeKeyValue(kvs[i]);
      if normalized != null {
        normalized[i] := kv;
        assert normalized[..i] == normalized[..i + 1][..i] && kvs[..i] == kvs[..i + 1][..i];
      } else if c {
        normalized := new KeyValue[|kvs|](j requires 0 <= j < |kvs| => if j < i then kvs[j] else KeyValue([], Empty));
        normalized[i] := kv;
        assert normalized[..i] == kvs[..i];
        assert normalized[..i + 1][i] != kvs[..i + 1][i];
      }
    }
    assert kvs[..|kvs|] == kvs && DedupedEntries(kvs)[..|kvs|] == DedupedEntries(kvs);
    if normalized == null { return kvs, false; }
    assert normalized[..] == normalized[..|kvs|];
    return normalized[..], true;
  }

  method DeduplicateSliceValue(v: Value) returns (r: Value, changed: bool)
    requires v.Slice? && WellFormed(v)
    ensures r == Deduped(v)
    ensures changed <==> r != v
    decreases v, 0
  {
    var elems := v.elems;
    ghost var want := Deduped(v).elems;
    var normalized: array?<Value> := null;
    for i := 0 to |elems|
      invariant normalized != null ==> fresh(normalized) && normalized.Length == |elems|
      invariant normalized != null ==> normalized[..i] == want[..i] != elems[..i]
      invariant normalized == null ==> want[..i] == elems[..i]
    {
      var elem, c := NormalizeValue(elems[i]);
      if normalized != null {
        normalized[i] := elem;
        assert normalized[..i] == normalized[..i + 1][..i] && elems[..i] == elems[..i + 1][..i];
      } else if c {
        normalized := new Value[|elems|](j requires 0 <= j < |elems| => if j < i then elems[j] else Empty);
        normalized[i] := elem;
        assert normalized[..i] == elems[..i];
        assert normalized[..i + 1][i] != elems[..i + 1][i];
      }
    }
    assert elems[..|elems|] == elems && want[..|elems|] == want;
    if normalized == null { return v, false; }
    assert normalized[..] == normalized[..|elems|];
    return Slice(normalized[..]), true;
  }

  method DeduplicateMapValue(v: Value) returns (r: Value, changed: bool)
    requires v.Map? && WellFormed(v)
    ensures r == Deduped(v)
    ensures changed <==> r != v
    decreases v, 0
  {
    var entries := v.entries;
    ghost var d := DedupedEntries(entries);
    if |entries| <= 1 {
      if |entries| == 1 {
        var kv, c := NormalizeKeyValue(entries[0]);
        assert d == [kv];
        if c { return MapValue([kv]), true; }
        assert entries == [kv];
      }
      return v, false;
    }
    var normalized := CopyRuns(entries);
    if normalized.None? { return v, false; }
    CollapseAscending(d);
    AscendingIsSorted(Collapse(d));
    StableSortFixed(normalized.value);
    return MapValue(normalized.value), true;
  }

  /** The loop of `deduplicateMapValue`: None means that no entry had to change. */
  method CopyRuns(entries: seq<KeyValue>) returns (normalized: Option<seq<KeyValue>>)
    requires forall i :: 0 <= i < |entries| ==> WellFormed(entries[i].value)
    ensures normalized.None? ==> Collapse(DedupedEntries(entries)) == entries
    ensures normalized.Some? ==> normalized.value == Collapse(DedupedEntries(entries)) != entries
    decreases entries
  {
    ghost var d := DedupedEntries(entries);
    RunsEnds(entries, d);
    assert forall x :: 0 <= x < |entries| ==> d[x] == KeyValue(entries[x].key, Deduped(entries[x].value));
    hide RunsDone, Collapse, DedupedEntries, Deduped, WellFormed;
    normalized := None;
    var i := 0;
    while i < |entries|
      invariant 0 <= i <= |entries| && RunsDone(entries, d, i, normalized)
    {
      var j := RunEnd(entries, i);
      var kv, nestedChanged := NormalizeKeyValue(entries[j - 1]);
      var c := nestedChanged || j - i > 1;
      RunsDoneStep(entries, d, i, j, normalized);
      if normalized.Some? {
        normalized := Some(normalized.value + [kv]);
      } else if c {
        normalized := Some(entries[..i] + [kv]);
      }
      i := j;
    }
  }

  /** The end of the run of entries that share a key with entry i. */
  method RunEnd(entries: seq<KeyValue>, i: nat) returns (j: nat)
    requires i < |entries|
    ensures i < j <= |entries| && (j < |entries| ==> entries[j].key != entries[i].key)
    ensures forall x :: i <= x < j ==> entries[x].key == entries[i].key
  {
    j := i + 1;
    while j < |entries| && entries[j].key == entries[i].key
      invariant i < j <= |entries|
      invariant forall x :: i <= x < j ==> entries[x].key == entries[i].key
    {
      j := j + 1;
    }
  }

  /** The scan of a map's runs: i entries read, and what has been copied out of them. */
  ghost predicate RunsDone(entries: seq<KeyValue>, d: seq<KeyValue>, i: int, normalized: Option<seq<KeyValue>>)
  {
    && |d| == |entries| && 0 <= i <= |entries|
    && (0 < i < |entries| ==> d[i - 1].key != d[i].key)
    && |Collapse(d[..i])| <= i
    && (normalized.None? ==> Collapse(d[..i]) == entries[..i])
    && (normalized.Some? ==> normalized.value == Collapse(d[..i]) != entries[..i])
  }

  /** How the scan begins, and what it has found when it is through. */
  lemma RunsEnds(entries: seq<KeyValue>, d: seq<KeyValue>)
    requires d == DedupedEntries(entries)
    ensures RunsDone(entries, d, 0, None)
    ensures RunsDone(entries, d, |entries|, None) ==> Collapse(d) == entries
    ensures forall r :: RunsDone(entries, d, |entries|, Some(r)) ==> r == Collapse(d) != entries
  {
    assert d[..|entries|] == d && entries[..|entries|] == entries && d[..0] == entries[..0] == [];
  }

  lemma RunsDoneStep(entries: seq<KeyValue>, d: seq<KeyValue>, i: nat, j: nat, normalized: Option<seq<KeyValue>>)
    requires RunsDone(entries, d, i, normalized) && d == DedupedEntries(entries)
    requires i < j <= |entries| && (j < |entries| ==> entries[j].key != entries[i].key)
    requires forall x :: i <= x < j ==> entries[x].key == entries[i].key
    ensures normalized.Some? ==> RunsDone(entries, d, j, Some(normalized.value + [d[j - 1]]))
    ensures normalized.None? && (d[j - 1] != entries[j - 1] || j - i > 1) ==>
      RunsDone(entries, d, j, Some(entries[..i] + [d[j - 1]]))
    ensures normalized.None? && d[j - 1] == entries[j - 1] && j - i == 1 ==> RunsDone(entries, d, j, None)
  {
    forall x | i <= x < j ensures d[x].key == d[i].key {
      assert d[x].key == entries[x].key;
    }
    hide DedupedEntries, Collapse;
    CollapseNextRun(d, i, j);
    GrownIs(Collapse(d[..i]), d[j - 1], entries, i, j);
  }

  lemma GrownIs<T>(before: seq<T>, e: T, all: seq<T>, i: nat, j: nat)
    requires |before| <= i < j <= |all|
    ensures before + [e] == all[..j] <==> before == all[..i] && j == i + 1 && e == all[i]
  {
    if before + [e] == all[..j] {
      assert (before + [e])[|before|] == all[i] && before == (before + [e])[..i] == all[..j][..i];
    }
  }

  /** `attrnorm.Set`: keys are left alone, so the result is again a set. */
  method NormalizeSet(attrs: seq<KeyValue>) returns (r: seq<KeyValue>, changed: bool)
    requires Ascending(attrs) && forall i :: 0 <= i < |attrs| ==> WellFormed(attrs[i].value)
    ensures r == DedupedEntries(attrs) && Ascending(r)
    ensures changed <==> r != attrs
  {
    ghost var d := DedupedEntries(attrs);
    var normalized: Option<seq<KeyValue>> := None;
    for i := 0 to |attrs|
      invariant normalized.None? ==> d[..i] == attrs[..i]
      invariant normalized.Some? ==> normalized.value == d[..i] != attrs[..i]
    {
      var kv, c := NormalizeKeyValue(attrs[i]);
      assert d[..i + 1] == d[..i] + [kv] && attrs[..i + 1] == attrs[..i] + [attrs[i]];
      if normalized.Some? {
        normalized := Some(normalized.value + [kv]);
      } else if c {
        normalized := Some(attrs[..i] + [kv]);
      }
    }
    assert d[..|attrs|] == d && attrs[..|attrs|] == attrs;
    if normalized.None? { return attrs, false; }
    var storage := new KeyValue[|normalized.value|](i requires 0 <= i < |normalized.value| => normalized.value[i]);
    assert storage[..] == d;
    AttrSet.CanonicalFixed(d);
    r := AttrSet.NewSet(storage);
    changed := true;
  }
}
