/** Resources: attribute sets without invalid or duplicate entries, and their merge. */
module Resource {
  import opened Prelude
  import opened AttrValue
  import opened AttrSet
  import opened AttrNorm

  datatype Resource = Resource(attrs: seq<KeyValue>)

  const EMPTY := Resource([])

  function ValidOnly(kvs: seq<KeyValue>): seq<KeyValue>
  {
    if |kvs| == 0 then [] else
    var last := kvs[|kvs| - 1];
    ValidOnly(kvs[..|kvs| - 1]) + if IsValid(last) then [last] else []
  }

  lemma {:induction false} ValidOnlyMembers(kvs: seq<KeyValue>, kv: KeyValue)
    ensures kv in ValidOnly(kvs) <==> kv in kvs && IsValid(kv)
  {
    if |kvs| == 0 {
    } else {
      ValidOnlyMembers(kvs[..|kvs| - 1], kv);
      assert kvs == kvs[..|kvs| - 1] + [kvs[|kvs| - 1]];
    }
  }

  /** Defined keys only, and no duplicate key inside any value. */
  predicate Clean(kvs: seq<KeyValue>)
  {
    forall i :: 0 <= i < |kvs| ==> IsValid(kvs[i]) && Unique(kvs[i].value)
  }

  /** `newWithAttributes` */
  method NewWithAttributes(attrs: seq<KeyValue>) returns (r: Resource)
    requires StorableAttrs(attrs)
    ensures r == Resource(Canonical(ValidOnly(DedupedEntries(attrs))))
    ensures Normalised(r)
  {
    NewIsNormalised(attrs);
    if |attrs| == 0 { return EMPTY; }
    var kvs, _ := NormalizeKeyValues(attrs);
    var valid: seq<KeyValue> := [];
    for i := 0 to |kvs|
      invariant valid == ValidOnly(kvs[..i])
    {
      assert kvs[..i + 1][..i] == kvs[..i];
      if IsValid(kvs[i]) { valid := valid + [kvs[i]]; }
    }
    assert kvs[..|kvs|] == kvs;
    if |valid| == 0 { return EMPTY; }
    var storage := new KeyValue[|valid|](i requires 0 <= i < |valid| => valid[i]);
    assert storage[..] == valid;
    var attrSet := NewSet(storage);
    return Resource(attrSet);
  }

  /** What every constructed resource is. */
  predicate Normalised(r: Resource)
  {
    Ascending(r.attrs) && Clean(r.attrs)
  }

  lemma NewIsNormalised(attrs: seq<KeyValue>)
    requires StorableAttrs(attrs)
    ensures Normalised(Resource(Canonical(ValidOnly(DedupedEntries(attrs)))))
  {
    var d := DedupedEntries(attrs);
    var s := Canonical(ValidOnly(d));
    CanonicalForm(ValidOnly(d));
    forall i | 0 <= i < |s| ensures IsValid(s[i]) && Unique(s[i].value) {
      assert s[i] in ValidOnly(d);
      ValidOnlyMembers(d, s[i]);
      var j :| 0 <= j < |d| && d[j] == s[i];
      DedupedIsUnique(attrs[j].value);
    }
  }

  /** The resource that Merge makes of two that are not nil. */
  function MergedResource(a: Resource, b: Resource): Resource
  {
    Resource(Canonical(ValidOnly(DedupedEntries(Merged(b.attrs, a.attrs)))))
  }

  /** `Merge`; None is the nil resource. */
  method Merge(a: Option<Resource>, b: Option<Resource>) returns (r: Option<Resource>)
    requires (a.Some? ==> Normalised(a.value)) && (b.Some? ==> Normalised(b.value))
    ensures r == if a.None? && b.None? then Some(EMPTY) else if a.None? then b else if b.None? then a
      else Some(MergedResource(a.value, b.value))
  {
    if a.None? && b.None? { return Some(EMPTY); }
    if a.None? { return b; }
    if b.None? { return a; }
    var combined := Combine(b.value.attrs, a.value.attrs);
    MergedClean(a.value, b.value);
    CleanIsFixed(combined);
    var m := NewWithAttributes(combined);
    return Some(m);
  }

  lemma CleanIsFixed(kvs: seq<KeyValue>)
    requires Clean(kvs)
    ensures StorableAttrs(kvs) && DedupedEntries(kvs) == kvs
  {
    forall i | 0 <= i < |kvs| ensures WellFormed(kvs[i].value) && DedupedEntries(kvs)[i] == kvs[i] {
      UniqueIsFixed(kvs[i].value);
    }
  }

  lemma MergedClean(a: Resource, b: Resource)
    requires Normalised(a) && Normalised(b)
    ensures Clean(Merged(b.attrs, a.attrs))
  {
    var m := Merged(b.attrs, a.attrs);
    forall i | 0 <= i < |m| ensures IsValid(m[i]) && Unique(m[i].value) {
      MergedMembers(b.attrs, a.attrs, m[i]);
    }
  }

  lemma {:induction false} AllValidKept(kvs: seq<KeyValue>)
    requires Clean(kvs)
    ensures ValidOnly(kvs) == kvs
  {
    if |kvs| == 0 {
    } else {
      var init := kvs[..|kvs| - 1];
      assert Clean(init);
      AllValidKept(init);
      assert kvs == init + [kvs[|kvs| - 1]];
    }
  }

  /** A normalised resource is determined by the map it denotes. */
  lemma NormalisedByMap(a: Resource, b: Resource)
    requires Normalised(a) && Normalised(b) && ToMap(a.attrs) == ToMap(b.attrs)
    ensures a == b
  {
    AscendingUnique(a.attrs, b.attrs);
  }

  /** Merging two normalised resources is the union of their maps, b's values winning. */
  lemma MergeIsUnion(a: Resource, b: Resource)
    requires Normalised(a) && Normalised(b)
    ensures Normalised(MergedResource(a, b))
    ensures ToMap(MergedResource(a, b).attrs) == ToMap(a.attrs) + ToMap(b.attrs)
    ensures MergedResource(a, b).attrs == Canonical(a.attrs + b.attrs)
  {
    var m := Merged(b.attrs, a.attrs);
    MergedClean(a, b);
    CleanIsFixed(m);
    NewIsNormalised(m);
    AllValidKept(m);
    MergedAscending(b.attrs, a.attrs);
    CanonicalFixed(m);
    MergedToMap(b.attrs, a.attrs);
    MergedIsCanonical(b.attrs, a.attrs);
  }

  lemma MergeAssociative(a: Resource, b: Resource, c: Resource)
    requires Normalised(a) && Normalised(b) && Normalised(c)
    ensures MergedResource(MergedResource(a, b), c) == MergedResource(a, MergedResource(b, c))
  {
    var ab, bc := MergedResource(a, b), MergedResource(b, c);
    MergeIsUnion(a, b);
    MergeIsUnion(b, c);
    MergeIsUnion(ab, c);
    MergeIsUnion(a, bc);
    MapUnionAssociative(ToMap(a.attrs), ToMap(b.attrs), ToMap(c.attrs));
    NormalisedByMap(MergedResource(ab, c), MergedResource(a, bc));
  }

  /** The empty resource is neutral on both sides, and merging a resource with itself changes nothing. */
  lemma MergeIdentity(a: Resource)
    requires Normalised(a)
    ensures MergedResource(a, EMPTY) == a == MergedResource(EMPTY, a)
    ensures MergedResource(a, a) == a
  {
    MergeIsUnion(a, EMPTY);
    MergeIsUnion(EMPTY, a);
    MergeIsUnion(a, a);
    UnionNeutral(ToMap(a.attrs));
    NormalisedByMap(MergedResource(a, EMPTY), a);
    NormalisedByMap(MergedResource(EMPTY, a), a);
    NormalisedByMap(MergedResource(a, a), a);
  }

  lemma UnionNeutral(m: Dict)
    ensures m + map[] == m && map[] + m == m && m + m == m
  {
  }

  // ---------------------------------------------------------------- what a resource reads

  lemma {:induction false} ValidOnlyToMap(kvs: seq<KeyValue>, k: bytes)
    ensures k in ToMap(ValidOnly(kvs)) <==> k in ToMap(kvs) && k != []
    ensures k in ToMap(ValidOnly(kvs)) ==> ToMap(ValidOnly(kvs))[k] == ToMap(kvs)[k]
  {
    if |kvs| == 0 {
    } else {
      var init, last := kvs[..|kvs| - 1], kvs[|kvs| - 1];
      ValidOnlyToMap(init, k);
      assert kvs == init + [last];
      LastToMap(init, last);
      LastToMap(ValidOnly(init), last);
      assert ValidOnly(kvs) == if IsValid(last) then ValidOnly(init) + [last] else ValidOnly(init) + [];
      assert ValidOnly(init) + [] == ValidOnly(init);
      hide ToMap, ValidOnly;
    }
  }

  lemma LastToMap(init: seq<KeyValue>, last: KeyValue)
    ensures ToMap(init + [last]) == ToMap(init)[last.key := last.value]
  {
    ToMapAppend(init, [last]);
    assert [last][1..] == [] && ToMap([last]) == map[last.key := last.value];
  }

  /**
    What a new resource reads: for each key that is not empty the last value given for it, de-duplicated, and
    nothing else.
   */
  lemma NewReads(attrs: seq<KeyValue>, k: bytes)
    requires StorableAttrs(attrs)
    ensures var m := ToMap(Canonical(ValidOnly(DedupedEntries(attrs))));
      && (k in m <==> k in ToMap(attrs) && k != [])
      && (k in m ==> m[k] == Deduped(ToMap(attrs)[k]))
  {
    CanonicalForm(ValidOnly(DedupedEntries(attrs)));
    ValidOnlyToMap(DedupedEntries(attrs), k);
    DedupedToMap(attrs, k);
  }

  lemma {:induction false} DedupedToMap(kvs: seq<KeyValue>, k: bytes)
    ensures k in ToMap(DedupedEntries(kvs)) <==> k in ToMap(kvs)
    ensures k in ToMap(kvs) ==> ToMap(DedupedEntries(kvs))[k] == Deduped(ToMap(kvs)[k])
  {
    if |kvs| == 0 {
    } else {
      DedupedToMap(kvs[1..], k);
      assert DedupedEntries(kvs)[1..] == DedupedEntries(kvs[1..]);
      hide Deduped;
    }
  }
}
