/**
  The attributes of the record a logger builds: the caller's, one by one, then the exception attributes
  derived from an error, which never replace the caller's and never exceed the count limit.
 */
module Logger {
  import opened Prelude
  import opened AttrValue
  import opened KeyedList
  import opened Truncate
  import opened LogRecord

  const EXCEPTION_MESSAGE: bytes := Ascii("exception.message")
  const EXCEPTION_TYPE: bytes := Ascii("exception.type")

  /** What an error gives: its message and the name of its type, either possibly empty. */
  datatype ErrorInfo = ErrorInfo(message: bytes, errType: bytes)

  /** The caller's attributes, added one at a time. */
  function AddedEach(l: Limits, attrs: seq<KeyValue>): Attrs
  {
    if |attrs| == 0 then Attrs([], 0)
    else Added(l, AddedEach(l, attrs[..|attrs| - 1]), [attrs[|attrs| - 1]])
  }

  lemma {:induction false} AddedEachShape(l: Limits, attrs: seq<KeyValue>)
    ensures UniqueKeys(AddedEach(l, attrs).entries)
    ensures l.count >= 0 ==> |AddedEach(l, attrs).entries| <= l.count
    ensures forall k :: Has(AddedEach(l, attrs).entries, k) ==> Has(attrs, k)
  {
    if |attrs| == 0 {
    } else {
      var init, last := attrs[..|attrs| - 1], attrs[|attrs| - 1];
      AddedEachShape(l, init);
      var m := AddedEach(l, init);
      AddedShape(l, m, [last]);
      forall k | Has(AddedEach(l, attrs).entries, k) ensures Has(attrs, k) {
        AddedHas(l, m, [last], k);
        HasAppend(init, last, k);
        assert attrs == init + [last];
      }
    }
  }

  lemma AddedHas(l: Limits, m: Attrs, attrs: seq<KeyValue>, k: bytes)
    requires Has(Added(l, m, attrs).entries, k)
    ensures Has(m.entries, k) || Has(attrs, k)
  {
    var p, r := PutAll(m.entries, attrs), Added(l, m, attrs).entries;
    AddedPrefix(l, m, attrs);
    hide Added, PutAll;
    PutAllKeys(m.entries, attrs);
    FindCut(p, r, |r|, k);
  }

  lemma AddedPrefix(l: Limits, m: Attrs, attrs: seq<KeyValue>)
    ensures var (p, r) := (PutAll(m.entries, attrs), Added(l, m, attrs).entries);
      |r| <= |p| && forall i :: 0 <= i < |r| ==> r[i].key == p[i].key
  {
    PutAllGrows(m.entries, attrs);
    hide PutAll;
  }

  /** The attributes an error would add: those the caller did not give, message first. */
  function Missing(attrs: seq<KeyValue>, err: Option<ErrorInfo>): seq<KeyValue>
  {
    match err
    case None => []
    case Some(e) =>
      (if Has(attrs, EXCEPTION_MESSAGE) || e.message == [] then [] else [KeyValue(EXCEPTION_MESSAGE, Str(e.message))])
      + (if Has(attrs, EXCEPTION_TYPE) || e.errType == [] then [] else [KeyValue(EXCEPTION_TYPE, Str(e.errType))])
  }

  /** As many of them as the limit leaves room for. */
  function Fitting(limit: int, held: nat, missing: seq<KeyValue>): seq<KeyValue>
  {
    if limit < 0 then missing else missing[..Min(|missing|, Max(0, limit - held))]
  }

  /** What the record holds in the end. */
  function RecordEntries(l: Limits, attrs: seq<KeyValue>, err: Option<ErrorInfo>): seq<KeyValue>
  {
    var given := AddedEach(l, attrs).entries;
    given + NormalAll(l.value, Fitting(l.count, |given|, Missing(attrs, err)))
  }

  /** The attribute part of `newRecord`. */
  method NewRecord(l: Limits, attrs: seq<KeyValue>, err: Option<ErrorInfo>) returns (r: Record)
    requires StorableAttrs(attrs)
    ensures fresh(r) && r.Valid() && r.limits == l
    ensures r.Attributes() == RecordEntries(l, attrs, err)
    ensures r.dropped == AddedEach(l, attrs).dropped
  {
    r := new Record(l);
    var hasMessage, hasType := Walk(r, attrs);
    var derived := Derive(l.count, r.nFront + |r.back|, hasMessage, hasType, err);
    ghost var given := r.Attributes();
    assert derived == Fitting(l.count, |given|, Missing(attrs, err));
    if |derived| > 0 {
      r.AddAttrs(derived);
    } else {
      assert given + NormalAll(l.value, derived) == given;
    }
  }

  lemma AddedNone(l: Limits, attrs: seq<KeyValue>)
    ensures AddedEach(l, attrs[..0]) == Attrs([], 0)
    ensures !Has(attrs[..0], EXCEPTION_MESSAGE) && !Has(attrs[..0], EXCEPTION_TYPE)
  {}

  lemma AddedEachNext(l: Limits, attrs: seq<KeyValue>, i: nat)
    requires i < |attrs|
    ensures AddedEach(l, attrs[..i + 1]) == Added(l, AddedEach(l, attrs[..i]), [attrs[i]])
  {
    assert attrs[..i + 1][..i] == attrs[..i];
  }

  /** Add the caller's attributes and note which exception attributes are among them. */
  method Walk(r: Record, attrs: seq<KeyValue>) returns (hasMessage: bool, hasType: bool)
    requires r.Valid() && r.State() == Attrs([], 0) && StorableAttrs(attrs)
    modifies r, r.front
    ensures r.Valid() && r.front == old(r.front)
    ensures r.State() == AddedEach(r.limits, attrs)
    ensures hasMessage == Has(attrs, EXCEPTION_MESSAGE) && hasType == Has(attrs, EXCEPTION_TYPE)
  {
    hide AddedEach, Has;
    AddedNone(r.limits, attrs);
    hasMessage, hasType := false, false;
    for i := 0 to |attrs|
      invariant r.Valid() && r.front == old(r.front)
      invariant r.State() == AddedEach(r.limits, attrs[..i])
      invariant hasMessage == Has(attrs[..i], EXCEPTION_MESSAGE)
      invariant hasType == Has(attrs[..i], EXCEPTION_TYPE)
    {
      var kv := attrs[i];
      HasNext(attrs, i, EXCEPTION_MESSAGE);
      HasNext(attrs, i, EXCEPTION_TYPE);
      if kv.key == EXCEPTION_MESSAGE { hasMessage := true; }
      if kv.key == EXCEPTION_TYPE { hasType := true; }
      AddedEachShape(r.limits, attrs[..i]);
      AddedEachNext(r.limits, attrs, i);
      r.AddAttributes([kv]);
    }
    assert attrs[..|attrs|] == attrs;
  }

  lemma HasNext(attrs: seq<KeyValue>, i: nat, k: bytes)
    requires i < |attrs|
    ensures attrs[..i + 1][..i] == attrs[..i]
    ensures Has(attrs[..i + 1], k) <==> Has(attrs[..i], k) || attrs[i].key == k
  {
    assert attrs[..i + 1] == attrs[..i] + [attrs[i]];
    HasAppend(attrs[..i], attrs[i], k);
  }

  /** The buffer of at most two derived attributes, with its jump to flush when the limit is reached. */
  method Derive(limit: int, held: nat, hasMessage: bool, hasType: bool, err: Option<ErrorInfo>)
    returns (attrs: seq<KeyValue>)
    ensures StorableAttrs(attrs)
    ensures forall given :: hasMessage == Has(given, EXCEPTION_MESSAGE) && hasType == Has(given, EXCEPTION_TYPE) ==>
      attrs == Fitting(limit, held, Missing(given, err))
  {
    attrs := [];
    if err.Some? && (!hasMessage || !hasType) {
      var remaining := if limit >= 0 then limit - held else 0;
      if !hasMessage && err.value.message != [] {
        if limit >= 0 && remaining <= |attrs| { return; }
        attrs := attrs + [KeyValue(EXCEPTION_MESSAGE, Str(err.value.message))];
      }
      if !hasType && err.value.errType != [] {
        if limit >= 0 && remaining <= |attrs| { return; }
        attrs := attrs + [KeyValue(EXCEPTION_TYPE, Str(err.value.errType))];
      }
    }
  }

  lemma MissingKeys(attrs: seq<KeyValue>, err: Option<ErrorInfo>)
    ensures var m := Missing(attrs, err);
      UniqueKeys(m) && forall i :: 0 <= i < |m| ==> !Has(attrs, m[i].key)
  {
    assert |EXCEPTION_MESSAGE| != |EXCEPTION_TYPE|;
  }

  /** Lists with unique keys, none shared, join to a list with unique keys. */
  lemma UniqueJoin(a: seq<KeyValue>, b: seq<KeyValue>)
    requires UniqueKeys(a) && UniqueKeys(b)
    requires forall j :: 0 <= j < |b| ==> !Has(a, b[j].key)
    ensures UniqueKeys(a + b)
  {
    forall i, j | 0 <= i < |a| && 0 <= j < |b| ensures a[i].key != b[j].key {
      assert Find(a, b[j].key) == |a|;
    }
  }

  /**
    The record's keys are unique and within the limit, and a key the caller gave is never derived:
    what the record reads for it comes from the caller.
   */
  lemma NewRecordKeys(l: Limits, attrs: seq<KeyValue>, err: Option<ErrorInfo>)
    ensures var all := RecordEntries(l, attrs, err);
      && UniqueKeys(all)
      && (l.count >= 0 ==> |all| <= l.count)
      && (forall i :: |AddedEach(l, attrs).entries| <= i < |all| ==> !Has(attrs, all[i].key))
  {
    AddedEachShape(l, attrs);
    MissingKeys(attrs, err);
    var given := AddedEach(l, attrs).entries;
    var missing := Missing(attrs, err);
    var derived := NormalAll(l.value, Fitting(l.count, |given|, missing));
    forall i | 0 <= i < |derived| ensures derived[i].key == missing[i].key {}
    UniqueJoin(given, derived);
  }

  // ---------------------------------------------------------------- the derived attributes

  /** The two keys, written out. */
  lemma ExceptionKeys()
    ensures EXCEPTION_MESSAGE ==
      [0x65, 0x78, 0x63, 0x65, 0x70, 0x74, 0x69, 0x6F, 0x6E, 0x2E, 0x6D, 0x65, 0x73, 0x73, 0x61, 0x67, 0x65]
    ensures EXCEPTION_TYPE == [0x65, 0x78, 0x63, 0x65, 0x70, 0x74, 0x69, 0x6F, 0x6E, 0x2E, 0x74, 0x79, 0x70, 0x65]
  {}

  predicate HasMessage(attrs: seq<KeyValue>, err: Option<ErrorInfo>)
  {
    err.Some? && !Has(attrs, EXCEPTION_MESSAGE) && err.value.message != []
  }

  predicate HasType(attrs: seq<KeyValue>, err: Option<ErrorInfo>)
  {
    err.Some? && !Has(attrs, EXCEPTION_TYPE) && err.value.errType != []
  }

  /** There is room for one attribute beside n others. */
  predicate RoomFor(l: Limits, n: nat) { l.count < 0 || n < l.count }

  /** What the record holds behind the caller's attributes: the message, then the type, as far as there is room. */
  lemma DerivedAre(l: Limits, attrs: seq<KeyValue>, err: Option<ErrorInfo>)
    ensures var (given, all) := (AddedEach(l, attrs).entries, RecordEntries(l, attrs, err));
      var n := |given|;
      var message := HasMessage(attrs, err) && RoomFor(l, n);
      var more := if message then [Normal(l.value, KeyValue(EXCEPTION_MESSAGE, Str(err.value.message)))] else [];
      var errType := HasType(attrs, err) && RoomFor(l, n + |more|);
      all == given + more
        + if errType then [Normal(l.value, KeyValue(EXCEPTION_TYPE, Str(err.value.errType)))] else []
  {
    hide AddedEach, Normal;
    var n := |AddedEach(l, attrs).entries|;
    AddedEachShape(l, attrs);
    var missing := Missing(attrs, err);
    var fitting := Fitting(l.count, n, missing);
    assert |missing| == (if HasMessage(attrs, err) then 1 else 0) + (if HasType(attrs, err) then 1 else 0);
    assert |fitting| == if l.count < 0 then |missing| else Min(|missing|, l.count - n);
    assert HasMessage(attrs, err) ==> missing[0] == KeyValue(EXCEPTION_MESSAGE, Str(err.value.message));
    assert HasType(attrs, err) ==> missing[|missing| - 1] == KeyValue(EXCEPTION_TYPE, Str(err.value.errType));
  }

  /** Looking up k in a list followed by others. */
  lemma LookupBehind(a: seq<KeyValue>, b: seq<KeyValue>, k: bytes)
    requires !Has(a, k)
    ensures Has(a + b, k) <==> Has(b, k)
    ensures Has(b, k) ==> (a + b)[Find(a + b, k)] == b[Find(b, k)]
  {
    FindAppend(a, b, k);
  }

  lemma NotGiven(l: Limits, attrs: seq<KeyValue>, k: bytes)
    requires !Has(attrs, k)
    ensures !Has(AddedEach(l, attrs).entries, k)
  {
    AddedEachShape(l, attrs);
  }

  /** The entry that has the key k, one of two that may stand behind others. */
  lemma LookupAmong(given: seq<KeyValue>, x: KeyValue, hasX: bool, y: KeyValue, hasY: bool, k: bytes)
    requires !Has(given, k) && x.key != y.key && (k == x.key || k == y.key)
    ensures var all := given + (if hasX then [x] else []) + if hasY then [y] else [];
      && (Has(all, k) <==> if k == x.key then hasX else hasY)
      && (Has(all, k) ==> all[Find(all, k)] == if k == x.key then x else y)
  {
    var first, second := if hasX then [x] else [], if hasY then [y] else [];
    LookupOne(x, k);
    LookupOne(y, k);
    Rebracket(given, first, second);
    LookupBehind(given, first + second, k);
    FindAppend(first, second, k);
  }

  /** A list of one entry, and the empty one. */
  lemma LookupOne(kv: KeyValue, k: bytes)
    ensures Has([kv], k) <==> kv.key == k
    ensures kv.key == k ==> Find([kv], k) == 0
    ensures !Has([], k)
  {}

  /**
    A message that the caller did not give is in the record exactly when there is an error with a message and
    the caller's attributes leave room for it, and then the record reads that message, normalised.
   */
  lemma MessageIff(l: Limits, attrs: seq<KeyValue>, err: Option<ErrorInfo>)
    requires !Has(attrs, EXCEPTION_MESSAGE)
    ensures var all := RecordEntries(l, attrs, err);
      && (Has(all, EXCEPTION_MESSAGE) <==>
          err.Some? && err.value.message != [] && RoomFor(l, |AddedEach(l, attrs).entries|))
      && (Has(all, EXCEPTION_MESSAGE) ==>
          all[Find(all, EXCEPTION_MESSAGE)] == Normal(l.value, KeyValue(EXCEPTION_MESSAGE, Str(err.value.message))))
  {
    DerivedLookup(l, attrs, err, EXCEPTION_MESSAGE);
  }

  /** The same for the type, which comes second. */
  lemma TypeIff(l: Limits, attrs: seq<KeyValue>, err: Option<ErrorInfo>)
    requires !Has(attrs, EXCEPTION_TYPE)
    ensures var (all, n) := (RecordEntries(l, attrs, err), |AddedEach(l, attrs).entries|);
      var message := HasMessage(attrs, err) && RoomFor(l, n);
      && (Has(all, EXCEPTION_TYPE) <==>
          err.Some? && err.value.errType != [] && RoomFor(l, if message then n + 1 else n))
      && (Has(all, EXCEPTION_TYPE) ==>
          all[Find(all, EXCEPTION_TYPE)] == Normal(l.value, KeyValue(EXCEPTION_TYPE, Str(err.value.errType))))
  {
    DerivedLookup(l, attrs, err, EXCEPTION_TYPE);
  }

  /** A key that the caller did not give is looked up among the derived attributes. */
  lemma DerivedLookup(l: Limits, attrs: seq<KeyValue>, err: Option<ErrorInfo>, k: bytes)
    requires !Has(attrs, k) && (k == EXCEPTION_MESSAGE || k == EXCEPTION_TYPE)
    ensures var (all, n) := (RecordEntries(l, attrs, err), |AddedEach(l, attrs).entries|);
      var message := HasMessage(attrs, err) && RoomFor(l, n);
      var errType := HasType(attrs, err) && RoomFor(l, if message then n + 1 else n);
      var value :=
        if err.None? then [] else if k == EXCEPTION_MESSAGE then err.value.message else err.value.errType;
      && (Has(all, k) <==> if k == EXCEPTION_MESSAGE then message else errType)
      && (Has(all, k) ==> all[Find(all, k)] == Normal(l.value, KeyValue(k, Str(value))))
  {
    assert |EXCEPTION_MESSAGE| != |EXCEPTION_TYPE|;
    DerivedAre(l, attrs, err);
    NotGiven(l, attrs, k);
    var given := AddedEach(l, attrs).entries;
    var message := HasMessage(attrs, err) && RoomFor(l, |given|);
    var errType := HasType(attrs, err) && RoomFor(l, if message then |given| + 1 else |given|);
    var e := if err.Some? then err.value else ErrorInfo([], []);
    var first := Normal(l.value, KeyValue(EXCEPTION_MESSAGE, Str(e.message)));
    var second := Normal(l.value, KeyValue(EXCEPTION_TYPE, Str(e.errType)));
    assert (message || errType) ==> err.Some?;
    hide AddedEach, RecordEntries, HasMessage, HasType, RoomFor, Has, Find, EXCEPTION_MESSAGE, EXCEPTION_TYPE;
    LookupAmong(given, first, message, second, errType, k);
  }

  // ---------------------------------------------------------------- what the record reads

  /** The key k is given at least twice. */
  predicate Repeated(kvs: seq<KeyValue>, k: bytes)
  {
    exists i, j :: 0 <= i < j < |kvs| && kvs[i].key == k && kvs[j].key == k
  }

  lemma RepeatedNext(kvs: seq<KeyValue>, k: bytes)
    requires |kvs| > 0
    ensures var (init, last) := (kvs[..|kvs| - 1], kvs[|kvs| - 1]);
      Repeated(kvs, k) <==> Repeated(init, k) || (Has(init, k) && last.key == k)
  {
    var init, n := kvs[..|kvs| - 1], |kvs| - 1;
    if Has(init, k) && kvs[n].key == k { assert kvs[Find(init, k)].key == k; }
    if Repeated(init, k) {
      var i, j :| 0 <= i < j < n && init[i].key == k && init[j].key == k;
      assert kvs[i].key == k && kvs[j].key == k;
    }
    if Repeated(kvs, k) {
      var i, j :| 0 <= i < j < |kvs| && kvs[i].key == k && kvs[j].key == k;
      assert init[i].key == k;
      if j < n { assert init[j].key == k; }
    }
  }

  /** What the record holds for an attribute of the caller's ordered map: as passed if its key was repeated. */
  function Stored(l: Limits, attrs: seq<KeyValue>, kv: KeyValue): KeyValue
  {
    if Repeated(attrs, kv.key) then kv else Normal(l.value, kv)
  }

  ghost predicate Reads(l: Limits, attrs: seq<KeyValue>, given: seq<KeyValue>)
  {
    var d := Distinct(attrs);
    && |given| == (if l.count < 0 then |d| else Min(l.count, |d|))
    && forall i :: 0 <= i < |given| ==> given[i] == Stored(l, attrs, d[i])
  }

  lemma StoredNext(l: Limits, attrs: seq<KeyValue>, kv: KeyValue)
    requires |attrs| > 0 && attrs[|attrs| - 1].key != kv.key
    ensures Stored(l, attrs, kv) == Stored(l, attrs[..|attrs| - 1], kv)
  {
    RepeatedNext(attrs, kv.key);
  }

  /**
    Of the caller's distinct keys the record holds the first ones, as many as the limit allows, each with
    the last value given for it, normalised if the key was given once and as it was passed if not.
   */
  lemma {:induction false} GivenReads(l: Limits, attrs: seq<KeyValue>)
    ensures Reads(l, attrs, AddedEach(l, attrs).entries)
  {
    if |attrs| == 0 {
    } else {
      var init, last := attrs[..|attrs| - 1], attrs[|attrs| - 1];
      GivenReads(l, init);
      AddedEachShape(l, init);
      AddedOne(l, AddedEach(l, init), last);
      PutAllUnique([], init);
      PutAllKeys([], init);
      ReadsNext(l, attrs, AddedEach(l, init).entries);
    }
  }

  /** One more attribute. */
  function AddOne(l: Limits, given: seq<KeyValue>, a: KeyValue): seq<KeyValue>
  {
    if Has(given, a.key) then given[Find(given, a.key) := a]
    else if l.count < 0 || |given| < l.count then given + [Normal(l.value, a)]
    else given
  }

  lemma AddedOne(l: Limits, m: Attrs, a: KeyValue)
    ensures Added(l, m, [a]).entries == AddOne(l, m.entries, a)
  {
    PutAllOne(m.entries, a);
  }

  lemma ReadsNext(l: Limits, attrs: seq<KeyValue>, given: seq<KeyValue>)
    requires |attrs| > 0 && Reads(l, attrs[..|attrs| - 1], given)
    requires var (init, k) := (attrs[..|attrs| - 1], attrs[|attrs| - 1].key);
      UniqueKeys(Distinct(init)) && (Has(Distinct(init), k) <==> Has(init, k))
    ensures Reads(l, attrs, AddOne(l, given, attrs[|attrs| - 1]))
  {
    var init, last := attrs[..|attrs| - 1], attrs[|attrs| - 1];
    var d, d', given' := Distinct(init), Distinct(attrs), AddOne(l, given, last);
    assert d' == Put(d, last);
    RepeatedNext(attrs, last.key);
    assert Repeated(attrs, last.key) <==> Repeated(init, last.key) || Has(d, last.key);
    RepeatedHas(init, last.key);
    FindCut(d, given, |given|, last.key);
    forall i | 0 <= i < |given'| ensures given'[i] == Stored(l, attrs, d'[i]) {
      if i < |d| && d[i].key != last.key { StoredNext(l, attrs, d[i]); }
    }
  }

  lemma RepeatedHas(kvs: seq<KeyValue>, k: bytes)
    ensures Repeated(kvs, k) ==> Has(kvs, k)
  {
    if Repeated(kvs, k) {
      var i :| 0 <= i < |kvs| && kvs[i].key == k;
      assert Find(kvs, k) <= i;
    }
  }

  /** The last value given for each key that is held and was repeated is normal as it was passed. */
  ghost predicate RepeatedNormal(l: Limits, attrs: seq<KeyValue>)
  {
    var d := Distinct(attrs);
    forall i :: 0 <= i < Retained(l.count, 0, d) && Repeated(attrs, d[i].key) ==> IsNormal(l.value, d[i])
  }

  lemma DistinctStorable(attrs: seq<KeyValue>)
    requires StorableAttrs(attrs)
    ensures StorableAttrs(Distinct(attrs))
  {
    PutAllStorable([], attrs);
  }

  lemma AllNormalMade(l: Limits, kvs: seq<KeyValue>)
    requires StorableAttrs(kvs)
    ensures AllNormal(l.value, NormalAll(l.value, kvs))
  {
    forall i | 0 <= i < |kvs| ensures IsNormal(l.value, Normal(l.value, kvs[i])) { NormalIdempotent(l.value, kvs[i]); }
  }

  /**
    The record is exported normalised, derived attributes included, exactly when every key that is held and
    was given more than once has a last value that is normal as it was passed.
   */
  lemma RecordNormalIff(l: Limits, attrs: seq<KeyValue>, err: Option<ErrorInfo>)
    requires StorableAttrs(attrs)
    ensures AllNormal(l.value, RecordEntries(l, attrs, err)) <==> RepeatedNormal(l, attrs)
  {
    var d, given := Distinct(attrs), AddedEach(l, attrs).entries;
    GivenReads(l, attrs);
    DistinctStorable(attrs);
    forall i | 0 <= i < |given|
      ensures IsNormal(l.value, given[i]) <==> (Repeated(attrs, d[i].key) ==> IsNormal(l.value, d[i]))
    {
      NormalIdempotent(l.value, d[i]);
    }
    var derived := Fitting(l.count, |given|, Missing(attrs, err));
    AllNormalMade(l, derived);
    hide AddedEach, Repeated, IsNormal, Missing;
    JoinNormal(l.value, given, NormalAll(l.value, derived));
  }

  lemma JoinNormal(valueLimit: int, a: seq<KeyValue>, b: seq<KeyValue>)
    requires AllNormal(valueLimit, b)
    ensures AllNormal(valueLimit, a + b) <==> AllNormal(valueLimit, a)
  {
    if AllNormal(valueLimit, a + b) {
      forall i | 0 <= i < |a| ensures IsNormal(valueLimit, a[i]) { assert (a + b)[i] == a[i]; }
    }
  }

  /** A caller that gives a key twice exports a string of two bytes under a value limit of 1. */
  lemma RepeatedIsNotCut(err: Option<ErrorInfo>)
    ensures var (k, l) := ([107], Limits(1, 1));
      var attrs := [KeyValue(k, Str([97])), KeyValue(k, Str([98, 98]))];
      RecordEntries(l, attrs, err) == [attrs[1]] && !AllNormal(1, [attrs[1]])
  {
    var l, a, b := Limits(1, 1), KeyValue([107], Str([97])), KeyValue([107], Str([98, 98]));
    OverwriteIsNotCut();
    GivenReads(l, [a, b]);
    LastOfTwo(a, b);
    assert [a, b][0].key == [a, b][1].key;
    assert Stored(l, [a, b], b) == b;
    hide AddedEach, RecordEntries, Normal, Added, AllNormal, Missing, Distinct, Repeated;
    FullRecord(l, [a, b], err);
  }

  lemma LastOfTwo(a: KeyValue, b: KeyValue)
    requires a.key == b.key
    ensures Distinct([a, b]) == [b]
  {
    PutAllAppend([], [a], [b]);
    PutAllOne([], a);
    PutAllOne([a], b);
    assert [a] + [b] == [a, b] && Find([a], a.key) == 0;
    hide PutAll;
  }

  /** A full record takes no derived attribute. */
  lemma FullRecord(l: Limits, attrs: seq<KeyValue>, err: Option<ErrorInfo>)
    requires |AddedEach(l, attrs).entries| == l.count
    ensures RecordEntries(l, attrs, err) == AddedEach(l, attrs).entries
  {
    hide AddedEach, Missing;
  }

  // ---------------------------------------------------------------- the dropped count

  /** The attributes given whose key the record does not hold. */
  function Refused(kept: seq<KeyValue>, attrs: seq<KeyValue>): nat
  {
    if |attrs| == 0 then 0 else
    Refused(kept, attrs[..|attrs| - 1]) + if Has(kept, attrs[|attrs| - 1].key) then 0 else 1
  }

  lemma {:induction false} RefusedSame(a: seq<KeyValue>, b: seq<KeyValue>, attrs: seq<KeyValue>)
    requires forall i :: 0 <= i < |attrs| ==> (Has(a, attrs[i].key) <==> Has(b, attrs[i].key))
    ensures Refused(a, attrs) == Refused(b, attrs)
  {
    if |attrs| == 0 {
    } else {
      RefusedSame(a, b, attrs[..|attrs| - 1]);
    }
  }

  /** Each attribute whose key found no place is counted, as often as it is given. */
  lemma {:induction false} GivenDropped(l: Limits, attrs: seq<KeyValue>)
    ensures AddedEach(l, attrs).dropped == Refused(AddedEach(l, attrs).entries, attrs)
  {
    if |attrs| == 0 {
    } else {
      var init, last := attrs[..|attrs| - 1], attrs[|attrs| - 1];
      var m, m' := AddedEach(l, init), AddedEach(l, attrs);
      GivenDropped(l, init);
      AddedEachShape(l, init);
      AddedOne(l, m, last);
      OneDropped(l, m, last);
      forall i | 0 <= i < |init| ensures Has(m.entries, init[i].key) <==> Has(m'.entries, init[i].key) {
        AddedOneHas(l, m.entries, last, init[i].key);
        if init[i].key == last.key && !Has(m.entries, last.key) { RepeatKeepsOut(l, init, i); }
      }
      RefusedSame(m.entries, m'.entries, init);
      AddedOneHas(l, m.entries, last, last.key);
    }
  }

  lemma AddedOneHas(l: Limits, given: seq<KeyValue>, a: KeyValue, k: bytes)
    ensures Has(AddOne(l, given, a), k) <==>
      Has(given, k) || (k == a.key && (l.count < 0 || |given| < l.count))
  {
    var r := AddOne(l, given, a);
    if Has(given, a.key) {
      HasPut(given, a, k);
    } else {
      HasAppend(given, Normal(l.value, a), k);
    }
  }

  lemma OneDropped(l: Limits, m: Attrs, a: KeyValue)
    ensures Added(l, m, [a]).dropped == m.dropped + if Has(AddOne(l, m.entries, a), a.key) then 0 else 1
  {
    PutAllOne(m.entries, a);
    AddedOneHas(l, m.entries, a, a.key);
    hide PutAll, AddOne;
  }

  /** A key that was given and is not held was refused, so the record is full. */
  lemma RepeatKeepsOut(l: Limits, attrs: seq<KeyValue>, i: nat)
    requires i < |attrs| && !Has(AddedEach(l, attrs).entries, attrs[i].key)
    ensures 0 <= l.count <= |AddedEach(l, attrs).entries|
  {
    GivenReads(l, attrs);
    var d, given := Distinct(attrs), AddedEach(l, attrs).entries;
    PutAllKeys([], attrs);
    assert Has(attrs, attrs[i].key) by { assert Find(attrs, attrs[i].key) <= i; }
    FindCut(d, given, |given|, attrs[i].key);
    hide AddedEach, PutAll;
  }
}
