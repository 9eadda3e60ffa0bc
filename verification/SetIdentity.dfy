/**
  When two attribute sets are equal: the hash of their contents, which is also what export batches are
  grouped by, and Go's comparison of the values as they are stored.
 */
module SetIdentity {
  import opened Prelude
  import opened AttrValue
  import opened AttrSet

  // ---------------------------------------------------------------- Go's comparison

  const FRACTION := 0x10_0000_0000_0000
  const SIGN := 0x8000_0000_0000_0000

  predicate IsNaN(bits: nat) { bits / FRACTION % 2048 == 2047 && bits % FRACTION != 0 }

  predicate IsZero(bits: nat) { bits == 0 || bits == SIGN }

  /** `==` on two numbers of type float64. */
  predicate SameFloat(x: nat, y: nat)
  {
    !IsNaN(x) && !IsNaN(y) && (x == y || (IsZero(x) && IsZero(y)))
  }

  /** `==` on two stored values: the elements of a float slice are compared as floats, a float alone as bits. */
  predicate Same(v: Value, w: Value)
    decreases v
  {
    match v
    case Float64Slice(xs) => w.Float64Slice? && |xs| == |w.floats| && SameFloats(xs, w.floats)
    case Slice(vs) =>
      w.Slice? && |vs| == |w.elems| && forall i :: 0 <= i < |vs| ==> Same(vs[i], w.elems[i])
    case Map(kvs) => w.Map? && SameAttrs(kvs, w.entries)
    case _ => v == w
  }

  predicate SameFloats(xs: seq<nat>, ys: seq<nat>)
    requires |xs| == |ys|
  {
    forall i :: 0 <= i < |xs| ==> SameFloat(xs[i], ys[i])
  }

  predicate SameAttrs(a: seq<KeyValue>, b: seq<KeyValue>)
    decreases a
  {
    |a| == |b| && forall i :: 0 <= i < |a| ==> a[i].key == b[i].key && Same(a[i].value, b[i].value)
  }

  /** No float slice inside v holds a NaN. */
  predicate NoNaN(v: Value)
  {
    match v
    case Float64Slice(xs) => forall i :: 0 <= i < |xs| ==> !IsNaN(xs[i])
    case Slice(vs) => forall i :: 0 <= i < |vs| ==> NoNaN(vs[i])
    case Map(kvs) => forall i :: 0 <= i < |kvs| ==> NoNaN(kvs[i].value)
    case _ => true
  }

  /** A value is the same as itself exactly when it holds no such NaN. */
  lemma {:induction false} SameAsItself(v: Value)
    ensures Same(v, v) <==> NoNaN(v)
    decreases v
  {
    match v
    case Slice(vs) => forall i | 0 <= i < |vs| ensures Same(vs[i], vs[i]) <==> NoNaN(vs[i]) { SameAsItself(vs[i]); }
    case Map(kvs) =>
      forall i | 0 <= i < |kvs| ensures Same(kvs[i].value, kvs[i].value) <==> NoNaN(kvs[i].value) {
        SameAsItself(kvs[i].value);
      }
    case _ =>
  }

  // ---------------------------------------------------------------- the bytes that are hashed

  /** A 64-bit word, least significant byte first; a negative number in two's complement. */
  function Word(n: int): (r: bytes)
    ensures |r| == 8
  {
    [n % 256, n / 0x100 % 256, n / 0x1_0000 % 256, n / 0x100_0000 % 256, n / 0x1_0000_0000 % 256,
     n / 0x100_0000_0000 % 256, n / 0x1_0000_0000_0000 % 256, n / 0x100_0000_0000_0000 % 256]
  }

  function Words(ns: seq<int>): (r: bytes)
    ensures |r| == 8 * |ns|
  {
    if |ns| == 0 then [] else Word(ns[0]) + Words(ns[1..])
  }

  function Truth(b: bool): int { if b then 1 else 0 }

  function Strings(ss: seq<bytes>): bytes
  {
    if |ss| == 0 then [] else ss[0] + Strings(ss[1..])
  }

  const BOOL_ID := 7953749933313450591
  const INT64_ID := 7592915492740740150
  const FLOAT64_ID := 7376742710626956342
  const STRING_ID := 6874584755375207263
  const BOOL_SLICE_ID := 6875993255270243167
  const INT64_SLICE_ID := 3762322556277578591
  const FLOAT64_SLICE_ID := 7308324551835016539
  const STRING_SLICE_ID := 7453010373645655387
  const BYTE_SLICE_ID := 6874028470941080415
  const SLICE_ID := 7883494272577650031
  const MAP_ID := 6872316492666199903
  const EMPTY_ID := 7305809155345288421

  /** The identifier of strings spells what is documented. */
  lemma StringIdentifier()
    ensures Word(STRING_ID) == Ascii("_string_")
  {
    StringWord();
    hide Word;
    assert forall i :: 0 <= i < 8 ==> Word(STRING_ID)[i] == Ascii("_string_")[i];
  }

  lemma StringWord()
    ensures Word(STRING_ID) == [0x5F, 0x73, 0x74, 0x72, 0x69, 0x6E, 0x67, 0x5F]
  {}

  /** Those of slices and of the empty value do not. */
  lemma OtherIdentifiers()
    ensures Word(SLICE_ID) != Ascii("__slice_") && Word(EMPTY_ID) != Ascii("__empty_")
  {
    assert Word(SLICE_ID)[0] == 0x6F && Word(EMPTY_ID)[0] == 0xE5;
    hide Word;
    assert Ascii("__slice_")[0] == 0x5F && Ascii("__empty_")[0] == 0x5F;
  }

  /** The number of the type identifier. */
  function TypeNumber(v: Value): int
  {
    match v
    case Empty => EMPTY_ID
    case Bool(_) => BOOL_ID
    case Int64(_) => INT64_ID
    case Float64(_) => FLOAT64_ID
    case BoolSlice(_) => BOOL_SLICE_ID
    case Int64Slice(_) => INT64_SLICE_ID
    case Float64Slice(_) => FLOAT64_SLICE_ID
    case Str(_) => STRING_ID
    case StrSlice(_) => STRING_SLICE_ID
    case ByteSlice(_) => BYTE_SLICE_ID
    case Slice(_) => SLICE_ID
    case Map(_) => MAP_ID
  }

  function Truths(bs: seq<bool>): (r: seq<int>)
    ensures |r| == |bs|
  {
    seq(|bs|, i requires 0 <= i < |bs| => Truth(bs[i]))
  }

  /** The value itself, without its length. */
  function Body(v: Value): bytes
    decreases v, 0
  {
    match v
    case Empty => []
    case Bool(b) => Word(Truth(b))
    case Int64(i) => Word(i)
    case Float64(bits) => Word(bits)
    case BoolSlice(bs) => Words(Truths(bs))
    case Int64Slice(ints) => Words(ints)
    case Float64Slice(floats) => Words(floats)
    case Str(s) => s
    case StrSlice(ss) => Strings(ss)
    case ByteSlice(raw) => raw
    case Slice(elems) => StreamValues(elems)
    case Map(entries) => StreamAttrs(entries)
  }

  /** `hashValue`: an identifier of the type, then the value. */
  function Stream(v: Value): (r: bytes)
    ensures |r| == 8 + |Body(v)|
    decreases v, 1
  {
    Word(TypeNumber(v)) + Body(v)
  }

  function StreamValues(vs: seq<Value>): bytes
    decreases vs
  {
    if |vs| == 0 then [] else Stream(vs[0]) + StreamValues(vs[1..])
  }

  /** `hashKVs` without the hash. */
  function StreamAttrs(kvs: seq<KeyValue>): bytes
    decreases kvs
  {
    if |kvs| == 0 then [] else kvs[0].key + Stream(kvs[0].value) + StreamAttrs(kvs[1..])
  }

  lemma SplitSame<T>(a: seq<T>, b: seq<T>, c: seq<T>, d: seq<T>)
    requires |a| == |c|
    ensures a + b == c + d <==> a == c && b == d
  {
    if a + b == c + d {
      assert a == (a + b)[..|a|] == (c + d)[..|a|] == c;
      assert b == (a + b)[|a|..] == (c + d)[|a|..] == d;
    }
  }

  /** The two zeros are the same number and different words. */
  lemma SameFloatWord(x: nat, y: nat)
    requires SameFloat(x, y) && Word(x) == Word(y)
    ensures x == y
  {
    assert Word(0)[7] == 0 && Word(SIGN)[7] == 128;
  }

  lemma {:induction false} SameFloatWords(xs: seq<nat>, ys: seq<nat>)
    requires |xs| == |ys| && SameFloats(xs, ys) && Words(xs) == Words(ys)
    ensures xs == ys
  {
    if |xs| == 0 {
    } else {
      SplitSame(Word(xs[0]), Words(xs[1..]), Word(ys[0]), Words(ys[1..]));
      assert SameFloat(xs[0], ys[0]);
      SameFloatWord(xs[0], ys[0]);
      SameFloatWords(xs[1..], ys[1..]);
      assert xs == [xs[0]] + xs[1..] && ys == [ys[0]] + ys[1..];
    }
  }

  /** Values that are the same write as many bytes, and the same bytes only if they are equal. */
  lemma {:induction false} SameStream(v: Value, w: Value)
    requires Same(v, w)
    ensures |Stream(v)| == |Stream(w)| && (Stream(v) == Stream(w) ==> v == w)
    decreases v
  {
    SplitSame(Word(TypeNumber(v)), Body(v), Word(TypeNumber(w)), Body(w));
    hide StreamValues, StreamAttrs, Word, Words;
    match v
    case Float64Slice(xs) => if Words(xs) == Words(w.floats) { SameFloatWords(xs, w.floats); }
    case Slice(vs) => SameStreams(vs, w.elems);
    case Map(kvs) => SameAttrStreams(kvs, w.entries);
    case _ =>
  }

  lemma {:induction false} SameStreams(vs: seq<Value>, ws: seq<Value>)
    requires |vs| == |ws| && forall i :: 0 <= i < |vs| ==> Same(vs[i], ws[i])
    ensures |StreamValues(vs)| == |StreamValues(ws)| && (StreamValues(vs) == StreamValues(ws) ==> vs == ws)
    decreases vs
  {
    if |vs| == 0 {
    } else {
      SameStream(vs[0], ws[0]);
      SameStreams(vs[1..], ws[1..]);
      hide Same, Stream;
      SplitSame(Stream(vs[0]), StreamValues(vs[1..]), Stream(ws[0]), StreamValues(ws[1..]));
      assert vs == [vs[0]] + vs[1..] && ws == [ws[0]] + ws[1..];
    }
  }

  lemma {:induction false} SameAttrStreams(a: seq<KeyValue>, b: seq<KeyValue>)
    requires SameAttrs(a, b)
    ensures |StreamAttrs(a)| == |StreamAttrs(b)| && (StreamAttrs(a) == StreamAttrs(b) ==> a == b)
    decreases a
  {
    if |a| == 0 {
    } else {
      SameStream(a[0].value, b[0].value);
      SameAttrStreams(a[1..], b[1..]);
      hide Same, Stream;
      SplitSame(a[0].key, Stream(a[0].value), b[0].key, Stream(b[0].value));
      SplitSame(a[0].key + Stream(a[0].value), StreamAttrs(a[1..]), b[0].key + Stream(b[0].value), StreamAttrs(b[1..]));
      assert a == [a[0]] + a[1..] && b == [b[0]] + b[1..];
    }
  }

  // ---------------------------------------------------------------- the code

  /** xxhash with the zero sum mapped to one, as any function of the bytes. */
  type Hash = bytes -> int

  /** What stands for a set when it is used as a key. */
  datatype Distinct = Distinct(hash: int)

  /** `Equivalent` */
  function Equivalent(h: Hash, s: seq<KeyValue>): Distinct { Distinct(h(StreamAttrs(s))) }

  /** `Equals`, with the empty set for a nil or zero one. */
  predicate Equals(h: Hash, a: seq<KeyValue>, b: seq<KeyValue>)
  {
    Equivalent(h, a) == Equivalent(h, b) && SameAttrs(a, b)
  }

  /** Sets that differ, though only in the signs of zeros in float slices, and have one hash. */
  predicate Collide(h: Hash, a: seq<KeyValue>, b: seq<KeyValue>)
  {
    a != b && SameAttrs(a, b) && Equivalent(h, a) == Equivalent(h, b)
  }

  /** That takes two byte streams with one hash. */
  lemma CollisionOfHash(h: Hash, a: seq<KeyValue>, b: seq<KeyValue>)
    requires Collide(h, a, b)
    ensures StreamAttrs(a) != StreamAttrs(b) && h(StreamAttrs(a)) == h(StreamAttrs(b))
  {
    SameAttrStreams(a, b);
  }

  predicate NoNaNIn(m: Dict) { forall k :: k in m ==> NoNaN(m[k]) }

  lemma SameSetIff(s: seq<KeyValue>)
    requires Ascending(s)
    ensures SameAttrs(s, s) <==> NoNaNIn(ToMap(s))
  {
    AscendingIsSorted(s);
    forall i | 0 <= i < |s|
      ensures s[i].key in ToMap(s) && ToMap(s)[s[i].key] == s[i].value
      ensures Same(s[i].value, s[i].value) <==> NoNaN(s[i].value)
    {
      ToMapIsLast(s, i);
      SameAsItself(s[i].value);
    }
    forall k | k in ToMap(s) ensures exists i :: 0 <= i < |s| && s[i].key == k { ToMapKeys(s, k); }
    hide Same, NoNaN, ToMap;
  }

  /**
    Two inputs give equal sets exactly when they have the same last-wins map and no value of it holds a
    NaN in a float slice, collisions of the hash apart.
   */
  lemma EqualsIff(h: Hash, a: seq<KeyValue>, b: seq<KeyValue>)
    ensures Equals(h, Canonical(a), Canonical(b)) <==>
      (ToMap(a) == ToMap(b) && NoNaNIn(ToMap(a))) || Collide(h, Canonical(a), Canonical(b))
  {
    SameContentsIff(a, b);
    CanonicalForm(a);
    SameSetIff(Canonical(a));
  }

  /** A set with a NaN in a float slice is not equal to itself; with the NaN alone it is. */
  lemma NaNIsNotItself(h: Hash, k: bytes)
    ensures var nan := 0x7FF8_0000_0000_0000;
      && !Equals(h, [KeyValue(k, Float64Slice([nan]))], [KeyValue(k, Float64Slice([nan]))])
      && Equals(h, [KeyValue(k, Float64(nan))], [KeyValue(k, Float64(nan))])
  {
    var nan := 0x7FF8_0000_0000_0000;
    assert IsNaN(nan);
    assert !SameFloat([nan][0], [nan][0]);
    assert !Same([KeyValue(k, Float64Slice([nan]))][0].value, Float64Slice([nan]));
  }

  /**
    The stream does not say where a string ends: an attribute whose value runs on into the next key and the
    identifier of strings has the Distinct of two attributes, whatever the hash, and yet the sets are not equal.
   */
  lemma StreamsRunTogether(h: Hash, k: bytes, v: bytes, z: bytes, w: bytes)
    ensures var (one, two) :=
        ([KeyValue(k, Str(v + z + Word(STRING_ID) + w))], [KeyValue(k, Str(v)), KeyValue(z, Str(w))]);
      Equivalent(h, one) == Equivalent(h, two) && !Equals(h, one, two)
  {
    var long := v + z + Word(STRING_ID) + w;
    StreamOfOne(k, long);
    StreamOfTwo(k, v, z, w);
    Regrouped(k, Word(STRING_ID), v, z, Word(STRING_ID), w);
    hide StreamAttrs, Word, Same;
  }

  lemma StreamOfOne(k: bytes, v: bytes)
    ensures StreamAttrs([KeyValue(k, Str(v))]) == k + (Word(STRING_ID) + v)
  {
    hide Word;
    assert [KeyValue(k, Str(v))][1..] == [] && k + (Word(STRING_ID) + v) + [] == k + (Word(STRING_ID) + v);
  }

  lemma StreamOfTwo(k: bytes, v: bytes, z: bytes, w: bytes)
    ensures StreamAttrs([KeyValue(k, Str(v)), KeyValue(z, Str(w))]) ==
      k + (Word(STRING_ID) + v) + (z + (Word(STRING_ID) + w))
  {
    hide Word;
    StreamOfOne(z, w);
    assert [KeyValue(k, Str(v)), KeyValue(z, Str(w))][1..] == [KeyValue(z, Str(w))];
  }

  lemma Regrouped<T>(k: seq<T>, i: seq<T>, v: seq<T>, z: seq<T>, j: seq<T>, w: seq<T>)
    ensures k + (i + v) + (z + (j + w)) == k + (i + (v + z + j + w))
  {}

  // ---------------------------------------------------------------- what the stream tells apart

  const TWO64 := 0x1_0000_0000_0000_0000

  lemma TwoBytes(n: int)
    ensures n == n % 0x100 + 0x100 * (n / 0x100 % 0x100) + 0x1_0000 * (n / 0x1_0000)
  {}

  lemma DivTwice(n: int)
    ensures n / 0x1_0000 / 0x100 == n / 0x100_0000 && n / 0x1_0000 / 0x1_0000 == n / 0x1_0000_0000
  {}

  lemma DivTwiceHigh(n: int)
    ensures n / 0x1_0000_0000 / 0x100 == n / 0x100_0000_0000
    ensures n / 0x1_0000_0000 / 0x1_0000 == n / 0x1_0000_0000_0000
    ensures n / 0x1_0000_0000_0000 / 0x100 == n / 0x100_0000_0000_0000
    ensures n / 0x1_0000_0000_0000 / 0x1_0000 == n / TWO64
  {}

  /** The bytes of a word make up the number, but for multiples of 2^64. */
  lemma WordValue(n: int)
    ensures var w := Word(n);
      n == w[0] + 0x100 * w[1] + 0x1_0000 * w[2] + 0x100_0000 * w[3] + 0x1_0000_0000 * w[4]
        + 0x100_0000_0000 * w[5] + 0x1_0000_0000_0000 * w[6] + 0x100_0000_0000_0000 * w[7] + TWO64 * (n / TWO64)
  {
    DivTwice(n);
    DivTwiceHigh(n);
    TwoBytes(n);
    TwoBytes(n / 0x1_0000);
    TwoBytes(n / 0x1_0000_0000);
    TwoBytes(n / 0x1_0000_0000_0000);
  }

  /** Two numbers less than 2^64 apart have different words. */
  lemma WordsDiffer(m: int, n: int)
    requires -TWO64 < m - n < TWO64
    ensures Word(m) == Word(n) <==> m == n
  {
    WordValue(m);
    WordValue(n);
    hide Word;
  }

  /** Values of different types have different streams, whatever they are. */
  lemma TypesDiffer(v: Value, w: Value)
    requires Stream(v) == Stream(w)
    ensures TypeNumber(v) == TypeNumber(w)
  {
    SplitSame(Word(TypeNumber(v)), Body(v), Word(TypeNumber(w)), Body(w));
    hide Word, Body;
    WordsDiffer(TypeNumber(v), TypeNumber(w));
  }

  predicate IsInt64(i: int) { -0x8000_0000_0000_0000 <= i < 0x8000_0000_0000_0000 }

  /** A number of 64 bits, a truth value, a string, or a list of numbers or truth values. */
  predicate Flat(v: Value)
  {
    match v
    case Empty => true
    case Bool(_) => true
    case Int64(i) => IsInt64(i)
    case Float64(bits) => bits < TWO64
    case BoolSlice(_) => true
    case Int64Slice(ints) => forall i :: 0 <= i < |ints| ==> IsInt64(ints[i])
    case Float64Slice(floats) => forall i :: 0 <= i < |floats| ==> floats[i] < TWO64
    case Str(_) => true
    case ByteSlice(_) => true
    case _ => false
  }

  /** No two of these numbers are 2^64 apart or more. */
  predicate Near(ms: seq<int>, ns: seq<int>)
  {
    forall i, j :: 0 <= i < |ms| && 0 <= j < |ns| ==> -TWO64 < ms[i] - ns[j] < TWO64
  }

  lemma {:induction false} WordListsDiffer(ms: seq<int>, ns: seq<int>)
    requires Near(ms, ns)
    ensures Words(ms) == Words(ns) <==> ms == ns
  {
    if |ms| != |ns| {
      assert |Words(ms)| != |Words(ns)|;
    } else if |ms| == 0 {
    } else {
      SplitSame(Word(ms[0]), Words(ms[1..]), Word(ns[0]), Words(ns[1..]));
      WordsDiffer(ms[0], ns[0]);
      WordListsDiffer(ms[1..], ns[1..]);
      hide Word;
      assert ms == [ms[0]] + ms[1..] && ns == [ns[0]] + ns[1..];
    }
  }

  lemma TruthsDiffer(a: seq<bool>, b: seq<bool>)
    ensures Truths(a) == Truths(b) <==> a == b
  {
    if Truths(a) == Truths(b) {
      forall i | 0 <= i < |a| ensures a[i] == b[i] { assert Truths(a)[i] == Truths(b)[i]; }
    }
  }

  /** Two flat values write the same bytes exactly when they are equal. */
  lemma FlatStreamsIff(v: Value, w: Value)
    requires Flat(v) && Flat(w)
    ensures Stream(v) == Stream(w) <==> v == w
  {
    SplitSame(Word(TypeNumber(v)), Body(v), Word(TypeNumber(w)), Body(w));
    if Stream(v) == Stream(w) { TypesDiffer(v, w); }
    if TypeNumber(v) == TypeNumber(w) {
      hide Stream, Word, Words, Truths;
      FlatBodiesIff(v, w);
    }
  }

  lemma FlatBodiesIff(v: Value, w: Value)
    requires Flat(v) && Flat(w) && TypeNumber(v) == TypeNumber(w)
    ensures Body(v) == Body(w) <==> v == w
  {
    hide Word, Words, Truths;
    match v
    case Bool(b) => WordsDiffer(Truth(b), Truth(w.b));
    case Int64(i) => WordsDiffer(i, w.i);
    case Float64(bits) => WordsDiffer(bits, w.bits);
    case BoolSlice(bs) =>
      TruthsDiffer(bs, w.bs);
      TruthsNear(bs, w.bs);
      WordListsDiffer(Truths(bs), Truths(w.bs));
    case Int64Slice(ints) => WordListsDiffer(ints, w.ints);
    case Float64Slice(floats) => WordListsDiffer(floats, w.floats);
    case _ =>
  }

  lemma TruthsNear(a: seq<bool>, b: seq<bool>)
    ensures Near(Truths(a), Truths(b))
  {}

  /** The two lists differ in nothing but the element at place i. */
  predicate DifferOnlyAt<T(==)>(a: seq<T>, b: seq<T>, i: nat)
  {
    i < |a| == |b| && a[..i] == b[..i] && a[i + 1..] == b[i + 1..]
  }

  /** Flat values that differ, values of different types, or lists that differ in one such element, at any depth. */
  ghost predicate Differ(v: Value, w: Value)
    decreases v
  {
    || TypeNumber(v) != TypeNumber(w) || (Flat(v) && Flat(w) && v != w)
    || (v.StrSlice? && w.StrSlice? && exists i: nat :: DifferOnlyAt(v.ss, w.ss, i) && v.ss[i] != w.ss[i])
    || (v.Slice? && w.Slice? && exists i: nat :: DifferOnlyAt(v.elems, w.elems, i) && Differ(v.elems[i], w.elems[i]))
    || (v.Map? && w.Map? && exists i: nat :: DifferAt(v.entries, w.entries, i))
  }

  /** The two lists differ in nothing but the value at place i, and these values differ so. */
  ghost predicate DifferAt(a: seq<KeyValue>, b: seq<KeyValue>, i: nat)
    decreases a
  {
    DifferOnlyAt(a, b, i) && a[i].key == b[i].key && Differ(a[i].value, b[i].value)
  }

  lemma {:induction false} StringsOfParts(ss: seq<bytes>, i: nat)
    requires i < |ss|
    ensures Strings(ss) == Strings(ss[..i]) + (ss[i] + Strings(ss[i + 1..]))
  {
    var rest := ss[i] + Strings(ss[i + 1..]);
    if i == 0 {
      assert ss[..0] == [] && [] + rest == rest;
    } else {
      StringsOfParts(ss[1..], i - 1);
      assert ss[1..][..i - 1] == ss[..i][1..] && ss[1..][i..] == ss[i + 1..];
      Rebracket(ss[0], Strings(ss[..i][1..]), rest);
    }
  }

  lemma {:induction false} ValuesOfParts(vs: seq<Value>, i: nat)
    requires i < |vs|
    ensures StreamValues(vs) == StreamValues(vs[..i]) + (Stream(vs[i]) + StreamValues(vs[i + 1..]))
  {
    hide Stream;
    var rest := Stream(vs[i]) + StreamValues(vs[i + 1..]);
    if i == 0 {
      assert vs[..0] == [] && [] + rest == rest;
    } else {
      ValuesOfParts(vs[1..], i - 1);
      assert vs[1..][..i - 1] == vs[..i][1..] && vs[1..][i..] == vs[i + 1..];
      Rebracket(Stream(vs[0]), StreamValues(vs[..i][1..]), rest);
    }
  }

  /** One different part between the same ones. */
  lemma PartTellsApart<T>(pre: seq<T>, x: seq<T>, y: seq<T>, suf: seq<T>)
    ensures pre + (x + suf) == pre + (y + suf) <==> x == y
  {
    SplitSame(pre, x + suf, pre, y + suf);
    if x + suf == y + suf {
      assert |x| == |y|;
      SplitSame(x, suf, y, suf);
    }
  }

  lemma {:induction false} StreamOfParts(a: seq<KeyValue>, i: nat)
    requires i < |a|
    ensures StreamAttrs(a) == StreamAttrs(a[..i]) + (a[i].key + Stream(a[i].value) + StreamAttrs(a[i + 1..]))
  {
    hide Stream;
    var rest := a[i].key + Stream(a[i].value) + StreamAttrs(a[i + 1..]);
    if i == 0 {
      assert a[..0] == [] && [] + rest == rest;
    } else {
      StreamOfParts(a[1..], i - 1);
      assert a[1..][..i - 1] == a[..i][1..] && a[1..][i..] == a[i + 1..];
      Rebracket(a[0].key + Stream(a[0].value), StreamAttrs(a[..i][1..]), rest);
    }
  }

  /** Values that differ so have different streams. */
  lemma {:induction false} DifferentStreams(v: Value, w: Value)
    requires Differ(v, w)
    ensures Stream(v) != Stream(w)
    decreases v
  {
    if Stream(v) == Stream(w) { TypesDiffer(v, w); }
    if TypeNumber(v) == TypeNumber(w) {
      SplitSame(Word(TypeNumber(v)), Body(v), Word(TypeNumber(w)), Body(w));
      hide Word;
      if Flat(v) && Flat(w) && v != w {
        FlatStreamsIff(v, w);
      } else if v.StrSlice? {
        var i: nat :| DifferOnlyAt(v.ss, w.ss, i) && v.ss[i] != w.ss[i];
        StringsOfParts(v.ss, i);
        StringsOfParts(w.ss, i);
        PartTellsApart(Strings(v.ss[..i]), v.ss[i], w.ss[i], Strings(v.ss[i + 1..]));
      } else if v.Slice? {
        var i: nat :| DifferOnlyAt(v.elems, w.elems, i) && Differ(v.elems[i], w.elems[i]);
        DifferentStreams(v.elems[i], w.elems[i]);
        ValuesOfParts(v.elems, i);
        ValuesOfParts(w.elems, i);
        var (pre, suf) := (StreamValues(v.elems[..i]), StreamValues(v.elems[i + 1..]));
        PartTellsApart(pre, Stream(v.elems[i]), Stream(w.elems[i]), suf);
      } else {
        var i: nat :| DifferAt(v.entries, w.entries, i);
        OneValueTellsApart(v.entries, w.entries, i);
      }
    }
  }

  /** Two sets that differ in one such value have different streams. */
  lemma {:induction false} OneValueTellsApart(a: seq<KeyValue>, b: seq<KeyValue>, i: nat)
    requires DifferAt(a, b, i)
    ensures StreamAttrs(a) != StreamAttrs(b)
    decreases a
  {
    StreamOfParts(a, i);
    StreamOfParts(b, i);
    DifferentStreams(a[i].value, b[i].value);
    hide Stream, StreamAttrs, Differ;
    var key := a[i].key;
    SplitSame(key, Stream(a[i].value), key, Stream(b[i].value));
    PartTellsApart(StreamAttrs(a[..i]), key + Stream(a[i].value), key + Stream(b[i].value), StreamAttrs(a[i + 1..]));
  }

  /** So have two sets with the same keys whose flat values write equally many bytes, place by place. */
  lemma {:induction false} SameWidthsTellApart(a: seq<KeyValue>, b: seq<KeyValue>)
    requires |a| == |b| && a != b
    requires forall i :: 0 <= i < |a| ==>
      && a[i].key == b[i].key && Flat(a[i].value) && Flat(b[i].value)
      && |Stream(a[i].value)| == |Stream(b[i].value)|
    ensures StreamAttrs(a) != StreamAttrs(b)
    decreases |a|
  {
    hide Stream, Flat;
    var (x, y) := (a[0].key + Stream(a[0].value), b[0].key + Stream(b[0].value));
    SplitSame(x, StreamAttrs(a[1..]), y, StreamAttrs(b[1..]));
    SplitSame(a[0].key, Stream(a[0].value), b[0].key, Stream(b[0].value));
    FlatStreamsIff(a[0].value, b[0].value);
    assert a == [a[0]] + a[1..] && b == [b[0]] + b[1..];
    if a[0] == b[0] { SameWidthsTellApart(a[1..], b[1..]); }
  }
}
