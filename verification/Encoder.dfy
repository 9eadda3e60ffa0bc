/** The default encoding of attribute sets, and which sets share one. */
module Encoder {
  import opened Prelude
  import opened Utf8

  /** '=', ',' and '\\' */
  const EQUALS := 61
  const COMMA := 44
  const ESCAPE := 92

  /** A string, or a value of another type with the text `Emit` gives for it. */
  datatype Value = Str(s: bytes) | Other(text: bytes)

  datatype KeyValue = KeyValue(key: bytes, value: Value)

  /** The key and the text of an attribute. */
  datatype Attr = Attr(key: bytes, value: bytes)

  predicate Special(c: int) { c == EQUALS || c == COMMA || c == ESCAPE }

  /** Byte by byte: special characters are single bytes, and no other character contains one. */
  function Escaped(s: bytes): bytes
  {
    if |s| == 0 then []
    else (if Special(s[0]) then [ESCAPE, s[0]] else [s[0]]) + Escaped(s[1..])
  }

  /** Only strings are escaped. */
  function ValueText(v: Value): bytes
  {
    match v case Str(s) => Escaped(Sanitised(s)) case Other(text) => text
  }

  function Pair(a: KeyValue): bytes
  {
    Escaped(Sanitised(a.key)) + ([EQUALS] + ValueText(a.value))
  }

  function Encoded(attrs: seq<KeyValue>): bytes
  {
    if |attrs| == 0 then []
    else if |attrs| == 1 then Pair(attrs[0])
    else Pair(attrs[0]) + ([COMMA] + Encoded(attrs[1..]))
  }

  /** The text that stands for a value, before escaping. */
  function Shown(v: Value): bytes
  {
    match v case Str(s) => Sanitised(s) case Other(text) => text
  }

  /** The text of a value that is no string has nothing to escape: numbers and booleans, but not lists. */
  predicate Plain(v: Value)
  {
    v.Other? ==> forall i :: 0 <= i < |v.text| ==> !Special(v.text[i])
  }

  predicate AllPlain(attrs: seq<KeyValue>)
  {
    forall i :: 0 <= i < |attrs| ==> Plain(attrs[i].value)
  }

  lemma {:induction false} NothingEscaped(s: bytes)
    requires forall i :: 0 <= i < |s| ==> !Special(s[i])
    ensures Escaped(s) == s
  {
    if |s| == 0 {
    } else {
      NothingEscaped(s[1..]);
      hide Special;
      assert s == [s[0]] + s[1..];
    }
  }

  lemma PlainText(v: Value)
    requires Plain(v)
    ensures ValueText(v) == Escaped(Shown(v))
  {
    if v.Other? { NothingEscaped(v.text); }
  }

  // ---------------------------------------------------------------- a reader

  /** A byte that was escaped or needs no escape, and the two separators. */
  datatype Sym = Lit(b: byte) | Eq | Sep

  function Write(x: Sym): (r: bytes)
    ensures |r| >= 1
  {
    match x
    case Lit(b) => if Special(b) then [ESCAPE, b] else [b]
    case Eq => [EQUALS]
    case Sep => [COMMA]
  }

  function WriteAll(xs: seq<Sym>): bytes
  {
    if |xs| == 0 then [] else Write(xs[0]) + WriteAll(xs[1..])
  }

  function Read(t: bytes): seq<Sym>
    decreases |t|
  {
    if |t| == 0 then []
    else if t[0] == ESCAPE && |t| >= 2 then [Lit(t[1])] + Read(t[2..])
    else [if t[0] == EQUALS then Eq else if t[0] == COMMA then Sep else Lit(t[0])] + Read(t[1..])
  }

  lemma ReadNext(x: Sym, t: bytes)
    ensures Read(Write(x) + t) == [x] + Read(t)
  {
    assert (Write(x) + t)[|Write(x)|..] == t;
  }

  /** Reading undoes writing. */
  lemma {:induction false} ReadWritten(xs: seq<Sym>)
    ensures Read(WriteAll(xs)) == xs
  {
    if |xs| == 0 {
    } else {
      ReadWritten(xs[1..]);
      ReadNext(xs[0], WriteAll(xs[1..]));
      hide Read, Write;
      assert xs == [xs[0]] + xs[1..];
    }
  }

  lemma {:induction false} WriteJoined(xs: seq<Sym>, ys: seq<Sym>)
    ensures WriteAll(xs + ys) == WriteAll(xs) + WriteAll(ys)
  {
    if |xs| == 0 {
      assert xs + ys == ys;
    } else {
      WriteJoined(xs[1..], ys);
      assert (xs + ys)[1..] == xs[1..] + ys;
      hide Write;
      Rebracket(Write(xs[0]), WriteAll(xs[1..]), WriteAll(ys));
    }
  }

  lemma WriteOne(x: Sym)
    ensures WriteAll([x]) == Write(x)
  {
    assert [x][1..] == [];
  }

  function Lits(s: bytes): (r: seq<Sym>)
    ensures |r| == |s|
  {
    seq(|s|, i requires 0 <= i < |s| => Lit(s[i]))
  }

  /** A text that is written as it is. */
  function Raw(s: bytes): (r: seq<Sym>)
    ensures |r| == |s|
  {
    seq(|s|, i requires 0 <= i < |s| => if s[i] == EQUALS then Eq else if s[i] == COMMA then Sep else Lit(s[i]))
  }

  lemma {:induction false} WriteLits(s: bytes)
    ensures WriteAll(Lits(s)) == Escaped(s)
  {
    if |s| == 0 {
    } else {
      WriteLits(s[1..]);
      assert Lits(s)[1..] == Lits(s[1..]);
    }
  }

  lemma {:induction false} WriteRaw(s: bytes)
    requires ESCAPE !in s
    ensures WriteAll(Raw(s)) == s
  {
    if |s| == 0 {
    } else {
      WriteRaw(s[1..]);
      assert Raw(s)[1..] == Raw(s[1..]);
      assert s == [s[0]] + s[1..];
    }
  }

  // ---------------------------------------------------------------- what the encoding shows

  /** The text of a value that is no string holds no equals sign and no backslash; commas do no harm. */
  predicate Tame(v: Value) { v.Other? ==> EQUALS !in v.text && ESCAPE !in v.text }

  predicate AllTame(attrs: seq<KeyValue>) { forall i :: 0 <= i < |attrs| ==> Tame(attrs[i].value) }

  function ValueSyms(v: Value): seq<Sym>
  {
    match v case Str(s) => Lits(Sanitised(s)) case Other(text) => Raw(text)
  }

  function PairSyms(a: KeyValue): seq<Sym> { Lits(Sanitised(a.key)) + ([Eq] + ValueSyms(a.value)) }

  function Syms(attrs: seq<KeyValue>): seq<Sym>
    decreases |attrs|, 0
  {
    if |attrs| == 0 then [] else PairSyms(attrs[0]) + Tail(attrs[1..])
  }

  function Tail(attrs: seq<KeyValue>): seq<Sym>
    decreases |attrs|, 1
  {
    if |attrs| == 0 then [] else [Sep] + Syms(attrs)
  }

  lemma WritePair(a: KeyValue)
    requires Tame(a.value)
    ensures WriteAll(PairSyms(a)) == Pair(a)
  {
    var key, value := Lits(Sanitised(a.key)), ValueSyms(a.value);
    if a.value.Str? { WriteLits(Sanitised(a.value.s)); } else { WriteRaw(a.value.text); }
    assert WriteAll(value) == ValueText(a.value);
    hide Escaped, Sanitised, ValueSyms, ValueText, Lits;
    WriteLits(Sanitised(a.key));
    WriteOne(Eq);
    WriteJoined([Eq], value);
    WriteJoined(key, [Eq] + value);
  }

  lemma {:induction false} WriteSyms(attrs: seq<KeyValue>)
    requires AllTame(attrs)
    ensures WriteAll(Syms(attrs)) == Encoded(attrs)
  {
    if |attrs| == 0 {
    } else {
      WritePair(attrs[0]);
      WriteSyms(attrs[1..]);
      hide Pair, PairSyms, Tame;
      WriteOne(Sep);
      WriteJoined([Sep], Syms(attrs[1..]));
      WriteJoined(PairSyms(attrs[0]), Tail(attrs[1..]));
    }
  }

  /** What a reader of the encoding can see of an attribute. */
  datatype Seen = Seen(key: seq<Sym>, value: seq<Sym>)

  function AllSeen(attrs: seq<KeyValue>): (r: seq<Seen>)
    ensures |r| == |attrs|
  {
    seq(|attrs|, i requires 0 <= i < |attrs| => Seen(Lits(Sanitised(attrs[i].key)), ValueSyms(attrs[i].value)))
  }

  lemma FirstEq(a: seq<Sym>, b: seq<Sym>, c: seq<Sym>, d: seq<Sym>)
    requires Eq !in a && Eq !in c && a + ([Eq] + b) == c + ([Eq] + d)
    ensures a == c && b == d
  {
    var x, y := a + ([Eq] + b), c + ([Eq] + d);
    assert x[|a|] == Eq && y[|c|] == Eq;
    assert forall i :: 0 <= i < |a| ==> x[i] == a[i];
    assert forall i :: 0 <= i < |c| ==> y[i] == c[i];
    assert a == x[..|a|] && c == y[..|c|] && b == x[|a| + 1..] && d == y[|c| + 1..];
  }

  lemma LastSep(v: seq<Sym>, k: seq<Sym>, w: seq<Sym>, l: seq<Sym>)
    requires Sep !in k && Sep !in l && v + ([Sep] + k) == w + ([Sep] + l)
    ensures v == w && k == l
  {
    var x, y := v + ([Sep] + k), w + ([Sep] + l);
    assert x[|v|] == Sep && y[|w|] == Sep;
    assert forall i :: |v| < i < |x| ==> x[i] == k[i - |v| - 1];
    assert forall i :: |w| < i < |y| ==> y[i] == l[i - |w| - 1];
    assert v == x[..|v|] && w == y[..|w|] && k == x[|v| + 1..] && l == y[|w| + 1..];
  }

  lemma KeySyms(s: bytes)
    ensures Eq !in Lits(s) && Sep !in Lits(s)
  {}

  lemma TameSyms(v: Value)
    requires Tame(v)
    ensures Eq !in ValueSyms(v)
  {}

  /** The first pair: its key ends at the first equals sign. */
  lemma FirstPair(a: KeyValue, rest: seq<Sym>)
    ensures PairSyms(a) + rest == Lits(Sanitised(a.key)) + ([Eq] + (ValueSyms(a.value) + rest))
  {
    hide Sanitised, ValueSyms;
    Rebracket(Lits(Sanitised(a.key)), [Eq] + ValueSyms(a.value), rest);
    Rebracket([Eq], ValueSyms(a.value), rest);
  }

  /** A value ends where nothing follows, or at the last comma before the next equals sign. */
  lemma ValueEnds(v: seq<Sym>, rest: seq<KeyValue>, w: seq<Sym>, rest': seq<KeyValue>)
    requires Eq !in v && Eq !in w && v + Tail(rest) == w + Tail(rest')
    ensures v == w && Tail(rest) == Tail(rest')
  {
    if rest == [] || rest' == [] {
      assert rest == [] ==> v + Tail(rest) == v;
      assert rest' == [] ==> w + Tail(rest') == w;
      if rest != [] { EqFollows(v, rest); }
      if rest' != [] { EqFollows(w, rest'); }
    } else {
      var k, t := TailParts(v, rest);
      var l, u := TailParts(w, rest');
      FirstEq(v + ([Sep] + k), t, w + ([Sep] + l), u);
      LastSep(v, k, w, l);
    }
  }

  lemma TailParts(v: seq<Sym>, rest: seq<KeyValue>) returns (k: seq<Sym>, t: seq<Sym>)
    requires rest != []
    ensures Eq !in k && Sep !in k && Tail(rest) == [Sep] + (k + ([Eq] + t))
    ensures v + Tail(rest) == (v + ([Sep] + k)) + ([Eq] + t)
  {
    k, t := Lits(Sanitised(rest[0].key)), ValueSyms(rest[0].value) + Tail(rest[1..]);
    KeySyms(Sanitised(rest[0].key));
    FirstPair(rest[0], Tail(rest[1..]));
    assert Tail(rest) == [Sep] + (k + ([Eq] + t));
    hide Tail, Lits, Sanitised, ValueSyms;
    Rebracket([Sep], k, [Eq] + t);
    Rebracket(v, [Sep] + k, [Eq] + t);
  }

  lemma EqFollows(v: seq<Sym>, rest: seq<KeyValue>)
    requires rest != []
    ensures Eq in v + Tail(rest)
  {
    var k, t := TailParts(v, rest);
    assert ((v + ([Sep] + k)) + ([Eq] + t))[|v + ([Sep] + k)|] == Eq;
  }

  lemma AllSeenFirst(attrs: seq<KeyValue>)
    requires |attrs| > 0
    ensures AllSeen(attrs) ==
      [Seen(Lits(Sanitised(attrs[0].key)), ValueSyms(attrs[0].value))] + AllSeen(attrs[1..])
  {}

  lemma SymsEmptyIff(attrs: seq<KeyValue>)
    ensures Syms(attrs) == [] <==> attrs == []
  {
    if |attrs| == 0 {
    } else {
      FirstPair(attrs[0], Tail(attrs[1..]));
    }
  }

  lemma {:induction false} SymsInjective(a: seq<KeyValue>, b: seq<KeyValue>)
    requires AllTame(a) && AllTame(b) && Syms(a) == Syms(b)
    ensures AllSeen(a) == AllSeen(b)
  {
    if |a| == 0 || |b| == 0 {
      SymsEmptyIff(a);
      SymsEmptyIff(b);
    } else {
      FirstPair(a[0], Tail(a[1..]));
      FirstPair(b[0], Tail(b[1..]));
      TameSyms(a[0].value);
      TameSyms(b[0].value);
      AllSeenFirst(a);
      AllSeenFirst(b);
      KeySyms(Sanitised(a[0].key));
      KeySyms(Sanitised(b[0].key));
      hide Lits, Sanitised, ValueSyms, AllSeen, PairSyms, Tame;
      FirstEq(Lits(Sanitised(a[0].key)), ValueSyms(a[0].value) + Tail(a[1..]),
              Lits(Sanitised(b[0].key)), ValueSyms(b[0].value) + Tail(b[1..]));
      ValueEnds(ValueSyms(a[0].value), a[1..], ValueSyms(b[0].value), b[1..]);
      TailIsSyms(a[1..], b[1..]);
      SymsInjective(a[1..], b[1..]);
    }
  }

  lemma TailIsSyms(a: seq<KeyValue>, b: seq<KeyValue>)
    requires Tail(a) == Tail(b)
    ensures Syms(a) == Syms(b)
  {
    hide PairSyms;
    if a != [] && b != [] { assert Tail(a)[1..] == Syms(a) && Tail(b)[1..] == Syms(b); }
  }

  lemma {:induction false} SeenSyms(a: seq<KeyValue>, b: seq<KeyValue>)
    requires AllSeen(a) == AllSeen(b)
    ensures Syms(a) == Syms(b)
  {
    if |a| == 0 {
    } else {
      assert |b| == |a| && AllSeen(a)[0] == AllSeen(b)[0];
      assert AllSeen(a[1..]) == AllSeen(a)[1..] && AllSeen(b[1..]) == AllSeen(b)[1..];
      SeenSyms(a[1..], b[1..]);
    }
  }

  /**
    Two sets of strings and of values whose text holds no equals sign and no backslash have one encoding
    exactly when keys and values look alike, where an escaped comma differs from one that is not.
   */
  lemma EncodingUniqueTame(a: seq<KeyValue>, b: seq<KeyValue>)
    requires AllTame(a) && AllTame(b)
    ensures Encoded(a) == Encoded(b) <==> AllSeen(a) == AllSeen(b)
  {
    WriteSyms(a);
    WriteSyms(b);
    ReadWritten(Syms(a));
    ReadWritten(Syms(b));
    hide Encoded, Syms;
    if Syms(a) == Syms(b) { SymsInjective(a, b); }
    if AllSeen(a) == AllSeen(b) { SeenSyms(a, b); }
  }

  /** The keys and texts of the attributes. */
  function Texts(attrs: seq<KeyValue>): (r: seq<Attr>)
    ensures |r| == |attrs|
  {
    seq(|attrs|, i requires 0 <= i < |attrs| => Attr(Sanitised(attrs[i].key), Shown(attrs[i].value)))
  }

  lemma LitsSame(s: bytes, t: bytes)
    ensures Lits(s) == Lits(t) <==> s == t
  {
    if Lits(s) == Lits(t) {
      forall i | 0 <= i < |s| ensures s[i] == t[i] { assert Lits(s)[i] == Lits(t)[i]; }
    }
  }

  lemma PlainSyms(v: Value)
    requires Plain(v)
    ensures Tame(v) && ValueSyms(v) == Lits(Shown(v))
  {}

  /** Two sets of plain attributes have one encoding exactly when their texts agree. */
  lemma EncodingUnique(a: seq<KeyValue>, b: seq<KeyValue>)
    requires AllPlain(a) && AllPlain(b)
    ensures Encoded(a) == Encoded(b) <==> Texts(a) == Texts(b)
  {
    forall i | 0 <= i < |a| ensures Tame(a[i].value) { PlainSyms(a[i].value); }
    forall i | 0 <= i < |b| ensures Tame(b[i].value) { PlainSyms(b[i].value); }
    EncodingUniqueTame(a, b);
    if |a| == |b| {
      forall i | 0 <= i < |a| ensures AllSeen(a)[i] == AllSeen(b)[i] <==> Texts(a)[i] == Texts(b)[i] {
        PlainSyms(a[i].value);
        PlainSyms(b[i].value);
        LitsSame(Sanitised(a[i].key), Sanitised(b[i].key));
        LitsSame(Shown(a[i].value), Shown(b[i].value));
      }
      hide Encoded;
      SameSeqIff(AllSeen(a), AllSeen(b));
      SameSeqIff(Texts(a), Texts(b));
    }
  }

  lemma SameSeqIff<T>(a: seq<T>, b: seq<T>)
    requires |a| == |b|
    ensures a == b <==> forall i :: 0 <= i < |a| ==> a[i] == b[i]
  {}

  predicate AllValidStrings(attrs: seq<KeyValue>)
  {
    forall i :: 0 <= i < |attrs| ==> Valid(attrs[i].key) && attrs[i].value.Str? && Valid(attrs[i].value.s)
  }

  /** On strings of valid UTF-8 the encoding is injective. */
  lemma EncodingInjective(a: seq<KeyValue>, b: seq<KeyValue>)
    requires AllValidStrings(a) && AllValidStrings(b) && Encoded(a) == Encoded(b)
    ensures a == b
  {
    EncodingUnique(a, b);
    forall i | 0 <= i < |a| ensures a[i] == b[i] {
      assert Texts(a)[i] == Texts(b)[i];
      SanitisedValid(a[i].key);
      SanitisedValid(a[i].value.s);
      SanitisedValid(b[i].key);
      SanitisedValid(b[i].value.s);
    }
  }

  /** A value of any type and the string of its text are not told apart, as `true` and "true". */
  lemma TypeIsNotSeen(key: bytes, text: bytes)
    requires Valid(text) && Plain(Other(text))
    ensures Encoded([KeyValue(key, Other(text))]) == Encoded([KeyValue(key, Str(text))])
  {
    SanitisedValid(text);
    PlainText(Other(text));
  }

  predicate PlainString(s: bytes) { Valid(s) && forall i :: 0 <= i < |s| ==> !Special(s[i]) }

  /**
    The text of a list is not escaped.  With `["1`, `b` and `2"]` for left, b and right: the list of the one
    string `1,b=2` encodes as two attributes with string values.
   */
  lemma ListIsNotEscaped(k: bytes, left: bytes, b: bytes, right: bytes)
    requires PlainString(left) && PlainString(b) && PlainString(right)
    ensures Encoded([KeyValue(k, Other(left + [COMMA] + b + [EQUALS] + right))])
      == Encoded([KeyValue(k, Str(left)), KeyValue(b, Str(right))])
  {
    PlainStays(left);
    PlainStays(b);
    PlainStays(right);
    var tail := [COMMA] + (b + ([EQUALS] + right));
    EncodedTwo(KeyValue(k, Str(left)), KeyValue(b, Str(right)));
    Regrouped(left, [COMMA], b, [EQUALS], right);
    hide Escaped, Sanitised, PlainString;
    Rebracket([EQUALS], left, tail);
    Rebracket(Escaped(Sanitised(k)), [EQUALS] + left, tail);
  }

  lemma EncodedTwo(x: KeyValue, y: KeyValue)
    ensures Encoded([x, y]) == Pair(x) + ([COMMA] + Pair(y))
  {
    hide Pair;
    assert [x, y][1..] == [y];
  }

  lemma Regrouped<T>(a: seq<T>, b: seq<T>, c: seq<T>, d: seq<T>, e: seq<T>)
    ensures a + b + c + d + e == a + (b + (c + (d + e)))
  {}

  lemma PlainStays(s: bytes)
    requires PlainString(s)
    ensures Escaped(Sanitised(s)) == s
  {
    SanitisedValid(s);
    NothingEscaped(s);
  }

  // ---------------------------------------------------------------- the code

  /** `WriteRune` after decoding: the rune's own bytes, or U+FFFD for an invalid byte. */
  function Written(s: bytes): (r: (bytes, nat))
    requires |s| > 0
    ensures 1 <= r.1 <= |s|
  {
    if RuneLen(s) == 0 then (REPLACEMENT, 1) else (s[..RuneLen(s)], RuneLen(s))
  }

  lemma {:induction false} EscapedSplit(a: bytes, b: bytes)
    ensures Escaped(a + b) == Escaped(a) + Escaped(b)
  {
    if |a| == 0 {
      assert a + b == b;
    } else {
      EscapedSplit(a[1..], b);
      var head := if Special(a[0]) then [ESCAPE, a[0]] else [a[0]];
      assert (a + b)[1..] == a[1..] + b;
      assert Escaped(a + b) == head + Escaped(a[1..] + b) && Escaped(a) == head + Escaped(a[1..]);
      hide Escaped, Special;
      Rebracket(head, Escaped(a[1..]), Escaped(b));
    }
  }

  lemma {:induction false} EscapedPlain(s: bytes)
    requires forall i :: 0 <= i < |s| ==> s[i] >= 0x80
    ensures Escaped(s) == s
  {
    if |s| == 0 {
    } else {
      EscapedPlain(s[1..]);
      assert s == [s[0]] + s[1..];
    }
  }

  /** A rune of more than one byte contains no special byte. */
  lemma HighBytes(s: bytes)
    requires RuneLen(s) > 1
    ensures forall i :: 0 <= i < RuneLen(s) ==> s[i] >= 0x80
    ensures CodePoint(s) >= 0x80
  {
    EncodeDecode(s);
  }

  lemma LowByte(s: bytes)
    requires |s| > 0 && s[0] < 0x80
    ensures RuneLen(s) == 1 && CodePoint(s) == s[0] && s[..1] == [s[0]]
    ensures Escaped([s[0]]) == (if Special(s[0]) then [ESCAPE] else []) + [s[0]]
  {
    assert Escaped([]) == [] && [s[0]][1..] == [];
  }

  /** Escaping what is written for one rune puts a backslash before it, or nothing. */
  predicate OneRune(s: bytes)
    requires |s| > 0
  {
    var (w, n) := Written(s);
    && Sanitised(s) == w + Sanitised(s[n..])
    && Escaped(w) == (if Special(DecodeRune(s).0) then [ESCAPE] else []) + w
    && n == DecodeRune(s).1
  }

  lemma OneLowRune(s: bytes)
    requires |s| > 0 && s[0] < 0x80
    ensures OneRune(s)
  {
    LowByte(s);
    hide RuneLen, CodePoint, Escaped, Special;
  }

  lemma OneHighRune(s: bytes)
    requires RuneLen(s) > 1
    ensures OneRune(s)
  {
    HighBytes(s);
    hide RuneLen, CodePoint, Escaped;
    EscapedPlain(s[..RuneLen(s)]);
    assert [] + s[..RuneLen(s)] == s[..RuneLen(s)];
  }

  lemma OneBadByte(s: bytes)
    requires |s| > 0 && RuneLen(s) == 0
    ensures OneRune(s)
  {
    hide RuneLen, CodePoint;
    EscapedPlain(REPLACEMENT);
    hide Escaped;
    assert [] + REPLACEMENT == REPLACEMENT;
  }

  lemma WrittenEscaped(s: bytes)
    requires |s| > 0
    ensures OneRune(s)
  {
    OneOrNone(s);
    hide RuneLen, OneRune;
    if s[0] < 0x80 { OneLowRune(s); } else if RuneLen(s) == 0 { OneBadByte(s); } else { OneHighRune(s); }
  }

  lemma OneOrNone(s: bytes)
    ensures |s| > 0 && s[0] >= 0x80 ==> RuneLen(s) != 1
  {}

  method CopyAndEscape(buf: bytes, val: bytes) returns (r: bytes)
    ensures r == buf + Escaped(Sanitised(val))
  {
    hide Escaped, Sanitised, RuneLen, CodePoint, Special;
    r := buf;
    var i := 0;
    assert val[0..] == val;
    while i < |val|
      invariant 0 <= i <= |val| && r + Escaped(Sanitised(val[i..])) == buf + Escaped(Sanitised(val))
    {
      var t := val[i..];
      var (ch, size) := DecodeRune(t);
      WrittenEscaped(t);
      var (w, _) := Written(t);
      EscapedSplit(w, Sanitised(t[size..]));
      Rebracket(r, Escaped(w), Escaped(Sanitised(t[size..])));
      if Special(ch) {
        Rebracket(r, [ESCAPE], w);
        r := r + [ESCAPE];
      } else {
        assert [] + w == w;
      }
      r := r + w;
      assert t[size..] == val[i + size..];
      i := i + size;
    }
    EscapedNone(val);
  }

  lemma EscapedNone(s: bytes)
    ensures Escaped(Sanitised(s[|s|..])) == []
  {}

  method EncodeAttributes(attrs: seq<KeyValue>) returns (buf: bytes)
    ensures buf == Encoded(attrs)
  {
    hide Pair, Escaped, Sanitised;
    buf := [];
    assert attrs[..0] == [];
    for i := 0 to |attrs|
      invariant buf == Encoded(attrs[..i])
    {
      EncodedNext(attrs, i);
      if i > 0 { buf := buf + [COMMA]; }
      buf := EncodePair(buf, attrs[i]);
    }
    assert attrs[..|attrs|] == attrs;
  }

  method EncodePair(buf: bytes, a: KeyValue) returns (r: bytes)
    ensures r == buf + Pair(a)
  {
    hide Escaped, Sanitised;
    r := CopyAndEscape(buf, a.key);
    r := r + [EQUALS];
    Rebracket(buf, Escaped(Sanitised(a.key)), [EQUALS]);
    if a.value.Str? {
      r := CopyAndEscape(r, a.value.s);
    } else {
      r := r + a.value.text;
    }
    var (k, v) := (Escaped(Sanitised(a.key)), ValueText(a.value));
    Rebracket(buf, k, [EQUALS] + v);
    Rebracket(buf + k, [EQUALS], v);
  }

  lemma {:induction false} EncodedNext(attrs: seq<KeyValue>, i: nat)
    requires i < |attrs|
    ensures Encoded(attrs[..i + 1]) == Encoded(attrs[..i]) + (if i > 0 then [COMMA] else []) + Pair(attrs[i])
  {
    hide Pair;
    if i == 0 {
      assert [] + [] + Pair(attrs[0]) == Pair(attrs[0]);
    } else {
      var rest := attrs[1..];
      EncodedNext(rest, i - 1);
      assert attrs[..i + 1][1..] == rest[..i] && attrs[..i][1..] == rest[..i - 1];
      if i == 1 {
        assert Encoded(rest[..1]) == Pair(attrs[1]);
      } else {
        var (p, e) := (Pair(attrs[0]), Encoded(rest[..i - 1]));
        hide Encoded;
        Regrouped(p, [COMMA], e, [COMMA], Pair(attrs[i]));
        Rebracket(p, [COMMA], e);
        Rebracket(e, [COMMA], Pair(attrs[i]));
      }
    }
  }

  // ---------------------------------------------------------------- examples

  /** Two attributes of plain strings: keys before values, in order. */
  lemma TwoPairs(k: bytes, v: bytes, l: bytes, w: bytes)
    requires PlainString(k) && PlainString(v) && PlainString(l) && PlainString(w)
    ensures Encoded([KeyValue(k, Str(v)), KeyValue(l, Str(w))]) == k + [0x3D] + v + [0x2C] + l + [0x3D] + w
  {
    PlainStays(k);
    PlainStays(v);
    PlainStays(l);
    PlainStays(w);
    EncodedTwo(KeyValue(k, Str(v)), KeyValue(l, Str(w)));
    hide Escaped, Sanitised, PlainString, Encoded;
    Rebracket(k, [0x3D], v);
    Rebracket(l, [0x3D], w);
    Rebracket(k + [0x3D] + v, [0x2C], l + [0x3D] + w);
    Rebracket(k + [0x3D] + v + [0x2C], l + [0x3D], w);
    Rebracket(k + [0x3D] + v + [0x2C], l, [0x3D]);
  }

  /** The three characters that are escaped. */
  lemma EscapesExample()
    ensures Escaped([0x3D, 0x2C, 0x5C, 0x61]) == [0x5C, 0x3D, 0x5C, 0x2C, 0x5C, 0x5C, 0x61]
  {
    assert Escaped([0x61]) == [0x61] && Escaped([0x5C, 0x61]) == [0x5C, 0x5C, 0x61];
    assert Escaped([0x2C, 0x5C, 0x61]) == [0x5C, 0x2C, 0x5C, 0x5C, 0x61];
  }
}
