/** Hexadecimal identifiers: the lower-case printer, and the parser that validates with one OR-ed mark. */
module Hex {
  import opened Prelude

  /** `hexLU` */
  function Digit(n: int): (c: byte)
    requires 0 <= n < 16
  {
    if n < 10 then 0x30 + n else 0x57 + n
  }

  predicate LowerHexDigit(c: byte) { 0x30 <= c <= 0x39 || 0x61 <= c <= 0x66 }

  predicate LowerHex(h: bytes) { forall i :: 0 <= i < |h| ==> LowerHexDigit(h[i]) }

  function DigitValue(c: byte): (n: nat)
    requires LowerHexDigit(c)
    ensures n < 16 && Digit(n) == c
  {
    if c <= 0x39 then c - 0x30 else c - 0x57
  }

  /** `hexBytes`, and `hex.Encode`: two digits a byte. */
  function Encode(id: bytes): (h: bytes)
    ensures |h| == 2 * |id|
  {
    if |id| == 0 then [] else [Digit(id[0] / 16), Digit(id[0] % 16)] + Encode(id[1..])
  }

  function Decode(h: bytes): (id: bytes)
    requires LowerHex(h) && |h| % 2 == 0
    ensures |id| == |h| / 2
  {
    if |h| == 0 then [] else [16 * DigitValue(h[0]) + DigitValue(h[1])] + Decode(h[2..])
  }

  lemma {:induction false} DecodeEncode(id: bytes)
    ensures LowerHex(Encode(id)) && Decode(Encode(id)) == id
  {
    if |id| == 0 {
    } else {
      DecodeEncode(id[1..]);
      var h := Encode(id);
      assert h[2..] == Encode(id[1..]);
      assert forall i :: 2 <= i < |h| ==> h[i] == h[2..][i - 2];
      assert id == [id[0]] + id[1..];
    }
  }

  lemma {:induction false} EncodeDecode(h: bytes)
    requires LowerHex(h) && |h| % 2 == 0
    ensures Encode(Decode(h)) == h
  {
    if |h| == 0 {
    } else {
      EncodeDecode(h[2..]);
      assert Decode(h)[1..] == Decode(h[2..]);
      assert h == [h[0], h[1]] + h[2..];
    }
  }

  predicate AllZero(id: bytes) { forall i :: 0 <= i < |id| ==> id[i] == 0 }

  lemma {:induction false} DecodeAppend(a: bytes, b: bytes)
    requires LowerHex(a) && LowerHex(b) && |a| % 2 == 0 && |b| % 2 == 0
    ensures LowerHex(a + b) && Decode(a + b) == Decode(a) + Decode(b)
  {
    if |a| == 0 {
      assert a + b == b;
    } else {
      DecodeAppend(a[2..], b);
      assert (a + b)[2..] == a[2..] + b;
    }
  }

  // ---------------------------------------------------------------- parsing

  datatype Error = InvalidLength | InvalidHex | NilID

  /** `hexRev`: 0xff marks what is not a lower-case digit. */
  function Rev(c: byte): bv8
  {
    if 0x30 <= c <= 0x39 then (c - 0x30) as bv8 else if 0x61 <= c <= 0x66 then (c - 0x57) as bv8 else 0xff
  }

  /** What the two parsers promise; size is 16 for a trace ID and 8 for a span ID. */
  function IDOf(h: bytes, size: nat): Result<bytes, Error>
  {
    if |h| != 2 * size then Err(InvalidLength)
    else if !LowerHex(h) then Err(InvalidHex)
    else if AllZero(Decode(h)) then Err(NilID)
    else Ok(Decode(h))
  }

  lemma MarkSound(mark: bv8, c: bv8)
    ensures (mark | c) & 0xf0 == 0 <==> mark & 0xf0 == 0 && c & 0xf0 == 0
    ensures mark | c == 0 <==> mark == 0 && c == 0
  {}

  lemma RevSound(c: byte)
    ensures Rev(c) & 0xf0 == 0 <==> LowerHexDigit(c)
    ensures Rev(c) == 0 <==> c == 0x30
    ensures LowerHexDigit(c) ==> Rev(c) as int == DigitValue(c)
  {
    if LowerHexDigit(c) {
      LowNibble(Rev(c));
    } else {
      assert 0xff & 0xf0 == 0xf0 as bv8;
    }
  }

  lemma LowNibble(v: bv8)
    ensures v < 16 ==> v & 0xf0 == 0
  {}

  lemma NibblesJoin(a: bv8, b: bv8)
    requires a & 0xf0 == 0 && b & 0xf0 == 0
    ensures ((a << 4) | b) as int == 16 * (a as int) + b as int
  {
    assert (a << 4) | b == (a << 4) + b;
  }

  /** After i characters one mark tells whether all were digits, and whether all were zero. */
  ghost predicate Marked(h: bytes, i: int, mark: bv8)
  {
    && 0 <= i <= |h|
    && (mark & 0xf0 == 0 <==> LowerHex(h[..i]))
    && (mark == 0 <==> forall j :: 0 <= j < i ==> h[j] == 0x30)
  }

  /** v is what the reverse table holds for c, as far as the mark can tell. */
  ghost predicate Tells(v: bv8, c: byte)
  {
    (v & 0xf0 == 0 <==> LowerHexDigit(c)) && (v == 0 <==> c == 0x30)
  }

  lemma MarkedStep(h: bytes, i: nat, mark: bv8, v: bv8)
    requires Marked(h, i, mark) && i < |h| && Tells(v, h[i])
    ensures Marked(h, i + 1, mark | v)
  {
    MarkSound(mark, v);
    assert h[..i + 1] == h[..i] + [h[i]];
  }

  lemma MarkedTwo(h: bytes, i: nat, mark: bv8, a: bv8, b: bv8)
    requires Marked(h, i, mark) && i + 2 <= |h|
    requires Tells(a, h[i]) && Tells(b, h[i + 1])
    ensures Marked(h, i + 2, (mark | a) | b)
  {
    MarkedStep(h, i, mark, a);
    MarkedStep(h, i + 1, mark | a, b);
  }

  lemma MarkedFour(h: bytes, i: nat, mark: bv8, a: bv8, b: bv8, c: bv8, d: bv8)
    requires Marked(h, i, mark) && i + 4 <= |h|
    requires Tells(a, h[i]) && Tells(b, h[i + 1]) && Tells(c, h[i + 2]) && Tells(d, h[i + 3])
    ensures Marked(h, i + 4, (((mark | a) | b) | c) | d)
  {
    MarkedTwo(h, i, mark, a, b);
    MarkedTwo(h, i + 2, (mark | a) | b, c, d);
  }

  lemma RevTells(a: byte, b: byte, c: byte, d: byte)
    ensures Tells(Rev(a), a) && Tells(Rev(b), b) && Tells(Rev(c), c) && Tells(Rev(d), d)
  {
    RevSound(a);
    RevSound(b);
    RevSound(c);
    RevSound(d);
  }

  lemma BitsReassociate(m: bv8, a: bv8, b: bv8, c: bv8, d: bv8)
    ensures m | (a | b | c | d) == (((m | a) | b) | c) | d
  {}

  /** After n pairs: while all characters are digits, the bytes written are their values. */
  ghost predicate Written(h: bytes, b: bytes, n: int)
  {
    && 0 <= n <= |b| && 2 * |b| == |h|
    && (LowerHex(h[..2 * n]) ==> b[..n] == Decode(h[..2 * n]))
  }

  function Joined(c: byte, d: byte): byte { ((Rev(c) << 4) | Rev(d)) as int }

  lemma JoinedPairs(c: byte, d: byte)
    ensures Pairs(Joined(c, d), c, d)
  {
    if LowerHexDigit(c) && LowerHexDigit(d) {
      RevSound(c);
      RevSound(d);
      NibblesJoin(Rev(c), Rev(d));
      assert Decode([c, d][2..]) == [];
    }
  }

  /** x is the byte two digits stand for, when they are digits. */
  ghost predicate Pairs(x: byte, c: byte, d: byte)
  {
    LowerHexDigit(c) && LowerHexDigit(d) ==> Decode([c, d]) == [x]
  }

  lemma DecodePair(h: bytes, x: byte)
    requires |h| >= 2 && |h| % 2 == 0 && LowerHex(h) && Pairs(x, h[|h| - 2], h[|h| - 1])
    ensures LowerHex(h[..|h| - 2]) && Decode(h) == Decode(h[..|h| - 2]) + [x]
  {
    var init, c, d := h[..|h| - 2], h[|h| - 2], h[|h| - 1];
    assert h == init + [c, d];
    DecodeAppend(init, [c, d]);
  }

  lemma WrittenStep(h: bytes, b: bytes, n: nat, x: byte)
    requires Written(h, b, n) && n < |b| && Pairs(x, h[2 * n], h[2 * n + 1])
    ensures Written(h, b[n := x], n + 1)
  {
    var next := h[..2 * n + 2];
    assert next[..2 * n] == h[..2 * n];
    if LowerHex(next) {
      DecodePair(next, x);
      assert b[n := x][..n + 1] == b[..n] + [x];
    }
  }

  /** `TraceIDFromHex` and `SpanIDFromHex` */
  method IDFromHex(h: bytes, size: nat) returns (r: Result<bytes, Error>)
    requires size == 16 || size == 8
    ensures r == IDOf(h, size)
  {
    if |h| != 2 * size { return Err(InvalidLength); }
    var b: bytes := seq(size, _ => 0);
    var invalidMark: bv8 := 0;
    var i := 0;
    while i < |h|
      invariant i % 4 == 0 && Written(h, b, i / 2) && Marked(h, i, invalidMark)
    {
      b, invalidMark := ReadFour(h, b, i, invalidMark);
      i := i + 4;
    }
    assert h[..i] == h && b[..i / 2] == b;
    if invalidMark & 0xf0 != 0 { return Err(InvalidHex); }
    ZeroDigits(h);
    if invalidMark == 0 { return Err(NilID); }
    return Ok(b);
  }

  lemma WrittenFour(h: bytes, b: bytes, n: nat, x: byte, y: byte)
    requires Written(h, b, n) && n + 1 < |b|
    requires Pairs(x, h[2 * n], h[2 * n + 1]) && Pairs(y, h[2 * n + 2], h[2 * n + 3])
    ensures Written(h, b[n := x][n + 1 := y], n + 2)
  {
    WrittenStep(h, b, n, x);
    WrittenStep(h, b[n := x], n + 1, y);
  }

  /** The body of the loop. */
  method ReadFour(h: bytes, b: bytes, i: nat, mark: bv8) returns (b': bytes, mark': bv8)
    requires i % 4 == 0 && i + 4 <= |h| && Written(h, b, i / 2) && Marked(h, i, mark)
    ensures Written(h, b', (i + 4) / 2) && Marked(h, i + 4, mark')
  {
    b' := PairsAt(h, b, i / 2);
    RevTells(h[i], h[i + 1], h[i + 2], h[i + 3]);
    MarkedFour(h, i, mark, Rev(h[i]), Rev(h[i + 1]), Rev(h[i + 2]), Rev(h[i + 3]));
    BitsReassociate(mark, Rev(h[i]), Rev(h[i + 1]), Rev(h[i + 2]), Rev(h[i + 3]));
    mark' := mark | (Rev(h[i]) | Rev(h[i + 1]) | Rev(h[i + 2]) | Rev(h[i + 3]));
  }

  method PairsAt(h: bytes, b: bytes, n: nat) returns (b': bytes)
    requires Written(h, b, n) && n + 1 < |b|
    ensures Written(h, b', n + 2)
  {
    var x, y := Joined(h[2 * n], h[2 * n + 1]), Joined(h[2 * n + 2], h[2 * n + 3]);
    JoinedPairs(h[2 * n], h[2 * n + 1]);
    JoinedPairs(h[2 * n + 2], h[2 * n + 3]);
    WrittenFour(h, b, n, x, y);
    b' := b[n := x];
    b' := b'[n + 1 := y];
  }

  lemma {:induction false} ZeroDigits(h: bytes)
    requires LowerHex(h) && |h| % 2 == 0
    ensures AllZero(Decode(h)) <==> forall j :: 0 <= j < |h| ==> h[j] == 0x30
  {
    if |h| == 0 {
    } else {
      ZeroDigits(h[2..]);
      var d := Decode(h);
      assert d[1..] == Decode(h[2..]);
      assert d[0] == 0 <==> h[0] == 0x30 && h[1] == 0x30;
      assert AllZero(d) <==> d[0] == 0 && AllZero(d[1..]) by {
        assert forall j :: 1 <= j < |d| ==> d[j] == d[1..][j - 1];
      }
      assert forall j :: 2 <= j < |h| ==> h[j] == h[2..][j - 2];
      assert forall j :: 0 <= j < |h| - 2 ==> h[2..][j] == h[j + 2];
    }
  }

  /** Parsing and printing are inverses on the identifiers that are not all zero, and on nothing else. */
  lemma IDRoundTrip(id: bytes, h: bytes, size: nat)
    ensures IDOf(h, size) == Ok(id) <==> |id| == size && !AllZero(id) && h == Encode(id)
  {
    if IDOf(h, size) == Ok(id) { EncodeDecode(h); }
    if |id| == size && h == Encode(id) { DecodeEncode(id); }
  }

  /** The high digit comes first, in lower case. */
  lemma PrintedExample()
    ensures Encode([0x4B, 0xF9]) == [0x34, 0x62, 0x66, 0x39]
  {
    assert Encode([0xF9]) == [0x66, 0x39];
  }
}
