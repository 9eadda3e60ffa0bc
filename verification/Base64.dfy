/** Byte slices in JSON: the base64 encoding of section 4 of RFC 4648. */
module Base64 {
  import opened Prelude

  /** '=' */
  const PAD := 61

  /** Table 1 of RFC 4648. */
  function Letter(d: int): (c: byte)
    requires 0 <= d < 64
    ensures c != PAD
  {
    if d < 26 then 65 + d else if d < 52 then 71 + d else if d < 62 then d - 4 else if d == 62 then 43 else 47
  }

  function Digit(c: byte): (d: Option<int>)
    ensures d.Some? ==> 0 <= d.value < 64
  {
    if 65 <= c <= 90 then Some(c - 65) else if 97 <= c <= 122 then Some(c - 71)
    else if 48 <= c <= 57 then Some(c + 4) else if c == 43 then Some(62) else if c == 47 then Some(63) else None
  }

  lemma LetterDigit(d: int)
    requires 0 <= d < 64
    ensures Digit(Letter(d)) == Some(d)
  {}

  lemma DigitLetter(c: byte)
    requires Digit(c).Some?
    ensures Letter(Digit(c).value) == c
  {}

  /** Six bits of a 24-bit group, from the left: `n >> s & 0x3f`. */
  function Six(n: int, k: nat): (d: int)
    requires 0 <= n < 0x100_0000 && k < 4
    ensures 0 <= d < 64
  {
    if k == 0 then n / 0x4_0000 % 64 else if k == 1 then n / 0x1000 % 64 else if k == 2 then n / 64 % 64 else n % 64
  }

  function Group(a: byte, b: byte, c: byte): (n: int)
    ensures 0 <= n < 0x100_0000
  {
    a * 0x1_0000 + b * 0x100 + c
  }

  function Encoded(s: bytes): bytes
  {
    if |s| == 0 then []
    else if |s| == 1 then
      var n := Group(s[0], 0, 0);
      [Letter(Six(n, 0)), Letter(Six(n, 1)), PAD, PAD]
    else if |s| == 2 then
      var n := Group(s[0], s[1], 0);
      [Letter(Six(n, 0)), Letter(Six(n, 1)), Letter(Six(n, 2)), PAD]
    else
      Quad(Group(s[0], s[1], s[2])) + Encoded(s[3..])
  }

  function Quad(n: int): bytes
    requires 0 <= n < 0x100_0000
  {
    [Letter(Six(n, 0)), Letter(Six(n, 1)), Letter(Six(n, 2)), Letter(Six(n, 3))]
  }

  /** The bytes of a group, from its four digits: independent of how they were made. */
  function First(d0: int, d1: int): int { d0 * 4 + d1 / 16 }

  function Second(d1: int, d2: int): int { d1 % 16 * 16 + d2 / 4 }

  function Third(d2: int, d3: int): int { d2 % 4 * 64 + d3 }

  predicate Digits(t: bytes, k: nat)
    requires k <= |t|
  {
    forall i :: 0 <= i < k ==> Digit(t[i]).Some?
  }

  /** A strict decoder: padding only at the end, and no stray bits before it. */
  function Decoded(t: bytes): Option<bytes>
  {
    if |t| == 0 then Some([])
    else if |t| < 4 || !Digits(t, 2) then None
    else
      var (d0, d1) := (Digit(t[0]).value, Digit(t[1]).value);
      if t[2] == PAD then
        if |t| == 4 && t[3] == PAD && d1 % 16 == 0 then Some([First(d0, d1)]) else None
      else if !Digits(t, 3) then None
      else
        var d2 := Digit(t[2]).value;
        if t[3] == PAD then
          if |t| == 4 && d2 % 4 == 0 then Some([First(d0, d1), Second(d1, d2)]) else None
        else if !Digits(t, 4) || Decoded(t[4..]).None? then None
        else
          Some([First(d0, d1), Second(d1, d2), Third(d2, Digit(t[3]).value)] + Decoded(t[4..]).value)
  }

  lemma Quotient(n: int, k: int, q: int, r: int)
    requires k > 0 && n == q * k + r && 0 <= r < k
    ensures n / k == q && n % k == r
  {
    var d := n / k - q;
    assert d * k == r - n % k;
    assert d >= 1 ==> d * k >= k;
    assert d <= -1 ==> d * k <= -k;
  }

  /** The digits of a group, when the bytes are split where the digits end. */
  lemma GroupDigits(a1: int, a0: int, b1: int, b0: int, c1: int, c0: int)
    requires 0 <= a1 < 64 && 0 <= a0 < 4 && 0 <= b1 < 16 && 0 <= b0 < 16 && 0 <= c1 < 4 && 0 <= c0 < 64
    ensures var n := Group(a1 * 4 + a0, b1 * 16 + b0, c1 * 64 + c0);
      && Six(n, 0) == a1 && Six(n, 1) == a0 * 16 + b1 && Six(n, 2) == b0 * 4 + c1 && Six(n, 3) == c0
  {
    var n := Group(a1 * 4 + a0, b1 * 16 + b0, c1 * 64 + c0);
    Quotient(n, 0x4_0000, a1, a0 * 0x1_0000 + b1 * 0x1000 + b0 * 0x100 + c1 * 64 + c0);
    Quotient(a1, 64, 0, a1);
    var (d1, d2) := (a0 * 16 + b1, b0 * 4 + c1);
    Quotient(n, 0x1000, a1 * 64 + d1, b0 * 0x100 + c1 * 64 + c0);
    Quotient(a1 * 64 + d1, 64, a1, d1);
    Quotient(n, 64, a1 * 0x1000 + d1 * 64 + d2, c0);
    Quotient(a1 * 0x1000 + d1 * 64 + d2, 64, a1 * 64 + d1, d2);
  }

  lemma GroupBytes(a: byte, b: byte, c: byte)
    ensures var n := Group(a, b, c);
      && First(Six(n, 0), Six(n, 1)) == a && Second(Six(n, 1), Six(n, 2)) == b && Third(Six(n, 2), Six(n, 3)) == c
  {
    GroupDigits(a / 4, a % 4, b / 16, b % 16, c / 64, c % 64);
    Quotient(a % 4 * 16 + b / 16, 16, a % 4, b / 16);
    Quotient(b % 16 * 4 + c / 64, 4, b % 16, c / 64);
    hide Six;
  }

  lemma StrayBits(a: byte, b: byte)
    ensures Six(Group(a, 0, 0), 1) % 16 == 0
    ensures Six(Group(a, b, 0), 2) % 4 == 0
  {
    GroupDigits(a / 4, a % 4, 0, 0, 0, 0);
    GroupDigits(a / 4, a % 4, b / 16, b % 16, 0, 0);
    Quotient(a % 4 * 16, 16, a % 4, 0);
    Quotient(b % 16 * 4, 4, b % 16, 0);
    hide Six;
  }

  lemma DecodeQuad(n: int, rest: bytes)
    requires 0 <= n < 0x100_0000 && Decoded(rest).Some?
    ensures Decoded(Quad(n) + rest) ==
      Some([First(Six(n, 0), Six(n, 1)), Second(Six(n, 1), Six(n, 2)), Third(Six(n, 2), Six(n, 3))]
           + Decoded(rest).value)
  {
    var t := Quad(n) + rest;
    LetterDigit(Six(n, 0));
    LetterDigit(Six(n, 1));
    LetterDigit(Six(n, 2));
    LetterDigit(Six(n, 3));
    hide Letter, Six, First, Second, Third;
    assert t[4..] == rest && t[0] == Quad(n)[0] && t[1] == Quad(n)[1] && t[2] == Quad(n)[2] && t[3] == Quad(n)[3];
  }

  /** Decoding undoes encoding, for all byte strings. */
  lemma {:induction false} DecodeEncode(s: bytes)
    ensures Decoded(Encoded(s)) == Some(s)
  {
    if |s| == 0 {
    } else if |s| == 1 {
      DecodeOne(s);
    } else if |s| == 2 {
      DecodeTwo(s);
    } else {
      DecodeEncode(s[3..]);
      GroupBytes(s[0], s[1], s[2]);
      DecodeQuad(Group(s[0], s[1], s[2]), Encoded(s[3..]));
      assert s == [s[0], s[1], s[2]] + s[3..];
    }
  }

  lemma DecodeOne(s: bytes)
    requires |s| == 1
    ensures Decoded(Encoded(s)) == Some(s)
  {
    hide Letter, Digit, Six, First, Second, Third, Group;
    var n := Group(s[0], 0, 0);
    GroupBytes(s[0], 0, 0);
    StrayBits(s[0], 0);
    LetterDigit(Six(n, 0));
    LetterDigit(Six(n, 1));
    assert s == [s[0]];
  }

  lemma DecodeTwo(s: bytes)
    requires |s| == 2
    ensures Decoded(Encoded(s)) == Some(s)
  {
    hide Letter, Digit, Six, First, Second, Third, Group;
    var n := Group(s[0], s[1], 0);
    GroupBytes(s[0], s[1], 0);
    StrayBits(s[0], s[1]);
    LetterDigit(Six(n, 0));
    LetterDigit(Six(n, 1));
    LetterDigit(Six(n, 2));
    assert s == [s[0], s[1]];
  }

  /** The length that the builder is grown by. */
  lemma {:induction false} EncodedLength(s: bytes)
    ensures |Encoded(s)| == (|s| + 2) / 3 * 4
  {
    hide Letter, Six, Group;
    if |s| > 2 { EncodedLength(s[3..]); }
  }

  // ---------------------------------------------------------------- and back

  lemma DigitsGroup(d0: int, d1: int, d2: int, d3: int)
    requires 0 <= d0 < 64 && 0 <= d1 < 64 && 0 <= d2 < 64 && 0 <= d3 < 64
    ensures var (a, b, c) := (First(d0, d1), Second(d1, d2), Third(d2, d3));
      && 0 <= a < 256 && 0 <= b < 256 && 0 <= c < 256
      && Six(Group(a, b, c), 0) == d0 && Six(Group(a, b, c), 1) == d1
      && Six(Group(a, b, c), 2) == d2 && Six(Group(a, b, c), 3) == d3
  {
    GroupDigits(d0, d1 / 16, d1 % 16, d2 / 4, d2 % 4, d3);
    hide Six;
  }

  lemma NoStrayBits(d1: int, d2: int)
    ensures d1 % 16 == 0 && d2 == 0 ==> Second(d1, d2) == 0
    ensures d2 % 4 == 0 ==> Third(d2, 0) == 0
  {}

  /** What the strict decoder accepts is the encoding of what it returns. */
  lemma {:induction false} EncodeDecode(t: bytes)
    requires Decoded(t).Some?
    ensures Encoded(Decoded(t).value) == t
  {
    hide Letter, Digit, Six, Group, First, Second, Third;
    if |t| == 0 {
    } else {
      var (d0, d1) := (Digit(t[0]).value, Digit(t[1]).value);
      DigitLetter(t[0]);
      DigitLetter(t[1]);
      if t[2] == PAD {
        DigitsGroup(d0, d1, 0, 0);
        NoStrayBits(d1, 0);
      } else {
        var d2 := Digit(t[2]).value;
        DigitLetter(t[2]);
        if t[3] == PAD {
          DigitsGroup(d0, d1, d2, 0);
          NoStrayBits(d1, d2);
        } else {
          DigitLetter(t[3]);
          DigitsGroup(d0, d1, d2, Digit(t[3]).value);
          EncodeDecode(t[4..]);
          var s := Decoded(t).value;
          assert s[3..] == Decoded(t[4..]).value;
          assert t == [t[0], t[1], t[2], t[3]] + t[4..];
        }
      }
    }
  }

  // ---------------------------------------------------------------- the code

  lemma EncodedGroup(s: bytes, i: nat)
    requires i + 2 < |s|
    ensures Encoded(s[i..]) == Quad(Group(s[i], s[i + 1], s[i + 2])) + Encoded(s[i + 3..])
  {
    assert s[i..][3..] == s[i + 3..];
  }

  lemma EncodedOne(s: bytes, i: nat)
    requires i + 1 == |s|
    ensures var n := Group(s[i], 0, 0);
      Encoded(s[i..]) == [Letter(Six(n, 0))] + [Letter(Six(n, 1))] + [PAD] + [PAD]
  {}

  lemma EncodedTwo(s: bytes, i: nat)
    requires i + 2 == |s|
    ensures var n := Group(s[i], s[i + 1], 0);
      Encoded(s[i..]) == [Letter(Six(n, 0))] + [Letter(Six(n, 1))] + [Letter(Six(n, 2))] + [PAD]
  {}

  lemma EncodedNone(s: bytes, i: nat)
    requires i <= |s|
    ensures i == |s| ==> Encoded(s[i..]) == []
  {}

  method AppendBase64(dst: bytes, s: bytes) returns (r: bytes)
    ensures r == dst + Encoded(s)
  {
    hide Letter, Six, Encoded;
    r := dst;
    var i := 0;
    assert s[0..] == s;
    while i + 2 < |s|
      invariant 0 <= i <= |s| && r + Encoded(s[i..]) == dst + Encoded(s)
    {
      var n := Group(s[i], s[i + 1], s[i + 2]);
      EncodedGroup(s, i);
      Rebracket(r, Quad(n), Encoded(s[i + 3..]));
      r := r + [Letter(Six(n, 0))] + [Letter(Six(n, 1))] + [Letter(Six(n, 2))] + [Letter(Six(n, 3))];
      i := i + 3;
    }
    EncodedNone(s, i);
    if |s| - i == 1 {
      var n: int := s[i] as int * 0x1_0000;
      EncodedOne(s, i);
      r := r + [Letter(Six(n, 0))] + [Letter(Six(n, 1))] + [PAD] + [PAD];
    } else if |s| - i == 2 {
      var n: int := s[i] as int * 0x1_0000 + s[i + 1] as int * 0x100;
      EncodedTwo(s, i);
      r := r + [Letter(Six(n, 0))] + [Letter(Six(n, 1))] + [Letter(Six(n, 2))] + [PAD];
    }
  }

  // ---------------------------------------------------------------- table and examples

  /** Table 1 of RFC 4648: the capitals, the small letters, the digits, plus and slash. */
  lemma Alphabet(d: int)
    requires 0 <= d < 64
    ensures Letter(d) as int ==
      if d < 26 then 'A' as int + d else if d < 52 then 'a' as int + d - 26
      else if d < 62 then '0' as int + d - 52 else if d == 62 then '+' as int else '/' as int
  {}

  /** Section 10 of RFC 4648: f, fo, foo. */
  lemma Examples()
    ensures Encoded([0x66]) == [0x5A, 0x67, PAD, PAD]
    ensures Encoded([0x66, 0x6F]) == [0x5A, 0x6D, 0x38, PAD]
    ensures Encoded([0x66, 0x6F, 0x6F]) == [0x5A, 0x6D, 0x39, 0x76]
  {
    var foo: bytes := [0x66, 0x6F, 0x6F];
    assert foo[3..] == [];
  }
}
