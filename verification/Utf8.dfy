/**
  UTF-8 as RFC 3629 defines it: the well-formed sequences of section 4, the code points of section 3,
  and Go's decoder on top, which reads one byte of U+FFFD wherever no sequence is well-formed.
 */
module Utf8 {
  import opened Prelude

  const RUNE_ERROR := 0xFFFD

  predicate Tail(b: byte) { 0x80 <= b <= 0xBF }

  /** Length of the well-formed sequence that begins s, 0 if there is none. */
  function RuneLen(s: bytes): (n: nat)
    ensures n <= 4 && n <= |s|
  {
    if |s| == 0 then 0
    else if s[0] <= 0x7F then 1
    else if |s| >= 2 && 0xC2 <= s[0] <= 0xDF && Tail(s[1]) then 2
    else if |s| >= 3 && Tail(s[2]) && (
      || (s[0] == 0xE0 && 0xA0 <= s[1] <= 0xBF)
      || (0xE1 <= s[0] <= 0xEC && Tail(s[1]))
      || (s[0] == 0xED && 0x80 <= s[1] <= 0x9F)
      || (0xEE <= s[0] <= 0xEF && Tail(s[1]))) then 3
    else if |s| >= 4 && Tail(s[2]) && Tail(s[3]) && (
      || (s[0] == 0xF0 && 0x90 <= s[1] <= 0xBF)
      || (0xF1 <= s[0] <= 0xF3 && Tail(s[1]))
      || (s[0] == 0xF4 && 0x80 <= s[1] <= 0x8F)) then 4
    else 0
  }

  /** Six more bits, as every tail byte contributes. */
  function Payload(high: int, six: int): int { high * 0x40 + six }

  lemma PayloadParts(high: int, six: int)
    requires 0 <= six < 0x40
    ensures Payload(high, six) / 0x40 == high && Payload(high, six) % 0x40 == six
  {}

  function CodePoint(s: bytes): (r: int)
    requires RuneLen(s) > 0
  {
    match RuneLen(s)
    case 1 => s[0]
    case 2 => Payload(s[0] as int - 0xC0, s[1] as int - 0x80)
    case 3 => Payload(Payload(s[0] as int - 0xE0, s[1] as int - 0x80), s[2] as int - 0x80)
    case _ => Payload(Payload(Payload(s[0] as int - 0xF0, s[1] as int - 0x80), s[2] as int - 0x80), s[3] as int - 0x80)
  }

  /** `utf8.DecodeRuneInString` */
  function DecodeRune(s: bytes): (r: (int, nat))
    ensures |s| > 0 ==> 1 <= r.1 <= |s|
  {
    if |s| == 0 then (RUNE_ERROR, 0)
    else if RuneLen(s) == 0 then (RUNE_ERROR, 1)
    else (CodePoint(s), RuneLen(s))
  }

  predicate ScalarValue(r: int) { 0 <= r <= 0x10FFFF && !(0xD800 <= r <= 0xDFFF) }

  /** The encoding of section 3 of RFC 3629. */
  function EncodeRune(r: int): (s: bytes)
    requires ScalarValue(r)
    ensures 1 <= |s| <= 4
  {
    if r < 0x80 then [r]
    else if r < 0x800 then [0xC0 + r / 0x40, 0x80 + r % 0x40]
    else if r < 0x10000 then [0xE0 + r / 0x40 / 0x40, 0x80 + r / 0x40 % 0x40, 0x80 + r % 0x40]
    else [0xF0 + r / 0x40 / 0x40 / 0x40, 0x80 + r / 0x40 / 0x40 % 0x40, 0x80 + r / 0x40 % 0x40, 0x80 + r % 0x40]
  }

  /** Decoding undoes encoding, whatever follows. */
  lemma DecodeEncode(r: int, rest: bytes)
    requires ScalarValue(r)
    ensures RuneLen(EncodeRune(r) + rest) == |EncodeRune(r)|
    ensures CodePoint(EncodeRune(r) + rest) == r
  {
    var e := EncodeRune(r);
    var s := e + rest;
    assert s[0] == e[0];
    if |e| > 1 { assert s[1] == e[1]; }
    if |e| > 2 { assert s[2] == e[2]; }
    if |e| > 3 { assert s[3] == e[3]; }
  }

  lemma EncodeDecode3(s: bytes)
    requires RuneLen(s) == 3
    ensures ScalarValue(CodePoint(s)) && EncodeRune(CodePoint(s)) == [s[0], s[1], s[2]]
  {
    var high := Payload(s[0] as int - 0xE0, s[1] as int - 0x80);
    PayloadParts(s[0] as int - 0xE0, s[1] as int - 0x80);
    PayloadParts(high, s[2] as int - 0x80);
  }

  lemma EncodeDecode4(s: bytes)
    requires RuneLen(s) == 4
    ensures ScalarValue(CodePoint(s)) && EncodeRune(CodePoint(s)) == [s[0], s[1], s[2], s[3]]
  {
    var top := Payload(s[0] as int - 0xF0, s[1] as int - 0x80);
    var high := Payload(top, s[2] as int - 0x80);
    PayloadParts(s[0] as int - 0xF0, s[1] as int - 0x80);
    PayloadParts(top, s[2] as int - 0x80);
    PayloadParts(high, s[3] as int - 0x80);
  }

  /** A well-formed sequence is the encoding of its code point: there are no two ways to write one. */
  lemma EncodeDecode(s: bytes)
    requires RuneLen(s) > 0
    ensures ScalarValue(CodePoint(s)) && EncodeRune(CodePoint(s)) == s[..RuneLen(s)]
  {
    if RuneLen(s) == 2 {
      PayloadParts(s[0] as int - 0xC0, s[1] as int - 0x80);
    } else if RuneLen(s) == 3 {
      EncodeDecode3(s);
    } else if RuneLen(s) == 4 {
      EncodeDecode4(s);
    }
  }

  predicate Valid(s: bytes)
  {
    |s| == 0 || (RuneLen(s) > 0 && Valid(s[RuneLen(s)..]))
  }

  /** A correctly encoded U+FFFD begins s. */
  predicate ReplacementAhead(s: bytes) { RuneLen(s) > 0 && CodePoint(s) == RUNE_ERROR }

  /** A sequence is recognised by its own bytes, whatever follows it. */
  lemma RuneHead(s: bytes, rest: bytes)
    requires RuneLen(s) > 0
    ensures RuneLen(s[..RuneLen(s)] + rest) == RuneLen(s)
    ensures CodePoint(s[..RuneLen(s)] + rest) == CodePoint(s)
    ensures (s[..RuneLen(s)] + rest)[RuneLen(s)..] == rest
  {
    var t := s[..RuneLen(s)] + rest;
    assert forall i :: 0 <= i < RuneLen(s) ==> t[i] == s[i];
  }

  /** The bytes of U+FFFD. */
  const REPLACEMENT: bytes := [0xEF, 0xBF, 0xBD]

  /** s with every byte that begins no well-formed sequence replaced by U+FFFD. */
  function Sanitised(s: bytes): bytes
    decreases |s|
  {
    if |s| == 0 then []
    else if RuneLen(s) == 0 then REPLACEMENT + Sanitised(s[1..])
    else s[..RuneLen(s)] + Sanitised(s[RuneLen(s)..])
  }

  lemma ReplacementValid(rest: bytes)
    requires Valid(rest)
    ensures Valid(REPLACEMENT + rest)
  {
    RuneHead(REPLACEMENT, rest);
    assert REPLACEMENT[..3] == REPLACEMENT;
  }

  lemma {:induction false} SanitisedValid(s: bytes)
    ensures Valid(Sanitised(s)) && (Valid(s) ==> Sanitised(s) == s)
    decreases |s|
  {
    if |s| == 0 {
    } else if RuneLen(s) == 0 {
      SanitisedValid(s[1..]);
      ReplacementValid(Sanitised(s[1..]));
      hide RuneLen;
    } else {
      var n := RuneLen(s);
      hide RuneLen, CodePoint;
      SanitisedValid(s[n..]);
      RuneHead(s, Sanitised(s[n..]));
      assert s == s[..n] + s[n..];
    }
  }

  /** The examples of section 7 of RFC 3629, and what is no UTF-8: an overlong form, a surrogate, too large a number. */
  lemma Examples()
    ensures EncodeRune(0xA2) == [0xC2, 0xA2] && EncodeRune(0x20AC) == [0xE2, 0x82, 0xAC]
    ensures EncodeRune(0x10348) == [0xF0, 0x90, 0x8D, 0x88] && EncodeRune(0x24) == [0x24]
    ensures RuneLen([0xC0, 0x80]) == 0 && RuneLen([0xED, 0xA0, 0x80]) == 0 && RuneLen([0xF4, 0x90, 0x80, 0x80]) == 0
  {}
}
