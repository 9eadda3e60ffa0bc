/** JSON string literals, as section 7 of RFC 8259 defines them. */
module JsonString {
  import opened Prelude
  import opened Utf8

  const QUOTE := 34
  const BACKSLASH := 92
  const LOWER_U := 117

  function HexDigit(d: int): (c: byte)
    requires 0 <= d < 16
  {
    if d < 10 then 48 + d else 87 + d
  }

  /** Either case of a letter is allowed. */
  function HexValue(c: byte): Option<int>
  {
    if 48 <= c <= 57 then Some(c - 48) else if 97 <= c <= 102 then Some(c - 87)
    else if 65 <= c <= 70 then Some(c - 55) else None
  }

  /** An ASCII character, escaped if it has to be. */
  function EscapedAscii(c: byte): bytes
    requires c < 0x80
  {
    if c == BACKSLASH || c == QUOTE then [BACKSLASH, c]
    else if c >= 0x20 then [c]
    else if c == 8 then [BACKSLASH, 98]
    else if c == 12 then [BACKSLASH, 102]
    else if c == 10 then [BACKSLASH, 110]
    else if c == 13 then [BACKSLASH, 114]
    else if c == 9 then [BACKSLASH, 116]
    else [BACKSLASH, LOWER_U, 48, 48, HexDigit(c / 16), HexDigit(c % 16)]
  }

  predicate Separator(s: bytes) { RuneLen(s) > 0 && (CodePoint(s) == 0x2028 || CodePoint(s) == 0x2029) }

  const UFFFD: bytes := [BACKSLASH, LOWER_U, 102, 102, 102, 100]

  /** The escape of the first rune of s, for which n bytes are read. */
  function EscapedRune(s: bytes): (r: (bytes, nat))
    requires |s| > 0
    ensures 1 <= r.1 <= |s|
  {
    if s[0] < 0x80 then (EscapedAscii(s[0]), 1)
    else if RuneLen(s) == 0 then (UFFFD, 1)
    else if Separator(s) then
      ([BACKSLASH, LOWER_U, 50, 48, 50, HexDigit(CodePoint(s) % 16)], RuneLen(s))
    else (s[..RuneLen(s)], RuneLen(s))
  }

  function Escaped(s: bytes): bytes
  {
    if |s| == 0 then [] else EscapedRune(s).0 + Escaped(s[EscapedRune(s).1..])
  }

  function Quoted(s: bytes): bytes { [QUOTE] + Escaped(s) + [QUOTE] }

  // ---------------------------------------------------------------- the reader

  /** Four hexadecimal digits from position i on. */
  function Hex4(t: bytes, i: nat): Option<int>
  {
    if |t| < i + 4 then None else
    match (HexValue(t[i]), HexValue(t[i + 1]), HexValue(t[i + 2]), HexValue(t[i + 3]))
    case (Some(a), Some(b), Some(c), Some(d)) => Some(a * 0x1000 + b * 0x100 + c * 0x10 + d)
    case _ => None
  }

  function SimpleEscape(c: byte): Option<byte>
  {
    if c == QUOTE || c == BACKSLASH || c == 47 then Some(c)
    else if c == 98 then Some(8) else if c == 102 then Some(12) else if c == 110 then Some(10)
    else if c == 114 then Some(13) else if c == 116 then Some(9) else None
  }

  /** One character of a string literal: its UTF-8 bytes and how much of t it takes. */
  function ReadChar(t: bytes): (r: Option<(bytes, nat)>)
    requires |t| > 0
    ensures r.Some? ==> 1 <= r.value.1 <= |t|
  {
    if t[0] == BACKSLASH then
      if |t| < 2 then None
      else if t[1] == LOWER_U then ReadUnicode(t)
      else if SimpleEscape(t[1]).Some? then Some(([SimpleEscape(t[1]).value], 2))
      else None
    else if t[0] == QUOTE || t[0] < 0x20 || RuneLen(t) == 0 then None
    else Some((t[..RuneLen(t)], RuneLen(t)))
  }

  /** `\\uXXXX`, or two of them for a surrogate pair. */
  function ReadUnicode(t: bytes): (r: Option<(bytes, nat)>)
    ensures r.Some? ==> 1 <= r.value.1 <= |t|
  {
    match Hex4(t, 2)
    case None => None
    case Some(high) =>
      if ScalarValue(high) then Some((EncodeRune(high), 6))
      else if high < 0xDC00 && |t| >= 12 && t[6] == BACKSLASH && t[7] == LOWER_U then
        match Hex4(t, 8)
        case None => None
        case Some(low) =>
          if 0xDC00 <= low < 0xE000 && 0xD800 <= high then
            Some((EncodeRune(0x1_0000 + (high - 0xD800) * 0x400 + (low - 0xDC00)), 12))
          else None
      else None
  }

  function Unescaped(t: bytes): Option<bytes>
  {
    if |t| == 0 then Some([]) else
    var first := ReadChar(t);
    if first.None? then None else
    var rest := Unescaped(t[first.value.1..]);
    if rest.None? then None else Some(first.value.0 + rest.value)
  }

  /** The content of a string literal. */
  function Parsed(q: bytes): Option<bytes>
  {
    if |q| < 2 || q[0] != QUOTE || q[|q| - 1] != QUOTE then None else Unescaped(q[1..|q| - 1])
  }

  // ---------------------------------------------------------------- reading undoes writing

  lemma ReadAscii(c: byte, rest: bytes)
    requires c < 0x80
    ensures var e := EscapedAscii(c); ReadChar(e + rest) == Some(([c], |e|))
  {
    var e := EscapedAscii(c);
    var t := e + rest;
    assert t[0] == e[0];
    if |e| >= 2 { assert t[1] == e[1]; }
    if |e| == 6 {
      assert t[2] == e[2] && t[3] == e[3] && t[4] == e[4] && t[5] == e[5];
      assert Hex4(t, 2) == Some(c as int);
    } else if |e| == 1 {
      assert t[..1] == [c];
    }
  }

  lemma ReadReplacement(rest: bytes)
    ensures ReadChar(UFFFD + rest) == Some((REPLACEMENT, 6))
  {
    var t := UFFFD + rest;
    assert t[0] == UFFFD[0] && t[1] == UFFFD[1] && t[2] == UFFFD[2];
    assert t[3] == UFFFD[3] && t[4] == UFFFD[4] && t[5] == UFFFD[5];
    assert Hex4(t, 2) == Some(0xFFFD);
    assert 0xFFFD / 0x40 == 0x3FF && 0x3FF / 0x40 == 0xF;
  }

  lemma ReadSeparator(s: bytes, rest: bytes)
    requires Separator(s)
    ensures ReadChar(EscapedRune(s).0 + rest) == Some((s[..RuneLen(s)], 6)) && |EscapedRune(s).0| == 6
  {
    EncodeDecode(s);
    var (e, p) := (EscapedRune(s).0, CodePoint(s));
    var t := e + rest;
    assert t[0] == e[0] && t[1] == e[1] && t[2] == e[2] && t[3] == e[3] && t[4] == e[4] && t[5] == e[5];
    hide CodePoint, RuneLen, EncodeRune;
    assert Hex4(t, 2) == Some(p);
  }

  lemma ReadPlain(s: bytes, rest: bytes)
    requires RuneLen(s) > 0 && s[0] >= 0x80
    ensures ReadChar(s[..RuneLen(s)] + rest) == Some((s[..RuneLen(s)], RuneLen(s)))
  {
    RuneHead(s, rest);
    var t := s[..RuneLen(s)] + rest;
    assert t[0] == s[0] && t[..RuneLen(s)] == s[..RuneLen(s)];
  }

  /** The first character read back is the first rune, or U+FFFD for an invalid byte. */
  lemma ReadEscaped(s: bytes, rest: bytes)
    requires |s| > 0
    ensures var (e, n) := EscapedRune(s);
      ReadChar(e + rest) == Some((if RuneLen(s) == 0 then REPLACEMENT else s[..n], |e|))
      && (RuneLen(s) > 0 ==> n == RuneLen(s))
  {
    if s[0] < 0x80 {
      ReadAscii(s[0], rest);
      assert s[..1] == [s[0]];
    } else if RuneLen(s) == 0 {
      ReadReplacement(rest);
    } else if Separator(s) {
      ReadSeparator(s, rest);
    } else {
      ReadPlain(s, rest);
    }
  }

  lemma {:induction false} UnescapeEscaped(s: bytes)
    ensures Unescaped(Escaped(s)) == Some(Sanitised(s))
    decreases |s|
  {
    if |s| == 0 {
    } else {
      var (e, n) := EscapedRune(s);
      var rest := Escaped(s[n..]);
      UnescapeEscaped(s[n..]);
      ReadEscaped(s, rest);
      hide EscapedRune, ReadChar, RuneLen;
      assert (e + rest)[|e|..] == rest && |e + rest| > 0;
    }
  }

  /** Reading undoes writing: on valid UTF-8 exactly, on other strings up to U+FFFD for invalid bytes. */
  lemma ParseQuoted(s: bytes)
    ensures Parsed(Quoted(s)) == Some(Sanitised(s))
    ensures Valid(s) ==> Parsed(Quoted(s)) == Some(s)
  {
    UnescapeEscaped(s);
    SanitisedValid(s);
    var q := Quoted(s);
    hide Escaped, Unescaped, Sanitised, Valid;
    assert q[1..|q| - 1] == Escaped(s) && q[|q| - 1] == QUOTE;
  }

  // ---------------------------------------------------------------- the code

  /** Bytes from start up to i are copied in one piece when an escape is due. */
  ghost predicate Copying(dst: bytes, s: bytes, start: nat, i: nat, whole: bytes)
  {
    start <= i <= |s| && dst + s[start..i] + Escaped(s[i..]) == whole
  }

  lemma CopyPlain(dst: bytes, s: bytes, start: nat, i: nat, whole: bytes, n: nat)
    requires Copying(dst, s, start, i, whole) && i < |s| && i + n <= |s|
    requires EscapedRune(s[i..]) == (s[i..i + n], n)
    ensures Copying(dst, s, start, i + n, whole)
  {
    hide EscapedRune;
    var rest := Escaped(s[i + n..]);
    assert s[i..][n..] == s[i + n..];
    assert s[start..i + n] == s[start..i] + s[i..i + n];
    Rebracket(dst + s[start..i], s[i..i + n], rest);
    Rebracket(dst, s[start..i], s[i..i + n]);
  }

  lemma CopyEscape(dst: bytes, s: bytes, start: nat, i: nat, whole: bytes)
    requires Copying(dst, s, start, i, whole) && i < |s|
    ensures var (e, n) := EscapedRune(s[i..]);
      Copying(dst + s[start..i] + e, s, i + n, i + n, whole)
  {
    hide EscapedRune;
    var (e, n) := EscapedRune(s[i..]);
    assert s[i..][n..] == s[i + n..] && s[i + n..i + n] == [];
    Rebracket(dst + s[start..i], e, Escaped(s[i + n..]));
    assert dst + s[start..i] + e + [] == dst + s[start..i] + e;
  }

  method AppendJSONString(dst: bytes, s: bytes) returns (r: bytes)
    ensures r == dst + Quoted(s)
  {
    hide Escaped, EscapedRune, RuneLen, CodePoint;
    r := dst + [QUOTE];
    var start: nat, i: nat := 0, 0;
    assert s[0..] == s && s[0..0] == [] && r + [] == r;
    while i < |s|
      invariant Copying(r, s, start, i, dst + [QUOTE] + Escaped(s))
    {
      RuneCases(s, i);
      var c := s[i];
      var (rune, size) := DecodeRune(s[i..]);
      if c < 0x80 && c >= 0x20 && c != BACKSLASH && c != QUOTE {
        CopyPlain(r, s, start, i, dst + [QUOTE] + Escaped(s), 1);
        i := i + 1;
      } else if c < 0x80 || (rune == RUNE_ERROR && size == 1) || rune == 0x2028 || rune == 0x2029 {
        CopyEscape(r, s, start, i, dst + [QUOTE] + Escaped(s));
        var e, n := EscapeAt(s, i, rune, size);
        if start < i { r := r + s[start..i]; } else { assert r + s[start..i] == r; }
        r := r + e;
        i := i + n;
        start := i;
      } else {
        CopyPlain(r, s, start, i, dst + [QUOTE] + Escaped(s), size);
        i := i + size;
      }
    }
    EscapedNone(s);
    assert s[start..i] == s[start..] && r + s[start..] + [] == r + s[start..];
    Rebracket(dst + [QUOTE], Escaped(s), [QUOTE]);
    Rebracket(dst, [QUOTE], Escaped(s));
    Rebracket(dst, [QUOTE] + Escaped(s), [QUOTE]);
    if start < |s| { r := r + s[start..]; } else { assert r + s[start..] == r; }
    r := r + [QUOTE];
  }

  lemma EscapedNone(s: bytes)
    ensures Escaped(s[|s|..]) == []
  {}

  /** The three cases of the loop. */
  lemma RuneCases(s: bytes, i: nat)
    requires i < |s|
    ensures var (c, rune, size) := (s[i], DecodeRune(s[i..]).0, DecodeRune(s[i..]).1);
      && 1 <= size <= |s| - i
      && (c < 0x80 && c >= 0x20 && c != BACKSLASH && c != QUOTE ==> EscapedRune(s[i..]) == (s[i..i + 1], 1))
      && (c >= 0x80 && !(rune == RUNE_ERROR && size == 1) && rune != 0x2028 && rune != 0x2029 ==>
        EscapedRune(s[i..]) == (s[i..i + size], size))
  {
    var t := s[i..];
    assert t[0] == s[i] && s[i..i + 1] == [s[i]];
    assert t[..DecodeRune(t).1] == s[i..i + DecodeRune(t).1];
  }

  /** The escapes, case by case. */
  method EscapeAt(s: bytes, i: nat, rune: int, size: nat) returns (e: bytes, n: nat)
    requires i < |s| && (rune, size) == DecodeRune(s[i..])
    requires s[i] < 0x80 || (rune == RUNE_ERROR && size == 1) || rune == 0x2028 || rune == 0x2029
    requires s[i] < 0x80 ==> s[i] < 0x20 || s[i] == BACKSLASH || s[i] == QUOTE
    ensures (e, n) == EscapedRune(s[i..])
  {
    var c := s[i];
    if c < 0x80 {
      if c == BACKSLASH || c == QUOTE { return [BACKSLASH, c], 1; }
      else if c == 8 { return [BACKSLASH, 98], 1; }
      else if c == 12 { return [BACKSLASH, 102], 1; }
      else if c == 10 { return [BACKSLASH, 110], 1; }
      else if c == 13 { return [BACKSLASH, 114], 1; }
      else if c == 9 { return [BACKSLASH, 116], 1; }
      e, n := [BACKSLASH, LOWER_U, 48, 48] + [HexDigit(c / 16)] + [HexDigit(c % 16)], 1;
      assert e == [BACKSLASH, LOWER_U, 48, 48, HexDigit(c / 16), HexDigit(c % 16)];
      return;
    }
    if rune == RUNE_ERROR && size == 1 { return UFFFD, 1; }
    e, n := [BACKSLASH, LOWER_U, 50, 48, 50] + [HexDigit(rune % 16)], size;
    assert Separator(s[i..]) && e == [BACKSLASH, LOWER_U, 50, 48, 50, HexDigit(rune % 16)];
  }

  // ---------------------------------------------------------------- the escapes

  /** Seven characters have short escapes, the other controls are written as numbers, the rest as they are. */
  lemma AsciiEscapes(c: byte)
    requires c < 0x80
    ensures EscapedAscii(0x22) == [0x5C, 0x22] && EscapedAscii(0x5C) == [0x5C, 0x5C]
    ensures EscapedAscii(0x08) == [0x5C, 0x62] && EscapedAscii(0x0C) == [0x5C, 0x66]
    ensures EscapedAscii(0x0A) == [0x5C, 0x6E] && EscapedAscii(0x0D) == [0x5C, 0x72]
    ensures EscapedAscii(0x09) == [0x5C, 0x74]
    ensures c >= 0x20 && c != 0x22 && c != 0x5C ==> EscapedAscii(c) == [c]
    ensures c < 0x20 && c !in {0x08, 0x09, 0x0A, 0x0C, 0x0D} ==>
      EscapedAscii(c) == [0x5C, 0x75, 0x30, 0x30, HexDigit(c / 16), HexDigit(c % 16)]
  {}

  /** The line and paragraph separators and an invalid byte, as numbers in lower case. */
  lemma OtherEscapes()
    ensures Escaped([0xE2, 0x80, 0xA8]) == [0x5C, 0x75, 0x32, 0x30, 0x32, 0x38]
    ensures Escaped([0xE2, 0x80, 0xA9]) == [0x5C, 0x75, 0x32, 0x30, 0x32, 0x39]
    ensures Escaped([0xFF]) == [0x5C, 0x75, 0x66, 0x66, 0x66, 0x64] && Escaped([0xC3, 0xA9]) == [0xC3, 0xA9]
  {
    var a, b, x, e: bytes := [0xE2, 0x80, 0xA8], [0xE2, 0x80, 0xA9], [0xFF], [0xC3, 0xA9];
    assert a[3..] == [] && b[3..] == [] && x[1..] == [] && e[2..] == [] && e[..2] == e;
    assert CodePoint(a) == 0x2028 && CodePoint(b) == 0x2029 && CodePoint(e) == 0xE9;
    assert EscapedRune(a) == ([0x5C, 0x75, 0x32, 0x30, 0x32, 0x38], 3);
    assert EscapedRune(b) == ([0x5C, 0x75, 0x32, 0x30, 0x32, 0x39], 3);
  }
}
