/**
  UTF-8 aware truncation of strings, and its recursive application to attribute values behind a
  check that skips values which need no work.
 */
module Truncate {
  import opened Prelude
  import opened AttrValue
  import opened Utf8
  import AttrNorm

  // ---------------------------------------------------------------- reference vocabulary

  /** The first n well-formed sequences of s, invalid bytes left out. */
  function FirstValid(n: nat, s: bytes): bytes
    decreases |s|
  {
    if n == 0 || |s| == 0 then []
    else if RuneLen(s) == 0 then FirstValid(n, s[1..])
    else s[..RuneLen(s)] + FirstValid(n - 1, s[RuneLen(s)..])
  }

  /** How many well-formed sequences s holds. */
  function ValidRunes(s: bytes): nat
    decreases |s|
  {
    if |s| == 0 then 0
    else if RuneLen(s) == 0 then ValidRunes(s[1..])
    else 1 + ValidRunes(s[RuneLen(s)..])
  }

  /** How many of them are not U+FFFD. */
  function Counted(s: bytes): nat
    decreases |s|
  {
    if |s| == 0 then 0
    else if RuneLen(s) == 0 then Counted(s[1..])
    else (if ReplacementAhead(s) then 0 else 1) + Counted(s[RuneLen(s)..])
  }

  /** `utf8.RuneCountInString`: an invalid byte counts as one rune. */
  function RuneCount(s: bytes): nat
    decreases |s|
  {
    if |s| == 0 then 0 else 1 + RuneCount(s[DecodeRune(s).1..])
  }

  /** Encoded U+FFFD met before the first invalid byte and before rune number limit + 1 of the others. */
  function Skipped(limit: nat, s: bytes): nat
    decreases |s|
  {
    if |s| == 0 || RuneLen(s) == 0 then 0
    else if ReplacementAhead(s) then 1 + Skipped(limit, s[3..])
    else if limit == 0 then 0
    else Skipped(limit - 1, s[RuneLen(s)..])
  }

  /** The first limit sequences of s, and the U+FFFD that went uncounted among them. */
  function Kept(limit: nat, s: bytes): bytes { FirstValid(limit + Skipped(limit, s), s) }

  /**
    What `truncate` returns.  Encoded U+FFFD do not count towards the limit until an invalid byte has
    been seen, and a lone invalid byte comes back unchanged when the limit is 0.
   */
  function Truncated(limit: int, s: bytes): bytes
  {
    if limit < 0 || |s| <= limit || (|s| == 1 && !Valid(s)) then s else Kept(limit, s)
  }

  // ---------------------------------------------------------------- the code

  lemma KeptStep(m: nat, s: bytes)
    requires RuneLen(s) > 0
    ensures ReplacementAhead(s) ==> Kept(m, s) == s[..RuneLen(s)] + Kept(m, s[RuneLen(s)..])
    ensures !ReplacementAhead(s) && m > 0 ==> Kept(m, s) == s[..RuneLen(s)] + Kept(m - 1, s[RuneLen(s)..])
    ensures !ReplacementAhead(s) && m == 0 ==> Kept(m, s) == []
  {}

  lemma KeptStop(m: nat, s: bytes)
    requires RuneLen(s) == 0
    ensures Kept(m, s) == FirstValid(m, s)
  {}

  lemma SingleRune(s: bytes)
    requires |s| == 1
    ensures Valid(s) <==> RuneLen(s) > 0
  {}

  /** The first loop of `truncate` at index i: whatever will be kept begins with s[..i]. */
  ghost predicate Scanning(limit: nat, s: bytes, i: int, count: int)
  {
    0 <= i <= |s| && 0 <= count <= limit && Kept(limit, s) == s[..i] + Kept(limit - count, s[i..])
  }

  /** What `DecodeRune` tells the loop. */
  lemma RuneAhead(s: bytes)
    requires |s| > 0
    ensures var (c, size) := DecodeRune(s);
      && (c == RUNE_ERROR && size == 1 <==> RuneLen(s) == 0)
      && (c == RUNE_ERROR && size != 1 <==> ReplacementAhead(s))
      && (RuneLen(s) > 0 ==> size == RuneLen(s))
  {
    assert RuneLen(s) == 1 ==> CodePoint(s) == s[0];
    hide RuneLen, CodePoint;
  }

  lemma Onward(s: bytes, i: nat, size: nat, rest: bytes)
    requires i + size <= |s|
    ensures s[..i] + (s[i..][..size] + rest) == s[..i + size] + rest
    ensures s[i..][size..] == s[i + size..]
  {
    assert s[..i] + s[i..][..size] == s[..i + size];
    Rebracket(s[..i], s[i..][..size], rest);
  }

  lemma ScanningStep(limit: nat, s: bytes, i: nat, count: nat)
    requires Scanning(limit, s, i, count) && i < |s|
    ensures var (c, size) := DecodeRune(s[i..]);
      && i + size <= |s|
      && (c != RUNE_ERROR && count < limit ==> Scanning(limit, s, i + size, count + 1))
      && (c != RUNE_ERROR && count == limit ==> Kept(limit, s) == s[..i])
      && (c == RUNE_ERROR && size != 1 ==> Scanning(limit, s, i + size, count))
      && (c == RUNE_ERROR && size == 1 ==> Kept(limit, s) == s[..i] + FirstValid(limit - count, s[i..]))
      && (|s| == 1 ==> (Valid(s) <==> !(c == RUNE_ERROR && size == 1)))
  {
    var tail := s[i..];
    var size := DecodeRune(tail).1;
    if |s| == 1 { assert tail == s; SingleRune(s); }
    RuneAhead(tail);
    hide RuneLen, CodePoint, DecodeRune, ReplacementAhead, Valid, Kept, FirstValid;
    if RuneLen(tail) > 0 {
      KeptStep(limit - count, tail);
      Onward(s, i, size, Kept(limit - count, tail[size..]));
      if count < limit {
        Onward(s, i, size, Kept(limit - count - 1, tail[size..]));
      } else {
        assert s[..i] + [] == s[..i];
      }
    } else {
      KeptStop(limit - count, tail);
    }
  }

  method TruncateString(limit: int, s: bytes) returns (r: bytes)
    ensures r == Truncated(limit, s)
  {
    if limit < 0 || |s| <= limit { return s; }
    var b: bytes, grown, rest := [], false, s;
    var count, i := 0, 0;
    assert s[0..] == s;
    while i < |s|
      invariant Scanning(limit, s, i, count)
      invariant |s| == 1 && i == |s| ==> Valid(s)
      invariant b == [] && !grown && rest == s
    {
      ScanningStep(limit, s, i, count);
      var (c, size) := DecodeRune(s[i..]);
      if c != RUNE_ERROR {
        count := count + 1;
        if count > limit { return s[..i]; }
      } else if size == 1 {
        // The builder grows by |s| - 1 bytes and takes i; it stays without storage when both are 0.
        grown := |s| - 1 + i > 0;
        b := s[..i];
        rest := s[i..];
        break;
      }
      i := i + size;
    }
    if !grown { return rest; }
    r := CopyValid(limit, count, b, rest);
  }

  /** What the second loop of `truncate` has still to write at index i. */
  function Todo(left: nat, s: bytes, i: nat): bytes
    requires i <= |s|
  {
    FirstValid(left, s[i..])
  }

  function RuneSize(s: bytes, i: nat): (size: nat)
    requires i < |s|
    ensures 1 <= size <= |s| - i
  {
    DecodeRune(s[i..]).1
  }

  /** One character: where the loop goes next, and that what it writes is the start of what is due. */
  lemma TodoStep(want: bytes, b: bytes, left: nat, s: bytes, i: nat)
    requires left > 0 && i < |s| && want == b + Todo(left, s, i)
    ensures s[i] < 0x80 ==> want == (b + [s[i]]) + Todo(left - 1, s, i + 1)
    ensures s[i] >= 0x80 && RuneSize(s, i) == 1 ==> want == b + Todo(left, s, i + 1)
    ensures s[i] >= 0x80 && RuneSize(s, i) != 1 ==>
      want == (b + s[i..i + RuneSize(s, i)]) + Todo(left - 1, s, i + RuneSize(s, i))
  {
    var tail, size := s[i..], RuneSize(s, i);
    assert tail[size..] == s[i + size..] && tail[..size] == s[i..i + size];
    if RuneLen(tail) > 0 {
      assert size == RuneLen(tail);
      assert s[i] < 0x80 ==> s[i..i + size] == [s[i]];
      Rebracket(b, s[i..i + size], Todo(left - 1, s, i + size));
    }
  }

  /** Copy what is valid until limit runes have been counted. */
  method CopyValid(limit: nat, counted: nat, written: bytes, s: bytes) returns (b: bytes)
    requires counted <= limit
    ensures b == written + FirstValid(limit - counted, s)
  {
    b := written;
    var count, i := counted, 0;
    assert s[0..] == s;
    ghost var want := b + Todo(limit - count, s, i);
    while i < |s| && count < limit
      invariant 0 <= i <= |s| && count <= limit
      invariant want == b + Todo(limit - count, s, i)
    {
      TodoStep(want, b, limit - count, s, i);
      var c := s[i];
      if c < 0x80 {
        b := b + [c];
        i := i + 1;
        count := count + 1;
      } else {
        var size := RuneSize(s, i);
        if size == 1 {
          i := i + 1;
        } else {
          b := b + s[i..i + size];
          i := i + size;
          count := count + 1;
        }
      }
    }
    assert Todo(limit - count, s, i) == [];
  }

  // ---------------------------------------------------------------- properties of strings

  lemma {:induction false} FirstValidIsValid(n: nat, s: bytes)
    ensures Valid(FirstValid(n, s))
    ensures Counted(FirstValid(n, s)) <= n
    decreases |s|
  {
    if n == 0 || |s| == 0 {
    } else if RuneLen(s) == 0 {
      FirstValidIsValid(n, s[1..]);
    } else {
      assert FirstValid(n, s) == s[..RuneLen(s)] + FirstValid(n - 1, s[RuneLen(s)..]);
      hide FirstValid, Valid, Counted, ReplacementAhead;
      FirstValidIsValid(n - 1, s[RuneLen(s)..]);
      CountedHead(s, FirstValid(n - 1, s[RuneLen(s)..]));
    }
  }

  /** The result holds at most limit runes other than U+FFFD, all of them well-formed. */
  lemma {:induction false} CountedWithinLimit(limit: nat, s: bytes)
    ensures Valid(Kept(limit, s)) && Counted(Kept(limit, s)) <= limit
    decreases |s|
  {
    if |s| == 0 || RuneLen(s) == 0 {
      KeptStop(limit, s);
      FirstValidIsValid(limit, s);
    } else {
      KeptStep(limit, s);
      var rest := s[RuneLen(s)..];
      if ReplacementAhead(s) {
        CountedWithinLimit(limit, rest);
        CountedHead(s, Kept(limit, rest));
      } else if limit > 0 {
        CountedWithinLimit(limit - 1, rest);
        CountedHead(s, Kept(limit - 1, rest));
      }
    }
  }

  lemma CountedHead(s: bytes, rest: bytes)
    requires RuneLen(s) > 0
    ensures Counted(s[..RuneLen(s)] + rest) == (if ReplacementAhead(s) then 0 else 1) + Counted(rest)
    ensures Valid(rest) ==> Valid(s[..RuneLen(s)] + rest)
  {
    RuneHead(s, rest);
  }

  lemma {:induction false} WithinLimitKept(limit: nat, s: bytes)
    requires Valid(s) && Counted(s) <= limit
    ensures Kept(limit, s) == s
    decreases |s|
  {
    if |s| == 0 {
    } else {
      var rest := s[RuneLen(s)..];
      assert s == s[..RuneLen(s)] + rest;
      KeptStep(limit, s);
      if ReplacementAhead(s) {
        WithinLimitKept(limit, rest);
      } else {
        WithinLimitKept(limit - 1, rest);
      }
    }
  }

  /** Exactly the strings `truncate` returns unchanged. */
  lemma UnchangedIff(limit: int, s: bytes)
    ensures Truncated(limit, s) == s <==>
      limit < 0 || |s| <= limit || (Valid(s) && Counted(s) <= limit) || (|s| == 1 && !Valid(s))
  {
    if 0 <= limit < |s| && !(|s| == 1 && !Valid(s)) {
      CountedWithinLimit(limit, s);
      if Valid(s) && Counted(s) <= limit { WithinLimitKept(limit, s); }
    }
  }

  lemma TruncatedIdempotent(limit: int, s: bytes)
    ensures Truncated(limit, Truncated(limit, s)) == Truncated(limit, s)
  {
    if 0 <= limit < |s| && !(|s| == 1 && !Valid(s)) {
      CountedWithinLimit(limit, s);
      UnchangedIff(limit, Truncated(limit, s));
    }
  }

  lemma {:induction false} FirstValidAll(n: nat, m: nat, s: bytes)
    requires ValidRunes(s) <= n <= m
    ensures FirstValid(n, s) == FirstValid(m, s)
    decreases |s|
  {
    if |s| == 0 {
    } else if RuneLen(s) == 0 {
      if n > 0 { FirstValidAll(n, m, s[1..]); } else { NoneValid(m, s); }
    } else {
      FirstValidAll(n - 1, m - 1, s[RuneLen(s)..]);
    }
  }

  lemma {:induction false} NoneValid(m: nat, s: bytes)
    requires ValidRunes(s) == 0
    ensures FirstValid(m, s) == []
    decreases |s|
  {
    if |s| == 0 {
    } else {
      NoneValid(m, s[1..]);
    }
  }

  lemma {:induction false} FirstValidGrows(n: nat, m: nat, s: bytes)
    requires n < m && n < ValidRunes(s)
    ensures |FirstValid(n, s)| < |FirstValid(m, s)|
    decreases |s|
  {
    if RuneLen(s) == 0 {
      FirstValidGrows(n, m, s[1..]);
    } else if n > 0 {
      FirstValidGrows(n - 1, m - 1, s[RuneLen(s)..]);
    }
  }

  /**
    When the string is longer than the limit, the documented result (the first limit valid characters,
    invalid bytes removed) is returned unless a U+FFFD went uncounted with more characters than the
    limit to choose from, or the string is a lone invalid byte.
   */
  lemma FirstLimitIff(limit: nat, s: bytes)
    requires |s| > limit
    ensures Truncated(limit, s) == FirstValid(limit, s) <==>
      !(|s| == 1 && !Valid(s)) && (Skipped(limit, s) == 0 || ValidRunes(s) <= limit)
  {
    if |s| == 1 && !Valid(s) {
    } else if ValidRunes(s) <= limit {
      FirstValidAll(limit, limit + Skipped(limit, s), s);
    } else if Skipped(limit, s) > 0 {
      FirstValidGrows(limit, limit + Skipped(limit, s), s);
    }
  }

  /** No encoded U+FFFD anywhere in s. */
  predicate NoReplacement(s: bytes)
    decreases |s|
  {
    |s| == 0 || (!ReplacementAhead(s) && NoReplacement(s[DecodeRune(s).1..]))
  }

  lemma {:induction false} NothingSkipped(limit: nat, s: bytes)
    requires NoReplacement(s)
    ensures Skipped(limit, s) == 0
    decreases |s|
  {
    if |s| > 0 && RuneLen(s) > 0 && limit > 0 { NothingSkipped(limit - 1, s[RuneLen(s)..]); }
  }

  /** For limits of at least 1 and strings free of encoded U+FFFD the documented result is exact. */
  lemma FirstLimitWithoutReplacement(limit: nat, s: bytes)
    requires |s| > limit >= 1 && NoReplacement(s)
    ensures Truncated(limit, s) == FirstValid(limit, s)
  {
    NothingSkipped(limit, s);
    FirstLimitIff(limit, s);
  }

  /** Two encoded U+FFFD and a limit of 1: the result keeps both. */
  lemma ReplacementGoesUncounted()
    ensures var s := [0xEF, 0xBF, 0xBD, 0xEF, 0xBF, 0xBD]; Truncated(1, s) == s != FirstValid(1, s)
  {
    var s: bytes := [0xEF, 0xBF, 0xBD, 0xEF, 0xBF, 0xBD];
    assert ReplacementAhead(s) && s[3..] == [0xEF, 0xBF, 0xBD];
    assert ReplacementAhead(s[3..]) && s[3..][3..] == [];
    assert Valid(s[3..]) && Valid(s);
    assert Counted(s[3..][3..]) == 0 && Counted(s[3..]) == 0 && Counted(s) == 0;
    UnchangedIff(1, s);
    assert FirstValid(1, s) == s[..3] + FirstValid(0, s[3..]) by { hide Truncated, Counted, Valid; }
  }

  /** A single invalid byte and a limit of 0: the byte comes back, where no character should. */
  lemma LoneByteComesBack(b: byte)
    requires b >= 0x80
    ensures Truncated(0, [b]) == [b] != FirstValid(0, [b])
  {
    assert !Valid([b]);
  }

  function StringNeedsTruncation(limit: int, s: bytes): bool
  {
    !(limit < 0 || |s| <= limit) && (RuneCount(s) > limit || !Valid(s))
  }

  lemma {:induction false} CountedAtMostRunes(s: bytes)
    ensures Counted(s) <= RuneCount(s)
    decreases |s|
  {
    if |s| == 0 {
    } else {
      CountedAtMostRunes(s[DecodeRune(s).1..]);
    }
  }

  /** A string that is not reported is not changed; two kinds that are not changed are reported all the same. */
  lemma StringNeedsTruncationIff(limit: int, s: bytes)
    ensures !StringNeedsTruncation(limit, s) ==> Truncated(limit, s) == s
    ensures StringNeedsTruncation(limit, s) ==>
      (Truncated(limit, s) == s <==> (Valid(s) && Counted(s) <= limit) || (|s| == 1 && !Valid(s)))
  {
    CountedAtMostRunes(s);
    UnchangedIff(limit, s);
  }

  // ---------------------------------------------------------------- values

  /** Truncation applied to everything inside v, with no shortcut. */
  function TruncatedValue(limit: int, v: Value): Value
    decreases v
  {
    if limit < 0 then v else
    match v
    case Str(s) => Str(Truncated(limit, s))
    case StrSlice(ss) => StrSlice(seq(|ss|, i requires 0 <= i < |ss| => Truncated(limit, ss[i])))
    case ByteSlice(raw) => ByteSlice(if |raw| > limit then raw[..limit] else raw)
    case Slice(elems) => Slice(seq(|elems|, i requires 0 <= i < |elems| => TruncatedValue(limit, elems[i])))
    case Map(entries) => Map(TruncatedEntries(limit, entries))
    case _ => v
  }

  function TruncatedEntries(limit: int, kvs: seq<KeyValue>): (r: seq<KeyValue>)
    ensures |r| == |kvs|
    decreases kvs
  {
    seq(|kvs|, i requires 0 <= i < |kvs| => KeyValue(kvs[i].key, TruncatedValue(limit, kvs[i].value)))
  }

  /** `needsTruncation` */
  predicate NeedsTruncation(limit: int, v: Value)
  {
    match v
    case Str(s) => StringNeedsTruncation(limit, s)
    case ByteSlice(raw) => limit >= 0 && |raw| > limit
    case StrSlice(ss) => exists i :: 0 <= i < |ss| && StringNeedsTruncation(limit, ss[i])
    case Slice(elems) => exists i :: 0 <= i < |elems| && NeedsTruncation(limit, elems[i])
    case Map(entries) => exists i :: 0 <= i < |entries| && NeedsTruncation(limit, entries[i].value)
    case _ => false
  }

  /** A value that is not reported is one truncation would not change. */
  lemma {:induction false} NotNeededUnchanged(limit: int, v: Value)
    requires !NeedsTruncation(limit, v)
    ensures TruncatedValue(limit, v) == v
    decreases v
  {
    match v
    case Str(s) => StringNeedsTruncationIff(limit, s);
    case StrSlice(ss) =>
      if limit >= 0 {
        forall i | 0 <= i < |ss| ensures Truncated(limit, ss[i]) == ss[i] {
          StringNeedsTruncationIff(limit, ss[i]);
        }
        assert TruncatedValue(limit, v).ss == ss;
      }
    case Slice(elems) =>
      if limit >= 0 {
        forall i | 0 <= i < |elems| ensures TruncatedValue(limit, elems[i]) == elems[i] {
          NotNeededUnchanged(limit, elems[i]);
        }
        assert TruncatedValue(limit, v).elems == elems;
      }
    case Map(entries) =>
      if limit >= 0 {
        forall i | 0 <= i < |entries| ensures TruncatedEntries(limit, entries)[i] == entries[i] {
          NotNeededUnchanged(limit, entries[i].value);
        }
        assert TruncatedEntries(limit, entries) == entries;
      }
    case _ =>
  }

  /** The condition of `UnchangedIff`. */
  predicate StringFits(limit: int, s: bytes)
  {
    limit < 0 || |s| <= limit || (Valid(s) && Counted(s) <= limit) || (|s| == 1 && !Valid(s))
  }

  /** Every string inside v fits, and no byte slice is too long. */
  predicate Fits(limit: int, v: Value)
  {
    match v
    case Str(s) => StringFits(limit, s)
    case StrSlice(ss) => forall i :: 0 <= i < |ss| ==> StringFits(limit, ss[i])
    case ByteSlice(raw) => limit < 0 || |raw| <= limit
    case Slice(elems) => forall i :: 0 <= i < |elems| ==> Fits(limit, elems[i])
    case Map(entries) => forall i :: 0 <= i < |entries| ==> Fits(limit, entries[i].value)
    case _ => true
  }

  lemma {:induction false} NoLimitFits(limit: int, v: Value)
    requires limit < 0
    ensures Fits(limit, v)
    decreases v
  {
    match v
    case Slice(elems) => forall i | 0 <= i < |elems| ensures Fits(limit, elems[i]) { NoLimitFits(limit, elems[i]); }
    case Map(entries) =>
      forall i | 0 <= i < |entries| ensures Fits(limit, entries[i].value) { NoLimitFits(limit, entries[i].value); }
    case _ =>
  }

  /** Exactly the values truncation leaves alone. */
  lemma {:induction false} UnchangedValueIff(limit: int, v: Value)
    ensures TruncatedValue(limit, v) == v <==> Fits(limit, v)
    decreases v
  {
    if limit < 0 {
      NoLimitFits(limit, v);
    } else {
      match v
      case Str(s) => UnchangedIff(limit, s);
      case StrSlice(ss) => UnchangedStrings(limit, ss);
      case ByteSlice(raw) =>
      case Slice(elems) =>
        var r := TruncatedValue(limit, v).elems;
        forall i | 0 <= i < |elems| ensures r[i] == elems[i] <==> Fits(limit, elems[i]) {
          UnchangedValueIff(limit, elems[i]);
        }
        SameSeqIff(r, elems);
      case Map(entries) =>
        var r := TruncatedEntries(limit, entries);
        forall i | 0 <= i < |entries| ensures r[i] == entries[i] <==> Fits(limit, entries[i].value) {
          UnchangedValueIff(limit, entries[i].value);
        }
        SameSeqIff(r, entries);
      case _ =>
    }
  }

  lemma UnchangedStrings(limit: nat, ss: seq<bytes>)
    ensures TruncatedValue(limit, StrSlice(ss)) == StrSlice(ss) <==> Fits(limit, StrSlice(ss))
  {
    var r := TruncatedValue(limit, StrSlice(ss)).ss;
    forall i | 0 <= i < |ss| ensures r[i] == ss[i] <==> StringFits(limit, ss[i]) { UnchangedIff(limit, ss[i]); }
    SameSeqIff(r, ss);
  }

  lemma SameSeqIff<T>(a: seq<T>, b: seq<T>)
    requires |a| == |b|
    ensures a == b <==> forall i :: 0 <= i < |a| ==> a[i] == b[i]
  {}

  /** Strings reported though they fit: too many runes only by U+FFFD, or a lone invalid byte under limit 0. */
  predicate NeedlessString(limit: int, s: bytes)
  {
    0 <= limit < |s| && ((Valid(s) && Counted(s) <= limit < RuneCount(s)) || (|s| == 1 && !Valid(s)))
  }

  /** v holds such a string. */
  predicate HoldsNeedless(limit: int, v: Value)
  {
    match v
    case Str(s) => NeedlessString(limit, s)
    case StrSlice(ss) => exists i :: 0 <= i < |ss| && NeedlessString(limit, ss[i])
    case Slice(elems) => exists i :: 0 <= i < |elems| && HoldsNeedless(limit, elems[i])
    case Map(entries) => exists i :: 0 <= i < |entries| && HoldsNeedless(limit, entries[i].value)
    case _ => false
  }

  /** Of the values that truncation leaves alone, exactly those that hold such a string are reported. */
  lemma {:induction false} ReportedAndFits(limit: int, v: Value)
    requires Fits(limit, v)
    ensures NeedsTruncation(limit, v) <==> HoldsNeedless(limit, v)
    decreases v
  {
    match v
    case Str(s) => StringReportedAndFits(limit, s);
    case StrSlice(ss) =>
      forall i | 0 <= i < |ss| ensures StringNeedsTruncation(limit, ss[i]) <==> NeedlessString(limit, ss[i]) {
        StringReportedAndFits(limit, ss[i]);
      }
    case Slice(elems) =>
      forall i | 0 <= i < |elems| ensures NeedsTruncation(limit, elems[i]) <==> HoldsNeedless(limit, elems[i]) {
        ReportedAndFits(limit, elems[i]);
      }
    case Map(entries) =>
      forall i | 0 <= i < |entries|
        ensures NeedsTruncation(limit, entries[i].value) <==> HoldsNeedless(limit, entries[i].value)
      {
        ReportedAndFits(limit, entries[i].value);
      }
    case _ =>
  }

  lemma StringReportedAndFits(limit: int, s: bytes)
    requires StringFits(limit, s)
    ensures StringNeedsTruncation(limit, s) <==> NeedlessString(limit, s)
  {}

  /** `needsTruncation` is right about v unless v fits and holds a string that is reported though it fits. */
  lemma ReportIsRightIff(limit: int, v: Value)
    ensures (NeedsTruncation(limit, v) <==> TruncatedValue(limit, v) != v) <==>
      !(Fits(limit, v) && HoldsNeedless(limit, v))
  {
    UnchangedValueIff(limit, v);
    if Fits(limit, v) {
      ReportedAndFits(limit, v);
    } else if !NeedsTruncation(limit, v) {
      NotNeededUnchanged(limit, v);
    }
  }

  /** Two U+FFFD under limit 1, and a lone invalid byte under limit 0, are reported and left alone. */
  lemma ReportedNeedlessly(b: byte)
    requires b >= 0x80
    ensures var v := Str([0xEF, 0xBF, 0xBD, 0xEF, 0xBF, 0xBD]); NeedsTruncation(1, v) && TruncatedValue(1, v) == v
    ensures NeedsTruncation(0, Str([b])) && TruncatedValue(0, Str([b])) == Str([b])
  {
    TwoReported();
    LoneByteReported(b);
    hide StringNeedsTruncation, Truncated;
  }

  lemma TwoReported()
    ensures var s := [0xEF, 0xBF, 0xBD, 0xEF, 0xBF, 0xBD]; StringNeedsTruncation(1, s) && Truncated(1, s) == s
  {
    ReplacementGoesUncounted();
    TwoReplacements();
    hide RuneCount, Valid, Truncated;
  }

  lemma LoneByteReported(b: byte)
    requires b >= 0x80
    ensures StringNeedsTruncation(0, [b]) && Truncated(0, [b]) == [b]
  {
    LoneByteComesBack(b);
    hide Truncated;
    assert !Valid([b]);
  }

  lemma TwoReplacements()
    ensures RuneCount([0xEF, 0xBF, 0xBD, 0xEF, 0xBF, 0xBD]) == 2
  {
    var s: bytes := [0xEF, 0xBF, 0xBD, 0xEF, 0xBF, 0xBD];
    assert s[3..] == [0xEF, 0xBF, 0xBD] && DecodeRune(s).1 == 3 && DecodeRune(s[3..]).1 == 3;
    hide DecodeRune;
    assert RuneCount(s) == 1 + RuneCount(s[3..]) && RuneCount(s[3..]) == 1 + RuneCount(s[3..][3..]);
  }

  // ---------------------------------------------------------------- what a truncated value is

  /**
    r is s, or the first valid runes of s: as many as the limit, and the U+FFFD before the first invalid byte
    that went uncounted.
   */
  predicate StringCut(limit: int, s: bytes, r: bytes)
  {
    if StringFits(limit, s) then r == s
    else if Skipped(limit, s) == 0 || ValidRunes(s) <= limit then r == FirstValid(limit, s)
    else r == FirstValid(limit + Skipped(limit, s), s)
  }

  /** r has the shape, the keys and the atoms of v; strings and byte slices are cut, each in its place. */
  predicate IsCut(limit: int, v: Value, r: Value)
    decreases v
  {
    match v
    case Str(s) => r.Str? && StringCut(limit, s, r.s)
    case StrSlice(ss) =>
      r.StrSlice? && |r.ss| == |ss| && forall i :: 0 <= i < |ss| ==> StringCut(limit, ss[i], r.ss[i])
    case ByteSlice(raw) =>
      && r.ByteSlice? && r.raw <= raw
      && |r.raw| == if limit < 0 then |raw| else Min(limit, |raw|)
    case Slice(elems) =>
      r.Slice? && |r.elems| == |elems| && forall i :: 0 <= i < |elems| ==> IsCut(limit, elems[i], r.elems[i])
    case Map(entries) =>
      && r.Map? && |r.entries| == |entries|
      && forall i :: 0 <= i < |entries| ==>
        r.entries[i].key == entries[i].key && IsCut(limit, entries[i].value, r.entries[i].value)
    case _ => r == v
  }

  lemma StringCutIff(limit: int, s: bytes, r: bytes)
    ensures StringCut(limit, s, r) <==> r == Truncated(limit, s)
  {
    UnchangedIff(limit, s);
    if 0 <= limit < |s| { FirstLimitIff(limit, s); }
  }

  /** Exactly one value is that, and it is the one that truncation gives. */
  lemma {:induction false} TruncatedIff(limit: int, v: Value, r: Value)
    ensures IsCut(limit, v, r) <==> r == TruncatedValue(limit, v)
    decreases v
  {
    match v
    case Str(s) => if r.Str? { StringCutIff(limit, s, r.s); }
    case StrSlice(ss) => if r.StrSlice? && |r.ss| == |ss| { StringsCutIff(limit, ss, r.ss); }
    case ByteSlice(raw) => if r.ByteSlice? { BytesCutIff(limit, raw, r.raw); }
    case Slice(elems) => if r.Slice? && |r.elems| == |elems| { ElemsCutIff(limit, elems, r.elems); }
    case Map(entries) => if r.Map? && |r.entries| == |entries| { EntriesCutIff(limit, entries, r.entries); }
    case _ =>
  }

  lemma BytesCutIff(limit: int, raw: bytes, r: bytes)
    ensures IsCut(limit, ByteSlice(raw), ByteSlice(r)) <==> ByteSlice(r) == TruncatedValue(limit, ByteSlice(raw))
  {
    var n := if limit < 0 then |raw| else Min(limit, |raw|);
    assert r <= raw && |r| == n <==> r == raw[..n];
    assert raw[..|raw|] == raw;
  }

  lemma StringsCutIff(limit: int, ss: seq<bytes>, r: seq<bytes>)
    requires |r| == |ss|
    ensures IsCut(limit, StrSlice(ss), StrSlice(r)) <==> StrSlice(r) == TruncatedValue(limit, StrSlice(ss))
  {
    forall i | 0 <= i < |ss| ensures StringCut(limit, ss[i], r[i]) <==> r[i] == Truncated(limit, ss[i]) {
      StringCutIff(limit, ss[i], r[i]);
    }
    hide StringCut, Truncated;
    if limit >= 0 {
      SameSeqIff(r, TruncatedValue(limit, StrSlice(ss)).ss);
    } else {
      NotCut(limit, ss);
      SameSeqIff(r, ss);
    }
  }

  lemma NotCut(limit: int, ss: seq<bytes>)
    requires limit < 0
    ensures forall i :: 0 <= i < |ss| ==> Truncated(limit, ss[i]) == ss[i]
  {}

  lemma {:induction false} ElemsCutIff(limit: int, elems: seq<Value>, r: seq<Value>)
    requires |r| == |elems|
    ensures IsCut(limit, Slice(elems), Slice(r)) <==> Slice(r) == TruncatedValue(limit, Slice(elems))
    decreases elems
  {
    forall i | 0 <= i < |elems| ensures IsCut(limit, elems[i], r[i]) <==> r[i] == TruncatedValue(limit, elems[i]) {
      TruncatedIff(limit, elems[i], r[i]);
    }
    if limit >= 0 {
      SameSeqIff(r, TruncatedValue(limit, Slice(elems)).elems);
    } else {
      SameSeqIff(r, elems);
    }
  }

  lemma {:induction false} EntriesCutIff(limit: int, entries: seq<KeyValue>, r: seq<KeyValue>)
    requires |r| == |entries|
    ensures IsCut(limit, Map(entries), Map(r)) <==> Map(r) == TruncatedValue(limit, Map(entries))
    decreases entries
  {
    forall i | 0 <= i < |entries|
      ensures IsCut(limit, entries[i].value, r[i].value) <==> r[i].value == TruncatedValue(limit, entries[i].value)
    {
      TruncatedIff(limit, entries[i].value, r[i].value);
    }
    if limit >= 0 { SameSeqIff(r, TruncatedEntries(limit, entries)); } else { SameSeqIff(r, entries); }
  }

  /** Three bytes under limit 2: the first two are kept. */
  lemma FirstBytesKept()
    ensures TruncatedValue(2, ByteSlice([1, 2, 3])) == ByteSlice([1, 2])
  {
    var raw: bytes := [1, 2, 3];
    assert raw[..2] == [1, 2];
  }

  /** `TruncateValue`: the shortcut never shows. */
  method TruncateValue(limit: int, v: Value) returns (r: Value)
    requires WellFormed(v)
    ensures r == TruncatedValue(limit, v)
    decreases v
  {
    if limit < 0 { return v; }
    match v
    case Str(s) =>
      var t := TruncateString(limit, s);
      return Str(t);
    case StrSlice(ss) =>
      var out := ss;
      for i := 0 to |ss|
        invariant |out| == |ss|
        invariant forall x :: 0 <= x < i ==> out[x] == Truncated(limit, ss[x])
        invariant forall x :: i <= x < |ss| ==> out[x] == ss[x]
      {
        var t := TruncateString(limit, out[i]);
        out := out[i := t];
      }
      assert out == TruncatedValue(limit, v).ss;
      return StrSlice(out);
    case ByteSlice(raw) =>
      if |raw| > limit { return ByteSlice(raw[..limit]); }
      return v;
    case Slice(elems) => r := TruncateElems(limit, elems);
    case Map(entries) => r := TruncateMap(limit, entries);
    case _ => return v;
  }

  method TruncateElems(limit: nat, elems: seq<Value>) returns (r: Value)
    requires WellFormed(Slice(elems))
    ensures r == TruncatedValue(limit, Slice(elems))
    decreases elems
  {
    if !NeedsTruncation(limit, Slice(elems)) {
      NotNeededUnchanged(limit, Slice(elems));
      return Slice(elems);
    }
    var out: seq<Value> := [];
    for i := 0 to |elems|
      invariant |out| == i
      invariant forall x :: 0 <= x < i ==> out[x] == TruncatedValue(limit, elems[x])
    {
      var t := TruncateValue(limit, elems[i]);
      out := out + [t];
    }
    assert out == TruncatedValue(limit, Slice(elems)).elems;
    return Slice(out);
  }

  method TruncateMap(limit: nat, entries: seq<KeyValue>) returns (r: Value)
    requires WellFormed(Map(entries))
    ensures r == TruncatedValue(limit, Map(entries))
    decreases entries
  {
    if !NeedsTruncation(limit, Map(entries)) {
      NotNeededUnchanged(limit, Map(entries));
      return Map(entries);
    }
    var out: seq<KeyValue> := [];
    for i := 0 to |entries|
      invariant |out| == i
      invariant forall x :: 0 <= x < i ==> out[x] == TruncatedEntries(limit, entries)[x]
    {
      var t := TruncateValue(limit, entries[i].value);
      out := out + [entries[i].(value := t)];
    }
    assert out == TruncatedEntries(limit, entries);
    StableSortFixed(out);
    return MapValue(out);
  }

  lemma {:induction false} TruncatedValueIdempotent(limit: int, v: Value)
    ensures TruncatedValue(limit, TruncatedValue(limit, v)) == TruncatedValue(limit, v)
    decreases v
  {
    if limit >= 0 {
      var t := TruncatedValue(limit, v);
      match v
      case Str(s) => TruncatedIdempotent(limit, s);
      case StrSlice(ss) =>
        forall i | 0 <= i < |ss| ensures TruncatedValue(limit, t).ss[i] == t.ss[i] {
          TruncatedIdempotent(limit, ss[i]);
        }
        assert TruncatedValue(limit, t).ss == t.ss;
      case Slice(elems) =>
        forall i | 0 <= i < |elems| ensures TruncatedValue(limit, t).elems[i] == t.elems[i] {
          TruncatedValueIdempotent(limit, elems[i]);
        }
        assert TruncatedValue(limit, t).elems == t.elems;
      case Map(entries) =>
        assert t.entries == TruncatedEntries(limit, entries);
        forall i | 0 <= i < |entries| ensures TruncatedEntries(limit, t.entries)[i] == t.entries[i] {
          TruncatedValueIdempotent(limit, entries[i].value);
        }
        assert TruncatedEntries(limit, t.entries) == t.entries;
      case _ =>
    }
  }

  lemma {:induction false} CollapseCommutes(limit: int, kvs: seq<KeyValue>)
    ensures Collapse(TruncatedEntries(limit, kvs)) == TruncatedEntries(limit, Collapse(kvs))
  {
    var t := TruncatedEntries(limit, kvs);
    if |kvs| > 1 {
      CollapseCommutes(limit, kvs[1..]);
      assert t[1..] == TruncatedEntries(limit, kvs[1..]);
      assert [t[0]] + TruncatedEntries(limit, Collapse(kvs[1..])) ==
        TruncatedEntries(limit, [kvs[0]] + Collapse(kvs[1..]));
    } else {
      assert t == TruncatedEntries(limit, Collapse(kvs));
    }
  }

  /** Truncating and removing duplicate keys can be done in either order. */
  lemma {:induction false} TruncateCommutesWithDedup(limit: int, v: Value)
    ensures TruncatedValue(limit, AttrNorm.Deduped(v)) == AttrNorm.Deduped(TruncatedValue(limit, v))
    decreases v
  {
    if limit >= 0 {
      match v
      case Slice(elems) =>
        forall i | 0 <= i < |elems|
          ensures TruncatedValue(limit, AttrNorm.Deduped(elems[i])) == AttrNorm.Deduped(TruncatedValue(limit, elems[i]))
        {
          TruncateCommutesWithDedup(limit, elems[i]);
        }
        assert TruncatedValue(limit, AttrNorm.Deduped(v)).elems == AttrNorm.Deduped(TruncatedValue(limit, v)).elems;
      case Map(entries) =>
        var d := AttrNorm.DedupedEntries(entries);
        forall i | 0 <= i < |entries|
          ensures TruncatedEntries(limit, d)[i] == AttrNorm.DedupedEntries(TruncatedEntries(limit, entries))[i]
        {
          TruncateCommutesWithDedup(limit, entries[i].value);
        }
        assert TruncatedEntries(limit, d) == AttrNorm.DedupedEntries(TruncatedEntries(limit, entries));
        CollapseCommutes(limit, d);
      case _ =>
    }
  }

  // ---------------------------------------------------------------- attributes

  /** What a span or a log record stores for an attribute: duplicate-free, then truncated. */
  function Normal(limit: int, kv: KeyValue): KeyValue
  {
    KeyValue(kv.key, TruncatedValue(limit, AttrNorm.Deduped(kv.value)))
  }

  /** `dedupAttr` then `Truncate` in the span; `applyAttrLimitsAndDedup` in the log record. */
  method NormalizeAttr(limit: int, a: KeyValue) returns (r: KeyValue)
    requires WellFormed(a.value)
    ensures r == Normal(limit, a)
  {
    var kv, _ := AttrNorm.NormalizeKeyValue(a);
    AttrNorm.DedupedIsUnique(a.value);
    AttrNorm.UniqueIsFixed(AttrNorm.Deduped(a.value));
    var value := TruncateValue(limit, kv.value);
    r := kv.(value := value);
  }

  /** Normalising twice changes nothing more. */
  lemma NormalIdempotent(limit: int, kv: KeyValue)
    requires WellFormed(kv.value)
    ensures Normal(limit, Normal(limit, kv)) == Normal(limit, kv)
  {
    var d := AttrNorm.Deduped(kv.value);
    AttrNorm.DedupedIdempotent(kv.value);
    TruncateCommutesWithDedup(limit, d);
    TruncatedValueIdempotent(limit, d);
  }

  /** Normalising an attribute keeps its key, and cuts its de-duplicated value. */
  lemma NormalIs(limit: int, kv: KeyValue)
    ensures Normal(limit, kv).key == kv.key
    ensures IsCut(limit, AttrNorm.Deduped(kv.value), Normal(limit, kv).value)
  {
    TruncatedIff(limit, AttrNorm.Deduped(kv.value), Normal(limit, kv).value);
  }
}
