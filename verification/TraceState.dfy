/**
  The tracestate list of section 3.3 of W3C Trace Context: its grammar, its parser and printer, and the
  two operations that change it.
 */
module TraceState {
  import opened Prelude
  import opened Utf8

  const MAX_LIST_MEMBERS := 32
  const COMMA: byte := 44
  const EQUALS: byte := 61
  const AT: byte := 64
  const SPACE: byte := 32
  const TAB: byte := 9

  datatype Member = Member(key: bytes, value: bytes)

  datatype Error = InvalidKey | InvalidValue | InvalidMember | MemberNumber | Duplicate

  // ---------------------------------------------------------------- grammar

  predicate LowerAlpha(b: int) { 0x61 <= b <= 0x7A }

  predicate AlphaNum(b: int) { LowerAlpha(b) || 0x30 <= b <= 0x39 }

  /** lcalpha / DIGIT / "_" / "-" / "*" / "/" */
  predicate KeyChar(b: int) { AlphaNum(b) || b == 0x5F || b == 0x2D || b == 0x2A || b == 0x2F }

  predicate KeyChars(s: bytes) { forall i :: 0 <= i < |s| ==> KeyChar(s[i]) }

  /** simple-key, and system-id with a smaller n: a letter and at most n key characters. */
  predicate KeyPart(s: bytes, n: nat) { 1 <= |s| <= n + 1 && LowerAlpha(s[0]) && KeyChars(s[1..]) }

  predicate TenantPart(s: bytes, n: nat) { 1 <= |s| <= n + 1 && AlphaNum(s[0]) && KeyChars(s[1..]) }

  /** key = simple-key / tenant-id "@" system-id */
  predicate ValidKey(k: bytes)
  {
    || KeyPart(k, 255)
    || exists i :: 0 <= i < |k| && k[i] == AT && TenantPart(k[..i], 240) && KeyPart(k[i + 1..], 13)
  }

  /** nblk-chr = %x21-2B / %x2D-3C / %x3E-7E, and chr adds the space. */
  predicate NonBlankChar(b: byte) { 0x21 <= b <= 0x7E && b != COMMA && b != EQUALS }

  predicate ValueChar(b: byte) { b == SPACE || NonBlankChar(b) }

  /** value = 0*255(chr) nblk-chr */
  predicate ValidValue(v: bytes)
  {
    1 <= |v| <= 256 && NonBlankChar(v[|v| - 1]) && forall i :: 0 <= i < |v| - 1 ==> ValueChar(v[i])
  }

  predicate ValidMember(m: Member) { ValidKey(m.key) && ValidValue(m.value) }

  predicate UniqueKeys(ms: seq<Member>)
  {
    forall i, j :: 0 <= i < j < |ms| ==> ms[i].key != ms[j].key
  }

  /** Every TraceState the package hands out. */
  predicate WellFormed(ms: seq<Member>)
  {
    |ms| <= MAX_LIST_MEMBERS && UniqueKeys(ms) && forall i :: 0 <= i < |ms| ==> ValidMember(ms[i])
  }

  /** What the separators may not occur in. */
  lemma KeyAlphabet(k: bytes)
    requires ValidKey(k)
    ensures forall i :: 0 <= i < |k| ==> KeyChar(k[i]) || k[i] == AT
    ensures k != []
  {
    if KeyPart(k, 255) {
      assert forall i :: 1 <= i < |k| ==> k[i] == k[1..][i - 1];
    } else {
      var i :| 0 <= i < |k| && k[i] == AT && TenantPart(k[..i], 240) && KeyPart(k[i + 1..], 13);
      var tenant, system := k[..i], k[i + 1..];
      forall j | 0 <= j < |k| ensures KeyChar(k[j]) || k[j] == AT {
        if j < i {
          assert k[j] == tenant[j] && (j > 0 ==> tenant[j] == tenant[1..][j - 1]);
        } else if j > i {
          assert k[j] == system[j - i - 1] && (j > i + 1 ==> system[j - i - 1] == system[1..][j - i - 2]);
        }
      }
    }
  }

  // ---------------------------------------------------------------- checks

  /** `strings.Cut` at a one-byte separator. */
  function Cut(s: bytes, sep: byte): (r: (bytes, bytes, bool))
    ensures sep !in r.0
    ensures r.2 ==> s == r.0 + [sep] + r.1
    ensures !r.2 ==> r.0 == s && r.1 == []
    ensures |r.1| <= |s| && (s != [] ==> |r.1| < |s|)
  {
    if |s| == 0 then ([], [], false)
    else if s[0] == sep then ([], s[1..], true)
    else
      var (before, after, found) := Cut(s[1..], sep);
      assert found ==> s == [s[0]] + (before + [sep] + after);
      ([s[0]] + before, after, found)
  }

  lemma {:induction false} CutFound(x: bytes, sep: byte, y: bytes)
    requires sep !in x
    ensures Cut(x + [sep] + y, sep) == (x, y, true)
  {
    var s := x + [sep] + y;
    if |x| == 0 {
      assert s[0] == sep && s[1..] == y;
    } else {
      assert s[0] == x[0] && s[1..] == x[1..] + [sep] + y;
      CutFound(x[1..], sep, y);
      assert x == [x[0]] + x[1..];
    }
  }

  lemma CutAbsent(x: bytes, sep: byte)
    requires sep !in x
    ensures Cut(x, sep) == (x, [], false)
  {}

  /** `checkKeyRemain` reads runes; a rune above 127 fails, as does U+FFFD for an invalid byte. */
  method CheckKeyRemain(key: bytes) returns (ok: bool)
    ensures ok == KeyChars(key)
  {
    var i := 0;
    while i < |key|
      invariant 0 <= i <= |key|
      invariant KeyChars(key[..i])
    {
      var (v, size) := DecodeRune(key[i..]);
      AsciiRune(key[i..]);
      if v > 127 { assert !KeyChar(key[i]); return false; }
      assert v == key[i] && size == 1;
      if AlphaNum(v) || v == 0x5F || v == 0x2D || v == 0x2A || v == 0x2F {
        assert key[..i + 1] == key[..i] + [key[i]];
        i := i + 1;
      } else {
        assert !KeyChar(key[i]);
        return false;
      }
    }
    assert key[..i] == key;
    return true;
  }

  lemma AsciiRune(s: bytes)
    requires |s| > 0
    ensures s[0] < 0x80 ==> DecodeRune(s) == (s[0] as int, 1)
    ensures s[0] >= 0x80 ==> DecodeRune(s).0 > 127
  {
    if RuneLen(s) == 3 { assert CodePoint(s) >= 0x800; }
  }

  method CheckKeyPart(key: bytes, n: nat) returns (ok: bool)
    ensures ok == KeyPart(key, n)
  {
    if key == [] { return false; }
    ok := |key[1..]| <= n;
    ok := ok && LowerAlpha(key[0]);
    if ok { ok := CheckKeyRemain(key[1..]); }
  }

  method CheckKeyTenant(key: bytes, n: nat) returns (ok: bool)
    ensures ok == TenantPart(key, n)
  {
    if key == [] { return false; }
    ok := AlphaNum(key[0]) && |key[1..]| <= n;
    if ok { ok := CheckKeyRemain(key[1..]); }
  }

  /** `checkKey` cuts at the first "@"; neither part of a valid key can hold another. */
  method CheckKey(key: bytes) returns (ok: bool)
    ensures ok == ValidKey(key)
  {
    var (tenant, system, found) := Cut(key, AT);
    CutKey(key);
    if !found {
      ok := CheckKeyPart(key, 255);
    } else {
      ok := CheckKeyTenant(tenant, 240);
      if ok { ok := CheckKeyPart(system, 13); }
    }
  }

  lemma PartAlphabet(s: bytes, n: nat)
    ensures KeyPart(s, n) || TenantPart(s, n) ==> AT !in s
  {
    assert forall i :: 1 <= i < |s| ==> s[i] == s[1..][i - 1];
  }

  lemma CutKey(key: bytes)
    ensures var (tenant, system, found) := Cut(key, AT);
      ValidKey(key) <==> if found then TenantPart(tenant, 240) && KeyPart(system, 13) else KeyPart(key, 255)
  {
    var (tenant, system, found) := Cut(key, AT);
    if found {
      var at := |tenant|;
      assert key[at] == AT && key[..at] == tenant && key[at + 1..] == system;
      PartAlphabet(key, 255);
      forall i | 0 <= i < |key| && key[i] == AT && TenantPart(key[..i], 240) ensures i == at {
        PartAlphabet(key[..i], 240);
        CutFound(key[..i], AT, key[i + 1..]);
        assert key == key[..i] + [AT] + key[i + 1..];
      }
    }
  }

  method CheckValue(val: bytes) returns (ok: bool)
    ensures ok == ValidValue(val)
  {
    var n := |val|;
    if n == 0 || n > 256 { return false; }
    for i := 0 to n - 1
      invariant forall j :: 0 <= j < i ==> ValueChar(val[j])
    {
      if !ValueChar(val[i]) { return false; }
    }
    return NonBlankChar(val[n - 1]);
  }

  // ---------------------------------------------------------------- parsing

  predicate Blank(b: byte) { b == SPACE || b == TAB }

  function TrimLeft(s: bytes): bytes
  {
    if |s| > 0 && Blank(s[0]) then TrimLeft(s[1..]) else s
  }

  function TrimRight(s: bytes): bytes
  {
    if |s| > 0 && Blank(s[|s| - 1]) then TrimRight(s[..|s| - 1]) else s
  }

  /** What one list-member says. */
  function MemberOf(m: bytes): Result<Member, Error>
  {
    var (key, val, found) := Cut(m, EQUALS);
    var member := Member(TrimLeft(key), TrimRight(val));
    if found && ValidMember(member) then Ok(member) else Err(InvalidMember)
  }

  method NewMember(key: bytes, value: bytes) returns (r: Result<Member, Error>)
    ensures r == if !ValidKey(key) then Err(InvalidKey) else if !ValidValue(value) then Err(InvalidValue)
      else Ok(Member(key, value))
  {
    var k := CheckKey(key);
    if !k { return Err(InvalidKey); }
    var v := CheckValue(value);
    if !v { return Err(InvalidValue); }
    return Ok(Member(key, value));
  }

  method ParseMember(m: bytes) returns (r: Result<Member, Error>)
    ensures r == MemberOf(m)
  {
    var (key, val, found) := Cut(m, EQUALS);
    if !found { return Err(InvalidMember); }
    var result := NewMember(TrimLeft(key), TrimRight(val));
    if result.Err? { return Err(InvalidMember); }
    return result;
  }

  /** The non-empty pieces of s between commas. */
  function Pieces(s: bytes): seq<bytes>
    decreases |s|
  {
    if |s| == 0 then [] else
    var (piece, rest, _) := Cut(s, COMMA);
    (if piece == [] then [] else [piece]) + Pieces(rest)
  }

  predicate HasKey(ms: seq<Member>, key: bytes) { exists i :: 0 <= i < |ms| && ms[i].key == key }

  /** Members read from pieces one by one, the first error winning. */
  function Collect(ms: seq<Member>, pieces: seq<bytes>): Result<seq<Member>, Error>
    decreases |pieces|
  {
    if |pieces| == 0 then Ok(ms) else
    match MemberOf(pieces[0])
    case Err(e) => Err(e)
    case Ok(m) =>
      if HasKey(ms, m.key) then Err(Duplicate)
      else if |ms| + 1 > MAX_LIST_MEMBERS then Err(MemberNumber)
      else Collect(ms + [m], pieces[1..])
  }

  function Parse(s: bytes): Result<seq<Member>, Error> { Collect([], Pieces(s)) }

  /** `ParseTraceState` */
  method ParseTraceState(header: bytes) returns (r: Result<seq<Member>, Error>)
    ensures r == Parse(header)
  {
    var ts, members, found: set<bytes> := header, [], {};
    while ts != []
      invariant forall k :: k in found <==> HasKey(members, k)
      invariant Parse(header) == Collect(members, Pieces(ts))
      decreases |ts|
    {
      var (memberStr, rest, _) := Cut(ts, COMMA);
      ghost var pieces := Pieces(ts);
      ts := rest;
      if memberStr == [] {
        assert pieces == Pieces(ts);
        continue;
      }
      assert pieces == [memberStr] + Pieces(ts) && pieces[1..] == Pieces(ts);
      var m := ParseMember(memberStr);
      if m.Err? { return Err(m.error); }
      if m.value.key in found { return Err(Duplicate); }
      found := found + {m.value.key};
      assert forall k :: HasKey(members + [m.value], k) <==> HasKey(members, k) || k == m.value.key by {
        HasKeyAppend(members, m.value);
      }
      members := members + [m.value];
      if |members| > MAX_LIST_MEMBERS { return Err(MemberNumber); }
    }
    return Ok(members);
  }

  lemma HasKeyAppend(ms: seq<Member>, m: Member)
    ensures forall k :: HasKey(ms + [m], k) <==> HasKey(ms, k) || k == m.key
  {
    forall k ensures HasKey(ms + [m], k) <==> HasKey(ms, k) || k == m.key {
      var t := ms + [m];
      if HasKey(ms, k) { var i :| 0 <= i < |ms| && ms[i].key == k; assert t[i].key == k; }
      if k == m.key { assert t[|ms|].key == k; }
    }
  }

  /** r continues ms by one member for each piece. */
  predicate Continues(ms: seq<Member>, pieces: seq<bytes>, r: seq<Member>)
  {
    && |r| == |ms| + |pieces|
    && r[..|ms|] == ms
    && forall i :: 0 <= i < |pieces| ==> MemberOf(pieces[i]) == Ok(r[|ms| + i])
  }

  lemma ContinuesStep(ms: seq<Member>, pieces: seq<bytes>, r: seq<Member>)
    requires |pieces| > 0
    ensures Continues(ms, pieces, r) <==>
      MemberOf(pieces[0]).Ok? && Continues(ms + [MemberOf(pieces[0]).value], pieces[1..], r)
  {
    if MemberOf(pieces[0]).Ok? && |r| == |ms| + |pieces| {
      var next := ms + [MemberOf(pieces[0]).value];
      assert r[..|next|] == r[..|ms|] + [r[|ms|]];
      if r[..|next|] == next { assert r[..|ms|] == next[..|ms|] && r[|ms|] == next[|ms|]; }
      assert forall i :: 0 <= i < |pieces| - 1 ==> pieces[1..][i] == pieces[i + 1];
      assert forall i :: 1 <= i < |pieces| ==> pieces[i] == pieces[1..][i - 1];
    }
  }

  /** Exactly what a successful parse means: one valid member a piece, in order, keys unique, at most 32. */
  lemma {:induction false} CollectIff(ms: seq<Member>, pieces: seq<bytes>, r: seq<Member>)
    requires UniqueKeys(ms) && |ms| <= MAX_LIST_MEMBERS
    ensures Collect(ms, pieces) == Ok(r) <==>
      Continues(ms, pieces, r) && |r| <= MAX_LIST_MEMBERS && UniqueKeys(r)
    decreases |pieces|
  {
    if |pieces| == 0 {
      if |r| == |ms| { assert r[..|ms|] == r; }
    } else if MemberOf(pieces[0]).Ok? {
      var m := MemberOf(pieces[0]).value;
      ContinuesStep(ms, pieces, r);
      if HasKey(ms, m.key) {
        if Continues(ms + [m], pieces[1..], r) { RepeatedKey(ms, m, r); }
      } else if |ms| + 1 <= MAX_LIST_MEMBERS {
        CollectIff(ms + [m], pieces[1..], r);
      }
    }
  }

  lemma RepeatedKey(ms: seq<Member>, m: Member, r: seq<Member>)
    requires HasKey(ms, m.key) && |ms| < |r| && r[..|ms| + 1] == ms + [m]
    ensures !UniqueKeys(r)
  {
    var i :| 0 <= i < |ms| && ms[i].key == m.key;
    assert r[i] == r[..|ms| + 1][i] && r[|ms|] == r[..|ms| + 1][|ms|];
  }

  lemma ParseIff(s: bytes, ms: seq<Member>)
    ensures Parse(s) == Ok(ms) <==>
      && |ms| == |Pieces(s)| <= MAX_LIST_MEMBERS
      && UniqueKeys(ms)
      && forall i :: 0 <= i < |ms| ==> MemberOf(Pieces(s)[i]) == Ok(ms[i])
  {
    CollectIff([], Pieces(s), ms);
  }

  /** Whatever the header, a parsed state is well-formed. */
  lemma ParsedIsWellFormed(s: bytes)
    ensures Parse(s).Ok? ==> WellFormed(Parse(s).value)
  {
    if Parse(s).Ok? { ParseIff(s, Parse(s).value); }
  }

  // ---------------------------------------------------------------- printing

  function MemberString(m: Member): bytes { m.key + [EQUALS] + m.value }

  function Print(ms: seq<Member>): bytes
  {
    if |ms| == 0 then []
    else if |ms| == 1 then MemberString(ms[0])
    else Print(ms[..|ms| - 1]) + [COMMA] + MemberString(ms[|ms| - 1])
  }

  /** `TraceState.String` */
  method String(ms: seq<Member>) returns (sb: bytes)
    ensures sb == Print(ms)
  {
    if |ms| == 0 { return []; }
    sb := ms[0].key;
    sb := sb + [EQUALS];
    sb := sb + ms[0].value;
    assert ms[..1] == [ms[0]];
    for i := 1 to |ms|
      invariant sb == Print(ms[..i])
    {
      assert ms[..i + 1][..i] == ms[..i];
      ghost var before := sb;
      sb := sb + [COMMA];
      sb := sb + ms[i].key;
      sb := sb + [EQUALS];
      sb := sb + ms[i].value;
      assert sb == before + [COMMA] + MemberString(ms[i]);
    }
    assert ms[..|ms|] == ms;
  }

  lemma MemberAlphabet(m: Member)
    requires ValidMember(m)
    ensures COMMA !in MemberString(m) && EQUALS !in m.key && MemberString(m) != []
    ensures !Blank(m.key[0]) && !Blank(m.value[|m.value| - 1])
  {
    KeyAlphabet(m.key);
  }

  lemma MemberRoundTrip(m: Member)
    requires ValidMember(m)
    ensures MemberOf(MemberString(m)) == Ok(m)
  {
    MemberAlphabet(m);
    CutFound(m.key, EQUALS, m.value);
  }

  lemma {:induction false} PiecesAppend(s: bytes, last: bytes)
    requires s != [] && last != [] && COMMA !in last
    ensures Pieces(s + [COMMA] + last) == Pieces(s) + [last]
    decreases |s|
  {
    var all := s + [COMMA] + last;
    var (piece, rest, found) := Cut(s, COMMA);
    if found {
      assert all == piece + [COMMA] + (rest + [COMMA] + last);
      CutFound(piece, COMMA, rest + [COMMA] + last);
      if rest == [] {
        assert rest + [COMMA] + last == [] + [COMMA] + last;
        CutFound([], COMMA, last);
        CutAbsent(last, COMMA);
        assert Pieces(last) == [last];
        assert Pieces(rest + [COMMA] + last) == Pieces(last);
      } else {
        PiecesAppend(rest, last);
      }
    } else {
      CutFound(s, COMMA, last);
      CutAbsent(last, COMMA);
      assert Pieces(last) == [last];
    }
  }

  lemma {:induction false} PiecesOfPrint(ms: seq<Member>)
    requires forall i :: 0 <= i < |ms| ==> ValidMember(ms[i])
    ensures |Pieces(Print(ms))| == |ms|
    ensures forall i :: 0 <= i < |ms| ==> Pieces(Print(ms))[i] == MemberString(ms[i])
    ensures |ms| > 0 ==> Print(ms) != []
  {
    if |ms| == 1 {
      MemberAlphabet(ms[0]);
      CutAbsent(MemberString(ms[0]), COMMA);
      assert Pieces([]) == [];
    } else if |ms| > 1 {
      var init, last := ms[..|ms| - 1], ms[|ms| - 1];
      PiecesOfPrint(init);
      MemberAlphabet(last);
      PiecesAppend(Print(init), MemberString(last));
    }
  }

  /** Parsing undoes printing for every state the package can hold. */
  lemma RoundTrip(ms: seq<Member>)
    requires WellFormed(ms)
    ensures Parse(Print(ms)) == Ok(ms)
  {
    PiecesOfPrint(ms);
    forall i | 0 <= i < |ms| ensures MemberOf(Pieces(Print(ms))[i]) == Ok(ms[i]) {
      MemberRoundTrip(ms[i]);
    }
    ParseIff(Print(ms), ms);
  }

  // ---------------------------------------------------------------- the grammar of a list

  predicate AllBlank(s: bytes) { forall i :: 0 <= i < |s| ==> Blank(s[i]) }

  /** A list-member with white space around it, as sections 3.3.1.1 and 3.3.1.3 allow. */
  ghost predicate MemberText(piece: bytes)
  {
    exists a: bytes, m: Member, z: bytes ::
      AllBlank(a) && ValidMember(m) && AllBlank(z) && piece == a + MemberString(m) + z
  }

  lemma {:induction false} TrimLeftAdds(a: bytes, s: bytes)
    requires AllBlank(a) && s != [] && !Blank(s[0])
    ensures TrimLeft(a + s) == s
  {
    if |a| == 0 { assert a + s == s; } else { TrimLeftAdds(a[1..], s); assert (a + s)[1..] == a[1..] + s; }
  }

  lemma {:induction false} TrimRightAdds(s: bytes, z: bytes)
    requires AllBlank(z) && s != [] && !Blank(s[|s| - 1])
    ensures TrimRight(s + z) == s
  {
    if |z| == 0 {
      assert s + z == s;
    } else {
      TrimRightAdds(s, z[..|z| - 1]);
      assert (s + z)[..|s + z| - 1] == s + z[..|z| - 1];
    }
  }

  lemma {:induction false} TrimLeftTakes(s: bytes) returns (a: bytes)
    ensures AllBlank(a) && s == a + TrimLeft(s)
  {
    if |s| > 0 && Blank(s[0]) {
      var rest := TrimLeftTakes(s[1..]);
      a := [s[0]] + rest;
    } else {
      a := [];
    }
  }

  lemma {:induction false} TrimRightTakes(s: bytes) returns (z: bytes)
    ensures AllBlank(z) && s == TrimRight(s) + z
  {
    if |s| > 0 && Blank(s[|s| - 1]) {
      var rest := TrimRightTakes(s[..|s| - 1]);
      z := rest + [s[|s| - 1]];
    } else {
      z := [];
    }
  }

  lemma MemberTextReads(a: bytes, m: Member, z: bytes)
    requires AllBlank(a) && ValidMember(m) && AllBlank(z)
    ensures MemberOf(a + MemberString(m) + z) == Ok(m)
  {
    MemberAlphabet(m);
    assert a + MemberString(m) + z == (a + m.key) + [EQUALS] + (m.value + z);
    CutFound(a + m.key, EQUALS, m.value + z);
    TrimLeftAdds(a, m.key);
    TrimRightAdds(m.value, z);
  }

  lemma ReadIsMemberText(piece: bytes)
    requires MemberOf(piece).Ok?
    ensures MemberText(piece)
  {
    var (key, val, _) := Cut(piece, EQUALS);
    var m := MemberOf(piece).value;
    hide ValidMember, TrimLeft, TrimRight, Cut;
    var a := TrimLeftTakes(key);
    var z := TrimRightTakes(val);
    assert piece == a + MemberString(m) + z;
  }

  /** The code reads a piece of the header as a member exactly when the grammar does. */
  lemma MemberTextIff(piece: bytes)
    ensures MemberOf(piece).Ok? <==> MemberText(piece)
  {
    hide ValidMember, MemberString, MemberOf;
    if MemberText(piece) {
      var a, m, z :| AllBlank(a) && ValidMember(m) && AllBlank(z) && piece == a + MemberString(m) + z;
      MemberTextReads(a, m, z);
    }
    if MemberOf(piece).Ok? { ReadIsMemberText(piece); }
  }

  /** The members a list means when the pieces of white space between them are left out. */
  function Meant(pieces: seq<bytes>): seq<Member>
  {
    if |pieces| == 0 then [] else
    var last := MemberOf(pieces[|pieces| - 1]);
    Meant(pieces[..|pieces| - 1]) + if last.Ok? then [last.value] else []
  }

  lemma {:induction false} MeantAll(pieces: seq<bytes>)
    requires forall i :: 0 <= i < |pieces| ==> MemberOf(pieces[i]).Ok?
    ensures |Meant(pieces)| == |pieces|
    ensures forall i :: 0 <= i < |pieces| ==> MemberOf(pieces[i]) == Ok(Meant(pieces)[i])
  {
    if |pieces| == 0 {
    } else {
      var init := pieces[..|pieces| - 1];
      assert Meant(pieces) == Meant(init) + [MemberOf(pieces[|init|]).value];
      hide MemberOf, Meant;
      MeantAll(init);
    }
  }

  /**
    A list of section 3.3.1, whose list-members are members or white space, with at most 32 members and
    distinct keys, is read exactly when no list-member but the empty one is white space alone.
   */
  lemma ListReadIff(s: bytes)
    requires forall i :: 0 <= i < |Pieces(s)| ==> MemberText(Pieces(s)[i]) || AllBlank(Pieces(s)[i])
    requires |Meant(Pieces(s))| <= MAX_LIST_MEMBERS && UniqueKeys(Meant(Pieces(s)))
    ensures Parse(s).Ok? <==> forall i :: 0 <= i < |Pieces(s)| ==> !AllBlank(Pieces(s)[i])
    ensures Parse(s).Ok? ==> Parse(s).value == Meant(Pieces(s))
  {
    var pieces := Pieces(s);
    forall i | 0 <= i < |pieces| ensures MemberOf(pieces[i]).Ok? <==> !AllBlank(pieces[i]) {
      MemberTextIff(pieces[i]);
      if AllBlank(pieces[i]) { CutAbsent(pieces[i], EQUALS); }
    }
    if Parse(s).Ok? { ParseIff(s, Parse(s).value); }
    if forall i :: 0 <= i < |pieces| ==> !AllBlank(pieces[i]) {
      MeantAll(pieces);
      ParseIff(s, Meant(pieces));
    }
  }

  lemma FirstPiece(x: bytes, rest: bytes)
    requires x != [] && COMMA !in x
    ensures Pieces(x + [COMMA] + rest) == [x] + Pieces(rest) && Pieces(x) == [x]
  {
    CutFound(x, COMMA, rest);
    CutAbsent(x, COMMA);
    assert Pieces([]) == [];
  }

  /** Two members with `, ,` between them, as in `a=1, ,b=2`, are a list and yet refused. */
  lemma BlankMemberRefused(m: Member, n: Member)
    requires ValidMember(m) && ValidMember(n)
    ensures var s := MemberString(m) + [COMMA] + ([SPACE] + [COMMA] + MemberString(n));
      Pieces(s) == [MemberString(m), [SPACE], MemberString(n)] && Parse(s).Err?
  {
    var s := MemberString(m) + [COMMA] + ([SPACE] + [COMMA] + MemberString(n));
    MemberAlphabet(m);
    MemberAlphabet(n);
    FirstPiece(MemberString(m), [SPACE] + [COMMA] + MemberString(n));
    FirstPiece([SPACE], MemberString(n));
    FirstPiece(MemberString(n), []);
    CutAbsent([SPACE], EQUALS);
    assert Pieces(s)[1] == [SPACE];
    if Parse(s).Ok? { ParseIff(s, Parse(s).value); }
  }

  // ---------------------------------------------------------------- Get, Insert, Delete

  /** The members with any other key, in order. */
  function Without(ms: seq<Member>, key: bytes): seq<Member>
  {
    if |ms| == 0 then [] else
    Without(ms[..|ms| - 1], key) + if ms[|ms| - 1].key == key then [] else [ms[|ms| - 1]]
  }

  function Capped(ms: seq<Member>): seq<Member>
  {
    if |ms| > MAX_LIST_MEMBERS then ms[..MAX_LIST_MEMBERS] else ms
  }

  lemma {:induction false} WithoutMembers(ms: seq<Member>, key: bytes)
    requires UniqueKeys(ms)
    ensures UniqueKeys(Without(ms, key)) && |Without(ms, key)| <= |ms|
    ensures forall m :: m in Without(ms, key) <==> m in ms && m.key != key
  {
    if |ms| == 0 {
    } else {
      var init, last := ms[..|ms| - 1], ms[|ms| - 1];
      WithoutMembers(init, key);
      var w := Without(init, key);
      assert Without(ms, key) == w + if last.key == key then [] else [last];
      hide Without;
      forall m ensures m in Without(ms, key) <==> m in ms && m.key != key {
        assert m in ms <==> m in init || m == last;
        assert m in Without(ms, key) <==> m in w || (last.key != key && m == last);
      }
      forall i | 0 <= i < |w| ensures w[i].key != last.key { assert w[i] in w; }
    }
  }

  /** Where the key occurs once, everything before and after it stays. */
  lemma {:induction false} WithoutAt(ms: seq<Member>, found: nat)
    requires UniqueKeys(ms) && found < |ms|
    ensures Without(ms, ms[found].key) == ms[..found] + ms[found + 1..]
  {
    var init, last := ms[..|ms| - 1], ms[|ms| - 1];
    if found == |ms| - 1 {
      WithoutAbsent(init, last.key);
    } else {
      WithoutAt(init, found);
      assert init[..found] == ms[..found] && ms[found + 1..] == init[found + 1..] + [last];
    }
  }

  lemma {:induction false} WithoutAbsent(ms: seq<Member>, key: bytes)
    requires !HasKey(ms, key)
    ensures Without(ms, key) == ms
  {
    if |ms| == 0 {
    } else {
      var init := ms[..|ms| - 1];
      assert forall i :: 0 <= i < |init| ==> init[i] == ms[i];
      WithoutAbsent(init, key);
    }
  }

  /** The state with the key first, the others in order, and the right-most dropped when there are too many. */
  function Inserted(ms: seq<Member>, m: Member): seq<Member> { Capped([m] + Without(ms, m.key)) }

  /** `TraceState.Get` */
  method Get(ms: seq<Member>, key: bytes) returns (value: bytes)
    ensures HasKey(ms, key) ==> exists i :: 0 <= i < |ms| && ms[i] == Member(key, value) && !HasKey(ms[..i], key)
    ensures !HasKey(ms, key) ==> value == []
  {
    for i := 0 to |ms|
      invariant !HasKey(ms[..i], key)
    {
      if ms[i].key == key { return ms[i].value; }
      assert ms[..i + 1] == ms[..i] + [ms[i]];
      HasKeyAppend(ms[..i], ms[i]);
    }
    assert ms[..|ms|] == ms;
    return [];
  }

  /** `TraceState.Insert`: the state given comes back with the error when key or value is invalid. */
  method Insert(ts: seq<Member>, key: bytes, value: bytes) returns (r: seq<Member>, err: Option<Error>)
    requires WellFormed(ts)
    ensures err == if !ValidKey(key) then Some(InvalidKey) else if !ValidValue(value) then Some(InvalidValue) else None
    ensures r == if err.Some? then ts else Inserted(ts, Member(key, value))
  {
    var m := NewMember(key, value);
    if m.Err? { return ts, Some(m.error); }
    hide WellFormed, Inserted, ValidKey, ValidValue;
    var found := Position(ts, key);
    InsertedAt(ts, m.value, found);
    var list := Copies(ts, m.value, found);
    ghost var want := Inserted(ts, m.value);
    assert forall i :: 0 < i < |want| ==> list[i] == want[i];
    assert list[..] == want;
    return list[..], None;
  }

  /** The new list: the new member, what stood before its key, what stood behind. */
  method Copies(ts: seq<Member>, m: Member, found: nat) returns (list: array<Member>)
    requires found <= |ts|
    ensures list.Length == if found == |ts| && |ts| < MAX_LIST_MEMBERS then |ts| + 1 else |ts|
    ensures list.Length > 0 && list[0] == m
    ensures forall i :: 0 < i < list.Length && i <= found ==> list[i] == ts[i - 1]
    ensures forall i :: found < i < list.Length && 0 < i ==> list[i] == ts[i]
  {
    var n := |ts|;
    var size := if found == n && n < MAX_LIST_MEMBERS then n + 1 else n;
    list := new Member[size](_ => m);
    list[0] := m;
    // Copying into a full list leaves out the right-most member.
    forall i | 1 <= i < Min(found + 1, size) { list[i] := ts[i - 1]; }
    if found < n {
      forall i | 1 + found <= i < n { list[i] := ts[i]; }
    }
  }

  /** Where key is, as the loop of Insert finds it. */
  method Position(ts: seq<Member>, key: bytes) returns (found: nat)
    ensures found <= |ts|
    ensures if found == |ts| then !HasKey(ts, key) else ts[found].key == key
  {
    found := |ts|;
    for i := 0 to |ts|
      invariant found == |ts| || found < i
      invariant if found == |ts| then forall j :: 0 <= j < i ==> ts[j].key != key else ts[found].key == key
    {
      if ts[i].key == key { found := i; }
    }
  }

  /** The inserted state, element by element. */
  lemma InsertedAt(ts: seq<Member>, m: Member, found: nat)
    requires WellFormed(ts) && found <= |ts|
    requires if found == |ts| then !HasKey(ts, m.key) else ts[found].key == m.key
    ensures var r := Inserted(ts, m);
      && |r| == (if found == |ts| < MAX_LIST_MEMBERS then |ts| + 1 else |ts|)
      && r[0] == m
      && (forall i :: 0 < i < |r| && i <= found ==> r[i] == ts[i - 1])
      && (forall i :: found < i < |r| ==> r[i] == ts[i])
  {
    if found < |ts| { WithoutAt(ts, found); } else { WithoutAbsent(ts, m.key); }
    assert |ts| <= MAX_LIST_MEMBERS;
    hide WellFormed, HasKey, Without, Capped;
    if found < |ts| { CappedPresent(m, ts, found); } else { CappedAbsent(m, ts); }
  }

  lemma CappedPresent(m: Member, ts: seq<Member>, found: nat)
    requires found < |ts| <= MAX_LIST_MEMBERS
    ensures var r := Capped([m] + (ts[..found] + ts[found + 1..]));
      && |r| == |ts| && r[0] == m
      && (forall i :: 0 < i <= found ==> r[i] == ts[i - 1]) && (forall i :: found < i < |ts| ==> r[i] == ts[i])
  {
    assert |ts[found + 1..]| == |ts| - found - 1;
  }

  lemma CappedAbsent(m: Member, ts: seq<Member>)
    requires |ts| <= MAX_LIST_MEMBERS
    ensures var r := Capped([m] + ts);
      && |r| == Min(|ts| + 1, MAX_LIST_MEMBERS) && r[0] == m && forall i :: 0 < i < |r| ==> r[i] == ts[i - 1]
  {}

  /** `TraceState.Delete` */
  method Delete(ts: seq<Member>, key: bytes) returns (members: seq<Member>)
    requires WellFormed(ts)
    ensures members == Without(ts, key)
  {
    members := ts;
    for i := 0 to |ts|
      invariant members == ts && forall j :: 0 <= j < i ==> ts[j].key != key
    {
      if ts[i].key == key {
        WithoutAt(ts, i);
        members := members[..i] + members[i + 1..];
        return;
      }
    }
    WithoutAbsent(ts, key);
  }

  /** Insert and Delete stay within well-formed states. */
  lemma ChangesKeepForm(ms: seq<Member>, m: Member)
    requires WellFormed(ms) && ValidMember(m)
    ensures WellFormed(Inserted(ms, m)) && WellFormed(Without(ms, m.key))
    ensures Inserted(ms, m)[0] == m
  {
    WithoutMembers(ms, m.key);
    var w := Without(ms, m.key);
    forall i | 0 <= i < |w| ensures ValidMember(w[i]) && w[i].key != m.key { assert w[i] in w; }
  }

  /** The order of the other members does not change, and only the last of 32 others is lost. */
  lemma InsertKeepsOthers(ms: seq<Member>, m: Member)
    requires UniqueKeys(ms) && |ms| <= MAX_LIST_MEMBERS
    ensures HasKey(ms, m.key) || |ms| < MAX_LIST_MEMBERS ==> Inserted(ms, m)[1..] == Without(ms, m.key)
    ensures !HasKey(ms, m.key) && |ms| == MAX_LIST_MEMBERS ==> Inserted(ms, m)[1..] == ms[..MAX_LIST_MEMBERS - 1]
  {
    if HasKey(ms, m.key) { WithoutPresent(ms, m.key); } else { WithoutAbsent(ms, m.key); }
    CappedHead(m, Without(ms, m.key));
  }

  lemma WithoutPresent(ms: seq<Member>, key: bytes)
    requires UniqueKeys(ms) && HasKey(ms, key)
    ensures |Without(ms, key)| == |ms| - 1
  {
    var i :| 0 <= i < |ms| && ms[i].key == key;
    WithoutAt(ms, i);
  }

  lemma CappedHead(m: Member, w: seq<Member>)
    requires |w| <= MAX_LIST_MEMBERS
    ensures Capped([m] + w)[1..] == if |w| == MAX_LIST_MEMBERS then w[..MAX_LIST_MEMBERS - 1] else w
  {}

  /** Deleting what was inserted gives the state without the key, unless a full state lost its last member. */
  lemma DeleteUndoesInsert(ms: seq<Member>, m: Member)
    requires WellFormed(ms) && ValidMember(m)
    ensures Without(Inserted(ms, m), m.key) == Without(ms, m.key) <==>
      HasKey(ms, m.key) || |ms| < MAX_LIST_MEMBERS
  {
    ChangesKeepForm(ms, m);
    InsertKeepsOthers(ms, m);
    if !HasKey(ms, m.key) { WithoutAbsent(ms, m.key); }
    hide Without, HasKey, Inserted;
    DeletedFirst(Inserted(ms, m));
  }

  lemma DeletedFirst(ms: seq<Member>)
    requires UniqueKeys(ms) && |ms| > 0
    ensures Without(ms, ms[0].key) == ms[1..]
  {
    WithoutAt(ms, 0);
    assert ms[..0] + ms[1..] == ms[1..];
  }

  // ---------------------------------------------------------------- the sizes and characters, spelled out

  predicate SmallLetter(b: int) { 'a' as int <= b <= 'z' as int }

  predicate Figure(b: int) { '0' as int <= b <= '9' as int }

  /** Small letters, digits, and `_-*' with the slash. */
  predicate InKey(b: int)
  {
    SmallLetter(b) || Figure(b) || b == '_' as int || b == '-' as int || b == '*' as int || b == '/' as int
  }

  /** A key without an at sign: a small letter, and up to 255 more characters. */
  lemma SimpleKeyIff(k: bytes)
    requires '@' as int !in k
    ensures ValidKey(k) <==>
      1 <= |k| <= 256 && SmallLetter(k[0]) && forall i :: 1 <= i < |k| ==> InKey(k[i])
  {
    if 1 <= |k| { assert forall i :: 1 <= i < |k| ==> k[i] == k[1..][i - 1]; }
  }

  /** A key with one: up to 241 characters before it, a small letter or a digit first, and up to 14 behind it. */
  lemma TenantKeyIff(tenant: bytes, system: bytes)
    requires '@' as int !in tenant
    ensures ValidKey(tenant + ['@' as int] + system) <==>
      && 1 <= |tenant| <= 241 && (SmallLetter(tenant[0]) || Figure(tenant[0]))
      && (forall i :: 1 <= i < |tenant| ==> InKey(tenant[i]))
      && 1 <= |system| <= 14 && SmallLetter(system[0]) && forall i :: 1 <= i < |system| ==> InKey(system[i])
  {
    CutFound(tenant, AT, system);
    CutKey(tenant + [AT] + system);
    hide Cut, ValidKey;
    PartsIff(tenant, system);
  }

  lemma PartsIff(tenant: bytes, system: bytes)
    ensures TenantPart(tenant, 240) <==>
      && 1 <= |tenant| <= 241 && (SmallLetter(tenant[0]) || Figure(tenant[0]))
      && forall i :: 1 <= i < |tenant| ==> InKey(tenant[i])
    ensures KeyPart(system, 13) <==>
      1 <= |system| <= 14 && SmallLetter(system[0]) && forall i :: 1 <= i < |system| ==> InKey(system[i])
  {
    if 1 <= |tenant| { assert forall i :: 1 <= i < |tenant| ==> tenant[i] == tenant[1..][i - 1]; }
    if 1 <= |system| { assert forall i :: 1 <= i < |system| ==> system[i] == system[1..][i - 1]; }
  }

  /** A value: up to 256 printable ASCII characters without comma and equals sign, the last one no space. */
  lemma ValueIff(v: bytes)
    ensures ValidValue(v) <==>
      && 1 <= |v| <= 256 && v[|v| - 1] != ' ' as int
      && forall i :: 0 <= i < |v| ==> 0x20 <= v[i] <= 0x7E && v[i] != ',' as int && v[i] != '=' as int
  {}

  /** A header holds at most 32 members, and any 32 valid members with different keys can stand in one. */
  lemma ThirtyTwoMembers(s: bytes, ms: seq<Member>)
    requires UniqueKeys(ms) && forall i :: 0 <= i < |ms| ==> ValidMember(ms[i])
    ensures Parse(s).Ok? ==> |Parse(s).value| <= 32
    ensures |ms| <= 32 ==> Parse(Print(ms)) == Ok(ms)
    ensures |ms| > 32 ==> Parse(Print(ms)).Err?
  {
    ParsedIsWellFormed(s);
    if |ms| <= 32 {
      RoundTrip(ms);
    } else {
      PiecesOfPrint(ms);
      if Parse(Print(ms)).Ok? { ParseIff(Print(ms), Parse(Print(ms)).value); }
    }
  }
}
