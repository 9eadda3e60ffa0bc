/** Propagation of a span context through the traceparent and tracestate headers of W3C Trace Context. */
module TraceContext {
  import opened Prelude
  import Hex
  import TraceState

  const DASH: byte := 0x2D
  const MAX_VERSION := 254
  const TRACEPARENT := "traceparent"
  const TRACESTATE := "tracestate"

  datatype SpanContext = SpanContext(
    traceID: bytes, spanID: bytes, flags: byte, state: seq<TraceState.Member>, remote: bool)

  /** IDs have their fixed sizes by type; the state is one the package could have made. */
  predicate Typed(sc: SpanContext)
  {
    |sc.traceID| == 16 && |sc.spanID| == 8 && TraceState.WellFormed(sc.state)
  }

  /** `SpanContext.IsValid` */
  predicate IsValid(sc: SpanContext) { !Hex.AllZero(sc.traceID) && !Hex.AllZero(sc.spanID) }

  /** The sampled (0x01) and random (0x02) bits of a flags byte. */
  function DefinedFlags(flags: byte): byte { flags % 4 }

  /** An `http.Header`, with one value a name. */
  class Carrier {
    var headers: map<string, bytes>

    constructor ()
      ensures headers == map[]
    {
      headers := map[];
    }

    /** Empty when the header is not there. */
    function Get(name: string): bytes
      reads this
    {
      if name in headers then headers[name] else []
    }

    method Set(name: string, value: bytes)
      modifies this
      ensures headers == old(headers)[name := value]
    {
      headers := headers[name := value];
    }
  }

  // ---------------------------------------------------------------- traceparent

  /** version "-" trace-id "-" parent-id "-" trace-flags, section 3.2.2 */
  function Header(version: byte, traceID: bytes, spanID: bytes, flags: byte): bytes
  {
    Hex.Encode([version]) + [DASH] + Hex.Encode(traceID) + [DASH] + Hex.Encode(spanID) + [DASH] + Hex.Encode([flags])
  }

  datatype Fields = Fields(version: byte, traceID: bytes, spanID: bytes, flags: byte)

  /** A reading of the header by position: lower-case digits and dashes where section 3.2.2 has them. */
  predicate Shaped(h: bytes)
  {
    && |h| >= 55
    && Hex.LowerHex(h[..2]) && h[2] == DASH
    && Hex.LowerHex(h[3..35]) && h[35] == DASH
    && Hex.LowerHex(h[36..52]) && h[52] == DASH
    && Hex.LowerHex(h[53..55])
    && (|h| > 55 ==> h[55] == DASH)
  }

  function FieldsOf(h: bytes): Fields
    requires Shaped(h)
  {
    Fields(Hex.Decode(h[..2])[0], Hex.Decode(h[3..35]), Hex.Decode(h[36..52]), Hex.Decode(h[53..55])[0])
  }

  /** What follows the dash after the four fields. */
  function Extra(h: bytes): bytes
    requires Shaped(h)
  {
    if |h| == 55 then [] else h[56..]
  }

  /** The tracestate read next to a traceparent: nothing when it does not parse. */
  function StateOf(header: bytes): seq<TraceState.Member>
  {
    var r := TraceState.Parse(header);
    if r.Ok? then r.value else []
  }

  /** What is extracted from the two headers. */
  function Extracted(h: bytes, ts: bytes): Option<SpanContext>
  {
    if !Shaped(h) then None else
    var f := FieldsOf(h);
    if f.version > MAX_VERSION || (f.version == 0 && (Extra(h) != [] || f.flags > 3)) then None else
    var sc := SpanContext(f.traceID, f.spanID, DefinedFlags(f.flags), StateOf(ts), true);
    if IsValid(sc) then Some(sc) else None
  }

  // ---------------------------------------------------------------- the code

  /** `Inject` */
  method Inject(sc: SpanContext, carrier: Carrier)
    requires Typed(sc)
    modifies carrier
    ensures carrier.headers ==
      if !IsValid(sc) then old(carrier.headers)
      else (if TraceState.Print(sc.state) != [] then old(carrier.headers)[TRACESTATE := TraceState.Print(sc.state)]
            else old(carrier.headers))
        [TRACEPARENT := Header(0, sc.traceID, sc.spanID, DefinedFlags(sc.flags))]
  {
    if !IsValid(sc) { return; }
    var ts := TraceState.String(sc.state);
    if ts != [] { carrier.Set(TRACESTATE, ts); }
    var flags := DefinedFlags(sc.flags);
    var sb := Hex.Encode([0]);
    var parts := [sc.traceID, sc.spanID, [flags]];
    ghost var want := Header(0, sc.traceID, sc.spanID, flags);
    for i := 0 to 3
      invariant i == 0 ==> sb == Hex.Encode([0])
      invariant i == 1 ==> sb == Hex.Encode([0]) + [DASH] + Hex.Encode(sc.traceID)
      invariant i == 2 ==> sb == Hex.Encode([0]) + [DASH] + Hex.Encode(sc.traceID) + [DASH] + Hex.Encode(sc.spanID)
      invariant i == 3 ==> sb == want
    {
      sb := sb + [DASH];
      sb := sb + Hex.Encode(parts[i]);
    }
    carrier.Set(TRACEPARENT, sb);
  }

  /** `hex.Decode` also takes upper-case digits; `upperHex` shuts those out. */
  predicate UpperHex(part: bytes) { exists i :: 0 <= i < |part| && 0x41 <= part[i] <= 0x46 }

  predicate AnyHexDigit(c: byte) { Hex.LowerHexDigit(c) || 0x41 <= c <= 0x46 }

  /** `hex.Decode`: None for an odd length or a byte that is no digit. */
  function LibraryDecode(part: bytes): (r: Option<bytes>)
  {
    if |part| % 2 == 0 && forall i :: 0 <= i < |part| ==> AnyHexDigit(part[i])
    then Some(if Hex.LowerHex(part) then Hex.Decode(part) else Hex.Decode(Lowered(part)))
    else None
  }

  function Lowered(part: bytes): (r: bytes)
    requires |part| % 2 == 0 && forall i :: 0 <= i < |part| ==> AnyHexDigit(part[i])
    ensures |r| == |part| && Hex.LowerHex(r)
  {
    var r: bytes := seq(|part|, i requires 0 <= i < |part| => LoweredDigit(part[i]));
    assert forall i :: 0 <= i < |r| ==> r[i] == LoweredDigit(part[i]);
    r
  }

  function LoweredDigit(c: byte): (d: byte)
    requires AnyHexDigit(c)
    ensures Hex.LowerHexDigit(d)
  {
    if 0x41 <= c <= 0x46 then c + 0x20 else c
  }

  /** `extractPart`: the bytes decoded and what is left of the header. */
  method ExtractPart(h: bytes, n: nat) returns (dst: Option<bytes>, left: bytes)
    requires n % 2 == 0
    ensures dst.Some? <==> Piece(h, n)
    ensures dst.Some? ==> dst.value == Hex.Decode(h[..n]) && left == h[Min(n + 1, |h|)..]
  {
    var (part, rest, found) := TraceState.Cut(h, DASH);
    CutPiece(h, n);
    left := rest;
    if |part| != n { return None, left; }
    LibraryReads(part);
    hide LibraryDecode;
    if UpperHex(part) { return None, left; }
    dst := LibraryDecode(part);
    if dst.None? || |dst.value| != n / 2 { return None, left; }
  }

  lemma LibraryReads(part: bytes)
    requires |part| % 2 == 0
    ensures Hex.LowerHex(part) <==> !UpperHex(part) && LibraryDecode(part).Some?
    ensures Hex.LowerHex(part) ==> LibraryDecode(part) == Some(Hex.Decode(part))
  {
    hide Hex.Decode;
    if Hex.LowerHex(part) {
      assert forall i :: 0 <= i < |part| ==> Hex.LowerHexDigit(part[i]);
    } else {
      var i :| 0 <= i < |part| && !Hex.LowerHexDigit(part[i]);
    }
  }

  /** n lower-case digits at the front, then a dash or the end. */
  predicate Piece(h: bytes, n: nat)
  {
    |h| >= n && Hex.LowerHex(h[..n]) && (|h| > n ==> h[n] == DASH)
  }

  lemma NoDash(s: bytes)
    requires Hex.LowerHex(s)
    ensures DASH !in s
  {}

  lemma SplitAt(h: bytes, n: nat)
    requires n < |h|
    ensures h == h[..n] + [h[n]] + h[n + 1..]
  {}

  lemma CutAtPiece(h: bytes, n: nat)
    requires Piece(h, n)
    ensures TraceState.Cut(h, DASH).0 == h[..n] && TraceState.Cut(h, DASH).1 == h[Min(n + 1, |h|)..]
  {
    NoDash(h[..n]);
    if |h| > n {
      SplitAt(h, n);
      TraceState.CutFound(h[..n], DASH, h[n + 1..]);
    } else {
      assert h[..n] == h;
      TraceState.CutAbsent(h, DASH);
    }
  }

  lemma CutPiece(h: bytes, n: nat)
    ensures var (part, rest, _) := TraceState.Cut(h, DASH);
      && (Piece(h, n) <==> |part| == n && Hex.LowerHex(part))
      && (Piece(h, n) ==> part == h[..n] && rest == h[Min(n + 1, |h|)..])
  {
    var part := TraceState.Cut(h, DASH).0;
    if Piece(h, n) {
      CutAtPiece(h, n);
    } else if |part| == n {
      assert h[..n] == part;
    }
  }

  /** `extract`, with the zero SpanContext as None */
  method Extract(carrier: Carrier) returns (r: Option<SpanContext>)
    ensures r == Extracted(carrier.Get(TRACEPARENT), carrier.Get(TRACESTATE))
  {
    var h := carrier.Get(TRACEPARENT);
    if h == [] { return None; }
    var f, extra := ExtractFields(h);
    if f.None? { return None; }
    if f.value.version == 0 && (extra != [] || f.value.flags > 3) { return None; }
    var ts := TraceState.ParseTraceState(carrier.Get(TRACESTATE));
    var state := if ts.Ok? then ts.value else [];
    var sc := SpanContext(f.value.traceID, f.value.spanID, DefinedFlags(f.value.flags), state, true);
    if !IsValid(sc) { return None; }
    return Some(sc);
  }

  /** The four calls of extractPart and the version check. */
  method ExtractFields(header: bytes) returns (f: Option<Fields>, extra: bytes)
    ensures f.Some? <==> Shaped(header) && FieldsOf(header).version <= MAX_VERSION
    ensures f.Some? ==> f.value == FieldsOf(header) && extra == Extra(header)
  {
    ShapedByPieces(header);
    var ver, h1 := ExtractPart(header, 2);
    if ver.None? { return None, h1; }
    var version := ver.value[0];
    if version > MAX_VERSION { return None, h1; }
    var traceID, h2 := ExtractPart(h1, 32);
    if traceID.None? { return None, h2; }
    var spanID, h3 := ExtractPart(h2, 16);
    if spanID.None? { return None, h3; }
    var opts, h4 := ExtractPart(h3, 2);
    if opts.None? { return None, h4; }
    return Some(Fields(version, traceID.value, spanID.value, opts.value[0])), h4;
  }

  /** Reading piece after piece is reading by position. */
  lemma ShapedByPieces(h: bytes)
    ensures var h1 := h[Min(3, |h|)..];
      var h2 := h1[Min(33, |h1|)..];
      var h3 := h2[Min(17, |h2|)..];
      && (Shaped(h) <==> Piece(h, 2) && Piece(h1, 32) && Piece(h2, 16) && Piece(h3, 2))
      && (Shaped(h) ==>
        && h1[..32] == h[3..35] && h2[..16] == h[36..52] && h3[..2] == h[53..55]
        && Extra(h) == h3[Min(3, |h3|)..])
  {
    var h1 := h[Min(3, |h|)..];
    var h2 := h1[Min(33, |h1|)..];
    var h3 := h2[Min(17, |h2|)..];
    if |h| >= 55 {
      assert h1[..32] == h[3..35] && h1[32] == h[35];
      assert h2 == h[36..] && h2[..16] == h[36..52] && h2[16] == h[52];
      assert h3 == h[53..] && h3[..2] == h[53..55];
      if |h| > 55 { assert h3[2] == h[55] && h3[3..] == h[56..]; }
    }
  }

  // ---------------------------------------------------------------- round trips

  lemma HeaderShape(version: byte, traceID: bytes, spanID: bytes, flags: byte)
    requires |traceID| == 16 && |spanID| == 8
    ensures var h := Header(version, traceID, spanID, flags);
      |h| == 55 && Shaped(h) && FieldsOf(h) == Fields(version, traceID, spanID, flags)
  {
    var h := Header(version, traceID, spanID, flags);
    Hex.DecodeEncode([version]);
    Hex.DecodeEncode(traceID);
    Hex.DecodeEncode(spanID);
    Hex.DecodeEncode([flags]);
    assert h[..2] == Hex.Encode([version]);
    assert h[3..35] == Hex.Encode(traceID);
    assert h[36..52] == Hex.Encode(spanID);
    assert h[53..55] == Hex.Encode([flags]);
  }

  lemma ExtractedHeader(traceID: bytes, spanID: bytes, flags: byte, ts: bytes)
    requires |traceID| == 16 && |spanID| == 8 && !Hex.AllZero(traceID) && !Hex.AllZero(spanID) && flags <= 3
    ensures Extracted(Header(0, traceID, spanID, flags), ts)
      == Some(SpanContext(traceID, spanID, flags, StateOf(ts), true))
  {
    HeaderShape(0, traceID, spanID, flags);
    var h := Header(0, traceID, spanID, flags);
    assert Extra(h) == [] && FieldsOf(h) == Fields(0, traceID, spanID, flags);
  }

  /** A shaped header is its own fields printed, and perhaps more. */
  lemma ShapedIsHeader(h: bytes)
    requires Shaped(h)
    ensures var f := FieldsOf(h); h[..55] == Header(f.version, f.traceID, f.spanID, f.flags)
  {
    var f := FieldsOf(h);
    Hex.EncodeDecode(h[..2]);
    Hex.EncodeDecode(h[3..35]);
    Hex.EncodeDecode(h[36..52]);
    Hex.EncodeDecode(h[53..55]);
    assert Hex.Decode(h[..2]) == [f.version] && Hex.Decode(h[53..55]) == [f.flags];
    assert h[..55] == h[..2] + [h[2]] + h[3..35] + [h[35]] + h[36..52] + [h[52]] + h[53..55];
  }

  /** The headers after Inject. */
  function Injected(headers: map<string, bytes>, sc: SpanContext): map<string, bytes>
  {
    var ts := TraceState.Print(sc.state);
    (if ts != [] then headers[TRACESTATE := ts] else headers)
      [TRACEPARENT := Header(0, sc.traceID, sc.spanID, DefinedFlags(sc.flags))]
  }

  function HeaderOf(headers: map<string, bytes>, name: string): bytes
  {
    if name in headers then headers[name] else []
  }

  /**
    Extracting after injecting gives back the IDs, the two defined flags and the tracestate, marked
    remote, whatever the carrier held before; only a stale tracestate header shows through an empty one.
   */
  lemma InjectExtract(headers: map<string, bytes>, sc: SpanContext)
    requires Typed(sc) && IsValid(sc)
    ensures var after := Injected(headers, sc);
      var state := if sc.state == [] then StateOf(HeaderOf(headers, TRACESTATE)) else sc.state;
      Extracted(HeaderOf(after, TRACEPARENT), HeaderOf(after, TRACESTATE))
        == Some(SpanContext(sc.traceID, sc.spanID, DefinedFlags(sc.flags), state, true))
  {
    InjectedHeaders(headers, sc);
    ExtractedHeader(sc.traceID, sc.spanID, DefinedFlags(sc.flags), HeaderOf(Injected(headers, sc), TRACESTATE));
    if sc.state != [] { TraceState.RoundTrip(sc.state); }
  }

  lemma InjectedHeaders(headers: map<string, bytes>, sc: SpanContext)
    requires Typed(sc)
    ensures var after := Injected(headers, sc);
      && HeaderOf(after, TRACEPARENT) == Header(0, sc.traceID, sc.spanID, DefinedFlags(sc.flags))
      && HeaderOf(after, TRACESTATE) ==
        if sc.state == [] then HeaderOf(headers, TRACESTATE) else TraceState.Print(sc.state)
  {
    TraceState.PiecesOfPrint(sc.state);
    assert TRACEPARENT != TRACESTATE by { assert |TRACEPARENT| != |TRACESTATE|; }
  }

  /** From an empty carrier the span context comes back as it was. */
  lemma InjectExtractEmpty(sc: SpanContext)
    requires Typed(sc) && IsValid(sc)
    ensures var after := Injected(map[], sc);
      Extracted(HeaderOf(after, TRACEPARENT), HeaderOf(after, TRACESTATE))
        == Some(sc.(flags := DefinedFlags(sc.flags), remote := true))
  {
    InjectExtract(map[], sc);
  }

  /** What is extracted after injecting sc into a carrier with these headers. */
  function InjectedAndExtracted(headers: map<string, bytes>, sc: SpanContext): Option<SpanContext>
    requires Typed(sc)
  {
    Extracted(HeaderOf(Injected(headers, sc), TRACEPARENT), HeaderOf(Injected(headers, sc), TRACESTATE))
  }

  /** The state comes back exactly when there is one, or the carrier's old tracestate header reads as none. */
  lemma StateComesBackIff(headers: map<string, bytes>, sc: SpanContext)
    requires Typed(sc) && IsValid(sc)
    ensures InjectedAndExtracted(headers, sc) == Some(sc.(flags := DefinedFlags(sc.flags), remote := true)) <==>
      sc.state != [] || StateOf(HeaderOf(headers, TRACESTATE)) == []
  {
    InjectExtract(headers, sc);
  }

  /** Any state left in a carrier by an earlier call is taken for that of a context without one. */
  lemma StaleStateShows(stale: seq<TraceState.Member>, sc: SpanContext)
    requires Typed(sc) && IsValid(sc) && sc.state == [] && TraceState.WellFormed(stale)
    ensures var r := InjectedAndExtracted(map[TRACESTATE := TraceState.Print(stale)], sc);
      r.Some? && r.value.state == stale
  {
    InjectExtract(map[TRACESTATE := TraceState.Print(stale)], sc);
    TraceState.RoundTrip(stale);
  }

  /** What is extracted is always a context that could have been injected. */
  lemma ExtractedIsTyped(h: bytes, ts: bytes)
    ensures Extracted(h, ts).Some? ==>
      var sc := Extracted(h, ts).value; Typed(sc) && IsValid(sc) && sc.remote && sc.flags < 4
  {
    TraceState.ParsedIsWellFormed(ts);
  }

  /**
    Exactly the version-00 headers that are accepted: a canonical header with valid identifiers and
    flags of at most 3, or the same with one dash after it.
   */
  lemma VersionZeroAccepted(h: bytes, ts: bytes)
    requires Shaped(h) && FieldsOf(h).version == 0
    ensures Extracted(h, ts).Some? <==>
      var f := FieldsOf(h);
      && !Hex.AllZero(f.traceID) && !Hex.AllZero(f.spanID) && f.flags <= 3
      && (h == Header(0, f.traceID, f.spanID, f.flags) || h == Header(0, f.traceID, f.spanID, f.flags) + [DASH])
  {
    var f := FieldsOf(h);
    ShapedIsHeader(h);
    var canonical := Header(0, f.traceID, f.spanID, f.flags);
    if |h| == 55 { assert h[..55] == h; } else { assert h == h[..55] + [DASH] + h[56..]; }
    if Extra(h) == [] && |h| > 55 { assert h == canonical + [DASH]; }
    HeaderShape(0, f.traceID, f.spanID, f.flags);
  }

  /** Section 3.2.2 gives version 00 no room after the flags, yet one more dash is let through. */
  lemma TrailingDashAccepted(sc: SpanContext)
    requires Typed(sc) && IsValid(sc)
    ensures Extracted(Header(0, sc.traceID, sc.spanID, DefinedFlags(sc.flags)) + [DASH], []).Some?
  {
    var h := Header(0, sc.traceID, sc.spanID, DefinedFlags(sc.flags));
    HeaderShape(0, sc.traceID, sc.spanID, DefinedFlags(sc.flags));
    var d := h + [DASH];
    assert d[..2] == h[..2] && d[3..35] == h[3..35] && d[36..52] == h[36..52] && d[53..55] == h[53..55];
    assert Shaped(d) && FieldsOf(d) == FieldsOf(h);
    assert d[..55] == h;
    VersionZeroAccepted(d, []);
  }

  // ---------------------------------------------------------------- every version

  /** The header is that of these fields, followed by rest. */
  predicate ReadsAs(h: bytes, version: byte, sc: SpanContext, flags: byte, rest: bytes)
  {
    && |sc.traceID| == 16 && |sc.spanID| == 8
    && h == Header(version, sc.traceID, sc.spanID, flags) + rest && (rest != [] ==> rest[0] == DASH)
  }

  /** Section 3.2.2 with the leniency of the code, and what is read from such a header. */
  predicate Accepts(h: bytes, ts: bytes, sc: SpanContext, version: byte, flags: byte, rest: bytes)
  {
    && ReadsAs(h, version, sc, flags, rest) && version <= 254
    && (version == 0 ==> flags <= 3 && (rest == [] || rest == [0x2D]))
    && IsValid(sc) && sc.flags == flags % 4 && sc.remote && sc.state == StateOf(ts)
  }

  /**
    Any two headers: sc is extracted exactly when traceparent is a header of a version up to 254 with these
    identifiers, not all zero, followed by nothing or by a dash and more; of version 0 followed by at most a
    dash, with flags of at most 3.  The context has the two defined flags, is remote, and has the state of the
    tracestate header, or none if that does not parse.
   */
  lemma ExtractedIff(h: bytes, ts: bytes, sc: SpanContext)
    ensures Extracted(h, ts) == Some(sc) <==>
      exists version: byte, flags: byte, rest: bytes :: Accepts(h, ts, sc, version, flags, rest)
  {
    if Extracted(h, ts) == Some(sc) {
      var f := FieldsOf(h);
      ShapedIsHeader(h);
      var rest := h[55..];
      assert h == h[..55] + rest;
      assert Extra(h) == [] ==> rest == [] || rest == [DASH];
      assert Accepts(h, ts, sc, f.version, f.flags, rest);
    }
    if version: byte, flags: byte, rest: bytes :| Accepts(h, ts, sc, version, flags, rest) {
      ReadBack(h, version, sc, flags, rest);
    }
  }

  lemma ReadBack(h: bytes, version: byte, sc: SpanContext, flags: byte, rest: bytes)
    requires ReadsAs(h, version, sc, flags, rest)
    ensures Shaped(h) && FieldsOf(h) == Fields(version, sc.traceID, sc.spanID, flags)
    ensures Extra(h) == if rest == [] then [] else rest[1..]
  {
    var c := Header(version, sc.traceID, sc.spanID, flags);
    HeaderShape(version, sc.traceID, sc.spanID, flags);
    assert h[..2] == c[..2] && h[3..35] == c[3..35] && h[36..52] == c[36..52] && h[53..55] == c[53..55];
    assert rest != [] ==> h[55] == rest[0] && h[56..] == rest[1..];
  }

  /** The fields of a header stand in this order, each as wide as its digits, with dashes between them. */
  lemma HeaderPlaces(version: byte, traceID: bytes, spanID: bytes, flags: byte)
    requires |traceID| == 16 && |spanID| == 8
    ensures var h := Header(version, traceID, spanID, flags);
      && |h| == 55 && h[..2] == Hex.Encode([version]) && h[3..35] == Hex.Encode(traceID)
      && h[36..52] == Hex.Encode(spanID) && h[53..] == Hex.Encode([flags])
      && h[2] == 0x2D && h[35] == 0x2D && h[52] == 0x2D
  {}

  /** The two headers by their names. */
  lemma InjectedByName(headers: map<string, bytes>, sc: SpanContext)
    requires Typed(sc)
    ensures var after := Injected(headers, sc);
      && "traceparent" in after && after["traceparent"] == Header(0, sc.traceID, sc.spanID, sc.flags % 4)
      && (sc.state != [] ==> "tracestate" in after && after["tracestate"] == TraceState.Print(sc.state))
      && forall name :: name != "traceparent" && (name != "tracestate" || sc.state == []) ==>
        (name in after <==> name in headers) && (name in after ==> after[name] == headers[name])
  {
    TraceState.PiecesOfPrint(sc.state);
    assert |TRACEPARENT| != |TRACESTATE|;
    hide Header;
  }
}
