/** `encodeMessage` and `decodeMessage` undo each other, exactly as far as they do. */
module MessageLaws {
  import opened Results
  import opened Hosts
  import opened Primitives
  import opened Messages
  import opened FrameRules
  import opened FrameEncoder
  import opened FrameDecoder
  import opened FrameLaws
  import opened DetailsCodec
  import opened Grammar
  import opened UnknownFrames
  import opened Envelope

  function WireFrames(host: Host, fs: seq<Frame>): (ws: seq<Frame>)
    ensures |ws| == |fs|
  {
    seq(|fs|, i requires 0 <= i < |fs| => WireFrame(host, fs[i]))
  }

  function WireMessage(host: Host, m: Message): Message { m.(frames := WireFrames(host, m.frames)) }

  /** No text the message puts on the wire starts with U+FEFF. */
  predicate AllFramesClean(host: Host, fs: seq<Frame>) { forall i :: 0 <= i < |fs| ==> FrameClean(host, fs[i]) }

  /** JSON fields hold JSON and inline segments are segments. */
  predicate AllAcceptable(host: Host, fs: seq<Frame>) { forall i :: 0 <= i < |fs| ==> Acceptable(host, fs[i]) }

  predicate OfKind(kind: MsgKind, fs: seq<Frame>) { forall i :: 0 <= i < |fs| ==> FrameOfKind(kind, fs[i]) }

  predicate HasDetails(fs: seq<Frame>) { exists i :: 0 <= i < |fs| && fs[i].PushResultDetails? }

  predicate AllFit(host: Host, v: int, fs: seq<Frame>) { forall i :: 0 <= i < |fs| ==> Fits(host, v, fs[i]) }

  // ----- The header ----------------------------------------------------------------------------------

  lemma HeaderRoundTrip(v: int, kind: MsgKind, k: bytes)
    requires IsSupported(v)
    ensures ReadHeader(PutHeader(v, kind, k)) == Parsed((v, kind), k)
  {
    var s3 := PutU8(0, k);
    var s2 := PutU8(KindByte(kind), s3);
    var s1 := PutU16(v, s2);
    var s := PutRaw(MAGIC, s1);
    assert s[..4] == MAGIC && s[4..] == s1;
    U16RoundTrip(v, s2);
    U8Laws(KindByte(kind), s3, []);
    U8Laws(0, k, []);
  }

  lemma HeaderExact(s: bytes)
    requires ReadHeader(s).Parsed?
    ensures var (v, kind) := ReadHeader(s).value;
            IsSupported(v) && s == PutHeader(v, kind, ReadHeader(s).rest)
    ensures |s| == 8 + |ReadHeader(s).rest|
  {
    var s1 := s[4..];
    assert s == s[..4] + s1;
    U16Exact(s1);
    var s2 := s1[2..];
    U8Laws(0, [], s2);
    U8Laws(0, [], s2[1..]);
  }

  // ----- Frame lists -----------------------------------------------------------------------------------

  lemma EndRecord()
    ensures ReadRecord(PutU8(END, PutU32(0, []))) == Parsed((END, []), [])
  {
    RecordRoundTrip(END, [], []);
    assert PutRaw([], []) == [];
  }

  lemma OneFrame(host: Host, keepBom: bool, kind: MsgKind, v: int, t: int, payload: bytes, k: bytes)
    requires IsU8(t) && t != END && IsBytes(payload)
    ensures ReadFrames(host, keepBom, kind, v, PutU8(t, PutBytes(payload, k)))
         == match DecodePayload(host, keepBom, kind, v, t, payload)
            case Err(c) => Err(c)
            case Ok(f) =>
              match ReadFrames(host, keepBom, kind, v, k)
              case Err(c) => Err(c)
              case Ok(fs) => Ok([f] + fs)
  {
    hide ReadRecord, DecodePayload, PutU8, PutBytes;
    RecordRoundTrip(t, payload, k);
    RecordProgress(PutU8(t, PutBytes(payload, k)));
  }

  /** One trip of a frame list: with marks kept always, with marks dropped exactly on clean lists. */
  lemma {:induction false} FramesRoundTrip(host: Host, kind: MsgKind, v: int, fs: seq<Frame>)
    requires OfKind(kind, fs) && FramesEncodable(host, v, fs) && AllAcceptable(host, fs)
    requires HasDetails(fs) ==> PrintsFaithfully(host)
    ensures ReadFrames(host, true, kind, v, PutFrames(host, v, fs)) == Ok(WireFrames(host, fs))
    ensures ReadFrames(host, false, kind, v, PutFrames(host, v, fs)) == Ok(WireFrames(host, fs)) <==> AllFramesClean(host, fs)
    decreases |fs|
  {
    hide FrameClean, Acceptable, FrameOfKind, Payload, DecodePayload, WireFrame, PutU8, PutU32, PutBytes, Fits, FrameType;
    if fs == [] {
      EndRecord();
    } else {
      var f, rest := fs[0], fs[1..];
      assert f.PushResultDetails? ==> HasDetails(fs);
      if i :| 0 <= i < |rest| && rest[i].PushResultDetails? { assert fs[i + 1].PushResultDetails?; }
      assert FrameEncodable(host, v, f);
      FramesRoundTrip(host, kind, v, rest);
      FrameRoundTrip(host, kind, v, f);
      KindOfType(kind, v, host, f);
      var k := PutFrames(host, v, rest);
      OneFrame(host, true, kind, v, FrameType(f), Payload(host, v, f), k);
      OneFrame(host, false, kind, v, FrameType(f), Payload(host, v, f), k);
      WireFramesStep(host, fs);
      CleanStep(host, fs);
      Compare(ReadFrames(host, false, kind, v, PutFrames(host, v, fs)), DecodePayload(host, false, kind, v, FrameType(f), Payload(host, v, f)),
              ReadFrames(host, false, kind, v, k), WireFrame(host, f), WireFrames(host, rest));
    }
  }

  lemma WireFramesStep(host: Host, fs: seq<Frame>)
    requires fs != []
    ensures WireFrames(host, fs) == [WireFrame(host, fs[0])] + WireFrames(host, fs[1..])
  {
    hide WireFrame;
  }

  lemma CleanStep(host: Host, fs: seq<Frame>)
    requires fs != []
    ensures AllFramesClean(host, fs) <==> FrameClean(host, fs[0]) && AllFramesClean(host, fs[1..])
  {
    hide FrameClean;
    if FrameClean(host, fs[0]) && AllFramesClean(host, fs[1..]) {
      forall i | 0 <= i < |fs| ensures FrameClean(host, fs[i]) {
        if i > 0 { assert fs[i] == fs[1..][i - 1]; }
      }
    }
  }

  /** A list is the expected one exactly when its head and its tail are. */
  lemma Compare(whole: Result<seq<Frame>>, head: Result<Frame>, tail: Result<seq<Frame>>, f: Frame, fs: seq<Frame>)
    requires whole == match head
                      case Err(c) => Err(c)
                      case Ok(x) =>
                        match tail
                        case Err(c) => Err(c)
                        case Ok(xs) => Ok([x] + xs)
    ensures whole == Ok([f] + fs) <==> head == Ok(f) && tail == Ok(fs)
  {
    if head.Ok? && tail.Ok? && whole == Ok([f] + fs) {
      assert whole.value[0] == head.value && whole.value[1..] == tail.value;
      assert ([f] + fs)[0] == f && ([f] + fs)[1..] == fs;
    }
  }

  /** The details texts of all frames are printed ones. */
  predicate FramesPrinted(host: Host, kind: MsgKind, s: bytes)
    decreases |s|
  {
    match ReadRecord(s)
    case Failed(_) => true
    case Parsed((t, payload), k) =>
      RecordProgress(s);
      t == END || ((kind.Response? && t == 0x1B ==> PayloadPrinted(host, payload)) && FramesPrinted(host, kind, k))
  }

  lemma {:induction false} EncodedFramesPrinted(host: Host, kind: MsgKind, v: int, fs: seq<Frame>)
    requires OfKind(kind, fs) && FramesEncodable(host, v, fs) && (HasDetails(fs) ==> PrintsFaithfully(host))
    ensures FramesPrinted(host, kind, PutFrames(host, v, fs))
    decreases |fs|
  {
    hide FrameOfKind, Payload, PutU8, PutU32, PutBytes, Fits, FrameType, PayloadPrinted, ReadRecord, PrintsFaithfully;
    if fs == [] {
      EndRecord();
    } else {
      var f, rest := fs[0], fs[1..];
      assert FrameEncodable(host, v, f) && (f.PushResultDetails? ==> HasDetails(fs));
      if HasDetails(rest) { RestHasDetails(fs); }
      EncodedFramesPrinted(host, kind, v, rest);
      KindOfType(kind, v, host, f);
      RecordRoundTrip(FrameType(f), Payload(host, v, f), PutFrames(host, v, rest));
      DetailsType(kind, v, host, f);
      if f.PushResultDetails? { EncodedIsPrinted(host, v, f); }
    }
  }

  lemma RestHasDetails(fs: seq<Frame>)
    requires fs != [] && HasDetails(fs[1..])
    ensures HasDetails(fs)
  {
    var i :| 0 <= i < |fs| - 1 && fs[1..][i].PushResultDetails?;
    assert fs[i + 1].PushResultDetails?;
  }

  lemma DetailsType(kind: MsgKind, v: int, host: Host, f: Frame)
    requires FrameOfKind(kind, f) && Fits(host, v, f)
    ensures FrameType(f) == 0x1B <==> f.PushResultDetails?
  {
    hide IsStr;
  }

  lemma {:induction false} NoDetailsPrinted(host: Host, kind: MsgKind, v: int, s: bytes)
    requires ReadFrames(host, false, kind, v, s).Ok? && !HasDetails(ReadFrames(host, false, kind, v, s).value)
    ensures FramesPrinted(host, kind, s)
    decreases |s|
  {
    hide DecodePayload, ReadRecord, PayloadPrinted;
    RecordProgress(s);
    var (t, payload) := ReadRecord(s).value;
    if t != END {
      var f := DecodePayload(host, false, kind, v, t, payload).value;
      var rest := ReadFrames(host, false, kind, v, ReadRecord(s).rest).value;
      NoDetailsStep(f, rest);
      NotDetails(host, kind, v, t, payload);
      NoDetailsPrinted(host, kind, v, ReadRecord(s).rest);
    }
  }

  lemma NoDetailsStep(f: Frame, rest: seq<Frame>)
    requires !HasDetails([f] + rest)
    ensures !f.PushResultDetails? && !HasDetails(rest)
  {
    var fs := [f] + rest;
    assert fs[0] == f;
    forall i | 0 <= i < |rest| ensures !rest[i].PushResultDetails? { assert rest[i] == fs[i + 1]; }
  }

  /** What every decoded frame list satisfies; each frame took five bytes at least. */
  lemma {:induction false} FramesSound(host: Host, keepBom: bool, kind: MsgKind, v: int, s: bytes)
    requires ReadFrames(host, keepBom, kind, v, s).Ok?
    ensures var fs := ReadFrames(host, keepBom, kind, v, s).value;
            && OfKind(kind, fs) && AllFit(host, v, fs) && AllAcceptable(host, fs) && WireFrames(host, fs) == fs
            && 5 * (|fs| + 1) <= |s|
            && (forall i :: 0 <= i < |fs| && !fs[i].PushResultDetails? ==> IsBytes(Payload(host, v, fs[i])))
            && (PrintsCompactly(host) ==> forall i :: 0 <= i < |fs| ==> IsBytes(Payload(host, v, fs[i])))
            && (keepBom && FramesPrinted(host, kind, s) ==> PutFrames(host, v, fs) == s)
    decreases |s|
  {
    hide FrameClean, Acceptable, FrameOfKind, Payload, DecodePayload, WireFrame, Fits, FrameType, ReadRecord, PutU8, PutU32, PutBytes, PrintsCompactly, PayloadPrinted;
    RecordProgress(s);
    var (t, payload) := ReadRecord(s).value;
    var k := ReadRecord(s).rest;
    var fs := ReadFrames(host, keepBom, kind, v, s).value;
    if t == END {
      EndBytes(s);
    } else {
      var f := DecodePayload(host, keepBom, kind, v, t, payload).value;
      var rest := ReadFrames(host, keepBom, kind, v, k).value;
      assert fs == [f] + rest && fs[1..] == rest;
      FramesSound(host, keepBom, kind, v, k);
      FrameSound(host, keepBom, kind, v, t, payload);
      PayloadSize(host, keepBom, kind, v, t, payload);
      WireFramesStep(host, fs);
      ForAllFrames(host, v, kind, f, rest);
      if keepBom && FramesPrinted(host, kind, s) { PrintedFrame(host, kind, v, t, payload); }
    }
  }

  lemma EndBytes(s: bytes)
    requires ReadRecord(s).Parsed? && ReadRecord(s).value == (END, []) && ReadRecord(s).rest == []
    ensures s == PutU8(END, PutU32(0, [])) && |s| == 5
  {
    RecordProgress(s);
    assert PutRaw([], []) == [];
  }

  lemma PayloadSize(host: Host, keepBom: bool, kind: MsgKind, v: int, t: int, payload: bytes)
    requires IsU8(t) && t != END && IsBytes(payload) && DecodePayload(host, keepBom, kind, v, t, payload).Ok?
    ensures var f := DecodePayload(host, keepBom, kind, v, t, payload).value;
            !f.PushResultDetails? || PrintsCompactly(host) ==> IsBytes(Payload(host, v, f))
  {
    hide DecodeDefined, Payload, PrintsCompactly;
    FrameSound(host, keepBom, kind, v, t, payload);
    var f := DecodePayload(host, keepBom, kind, v, t, payload).value;
    if f.PushResultDetails? && PrintsCompactly(host) {
      assert t == 0x1B;
      DetailsSize(host, keepBom, v, payload);
    }
  }

  lemma ForAllFrames(host: Host, v: int, kind: MsgKind, f: Frame, rest: seq<Frame>)
    requires FrameOfKind(kind, f) && Fits(host, v, f) && Acceptable(host, f)
    requires OfKind(kind, rest) && AllFit(host, v, rest) && AllAcceptable(host, rest)
    ensures OfKind(kind, [f] + rest) && AllFit(host, v, [f] + rest) && AllAcceptable(host, [f] + rest)
  {
    hide FrameOfKind, Fits, Acceptable;
    var fs := [f] + rest;
    forall i | 0 < i < |fs| ensures fs[i] == rest[i - 1] {}
  }

  /** One frame whose details texts are printed is encoded to the payload it came in. */
  lemma PrintedFrame(host: Host, kind: MsgKind, v: int, t: int, payload: bytes)
    requires IsU8(t) && t != END && DecodePayload(host, true, kind, v, t, payload).Ok?
    requires kind.Response? && t == 0x1B ==> PayloadPrinted(host, payload)
    ensures Payload(host, v, DecodePayload(host, true, kind, v, t, payload).value) == payload
  {
    hide DecodeDefined, Payload, PayloadPrinted, Fits, Acceptable, WireFrame;
    FrameSound(host, true, kind, v, t, payload);
    var f := DecodePayload(host, true, kind, v, t, payload).value;
    if f.PushResultDetails? {
      assert t == 0x1B;
      DetailsExact(host, v, payload);
    }
  }

  /** On bytes free of marks, with printed details, the two decoders agree. */
  lemma {:induction false} FramesAgree(host: Host, kind: MsgKind, v: int, s: bytes)
    requires ReadFrames(host, true, kind, v, s).Ok? && FramesPrinted(host, kind, s)
    requires AllFramesClean(host, ReadFrames(host, true, kind, v, s).value)
    ensures ReadFrames(host, false, kind, v, s) == ReadFrames(host, true, kind, v, s)
    decreases |s|
  {
    hide FrameClean, Acceptable, DecodePayload, WireFrame, Fits, FrameType, ReadRecord, FrameOfKind, PayloadPrinted;
    RecordProgress(s);
    var (t, payload) := ReadRecord(s).value;
    var k := ReadRecord(s).rest;
    if t != END {
      var gs := ReadFrames(host, true, kind, v, s).value;
      assert gs[1..] == ReadFrames(host, true, kind, v, k).value && gs[0] == DecodePayload(host, true, kind, v, t, payload).value;
      CleanStep(host, gs);
      FramesAgree(host, kind, v, k);
      FrameAgreesToo(host, kind, v, t, payload);
    }
  }

  lemma FrameAgreesToo(host: Host, kind: MsgKind, v: int, t: int, payload: bytes)
    requires DecodePayload(host, true, kind, v, t, payload).Ok?
    requires FrameClean(host, DecodePayload(host, true, kind, v, t, payload).value)
    requires kind.Response? && t == 0x1B ==> PayloadPrinted(host, payload)
    ensures DecodePayload(host, false, kind, v, t, payload) == DecodePayload(host, true, kind, v, t, payload)
  {
    hide DecodeDefined, FrameClean, PayloadPrinted;
    if t == 0x1B {
      if kind.Response? { DetailsAgree(host, v, payload); }
    } else {
      FrameAgrees(host, kind, v, t, payload);
    }
  }

  lemma NotDetails(host: Host, kind: MsgKind, v: int, t: int, payload: bytes)
    requires IsU8(t) && t != END && DecodePayload(host, false, kind, v, t, payload).Ok?
    requires !DecodePayload(host, false, kind, v, t, payload).value.PushResultDetails?
    ensures t != 0x1B
  {
    hide DecodeDefined;
    if t == 0x1B && TypeOfKind(kind, t) { DetailsSound(host, false, v, payload); }
  }

  // ----- Messages ------------------------------------------------------------------------------------------

  lemma WireTokens(host: Host, fs: seq<Frame>)
    ensures Tokens(WireFrames(host, fs)) == Tokens(fs)
  {
    hide WireFrame, TokenOf;
    forall i | 0 <= i < |fs| ensures TokenOf(WireFrames(host, fs)[i]) == TokenOf(fs[i]) { WireToken(host, fs[i]); }
  }

  /** The trip leaves acceptance by the grammar unchanged. */
  lemma WireAccepts(host: Host, m: Message)
    ensures Accepts(WireMessage(host, m)) <==> Accepts(m)
  {
    hide Tokens, AcceptsRequest, AcceptsResponse;
    WireTokens(host, m.frames);
  }

  lemma DecodedEncoding(host: Host, keepBom: bool, m: Message)
    requires IsSupported(m.wireVersion)
    ensures Decoded(host, keepBom, Encoding(host, m))
         == match ReadFrames(host, keepBom, m.kind, m.wireVersion, PutFrames(host, m.wireVersion, m.frames))
            case Err(c) => Err(c)
            case Ok(fs) => if Accepts(m.(frames := fs)) then Ok(m.(frames := fs)) else Err(InvalidRequest)
  {
    hide ReadHeader, PutHeader, ReadFrames, PutFrames, Accepts;
    HeaderRoundTrip(m.wireVersion, m.kind, PutFrames(host, m.wireVersion, m.frames));
  }

  /** A message that is acceptable arrives whole, whatever marks it carries, if they are kept. */
  lemma KeptRoundTrip(host: Host, m: Message)
    requires WellTyped(m) && Encodable(host, m) && AllAcceptable(host, m.frames)
    requires HasDetails(m.frames) ==> PrintsFaithfully(host)
    ensures Decoded(host, true, Encoding(host, m)) == Ok(WireMessage(host, m))
    ensures Decoded(host, false, Encoding(host, m)) == Ok(WireMessage(host, m)) <==> AllFramesClean(host, m.frames)
  {
    hide ReadFrames, PutFrames, Accepts, Encoding, Decoded, FrameClean, Acceptable, FrameOfKind, PrintsFaithfully, FrameEncodable;
    DecodedEncoding(host, true, m);
    DecodedEncoding(host, false, m);
    FramesRoundTrip(host, m.kind, m.wireVersion, m.frames);
    WireAccepts(host, m);
  }

  /**
   * Message round trip: what `encodeMessage` accepts, `decodeMessage` returns with error details
   * dropped and details companions normalized, exactly when its JSON fields and inline segments are
   * valid and none of its texts starts with a byte order mark.
   */
  lemma MessageRoundTrip(host: Host, m: Message)
    requires WellTyped(m) && Encodable(host, m)
    requires HasDetails(m.frames) ==> PrintsFaithfully(host)
    ensures Decoded(host, false, Encoding(host, m)) == Ok(WireMessage(host, m))
       <==> AllAcceptable(host, m.frames) && AllFramesClean(host, m.frames)
  {
    hide ReadFrames, PutFrames, Accepts, Encoding, Encodable, FrameClean, Acceptable, WireFrame, FrameOfKind, PrintsFaithfully, ReadHeader;
    if Decoded(host, false, Encoding(host, m)) == Ok(WireMessage(host, m)) {
      DecodedSound(host, false, Encoding(host, m));
      forall i | 0 <= i < |m.frames| ensures Acceptable(host, m.frames[i]) {
        assert Acceptable(host, WireFrames(host, m.frames)[i]);
        WireAcceptable(host, m.frames[i]);
      }
    }
    if AllAcceptable(host, m.frames) { KeptRoundTrip(host, m); }
  }

  /** What every decoded message satisfies. */
  lemma DecodedSound(host: Host, keepBom: bool, b: bytes)
    requires Decoded(host, keepBom, b).Ok?
    ensures var m := Decoded(host, keepBom, b).value;
            && WellTyped(m) && IsSupported(m.wireVersion) && Accepts(m) && AllFit(host, m.wireVersion, m.frames)
            && AllAcceptable(host, m.frames) && WireMessage(host, m) == m
            && 8 + 5 * (|m.frames| + 1) <= |b|
  {
    hide ReadFrames, Accepts, Acceptable, WireFrame, Fits, FrameOfKind, ReadHeader, PrintsCompactly, PutHeader, Payload, PutFrames;
    HeaderExact(b);
    var (v, kind) := ReadHeader(b).value;
    FramesSound(host, keepBom, kind, v, ReadHeader(b).rest);
  }

  /** `encodeMessage` refuses a decoded message only over the size of a details payload. */
  lemma DecodedReencodes(host: Host, b: bytes)
    requires Decoded(host, false, b).Ok?
    ensures var m := Decoded(host, false, b).value;
            && (Encodable(host, m) <==>
                 forall i :: 0 <= i < |m.frames| && m.frames[i].PushResultDetails? ==> IsBytes(Payload(host, m.wireVersion, m.frames[i])))
            && (PrintsCompactly(host) || !HasDetails(m.frames) ==> Encodable(host, m))
  {
    hide ReadFrames, Accepts, Acceptable, WireFrame, Fits, FrameOfKind, ReadHeader, PrintsCompactly, PutHeader, Payload, PutFrames;
    DecodedSound(host, false, b);
    var (v, kind) := ReadHeader(b).value;
    FramesSound(host, false, kind, v, ReadHeader(b).rest);
    var m := Decoded(host, false, b).value;
    assert FramesEncodable(host, v, m.frames) <==>
      forall i :: 0 <= i < |m.frames| && m.frames[i].PushResultDetails? ==> IsBytes(Payload(host, v, m.frames[i])) by {
      forall i | 0 <= i < |m.frames| ensures FrameEncodable(host, v, m.frames[i]) <==> IsBytes(Payload(host, v, m.frames[i])) {
        assert Fits(host, v, m.frames[i]);
      }
    }
  }

  /** No text in `b`, as it stands on the wire, starts with a byte order mark. */
  predicate MessageBomFree(host: Host, b: bytes) {
    Decoded(host, true, b).Ok? && AllFramesClean(host, Decoded(host, true, b).value.frames)
  }

  /** Every details text in `b` is the one its details are printed as. */
  predicate DetailsPrinted(host: Host, b: bytes) {
    match ReadHeader(b)
    case Failed(_) => true
    case Parsed((v, kind), s) => FramesPrinted(host, kind, s)
  }

  /**
   * Message canonicity: what a decoded message is encoded to are the bytes it came from exactly when
   * they are free of byte order marks and their details texts are printed ones.
   */
  lemma CanonicalExactly(host: Host, b: bytes)
    requires Decoded(host, false, b).Ok? && Encodable(host, Decoded(host, false, b).value)
    requires HasDetails(Decoded(host, false, b).value.frames) ==> PrintsFaithfully(host)
    ensures Encoding(host, Decoded(host, false, b).value) == b <==> MessageBomFree(host, b) && DetailsPrinted(host, b)
  {
    hide ReadFrames, Accepts, Acceptable, WireFrame, Fits, FrameOfKind, ReadHeader, PrintsCompactly, PutHeader, Payload, PutFrames;
    hide FrameClean, Encodable, HasDetails, PrintsFaithfully, Decoded, Encoding, DetailsPrinted;
    var m := Decoded(host, false, b).value;
    DecodedSound(host, false, b);
    if Encoding(host, m) == b {
      KeptRoundTrip(host, m);
      EncodingPrinted(host, m);
    }
    if MessageBomFree(host, b) && DetailsPrinted(host, b) { BomFreeCanonical(host, b); }
  }

  lemma EncodingPrinted(host: Host, m: Message)
    requires WellTyped(m) && Encodable(host, m) && (HasDetails(m.frames) ==> PrintsFaithfully(host))
    ensures DetailsPrinted(host, Encoding(host, m))
  {
    hide PutFrames, PutHeader, ReadHeader, Accepts, FrameOfKind, FrameEncodable, PrintsFaithfully, FramesPrinted, HasDetails;
    HeaderRoundTrip(m.wireVersion, m.kind, PutFrames(host, m.wireVersion, m.frames));
    EncodedFramesPrinted(host, m.kind, m.wireVersion, m.frames);
  }

  lemma BomFreeCanonical(host: Host, b: bytes)
    requires Decoded(host, false, b).Ok? && MessageBomFree(host, b) && DetailsPrinted(host, b)
    ensures Encoding(host, Decoded(host, false, b).value) == b
  {
    hide ReadFrames, Accepts, Acceptable, WireFrame, Fits, FrameOfKind, ReadHeader, PrintsCompactly, PutHeader, Payload, PutFrames;
    hide FrameClean, HasDetails, FramesPrinted;
    HeaderExact(b);
    var (v, kind) := ReadHeader(b).value;
    var s := ReadHeader(b).rest;
    FramesAgree(host, kind, v, s);
    FramesSound(host, true, kind, v, s);
  }

  /** Without details companions the marks alone decide, and nothing is asked of the JSON engine. */
  lemma MessageCanonical(host: Host, b: bytes)
    requires Decoded(host, false, b).Ok? && !HasDetails(Decoded(host, false, b).value.frames)
    ensures var m := Decoded(host, false, b).value;
            Encodable(host, m) && (Encoding(host, m) == b <==> MessageBomFree(host, b))
  {
    hide ReadFrames, Accepts, ReadHeader, PutHeader, Payload, PutFrames, Encodable, HasDetails, Encoding, FramesPrinted, MessageBomFree, Fits;
    DecodedReencodes(host, b);
    CanonicalExactly(host, b);
    var (v, kind) := ReadHeader(b).value;
    NoDetailsPrinted(host, kind, v, ReadHeader(b).rest);
  }

  /** What a decoded message encodes to decodes to the same message: one trip is enough. */
  lemma DecodedIsFixed(host: Host, b: bytes)
    requires Decoded(host, false, b).Ok? && Encodable(host, Decoded(host, false, b).value)
    requires HasDetails(Decoded(host, false, b).value.frames) ==> PrintsFaithfully(host)
    ensures var m := Decoded(host, false, b).value;
            Decoded(host, false, Encoding(host, m)) == Ok(m) <==> AllFramesClean(host, m.frames)
  {
    hide Encodable, Decoded, Encoding, FrameClean, Acceptable, WireFrame, PrintsFaithfully, FrameOfKind, Accepts, Fits;
    DecodedSound(host, false, b);
    KeptRoundTrip(host, Decoded(host, false, b).value);
  }

  /** Two messages with the same bytes are the same message, up to what never travels. */
  lemma EncodingInjective(host: Host, m: Message, n: Message)
    requires WellTyped(m) && Encodable(host, m) && AllAcceptable(host, m.frames)
    requires WellTyped(n) && Encodable(host, n) && AllAcceptable(host, n.frames)
    requires HasDetails(m.frames) || HasDetails(n.frames) ==> PrintsFaithfully(host)
    requires Encoding(host, m) == Encoding(host, n)
    ensures WireMessage(host, m) == WireMessage(host, n)
  {
    hide Encodable, Decoded, Encoding, FrameClean, Acceptable, WireFrame, PrintsFaithfully, FrameOfKind;
    KeptRoundTrip(host, m);
    KeptRoundTrip(host, n);
  }
}
