/**
 * The second way canonicity fails: a details companion is printed again when it is encoded, so bytes
 * that carry the same details in another text decode, hold no mark, and are not what comes back.
 */
module SpacedDetails {
  import opened Results
  import opened Hosts
  import opened Primitives
  import opened Formats
  import opened Messages
  import opened FrameRules
  import opened FrameFormats
  import opened FrameWriter
  import opened FrameEncoder
  import opened FrameDecoder
  import opened FrameLaws
  import opened DetailsCodec
  import opened RejectionDetails
  import opened Grammar
  import opened Envelope
  import opened MessageLaws
  import CodeUnits
  import Utf8

  // ----- A rejected commit with one error record and its companion ------------------------------------

  function CommitId(): string { "c" }

  function Opening(): seq<Frame> {
    [RespHeader(None, None, None, None), PushResult(CommitId(), Rejected, None, [ErrorResult(0, "", "", false, None)])]
  }

  function Companion(d: Json): Frame { PushResultDetails(CommitId(), [DetailsEntry(0, d)]) }

  function Rejection(d: Json): Message { Message(1, Response, Opening() + [Companion(d)]) }

  function Raw(t: string): RawDetails { (CommitId(), [(0, t)]) }

  ghost function Record(host: Host, f: Frame, k: bytes): bytes { PutU8(FrameType(f), PutBytes(Payload(host, 1, f), k)) }

  ghost function LastRecords(host: Host, t: string): bytes {
    PutU8(0x1B, PutBytes(Put(RawDetailsFormat(), Raw(t), []), PutFrames(host, 1, [])))
  }

  ghost function FrameBytes(host: Host, t: string): bytes {
    Record(host, Opening()[0], Record(host, Opening()[1], LastRecords(host, t)))
  }

  /** The rejection, with `t` as the text of its details. */
  ghost function Bytes(host: Host, t: string): bytes { PutHeader(1, Response, FrameBytes(host, t)) }

  lemma {:induction false} EncodeBound(t: string)
    ensures |Utf8.Encode(t)| <= 4 * |t|
  {
    hide Utf8.EncodeChar;
    if t != [] { EncodeBound(t[1..]); }
  }

  lemma IdFits()
    ensures CommitId() != [] && IsStr(CommitId()) && Utf8.Clean(CommitId()) && |Utf8.Encode(CommitId())| <= 4
    ensures IsStr("") && Utf8.Clean("")
  {
    EncodeBound(CommitId());
    assert Utf8.Encode("") == [];
    assert CommitId()[0] == 'c';
  }

  lemma OpeningFits(host: Host, i: nat)
    requires i < 2
    ensures var f := Opening()[i];
            && Fits(host, 1, f) && Acceptable(host, f) && FrameClean(host, f) && WireFrame(host, f) == f
            && FrameOfKind(Response, f) && !f.PushResultDetails? && !f.Unknown?
  {
    hide IsStr, Utf8.Clean, CommitId;
    IdFits();
    var f := Opening()[i];
    if i == 1 { assert WireResults(f.results) == f.results; }
  }

  lemma HeaderPayload(host: Host)
    ensures IsBytes(Payload(host, 1, RespHeader(None, None, None, None)))
  {
    hide Payload;
    var f := RespHeader(None, None, None, None);
    FramePut(host, 1, f);
    assert |PutRespHeader(1, f, [])| == 2;
  }

  lemma PushResultPayload(host: Host, f: Frame)
    requires f.PushResult?
    ensures Payload(host, 1, f) == PutPushResult(f, [])
  {
    hide Payload, PutPushResult;
    FramePut(host, 1, f);
  }

  lemma PushResultSize(f: Frame)
    requires f == Opening()[1]
    ensures |PutPushResult(f, [])| <= 100
  {
    hide ResultFormat, CommitId, PutAll, PutStr, PutU8, PutOpt, PutU32, Utf8.Encode;
    var rs := f.results;
    assert rs == [rs[0]];
    ResultsSize(rs[0]);
    IdFits();
    var k := PutU32(1, PutAll(ResultFormat(), rs, []));
    U32Size(1, PutAll(ResultFormat(), rs, []), []);
    ResultHeadSize(k);
  }

  lemma ResultPayload(host: Host)
    ensures IsBytes(Payload(host, 1, Opening()[1]))
  {
    hide Payload, PutPushResult, CommitId;
    PushResultPayload(host, Opening()[1]);
    PushResultSize(Opening()[1]);
  }

  lemma OpeningPayload(host: Host, i: nat)
    requires i < 2
    ensures IsBytes(Payload(host, 1, Opening()[i]))
  {
    hide Payload, CommitId;
    if i == 0 { HeaderPayload(host); } else { ResultPayload(host); }
  }

  lemma ResultsSize(r: OpResult)
    requires r == ErrorResult(0, "", "", false, None)
    ensures |PutAll(ResultFormat(), [r], [])| <= 20
  {
    hide ResultFormat;
    var rs := [r];
    assert rs[1..] == [];
    assert PutAll(ResultFormat(), rs, []) == Put(ResultFormat(), r, []);
    ResultPut(r, []);
    assert Utf8.Encode("") == [];
  }

  lemma ResultHeadSize(k: bytes)
    ensures |PutStr(CommitId(), PutU8(3, PutOpt(I64Format(), None, k)))| == |Utf8.Encode(CommitId())| + 6 + |k|
  {
    hide Utf8.Encode, CommitId;
  }

  lemma RejectionAccepted(d: Json)
    ensures Accepts(Rejection(d))
  {
    hide CommitId;
    var fs := Rejection(d).frames;
    var result, details := TokenOf(fs[1]), TokenOf(fs[2]);
    assert fs[1].results[0] in fs[1].results && 0 in ErrorIndexes(fs[1].results);
    assert details.indexes <= result.errors;
    assert Matches(result, details);
    var ts := Tokens(fs);
    assert ts == [TRespHeader, result, details];
    assert ts[1..] == [result, details];
    ResponsePair(result, details);
  }

  lemma ResponsePair(result: Token, details: Token)
    requires result.TResult? && details.TDetails? && Matches(result, details)
    ensures ResponseEnd(ResponseRun(ResponseStart, [result, details]))
  {
    hide Matches;
    var ts := [result, details];
    RunStep(ResponseStart, ts, 0);
    assert ts[0..] == ts && ts[1..] == [details];
    var s := ResponseStep(ResponseStart, result).value;
    RunStep(s, ts, 1);
    RunEnd(ResponseStep(s, details).value, ts);
  }

  // ----- The text is read --------------------------------------------------------------------------------

  predicate Small(t: string) { |Utf8.Encode(t)| + 100 < U32_LIMIT }

  lemma RawFits(t: string)
    requires Small(t)
    ensures RawDetailsFormat().ok(Raw(t)) && IsBytes(Put(RawDetailsFormat(), Raw(t), []))
    ensures Utf8.Clean(t) ==> RawDetailsFormat().clean(Raw(t))
  {
    hide Utf8.Encode, Utf8.Clean, NonEmptyStrFormat, CommitId, PutStr, PutU32, RawEntryFormat;
    IdFits();
    var raw := Raw(t);
    NonEmptyOk(CommitId());
    ViaOk(RawFields(), CheckRaw, Id, raw);
    assert RawEntryFormat().ok(raw.1[0]) && (Utf8.Clean(t) ==> RawEntryFormat().clean(raw.1[0])) by { EntryOk(t); }
    RawPut(raw, []);
    HeadSizes(CommitId(), 1, PutAll(RawEntryFormat(), raw.1, []));
    OneEntrySize(t);
  }

  lemma EntryOk(t: string)
    requires IsStr(t)
    ensures RawEntryFormat().ok((0, t)) && (RawEntryFormat().clean((0, t)) <==> Utf8.Clean(t))
  {
  }

  lemma OneEntrySize(t: string)
    ensures |PutAll(RawEntryFormat(), [(0, t)], [])| == 8 + |Utf8.Encode(t)|
  {
    hide Utf8.Encode;
    var es := [(0, t)];
    assert es[1..] == [];
    assert PutAll(RawEntryFormat(), es, []) == RawEntryFormat().put((0, t), []);
  }

  /** Both decoders read the companion as the details the text parses to. */
  lemma CompanionReads(host: Host, t: string, keepBom: bool)
    requires Small(t) && Utf8.Clean(t) && ParseDetails(host, t).Some?
    ensures DecodePayload(host, keepBom, Response, 1, 0x1B, Put(RawDetailsFormat(), Raw(t), []))
         == Ok(Companion(ParseDetails(host, t).value))
  {
    hide RawDetailsFormat, Utf8.Clean, ParseDetails, PayloadFormat, CheckSegment, CommitId;
    RawFits(t);
    RawTrip(Raw(t));
    assert ParseEntries(host, Raw(t).1) == [DetailsEntry(0, ParseDetails(host, t).value)];
  }

  lemma FramesRead(host: Host, t: string, keepBom: bool)
    requires Small(t) && Utf8.Clean(t) && ParseDetails(host, t).Some?
    ensures ReadFrames(host, keepBom, Response, 1, FrameBytes(host, t)) == Ok(Rejection(ParseDetails(host, t).value).frames)
  {
    hide RawDetailsFormat, Utf8.Clean, ParseDetails, DecodePayload, Payload, PutU8, PutBytes, ReadFrames, FrameType, Opening, Companion, Fits, Acceptable, FrameClean, WireFrame, FrameOfKind;
    var d := ParseDetails(host, t).value;
    RawFits(t);
    CompanionReads(host, t, keepBom);
    EndReads(host, keepBom);
    OneFrame(host, keepBom, Response, 1, 0x1B, Put(RawDetailsFormat(), Raw(t), []), PutFrames(host, 1, []));
    assert ReadFrames(host, keepBom, Response, 1, LastRecords(host, t)) == Ok([Companion(d)] + []);
    OpeningSize();
    OpeningReads(host, 1, keepBom, LastRecords(host, t));
    OpeningReads(host, 0, keepBom, Record(host, Opening()[1], LastRecords(host, t)));
    assert [Opening()[0]] + ([Opening()[1]] + ([Companion(d)] + [])) == Opening() + [Companion(d)];
  }

  lemma OpeningSize()
    ensures |Opening()| == 2
  {
  }

  lemma EndReads(host: Host, keepBom: bool)
    ensures ReadFrames(host, keepBom, Response, 1, PutFrames(host, 1, [])) == Ok([])
  {
    hide DecodePayload, ReadRecord;
    EndRecord();
  }

  lemma OpeningReads(host: Host, i: nat, keepBom: bool, k: bytes)
    requires i < 2 && ReadFrames(host, keepBom, Response, 1, k).Ok?
    ensures ReadFrames(host, keepBom, Response, 1, Record(host, Opening()[i], k))
         == Ok([Opening()[i]] + ReadFrames(host, keepBom, Response, 1, k).value)
  {
    hide DecodePayload, Payload, PutU8, PutBytes, ReadFrames, FrameType, Fits, Acceptable, FrameClean, WireFrame, Opening, FrameOfKind;
    OpeningSize();
    var f := Opening()[i];
    OpeningFits(host, i);
    OpeningPayload(host, i);
    KindOfType(Response, 1, host, f);
    FrameRoundTrip(host, Response, 1, f);
    OneFrame(host, keepBom, Response, 1, FrameType(f), Payload(host, 1, f), k);
  }

  // ----- And not printed --------------------------------------------------------------------------------

  lemma RecordPrinted(host: Host, t: int, payload: bytes, k: bytes)
    requires IsU8(t) && t != END && IsBytes(payload)
    ensures FramesPrinted(host, Response, PutU8(t, PutBytes(payload, k)))
       <==> (t == 0x1B ==> PayloadPrinted(host, payload)) && FramesPrinted(host, Response, k)
  {
    hide ReadRecord, PutU8, PutBytes, PayloadPrinted;
    RecordRoundTrip(t, payload, k);
  }

  lemma NotPrinted(host: Host, t: string)
    requires Small(t) && ParseDetails(host, t).Some? && host.jsonStringify(ParseDetails(host, t).value) != t
    ensures !DetailsPrinted(host, Bytes(host, t))
  {
    hide RawDetailsFormat, ParseDetails, Payload, PutU8, PutBytes, PutHeader, ReadHeader, FrameType, Opening, FramesPrinted, Fits, FrameOfKind, PutFrames, CommitId;
    var payload := Put(RawDetailsFormat(), Raw(t), []);
    RawFits(t);
    RawTrip(Raw(t));
    assert !TextPrinted(host, Raw(t).1[0].1);
    assert !PayloadPrinted(host, payload);
    RecordPrinted(host, 0x1B, payload, PutFrames(host, 1, []));
    HeaderRoundTrip(1, Response, FrameBytes(host, t));
    OpeningSize();
    forall i: nat | i < 2 ensures IsU8(FrameType(Opening()[i])) && FrameType(Opening()[i]) != END && IsBytes(Payload(host, 1, Opening()[i])) {
      OpeningFits(host, i);
      OpeningPayload(host, i);
      KindOfType(Response, 1, host, Opening()[i]);
    }
    RecordPrinted(host, FrameType(Opening()[1]), Payload(host, 1, Opening()[1]), LastRecords(host, t));
    RecordPrinted(host, FrameType(Opening()[0]), Payload(host, 1, Opening()[0]), Record(host, Opening()[1], LastRecords(host, t)));
  }

  // ----- The rejection can be encoded ---------------------------------------------------------------------

  lemma CompanionEncodable(host: Host, t: string)
    requires ParseDetails(host, t).Some? && PrintsFaithfully(host)
    ensures var f := Companion(ParseDetails(host, t).value);
            Fits(host, 1, f) && IsBytes(Payload(host, 1, f)) && FrameClean(host, f)
  {
    hide RawDetailsFormat, Normalize, ParseDetails, CommitId, Utf8.Encode, Utf8.Clean;
    var d := ParseDetails(host, t).value;
    var f := Companion(d);
    ParsedIsNormal(host, t);
    IdFits();
    assert FaithfulAt(host, d);
    assert RawEntries(host, f.entries) == [(0, host.jsonStringify(d))];
    RawFits(host.jsonStringify(d));
  }

  lemma RejectionEncodable(host: Host, t: string)
    requires ParseDetails(host, t).Some? && PrintsFaithfully(host)
    ensures var m := Rejection(ParseDetails(host, t).value);
            Encodable(host, m) && AllFramesClean(host, m.frames)
  {
    hide ParseDetails, Payload, Fits, FrameClean, Accepts, PrintsFaithfully, Opening, Companion;
    var d := ParseDetails(host, t).value;
    OpeningSize();
    CompanionEncodable(host, t);
    RejectionAccepted(d);
    var fs := Rejection(d).frames;
    forall i | 0 <= i < |fs| ensures FrameEncodable(host, 1, fs[i]) && FrameClean(host, fs[i]) {
      if i < 2 {
        OpeningFits(host, i);
        OpeningPayload(host, i);
      }
    }
  }

  lemma RejectionDecodes(host: Host, t: string, keepBom: bool)
    requires Small(t) && Utf8.Clean(t) && ParseDetails(host, t).Some?
    ensures Decoded(host, keepBom, Bytes(host, t)) == Ok(Rejection(ParseDetails(host, t).value))
  {
    hide ReadFrames, ReadHeader, PutHeader, FrameBytes, Utf8.Clean, ParseDetails, Accepts, Opening, Companion;
    FramesRead(host, t, keepBom);
    HeaderRoundTrip(1, Response, FrameBytes(host, t));
    RejectionAccepted(ParseDetails(host, t).value);
  }

  /** Every text that parses to details it is not printed as gives a message that comes back in other bytes. */
  lemma OtherTextIsLost(host: Host, t: string)
    requires PrintsFaithfully(host) && Small(t) && Utf8.Clean(t)
    requires ParseDetails(host, t).Some? && host.jsonStringify(ParseDetails(host, t).value) != t
    ensures var b, m := Bytes(host, t), Rejection(ParseDetails(host, t).value);
            && Decoded(host, false, b) == Ok(m) && MessageBomFree(host, b)
            && Encodable(host, m) && Encoding(host, m) != b
  {
    hide Decoded, Encodable, Encoding, Bytes, DetailsPrinted, Utf8.Clean, ParseDetails, PrintsFaithfully, FrameClean, Rejection, Small;
    RejectionDecodes(host, t, false);
    RejectionDecodes(host, t, true);
    RejectionEncodable(host, t);
    NotPrinted(host, t);
    CanonicalExactly(host, Bytes(host, t));
  }

  // ----- One space is enough ---------------------------------------------------------------------------------

  function Spaced(): string { "{\"reason\": \"x\"}" }

  function Compact(): string { "{\"reason\":\"x\"}" }

  function TheReason(): Json { JObject([(Reason(), JString("x"))]) }

  lemma ReasonAlone()
    ensures FromEntries(TheReason().members) == map[Reason() := JString("x")]
    ensures SafeMembers(FromEntries(TheReason().members))
    ensures InOrder(Tidy(FromEntries(TheReason().members))) == TheReason().members
  {
    var ms := TheReason().members;
    assert ms[1..] == [];
    assert FromEntries(ms) == map[Reason() := JString("x")] + FromEntries(ms[1..]);
    assert Reason() in FromEntries(ms);
    NamesDiffer();
    TokenX();
  }

  lemma NamesDiffer()
    ensures FieldPaths() != Reason() && RequiredAction() != Reason() && References() != Reason()
  {
    assert FieldPaths()[0] != Reason()[0];
    assert RequiredAction()[2] != Reason()[2];
    assert References()[2] != Reason()[2];
  }

  lemma TokenX()
    ensures StableToken(JString("x"), MAX_TOKEN_LENGTH)
  {
    assert "x"[1..] == [];
    assert CodeUnits.Units("x"[1..]) == [];
    assert IsToken("x") && TokenFrom("x", 1, false);
  }

  /**
   * With a JSON engine that reads `{"reason": "x"}` and prints it without the space, a rejection that
   * carries the spaced text decodes, holds no mark, and is encoded to other bytes.
   */
  lemma CanonicityFailsOverASpace(host: Host)
    requires PrintsFaithfully(host)
    requires host.jsonParse(Spaced()) == Some(TheReason()) && host.jsonStringify(TheReason()) == Compact()
    ensures var b, m := Bytes(host, Spaced()), Rejection(TheReason());
            && Decoded(host, false, b) == Ok(m) && MessageBomFree(host, b)
            && Encodable(host, m) && Encoding(host, m) != b
  {
    hide Decoded, Encodable, Encoding, Bytes, PrintsFaithfully, Rejection, MessageBomFree;
    EncodeBound(Spaced());
    EncodeBound(Compact());
    assert |Spaced()| == 15 && |Compact()| == 14 && Spaced()[0] == '{';
    ReasonParses(host);
    OtherTextIsLost(host, Spaced());
  }

  lemma ReasonParses(host: Host)
    requires host.jsonParse(Spaced()) == Some(TheReason()) && host.jsonStringify(TheReason()) == Compact()
    ensures ParseDetails(host, Spaced()) == Some(TheReason())
  {
    hide FromEntries, SafeMembers, InOrder, Tidy, Spaced, Compact, Reason, Normalize, Utf8.Encode;
    ReasonAlone();
    CompactSize();
    Safe(host, TheReason());
  }

  lemma CompactSize()
    ensures |Utf8.Encode(Compact())| <= 60
  {
    EncodeBound(Compact());
    assert |Compact()| == 14;
  }
}
