/** `encodeFrame` and the frame decoders undo each other, frame by frame. */
module FrameLaws {
  import opened Results
  import opened Hosts
  import opened Primitives
  import opened Formats
  import opened Messages
  import opened FrameFormats
  import opened FrameRules
  import opened FrameWriter
  import opened FrameEncoder
  import opened FrameDecoder
  import opened DetailsCodec
  import opened RejectionDetails
  import SegmentCodec
  import Utf8

  // ----- A decoded frame has the type it came under ---------------------------------------------------

  lemma ViaValue<A, B>(f: Format<A>, to: A -> Result<B>, from: B -> A, keepBom: bool, s: bytes)
    ensures var r := ViaFormat(f, to, from).read(keepBom, s);
            r.Parsed? ==> f.read(keepBom, s).Parsed? && to(f.read(keepBom, s).value) == Ok(r.value)
  {
  }

  /** What was parsed, if anything, is a frame of the type `t`. */
  predicate Typed(r: Parsed<Frame>, t: int) { r.Parsed? ==> !r.value.Unknown? && FrameType(r.value) == t }

  lemma RequestTypes(host: Host, keepBom: bool, s: bytes)
    ensures Typed(ReqHeaderFormat1().read(keepBom, s), 0x01)
    ensures Typed(ReqHeaderFormat2().read(keepBom, s), 0x01)
    ensures Typed(PushCommitFormat().read(keepBom, s), 0x02)
    ensures Typed(PullHeaderFormat().read(keepBom, s), 0x03)
    ensures Typed(SubscriptionFormat(host).read(keepBom, s), 0x04)
  {
    hide PairFormat, ViaFormat, ListFormat, NonEmptyStrFormat, SchemaVersionFormat, OptEpoch, OperationsFormat, PullFields, SubscriptionFields;
    hide OptI32, RespFields, I64Format, PushResultHead, ResultFormat, SubStartFields, CommitFields, RefFields, OptJson, ErrorFrameFields;
    ViaValue(PairFormat(NonEmptyStrFormat(), SchemaVersionFormat()), ToReqHeader1, FromReqHeader1, keepBom, s);
    ViaValue(PairFormat(NonEmptyStrFormat(), PairFormat(SchemaVersionFormat(), OptEpoch())), ToReqHeader2, FromReqHeader2, keepBom, s);
    ViaValue(PairFormat(NonEmptyStrFormat(), OperationsFormat()), ToPushCommit, FromPushCommit, keepBom, s);
    ViaValue(PullFields(), ToPullHeader, FromPullHeader, keepBom, s);
    ViaValue(SubscriptionFields(host), ToSubscription, FromSubscription, keepBom, s);
  }

  lemma ResultTypes(host: Host, keepBom: bool, s: bytes)
    ensures Typed(RespHeaderFormat1().read(keepBom, s), 0x10)
    ensures Typed(RespHeaderFormat2().read(keepBom, s), 0x10)
    ensures Typed(PushResultFormat().read(keepBom, s), 0x11)
  {
    hide PairFormat, ViaFormat, ListFormat, NonEmptyStrFormat, SchemaVersionFormat, OptEpoch, OperationsFormat, PullFields, SubscriptionFields;
    hide OptI32, RespFields, I64Format, PushResultHead, ResultFormat, SubStartFields, CommitFields, RefFields, OptJson, ErrorFrameFields;
    ViaValue(PairFormat(OptI32(), OptI32()), ToRespHeader1, FromRespHeader1, keepBom, s);
    ViaValue(RespFields(), ToRespHeader2, FromRespHeader2, keepBom, s);
    ViaValue(PairFormat(PushResultHead(), ListFormat(ResultFormat())), ToPushResult, FromPushResult, keepBom, s);
  }

  lemma SectionTypes(host: Host, keepBom: bool, s: bytes)
    ensures Typed(SubStartFormat().read(keepBom, s), 0x12)
    ensures Typed(CommitFormat().read(keepBom, s), 0x13)
    ensures Typed(SegmentRefFormat().read(keepBom, s), 0x14)
  {
    hide PairFormat, ViaFormat, ListFormat, NonEmptyStrFormat, SchemaVersionFormat, OptEpoch, OperationsFormat, PullFields, SubscriptionFields;
    hide OptI32, RespFields, I64Format, PushResultHead, ResultFormat, SubStartFields, CommitFields, RefFields, OptJson, ErrorFrameFields;
    ViaValue(SubStartFields(), ToSubStart, FromSubStart, keepBom, s);
    ViaValue(CommitFields(), ToCommit, FromCommit, keepBom, s);
    ViaValue(RefFields(), ToSegmentRef, FromSegmentRef, keepBom, s);
  }

  lemma ClosingTypes(host: Host, keepBom: bool, s: bytes)
    ensures Typed(SubEndFormat(host).read(keepBom, s), 0x16)
    ensures Typed(LeaseFormat().read(keepBom, s), 0x19)
    ensures Typed(ErrorFrameFormat(host).read(keepBom, s), 0x1F)
  {
    hide PairFormat, ViaFormat, ListFormat, NonEmptyStrFormat, SchemaVersionFormat, OptEpoch, OperationsFormat, PullFields, SubscriptionFields;
    hide OptI32, RespFields, I64Format, PushResultHead, ResultFormat, SubStartFields, CommitFields, RefFields, OptJson, ErrorFrameFields;
    ViaValue(PairFormat(I64Format(), OptJson(host)), ToSubEnd, FromSubEnd, keepBom, s);
    ViaValue(PairFormat(NonEmptyStrFormat(), I64Format()), ToLease, FromLease, keepBom, s);
    ViaValue(ErrorFrameFields(host), ToErrorFrame, FromErrorFrame, keepBom, s);
  }

  lemma TypeRead(host: Host, keepBom: bool, v: int, t: int, s: bytes)
    requires HasLayout(t)
    ensures Typed(PayloadFormat(host, v, t).read(keepBom, s), t)
  {
    hide Typed, ReqHeaderFormat1, ReqHeaderFormat2, PushCommitFormat, PullHeaderFormat, SubscriptionFormat;
    hide RespHeaderFormat1, RespHeaderFormat2, PushResultFormat, SubStartFormat, CommitFormat, SegmentRefFormat;
    hide SubEndFormat, LeaseFormat, ErrorFrameFormat;
    RequestTypes(host, keepBom, s);
    ResultTypes(host, keepBom, s);
    SectionTypes(host, keepBom, s);
    ClosingTypes(host, keepBom, s);
  }

  // ----- One trip over the wire changes nothing the second time ------------------------------------------

  lemma {:induction false} WireResultsPut(rs: seq<OpResult>, k: bytes)
    ensures PutAll(ResultFormat(), WireResults(rs), k) == PutAll(ResultFormat(), rs, k)
  {
    hide ResultFormat;
    if rs != [] {
      WireResultsPut(rs[1..], k);
      assert WireResults(rs)[1..] == WireResults(rs[1..]);
      var tail := PutAll(ResultFormat(), rs[1..], k);
      WireResultPut(rs[0], tail);
      assert PutAll(ResultFormat(), rs, k) == Put(ResultFormat(), rs[0], tail);
      assert PutAll(ResultFormat(), WireResults(rs), k) == Put(ResultFormat(), WireResult(rs[0]), tail);
    }
  }

  lemma WireResultPut(r: OpResult, k: bytes)
    ensures Put(ResultFormat(), WireResult(r), k) == Put(ResultFormat(), r, k)
  {
    hide Put, ResultFormat, PutStr, PutI64, PutI32, PutU8, PutBytes, PutBool;
    ResultPut(r, k);
    ResultPut(WireResult(r), k);
  }

  /** The frame as it arrives fits, is acceptable, has the same bytes, and arrives as itself. */
  lemma WirePushResult(host: Host, v: int, f: Frame)
    requires f.PushResult?
    ensures var g := WireFrame(host, f);
            && (Fits(host, v, g) <==> Fits(host, v, f)) && WireFrame(host, g) == g
            && (FrameClean(host, g) <==> FrameClean(host, f))
            && Put(PushResultFormat(), g, []) == Put(PushResultFormat(), f, [])
  {
    hide IsStr, Utf8.Clean, IsBytes, Put, PushResultFormat, PutStr, PutU8, PutU32, PutOpt, PutAll, ResultFormat;
    var g := WireFrame(host, f);
    assert |g.results| == |f.results|;
    forall i | 0 <= i < |f.results|
      ensures g.results[i] == WireResult(f.results[i]) && WireResult(g.results[i]) == g.results[i]
      ensures ResultFits(g.results[i]) <==> ResultFits(f.results[i])
      ensures ResultClean(g.results[i]) <==> ResultClean(f.results[i])
    {
    }
    assert WireResults(g.results) == g.results;
    assert Fits(host, v, g) <==> Fits(host, v, f);
    WireResultsPut(f.results, []);
    PushResultPut(f, []);
    PushResultPut(g, []);
  }

  lemma WireOthers(host: Host, f: Frame)
    requires !f.PushResult? && !f.PushResultDetails?
    ensures WireFrame(host, f) == f
  {
  }

  lemma WireAcceptable(host: Host, f: Frame)
    ensures Acceptable(host, WireFrame(host, f)) <==> Acceptable(host, f)
    ensures FrameType(WireFrame(host, f)) == FrameType(f) && (WireFrame(host, f).Unknown? <==> f.Unknown?)
    ensures forall kind :: FrameOfKind(kind, WireFrame(host, f)) <==> FrameOfKind(kind, f)
  {
    hide ReadWhole, SegmentCodec.SegmentFormat;
  }

  // ----- Frames with a layout ----------------------------------------------------------------------------

  lemma LayoutOf(f: Frame)
    requires !f.Unknown? && !f.SegmentInline? && !f.PushResultDetails?
    ensures HasLayout(FrameType(f))
  {
  }

  /** Wire frames of a layout are its values. */
  lemma WireOk(host: Host, v: int, f: Frame)
    requires !f.Unknown? && HasLayout(FrameType(f)) && Fits(host, v, f) && Acceptable(host, f)
    ensures var p, g := PayloadFormat(host, v, FrameType(f)), WireFrame(host, f);
            p.ok(g) && Put(p, g, []) == Payload(host, v, f) && (p.clean(g) <==> FrameClean(host, f))
  {
    hide Fits, Acceptable, FrameClean, WireFrame, PushResultFormat, ReqHeaderFormat1, ReqHeaderFormat2, PushCommitFormat;
    hide PullHeaderFormat, SubscriptionFormat, RespHeaderFormat1, RespHeaderFormat2, SubStartFormat, CommitFormat;
    hide SegmentRefFormat, SubEndFormat, LeaseFormat, ErrorFrameFormat, Put, RawOf, RawDetailsFormat;
    var g := WireFrame(host, f);
    WireAcceptable(host, f);
    if f.PushResult? { WirePushResult(host, v, f); } else { WireOthers(host, f); }
    assert Fits(host, v, g) && WireFrame(host, g) == g && (FrameClean(host, g) <==> FrameClean(host, f));
    PayloadOk(host, v, g);
  }

  lemma LayoutRoundTrip(host: Host, v: int, f: Frame)
    requires !f.Unknown? && HasLayout(FrameType(f)) && Fits(host, v, f) && Acceptable(host, f)
    ensures DecodeDefined(host, true, v, FrameType(f), Payload(host, v, f)) == Ok(WireFrame(host, f))
    ensures DecodeDefined(host, false, v, FrameType(f), Payload(host, v, f)) == Ok(WireFrame(host, f)) <==> FrameClean(host, f)
  {
    hide Fits, Acceptable, FrameClean, WireFrame, PayloadFormat, Lawful, ReadWhole, Payload, ReadDetails, CheckSegment;
    var p := PayloadFormat(host, v, FrameType(f));
    WireOk(host, v, f);
    PayloadLawful(host, v, FrameType(f));
    WholeRoundTrip(p, 0, WireFrame(host, f));
  }

  lemma LayoutSound(host: Host, keepBom: bool, v: int, t: int, payload: bytes)
    requires HasLayout(t) && DecodeDefined(host, keepBom, v, t, payload).Ok?
    ensures var f := DecodeDefined(host, keepBom, v, t, payload).value;
            && !f.Unknown? && FrameType(f) == t && Fits(host, v, f) && Acceptable(host, f) && WireFrame(host, f) == f
            && |Payload(host, v, f)| <= |payload| && (keepBom ==> Payload(host, v, f) == payload)
  {
    hide Fits, Acceptable, FrameClean, WireFrame, PayloadFormat, ReadDetails, CheckSegment, RawDetailsFormat;
    var p := PayloadFormat(host, v, t);
    TypeRead(host, keepBom, v, t, payload);
    PayloadLawful(host, v, t);
    assert SoundAt(p, 0, keepBom, payload) && ExactAt(p, payload);
    var f := DecodeDefined(host, keepBom, v, t, payload).value;
    PayloadOk(host, v, f);
  }

  lemma LayoutAgrees(host: Host, v: int, t: int, payload: bytes)
    requires HasLayout(t) && DecodeDefined(host, true, v, t, payload).Ok?
    requires FrameClean(host, DecodeDefined(host, true, v, t, payload).value)
    ensures DecodeDefined(host, false, v, t, payload) == DecodeDefined(host, true, v, t, payload)
  {
    hide Fits, Acceptable, FrameClean, WireFrame, PayloadFormat, ReadDetails, CheckSegment;
    var p := PayloadFormat(host, v, t);
    LayoutSound(host, true, v, t, payload);
    PayloadLawful(host, v, t);
    assert AgreesAt(p, payload);
    PayloadOk(host, v, DecodeDefined(host, true, v, t, payload).value);
  }

  // ----- The details companion ----------------------------------------------------------------------------

  lemma EntryTrip(host: Host, e: DetailsEntry)
    requires PrintsFaithfully(host) && Normalize(host, e.details).Some?
    ensures ParseDetails(host, TextOf(host, e)) == Normalize(host, e.details)
  {
    hide Normalize;
    assert FaithfulAt(host, Normalize(host, e.details).value);
    NormalizeIdempotent(host, e.details);
  }

  lemma EntriesTrip(host: Host, es: seq<DetailsEntry>)
    requires PrintsFaithfully(host) && forall i :: 0 <= i < |es| ==> Normalize(host, es[i].details).Some?
    ensures AllParse(host, RawEntries(host, es)) && ParseEntries(host, RawEntries(host, es)) == WireEntries(host, es)
  {
    hide Normalize, ParseDetails, TextOf;
    forall i | 0 <= i < |es| ensures ParseDetails(host, TextOf(host, es[i])) == Normalize(host, es[i].details) {
      EntryTrip(host, es[i]);
    }
  }

  lemma DetailsRoundTrip(host: Host, v: int, f: Frame)
    requires f.PushResultDetails? && Fits(host, v, f) && PrintsFaithfully(host)
    ensures DecodeDefined(host, true, v, 0x1B, Payload(host, v, f)) == Ok(WireFrame(host, f))
    ensures DecodeDefined(host, false, v, 0x1B, Payload(host, v, f)) == Ok(WireFrame(host, f)) <==> FrameClean(host, f)
  {
    hide Normalize, RawDetailsFormat, Lawful, ParseEntries, AllParse, RawEntries, FrameClean, PrintsFaithfully, PayloadFormat, CheckSegment, IsStr;
    var raw := RawOf(host, f);
    var b := Payload(host, v, f);
    assert forall i :: 0 <= i < |f.entries| ==> EntryFits(host, f.entries[i]);
    DetailsFit(host, v, f);
    RawDetailsLawful();
    EntriesTrip(host, f.entries);
    RawTrip(raw);
    if !FrameClean(host, f) { UncleanId(host, v, f); }
  }

  lemma RawTrip(raw: RawDetails)
    requires RawDetailsFormat().ok(raw)
    ensures var b := Put(RawDetailsFormat(), raw, []);
            && RawDetailsFormat().read(true, b) == Parsed(raw, [])
            && (RawDetailsFormat().clean(raw) ==> RawDetailsFormat().read(false, b) == Parsed(raw, []))
  {
    hide RawDetailsFormat;
    RawDetailsLawful();
    assert RoundTripsAt(RawDetailsFormat(), raw, []) && AgreesAt(RawDetailsFormat(), Put(RawDetailsFormat(), raw, []));
  }

  /** Printed details start with a brace, so only the commit id can carry a mark, and losing it shows. */
  lemma UncleanId(host: Host, v: int, f: Frame)
    requires f.PushResultDetails? && Fits(host, v, f) && PrintsFaithfully(host) && !FrameClean(host, f)
    ensures DecodeDefined(host, false, v, 0x1B, Payload(host, v, f)) != Ok(WireFrame(host, f))
  {
    hide Normalize, RawDetailsFormat, ReadStr, PutU32, RawEntryFormat, PutAll, RawEntries, ReadU32, ReadEntries, PutStr, PutEntries, IsStr, Utf8.Clean;
    forall i | 0 <= i < |f.entries| ensures Utf8.Clean(host.jsonStringify(Normalize(host, f.entries[i].details).value)) {
      assert EntryFits(host, f.entries[i]);
      assert FaithfulAt(host, Normalize(host, f.entries[i].details).value);
    }
    var b := Payload(host, v, f);
    DetailsPut(host, f, []);
    DetailsRead(host, b);
    IdLost(f.detailsOf, PutU32(|f.entries|, PutEntries(host, f.entries, [])));
  }

  lemma IdLost(t: string, k: bytes)
    requires IsStr(t) && !Utf8.Clean(t)
    ensures ReadStr(false, PutStr(t, k)).Parsed? ==> ReadStr(false, PutStr(t, k)).value != t
  {
    hide ReadStr, PutStr, IsStr, Utf8.Clean;
    StrRoundTrip(t, k);
    StrReadersAgree(PutStr(t, k));
  }

  /** What a details frame decodes to is in normal form and can be encoded again. */
  lemma DetailsSound(host: Host, keepBom: bool, v: int, payload: bytes)
    requires DecodeDefined(host, keepBom, v, 0x1B, payload).Ok?
    ensures var f := DecodeDefined(host, keepBom, v, 0x1B, payload).value;
            f.PushResultDetails? && Fits(host, v, f) && WireFrame(host, f) == f
  {
    hide Normalize, RawDetailsFormat, Lawful, PayloadFormat, CheckSegment, IsStr;
    RawDetailsLawful();
    var p := RawDetailsFormat().read(keepBom, payload);
    RawSound(keepBom, payload);
    var f := DecodeDefined(host, keepBom, v, 0x1B, payload).value;
    var es := f.entries;
    forall i | 0 <= i < |es| ensures Normalize(host, es[i].details) == Some(es[i].details) && EntryFits(host, es[i]) {
      assert ParseDetails(host, p.value.1[i].1).Some?;
      ParsedIsNormal(host, p.value.1[i].1);
    }
    assert WireEntries(host, es) == es;
  }

  lemma RawSound(keepBom: bool, payload: bytes)
    requires RawDetailsFormat().read(keepBom, payload).Parsed?
    ensures var x := RawDetailsFormat().read(keepBom, payload).value;
            && x.0 != [] && IsStr(x.0) && 0 < |x.1| < U32_LIMIT && DistinctRaw(x.1)
            && forall i :: 0 <= i < |x.1| ==> 0 <= x.1[i].0 < I32_LIMIT
  {
    hide IsStr, NonEmptyStrFormat;
    var x := RawDetailsFormat().read(keepBom, payload).value;
    RawDetailsLawful();
    assert SoundAt(RawDetailsFormat(), 8, keepBom, payload);
    ViaOk(RawFields(), CheckRaw, Id, x);
    NonEmptyOk(x.0);
    assert forall i :: 0 <= i < |x.1| ==> RawEntryFormat().ok(x.1[i]);
  }

  lemma ParsedIsNormal(host: Host, t: string)
    requires ParseDetails(host, t).Some?
    ensures var d := ParseDetails(host, t).value;
            Normalize(host, d) == Some(d) && IsStr(host.jsonStringify(d))
            && |Utf8.Encode(host.jsonStringify(d))| <= MAX_ENCODED_BYTES
  {
    hide SafeMembers, FromEntries, InOrder, Tidy;
    var j := host.jsonParse(t).value;
    NormalizeIdempotent(host, j);
    NormalForm(host, j);
  }

  /** Every details text of the payload that parses is the text those details are printed as. */
  predicate PayloadPrinted(host: Host, payload: bytes) {
    var p := RawDetailsFormat().read(true, payload);
    p.Parsed? ==> forall i :: 0 <= i < |p.value.1| ==> TextPrinted(host, p.value.1[i].1)
  }

  predicate TextPrinted(host: Host, t: string) {
    ParseDetails(host, t).Some? ==> host.jsonStringify(ParseDetails(host, t).value) == t
  }

  /** Entries parsed from printed texts print as those texts. */
  lemma PrintedEntries(host: Host, raw: seq<RawEntry>)
    requires AllParse(host, raw) && forall i :: 0 <= i < |raw| ==> TextPrinted(host, raw[i].1)
    ensures RawEntries(host, ParseEntries(host, raw)) == raw
  {
    hide ParseDetails, Normalize;
    var es := ParseEntries(host, raw);
    forall i | 0 <= i < |raw| ensures TextOf(host, es[i]) == raw[i].1 {
      assert TextPrinted(host, raw[i].1);
      ParsedIsNormal(host, raw[i].1);
    }
  }

  /** A companion whose texts are printed ones is encoded to the bytes it came in. */
  lemma DetailsExact(host: Host, v: int, payload: bytes)
    requires DecodeDefined(host, true, v, 0x1B, payload).Ok? && PayloadPrinted(host, payload)
    ensures var f := DecodeDefined(host, true, v, 0x1B, payload).value;
            && f.PushResultDetails? && Payload(host, v, f) == payload
            && RawDetailsFormat().read(true, payload) == Parsed(RawOf(host, f), [])
  {
    hide RawDetailsFormat, TextPrinted, AllParse, ParseEntries, RawEntries, PayloadFormat, CheckSegment;
    RawDetailsLawful();
    assert ExactAt(RawDetailsFormat(), payload);
    PrintedEntries(host, RawDetailsFormat().read(true, payload).value.1);
  }

  /** And read the same by both decoders if it is clean. */
  lemma DetailsAgree(host: Host, v: int, payload: bytes)
    requires DecodeDefined(host, true, v, 0x1B, payload).Ok? && PayloadPrinted(host, payload)
    requires FrameClean(host, DecodeDefined(host, true, v, 0x1B, payload).value)
    ensures DecodeDefined(host, false, v, 0x1B, payload) == DecodeDefined(host, true, v, 0x1B, payload)
  {
    hide RawDetailsFormat, PayloadPrinted, FrameClean, PayloadFormat, CheckSegment, RawOf, ToDetails, Normalize;
    var f := DecodeDefined(host, true, v, 0x1B, payload).value;
    DetailsExact(host, v, payload);
    DetailsSound(host, true, v, payload);
    assert forall i :: 0 <= i < |f.entries| ==> EntryFits(host, f.entries[i]);
    DetailsFit(host, v, f);
    RawDetailsLawful();
    assert AgreesAt(RawDetailsFormat(), payload);
  }

  /** What the encoder prints is printed. */
  lemma EncodedIsPrinted(host: Host, v: int, f: Frame)
    requires f.PushResultDetails? && Fits(host, v, f) && PrintsFaithfully(host)
    ensures PayloadPrinted(host, Payload(host, v, f))
  {
    hide RawDetailsFormat, Normalize, PrintsFaithfully, ParseDetails;
    assert forall i :: 0 <= i < |f.entries| ==> EntryFits(host, f.entries[i]);
    DetailsFit(host, v, f);
    RawTrip(RawOf(host, f));
    forall i | 0 <= i < |f.entries| ensures TextPrinted(host, TextOf(host, f.entries[i])) { EntryTrip(host, f.entries[i]); }
  }

  lemma EntrySize(host: Host, e: DetailsEntry, t: string, j: bytes, k: bytes)
    requires PrintsCompactly(host) && ParseDetails(host, t) == Some(e.details) && |j| <= |k|
    ensures |RawEntryFormat().put((e.opIndex, TextOf(host, e)), j)| <= |RawEntryFormat().put((e.opIndex, t), k)|
  {
    hide Normalize, Utf8.Encode;
    ParsedIsNormal(host, t);
    assert CompactAt(host, t);
  }

  /** Printing parsed entries again takes no more bytes than they came in. */
  lemma {:induction false} EntriesSize(host: Host, raw: seq<RawEntry>, k: bytes)
    requires PrintsCompactly(host) && AllParse(host, raw)
    ensures |PutAll(RawEntryFormat(), RawEntries(host, ParseEntries(host, raw)), k)| <= |PutAll(RawEntryFormat(), raw, k)|
  {
    hide RawEntryFormat, ParseDetails, TextOf, PrintsCompactly;
    if raw != [] {
      EntriesSize(host, raw[1..], k);
      var es := ParseEntries(host, raw);
      var printed := RawEntries(host, es);
      assert printed[1..] == RawEntries(host, ParseEntries(host, raw[1..]));
      assert raw[0] == (es[0].opIndex, raw[0].1);
      EntrySize(host, es[0], raw[0].1, PutAll(RawEntryFormat(), printed[1..], k), PutAll(RawEntryFormat(), raw[1..], k));
    }
  }

  lemma DetailsSize(host: Host, keepBom: bool, v: int, payload: bytes)
    requires PrintsCompactly(host) && DecodeDefined(host, keepBom, v, 0x1B, payload).Ok?
    ensures |Payload(host, v, DecodeDefined(host, keepBom, v, 0x1B, payload).value)| <= |payload|
  {
    hide RawDetailsFormat, RawEntryFormat, PutAll, PrintsCompactly, ParseDetails, RawEntries, ParseEntries, AllParse, RawOf;
    hide PayloadFormat, CheckSegment, PutStr, PutU32, Put;
    var raw := RawDetailsFormat().read(keepBom, payload).value;
    var f := DecodeDefined(host, keepBom, v, 0x1B, payload).value;
    RawDetailsLawful();
    assert SoundAt(RawDetailsFormat(), 8, keepBom, payload);
    EntriesSize(host, raw.1, []);
    DetailsPut(host, f, []);
    RawPut(raw, []);
    HeadSizes(f.detailsOf, |f.entries|, PutEntries(host, f.entries, []));
    HeadSizes(raw.0, |raw.1|, PutAll(RawEntryFormat(), raw.1, []));
  }

  lemma RawPut(x: RawDetails, k: bytes)
    ensures RawDetailsFormat().put(x, k) == PutStr(x.0, PutU32(|x.1|, PutAll(RawEntryFormat(), x.1, k)))
  {
    hide PutStr, PutU32, PutAll, NonEmptyStrFormat, RawEntryFormat;
    ViaPut(RawFields(), CheckRaw, Id, x, k);
    NonEmptyPut(x.0, PutU32(|x.1|, PutAll(RawEntryFormat(), x.1, k)));
  }

  lemma HeadSizes(t: string, n: int, k: bytes)
    ensures |PutStr(t, PutU32(n, k))| == 8 + |Utf8.Encode(t)| + |k|
  {
    hide Utf8.Encode;
  }

  // ----- Every frame ---------------------------------------------------------------------------------------

  /** The frame's type is one its message kind decodes, or one neither kind knows. */
  lemma KindOfType(kind: MsgKind, v: int, host: Host, f: Frame)
    requires FrameOfKind(kind, f) && Fits(host, v, f)
    ensures f.Unknown? ==> !TypeOfKind(Request, FrameType(f)) && !TypeOfKind(Response, FrameType(f))
    ensures !f.Unknown? ==> TypeOfKind(kind, FrameType(f))
    ensures IsU8(FrameType(f)) && FrameType(f) != END
  {
    hide IsStr;
  }

  /** What one trip makes of a frame the encoder accepts. */
  lemma FrameRoundTrip(host: Host, kind: MsgKind, v: int, f: Frame)
    requires FrameOfKind(kind, f) && Fits(host, v, f) && Acceptable(host, f)
    requires f.PushResultDetails? ==> PrintsFaithfully(host)
    ensures DecodePayload(host, true, kind, v, FrameType(f), Payload(host, v, f)) == Ok(WireFrame(host, f))
    ensures DecodePayload(host, false, kind, v, FrameType(f), Payload(host, v, f)) == Ok(WireFrame(host, f))
       <==> FrameClean(host, f)
  {
    hide Fits, DecodeDefined, PayloadFormat, RawDetailsFormat, SegmentCodec.SegmentFormat, Put, TypeOfKind, PrintsFaithfully;
    KindOfType(kind, v, host, f);
    if f.SegmentInline? {
      InlineRoundTrip(host, v, f);
    } else if f.PushResultDetails? {
      DetailsRoundTrip(host, v, f);
    } else if !f.Unknown? {
      LayoutOf(f);
      LayoutRoundTrip(host, v, f);
    }
  }

  lemma InlineRoundTrip(host: Host, v: int, f: Frame)
    requires f.SegmentInline? && Acceptable(host, f)
    ensures forall keepBom :: DecodeDefined(host, keepBom, v, 0x15, Payload(host, v, f)) == Ok(f)
  {
    hide SegmentCodec.SegmentFormat, ReadWhole, PayloadFormat, ReadDetails;
  }

  /** Everything a decoded frame satisfies. */
  lemma FrameSound(host: Host, keepBom: bool, kind: MsgKind, v: int, t: int, payload: bytes)
    requires IsU8(t) && t != END && DecodePayload(host, keepBom, kind, v, t, payload).Ok?
    ensures var f := DecodePayload(host, keepBom, kind, v, t, payload).value;
            && FrameOfKind(kind, f) && FrameType(f) == t && Fits(host, v, f) && Acceptable(host, f)
            && WireFrame(host, f) == f
            && (!f.PushResultDetails? ==> |Payload(host, v, f)| <= |payload|)
            && (!f.PushResultDetails? && keepBom ==> Payload(host, v, f) == payload)
  {
    hide Fits, DecodeDefined, PayloadFormat, RawDetailsFormat, Put, ReadDetails, SegmentCodec.SegmentFormat, ReadWhole;
    if !TypeOfKind(kind, t) {
      OpaqueFits(host, v, Unknown(t, payload));
    } else if t == 0x15 {
      InlineSound(host, keepBom, v, payload);
      OpaqueFits(host, v, SegmentInline(payload));
    } else if t == 0x1B {
      DetailsSound(host, keepBom, v, payload);
    } else {
      LayoutSound(host, keepBom, v, t, payload);
    }
  }

  lemma InlineSound(host: Host, keepBom: bool, v: int, payload: bytes)
    requires DecodeDefined(host, keepBom, v, 0x15, payload).Ok?
    ensures DecodeDefined(host, keepBom, v, 0x15, payload) == Ok(SegmentInline(payload))
    ensures Acceptable(host, SegmentInline(payload))
  {
    hide SegmentCodec.SegmentFormat, ReadWhole;
  }

  /** On a payload free of marks the codec's decoder and the keeping one agree. */
  lemma FrameAgrees(host: Host, kind: MsgKind, v: int, t: int, payload: bytes)
    requires DecodePayload(host, true, kind, v, t, payload).Ok? && t != 0x1B
    requires FrameClean(host, DecodePayload(host, true, kind, v, t, payload).value)
    ensures DecodePayload(host, false, kind, v, t, payload) == DecodePayload(host, true, kind, v, t, payload)
  {
    hide PayloadFormat, ReadDetails, CheckSegment, FrameClean, ReadWhole;
    if TypeOfKind(kind, t) && t != 0x15 { LayoutAgrees(host, v, t, payload); }
  }
}
