/** The SSP2 envelope: `encodeMessage`, `readFrames` and `decodeMessage` (packages/core/src/message.ts:1107-1196). */
module Envelope {
  import opened Results
  import opened Hosts
  import opened Primitives
  import opened Messages
  import opened FrameRules
  import opened FrameEncoder
  import opened FrameDecoder
  import opened Grammar
  import opened ByteIO

  /** "SSP2". */
  const MAGIC: bytes := [0x53, 0x53, 0x50, 0x32]

  function KindByte(kind: MsgKind): int { if kind.Request? then 1 else 2 }

  predicate Accepts(m: Message) {
    if m.kind.Request? then AcceptsRequest(Tokens(m.frames)) else AcceptsResponse(Tokens(m.frames))
  }

  // ----- Encoding ------------------------------------------------------------------------------------

  ghost function PutHeader(v: int, kind: MsgKind, k: bytes): bytes {
    PutRaw(MAGIC, PutU16(v, PutU8(KindByte(kind), PutU8(0, k))))
  }

  /** Each frame behind its type and length, then the END frame. */
  ghost function PutFrames(host: Host, v: int, fs: seq<Frame>): bytes {
    if fs == [] then PutU8(END, PutU32(0, []))
    else PutU8(FrameType(fs[0]), PutBytes(Payload(host, v, fs[0]), PutFrames(host, v, fs[1..])))
  }

  /** The frame is laid out and its length fits the length field. */
  ghost predicate FrameEncodable(host: Host, v: int, f: Frame) { Fits(host, v, f) && IsBytes(Payload(host, v, f)) }

  ghost predicate FramesEncodable(host: Host, v: int, fs: seq<Frame>) {
    forall i :: 0 <= i < |fs| ==> FrameEncodable(host, v, fs[i])
  }

  /** `encodeMessage` does not throw. */
  ghost predicate Encodable(host: Host, m: Message) {
    IsSupported(m.wireVersion) && Accepts(m) && FramesEncodable(host, m.wireVersion, m.frames)
  }

  ghost function Encoding(host: Host, m: Message): bytes {
    PutHeader(m.wireVersion, m.kind, PutFrames(host, m.wireVersion, m.frames))
  }

  method WriteRecord(w: ByteWriter, frameType: int, payload: bytes) returns (o: Outcome)
    requires w.Valid() && IsU8(frameType)
    modifies w, w.buffer
    ensures w.Valid() && (w.buffer == old(w.buffer) || fresh(w.buffer))
    ensures o.Pass? <==> IsBytes(payload)
    ensures o.Pass? ==> forall k: bytes :: w.Then(k) == old(w.Then(PutU8(frameType, PutBytes(payload, k))))
  {
    hide ByteWriter.Then, PutRaw, PutU32, PutU8;
    var typed := w.U8(frameType);
    :- w.U32(|payload|);
    w.Raw(payload);
    return Pass;
  }

  method WriteFrameRecord(w: ByteWriter, host: Host, v: int, f: Frame, ghost rest: bytes) returns (o: Outcome)
    requires w.Valid()
    modifies w, w.buffer
    ensures w.Valid() && (w.buffer == old(w.buffer) || fresh(w.buffer))
    ensures o.Pass? <==> FrameEncodable(host, v, f)
    ensures o.Pass? ==> w.Then(rest) == old(w.Then(PutU8(FrameType(f), PutBytes(Payload(host, v, f), rest))))
  {
    hide ByteWriter.Then, Payload, Fits, PutBytes, PutU8, FrameType;
    var encoded := EncodeFrame(host, v, f);
    if encoded.None? { return Refused; }
    var (frameType, payload) := encoded.value;
    TypeIsByte(host, v, f);
    o := WriteRecord(w, frameType, payload);
  }

  lemma TypeIsByte(host: Host, v: int, f: Frame)
    requires Fits(host, v, f)
    ensures IsU8(FrameType(f)) && FrameType(f) != END
  {
    hide IsStr;
  }

  lemma FramesPutStep(host: Host, v: int, fs: seq<Frame>, i: nat)
    requires i < |fs|
    ensures PutFrames(host, v, fs[i..]) == PutU8(FrameType(fs[i]), PutBytes(Payload(host, v, fs[i]), PutFrames(host, v, fs[i + 1..])))
  {
    hide Payload, PutBytes, PutU8, FrameType;
    assert fs[i..][1..] == fs[i + 1..];
  }

  lemma FramesPutEnd(host: Host, v: int, fs: seq<Frame>)
    ensures PutFrames(host, v, fs[|fs|..]) == PutU8(END, PutU32(0, [])) && fs[0..] == fs
  {
    hide PutU8, PutU32;
  }

  method WriteFrames(w: ByteWriter, host: Host, v: int, fs: seq<Frame>) returns (o: Outcome)
    requires w.Valid()
    modifies w, w.buffer
    ensures w.Valid() && (w.buffer == old(w.buffer) || fresh(w.buffer))
    ensures o.Pass? <==> FramesEncodable(host, v, fs)
    ensures o.Pass? ==> w.Then([]) == old(w.Then(PutFrames(host, v, fs)))
  {
    hide ByteWriter.Then, Payload, FrameEncodable, PutFrames, PutU8, PutU32, PutBytes, FrameType;
    FramesPutEnd(host, v, fs);
    for i := 0 to |fs|
      invariant w.Valid() && (w.buffer == old(w.buffer) || fresh(w.buffer))
      invariant forall j :: 0 <= j < i ==> FrameEncodable(host, v, fs[j])
      invariant w.Then(PutFrames(host, v, fs[i..])) == old(w.Then(PutFrames(host, v, fs)))
    {
      FramesPutStep(host, v, fs, i);
      :- WriteFrameRecord(w, host, v, fs[i], PutFrames(host, v, fs[i + 1..]));
    }
    var end := w.U8(END);
    var zero := w.U32(0);
    return Pass;
  }

  method ValidateFrameSequence(m: Message) returns (r: Result<()>, ghost turns: nat)
    ensures r == if Accepts(m) then Ok(()) else Err(InvalidRequest)
    ensures turns <= |m.frames| + AllPasses(m.frames, |m.frames|)
  {
    hide AcceptsRequest, AcceptsResponse, Tokens, AllPasses;
    if m.kind.Request? {
      r, turns := ValidateRequestSequence(m.frames);
    } else {
      r, turns := ValidateResponseSequence(m.frames);
    }
  }

  /** Throws exactly on messages that are not encodable; otherwise returns their one encoding. */
  method EncodeMessage(host: Host, m: Message) returns (r: Option<bytes>)
    ensures r.Some? <==> Encodable(host, m)
    ensures r.Some? ==> r.value == Encoding(host, m)
  {
    hide ByteWriter.Then, Accepts, FramesEncodable, PutFrames, PutU8, PutU16, PutRaw;
    if !IsSupported(m.wireVersion) { return None; }
    var valid, _ := ValidateFrameSequence(m);
    if valid.Err? { return None; }
    var w := new ByteWriter();
    w.Raw(MAGIC);
    var version := w.U16(m.wireVersion);
    var kind := w.U8(if m.kind.Request? then 0x01 else 0x02);
    var flags := w.U8(0x00);
    var frames := WriteFrames(w, host, m.wireVersion, m.frames);
    if frames.Refused? { return None; }
    var bytes := w.Finish();
    return Some(bytes);
  }

  // ----- Decoding --------------------------------------------------------------------------------------

  function ReadHeader(s: bytes): Parsed<(int, MsgKind)> {
    if |s| < 8 then Failed(InvalidRequest) else
    var (magic, s1) :- ReadRaw(4, s);
    if magic != MAGIC then Failed(InvalidRequest) else
    var (v, s2) :- ReadU16(s1);
    if !IsSupported(v) then Failed(InvalidRequest) else
    var (kindByte, s3) :- ReadU8(s2);
    if kindByte != 1 && kindByte != 2 then Failed(InvalidRequest) else
    var (flags, k) :- ReadU8(s3);
    if flags != 0 then Failed(InvalidRequest) else
    Parsed((v, if kindByte == 1 then Request else Response), k)
  }

  /** A frame's type and payload. */
  function ReadRecord(s: bytes): Parsed<(int, bytes)> {
    var (t, s1) :- ReadU8(s);
    var (payload, k) :- ReadBytes(s1);
    Parsed((t, payload), k)
  }

  lemma RecordProgress(s: bytes)
    ensures ReadRecord(s).Failed? ==> ReadRecord(s).code == InvalidRequest
    ensures ReadRecord(s).Parsed? ==>
              && IsU8(ReadRecord(s).value.0) && IsBytes(ReadRecord(s).value.1)
              && s == PutU8(ReadRecord(s).value.0, PutBytes(ReadRecord(s).value.1, ReadRecord(s).rest))
              && |s| == 5 + |ReadRecord(s).value.1| + |ReadRecord(s).rest|
  {
    hide ReadU8, ReadBytes, PutU8, PutBytes;
    RecordParts(s);
    U8Laws(0, [], s);
    if ReadU8(s).Parsed? {
      RecordParts(ReadU8(s).rest);
      BytesLaws([], [], ReadU8(s).rest);
    }
  }

  lemma RecordParts(s: bytes)
    ensures ReadU8(s).Failed? ==> ReadU8(s).code == InvalidRequest
    ensures ReadBytes(s).Failed? ==> ReadBytes(s).code == InvalidRequest
    ensures ReadU8(s).Parsed? ==> |s| == 1 + |ReadU8(s).rest|
    ensures ReadBytes(s).Parsed? ==> |s| == 4 + |ReadBytes(s).value| + |ReadBytes(s).rest|
  {
    hide FromLittleEndian;
  }

  lemma RecordRoundTrip(t: int, payload: bytes, k: bytes)
    requires IsU8(t) && IsBytes(payload)
    ensures ReadRecord(PutU8(t, PutBytes(payload, k))) == Parsed((t, payload), k)
  {
    hide PutBytes, PutU8, ReadU8, ReadBytes;
    U8Laws(t, PutBytes(payload, k), []);
    BytesLaws(payload, k, []);
  }

  /** The frames up to the END frame, which must be the last thing in the input. */
  function ReadFrames(host: Host, keepBom: bool, kind: MsgKind, v: int, s: bytes): Result<seq<Frame>>
    decreases |s|
  {
    match ReadRecord(s)
    case Failed(c) => Err(c)
    case Parsed((t, payload), k) =>
      if t == END then (if payload == [] && k == [] then Ok([]) else Err(InvalidRequest))
      else
        RecordProgress(s);
        var f :- DecodePayload(host, keepBom, kind, v, t, payload);
        var fs :- ReadFrames(host, keepBom, kind, v, k);
        Ok([f] + fs)
  }

  /** `decodeMessage`; the codec's own is the one that drops byte order marks. */
  function Decoded(host: Host, keepBom: bool, b: bytes): Result<Message> {
    match ReadHeader(b)
    case Failed(c) => Err(c)
    case Parsed((v, kind), s) =>
      var fs :- ReadFrames(host, keepBom, kind, v, s);
      if Accepts(Message(v, kind, fs)) then Ok(Message(v, kind, fs)) else Err(InvalidRequest)
  }

  /** The list read so far, then the rest of it. */
  ghost function Onward(done: seq<Frame>, r: Result<seq<Frame>>): Result<seq<Frame>> {
    match r
    case Ok(fs) => Ok(done + fs)
    case Err(c) => Err(c)
  }

  lemma OnwardStep(host: Host, kind: MsgKind, v: int, s: bytes, done: seq<Frame>)
    requires ReadRecord(s).Parsed? && ReadRecord(s).value.0 != END
    ensures Onward(done, ReadFrames(host, false, kind, v, s))
         == match DecodePayload(host, false, kind, v, ReadRecord(s).value.0, ReadRecord(s).value.1)
            case Err(c) => Err(c)
            case Ok(x) => Onward(done + [x], ReadFrames(host, false, kind, v, ReadRecord(s).rest))
  {
    hide ReadRecord, DecodePayload;
    var f := DecodePayload(host, false, kind, v, ReadRecord(s).value.0, ReadRecord(s).value.1);
    RecordProgress(s);
    if f.Ok? {
      var tail := ReadFrames(host, false, kind, v, ReadRecord(s).rest);
      if tail.Ok? { assert done + ([f.value] + tail.value) == (done + [f.value]) + tail.value; }
    }
  }

  lemma OnwardEnd(host: Host, kind: MsgKind, v: int, s: bytes, done: seq<Frame>)
    requires ReadRecord(s).Parsed? ==> ReadRecord(s).value.0 == END
    ensures Onward(done, ReadFrames(host, false, kind, v, s))
         == if ReadRecord(s).Parsed? && ReadRecord(s).value.1 == [] && ReadRecord(s).rest == [] then Ok(done) else Err(InvalidRequest)
  {
    hide ReadRecord, DecodePayload;
    RecordProgress(s);
    assert done + [] == done;
  }

  /** The type and the payload of the next frame, with the checks in the order of the loop. */
  method NextRecord(r: ByteReader) returns (res: Result<(int, bytes)>)
    requires r.Valid()
    modifies r`position
    ensures r.Valid() && Follows(ReadRecord(old(r.Rest())), res, r.Rest())
    ensures res.Ok? ==> r.Credit() + 8 * (5 + |res.value.1|) == old(r.Credit())
  {
    hide ReadU32, ReadU8;
    RecordProgress(r.Rest());
    U32Size(0, [], r.Rest());
    var remaining := r.Remaining();
    EmptyRecord(r.Rest());
    if remaining == 0 { return Err(InvalidRequest); }
    var frameType :- r.U8();
    var frameLength :- r.U32();
    remaining := r.Remaining();
    if frameLength > remaining { return Err(InvalidRequest); }
    var payload := r.Raw(frameLength);
    return Ok((frameType, payload.value));
  }

  lemma EmptyRecord(s: bytes)
    ensures s == [] ==> ReadRecord(s) == Failed(InvalidRequest)
  {
  }

  /** The turns of the frame loop, up to and with the one that returns or throws. */
  function FrameTurns(host: Host, kind: MsgKind, v: int, s: bytes): nat
    decreases |s|
  {
    match ReadRecord(s)
    case Failed(_) => 1
    case Parsed((t, payload), k) =>
      if t == END || DecodePayload(host, false, kind, v, t, payload).Err? then 1
      else
        RecordProgress(s);
        1 + FrameTurns(host, kind, v, k)
  }

  lemma FrameTurnsStep(host: Host, kind: MsgKind, v: int, s: bytes)
    ensures FrameTurns(host, kind, v, s)
         == 1 + if ReadRecord(s).Parsed? && ReadRecord(s).value.0 != END
                   && DecodePayload(host, false, kind, v, ReadRecord(s).value.0, ReadRecord(s).value.1).Ok?
                then FrameTurns(host, kind, v, ReadRecord(s).rest) else 0
  {
    hide ReadRecord, DecodePayload;
  }

  lemma NoPasses()
    ensures AllPasses([], 0) == 0
  {
  }

  lemma PassesSnoc(fs: seq<Frame>, f: Frame)
    ensures AllPasses(fs + [f], |fs| + 1) == AllPasses(fs, |fs|) + Passes(f)
  {
    PassesPrefix(fs, [f], |fs|);
  }

  lemma {:induction false} PassesPrefix(fs: seq<Frame>, gs: seq<Frame>, n: nat)
    requires n <= |fs|
    ensures AllPasses(fs + gs, n) == AllPasses(fs, n)
  {
    if n > 0 { PassesPrefix(fs, gs, n - 1); }
  }

  /** One frame of the given kind. */
  method DecodeFrame(host: Host, kind: MsgKind, v: int, t: int, payload: bytes) returns (res: Result<Frame>, ghost work: nat)
    ensures res == DecodePayload(host, false, kind, v, t, payload)
    ensures if res.Ok? then work + Passes(res.value) <= 8 * |payload| else work <= 8 * |payload| + 2
  {
    hide DecodePayload;
    if kind.Request? {
      res, work := DecodeRequestFrame(host, v, t, payload);
    } else {
      res, work := DecodeResponseFrame(host, v, t, payload);
    }
  }

  /** Besides what it read, the loop had eight turns to spare for every frame, and one for each pass of the validator. */
  method ReadFrameList(r: ByteReader, host: Host, kind: MsgKind, v: int) returns (res: Result<seq<Frame>>, ghost turns: nat)
    requires r.Valid()
    modifies r
    ensures r.Valid() && res == ReadFrames(host, false, kind, v, old(r.Rest()))
    ensures turns == FrameTurns(host, kind, v, old(r.Rest()))
    ensures if res.Ok? then r.Credit() + 8 * |res.value| + AllPasses(res.value, |res.value|) <= old(r.Credit())
            else r.turns <= old(r.Credit()) + 1
  {
    hide ReadRecord, DecodePayload, ReadFrames, FrameTurns, Passes, AllPasses;
    NoPasses();
    var frames: seq<Frame> := [];
    ghost var whole := ReadFrames(host, false, kind, v, r.Rest());
    assert whole.Ok? ==> [] + whole.value == whole.value;
    turns := 0;
    while true
      invariant r.Valid()
      invariant whole == Onward(frames, ReadFrames(host, false, kind, v, r.Rest()))
      invariant turns + FrameTurns(host, kind, v, r.Rest()) == FrameTurns(host, kind, v, old(r.Rest()))
      invariant r.Credit() + 8 * |frames| + AllPasses(frames, |frames|) <= old(r.Credit())
      decreases |r.Rest()|
    {
      ghost var s := r.Rest();
      RecordProgress(s);
      FrameTurnsStep(host, kind, v, s);
      if ReadRecord(s).Parsed? && ReadRecord(s).value.0 != END { OnwardStep(host, kind, v, s, frames); }
      else { OnwardEnd(host, kind, v, s, frames); }
      turns := turns + 1;
      r.turns := r.turns + 1;
      var record := NextRecord(r);
      if record.Err? { return Err(record.code), turns; }
      var (frameType, payload) := record.value;
      if frameType == END {
        if |payload| != 0 { return Err(InvalidRequest), turns; }
        var consumed := r.ExpectFullyConsumed();
        if consumed.Err? { return Err(consumed.code), turns; }
        return Ok(frames), turns;
      }
      var frame, work := DecodeFrame(host, kind, v, frameType, payload);
      r.turns := r.turns + work;
      if frame.Err? { return Err(frame.code), turns; }
      PassesSnoc(frames, frame.value);
      frames := frames + [frame.value];
    }
  }

  method DecodeHeader(r: ByteReader) returns (res: Result<(int, MsgKind)>)
    requires r.Valid()
    modifies r`position
    ensures r.Valid() && Follows(ReadHeader(old(r.Rest())), res, r.Rest())
    ensures r.Within(old(r.Credit()), 0, res.Ok?)
  {
    hide ReadU16, ReadU8, ReadRaw;
    var remaining := r.Remaining();
    if remaining < 8 { return Err(InvalidRequest); }
    var magic :- r.Raw(4);
    if magic != MAGIC { return Err(InvalidRequest); }
    var wireVersion :- r.U16();
    if !IsSupported(wireVersion) { return Err(InvalidRequest); }
    var kindByte :- r.U8();
    if kindByte != 0x01 && kindByte != 0x02 { return Err(InvalidRequest); }
    var flags :- r.U8();
    if flags != 0 { return Err(InvalidRequest); }
    return Ok((wireVersion, if kindByte == 0x01 then Request else Response));
  }

  /**
   * `decodeMessage`. `work` counts the turns of all its loops together, over frames, operations, records,
   * entries, changes, lists, maps, columns, blocks, rows and cells, and of the validator's, its
   * passes over records and entries included: eight for every byte of the input and one more at most, whatever the counts in it claim.
   */
  method DecodeMessage(host: Host, b: bytes) returns (res: Result<Message>, ghost work: nat)
    ensures res == Decoded(host, false, b)
    ensures work <= 8 * |b| + 1
  {
    hide ReadHeader, ReadFrames, FrameTurns, Accepts, AllPasses;
    var r := new ByteReader(b);
    var header := DecodeHeader(r);
    if header.Err? { return Err(header.code), r.turns; }
    var (wireVersion, kind) := header.value;
    var frames, turns := ReadFrameList(r, host, kind, wireVersion);
    if frames.Err? { return Err(frames.code), r.turns; }
    var m := Message(wireVersion, kind, frames.value);
    var valid, validating := ValidateFrameSequence(m);
    if valid.Err? { return Err(valid.code), r.turns + validating; }
    return Ok(m), r.turns + validating;
  }
}
