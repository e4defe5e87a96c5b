/** The frame payload decoders as they run, and the two dispatchers (packages/core/src/message.ts:270-694). */
module FrameDecoder {
  import opened Results
  import opened Hosts
  import opened Primitives
  import opened Formats
  import opened Messages
  import opened FrameFormats
  import opened FrameReader
  import opened DetailsCodec
  import opened ByteIO
  import opened LoopTurns
  import SegmentCodec
  import SegmentIO

  method DecodeReqHeader(r: ByteReader, v: int) returns (res: Result<Frame>)
    requires r.Valid()
    modifies r
    ensures r.Valid() && Follows(ReqHeaderSpec(v, old(r.Rest())), res, r.Rest())
    ensures FrameWithin(r, old(r.Credit()), 0, res)
  {
    hide ReadStr, ReadI32, ReadOpt, NonEmptyStrFormat;
    var clientId :- r.Str();
    if clientId == [] { return Err(InvalidRequest); }
    var schemaVersion :- r.I32();
    if schemaVersion < 1 { return Err(InvalidRequest); }
    var epoch: Option<string> := None;
    if v >= 2 { epoch :- DecodeEpoch(r); }
    return Ok(ReqHeader(clientId, schemaVersion, epoch));
  }

  method DecodeEpoch(r: ByteReader) returns (res: Result<Option<string>>)
    requires r.Valid()
    modifies r
    ensures r.Valid() && Follows(ReadOpt(NonEmptyStrFormat(), false, old(r.Rest())), res, r.Rest())
    ensures r.Within(old(r.Credit()), 0, res.Ok?)
  {
    hide ReadStr, ReadU8, NonEmptyStrFormat;
    var presence :- r.U8();
    if presence == 0 { return Ok(None); }
    if presence != 1 { return Err(InvalidRequest); }
    NonEmptyRead(r.Rest());
    var epoch :- r.Str();
    if epoch == [] { return Err(InvalidRequest); }
    return Ok(Some(epoch));
  }

  method DecodeOperation(r: ByteReader) returns (res: Result<PushOperation>)
    requires r.Valid()
    modifies r
    ensures r.Valid() && Follows(OperationFormat().read(false, old(r.Rest())), res, r.Rest())
    ensures r.Within(old(r.Credit()), 0, res.Ok?)
  {
    hide ReadStr, ReadU8, ReadOpt, OperationFormat;
    OperationRead(r.Rest());
    var table :- r.Str();
    var rowId :- r.Str();
    var opByte :- r.U8();
    if opByte != 1 && opByte != 2 { return Err(InvalidRequest); }
    var op := if opByte == 1 then Upsert else Delete;
    var baseVersion :- r.OptI64();
    var payload :- r.OptBytes();
    if op.Upsert? && payload.None? { return Err(InvalidRequest); }
    if op.Delete? && payload.Some? { return Err(InvalidRequest); }
    return Ok(PushOperation(table, rowId, op, baseVersion, payload));
  }

  method DecodeOperations(r: ByteReader, count: nat) returns (res: Result<seq<PushOperation>>, ghost turns: nat)
    requires r.Valid()
    modifies r
    ensures r.Valid() && Follows(ReadAll(OperationFormat(), false, count, old(r.Rest())), res, r.Rest())
    ensures turns == Turns(OperationFormat(), false, count, old(r.Rest()))
    ensures r.WithinLoop(old(r.Credit()), 1, res.Ok?)
  {
    hide OperationFormat, ReadAll, Turns;
    var operations: seq<PushOperation> := [];
    ghost var f, whole := OperationFormat(), ReadAll(OperationFormat(), false, count, r.Rest());
    ResumeStart(whole);
    turns := 0;
    for i := 0 to count
      invariant r.Valid()
      invariant whole == Resume(operations, ReadAll(f, false, count - i, r.Rest()))
      invariant turns + Turns(f, false, count - i, r.Rest()) == Turns(f, false, count, old(r.Rest()))
      invariant r.Credit() <= old(r.Credit())
    {
      ghost var s := r.Rest();
      TurnsStep(f, count - i, s);
      turns := turns + 1;
      r.turns := r.turns + 1;
      var x := DecodeOperation(r);
      if x.Err? {
        ResumeFail(f, false, count - i, s, operations);
        return Err(x.code), turns;
      }
      ResumeStep(f, false, count - i, s, operations);
      operations := operations + [x.value];
    }
    ResumeEnd(f, false, r.Rest(), operations);
    TurnsEnd(f, r.Rest());
    return Ok(operations), turns;
  }

  method DecodePushCommit(r: ByteReader) returns (res: Result<Frame>)
    requires r.Valid()
    modifies r
    ensures r.Valid() && Follows(PushCommitSpec(old(r.Rest())), res, r.Rest())
    ensures FrameWithin(r, old(r.Credit()), 1, res)
  {
    hide ReadStr, ReadU32, ReadAll, OperationFormat;
    var id :- r.Str();
    if id == [] { return Err(InvalidRequest); }
    var operationCount :- r.U32();
    if operationCount == 0 { return Err(EmptyCommit); }
    var operations, turns :- DecodeOperations(r, operationCount);
    return Ok(PushCommit(id, operations));
  }

  method DecodePullHeader(r: ByteReader) returns (res: Result<Frame>)
    requires r.Valid()
    modifies r
    ensures r.Valid() && Follows(PullHeaderSpec(old(r.Rest())), res, r.Rest())
    ensures FrameWithin(r, old(r.Credit()), 0, res)
  {
    hide ReadI32, ReadU8;
    var limitCommits :- r.I32();
    var limitSnapshotRows :- r.I32();
    var maxSnapshotPages :- r.I32();
    var accept :- r.U8();
    if accept >= 16 { return Err(InvalidRequest); }
    return Ok(PullHeader(limitCommits, limitSnapshotRows, maxSnapshotPages, accept));
  }

  /** `r.opt(() => requireJsonDocument(r.str(), …))`. */
  method DecodeOptJson(r: ByteReader, host: Host) returns (res: Result<Option<string>>)
    requires r.Valid()
    modifies r
    ensures r.Valid() && Follows(ReadOpt(JsonFormat(host), false, old(r.Rest())), res, r.Rest())
    ensures r.Within(old(r.Credit()), 0, res.Ok?)
  {
    hide ReadStr, ReadU8;
    var presence :- r.U8();
    if presence == 0 { return Ok(None); }
    if presence != 1 { return Err(InvalidRequest); }
    ViaRead(StrFormat(), CheckJsonText(host), Id, r.Rest());
    var text :- r.Str();
    if !IsJson(host, text) { return Err(InvalidRequest); }
    return Ok(Some(text));
  }

  method DecodeSubscription(r: ByteReader, host: Host) returns (res: Result<Frame>)
    requires r.Valid()
    modifies r
    ensures r.Valid() && Follows(SubscriptionSpec(host, old(r.Rest())), res, r.Rest())
    ensures FrameWithin(r, old(r.Credit()), 2, res)
  {
    hide ReadStr, ReadI64, ReadOpt, StringListMap, JsonFormat;
    var id :- r.Str();
    var table :- r.Str();
    var scopes :- ReadStringListMap(r);
    var params :- DecodeOptJson(r, host);
    var cursor :- r.I64();
    var state :- DecodeOptJson(r, host);
    return Ok(Subscription(id, table, scopes, params, cursor, state));
  }

  method DecodeRespHeader(r: ByteReader, v: int) returns (res: Result<Frame>)
    requires r.Valid()
    modifies r
    ensures r.Valid() && Follows(RespHeaderSpec(v, old(r.Rest())), res, r.Rest())
    ensures FrameWithin(r, old(r.Credit()), 0, res)
  {
    hide ReadStr, ReadBool, ReadOpt;
    var required :- r.OptI32();
    var latest :- r.OptI32();
    if v < 2 { return Ok(RespHeader(required, latest, None, None)); }
    var epoch :- r.Str();
    if epoch == [] { return Err(InvalidRequest); }
    var reset :- r.Bool();
    return Ok(RespHeader(required, latest, Some(epoch), Some(reset)));
  }

  method DecodeLease(r: ByteReader) returns (res: Result<Frame>)
    requires r.Valid()
    modifies r
    ensures r.Valid() && Follows(LeaseSpec(old(r.Rest())), res, r.Rest())
    ensures FrameWithin(r, old(r.Credit()), 0, res)
  {
    hide ReadStr, ReadI64;
    var leaseId :- r.Str();
    if leaseId == [] { return Err(InvalidRequest); }
    var expiresAtMs :- r.I64();
    return Ok(Lease(leaseId, expiresAtMs));
  }

  method DecodeConflict(r: ByteReader, opIndex: int) returns (res: Result<OpResult>)
    requires r.Valid()
    modifies r
    ensures r.Valid() && Follows(ConflictSpec(opIndex, old(r.Rest())), res, r.Rest())
    ensures r.Within(old(r.Credit()), 0, res.Ok?)
  {
    hide ReadStr, ReadI64, ReadBytes;
    var code :- r.Str();
    var message :- r.Str();
    var serverVersion :- r.I64();
    var serverRow :- r.Bytes();
    return Ok(ConflictResult(opIndex, code, message, serverVersion, serverRow));
  }

  method DecodeError(r: ByteReader, opIndex: int) returns (res: Result<OpResult>)
    requires r.Valid()
    modifies r
    ensures r.Valid() && Follows(ErrorSpec(opIndex, old(r.Rest())), res, r.Rest())
    ensures r.Within(old(r.Credit()), 0, res.Ok?)
  {
    hide ReadStr, ReadBool;
    var code :- r.Str();
    var message :- r.Str();
    var retryable :- r.Bool();
    return Ok(ErrorResult(opIndex, code, message, retryable, None));
  }

  method DecodeResult(r: ByteReader) returns (res: Result<OpResult>)
    requires r.Valid()
    modifies r
    ensures r.Valid() && Follows(ResultFormat().read(false, old(r.Rest())), res, r.Rest())
    ensures r.Within(old(r.Credit()), 0, res.Ok?)
  {
    hide ReadI32, ReadU8, ConflictSpec, ErrorSpec, ResultFormat;
    ResultRead(r.Rest());
    var opIndex :- r.I32();
    var recordStatus :- r.U8();
    if recordStatus == 1 {
      return Ok(AppliedResult(opIndex));
    } else if recordStatus == 2 {
      res := DecodeConflict(r, opIndex);
    } else if recordStatus == 3 {
      res := DecodeError(r, opIndex);
    } else {
      return Err(InvalidRequest);
    }
  }

  method DecodeResults(r: ByteReader, count: nat) returns (res: Result<seq<OpResult>>, ghost turns: nat)
    requires r.Valid()
    modifies r
    ensures r.Valid() && Follows(ReadAll(ResultFormat(), false, count, old(r.Rest())), res, r.Rest())
    ensures turns == Turns(ResultFormat(), false, count, old(r.Rest()))
    ensures r.WithinLoop(old(r.Credit()), 1, res.Ok?)
    ensures res.Ok? ==> r.Credit() + |res.value| <= old(r.Credit())
  {
    hide ResultFormat, ReadAll, Turns;
    var results: seq<OpResult> := [];
    ghost var f, whole := ResultFormat(), ReadAll(ResultFormat(), false, count, r.Rest());
    ResumeStart(whole);
    turns := 0;
    for i := 0 to count
      invariant r.Valid()
      invariant whole == Resume(results, ReadAll(f, false, count - i, r.Rest()))
      invariant turns + Turns(f, false, count - i, r.Rest()) == Turns(f, false, count, old(r.Rest()))
      invariant r.Credit() + |results| <= old(r.Credit())
    {
      ghost var s := r.Rest();
      TurnsStep(f, count - i, s);
      turns := turns + 1;
      r.turns := r.turns + 1;
      var x := DecodeResult(r);
      if x.Err? {
        ResumeFail(f, false, count - i, s, results);
        return Err(x.code), turns;
      }
      ResumeStep(f, false, count - i, s, results);
      results := results + [x.value];
    }
    ResumeEnd(f, false, r.Rest(), results);
    TurnsEnd(f, r.Rest());
    return Ok(results), turns;
  }

  method DecodePushResult(r: ByteReader) returns (res: Result<Frame>)
    requires r.Valid()
    modifies r
    ensures r.Valid() && Follows(PushResultSpec(old(r.Rest())), res, r.Rest())
    ensures FrameWithin(r, old(r.Credit()), 1, res)
  {
    hide ReadStr, ReadU8, ReadOpt, ReadU32, ReadAll, ResultFormat;
    var id :- r.Str();
    var statusByte :- r.U8();
    if statusByte < 1 || statusByte > 3 { return Err(InvalidRequest); }
    var status := if statusByte == 1 then Applied else if statusByte == 2 then Cached else Rejected;
    var commitSeq :- r.OptI64();
    if status.Rejected? && commitSeq.Some? { return Err(InvalidRequest); }
    if !status.Rejected? && commitSeq.None? { return Err(InvalidRequest); }
    var resultCount :- r.U32();
    var results, turns :- DecodeResults(r, resultCount);
    return Ok(PushResult(id, status, commitSeq, results));
  }

  method DecodeSubStart(r: ByteReader) returns (res: Result<Frame>)
    requires r.Valid()
    modifies r
    ensures r.Valid() && Follows(SubStartSpec(old(r.Rest())), res, r.Rest())
    ensures FrameWithin(r, old(r.Credit()), 2, res)
  {
    hide ReadStr, ReadU8, ReadBool, StringListMap;
    var id :- r.Str();
    var statusByte :- r.U8();
    if statusByte < 1 || statusByte > 3 { return Err(InvalidRequest); }
    var status := if statusByte == 1 then Active else if statusByte == 2 then Revoked else Reset;
    var reasonCode :- r.Str();
    var effectiveScopes :- ReadStringListMap(r);
    var bootstrap :- r.Bool();
    return Ok(SubStart(id, status, reasonCode, effectiveScopes, bootstrap));
  }

  method DecodeChange(r: ByteReader, tableCount: nat) returns (res: Result<CommitChange>)
    requires r.Valid()
    modifies r
    ensures r.Valid() && Follows(ChangeFormat(tableCount).read(false, old(r.Rest())), res, r.Rest())
    ensures r.Within(old(r.Credit()), 1, res.Ok?)
  {
    hide ReadU16, ReadStr, ReadU8, ReadOpt, StringMap, ChangeFormat;
    ChangeRead(tableCount, r.Rest());
    var tableIndex :- r.U16();
    if tableIndex >= tableCount { return Err(InvalidRequest); }
    var rowId :- r.Str();
    var opByte :- r.U8();
    if opByte != 1 && opByte != 2 { return Err(InvalidRequest); }
    var op := if opByte == 1 then Upsert else Delete;
    var rowVersion :- r.OptI64();
    var scopes :- ReadStringMap(r);
    var row :- r.OptBytes();
    if op.Upsert? && (rowVersion.None? || row.None?) { return Err(InvalidRequest); }
    if op.Delete? && (rowVersion.Some? || row.Some?) { return Err(InvalidRequest); }
    return Ok(CommitChange(tableIndex, rowId, op, rowVersion, scopes, row));
  }

  method DecodeChanges(r: ByteReader, tableCount: nat, count: nat) returns (res: Result<seq<CommitChange>>, ghost turns: nat)
    requires r.Valid()
    modifies r
    ensures r.Valid() && Follows(ReadAll(ChangeFormat(tableCount), false, count, old(r.Rest())), res, r.Rest())
    ensures turns == Turns(ChangeFormat(tableCount), false, count, old(r.Rest()))
    ensures r.WithinLoop(old(r.Credit()), 2, res.Ok?)
  {
    hide ChangeFormat, ReadAll, Turns;
    var changes: seq<CommitChange> := [];
    ghost var f, whole := ChangeFormat(tableCount), ReadAll(ChangeFormat(tableCount), false, count, r.Rest());
    ResumeStart(whole);
    turns := 0;
    for i := 0 to count
      invariant r.Valid()
      invariant whole == Resume(changes, ReadAll(f, false, count - i, r.Rest()))
      invariant turns + Turns(f, false, count - i, r.Rest()) == Turns(f, false, count, old(r.Rest()))
      invariant r.Credit() <= old(r.Credit())
    {
      ghost var s := r.Rest();
      TurnsStep(f, count - i, s);
      turns := turns + 1;
      r.turns := r.turns + 1;
      var x := DecodeChange(r, tableCount);
      if x.Err? {
        ResumeFail(f, false, count - i, s, changes);
        return Err(x.code), turns;
      }
      ResumeStep(f, false, count - i, s, changes);
      changes := changes + [x.value];
    }
    ResumeEnd(f, false, r.Rest(), changes);
    TurnsEnd(f, r.Rest());
    return Ok(changes), turns;
  }

  method DecodeCommit(r: ByteReader) returns (res: Result<Frame>)
    requires r.Valid()
    modifies r
    ensures r.Valid() && Follows(CommitSpec(old(r.Rest())), res, r.Rest())
    ensures FrameWithin(r, old(r.Credit()), 2, res)
  {
    hide ReadI64, ReadStr, ReadList, ReadU32, ReadAll, ChangeFormat;
    var commitSeq :- r.I64();
    var createdAtMs :- r.I64();
    var actorId :- r.Str();
    var tables :- ReadStrings(r);
    var changeCount :- r.U32();
    var changes, turns :- DecodeChanges(r, |tables|, changeCount);
    return Ok(Commit(commitSeq, createdAtMs, actorId, tables, changes));
  }

  method DecodeRefUrls(r: ByteReader) returns (res: Result<RefUrls>)
    requires r.Valid()
    modifies r
    ensures r.Valid() && Follows(RefUrlsSpec(old(r.Rest())), res, r.Rest())
    ensures r.Within(old(r.Credit()), 0, res.Ok?)
  {
    hide ReadOpt;
    var rowCursor :- r.OptStr();
    var nextRowCursor :- r.OptStr();
    var url :- r.OptStr();
    var urlExpiresAtMs :- r.OptI64();
    return Ok((rowCursor, (nextRowCursor, (url, urlExpiresAtMs))));
  }

  method DecodeRefNumbers(r: ByteReader) returns (res: Result<RefNumbers>)
    requires r.Valid()
    modifies r
    ensures r.Valid() && Follows(RefNumbersSpec(old(r.Rest())), res, r.Rest())
    ensures r.Within(old(r.Credit()), 0, res.Ok?)
  {
    hide ReadI64, ReadStr, RefUrlsSpec;
    var byteLength :- r.I64();
    var rowCount :- r.I64();
    var asOfCommitSeq :- r.I64();
    var scopeDigest :- r.Str();
    var urls :- DecodeRefUrls(r);
    return Ok((byteLength, (rowCount, (asOfCommitSeq, (scopeDigest, urls)))));
  }

  method DecodeSegmentRef(r: ByteReader) returns (res: Result<Frame>)
    requires r.Valid()
    modifies r
    ensures r.Valid() && Follows(SegmentRefSpec(old(r.Rest())), res, r.Rest())
    ensures FrameWithin(r, old(r.Credit()), 0, res)
  {
    hide ReadStr, ReadU8, RefNumbersSpec;
    var segmentId :- r.Str();
    var mediaTypeByte :- r.U8();
    if mediaTypeByte != 1 && mediaTypeByte != 2 { return Err(InvalidRequest); }
    var mediaType := if mediaTypeByte == 1 then Rows else Sqlite;
    var table :- r.Str();
    var numbers :- DecodeRefNumbers(r);
    var urls := numbers.1.1.1.1;
    if urls.1.1.0.None? != urls.1.1.1.None? { return Err(InvalidRequest); }
    return Ok(SegmentRef(segmentId, mediaType, table, numbers.0, numbers.1.0, numbers.1.1.0, numbers.1.1.1.0,
                         urls.0, urls.1.0, urls.1.1.0, urls.1.1.1));
  }

  method DecodeSubEnd(r: ByteReader, host: Host) returns (res: Result<Frame>)
    requires r.Valid()
    modifies r
    ensures r.Valid() && Follows(SubEndSpec(host, old(r.Rest())), res, r.Rest())
    ensures FrameWithin(r, old(r.Credit()), 0, res)
  {
    hide ReadI64, ReadOpt, JsonFormat;
    var nextCursor :- r.I64();
    var bootstrapState :- DecodeOptJson(r, host);
    return Ok(SubEnd(nextCursor, bootstrapState));
  }

  method DecodeErrorFrame(r: ByteReader, host: Host) returns (res: Result<Frame>)
    requires r.Valid()
    modifies r
    ensures r.Valid() && Follows(ErrorFrameSpec(host, old(r.Rest())), res, r.Rest())
    ensures FrameWithin(r, old(r.Credit()), 0, res)
  {
    hide ReadStr, ReadBool, ReadOpt, JsonFormat;
    var code :- r.Str();
    var message :- r.Str();
    var category :- r.Str();
    var retryable :- r.Bool();
    var recommendedAction :- r.Str();
    var details :- DecodeOptJson(r, host);
    return Ok(ErrorFrame(code, message, category, retryable, recommendedAction, details));
  }

  // ----- The dispatchers --------------------------------------------------------------------------------

  predicate TypeOfKind(kind: MsgKind, t: int) { if kind.Request? then IsRequestType(t) else IsResponseType(t) }

  function Other(kind: MsgKind): MsgKind { if kind.Request? then Response else Request }

  function CheckSegment(host: Host, payload: bytes): Result<Frame> {
    match ReadWhole(SegmentCodec.SegmentFormat(host), false, payload)
    case Ok(_) => Ok(SegmentInline(payload))
    case Err(c) => Err(c)
  }

  /** A payload of a type defined for the message's kind. */
  function DecodeDefined(host: Host, keepBom: bool, v: int, t: int, payload: bytes): Result<Frame>
    requires IsRequestType(t) || IsResponseType(t)
  {
    if t == 0x15 then CheckSegment(host, payload)
    else if t == 0x1B then Whole(ReadDetails(host, keepBom, payload))
    else ReadWhole(PayloadFormat(host, v, t), keepBom, payload)
  }

  /**
   * One frame of a message of the given kind: a defined type is decoded, a type defined for the
   * other kind is refused, any other type is kept as it came.
   */
  function DecodePayload(host: Host, keepBom: bool, kind: MsgKind, v: int, t: int, payload: bytes): Result<Frame> {
    if TypeOfKind(kind, t) then DecodeDefined(host, keepBom, v, t, payload)
    else if TypeOfKind(Other(kind), t) then Err(InvalidRequest)
    else Ok(Unknown(t, payload))
  }

  method DecodeRequestPayload(r: ByteReader, host: Host, v: int, t: int) returns (res: Result<Frame>)
    requires r.Valid() && IsRequestType(t)
    modifies r
    ensures r.Valid() && Follows(PayloadFormat(host, v, t).read(false, old(r.Rest())), res, r.Rest())
    ensures FrameWithin(r, old(r.Credit()), 2, res)
  {
    hide ReqHeaderSpec, PushCommitSpec, PullHeaderSpec, SubscriptionSpec;
    hide ReqHeaderFormat1, ReqHeaderFormat2, PushCommitFormat, PullHeaderFormat, SubscriptionFormat, Follows;
    if t == 0x01 {
      ReqHeaderRead(v, r.Rest());
      res := DecodeReqHeader(r, v);
    } else if t == 0x02 {
      PushCommitRead(r.Rest());
      res := DecodePushCommit(r);
    } else if t == 0x03 {
      PullHeaderRead(r.Rest());
      res := DecodePullHeader(r);
    } else {
      SubscriptionRead(host, r.Rest());
      res := DecodeSubscription(r, host);
    }
  }

  /** `work` counts the turns of all loops, nested ones included. */
  method DecodeRequestFrame(host: Host, v: int, t: int, payload: bytes) returns (res: Result<Frame>, ghost work: nat)
    ensures res == DecodePayload(host, false, Request, v, t, payload)
    ensures if res.Ok? then work + Passes(res.value) <= 8 * |payload| else work <= 8 * |payload| + 2
  {
    hide DecodeDefined, Passes;
    if IsRequestType(t) {
      res, work := DecodeRequestFields(host, v, t, payload);
    } else {
      if IsResponseType(t) { return Err(InvalidRequest), 0; }
      UnknownPasses(t, payload);
      return Ok(Unknown(t, payload)), 0;
    }
  }

  lemma UnknownPasses(t: int, payload: bytes)
    ensures Passes(Unknown(t, payload)) == 0
  {
  }

  /** A payload read field by field and used up. */
  method DecodeRequestFields(host: Host, v: int, t: int, payload: bytes) returns (res: Result<Frame>, ghost work: nat)
    requires IsRequestType(t)
    ensures res == DecodeDefined(host, false, v, t, payload)
    ensures if res.Ok? then work + Passes(res.value) <= 8 * |payload| else work <= 8 * |payload| + 2
  {
    hide PayloadFormat, ReadDetails, CheckSegment, Passes;
    var r := new ByteReader(payload);
    var f := DecodeRequestPayload(r, host, v, t);
    if f.Err? { return Err(f.code), r.turns; }
    var consumed := r.ExpectFullyConsumed();
    if consumed.Err? { return Err(consumed.code), r.turns; }
    return f, r.turns;
  }

  method DecodeResponsePayload(r: ByteReader, host: Host, v: int, t: int) returns (res: Result<Frame>)
    requires r.Valid() && IsResponseType(t) && HasLayout(t)
    modifies r
    ensures r.Valid() && Follows(PayloadFormat(host, v, t).read(false, old(r.Rest())), res, r.Rest())
    ensures FrameWithin(r, old(r.Credit()), 2, res)
  {
    hide RespHeaderSpec, LeaseSpec, PushResultSpec, SubStartSpec, CommitSpec, SegmentRefSpec, SubEndSpec, ErrorFrameSpec;
    hide RespHeaderFormat1, RespHeaderFormat2, LeaseFormat, PushResultFormat, SubStartFormat, CommitFormat;
    hide SegmentRefFormat, SubEndFormat, ErrorFrameFormat, Follows;
    if t == 0x10 {
      RespHeaderRead(v, r.Rest());
      res := DecodeRespHeader(r, v);
    } else if t == 0x19 {
      LeaseRead(r.Rest());
      res := DecodeLease(r);
    } else if t == 0x11 {
      PushResultRead(r.Rest());
      res := DecodePushResult(r);
    } else if t == 0x12 {
      SubStartRead(r.Rest());
      res := DecodeSubStart(r);
    } else if t == 0x13 {
      CommitRead(r.Rest());
      res := DecodeCommit(r);
    } else if t == 0x14 {
      SegmentRefRead(r.Rest());
      res := DecodeSegmentRef(r);
    } else if t == 0x16 {
      SubEndRead(host, r.Rest());
      res := DecodeSubEnd(r, host);
    } else {
      ErrorFrameRead(host, r.Rest());
      res := DecodeErrorFrame(r, host);
    }
  }

  /** One complete rows segment, checked and kept as it came. */
  method DecodeInline(host: Host, payload: bytes) returns (res: Result<Frame>, ghost work: nat)
    ensures res == CheckSegment(host, payload)
    ensures if res.Ok? then work + Passes(res.value) <= 8 * |payload| else work <= 8 * |payload| + 1
  {
    hide SegmentCodec.SegmentFormat, ReadWhole;
    var segment, turns := SegmentIO.DecodeRowsSegment(host, payload);
    if segment.Err? { return Err(segment.code), turns; }
    return Ok(SegmentInline(payload)), turns;
  }

  /** A payload read field by field and used up. */
  method DecodeResponseFields(host: Host, v: int, t: int, payload: bytes) returns (res: Result<Frame>, ghost work: nat)
    requires IsResponseType(t) && t != 0x15
    ensures res == DecodeDefined(host, false, v, t, payload)
    ensures if res.Ok? then work + Passes(res.value) <= 8 * |payload| else work <= 8 * |payload| + 2
  {
    hide PayloadFormat, ReadDetails, CheckSegment, Passes;
    var r := new ByteReader(payload);
    var f: Result<Frame>;
    if t == 0x1B {
      f := DecodeDetails(r, host);
    } else {
      f := DecodeResponsePayload(r, host, v, t);
    }
    if f.Err? { return Err(f.code), r.turns; }
    var consumed := r.ExpectFullyConsumed();
    if consumed.Err? { return Err(consumed.code), r.turns; }
    return f, r.turns;
  }

  method DecodeResponseFrame(host: Host, v: int, t: int, payload: bytes) returns (res: Result<Frame>, ghost work: nat)
    ensures res == DecodePayload(host, false, Response, v, t, payload)
    ensures if res.Ok? then work + Passes(res.value) <= 8 * |payload| else work <= 8 * |payload| + 2
  {
    hide CheckSegment, PayloadFormat, ReadDetails, Passes;
    if t == 0x15 {
      res, work := DecodeInline(host, payload);
    } else if IsResponseType(t) {
      res, work := DecodeResponseFields(host, v, t, payload);
    } else {
      if IsRequestType(t) { return Err(InvalidRequest), 0; }
      UnknownPasses(t, payload);
      return Ok(Unknown(t, payload)), 0;
    }
  }
}
