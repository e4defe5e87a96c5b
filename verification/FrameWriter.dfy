/** `encodeFrame` of packages/core/src/message.ts, against the payload layouts. */
module FrameWriter {
  import opened Results
  import opened Hosts
  import opened Primitives
  import opened Formats
  import opened Messages
  import opened FrameFormats
  import opened FrameRules
  import opened ByteIO

  // ----- The layouts, field by field --------------------------------------------------------------

  ghost function PutReqHeader(v: int, f: Frame, k: bytes): bytes
    requires f.ReqHeader?
  {
    PutStr(f.clientId, PutI32(f.schemaVersion, if v >= 2 then PutOpt(StrFormat(), f.epoch, k) else k))
  }

  ghost function PutOperation(o: PushOperation, k: bytes): bytes {
    PutStr(o.table, PutStr(o.rowId, PutU8(OpByte(o.op),
      PutOpt(I64Format(), o.baseVersion, PutOpt(BytesFormat(), o.payload, k)))))
  }

  ghost function PutPushCommit(f: Frame, k: bytes): bytes
    requires f.PushCommit?
  {
    PutStr(f.commitId, PutU32(|f.operations|, PutAll(OperationFormat(), f.operations, k)))
  }

  ghost function PutPullHeader(f: Frame, k: bytes): bytes
    requires f.PullHeader?
  {
    PutI32(f.limitCommits, PutI32(f.limitSnapshotRows, PutI32(f.maxSnapshotPages, PutU8(f.accept, k))))
  }

  ghost function PutSubscription(f: Frame, k: bytes): bytes
    requires f.Subscription?
  {
    PutStr(f.id, PutStr(f.table, Put(StringListMap(), f.scopes,
      PutOpt(StrFormat(), f.params, PutI64(f.cursor, PutOpt(StrFormat(), f.resumeState, k))))))
  }

  ghost function PutRespHeader(v: int, f: Frame, k: bytes): bytes
    requires f.RespHeader? && (v >= 2 ==> f.logEpoch.Some? && f.resetRequired.Some?)
  {
    PutOpt(I32Format(), f.requiredSchemaVersion, PutOpt(I32Format(), f.latestSchemaVersion,
      if v >= 2 then PutStr(f.logEpoch.value, PutBool(f.resetRequired.value, k)) else k))
  }

  ghost function PutLease(f: Frame, k: bytes): bytes
    requires f.Lease?
  {
    PutStr(f.leaseId, PutI64(f.expiresAtMs, k))
  }

  ghost function PutResult(r: OpResult, k: bytes): bytes {
    PutI32(r.opIndex, PutU8(HeadOf(r).1,
      match r
      case AppliedResult(_) => k
      case ConflictResult(_, code, message, version, row) => PutStr(code, PutStr(message, PutI64(version, PutBytes(row, k))))
      case ErrorResult(_, code, message, retryable, _) => PutStr(code, PutStr(message, PutBool(retryable, k)))))
  }

  ghost function PutPushResult(f: Frame, k: bytes): bytes
    requires f.PushResult?
  {
    PutStr(f.clientCommitId, PutU8(PushStatusByte(f.status), PutOpt(I64Format(), f.commitSeq,
      PutU32(|f.results|, PutAll(ResultFormat(), f.results, k)))))
  }

  ghost function PutSubStart(f: Frame, k: bytes): bytes
    requires f.SubStart?
  {
    PutStr(f.subId, PutU8(SubStatusByte(f.subStatus), PutStr(f.reasonCode,
      Put(StringListMap(), f.effectiveScopes, PutBool(f.bootstrap, k)))))
  }

  ghost function PutChange(c: CommitChange, k: bytes): bytes {
    PutU16(c.tableIndex, PutStr(c.rowId, PutU8(OpByte(c.op), PutOpt(I64Format(), c.rowVersion,
      Put(StringMap(), c.scopes, PutOpt(BytesFormat(), c.row, k))))))
  }

  ghost function PutCommit(f: Frame, k: bytes): bytes
    requires f.Commit?
  {
    PutI64(f.seqNo, PutI64(f.createdAtMs, PutStr(f.actorId, PutList(StrFormat(), f.tables,
      PutU32(|f.changes|, PutAll(ChangeFormat(|f.tables|), f.changes, k))))))
  }

  ghost function PutRefUrls(f: Frame, k: bytes): bytes
    requires f.SegmentRef?
  {
    PutOpt(StrFormat(), f.rowCursor, PutOpt(StrFormat(), f.nextRowCursor,
      PutOpt(StrFormat(), f.url, PutOpt(I64Format(), f.urlExpiresAtMs, k))))
  }

  ghost function PutSegmentRef(f: Frame, k: bytes): bytes
    requires f.SegmentRef?
  {
    PutStr(f.segmentId, PutU8(MediaTypeByte(f.mediaType), PutStr(f.segmentTable, PutI64(f.byteLength,
      PutI64(f.rowCount, PutI64(f.asOfCommitSeq, PutStr(f.scopeDigest, PutRefUrls(f, k))))))))
  }

  ghost function PutSubEnd(f: Frame, k: bytes): bytes
    requires f.SubEnd?
  {
    PutI64(f.nextCursor, PutOpt(StrFormat(), f.bootstrapState, k))
  }

  ghost function PutErrorFrame(f: Frame, k: bytes): bytes
    requires f.ErrorFrame?
  {
    PutStr(f.code, PutStr(f.message, PutStr(f.category, PutBool(f.retryable,
      PutStr(f.recommendedAction, PutOpt(StrFormat(), f.details, k))))))
  }

  // ----- They are what the formats put ------------------------------------------------------------

  lemma NonEmptyPut(t: string, k: bytes)
    ensures NonEmptyStrFormat().put(t, k) == PutStr(t, k)
  {
    hide PutStr;
    ViaPut(StrFormat(), CheckNonEmpty, Id, t, k);
  }

  lemma OptVia<T>(f: Format<T>, g: Format<T>, o: Option<T>, k: bytes)
    requires o.Some? ==> f.put(o.value, k) == g.put(o.value, k)
    ensures PutOpt(f, o, k) == PutOpt(g, o, k)
  {
    hide PutU8;
  }

  lemma ReqHeaderPut(v: int, f: Frame, k: bytes)
    requires f.ReqHeader?
    ensures Put(if v >= 2 then ReqHeaderFormat2() else ReqHeaderFormat1(), f, k) == PutReqHeader(v, f, k)
  {
    hide PutStr, PutI32, PutOpt, NonEmptyStrFormat;
    if v >= 2 {
      var g := PairFormat(NonEmptyStrFormat(), PairFormat(SchemaVersionFormat(), OptEpoch()));
      ViaPut(g, ToReqHeader2, FromReqHeader2, f, k);
      if f.epoch.Some? { NonEmptyPut(f.epoch.value, k); }
      OptVia(NonEmptyStrFormat(), StrFormat(), f.epoch, k);
      var tail := PutOpt(StrFormat(), f.epoch, k);
      assert OptEpoch().put(f.epoch, k) == tail;
      ViaPut(I32Format(), CheckSchemaVersion, Id, f.schemaVersion, tail);
      NonEmptyPut(f.clientId, PutI32(f.schemaVersion, tail));
    } else {
      var g := PairFormat(NonEmptyStrFormat(), SchemaVersionFormat());
      ViaPut(g, ToReqHeader1, FromReqHeader1, f, k);
      ViaPut(I32Format(), CheckSchemaVersion, Id, f.schemaVersion, k);
      NonEmptyPut(f.clientId, PutI32(f.schemaVersion, k));
    }
  }

  lemma OperationPut(o: PushOperation, k: bytes)
    ensures Put(OperationFormat(), o, k) == PutOperation(o, k)
  {
    hide PutStr, PutU8, PutOpt;
    ViaPut(OperationFields(), ToOperation, FromOperation, o, k);
    var tail := PutOpt(I64Format(), o.baseVersion, PutOpt(BytesFormat(), o.payload, k));
    assert PairFormat(OptI64(), OptBytes()).put((o.baseVersion, o.payload), k) == tail;
    ViaPut(U8Format(), ToOp, OpByte, o.op, tail);
  }

  lemma PushCommitPut(f: Frame, k: bytes)
    requires f.PushCommit?
    ensures Put(PushCommitFormat(), f, k) == PutPushCommit(f, k)
  {
    hide PutStr, PutU32, PutAll, NonEmptyStrFormat, OperationFormat;
    ViaPut(PairFormat(NonEmptyStrFormat(), OperationsFormat()), ToPushCommit, FromPushCommit, f, k);
    ViaPut(ListFormat(OperationFormat()), CheckNotEmpty, Id, f.operations, k);
    NonEmptyPut(f.commitId, PutU32(|f.operations|, PutAll(OperationFormat(), f.operations, k)));
  }

  lemma PullHeaderPut(f: Frame, k: bytes)
    requires f.PullHeader?
    ensures Put(PullHeaderFormat(), f, k) == PutPullHeader(f, k)
  {
    hide PutI32, PutU8;
    ViaPut(PullFields(), ToPullHeader, FromPullHeader, f, k);
    ViaPut(U8Format(), CheckAccept, Id, f.accept, k);
  }

  lemma OptJsonPut(host: Host, o: Option<string>, k: bytes)
    ensures OptJson(host).put(o, k) == PutOpt(StrFormat(), o, k)
  {
    hide PutStr, PutU8;
    if o.Some? { ViaPut(StrFormat(), CheckJsonText(host), Id, o.value, k); }
    OptVia(JsonFormat(host), StrFormat(), o, k);
  }

  lemma SubscriptionPut(host: Host, f: Frame, k: bytes)
    requires f.Subscription?
    ensures Put(SubscriptionFormat(host), f, k) == PutSubscription(f, k)
  {
    hide PutStr, PutI64, PutOpt, StringListMap, OptJson;
    ViaPut(SubscriptionFields(host), ToSubscription, FromSubscription, f, k);
    OptJsonPut(host, f.resumeState, k);
    OptJsonPut(host, f.params, PutI64(f.cursor, PutOpt(StrFormat(), f.resumeState, k)));
  }

  lemma RespHeaderPut(v: int, f: Frame, k: bytes)
    requires f.RespHeader? && (v >= 2 ==> f.logEpoch.Some? && f.resetRequired.Some?)
    ensures Put(if v >= 2 then RespHeaderFormat2() else RespHeaderFormat1(), f, k) == PutRespHeader(v, f, k)
  {
    hide PutStr, PutBool, PutOpt, NonEmptyStrFormat;
    if v >= 2 {
      ViaPut(RespFields(), ToRespHeader2, FromRespHeader2, f, k);
      NonEmptyPut(f.logEpoch.value, PutBool(f.resetRequired.value, k));
    } else {
      ViaPut(PairFormat(OptI32(), OptI32()), ToRespHeader1, FromRespHeader1, f, k);
    }
  }

  lemma LeasePut(f: Frame, k: bytes)
    requires f.Lease?
    ensures Put(LeaseFormat(), f, k) == PutLease(f, k)
  {
    hide PutStr, PutI64, NonEmptyStrFormat;
    ViaPut(PairFormat(NonEmptyStrFormat(), I64Format()), ToLease, FromLease, f, k);
    NonEmptyPut(f.leaseId, PutI64(f.expiresAtMs, k));
  }

  lemma VariantPut(r: OpResult, k: bytes)
    ensures PutResult(r, k) == PutI32(r.opIndex, PutU8(HeadOf(r).1, VariantFormat(HeadOf(r)).put(r, k)))
  {
    hide PutStr, PutI64, PutBytes, PutBool, PutI32, PutU8;
    match r
    case AppliedResult(i) =>
    case ConflictResult(i, _, _, _, _) => ViaPut(ConflictFields(), ToConflict(i), FromConflict, r, k);
    case ErrorResult(i, _, _, _, _) => ViaPut(ErrorFields(), ToError(i), FromError, r, k);
  }

  lemma ResultPut(r: OpResult, k: bytes)
    ensures Put(ResultFormat(), r, k) == PutResult(r, k)
  {
    hide PutI32, PutU8, VariantFormat, PutResult;
    var g := DepFormat(RecordHead(), VariantFormat);
    ViaPut(g, DropHead, WithHead, r, k);
    var tail := VariantFormat(HeadOf(r)).put(r, k);
    assert g.put(WithHead(r), k) == PutDep(RecordHead(), VariantFormat, WithHead(r), k);
    ViaPut(U8Format(), CheckRecordStatus, Id, HeadOf(r).1, tail);
    assert RecordHead().put(HeadOf(r), tail) == PutI32(r.opIndex, PutU8(HeadOf(r).1, tail));
    VariantPut(r, k);
  }

  lemma PushResultPut(f: Frame, k: bytes)
    requires f.PushResult?
    ensures Put(PushResultFormat(), f, k) == PutPushResult(f, k)
  {
    hide PutStr, PutU8, PutU32, PutOpt, PutAll, ResultFormat;
    var g := PairFormat(PushResultHead(), ListFormat(ResultFormat()));
    ViaPut(g, ToPushResult, FromPushResult, f, k);
    var head, tail := (f.clientCommitId, (f.status, f.commitSeq)), PutU32(|f.results|, PutAll(ResultFormat(), f.results, k));
    ViaPut(PairFormat(StrFormat(), PairFormat(PushStatusFormat(), OptI64())), CheckCommitSeq, Id, head, tail);
    ViaPut(U8Format(), ToPushStatus, PushStatusByte, f.status, PutOpt(I64Format(), f.commitSeq, tail));
    assert g.put(FromPushResult(f), k) == PutPair(PushResultHead(), ListFormat(ResultFormat()), (head, f.results), k);
  }

  lemma SubStartPut(f: Frame, k: bytes)
    requires f.SubStart?
    ensures Put(SubStartFormat(), f, k) == PutSubStart(f, k)
  {
    hide PutStr, PutU8, PutBool, StringListMap;
    ViaPut(SubStartFields(), ToSubStart, FromSubStart, f, k);
    var tail := PutStr(f.reasonCode, Put(StringListMap(), f.effectiveScopes, PutBool(f.bootstrap, k)));
    ViaPut(U8Format(), ToSubStatus, SubStatusByte, f.subStatus, tail);
  }

  lemma ChangePut(n: int, c: CommitChange, k: bytes)
    ensures Put(ChangeFormat(n), c, k) == PutChange(c, k)
  {
    hide PutStr, PutU8, PutU16, PutOpt, StringMap;
    ViaPut(ChangeFields(n), ToChange, FromChange, c, k);
    var tail := PutOpt(I64Format(), c.rowVersion, Put(StringMap(), c.scopes, PutOpt(BytesFormat(), c.row, k)));
    ViaPut(U8Format(), ToOp, OpByte, c.op, tail);
    ViaPut(U16Format(), CheckIndex(n), Id, c.tableIndex, PutStr(c.rowId, PutU8(OpByte(c.op), tail)));
  }

  lemma CommitPut(f: Frame, k: bytes)
    requires f.Commit?
    ensures Put(CommitFormat(), f, k) == PutCommit(f, k)
  {
    hide PutStr, PutI64, PutU32, PutAll, ChangeFormat;
    ViaPut(CommitFields(), ToCommit, FromCommit, f, k);
    assert TablesAndChanges().put((f.tables, f.changes), k) == PutDep(TablesFormat(), ChangesAfter, (f.tables, f.changes), k);
  }

  lemma SegmentRefPut(f: Frame, k: bytes)
    requires f.SegmentRef?
    ensures Put(SegmentRefFormat(), f, k) == PutSegmentRef(f, k)
  {
    hide PutStr, PutI64, PutU8, PutOpt;
    ViaPut(RefFields(), ToSegmentRef, FromSegmentRef, f, k);
    var urls := (f.rowCursor, (f.nextRowCursor, (f.url, f.urlExpiresAtMs)));
    assert RefUrlFields().put(urls, k) == PutRefUrls(f, k);
    var tail := PutStr(f.segmentTable, PutI64(f.byteLength, PutI64(f.rowCount, PutI64(f.asOfCommitSeq,
      PutStr(f.scopeDigest, PutRefUrls(f, k))))));
    ViaPut(U8Format(), ToMediaType, MediaTypeByte, f.mediaType, tail);
  }

  lemma SubEndPut(host: Host, f: Frame, k: bytes)
    requires f.SubEnd?
    ensures Put(SubEndFormat(host), f, k) == PutSubEnd(f, k)
  {
    hide PutI64, PutOpt, OptJson;
    ViaPut(PairFormat(I64Format(), OptJson(host)), ToSubEnd, FromSubEnd, f, k);
    OptJsonPut(host, f.bootstrapState, k);
  }

  lemma ErrorFramePut(host: Host, f: Frame, k: bytes)
    requires f.ErrorFrame?
    ensures Put(ErrorFrameFormat(host), f, k) == PutErrorFrame(f, k)
  {
    hide PutStr, PutBool, PutOpt, OptJson;
    ViaPut(ErrorFrameFields(host), ToErrorFrame, FromErrorFrame, f, k);
    OptJsonPut(host, f.details, k);
  }

  // ----- Writing ---------------------------------------------------------------------------------------

  method WriteReqHeader(w: ByteWriter, v: int, f: Frame, ghost host: Host) returns (o: Outcome)
    requires w.Valid() && f.ReqHeader?
    modifies w, w.buffer
    ensures w.Valid() && (w.buffer == old(w.buffer) || fresh(w.buffer))
    ensures o.Pass? <==> Fits(host, v, f)
    ensures o.Pass? ==> forall k: bytes :: w.Then(k) == old(w.Then(PutReqHeader(v, f, k)))
  {
    hide ByteWriter.Then, Put, PutStr, PutI32, PutOpt, IsStr;
    if f.clientId == [] { return Refused; }
    if f.schemaVersion < 1 { return Refused; }
    :- w.Str(f.clientId);
    :- w.I32(f.schemaVersion);
    if v >= 2 {
      if f.epoch == Some("") { return Refused; }
      :- w.OptStr(f.epoch);
    } else if f.epoch.Some? {
      return Refused;
    }
    return Pass;
  }

  method WriteOperation(w: ByteWriter, op: PushOperation) returns (o: Outcome)
    requires w.Valid()
    modifies w, w.buffer
    ensures w.Valid() && (w.buffer == old(w.buffer) || fresh(w.buffer))
    ensures o.Pass? <==> OperationFits(op)
    ensures o.Pass? ==> forall k: bytes :: w.Then(k) == old(w.Then(Put(OperationFormat(), op, k)))
  {
    hide ByteWriter.Then, Put, PutStr, PutU8, PutOpt, IsStr, IsBytes, OperationFormat, OpByte;
    if op.op.Upsert? && op.payload.None? { return Refused; }
    if op.op.Delete? && op.payload.Some? { return Refused; }
    :- w.Str(op.table);
    :- w.Str(op.rowId);
    var kind := w.U8(OpByte(op.op));
    :- w.OptI64(op.baseVersion);
    :- w.OptBytes(op.payload);
    forall k: bytes ensures w.Then(k) == old(w.Then(Put(OperationFormat(), op, k))) { OperationPut(op, k); }
    return Pass;
  }

  method WriteOperations(w: ByteWriter, ops: seq<PushOperation>) returns (o: Outcome)
    requires w.Valid()
    modifies w, w.buffer
    ensures w.Valid() && (w.buffer == old(w.buffer) || fresh(w.buffer))
    ensures o.Pass? <==> forall i :: 0 <= i < |ops| ==> OperationFits(ops[i])
    ensures o.Pass? ==> forall k: bytes :: w.Then(k) == old(w.Then(PutAll(OperationFormat(), ops, k)))
  {
    hide ByteWriter.Then, Put, PutAll, OperationFormat, OperationFits;
    assert ops[0..] == ops;
    for i := 0 to |ops|
      invariant w.Valid() && (w.buffer == old(w.buffer) || fresh(w.buffer))
      invariant forall j :: 0 <= j < i ==> OperationFits(ops[j])
      invariant forall k: bytes :: w.Then(PutAll(OperationFormat(), ops[i..], k)) == old(w.Then(PutAll(OperationFormat(), ops, k)))
    {
      var op := ops[i];
      :- WriteOperation(w, op);
      forall k: bytes ensures w.Then(PutAll(OperationFormat(), ops[i + 1..], k)) == old(w.Then(PutAll(OperationFormat(), ops, k))) {
        PutAllStep(OperationFormat(), ops, i, k);
      }
    }
    forall k: bytes ensures w.Then(k) == old(w.Then(PutAll(OperationFormat(), ops, k))) { PutAllBounds(OperationFormat(), ops, k); }
    return Pass;
  }

  method WritePushCommit(w: ByteWriter, f: Frame, ghost host: Host) returns (o: Outcome)
    requires w.Valid() && f.PushCommit?
    modifies w, w.buffer
    ensures w.Valid() && (w.buffer == old(w.buffer) || fresh(w.buffer))
    ensures o.Pass? <==> Fits(host, 0, f)
    ensures o.Pass? ==> forall k: bytes :: w.Then(k) == old(w.Then(PutPushCommit(f, k)))
  {
    hide ByteWriter.Then, Put, PutStr, PutU32, PutAll, IsStr, OperationFormat, OperationFits;
    if f.commitId == [] { return Refused; }
    if |f.operations| == 0 { return Refused; }
    :- w.Str(f.commitId);
    :- w.U32(|f.operations|);
    o := WriteOperations(w, f.operations);
  }

  method WritePullHeader(w: ByteWriter, f: Frame, ghost host: Host) returns (o: Outcome)
    requires w.Valid() && f.PullHeader?
    modifies w, w.buffer
    ensures w.Valid() && (w.buffer == old(w.buffer) || fresh(w.buffer))
    ensures o.Pass? <==> Fits(host, 0, f)
    ensures o.Pass? ==> forall k: bytes :: w.Then(k) == old(w.Then(PutPullHeader(f, k)))
  {
    hide ByteWriter.Then, Put, PutI32, PutU8;
    if f.accept < 0 || f.accept >= 16 { return Refused; }
    :- w.I32(f.limitCommits);
    :- w.I32(f.limitSnapshotRows);
    :- w.I32(f.maxSnapshotPages);
    o := w.U8(f.accept);
  }

  method WriteSubscription(w: ByteWriter, f: Frame, ghost host: Host) returns (o: Outcome)
    requires w.Valid() && f.Subscription?
    modifies w, w.buffer
    ensures w.Valid() && (w.buffer == old(w.buffer) || fresh(w.buffer))
    ensures o.Pass? <==> Fits(host, 0, f)
    ensures o.Pass? ==> forall k: bytes :: w.Then(k) == old(w.Then(PutSubscription(f, k)))
  {
    hide ByteWriter.Then, Put, PutStr, PutI64, PutOpt, IsStr, StringListMap, StringListMapFits, Fits;
    FitsByType(host, 0, f);
    :- w.Str(f.id);
    :- w.Str(f.table);
    :- WriteStringListMap(w, f.scopes);
    :- w.OptStr(f.params);
    :- w.I64(f.cursor);
    o := w.OptStr(f.resumeState);
  }

  method WriteRespHeader(w: ByteWriter, v: int, f: Frame, ghost host: Host) returns (o: Outcome)
    requires w.Valid() && f.RespHeader?
    modifies w, w.buffer
    ensures w.Valid() && (w.buffer == old(w.buffer) || fresh(w.buffer))
    ensures o.Pass? <==> Fits(host, v, f)
    ensures o.Pass? ==> forall k: bytes :: w.Then(k) == old(w.Then(if v >= 2 ==> f.logEpoch.Some? && f.resetRequired.Some? then PutRespHeader(v, f, k) else k))
  {
    hide ByteWriter.Then, Put, PutStr, PutBool, PutOpt, IsStr;
    :- w.OptI32(f.requiredSchemaVersion);
    :- w.OptI32(f.latestSchemaVersion);
    if v >= 2 {
      if f.logEpoch.None? || f.logEpoch.value == [] { return Refused; }
      if f.resetRequired.None? { return Refused; }
      :- w.Str(f.logEpoch.value);
      w.Bool(f.resetRequired.value);
    } else if f.logEpoch.Some? || f.resetRequired.Some? {
      return Refused;
    }
    return Pass;
  }

  method WriteLease(w: ByteWriter, f: Frame, ghost host: Host) returns (o: Outcome)
    requires w.Valid() && f.Lease?
    modifies w, w.buffer
    ensures w.Valid() && (w.buffer == old(w.buffer) || fresh(w.buffer))
    ensures o.Pass? <==> Fits(host, 0, f)
    ensures o.Pass? ==> forall k: bytes :: w.Then(k) == old(w.Then(PutLease(f, k)))
  {
    hide ByteWriter.Then, Put, PutStr, PutI64, IsStr;
    if f.leaseId == [] { return Refused; }
    :- w.Str(f.leaseId);
    o := w.I64(f.expiresAtMs);
  }

  method WriteResult(w: ByteWriter, r: OpResult) returns (o: Outcome)
    requires w.Valid()
    modifies w, w.buffer
    ensures w.Valid() && (w.buffer == old(w.buffer) || fresh(w.buffer))
    ensures o.Pass? <==> ResultFits(r)
    ensures o.Pass? ==> forall k: bytes :: w.Then(k) == old(w.Then(Put(ResultFormat(), r, k)))
  {
    hide ByteWriter.Then, Put, PutStr, PutI64, PutI32, PutU8, PutBytes, PutBool, IsStr, IsBytes, ResultFormat;
    :- w.I32(r.opIndex);
    match r {
      case AppliedResult(_) =>
        var tag := w.U8(1);
      case ConflictResult(_, code, message, serverVersion, serverRow) =>
        var tag := w.U8(2);
        :- w.Str(code);
        :- w.Str(message);
        :- w.I64(serverVersion);
        :- w.Bytes(serverRow);
      case ErrorResult(_, code, message, retryable, _) =>
        var tag := w.U8(3);
        :- w.Str(code);
        :- w.Str(message);
        w.Bool(retryable);
    }
    forall k: bytes ensures w.Then(k) == old(w.Then(Put(ResultFormat(), r, k))) { ResultPut(r, k); }
    return Pass;
  }

  method WriteResults(w: ByteWriter, rs: seq<OpResult>) returns (o: Outcome)
    requires w.Valid()
    modifies w, w.buffer
    ensures w.Valid() && (w.buffer == old(w.buffer) || fresh(w.buffer))
    ensures o.Pass? <==> forall i :: 0 <= i < |rs| ==> ResultFits(rs[i])
    ensures o.Pass? ==> forall k: bytes :: w.Then(k) == old(w.Then(PutAll(ResultFormat(), rs, k)))
  {
    hide ByteWriter.Then, Put, PutAll, ResultFormat, ResultFits;
    assert rs[0..] == rs;
    for i := 0 to |rs|
      invariant w.Valid() && (w.buffer == old(w.buffer) || fresh(w.buffer))
      invariant forall j :: 0 <= j < i ==> ResultFits(rs[j])
      invariant forall k: bytes :: w.Then(PutAll(ResultFormat(), rs[i..], k)) == old(w.Then(PutAll(ResultFormat(), rs, k)))
    {
      var r := rs[i];
      :- WriteResult(w, r);
      forall k: bytes ensures w.Then(PutAll(ResultFormat(), rs[i + 1..], k)) == old(w.Then(PutAll(ResultFormat(), rs, k))) {
        PutAllStep(ResultFormat(), rs, i, k);
      }
    }
    forall k: bytes ensures w.Then(k) == old(w.Then(PutAll(ResultFormat(), rs, k))) { PutAllBounds(ResultFormat(), rs, k); }
    return Pass;
  }

  method WritePushResult(w: ByteWriter, f: Frame, ghost host: Host) returns (o: Outcome)
    requires w.Valid() && f.PushResult?
    modifies w, w.buffer
    ensures w.Valid() && (w.buffer == old(w.buffer) || fresh(w.buffer))
    ensures o.Pass? <==> Fits(host, 0, f)
    ensures o.Pass? ==> forall k: bytes :: w.Then(k) == old(w.Then(PutPushResult(f, k)))
  {
    hide ByteWriter.Then, Put, PutStr, PutU8, PutU32, PutOpt, PutAll, IsStr, ResultFormat, ResultFits, Fits, PushStatusByte;
    FitsByType(host, 0, f);
    if f.status.Rejected? && f.commitSeq.Some? { return Refused; }
    if !f.status.Rejected? && f.commitSeq.None? { return Refused; }
    :- w.Str(f.clientCommitId);
    var status := w.U8(PushStatusByte(f.status));
    :- w.OptI64(f.commitSeq);
    :- w.U32(|f.results|);
    o := WriteResults(w, f.results);
  }

  method WriteSubStart(w: ByteWriter, f: Frame, ghost host: Host) returns (o: Outcome)
    requires w.Valid() && f.SubStart?
    modifies w, w.buffer
    ensures w.Valid() && (w.buffer == old(w.buffer) || fresh(w.buffer))
    ensures o.Pass? <==> Fits(host, 0, f)
    ensures o.Pass? ==> forall k: bytes :: w.Then(k) == old(w.Then(PutSubStart(f, k)))
  {
    hide ByteWriter.Then, Put, PutStr, PutU8, PutBool, IsStr, StringListMap, StringListMapFits, Fits, SubStatusByte;
    FitsByType(host, 0, f);
    :- w.Str(f.subId);
    var status := w.U8(SubStatusByte(f.subStatus));
    :- w.Str(f.reasonCode);
    :- WriteStringListMap(w, f.effectiveScopes);
    w.Bool(f.bootstrap);
    return Pass;
  }

  predicate ChangeTailFits(c: CommitChange) { OptSafe(c.rowVersion) && StringMapFits(c.scopes) && OptBytesFits(c.row) }

  ghost function PutChangeTail(c: CommitChange, k: bytes): bytes {
    PutOpt(I64Format(), c.rowVersion, Put(StringMap(), c.scopes, PutOpt(BytesFormat(), c.row, k)))
  }

  /** Version, scopes and row. */
  method WriteChangeTail(w: ByteWriter, c: CommitChange) returns (o: Outcome)
    requires w.Valid()
    modifies w, w.buffer
    ensures w.Valid() && (w.buffer == old(w.buffer) || fresh(w.buffer))
    ensures o.Pass? <==> ChangeTailFits(c)
    ensures o.Pass? ==> forall k: bytes :: w.Then(k) == old(w.Then(PutChangeTail(c, k)))
  {
    hide ByteWriter.Then, Put, PutOpt, IsBytes, StringMap, StringMapFits;
    o := w.OptI64(c.rowVersion);
    if o.Refused? { return; }
    :- WriteStringMap(w, c.scopes);
    o := w.OptBytes(c.row);
  }

  lemma ChangeTailPut(n: int, c: CommitChange, k: bytes)
    ensures Put(ChangeFormat(n), c, k) == PutU16(c.tableIndex, PutStr(c.rowId, PutU8(OpByte(c.op), PutChangeTail(c, k))))
  {
    hide Put, PutStr, PutU8, PutU16, PutOpt, ChangeFormat;
    ChangePut(n, c, k);
  }

  lemma ChangeParts(c: CommitChange, tableCount: nat)
    ensures ChangeFits(c, tableCount) <==>
              && IsU16(c.tableIndex) && c.tableIndex < tableCount && IsStr(c.rowId) && ChangeTailFits(c)
              && (c.op.Upsert? <==> c.rowVersion.Some?) && (c.op.Upsert? <==> c.row.Some?)
  {
    hide IsStr, OptSafe, OptBytesFits, StringMapFits;
  }

  method WriteChange(w: ByteWriter, c: CommitChange, tableCount: nat) returns (o: Outcome)
    requires w.Valid()
    modifies w, w.buffer
    ensures w.Valid() && (w.buffer == old(w.buffer) || fresh(w.buffer))
    ensures o.Pass? <==> ChangeFits(c, tableCount)
    ensures o.Pass? ==> forall k: bytes :: w.Then(k) == old(w.Then(Put(ChangeFormat(tableCount), c, k)))
  {
    hide ByteWriter.Then, Put, PutStr, PutU8, PutU16, PutChangeTail, IsStr, ChangeTailFits, ChangeFits, ChangeFormat, OpByte;
    ChangeParts(c, tableCount);
    if c.tableIndex >= tableCount { return Refused; }
    if c.op.Upsert? && (c.rowVersion.None? || c.row.None?) { return Refused; }
    if c.op.Delete? && (c.rowVersion.Some? || c.row.Some?) { return Refused; }
    :- w.U16(c.tableIndex);
    :- w.Str(c.rowId);
    var kind := w.U8(OpByte(c.op));
    :- WriteChangeTail(w, c);
    forall k: bytes ensures w.Then(k) == old(w.Then(Put(ChangeFormat(tableCount), c, k))) { ChangeTailPut(tableCount, c, k); }
    return Pass;
  }

  method WriteChanges(w: ByteWriter, cs: seq<CommitChange>, tableCount: nat) returns (o: Outcome)
    requires w.Valid()
    modifies w, w.buffer
    ensures w.Valid() && (w.buffer == old(w.buffer) || fresh(w.buffer))
    ensures o.Pass? <==> forall i :: 0 <= i < |cs| ==> ChangeFits(cs[i], tableCount)
    ensures o.Pass? ==> forall k: bytes :: w.Then(k) == old(w.Then(PutAll(ChangeFormat(tableCount), cs, k)))
  {
    hide ByteWriter.Then, Put, PutAll, ChangeFormat, ChangeFits;
    assert cs[0..] == cs;
    for i := 0 to |cs|
      invariant w.Valid() && (w.buffer == old(w.buffer) || fresh(w.buffer))
      invariant forall j :: 0 <= j < i ==> ChangeFits(cs[j], tableCount)
      invariant forall k: bytes :: w.Then(PutAll(ChangeFormat(tableCount), cs[i..], k)) == old(w.Then(PutAll(ChangeFormat(tableCount), cs, k)))
    {
      var c := cs[i];
      :- WriteChange(w, c, tableCount);
      forall k: bytes ensures w.Then(PutAll(ChangeFormat(tableCount), cs[i + 1..], k)) == old(w.Then(PutAll(ChangeFormat(tableCount), cs, k))) {
        PutAllStep(ChangeFormat(tableCount), cs, i, k);
      }
    }
    forall k: bytes ensures w.Then(k) == old(w.Then(PutAll(ChangeFormat(tableCount), cs, k))) { PutAllBounds(ChangeFormat(tableCount), cs, k); }
    return Pass;
  }

  method WriteCommit(w: ByteWriter, f: Frame, ghost host: Host) returns (o: Outcome)
    requires w.Valid() && f.Commit?
    modifies w, w.buffer
    ensures w.Valid() && (w.buffer == old(w.buffer) || fresh(w.buffer))
    ensures o.Pass? <==> Fits(host, 0, f)
    ensures o.Pass? ==> forall k: bytes :: w.Then(k) == old(w.Then(PutCommit(f, k)))
  {
    hide ByteWriter.Then, Put, PutStr, PutI64, PutU32, PutList, PutAll, IsStr, StringsFit, ChangeFormat, ChangeFits;
    :- w.I64(f.seqNo);
    :- w.I64(f.createdAtMs);
    :- w.Str(f.actorId);
    :- WriteStrings(w, f.tables);
    :- w.U32(|f.changes|);
    o := WriteChanges(w, f.changes, |f.tables|);
  }

  method WriteRefUrls(w: ByteWriter, f: Frame) returns (o: Outcome)
    requires w.Valid() && f.SegmentRef?
    modifies w, w.buffer
    ensures w.Valid() && (w.buffer == old(w.buffer) || fresh(w.buffer))
    ensures o.Pass? <==> RefUrlsFit(f)
    ensures o.Pass? ==> forall k: bytes :: w.Then(k) == old(w.Then(PutRefUrls(f, k)))
  {
    hide ByteWriter.Then, Put, PutOpt, IsStr;
    :- w.OptStr(f.rowCursor);
    :- w.OptStr(f.nextRowCursor);
    :- w.OptStr(f.url);
    o := w.OptI64(f.urlExpiresAtMs);
  }

  method WriteSegmentRef(w: ByteWriter, f: Frame, ghost host: Host) returns (o: Outcome)
    requires w.Valid() && f.SegmentRef?
    modifies w, w.buffer
    ensures w.Valid() && (w.buffer == old(w.buffer) || fresh(w.buffer))
    ensures o.Pass? <==> Fits(host, 0, f)
    ensures o.Pass? ==> forall k: bytes :: w.Then(k) == old(w.Then(PutSegmentRef(f, k)))
  {
    hide ByteWriter.Then, Put, PutStr, PutI64, PutU8, PutRefUrls, IsStr, RefUrlsFit, Fits, MediaTypeByte;
    FitsByType(host, 0, f);
    if f.url.None? != f.urlExpiresAtMs.None? { return Refused; }
    :- w.Str(f.segmentId);
    var media := w.U8(MediaTypeByte(f.mediaType));
    :- w.Str(f.segmentTable);
    :- w.I64(f.byteLength);
    :- w.I64(f.rowCount);
    :- w.I64(f.asOfCommitSeq);
    :- w.Str(f.scopeDigest);
    o := WriteRefUrls(w, f);
  }

  method WriteSubEnd(w: ByteWriter, f: Frame, ghost host: Host) returns (o: Outcome)
    requires w.Valid() && f.SubEnd?
    modifies w, w.buffer
    ensures w.Valid() && (w.buffer == old(w.buffer) || fresh(w.buffer))
    ensures o.Pass? <==> Fits(host, 0, f)
    ensures o.Pass? ==> forall k: bytes :: w.Then(k) == old(w.Then(PutSubEnd(f, k)))
  {
    hide ByteWriter.Then, Put, PutI64, PutOpt, IsStr;
    :- w.I64(f.nextCursor);
    o := w.OptStr(f.bootstrapState);
  }

  method WriteErrorFrame(w: ByteWriter, f: Frame, ghost host: Host) returns (o: Outcome)
    requires w.Valid() && f.ErrorFrame?
    modifies w, w.buffer
    ensures w.Valid() && (w.buffer == old(w.buffer) || fresh(w.buffer))
    ensures o.Pass? <==> Fits(host, 0, f)
    ensures o.Pass? ==> forall k: bytes :: w.Then(k) == old(w.Then(PutErrorFrame(f, k)))
  {
    hide ByteWriter.Then, Put, PutStr, PutBool, PutOpt, IsStr, Fits;
    FitsByType(host, 0, f);
    :- w.Str(f.code);
    :- w.Str(f.message);
    :- w.Str(f.category);
    w.Bool(f.retryable);
    :- w.Str(f.recommendedAction);
    o := w.OptStr(f.details);
  }
}
