/** The frame payload decoders (packages/core/src/message.ts:270-612), against the payload layouts. */
module FrameReader {
  import opened Results
  import opened Hosts
  import opened Primitives
  import opened Formats
  import opened Messages
  import opened FrameFormats
  import opened ByteIO

  // ----- The decoders as pure parses ---------------------------------------------------------------

  ghost function ReqHeaderSpec(v: int, s: bytes): Parsed<Frame> {
    var (clientId, s1) :- ReadStr(false, s);
    if clientId == [] then Failed(InvalidRequest) else
    var (schemaVersion, s2) :- ReadI32(s1);
    if schemaVersion < 1 then Failed(InvalidRequest) else
    if v < 2 then Parsed(ReqHeader(clientId, schemaVersion, None), s2) else
    var (epoch, k) :- ReadOpt(NonEmptyStrFormat(), false, s2);
    Parsed(ReqHeader(clientId, schemaVersion, epoch), k)
  }

  ghost function OperationSpec(s: bytes): Parsed<PushOperation> {
    var (table, s1) :- ReadStr(false, s);
    var (rowId, s2) :- ReadStr(false, s1);
    var (opByte, s3) :- ReadU8(s2);
    if ToOp(opByte).Err? then Failed(InvalidRequest) else
    var op := ToOp(opByte).value;
    var (baseVersion, s4) :- ReadOpt(I64Format(), false, s3);
    var (payload, k) :- ReadOpt(BytesFormat(), false, s4);
    if op.Upsert? <==> payload.Some? then Parsed(PushOperation(table, rowId, op, baseVersion, payload), k)
    else Failed(InvalidRequest)
  }

  ghost function PushCommitSpec(s: bytes): Parsed<Frame> {
    var (id, s1) :- ReadStr(false, s);
    if id == [] then Failed(InvalidRequest) else
    var (count, s2) :- ReadU32(s1);
    if count == 0 then Failed(EmptyCommit) else
    var (ops, k) :- ReadAll(OperationFormat(), false, count, s2);
    Parsed(PushCommit(id, ops), k)
  }

  ghost function PullHeaderSpec(s: bytes): Parsed<Frame> {
    var (commits, s1) :- ReadI32(s);
    var (rows, s2) :- ReadI32(s1);
    var (pages, s3) :- ReadI32(s2);
    var (accept, k) :- ReadU8(s3);
    if accept >= 16 then Failed(InvalidRequest) else Parsed(PullHeader(commits, rows, pages, accept), k)
  }

  ghost function SubscriptionSpec(host: Host, s: bytes): Parsed<Frame> {
    var (id, s1) :- ReadStr(false, s);
    var (table, s2) :- ReadStr(false, s1);
    var (scopes, s3) :- StringListMap().read(false, s2);
    var (params, s4) :- ReadOpt(JsonFormat(host), false, s3);
    var (cursor, s5) :- ReadI64(s4);
    var (state, k) :- ReadOpt(JsonFormat(host), false, s5);
    Parsed(Subscription(id, table, scopes, params, cursor, state), k)
  }

  ghost function RespHeaderSpec(v: int, s: bytes): Parsed<Frame> {
    var (required, s1) :- ReadOpt(I32Format(), false, s);
    var (latest, s2) :- ReadOpt(I32Format(), false, s1);
    if v < 2 then Parsed(RespHeader(required, latest, None, None), s2) else
    var (epoch, s3) :- ReadStr(false, s2);
    if epoch == [] then Failed(InvalidRequest) else
    var (reset, k) :- ReadBool(s3);
    Parsed(RespHeader(required, latest, Some(epoch), Some(reset)), k)
  }

  ghost function LeaseSpec(s: bytes): Parsed<Frame> {
    var (id, s1) :- ReadStr(false, s);
    if id == [] then Failed(InvalidRequest) else
    var (expires, k) :- ReadI64(s1);
    Parsed(Lease(id, expires), k)
  }

  ghost function ConflictSpec(i: int, s: bytes): Parsed<OpResult> {
    var (code, s1) :- ReadStr(false, s);
    var (message, s2) :- ReadStr(false, s1);
    var (version, s3) :- ReadI64(s2);
    var (row, k) :- ReadBytes(s3);
    Parsed(ConflictResult(i, code, message, version, row), k)
  }

  ghost function ErrorSpec(i: int, s: bytes): Parsed<OpResult> {
    var (code, s1) :- ReadStr(false, s);
    var (message, s2) :- ReadStr(false, s1);
    var (retryable, k) :- ReadBool(s2);
    Parsed(ErrorResult(i, code, message, retryable, None), k)
  }

  ghost function ResultSpec(s: bytes): Parsed<OpResult> {
    var (i, s1) :- ReadI32(s);
    var (status, s2) :- ReadU8(s1);
    if status == 1 then Parsed(AppliedResult(i), s2)
    else if status == 2 then ConflictSpec(i, s2)
    else if status == 3 then ErrorSpec(i, s2)
    else Failed(InvalidRequest)
  }

  ghost function PushResultSpec(s: bytes): Parsed<Frame> {
    var (id, s1) :- ReadStr(false, s);
    var (statusByte, s2) :- ReadU8(s1);
    if ToPushStatus(statusByte).Err? then Failed(InvalidRequest) else
    var status := ToPushStatus(statusByte).value;
    var (commitSeq, s3) :- ReadOpt(I64Format(), false, s2);
    if status.Rejected? != commitSeq.None? then Failed(InvalidRequest) else
    var (count, s4) :- ReadU32(s3);
    var (results, k) :- ReadAll(ResultFormat(), false, count, s4);
    Parsed(PushResult(id, status, commitSeq, results), k)
  }

  ghost function SubStartSpec(s: bytes): Parsed<Frame> {
    var (id, s1) :- ReadStr(false, s);
    var (statusByte, s2) :- ReadU8(s1);
    if ToSubStatus(statusByte).Err? then Failed(InvalidRequest) else
    var (reason, s3) :- ReadStr(false, s2);
    var (scopes, s4) :- StringListMap().read(false, s3);
    var (bootstrap, k) :- ReadBool(s4);
    Parsed(SubStart(id, ToSubStatus(statusByte).value, reason, scopes, bootstrap), k)
  }

  ghost function ChangeSpec(n: int, s: bytes): Parsed<CommitChange> {
    var (index, s1) :- ReadU16(s);
    if index >= n then Failed(InvalidRequest) else
    var (rowId, s2) :- ReadStr(false, s1);
    var (opByte, s3) :- ReadU8(s2);
    if ToOp(opByte).Err? then Failed(InvalidRequest) else
    var op := ToOp(opByte).value;
    var (version, s4) :- ReadOpt(I64Format(), false, s3);
    var (scopes, s5) :- StringMap().read(false, s4);
    var (row, k) :- ReadOpt(BytesFormat(), false, s5);
    if (op.Upsert? <==> version.Some?) && (op.Upsert? <==> row.Some?)
    then Parsed(CommitChange(index, rowId, op, version, scopes, row), k)
    else Failed(InvalidRequest)
  }

  ghost function CommitSpec(s: bytes): Parsed<Frame> {
    var (seqNo, s1) :- ReadI64(s);
    var (created, s2) :- ReadI64(s1);
    var (actor, s3) :- ReadStr(false, s2);
    var (tables, s4) :- ReadList(StrFormat(), false, s3);
    var (count, s5) :- ReadU32(s4);
    var (changes, k) :- ReadAll(ChangeFormat(|tables|), false, count, s5);
    Parsed(Commit(seqNo, created, actor, tables, changes), k)
  }

  ghost function RefUrlsSpec(s: bytes): Parsed<RefUrls> {
    var (cursor, s1) :- ReadOpt(StrFormat(), false, s);
    var (next, s2) :- ReadOpt(StrFormat(), false, s1);
    var (url, s3) :- ReadOpt(StrFormat(), false, s2);
    var (expires, k) :- ReadOpt(I64Format(), false, s3);
    Parsed((cursor, (next, (url, expires))), k)
  }

  type RefNumbers = (int, (int, (int, (string, RefUrls))))

  ghost function RefNumbersSpec(s: bytes): Parsed<RefNumbers> {
    var (length, s1) :- ReadI64(s);
    var (rows, s2) :- ReadI64(s1);
    var (asOf, s3) :- ReadI64(s2);
    var (digest, s4) :- ReadStr(false, s3);
    var (urls, k) :- RefUrlsSpec(s4);
    Parsed((length, (rows, (asOf, (digest, urls)))), k)
  }

  ghost function SegmentRefSpec(s: bytes): Parsed<Frame> {
    var (id, s1) :- ReadStr(false, s);
    var (mediaByte, s2) :- ReadU8(s1);
    if ToMediaType(mediaByte).Err? then Failed(InvalidRequest) else
    var media := ToMediaType(mediaByte).value;
    var (table, s3) :- ReadStr(false, s2);
    var (numbers, k) :- RefNumbersSpec(s3);
    match ToSegmentRef((id, (media, (table, numbers))))
    case Ok(f) => Parsed(f, k)
    case Err(c) => Failed(c)
  }

  ghost function SubEndSpec(host: Host, s: bytes): Parsed<Frame> {
    var (next, s1) :- ReadI64(s);
    var (state, k) :- ReadOpt(JsonFormat(host), false, s1);
    Parsed(SubEnd(next, state), k)
  }

  ghost function ErrorFrameSpec(host: Host, s: bytes): Parsed<Frame> {
    var (code, s1) :- ReadStr(false, s);
    var (message, s2) :- ReadStr(false, s1);
    var (category, s3) :- ReadStr(false, s2);
    var (retryable, s4) :- ReadBool(s3);
    var (action, s5) :- ReadStr(false, s4);
    var (details, k) :- ReadOpt(JsonFormat(host), false, s5);
    Parsed(ErrorFrame(code, message, category, retryable, action, details), k)
  }

  // ----- They are what the formats read ---------------------------------------------------------------

  lemma NonEmptyRead(s: bytes)
    ensures NonEmptyStrFormat().read(false, s) == NonEmptySpec(s)
  {
    hide ReadStr;
    assert NonEmptyStrFormat().read(false, s) == ReadVia(StrFormat(), CheckNonEmpty, false, s);
  }

  ghost function NonEmptySpec(s: bytes): Parsed<string> {
    var (t, k) :- ReadStr(false, s);
    if t == [] then Failed(InvalidRequest) else Parsed(t, k)
  }

  lemma ViaRead<A, B>(f: Format<A>, to: A -> Result<B>, from: B -> A, s: bytes)
    ensures ViaFormat(f, to, from).read(false, s) == ReadVia(f, to, false, s)
  {
  }

  lemma PairRead<A, B>(f: Format<A>, g: Format<B>, s: bytes)
    ensures PairFormat(f, g).read(false, s) == ReadPair(f, g, false, s)
  {
  }

  lemma SchemaVersionRead(s: bytes)
    ensures SchemaVersionFormat().read(false, s) == SchemaVersionSpec(s)
  {
    hide ReadI32;
    ViaRead(I32Format(), CheckSchemaVersion, Id, s);
  }

  ghost function SchemaVersionSpec(s: bytes): Parsed<int> {
    var (v, k) :- ReadI32(s);
    if v < 1 then Failed(InvalidRequest) else Parsed(v, k)
  }

  lemma ReqHeaderRead(v: int, s: bytes)
    ensures (if v >= 2 then ReqHeaderFormat2() else ReqHeaderFormat1()).read(false, s) == ReqHeaderSpec(v, s)
  {
    hide ReadStr, ReadI32, ReadOpt, NonEmptyStrFormat, SchemaVersionFormat;
    NonEmptyRead(s);
    if ReadStr(false, s).Parsed? { SchemaVersionRead(ReadStr(false, s).rest); }
    if v >= 2 {
      ViaRead(PairFormat(NonEmptyStrFormat(), PairFormat(SchemaVersionFormat(), OptEpoch())), ToReqHeader2, FromReqHeader2, s);
    } else {
      ViaRead(PairFormat(NonEmptyStrFormat(), SchemaVersionFormat()), ToReqHeader1, FromReqHeader1, s);
    }
  }

  lemma OpRead(s: bytes)
    ensures OpFormat().read(false, s) == OpSpec(s)
  {
    hide ReadU8;
    ViaRead(U8Format(), ToOp, OpByte, s);
  }

  ghost function OpSpec(s: bytes): Parsed<Op> {
    var (b, k) :- ReadU8(s);
    if ToOp(b).Err? then Failed(InvalidRequest) else Parsed(ToOp(b).value, k)
  }

  ghost function OperationTailSpec(s: bytes): Parsed<(Op, (Option<int>, Option<bytes>))> {
    var (op, s1) :- OpSpec(s);
    var (baseVersion, s2) :- ReadOpt(I64Format(), false, s1);
    var (payload, k) :- ReadOpt(BytesFormat(), false, s2);
    Parsed((op, (baseVersion, payload)), k)
  }

  lemma OperationTailRead(s: bytes)
    ensures PairFormat(OpFormat(), PairFormat(OptI64(), OptBytes())).read(false, s) == OperationTailSpec(s)
  {
    hide OpFormat, OpSpec, ReadOpt;
    OpRead(s);
  }

  lemma OperationRead(s: bytes)
    ensures OperationFormat().read(false, s) == OperationSpec(s)
  {
    hide ReadStr, ReadU8, ReadOpt, OpFormat, ToOp;
    ViaRead(OperationFields(), ToOperation, FromOperation, s);
    if ReadStr(false, s).Parsed? && ReadStr(false, ReadStr(false, s).rest).Parsed? {
      OperationTailRead(ReadStr(false, ReadStr(false, s).rest).rest);
    }
  }

  lemma PushCommitRead(s: bytes)
    ensures PushCommitFormat().read(false, s) == PushCommitSpec(s)
  {
    hide ReadStr, ReadU32, ReadAll, NonEmptyStrFormat, OperationFormat;
    NonEmptyRead(s);
    ViaRead(PairFormat(NonEmptyStrFormat(), OperationsFormat()), ToPushCommit, FromPushCommit, s);
    if ReadStr(false, s).Parsed? {
      var s1 := ReadStr(false, s).rest;
      ViaRead(ListFormat(OperationFormat()), CheckNotEmpty, Id, s1);
      if ReadU32(s1).Parsed? {
        OperationCount(ReadU32(s1).value, ReadU32(s1).rest);
      }
    }
  }

  lemma OperationCount(n: nat, s: bytes)
    ensures n == 0 ==> ReadAll(OperationFormat(), false, n, s) == Parsed([], s)
    ensures ReadAll(OperationFormat(), false, n, s).Parsed? ==> |ReadAll(OperationFormat(), false, n, s).value| == n
  {
    hide OperationFormat;
    CountOf(OperationFormat(), n, s);
  }

  lemma {:induction false} CountOf<T>(f: Format<T>, n: nat, s: bytes)
    ensures ReadAll(f, false, n, s).Parsed? ==> |ReadAll(f, false, n, s).value| == n
  {
    if n > 0 && f.read(false, s).Parsed? { CountOf(f, n - 1, f.read(false, s).rest); }
  }

  lemma PullHeaderRead(s: bytes)
    ensures PullHeaderFormat().read(false, s) == PullHeaderSpec(s)
  {
    hide ReadI32, ReadU8, AcceptFormat;
    ViaRead(PullFields(), ToPullHeader, FromPullHeader, s);
    if ReadI32(s).Parsed? && ReadI32(ReadI32(s).rest).Parsed? && ReadI32(ReadI32(ReadI32(s).rest).rest).Parsed? {
      AcceptRead(ReadI32(ReadI32(ReadI32(s).rest).rest).rest);
    }
  }

  lemma AcceptRead(s: bytes)
    ensures AcceptFormat().read(false, s) == AcceptSpec(s)
  {
    hide ReadU8;
    ViaRead(U8Format(), CheckAccept, Id, s);
  }

  ghost function AcceptSpec(s: bytes): Parsed<int> {
    var (b, k) :- ReadU8(s);
    if b >= 16 then Failed(InvalidRequest) else Parsed(b, k)
  }

  lemma SubscriptionRead(host: Host, s: bytes)
    ensures SubscriptionFormat(host).read(false, s) == SubscriptionSpec(host, s)
  {
    hide ReadStr, ReadI64, ReadOpt, StringListMap, JsonFormat;
    ViaRead(SubscriptionFields(host), ToSubscription, FromSubscription, s);
  }

  lemma RespHeaderRead(v: int, s: bytes)
    ensures (if v >= 2 then RespHeaderFormat2() else RespHeaderFormat1()).read(false, s) == RespHeaderSpec(v, s)
  {
    hide ReadStr, ReadBool, ReadOpt, NonEmptyStrFormat;
    if v >= 2 {
      ViaRead(RespFields(), ToRespHeader2, FromRespHeader2, s);
      if ReadOpt(I32Format(), false, s).Parsed? && ReadOpt(I32Format(), false, ReadOpt(I32Format(), false, s).rest).Parsed? {
        NonEmptyRead(ReadOpt(I32Format(), false, ReadOpt(I32Format(), false, s).rest).rest);
      }
    } else {
      ViaRead(PairFormat(OptI32(), OptI32()), ToRespHeader1, FromRespHeader1, s);
    }
  }

  lemma LeaseRead(s: bytes)
    ensures LeaseFormat().read(false, s) == LeaseSpec(s)
  {
    hide ReadStr, ReadI64, NonEmptyStrFormat;
    NonEmptyRead(s);
    ViaRead(PairFormat(NonEmptyStrFormat(), I64Format()), ToLease, FromLease, s);
  }

  lemma ConflictRead(i: int, s: bytes)
    ensures VariantFormat((i, 2)).read(false, s) == ConflictSpec(i, s)
  {
    hide ReadStr, ReadI64, ReadBytes;
    ViaRead(ConflictFields(), ToConflict(i), FromConflict, s);
  }

  lemma ErrorRead(i: int, s: bytes)
    ensures VariantFormat((i, 3)).read(false, s) == ErrorSpec(i, s)
  {
    hide ReadStr, ReadBool;
    ViaRead(ErrorFields(), ToError(i), FromError, s);
  }

  lemma AppliedRead(i: int, s: bytes)
    ensures VariantFormat((i, 1)).read(false, s) == Parsed(AppliedResult(i), s)
  {
  }

  lemma RecordHeadRead(s: bytes)
    ensures RecordHead().read(false, s) == RecordHeadSpec(s)
  {
    hide ReadI32, ReadU8;
    if ReadI32(s).Parsed? { ViaRead(U8Format(), CheckRecordStatus, Id, ReadI32(s).rest); }
  }

  ghost function RecordHeadSpec(s: bytes): Parsed<(int, int)> {
    var (i, s1) :- ReadI32(s);
    var (status, k) :- ReadU8(s1);
    if 1 <= status <= 3 then Parsed((i, status), k) else Failed(InvalidRequest)
  }

  lemma ResultRead(s: bytes)
    ensures ResultFormat().read(false, s) == ResultSpec(s)
  {
    hide ReadI32, ReadU8, ReadStr, ReadI64, ReadBytes, ReadBool, VariantFormat, RecordHead;
    ViaRead(DepFormat(RecordHead(), VariantFormat), DropHead, WithHead, s);
    assert DepFormat(RecordHead(), VariantFormat).read(false, s) == ReadDep(RecordHead(), VariantFormat, false, s);
    RecordHeadRead(s);
    if ReadI32(s).Parsed? && ReadU8(ReadI32(s).rest).Parsed? {
      var i, status, s2 := ReadI32(s).value, ReadU8(ReadI32(s).rest).value, ReadU8(ReadI32(s).rest).rest;
      if status == 1 { AppliedRead(i, s2); }
      if status == 2 { ConflictRead(i, s2); }
      if status == 3 { ErrorRead(i, s2); }
    }
  }

  lemma PushStatusRead(s: bytes)
    ensures PushStatusFormat().read(false, s) == PushStatusSpec(s)
  {
    hide ReadU8;
    ViaRead(U8Format(), ToPushStatus, PushStatusByte, s);
  }

  ghost function PushStatusSpec(s: bytes): Parsed<PushStatus> {
    var (b, k) :- ReadU8(s);
    if ToPushStatus(b).Err? then Failed(InvalidRequest) else Parsed(ToPushStatus(b).value, k)
  }

  ghost function PushResultHeadSpec(s: bytes): Parsed<(string, (PushStatus, Option<int>))> {
    var (id, s1) :- ReadStr(false, s);
    var (statusByte, s2) :- ReadU8(s1);
    if ToPushStatus(statusByte).Err? then Failed(InvalidRequest) else
    var status := ToPushStatus(statusByte).value;
    var (commitSeq, k) :- ReadOpt(I64Format(), false, s2);
    if status.Rejected? != commitSeq.None? then Failed(InvalidRequest) else
    Parsed((id, (status, commitSeq)), k)
  }

  lemma PushResultHeadRead(s: bytes)
    ensures PushResultHead().read(false, s) == PushResultHeadSpec(s)
  {
    hide ReadStr, ReadU8, ReadOpt, PushStatusFormat;
    ViaRead(PairFormat(StrFormat(), PairFormat(PushStatusFormat(), OptI64())), CheckCommitSeq, Id, s);
    if ReadStr(false, s).Parsed? { PushStatusRead(ReadStr(false, s).rest); }
  }

  lemma PushResultRead(s: bytes)
    ensures PushResultFormat().read(false, s) == PushResultSpec(s)
  {
    hide ReadStr, ReadU8, ReadU32, ReadOpt, ReadAll, PushResultHead, ResultFormat, ToPushStatus;
    var g := PairFormat(PushResultHead(), ListFormat(ResultFormat()));
    ViaRead(g, ToPushResult, FromPushResult, s);
    PairRead(PushResultHead(), ListFormat(ResultFormat()), s);
    PushResultHeadRead(s);
  }

  lemma SubStatusRead(s: bytes)
    ensures SubStatusFormat().read(false, s) == SubStatusSpec(s)
  {
    hide ReadU8;
    ViaRead(U8Format(), ToSubStatus, SubStatusByte, s);
  }

  ghost function SubStatusSpec(s: bytes): Parsed<SubStatus> {
    var (b, k) :- ReadU8(s);
    if ToSubStatus(b).Err? then Failed(InvalidRequest) else Parsed(ToSubStatus(b).value, k)
  }

  lemma SubStartRead(s: bytes)
    ensures SubStartFormat().read(false, s) == SubStartSpec(s)
  {
    hide ReadStr, ReadU8, ReadBool, StringListMap, SubStatusFormat, ToSubStatus;
    ViaRead(SubStartFields(), ToSubStart, FromSubStart, s);
    if ReadStr(false, s).Parsed? { SubStatusRead(ReadStr(false, s).rest); }
  }

  ghost function IndexSpec(n: int, s: bytes): Parsed<int> {
    var (i, k) :- ReadU16(s);
    if i >= n then Failed(InvalidRequest) else Parsed(i, k)
  }

  lemma IndexRead(n: int, s: bytes)
    ensures IndexFormat(n).read(false, s) == IndexSpec(n, s)
  {
    hide ReadU16;
    ViaRead(U16Format(), CheckIndex(n), Id, s);
  }

  lemma ChangeRead(n: int, s: bytes)
    ensures ChangeFormat(n).read(false, s) == ChangeSpec(n, s)
  {
    hide ReadU16, ReadStr, ReadU8, ReadOpt, StringMap, IndexFormat, OpFormat, ToOp;
    ViaRead(ChangeFields(n), ToChange, FromChange, s);
    IndexRead(n, s);
    if ReadU16(s).Parsed? && ReadStr(false, ReadU16(s).rest).Parsed? {
      OpRead(ReadStr(false, ReadU16(s).rest).rest);
    }
  }

  ghost function TablesAndChangesSpec(s: bytes): Parsed<(seq<string>, seq<CommitChange>)> {
    var (tables, s1) :- ReadList(StrFormat(), false, s);
    var (count, s2) :- ReadU32(s1);
    var (changes, k) :- ReadAll(ChangeFormat(|tables|), false, count, s2);
    Parsed((tables, changes), k)
  }

  lemma TablesAndChangesRead(s: bytes)
    ensures TablesAndChanges().read(false, s) == TablesAndChangesSpec(s)
  {
    hide ReadU32, ReadAll, ChangeFormat;
    assert TablesAndChanges().read(false, s) == ReadDep(TablesFormat(), ChangesAfter, false, s);
  }

  lemma CommitRead(s: bytes)
    ensures CommitFormat().read(false, s) == CommitSpec(s)
  {
    hide ReadStr, ReadI64, ReadU32, ReadList, ReadAll, ChangeFormat, TablesAndChanges;
    ViaRead(CommitFields(), ToCommit, FromCommit, s);
    if ReadI64(s).Parsed? && ReadI64(ReadI64(s).rest).Parsed? && ReadStr(false, ReadI64(ReadI64(s).rest).rest).Parsed? {
      TablesAndChangesRead(ReadStr(false, ReadI64(ReadI64(s).rest).rest).rest);
    }
  }

  lemma RefUrlsRead(s: bytes)
    ensures RefUrlFields().read(false, s) == RefUrlsSpec(s)
  {
    hide ReadOpt;
  }

  lemma MediaTypeRead(s: bytes)
    ensures MediaTypeFormat().read(false, s) == MediaTypeSpec(s)
  {
    hide ReadU8;
    ViaRead(U8Format(), ToMediaType, MediaTypeByte, s);
  }

  ghost function MediaTypeSpec(s: bytes): Parsed<MediaType> {
    var (b, k) :- ReadU8(s);
    if ToMediaType(b).Err? then Failed(InvalidRequest) else Parsed(ToMediaType(b).value, k)
  }

  function RefNumberFields(): Format<RefNumbers> {
    PairFormat(I64Format(), PairFormat(I64Format(), PairFormat(I64Format(), PairFormat(StrFormat(), RefUrlFields()))))
  }

  lemma RefNumbersRead(s: bytes)
    ensures RefNumberFields().read(false, s) == RefNumbersSpec(s)
  {
    hide ReadStr, ReadI64, RefUrlFields, RefUrlsSpec;
    forall s1 ensures RefUrlFields().read(false, s1) == RefUrlsSpec(s1) { RefUrlsRead(s1); }
  }

  lemma SegmentRefRead(s: bytes)
    ensures SegmentRefFormat().read(false, s) == SegmentRefSpec(s)
  {
    hide ReadStr, ReadU8, RefNumbersSpec, RefNumberFields, MediaTypeFormat, ToMediaType, ToSegmentRef;
    ViaRead(RefFields(), ToSegmentRef, FromSegmentRef, s);
    RefFieldsShape();
    forall s1 ensures MediaTypeFormat().read(false, s1) == MediaTypeSpec(s1) { MediaTypeRead(s1); }
    forall s1 ensures RefNumberFields().read(false, s1) == RefNumbersSpec(s1) { RefNumbersRead(s1); }
  }

  lemma RefFieldsShape()
    ensures RefFields() == PairFormat(StrFormat(), PairFormat(MediaTypeFormat(), PairFormat(StrFormat(), RefNumberFields())))
  {
    hide StrFormat, MediaTypeFormat, I64Format, RefUrlFields, PairFormat;
  }

  lemma SubEndRead(host: Host, s: bytes)
    ensures SubEndFormat(host).read(false, s) == SubEndSpec(host, s)
  {
    hide ReadI64, ReadOpt, JsonFormat;
    ViaRead(PairFormat(I64Format(), OptJson(host)), ToSubEnd, FromSubEnd, s);
  }

  lemma ErrorFrameRead(host: Host, s: bytes)
    ensures ErrorFrameFormat(host).read(false, s) == ErrorFrameSpec(host, s)
  {
    hide ReadStr, ReadBool, ReadOpt, JsonFormat;
    ViaRead(ErrorFrameFields(host), ToErrorFrame, FromErrorFrame, s);
  }
}
