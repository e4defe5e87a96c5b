/** The payload layout of every frame with a fixed one (packages/core/src/message.ts:270-612 and 854-1101). */
module FrameFormats {
  import opened Results
  import opened Hosts
  import opened Primitives
  import opened Formats
  import opened Messages
  import opened ByteIO

  // ----- Enumerations and checked scalars ---------------------------------------------------------

  function ToOp(b: int): Result<Op> {
    if b == 1 then Ok(Upsert) else if b == 2 then Ok(Delete) else Err(InvalidRequest)
  }

  function ToPushStatus(b: int): Result<PushStatus> {
    if b == 1 then Ok(Applied) else if b == 2 then Ok(Cached) else if b == 3 then Ok(Rejected) else Err(InvalidRequest)
  }

  function ToSubStatus(b: int): Result<SubStatus> {
    if b == 1 then Ok(Active) else if b == 2 then Ok(Revoked) else if b == 3 then Ok(Reset) else Err(InvalidRequest)
  }

  function ToMediaType(b: int): Result<MediaType> {
    if b == 1 then Ok(Rows) else if b == 2 then Ok(Sqlite) else Err(InvalidRequest)
  }

  function CheckSchemaVersion(v: int): Result<int> { if v < 1 then Err(InvalidRequest) else Ok(v) }

  /** Bits 4 to 7 must be zero. */
  function CheckAccept(b: int): Result<int> { if 0 <= b < 16 then Ok(b) else Err(InvalidRequest) }

  function CheckRecordStatus(b: int): Result<int> { if 1 <= b <= 3 then Ok(b) else Err(InvalidRequest) }

  function CheckIndex(n: int): int -> Result<int> { i => if i >= n then Err(InvalidRequest) else Ok(i) }

  function CheckJsonText(host: Host): string -> Result<string> {
    t => if IsJson(host, t) then Ok(t) else Err(InvalidRequest)
  }

  function OpFormat(): Format<Op> { ViaFormat(U8Format(), ToOp, OpByte) }

  function PushStatusFormat(): Format<PushStatus> { ViaFormat(U8Format(), ToPushStatus, PushStatusByte) }

  function SubStatusFormat(): Format<SubStatus> { ViaFormat(U8Format(), ToSubStatus, SubStatusByte) }

  function MediaTypeFormat(): Format<MediaType> { ViaFormat(U8Format(), ToMediaType, MediaTypeByte) }

  function SchemaVersionFormat(): Format<int> { ViaFormat(I32Format(), CheckSchemaVersion, Id) }

  function AcceptFormat(): Format<int> { ViaFormat(U8Format(), CheckAccept, Id) }

  function RecordStatusFormat(): Format<int> { ViaFormat(U8Format(), CheckRecordStatus, Id) }

  function IndexFormat(n: int): Format<int> { ViaFormat(U16Format(), CheckIndex(n), Id) }

  function JsonFormat(host: Host): Format<string> { ViaFormat(StrFormat(), CheckJsonText(host), Id) }

  lemma SmallLawful(host: Host, n: int)
    ensures Lawful(OpFormat(), 1) && Lawful(PushStatusFormat(), 1) && Lawful(SubStatusFormat(), 1)
    ensures Lawful(MediaTypeFormat(), 1) && Lawful(AcceptFormat(), 1) && Lawful(RecordStatusFormat(), 1)
    ensures Lawful(SchemaVersionFormat(), 4) && Lawful(IndexFormat(n), 2) && Lawful(JsonFormat(host), 4)
  {
    hide PairFormat, ViaFormat, ListFormat, DepFormat, OptFormat, Lawful, U8Format, U16Format, I32Format, StrFormat;
    U8Lawful();
    U16Lawful();
    I32Lawful();
    StrLawful();
    ViaLawful(U8Format(), 1, ToOp, OpByte);
    ViaLawful(U8Format(), 1, ToPushStatus, PushStatusByte);
    ViaLawful(U8Format(), 1, ToSubStatus, SubStatusByte);
    ViaLawful(U8Format(), 1, ToMediaType, MediaTypeByte);
    ViaLawful(U8Format(), 1, CheckAccept, Id);
    ViaLawful(U8Format(), 1, CheckRecordStatus, Id);
    ViaLawful(I32Format(), 4, CheckSchemaVersion, Id);
    ViaLawful(U16Format(), 2, CheckIndex(n), Id);
    ViaLawful(StrFormat(), 4, CheckJsonText(host), Id);
  }

  function OptI32(): Format<Option<int>> { OptFormat(I32Format()) }

  function OptI64(): Format<Option<int>> { OptFormat(I64Format()) }

  function OptStr(): Format<Option<string>> { OptFormat(StrFormat()) }

  function OptBytes(): Format<Option<bytes>> { OptFormat(BytesFormat()) }

  function OptEpoch(): Format<Option<string>> { OptFormat(NonEmptyStrFormat()) }

  function OptJson(host: Host): Format<Option<string>> { OptFormat(JsonFormat(host)) }

  lemma OptsLawful(host: Host)
    ensures Lawful(OptI32(), 1) && Lawful(OptI64(), 1) && Lawful(OptStr(), 1)
    ensures Lawful(OptBytes(), 1) && Lawful(OptEpoch(), 1) && Lawful(OptJson(host), 1)
  {
    hide PairFormat, ViaFormat, ListFormat, DepFormat, OptFormat, Lawful, I32Format, I64Format, StrFormat, BytesFormat, NonEmptyStrFormat, JsonFormat;
    I32Lawful();
    I64Lawful();
    StrLawful();
    BytesLawful();
    NonEmptyStrLawful();
    SmallLawful(host, 0);
    OptLawful(I32Format(), 4);
    OptLawful(I64Format(), 8);
    OptLawful(StrFormat(), 4);
    OptLawful(BytesFormat(), 4);
    OptLawful(NonEmptyStrFormat(), 4);
    OptLawful(JsonFormat(host), 4);
  }

  // ----- Request frames -----------------------------------------------------------------------------

  function ToReqHeader1(x: (string, int)): Result<Frame> { Ok(ReqHeader(x.0, x.1, None)) }

  function FromReqHeader1(f: Frame): (string, int) { if f.ReqHeader? then (f.clientId, f.schemaVersion) else ("", 0) }

  function ReqHeaderFormat1(): Format<Frame> {
    ViaFormat(PairFormat(NonEmptyStrFormat(), SchemaVersionFormat()), ToReqHeader1, FromReqHeader1)
  }

  function ToReqHeader2(x: (string, (int, Option<string>))): Result<Frame> { Ok(ReqHeader(x.0, x.1.0, x.1.1)) }

  function FromReqHeader2(f: Frame): (string, (int, Option<string>)) {
    if f.ReqHeader? then (f.clientId, (f.schemaVersion, f.epoch)) else ("", (0, None))
  }

  function ReqHeaderFormat2(): Format<Frame> {
    ViaFormat(PairFormat(NonEmptyStrFormat(), PairFormat(SchemaVersionFormat(), OptEpoch())), ToReqHeader2, FromReqHeader2)
  }

  lemma ReqHeaderLawful(host: Host)
    ensures Lawful(ReqHeaderFormat1(), 8) && Lawful(ReqHeaderFormat2(), 9)
  {
    hide PairFormat, ViaFormat, ListFormat, DepFormat, OptFormat, Lawful, NonEmptyStrFormat, SchemaVersionFormat, OptEpoch;
    NonEmptyStrLawful();
    SmallLawful(host, 0);
    OptsLawful(host);
    PairLawful(NonEmptyStrFormat(), 4, SchemaVersionFormat(), 4);
    ViaLawful(PairFormat(NonEmptyStrFormat(), SchemaVersionFormat()), 8, ToReqHeader1, FromReqHeader1);
    PairLawful(SchemaVersionFormat(), 4, OptEpoch(), 1);
    PairLawful(NonEmptyStrFormat(), 4, PairFormat(SchemaVersionFormat(), OptEpoch()), 5);
    ViaLawful(PairFormat(NonEmptyStrFormat(), PairFormat(SchemaVersionFormat(), OptEpoch())), 9, ToReqHeader2, FromReqHeader2);
  }

  type OperationTuple = (string, (string, (Op, (Option<int>, Option<bytes>))))

  /** A payload is present exactly on an upsert. */
  function ToOperation(x: OperationTuple): Result<PushOperation> {
    if x.1.1.0.Upsert? <==> x.1.1.1.1.Some?
    then Ok(PushOperation(x.0, x.1.0, x.1.1.0, x.1.1.1.0, x.1.1.1.1))
    else Err(InvalidRequest)
  }

  function FromOperation(o: PushOperation): OperationTuple { (o.table, (o.rowId, (o.op, (o.baseVersion, o.payload)))) }

  function OperationFields(): Format<OperationTuple> {
    PairFormat(StrFormat(), PairFormat(StrFormat(), PairFormat(OpFormat(), PairFormat(OptI64(), OptBytes()))))
  }

  function OperationFormat(): Format<PushOperation> { ViaFormat(OperationFields(), ToOperation, FromOperation) }

  /** An operation takes eleven bytes at least. */
  lemma OperationLawful(host: Host)
    ensures Lawful(OperationFormat(), 11)
  {
    hide PairFormat, ViaFormat, ListFormat, DepFormat, OptFormat, Lawful, StrFormat, OpFormat, OptI64, OptBytes;
    StrLawful();
    SmallLawful(host, 0);
    OptsLawful(host);
    var a := PairFormat(OptI64(), OptBytes());
    var b := PairFormat(OpFormat(), a);
    PairLawful(OptI64(), 1, OptBytes(), 1);
    PairLawful(OpFormat(), 1, a, 2);
    PairLawful(StrFormat(), 4, b, 3);
    PairLawful(StrFormat(), 4, PairFormat(StrFormat(), b), 7);
    ViaLawful(OperationFields(), 11, ToOperation, FromOperation);
  }

  function CheckNotEmpty(ops: seq<PushOperation>): Result<seq<PushOperation>> {
    if ops == [] then Err(EmptyCommit) else Ok(ops)
  }

  function OperationsFormat(): Format<seq<PushOperation>> { ViaFormat(ListFormat(OperationFormat()), CheckNotEmpty, Id) }

  function ToPushCommit(x: (string, seq<PushOperation>)): Result<Frame> { Ok(PushCommit(x.0, x.1)) }

  function FromPushCommit(f: Frame): (string, seq<PushOperation>) {
    if f.PushCommit? then (f.commitId, f.operations) else ("", [])
  }

  function PushCommitFormat(): Format<Frame> {
    ViaFormat(PairFormat(NonEmptyStrFormat(), OperationsFormat()), ToPushCommit, FromPushCommit)
  }

  lemma PushCommitLawful(host: Host)
    ensures Lawful(PushCommitFormat(), 8)
  {
    hide PairFormat, ViaFormat, ListFormat, DepFormat, OptFormat, Lawful, NonEmptyStrFormat, OperationFormat;
    NonEmptyStrLawful();
    OperationLawful(host);
    ListLawful(OperationFormat(), 11);
    ViaLawful(ListFormat(OperationFormat()), 4, CheckNotEmpty, Id);
    PairLawful(NonEmptyStrFormat(), 4, OperationsFormat(), 4);
    ViaLawful(PairFormat(NonEmptyStrFormat(), OperationsFormat()), 8, ToPushCommit, FromPushCommit);
  }

  type PullTuple = (int, (int, (int, int)))

  function ToPullHeader(x: PullTuple): Result<Frame> { Ok(PullHeader(x.0, x.1.0, x.1.1.0, x.1.1.1)) }

  function FromPullHeader(f: Frame): PullTuple {
    if f.PullHeader? then (f.limitCommits, (f.limitSnapshotRows, (f.maxSnapshotPages, f.accept))) else (0, (0, (0, 0)))
  }

  function PullFields(): Format<PullTuple> {
    PairFormat(I32Format(), PairFormat(I32Format(), PairFormat(I32Format(), AcceptFormat())))
  }

  function PullHeaderFormat(): Format<Frame> { ViaFormat(PullFields(), ToPullHeader, FromPullHeader) }

  lemma PullHeaderLawful(host: Host)
    ensures Lawful(PullHeaderFormat(), 13)
  {
    hide PairFormat, ViaFormat, ListFormat, DepFormat, OptFormat, Lawful, I32Format, AcceptFormat;
    I32Lawful();
    SmallLawful(host, 0);
    var a := PairFormat(I32Format(), AcceptFormat());
    PairLawful(I32Format(), 4, AcceptFormat(), 1);
    PairLawful(I32Format(), 4, a, 5);
    PairLawful(I32Format(), 4, PairFormat(I32Format(), a), 9);
    ViaLawful(PullFields(), 13, ToPullHeader, FromPullHeader);
  }

  type SubscriptionTuple = (string, (string, (ScopeMap, (Option<string>, (int, Option<string>)))))

  function ToSubscription(x: SubscriptionTuple): Result<Frame> {
    Ok(Subscription(x.0, x.1.0, x.1.1.0, x.1.1.1.0, x.1.1.1.1.0, x.1.1.1.1.1))
  }

  function FromSubscription(f: Frame): SubscriptionTuple {
    if f.Subscription? then (f.id, (f.table, (f.scopes, (f.params, (f.cursor, f.resumeState)))))
    else ("", ("", (map[], (None, (0, None)))))
  }

  function SubscriptionFields(host: Host): Format<SubscriptionTuple> {
    PairFormat(StrFormat(), PairFormat(StrFormat(), PairFormat(StringListMap(),
      PairFormat(OptJson(host), PairFormat(I64Format(), OptJson(host))))))
  }

  function SubscriptionFormat(host: Host): Format<Frame> {
    ViaFormat(SubscriptionFields(host), ToSubscription, FromSubscription)
  }

  lemma MapsLawful()
    ensures Lawful(StringListMap(), 4) && Lawful(StringMap(), 4)
  {
    hide PairFormat, ViaFormat, ListFormat, DepFormat, OptFormat, Lawful, StrFormat;
    StrLawful();
    ListLawful(StrFormat(), 4);
    MapLawful(ListFormat(StrFormat()), 4);
    MapLawful(StrFormat(), 4);
  }

  lemma SubscriptionLawful(host: Host)
    ensures Lawful(SubscriptionFormat(host), 22)
  {
    hide PairFormat, ViaFormat, ListFormat, DepFormat, OptFormat, Lawful, StrFormat, StringListMap, OptJson, I64Format;
    StrLawful();
    MapsLawful();
    OptsLawful(host);
    I64Lawful();
    var a := PairFormat(I64Format(), OptJson(host));
    var b := PairFormat(OptJson(host), a);
    var c := PairFormat(StringListMap(), b);
    PairLawful(I64Format(), 8, OptJson(host), 1);
    PairLawful(OptJson(host), 1, a, 9);
    PairLawful(StringListMap(), 4, b, 10);
    PairLawful(StrFormat(), 4, c, 14);
    PairLawful(StrFormat(), 4, PairFormat(StrFormat(), c), 18);
    ViaLawful(SubscriptionFields(host), 22, ToSubscription, FromSubscription);
  }

  // ----- Response frames ----------------------------------------------------------------------------

  function ToRespHeader1(x: (Option<int>, Option<int>)): Result<Frame> { Ok(RespHeader(x.0, x.1, None, None)) }

  function FromRespHeader1(f: Frame): (Option<int>, Option<int>) {
    if f.RespHeader? then (f.requiredSchemaVersion, f.latestSchemaVersion) else (None, None)
  }

  function RespHeaderFormat1(): Format<Frame> {
    ViaFormat(PairFormat(OptI32(), OptI32()), ToRespHeader1, FromRespHeader1)
  }

  type RespTuple = (Option<int>, (Option<int>, (string, bool)))

  function ToRespHeader2(x: RespTuple): Result<Frame> { Ok(RespHeader(x.0, x.1.0, Some(x.1.1.0), Some(x.1.1.1))) }

  function FromRespHeader2(f: Frame): RespTuple {
    if f.RespHeader? && f.logEpoch.Some? && f.resetRequired.Some?
    then (f.requiredSchemaVersion, (f.latestSchemaVersion, (f.logEpoch.value, f.resetRequired.value)))
    else (None, (None, ("", false)))
  }

  function RespFields(): Format<RespTuple> {
    PairFormat(OptI32(), PairFormat(OptI32(), PairFormat(NonEmptyStrFormat(), BoolFormat())))
  }

  function RespHeaderFormat2(): Format<Frame> { ViaFormat(RespFields(), ToRespHeader2, FromRespHeader2) }

  lemma RespHeaderLawful(host: Host)
    ensures Lawful(RespHeaderFormat1(), 2) && Lawful(RespHeaderFormat2(), 7)
  {
    hide PairFormat, ViaFormat, ListFormat, DepFormat, OptFormat, Lawful, OptI32, NonEmptyStrFormat, BoolFormat;
    OptsLawful(host);
    NonEmptyStrLawful();
    BoolLawful();
    PairLawful(OptI32(), 1, OptI32(), 1);
    ViaLawful(PairFormat(OptI32(), OptI32()), 2, ToRespHeader1, FromRespHeader1);
    var a := PairFormat(NonEmptyStrFormat(), BoolFormat());
    PairLawful(NonEmptyStrFormat(), 4, BoolFormat(), 1);
    PairLawful(OptI32(), 1, a, 5);
    PairLawful(OptI32(), 1, PairFormat(OptI32(), a), 6);
    ViaLawful(RespFields(), 7, ToRespHeader2, FromRespHeader2);
  }

  function ToLease(x: (string, int)): Result<Frame> { Ok(Lease(x.0, x.1)) }

  function FromLease(f: Frame): (string, int) { if f.Lease? then (f.leaseId, f.expiresAtMs) else ("", 0) }

  function LeaseFormat(): Format<Frame> { ViaFormat(PairFormat(NonEmptyStrFormat(), I64Format()), ToLease, FromLease) }

  lemma LeaseLawful()
    ensures Lawful(LeaseFormat(), 12)
  {
    hide PairFormat, ViaFormat, ListFormat, DepFormat, OptFormat, Lawful, NonEmptyStrFormat, I64Format;
    NonEmptyStrLawful();
    I64Lawful();
    PairLawful(NonEmptyStrFormat(), 4, I64Format(), 8);
    ViaLawful(PairFormat(NonEmptyStrFormat(), I64Format()), 12, ToLease, FromLease);
  }

  // A result record: its index and status, then the fields that status calls for.

  function AppliedFormat(i: int): Format<OpResult> {
    Format(
      (r: OpResult) => r == AppliedResult(i),
      _ => true,
      (_, k) => k,
      (_, s) => Parsed(AppliedResult(i), s))
  }

  lemma AppliedLawful(i: int)
    ensures Lawful(AppliedFormat(i), 0)
  {
    var f := AppliedFormat(i);
    forall r, k ensures RoundTripsAt(f, r, k) && AdditiveAt(f, r, k) {}
    forall keepBom, s ensures ExactAt(f, s) && SoundAt(f, 0, keepBom, s) && AgreesAt(f, s) {}
  }

  type ConflictTuple = (string, (string, (int, bytes)))

  function ToConflict(i: int): ConflictTuple -> Result<OpResult> {
    (x: ConflictTuple) => Ok(ConflictResult(i, x.0, x.1.0, x.1.1.0, x.1.1.1))
  }

  function FromConflict(r: OpResult): ConflictTuple {
    if r.ConflictResult? then (r.code, (r.message, (r.serverVersion, r.serverRow))) else ("", ("", (0, [])))
  }

  function ConflictFields(): Format<ConflictTuple> {
    PairFormat(StrFormat(), PairFormat(StrFormat(), PairFormat(I64Format(), BytesFormat())))
  }

  function ToError(i: int): ((string, (string, bool))) -> Result<OpResult> {
    (x: (string, (string, bool))) => Ok(ErrorResult(i, x.0, x.1.0, x.1.1, None))
  }

  function FromError(r: OpResult): (string, (string, bool)) {
    if r.ErrorResult? then (r.code, (r.message, r.retryable)) else ("", ("", false))
  }

  function ErrorFields(): Format<(string, (string, bool))> {
    PairFormat(StrFormat(), PairFormat(StrFormat(), BoolFormat()))
  }

  function VariantFormat(x: (int, int)): Format<OpResult> {
    if x.1 == 1 then AppliedFormat(x.0)
    else if x.1 == 2 then ViaFormat(ConflictFields(), ToConflict(x.0), FromConflict)
    else ViaFormat(ErrorFields(), ToError(x.0), FromError)
  }

  lemma VariantLawful(x: (int, int))
    ensures Lawful(VariantFormat(x), 0)
  {
    hide PairFormat, ViaFormat, ListFormat, DepFormat, OptFormat, Lawful, StrFormat, I64Format, BytesFormat, BoolFormat;
    AppliedLawful(x.0);
    StrLawful();
    I64Lawful();
    BytesLawful();
    BoolLawful();
    PairLawful(I64Format(), 8, BytesFormat(), 4);
    PairLawful(StrFormat(), 4, PairFormat(I64Format(), BytesFormat()), 12);
    PairLawful(StrFormat(), 4, PairFormat(StrFormat(), PairFormat(I64Format(), BytesFormat())), 16);
    ViaLawful(ConflictFields(), 20, ToConflict(x.0), FromConflict);
    Weaken(ViaFormat(ConflictFields(), ToConflict(x.0), FromConflict), 20, 0);
    PairLawful(StrFormat(), 4, BoolFormat(), 1);
    PairLawful(StrFormat(), 4, PairFormat(StrFormat(), BoolFormat()), 5);
    ViaLawful(ErrorFields(), 9, ToError(x.0), FromError);
    Weaken(ViaFormat(ErrorFields(), ToError(x.0), FromError), 9, 0);
  }

  function RecordHead(): Format<(int, int)> { PairFormat(I32Format(), RecordStatusFormat()) }

  function HeadOf(r: OpResult): (int, int) {
    (r.opIndex, match r case AppliedResult(_) => 1 case ConflictResult(_, _, _, _, _) => 2 case ErrorResult(_, _, _, _, _) => 3)
  }

  function DropHead(x: ((int, int), OpResult)): Result<OpResult> {
    if x.0 == HeadOf(x.1) then Ok(x.1) else Err(InvalidRequest)
  }

  function WithHead(r: OpResult): ((int, int), OpResult) { (HeadOf(r), r) }

  function ResultFormat(): Format<OpResult> { ViaFormat(DepFormat(RecordHead(), VariantFormat), DropHead, WithHead) }

  lemma ResultLawful(host: Host)
    ensures Lawful(ResultFormat(), 5)
  {
    hide PairFormat, ViaFormat, ListFormat, DepFormat, OptFormat, Lawful, Steady, I32Format, RecordStatusFormat, VariantFormat;
    I32Lawful();
    SmallLawful(host, 0);
    PairLawful(I32Format(), 4, RecordStatusFormat(), 1);
    forall x ensures Lawful(VariantFormat(x), 0) { VariantLawful(x); }
    RecordHeadSteady();
    DepLawful(RecordHead(), 5, VariantFormat, 0);
    ViaLawful(DepFormat(RecordHead(), VariantFormat), 5, DropHead, WithHead);
  }

  lemma RecordHeadSteady()
    ensures Steady(RecordHead(), VariantFormat)
  {
    hide ReadI32, ReadU8, VariantFormat;
    forall s ensures SteadyAt(RecordHead(), VariantFormat, s) {
      assert RecordHead().read(true, s) == RecordHead().read(false, s);
    }
  }

  /** A commit sequence number is present exactly on a result that is not a rejection. */
  function CheckCommitSeq(x: (string, (PushStatus, Option<int>))): Result<(string, (PushStatus, Option<int>))> {
    if x.1.0.Rejected? <==> x.1.1.None? then Ok(x) else Err(InvalidRequest)
  }

  function PushResultHead(): Format<(string, (PushStatus, Option<int>))> {
    ViaFormat(PairFormat(StrFormat(), PairFormat(PushStatusFormat(), OptI64())), CheckCommitSeq, Id)
  }

  type PushResultTuple = ((string, (PushStatus, Option<int>)), seq<OpResult>)

  function ToPushResult(x: PushResultTuple): Result<Frame> { Ok(PushResult(x.0.0, x.0.1.0, x.0.1.1, x.1)) }

  function FromPushResult(f: Frame): PushResultTuple {
    if f.PushResult? then ((f.clientCommitId, (f.status, f.commitSeq)), f.results) else (("", (Rejected, None)), [])
  }

  function PushResultFormat(): Format<Frame> {
    ViaFormat(PairFormat(PushResultHead(), ListFormat(ResultFormat())), ToPushResult, FromPushResult)
  }

  lemma PushResultLawful(host: Host)
    ensures Lawful(PushResultFormat(), 10)
  {
    hide PairFormat, ViaFormat, ListFormat, DepFormat, OptFormat, Lawful, StrFormat, PushStatusFormat, OptI64, ResultFormat;
    StrLawful();
    SmallLawful(host, 0);
    OptsLawful(host);
    ResultLawful(host);
    PairLawful(PushStatusFormat(), 1, OptI64(), 1);
    PairLawful(StrFormat(), 4, PairFormat(PushStatusFormat(), OptI64()), 2);
    ViaLawful(PairFormat(StrFormat(), PairFormat(PushStatusFormat(), OptI64())), 6, CheckCommitSeq, Id);
    ListLawful(ResultFormat(), 5);
    PairLawful(PushResultHead(), 6, ListFormat(ResultFormat()), 4);
    ViaLawful(PairFormat(PushResultHead(), ListFormat(ResultFormat())), 10, ToPushResult, FromPushResult);
  }

  type SubStartTuple = (string, (SubStatus, (string, (ScopeMap, bool))))

  function ToSubStart(x: SubStartTuple): Result<Frame> {
    Ok(SubStart(x.0, x.1.0, x.1.1.0, x.1.1.1.0, x.1.1.1.1))
  }

  function FromSubStart(f: Frame): SubStartTuple {
    if f.SubStart? then (f.subId, (f.subStatus, (f.reasonCode, (f.effectiveScopes, f.bootstrap))))
    else ("", (Active, ("", (map[], false))))
  }

  function SubStartFields(): Format<SubStartTuple> {
    PairFormat(StrFormat(), PairFormat(SubStatusFormat(), PairFormat(StrFormat(), PairFormat(StringListMap(), BoolFormat()))))
  }

  function SubStartFormat(): Format<Frame> { ViaFormat(SubStartFields(), ToSubStart, FromSubStart) }

  lemma SubStartLawful(host: Host)
    ensures Lawful(SubStartFormat(), 14)
  {
    hide PairFormat, ViaFormat, ListFormat, DepFormat, OptFormat, Lawful, StrFormat, SubStatusFormat, StringListMap, BoolFormat;
    StrLawful();
    SmallLawful(host, 0);
    MapsLawful();
    BoolLawful();
    var a := PairFormat(StringListMap(), BoolFormat());
    var b := PairFormat(StrFormat(), a);
    PairLawful(StringListMap(), 4, BoolFormat(), 1);
    PairLawful(StrFormat(), 4, a, 5);
    PairLawful(SubStatusFormat(), 1, b, 9);
    PairLawful(StrFormat(), 4, PairFormat(SubStatusFormat(), b), 10);
    ViaLawful(SubStartFields(), 14, ToSubStart, FromSubStart);
  }

  type ChangeTuple = (int, (string, (Op, (Option<int>, (map<string, string>, Option<bytes>)))))

  /** A row and its version are present exactly on an upsert. */
  function ToChange(x: ChangeTuple): Result<CommitChange> {
    if (x.1.1.0.Upsert? <==> x.1.1.1.0.Some?) && (x.1.1.0.Upsert? <==> x.1.1.1.1.1.Some?)
    then Ok(CommitChange(x.0, x.1.0, x.1.1.0, x.1.1.1.0, x.1.1.1.1.0, x.1.1.1.1.1))
    else Err(InvalidRequest)
  }

  function FromChange(c: CommitChange): ChangeTuple {
    (c.tableIndex, (c.rowId, (c.op, (c.rowVersion, (c.scopes, c.row)))))
  }

  function ChangeFields(n: int): Format<ChangeTuple> {
    PairFormat(IndexFormat(n), PairFormat(StrFormat(), PairFormat(OpFormat(),
      PairFormat(OptI64(), PairFormat(StringMap(), OptBytes())))))
  }

  /** A change in a commit that touches `n` tables. */
  function ChangeFormat(n: int): Format<CommitChange> { ViaFormat(ChangeFields(n), ToChange, FromChange) }

  /** A change takes thirteen bytes at least. */
  lemma ChangeLawful(host: Host, n: int)
    ensures Lawful(ChangeFormat(n), 13)
  {
    hide PairFormat, ViaFormat, ListFormat, DepFormat, OptFormat, Lawful, StrFormat, IndexFormat, OpFormat, OptI64, StringMap, OptBytes;
    StrLawful();
    SmallLawful(host, n);
    OptsLawful(host);
    MapsLawful();
    var a := PairFormat(StringMap(), OptBytes());
    var b := PairFormat(OptI64(), a);
    var c := PairFormat(OpFormat(), b);
    PairLawful(StringMap(), 4, OptBytes(), 1);
    PairLawful(OptI64(), 1, a, 5);
    PairLawful(OpFormat(), 1, b, 6);
    PairLawful(StrFormat(), 4, c, 7);
    PairLawful(IndexFormat(n), 2, PairFormat(StrFormat(), c), 11);
    ViaLawful(ChangeFields(n), 13, ToChange, FromChange);
  }

  function ChangesAfter(tables: seq<string>): Format<seq<CommitChange>> { ListFormat(ChangeFormat(|tables|)) }

  function TablesFormat(): Format<seq<string>> { ListFormat(StrFormat()) }

  function TablesAndChanges(): Format<(seq<string>, seq<CommitChange>)> { DepFormat(TablesFormat(), ChangesAfter) }

  type CommitTuple = (int, (int, (string, (seq<string>, seq<CommitChange>))))

  function ToCommit(x: CommitTuple): Result<Frame> { Ok(Commit(x.0, x.1.0, x.1.1.0, x.1.1.1.0, x.1.1.1.1)) }

  function FromCommit(f: Frame): CommitTuple {
    if f.Commit? then (f.seqNo, (f.createdAtMs, (f.actorId, (f.tables, f.changes)))) else (0, (0, ("", ([], []))))
  }

  function CommitFields(): Format<CommitTuple> {
    PairFormat(I64Format(), PairFormat(I64Format(), PairFormat(StrFormat(), TablesAndChanges())))
  }

  function CommitFormat(): Format<Frame> { ViaFormat(CommitFields(), ToCommit, FromCommit) }

  lemma TablesSteady()
    ensures Steady(TablesFormat(), ChangesAfter)
  {
    hide ReadU32;
    forall s ensures SteadyAt(TablesFormat(), ChangesAfter, s) {
      var r, d := TablesFormat().read(true, s), TablesFormat().read(false, s);
      if r.Parsed? && d.Parsed? {
        StrLawful();
        var n, s1 := ReadU32(s).value, ReadU32(s).rest;
        ReadAllSound(StrFormat(), 4, true, n, s1);
        ReadAllSound(StrFormat(), 4, false, n, s1);
      }
    }
  }

  lemma CommitLawful(host: Host)
    ensures Lawful(CommitFormat(), 28)
  {
    hide PairFormat, ViaFormat, ListFormat, DepFormat, OptFormat, Lawful, Steady, StrFormat, I64Format, ChangeFormat;
    StrLawful();
    I64Lawful();
    ListLawful(StrFormat(), 4);
    TablesSteady();
    forall tables ensures Lawful(ChangesAfter(tables), 4) {
      ChangeLawful(host, |tables|);
      ListLawful(ChangeFormat(|tables|), 13);
    }
    DepLawful(TablesFormat(), 4, ChangesAfter, 4);
    var a := PairFormat(StrFormat(), TablesAndChanges());
    PairLawful(StrFormat(), 4, TablesAndChanges(), 8);
    PairLawful(I64Format(), 8, a, 12);
    PairLawful(I64Format(), 8, PairFormat(I64Format(), a), 20);
    ViaLawful(CommitFields(), 28, ToCommit, FromCommit);
  }

  type RefUrls = (Option<string>, (Option<string>, (Option<string>, Option<int>)))

  type RefTuple = (string, (MediaType, (string, (int, (int, (int, (string, RefUrls)))))))

  /** An expiry is present exactly when a URL is. */
  function ToSegmentRef(x: RefTuple): Result<Frame> {
    var u := x.1.1.1.1.1.1.1;
    if u.1.1.0.Some? <==> u.1.1.1.Some?
    then Ok(SegmentRef(x.0, x.1.0, x.1.1.0, x.1.1.1.0, x.1.1.1.1.0, x.1.1.1.1.1.0, x.1.1.1.1.1.1.0, u.0, u.1.0, u.1.1.0, u.1.1.1))
    else Err(InvalidRequest)
  }

  function FromSegmentRef(f: Frame): RefTuple {
    if f.SegmentRef? then
      (f.segmentId, (f.mediaType, (f.segmentTable, (f.byteLength, (f.rowCount, (f.asOfCommitSeq, (f.scopeDigest,
        (f.rowCursor, (f.nextRowCursor, (f.url, f.urlExpiresAtMs))))))))))
    else ("", (Rows, ("", (0, (0, (0, ("", (None, (None, (None, None))))))))))
  }

  function RefUrlFields(): Format<RefUrls> {
    PairFormat(OptStr(), PairFormat(OptStr(), PairFormat(OptStr(), OptI64())))
  }

  function RefFields(): Format<RefTuple> {
    PairFormat(StrFormat(), PairFormat(MediaTypeFormat(), PairFormat(StrFormat(), PairFormat(I64Format(),
      PairFormat(I64Format(), PairFormat(I64Format(), PairFormat(StrFormat(), RefUrlFields())))))))
  }

  function SegmentRefFormat(): Format<Frame> { ViaFormat(RefFields(), ToSegmentRef, FromSegmentRef) }

  lemma RefUrlsLawful(host: Host)
    ensures Lawful(RefUrlFields(), 4)
  {
    hide PairFormat, ViaFormat, ListFormat, DepFormat, OptFormat, Lawful, OptStr, OptI64;
    OptsLawful(host);
    PairLawful(OptStr(), 1, OptI64(), 1);
    PairLawful(OptStr(), 1, PairFormat(OptStr(), OptI64()), 2);
    PairLawful(OptStr(), 1, PairFormat(OptStr(), PairFormat(OptStr(), OptI64())), 3);
  }

  lemma SegmentRefLawful(host: Host)
    ensures Lawful(SegmentRefFormat(), 41)
  {
    hide PairFormat, ViaFormat, ListFormat, DepFormat, OptFormat, Lawful, StrFormat, MediaTypeFormat, I64Format, RefUrlFields;
    StrLawful();
    SmallLawful(host, 0);
    I64Lawful();
    RefUrlsLawful(host);
    var a := PairFormat(StrFormat(), RefUrlFields());
    var b := PairFormat(I64Format(), a);
    var c := PairFormat(I64Format(), b);
    var d := PairFormat(I64Format(), c);
    var e := PairFormat(StrFormat(), d);
    PairLawful(StrFormat(), 4, RefUrlFields(), 4);
    PairLawful(I64Format(), 8, a, 8);
    PairLawful(I64Format(), 8, b, 16);
    PairLawful(I64Format(), 8, c, 24);
    PairLawful(StrFormat(), 4, d, 32);
    PairLawful(MediaTypeFormat(), 1, e, 36);
    PairLawful(StrFormat(), 4, PairFormat(MediaTypeFormat(), e), 37);
    ViaLawful(RefFields(), 41, ToSegmentRef, FromSegmentRef);
  }

  function ToSubEnd(x: (int, Option<string>)): Result<Frame> { Ok(SubEnd(x.0, x.1)) }

  function FromSubEnd(f: Frame): (int, Option<string>) {
    if f.SubEnd? then (f.nextCursor, f.bootstrapState) else (0, None)
  }

  function SubEndFormat(host: Host): Format<Frame> {
    ViaFormat(PairFormat(I64Format(), OptJson(host)), ToSubEnd, FromSubEnd)
  }

  lemma SubEndLawful(host: Host)
    ensures Lawful(SubEndFormat(host), 9)
  {
    hide PairFormat, ViaFormat, ListFormat, DepFormat, OptFormat, Lawful, I64Format, OptJson;
    I64Lawful();
    OptsLawful(host);
    PairLawful(I64Format(), 8, OptJson(host), 1);
    ViaLawful(PairFormat(I64Format(), OptJson(host)), 9, ToSubEnd, FromSubEnd);
  }

  type ErrorTuple = (string, (string, (string, (bool, (string, Option<string>)))))

  function ToErrorFrame(x: ErrorTuple): Result<Frame> {
    Ok(ErrorFrame(x.0, x.1.0, x.1.1.0, x.1.1.1.0, x.1.1.1.1.0, x.1.1.1.1.1))
  }

  function FromErrorFrame(f: Frame): ErrorTuple {
    if f.ErrorFrame? then (f.code, (f.message, (f.category, (f.retryable, (f.recommendedAction, f.details)))))
    else ("", ("", ("", (false, ("", None)))))
  }

  function ErrorFrameFields(host: Host): Format<ErrorTuple> {
    PairFormat(StrFormat(), PairFormat(StrFormat(), PairFormat(StrFormat(),
      PairFormat(BoolFormat(), PairFormat(StrFormat(), OptJson(host))))))
  }

  function ErrorFrameFormat(host: Host): Format<Frame> {
    ViaFormat(ErrorFrameFields(host), ToErrorFrame, FromErrorFrame)
  }

  lemma ErrorFrameLawful(host: Host)
    ensures Lawful(ErrorFrameFormat(host), 18)
  {
    hide PairFormat, ViaFormat, ListFormat, DepFormat, OptFormat, Lawful, StrFormat, BoolFormat, OptJson;
    StrLawful();
    BoolLawful();
    OptsLawful(host);
    var a := PairFormat(StrFormat(), OptJson(host));
    var b := PairFormat(BoolFormat(), a);
    var c := PairFormat(StrFormat(), b);
    PairLawful(StrFormat(), 4, OptJson(host), 1);
    PairLawful(BoolFormat(), 1, a, 5);
    PairLawful(StrFormat(), 4, b, 6);
    PairLawful(StrFormat(), 4, c, 10);
    PairLawful(StrFormat(), 4, PairFormat(StrFormat(), c), 14);
    ViaLawful(ErrorFrameFields(host), 18, ToErrorFrame, FromErrorFrame);
  }

  // ----- The layout behind a frame type ---------------------------------------------------------------

  /** Every known type but SEGMENT_INLINE and PUSH_RESULT_DETAILS. */
  predicate HasLayout(t: int) { IsKnownType(t) && t != END && t != 0x15 && t != 0x1B }

  function PayloadFormat(host: Host, wireVersion: int, t: int): Format<Frame>
    requires HasLayout(t)
  {
    if t == 0x01 then (if wireVersion >= 2 then ReqHeaderFormat2() else ReqHeaderFormat1())
    else if t == 0x02 then PushCommitFormat()
    else if t == 0x03 then PullHeaderFormat()
    else if t == 0x04 then SubscriptionFormat(host)
    else if t == 0x10 then (if wireVersion >= 2 then RespHeaderFormat2() else RespHeaderFormat1())
    else if t == 0x11 then PushResultFormat()
    else if t == 0x12 then SubStartFormat()
    else if t == 0x13 then CommitFormat()
    else if t == 0x14 then SegmentRefFormat()
    else if t == 0x16 then SubEndFormat(host)
    else if t == 0x19 then LeaseFormat()
    else ErrorFrameFormat(host)
  }

  lemma AnySize<T(!new)>(f: Format<T>, least: nat)
    requires Lawful(f, least)
    ensures Lawful(f, 0)
  {
    Weaken(f, least, 0);
  }

  lemma PayloadLawful(host: Host, wireVersion: int, t: int)
    requires HasLayout(t)
    ensures Lawful(PayloadFormat(host, wireVersion, t), 0)
  {
    hide PairFormat, ViaFormat, ListFormat, DepFormat, OptFormat, Lawful, ReqHeaderFormat1, ReqHeaderFormat2, PushCommitFormat, PullHeaderFormat, SubscriptionFormat;
    hide RespHeaderFormat1, RespHeaderFormat2, PushResultFormat, SubStartFormat, CommitFormat, SegmentRefFormat;
    hide SubEndFormat, LeaseFormat, ErrorFrameFormat;
    if t == 0x01 {
      ReqHeaderLawful(host);
      AnySize(ReqHeaderFormat1(), 8);
      AnySize(ReqHeaderFormat2(), 9);
    } else if t == 0x02 {
      PushCommitLawful(host);
      AnySize(PushCommitFormat(), 8);
    } else if t == 0x03 {
      PullHeaderLawful(host);
      AnySize(PullHeaderFormat(), 13);
    } else if t == 0x04 {
      SubscriptionLawful(host);
      AnySize(SubscriptionFormat(host), 22);
    } else if t == 0x10 {
      RespHeaderLawful(host);
      AnySize(RespHeaderFormat1(), 2);
      AnySize(RespHeaderFormat2(), 7);
    } else if t == 0x11 {
      PushResultLawful(host);
      AnySize(PushResultFormat(), 10);
    } else if t == 0x12 {
      SubStartLawful(host);
      AnySize(SubStartFormat(), 14);
    } else if t == 0x13 {
      CommitLawful(host);
      AnySize(CommitFormat(), 28);
    } else if t == 0x14 {
      SegmentRefLawful(host);
      AnySize(SegmentRefFormat(), 41);
    } else if t == 0x16 {
      SubEndLawful(host);
      AnySize(SubEndFormat(host), 9);
    } else if t == 0x19 {
      LeaseLawful();
      AnySize(LeaseFormat(), 12);
    } else {
      ErrorFrameLawful(host);
      AnySize(ErrorFrameFormat(host), 18);
    }
  }
}
