/** The frames and messages of packages/core/src/message.ts. */
module Messages {
  import opened Results
  import opened Hosts

  datatype Op = Upsert | Delete

  datatype PushOperation = PushOperation(
    table: string, rowId: string, op: Op, baseVersion: Option<int>, payload: Option<bytes>)

  datatype PushStatus = Applied | Cached | Rejected

  /** The `details` of an error are never part of this record's wire layout. */
  datatype OpResult =
    | AppliedResult(opIndex: int)
    | ConflictResult(opIndex: int, code: string, message: string, serverVersion: int, serverRow: bytes)
    | ErrorResult(opIndex: int, code: string, message: string, retryable: bool, details: Option<Json>)

  datatype DetailsEntry = DetailsEntry(opIndex: int, details: Json)

  datatype SubStatus = Active | Revoked | Reset

  datatype CommitChange = CommitChange(
    tableIndex: int, rowId: string, op: Op, rowVersion: Option<int>, scopes: map<string, string>, row: Option<bytes>)

  datatype MediaType = Rows | Sqlite

  type ScopeMap = map<string, seq<string>>

  datatype Frame =
    | ReqHeader(clientId: string, schemaVersion: int, epoch: Option<string>)
    | PushCommit(commitId: string, operations: seq<PushOperation>)
    | PullHeader(limitCommits: int, limitSnapshotRows: int, maxSnapshotPages: int, accept: int)
    | Subscription(id: string, table: string, scopes: ScopeMap, params: Option<string>, cursor: int,
                   resumeState: Option<string>)
    | RespHeader(requiredSchemaVersion: Option<int>, latestSchemaVersion: Option<int>, logEpoch: Option<string>,
                 resetRequired: Option<bool>)
    | Lease(leaseId: string, expiresAtMs: int)
    | PushResult(clientCommitId: string, status: PushStatus, commitSeq: Option<int>, results: seq<OpResult>)
    | PushResultDetails(detailsOf: string, entries: seq<DetailsEntry>)
    | SubStart(subId: string, subStatus: SubStatus, reasonCode: string, effectiveScopes: ScopeMap, bootstrap: bool)
    | Commit(seqNo: int, createdAtMs: int, actorId: string, tables: seq<string>, changes: seq<CommitChange>)
    | SegmentRef(segmentId: string, mediaType: MediaType, segmentTable: string, byteLength: int, rowCount: int,
                 asOfCommitSeq: int, scopeDigest: string, rowCursor: Option<string>, nextRowCursor: Option<string>,
                 url: Option<string>, urlExpiresAtMs: Option<int>)
    | SegmentInline(segment: bytes)
    | SubEnd(nextCursor: int, bootstrapState: Option<string>)
    | ErrorFrame(code: string, message: string, category: string, retryable: bool, recommendedAction: string,
                 details: Option<string>)
    | Unknown(frameType: int, payload: bytes)

  /** The records or entries the validator passes over when it matches a companion with its result. */
  function Passes(f: Frame): nat {
    match f
    case PushResult(_, _, _, results) => |results|
    case PushResultDetails(_, entries) => |entries|
    case _ => 0
  }

  function AllPasses(fs: seq<Frame>, n: nat): nat
    requires n <= |fs|
  {
    if n == 0 then 0 else AllPasses(fs, n - 1) + Passes(fs[n - 1])
  }

  datatype MsgKind = Request | Response

  datatype Message = Message(wireVersion: int, kind: MsgKind, frames: seq<Frame>)

  // ----- The frame type registry (packages/core/src/frames.ts) -----------------------------------

  const END := 0x00

  function FrameType(f: Frame): int {
    match f
    case ReqHeader(_, _, _) => 0x01
    case PushCommit(_, _) => 0x02
    case PullHeader(_, _, _, _) => 0x03
    case Subscription(_, _, _, _, _, _) => 0x04
    case RespHeader(_, _, _, _) => 0x10
    case PushResult(_, _, _, _) => 0x11
    case SubStart(_, _, _, _, _) => 0x12
    case Commit(_, _, _, _, _) => 0x13
    case SegmentRef(_, _, _, _, _, _, _, _, _, _, _) => 0x14
    case SegmentInline(_) => 0x15
    case SubEnd(_, _) => 0x16
    case Lease(_, _) => 0x19
    case PushResultDetails(_, _) => 0x1B
    case ErrorFrame(_, _, _, _, _, _) => 0x1F
    case Unknown(t, _) => t
  }

  predicate IsRequestType(t: int) { 0x01 <= t <= 0x04 }

  predicate IsResponseType(t: int) { 0x10 <= t <= 0x16 || t == 0x19 || t == 0x1B || t == 0x1F }

  predicate IsKnownType(t: int) { t == END || IsRequestType(t) || IsResponseType(t) }

  /** The frames TypeScript admits in a message of the given kind. */
  predicate FrameOfKind(kind: MsgKind, f: Frame) {
    f.Unknown? || (kind == Request <==> f.ReqHeader? || f.PushCommit? || f.PullHeader? || f.Subscription?)
  }

  predicate WellTyped(m: Message) {
    forall i :: 0 <= i < |m.frames| ==> FrameOfKind(m.kind, m.frames[i])
  }

  predicate IsSupported(wireVersion: int) { 1 <= wireVersion <= 2 }

  function OpByte(op: Op): (b: int)
    ensures 1 <= b <= 2
  {
    if op.Upsert? then 1 else 2
  }

  function PushStatusByte(s: PushStatus): (b: int)
    ensures 1 <= b <= 3
  {
    match s
    case Applied => 1
    case Cached => 2
    case Rejected => 3
  }

  function SubStatusByte(s: SubStatus): (b: int)
    ensures 1 <= b <= 3
  {
    match s
    case Active => 1
    case Revoked => 2
    case Reset => 3
  }

  function MediaTypeByte(m: MediaType): (b: int)
    ensures 1 <= b <= 2
  {
    if m.Rows? then 1 else 2
  }
}
