/**
 * The bytes of every frame and message, written out: little-endian numbers, literal bytes for every
 * enumeration, and the fields side by side (packages/core/src/message.ts:840-1132, packages/core/src/frames.ts).
 * Nothing here is shared with the encoder or the decoder, so what they do is pinned to these bytes.
 */
module WireLayout {
  import opened Results
  import opened Hosts
  import opened Messages
  import Utf8
  import CodeUnits
  import RejectionDetails

  // ----- Numbers, texts, options -----------------------------------------------------------------------

  /** The lowest `width` base-256 digits of `n`, the lowest first. */
  function Digits(n: int, width: nat): (b: bytes)
    ensures |b| == width
    decreases width
  {
    if width == 0 then [] else [n % 256] + Digits(n / 256, width - 1)
  }

  function U32(n: int): bytes { Digits(n, 4) }

  function I32(n: int): bytes { Digits(if n < 0 then n + 4294967296 else n, 4) }

  function I64(n: int): bytes { Digits(if n < 0 then n + 18446744073709551616 else n, 8) }

  function Flag(b: bool): bytes { if b then [1] else [0] }

  function Blob(b: bytes): bytes { U32(|b|) + b }

  function Text(t: string): bytes { Blob(Utf8.Encode(t)) }

  function Opt<T>(bytesOf: T -> bytes, o: Option<T>): bytes { if o.None? then [0] else [1] + bytesOf(o.value) }

  function Each<T>(bytesOf: T -> bytes, xs: seq<T>): bytes {
    if xs == [] then [] else bytesOf(xs[0]) + Each(bytesOf, xs[1..])
  }

  function List<T>(bytesOf: T -> bytes, xs: seq<T>): bytes { U32(|xs|) + Each(bytesOf, xs) }

  function ScopeEntry(m: ScopeMap): string -> bytes {
    key => if key in m then Text(key) + List(Text, m[key]) else []
  }

  function LabelEntry(m: map<string, string>): string -> bytes {
    key => if key in m then Text(key) + Text(m[key]) else []
  }

  /** A map's entries stand in the ascending order of their keys. */
  function Scopes(m: ScopeMap): bytes { U32(|m|) + Each(ScopeEntry(m), CodeUnits.Sorted(m.Keys)) }

  function Labels(m: map<string, string>): bytes { U32(|m|) + Each(LabelEntry(m), CodeUnits.Sorted(m.Keys)) }

  // ----- Records -------------------------------------------------------------------------------------------

  function Operation(o: PushOperation): bytes {
    Text(o.table) + Text(o.rowId) + [match o.op case Upsert => 1 case Delete => 2] + Opt(I64, o.baseVersion) + Opt(Blob, o.payload)
  }

  function Change(c: CommitChange): bytes {
    Digits(c.tableIndex, 2) + Text(c.rowId) + [match c.op case Upsert => 1 case Delete => 2] + Opt(I64, c.rowVersion)
    + Labels(c.scopes) + Opt(Blob, c.row)
  }

  function Outcomes(r: OpResult): bytes {
    match r
    case AppliedResult(i) => I32(i) + [1]
    case ConflictResult(i, code, message, version, row) => I32(i) + [2] + Text(code) + Text(message) + I64(version) + Blob(row)
    case ErrorResult(i, code, message, retryable, _) => I32(i) + [3] + Text(code) + Text(message) + Flag(retryable)
  }

  /** An entry carries its details as the JSON text of their normal form. */
  function Details(host: Host): DetailsEntry -> bytes {
    (e: DetailsEntry) =>
      I32(e.opIndex) + Text(match RejectionDetails.Normalize(host, e.details) case Some(d) => host.jsonStringify(d) case None => "")
  }

  // ----- Frames ------------------------------------------------------------------------------------------

  function Tag(f: Frame): int {
    match f
    case ReqHeader(_, _, _) => 1
    case PushCommit(_, _) => 2
    case PullHeader(_, _, _, _) => 3
    case Subscription(_, _, _, _, _, _) => 4
    case RespHeader(_, _, _, _) => 16
    case PushResult(_, _, _, _) => 17
    case SubStart(_, _, _, _, _) => 18
    case Commit(_, _, _, _, _) => 19
    case SegmentRef(_, _, _, _, _, _, _, _, _, _, _) => 20
    case SegmentInline(_) => 21
    case SubEnd(_, _) => 22
    case Lease(_, _) => 25
    case PushResultDetails(_, _) => 27
    case ErrorFrame(_, _, _, _, _, _) => 31
    case Unknown(t, _) => t
  }

  function Ref(f: Frame): bytes
    requires f.SegmentRef?
  {
    Text(f.segmentId) + [match f.mediaType case Rows => 1 case Sqlite => 2] + Text(f.segmentTable) + I64(f.byteLength)
    + I64(f.rowCount) + I64(f.asOfCommitSeq) + Text(f.scopeDigest) + RefUrls(f)
  }

  function RefUrls(f: Frame): bytes
    requires f.SegmentRef?
  {
    Opt(Text, f.rowCursor) + Opt(Text, f.nextRowCursor) + Opt(Text, f.url) + Opt(I64, f.urlExpiresAtMs)
  }

  /** The epoch and the reset flag are there from version 2 on. */
  function Layout(host: Host, v: int, f: Frame): bytes {
    match f
    case ReqHeader(clientId, schemaVersion, epoch) =>
      if v >= 2 then Text(clientId) + I32(schemaVersion) + Opt(Text, epoch) else Text(clientId) + I32(schemaVersion)
    case PushCommit(commitId, operations) => Text(commitId) + List(Operation, operations)
    case PullHeader(commits, rows, pages, accept) => I32(commits) + I32(rows) + I32(pages) + [accept % 256]
    case Subscription(id, table, scopes, params, cursor, state) =>
      Text(id) + Text(table) + Scopes(scopes) + Opt(Text, params) + I64(cursor) + Opt(Text, state)
    case RespHeader(required, latest, epoch, reset) =>
      if v >= 2 && epoch.Some? && reset.Some?
      then Opt(I32, required) + Opt(I32, latest) + Text(epoch.value) + Flag(reset.value)
      else Opt(I32, required) + Opt(I32, latest)
    case Lease(leaseId, expires) => Text(leaseId) + I64(expires)
    case PushResult(id, status, commitSeq, results) =>
      Text(id) + [match status case Applied => 1 case Cached => 2 case Rejected => 3] + Opt(I64, commitSeq)
      + List(Outcomes, results)
    case PushResultDetails(id, entries) => Text(id) + List(Details(host), entries)
    case SubStart(id, status, reason, scopes, bootstrap) =>
      Text(id) + [match status case Active => 1 case Revoked => 2 case Reset => 3] + Text(reason) + Scopes(scopes)
      + Flag(bootstrap)
    case Commit(seqNo, created, actor, tables, changes) =>
      I64(seqNo) + I64(created) + Text(actor) + List(Text, tables) + List(Change, changes)
    case SegmentRef(_, _, _, _, _, _, _, _, _, _, _) => Ref(f)
    case SegmentInline(segment) => segment
    case SubEnd(next, state) => I64(next) + Opt(Text, state)
    case ErrorFrame(code, message, category, retryable, action, details) =>
      Text(code) + Text(message) + Text(category) + Flag(retryable) + Text(action) + Opt(Text, details)
    case Unknown(_, payload) => payload
  }

  function Record(host: Host, v: int): Frame -> bytes {
    (f: Frame) => [Tag(f) % 256] + Blob(Layout(host, v, f))
  }

  /** "SSP2", the version, the kind, no flags; the frames; an empty frame of type 0. */
  function MessageBytes(host: Host, m: Message): bytes {
    [0x53, 0x53, 0x50, 0x32] + Digits(m.wireVersion, 2) + [match m.kind case Request => 1 case Response => 2] + [0]
    + Each(Record(host, m.wireVersion), m.frames) + [0, 0, 0, 0, 0]
  }
}
