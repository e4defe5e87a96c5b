/**
 * Which frames `encodeFrame` accepts, what `decodeMessage` asks of them besides, and what
 * one trip over the wire makes of them.
 */
module FrameRules {
  import opened Results
  import opened Hosts
  import opened Primitives
  import opened Formats
  import opened Messages
  import opened FrameFormats
  import opened ByteIO
  import opened RejectionDetails
  import SegmentCodec
  import Utf8

  // ----- What the encoder accepts -----------------------------------------------------------------

  predicate OptFits(o: Option<string>) { o.Some? ==> IsStr(o.value) }

  predicate OptSafe(o: Option<int>) { o.Some? ==> IsSafe(o.value) }

  predicate OptI32Fits(o: Option<int>) { o.Some? ==> IsI32(o.value) }

  predicate OptBytesFits(o: Option<bytes>) { o.Some? ==> IsBytes(o.value) }

  predicate OperationFits(o: PushOperation) {
    && IsStr(o.table) && IsStr(o.rowId) && OptSafe(o.baseVersion) && OptBytesFits(o.payload)
    && (o.op.Upsert? <==> o.payload.Some?)
  }

  predicate ResultFits(r: OpResult) {
    && IsI32(r.opIndex)
    && match r
       case AppliedResult(_) => true
       case ConflictResult(_, code, message, version, row) => IsStr(code) && IsStr(message) && IsSafe(version) && IsBytes(row)
       case ErrorResult(_, code, message, _, _) => IsStr(code) && IsStr(message)
  }

  predicate ChangeFits(c: CommitChange, tableCount: int) {
    && IsU16(c.tableIndex) && c.tableIndex < tableCount && IsStr(c.rowId) && OptSafe(c.rowVersion)
    && StringMapFits(c.scopes) && OptBytesFits(c.row)
    && (c.op.Upsert? <==> c.rowVersion.Some?) && (c.op.Upsert? <==> c.row.Some?)
  }

  predicate EntryFits(host: Host, e: DetailsEntry) {
    0 <= e.opIndex < I32_LIMIT && Normalize(host, e.details).Some?
    && IsStr(host.jsonStringify(Normalize(host, e.details).value))
  }

  predicate DistinctIndexes(es: seq<DetailsEntry>) {
    forall i, j :: 0 <= i < j < |es| ==> es[i].opIndex != es[j].opIndex
  }

  predicate SubscriptionFits(f: Frame)
    requires f.Subscription?
  {
    && IsStr(f.id) && IsStr(f.table) && StringListMapFits(f.scopes) && OptFits(f.params) && IsSafe(f.cursor)
    && OptFits(f.resumeState)
  }

  predicate PushResultFits(f: Frame)
    requires f.PushResult?
  {
    && IsStr(f.clientCommitId) && (f.status.Rejected? <==> f.commitSeq.None?) && OptSafe(f.commitSeq)
    && |f.results| < U32_LIMIT && forall i :: 0 <= i < |f.results| ==> ResultFits(f.results[i])
  }

  predicate SubStartFits(f: Frame)
    requires f.SubStart?
  {
    IsStr(f.subId) && IsStr(f.reasonCode) && StringListMapFits(f.effectiveScopes)
  }

  predicate RefUrlsFit(f: Frame)
    requires f.SegmentRef?
  {
    OptFits(f.rowCursor) && OptFits(f.nextRowCursor) && OptFits(f.url) && OptSafe(f.urlExpiresAtMs)
  }

  predicate SegmentRefFits(f: Frame)
    requires f.SegmentRef?
  {
    && IsStr(f.segmentId) && IsStr(f.segmentTable) && IsSafe(f.byteLength) && IsSafe(f.rowCount) && IsSafe(f.asOfCommitSeq)
    && IsStr(f.scopeDigest) && RefUrlsFit(f) && (f.url.Some? <==> f.urlExpiresAtMs.Some?)
  }

  predicate ErrorFrameFits(f: Frame)
    requires f.ErrorFrame?
  {
    IsStr(f.code) && IsStr(f.message) && IsStr(f.category) && IsStr(f.recommendedAction) && OptFits(f.details)
  }

  /** `encodeFrame` lays the frame out without throwing. */
  predicate Fits(host: Host, wireVersion: int, f: Frame) {
    match f
    case ReqHeader(clientId, schemaVersion, epoch) =>
      && clientId != [] && IsStr(clientId) && 1 <= schemaVersion && IsI32(schemaVersion)
      && (if wireVersion >= 2 then OptFits(epoch) && epoch != Some("") else epoch.None?)
    case PushCommit(commitId, operations) =>
      && commitId != [] && IsStr(commitId) && 0 < |operations| < U32_LIMIT
      && forall i :: 0 <= i < |operations| ==> OperationFits(operations[i])
    case PullHeader(commits, rows, pages, accept) =>
      IsI32(commits) && IsI32(rows) && IsI32(pages) && 0 <= accept < 16
    case Subscription(_, _, _, _, _, _) => SubscriptionFits(f)
    case RespHeader(required, latest, epoch, reset) =>
      && OptI32Fits(required) && OptI32Fits(latest)
      && (if wireVersion >= 2 then epoch.Some? && epoch.value != [] && IsStr(epoch.value) && reset.Some?
          else epoch.None? && reset.None?)
    case Lease(leaseId, expires) => leaseId != [] && IsStr(leaseId) && IsSafe(expires)
    case PushResult(_, _, _, _) => PushResultFits(f)
    case PushResultDetails(id, entries) =>
      && id != [] && IsStr(id) && 0 < |entries| < U32_LIMIT && DistinctIndexes(entries)
      && forall i :: 0 <= i < |entries| ==> EntryFits(host, entries[i])
    case SubStart(_, _, _, _, _) => SubStartFits(f)
    case Commit(seqNo, created, actor, tables, changes) =>
      && IsSafe(seqNo) && IsSafe(created) && IsStr(actor) && StringsFit(tables) && |changes| < U32_LIMIT
      && forall i :: 0 <= i < |changes| ==> ChangeFits(changes[i], |tables|)
    case SegmentRef(_, _, _, _, _, _, _, _, _, _, _) => SegmentRefFits(f)
    case SegmentInline(_) => true
    case SubEnd(next, state) => IsSafe(next) && OptFits(state)
    case ErrorFrame(_, _, _, _, _, _) => ErrorFrameFits(f)
    case Unknown(t, _) => IsU8(t) && !IsKnownType(t)
  }

  lemma FitsByType(host: Host, v: int, f: Frame)
    ensures f.Subscription? ==> (Fits(host, v, f) <==> SubscriptionFits(f))
    ensures f.PushResult? ==> (Fits(host, v, f) <==> PushResultFits(f))
    ensures f.SubStart? ==> (Fits(host, v, f) <==> SubStartFits(f))
    ensures f.SegmentRef? ==> (Fits(host, v, f) <==> SegmentRefFits(f))
    ensures f.ErrorFrame? ==> (Fits(host, v, f) <==> ErrorFrameFits(f))
  {
    hide SubscriptionFits, PushResultFits, SubStartFits, SegmentRefFits, ErrorFrameFits;
  }

  // ----- What the decoder adds ---------------------------------------------------------------------

  predicate OptIsJson(host: Host, o: Option<string>) { o.Some? ==> IsJson(host, o.value) }

  /** JSON fields hold JSON, and an inline segment is one. */
  predicate Acceptable(host: Host, f: Frame) {
    match f
    case Subscription(_, _, _, params, _, state) => OptIsJson(host, params) && OptIsJson(host, state)
    case SegmentInline(segment) => ReadWhole(SegmentCodec.SegmentFormat(host), false, segment).Ok?
    case SubEnd(_, state) => OptIsJson(host, state)
    case ErrorFrame(_, _, _, _, _, details) => OptIsJson(host, details)
    case _ => true
  }

  // ----- What one trip over the wire makes of a frame -------------------------------------------------

  function WireResult(r: OpResult): OpResult { if r.ErrorResult? then r.(details := None) else r }

  function WireResults(rs: seq<OpResult>): seq<OpResult> { seq(|rs|, i requires 0 <= i < |rs| => WireResult(rs[i])) }

  function WireEntry(host: Host, e: DetailsEntry): DetailsEntry {
    match Normalize(host, e.details)
    case Some(d) => e.(details := d)
    case None => e
  }

  function WireEntries(host: Host, es: seq<DetailsEntry>): seq<DetailsEntry> {
    seq(|es|, i requires 0 <= i < |es| => WireEntry(host, es[i]))
  }

  /** Error records lose their details; the details companion is normalized. */
  function WireFrame(host: Host, f: Frame): Frame {
    match f
    case PushResult(id, status, commitSeq, results) => PushResult(id, status, commitSeq, WireResults(results))
    case PushResultDetails(id, entries) => PushResultDetails(id, WireEntries(host, entries))
    case _ => f
  }

  // ----- Texts without a leading byte order mark --------------------------------------------------------

  predicate OptClean(o: Option<string>) { o.Some? ==> Utf8.Clean(o.value) }

  predicate StringsClean(xs: seq<string>) { forall i :: 0 <= i < |xs| ==> Utf8.Clean(xs[i]) }

  predicate ScopesClean(m: ScopeMap) { forall key :: key in m ==> Utf8.Clean(key) && StringsClean(m[key]) }

  predicate MapClean(m: map<string, string>) { forall key :: key in m ==> Utf8.Clean(key) && Utf8.Clean(m[key]) }

  predicate ResultClean(r: OpResult) { !r.AppliedResult? ==> Utf8.Clean(r.code) && Utf8.Clean(r.message) }

  /** No text the frame puts on the wire starts with U+FEFF. */
  predicate FrameClean(host: Host, f: Frame) {
    match f
    case ReqHeader(clientId, _, epoch) => Utf8.Clean(clientId) && OptClean(epoch)
    case PushCommit(commitId, operations) =>
      && Utf8.Clean(commitId)
      && forall i :: 0 <= i < |operations| ==> Utf8.Clean(operations[i].table) && Utf8.Clean(operations[i].rowId)
    case PullHeader(_, _, _, _) => true
    case Subscription(id, table, scopes, params, _, state) =>
      Utf8.Clean(id) && Utf8.Clean(table) && ScopesClean(scopes) && OptClean(params) && OptClean(state)
    case RespHeader(_, _, epoch, _) => OptClean(epoch)
    case Lease(leaseId, _) => Utf8.Clean(leaseId)
    case PushResult(id, _, _, results) => Utf8.Clean(id) && forall i :: 0 <= i < |results| ==> ResultClean(results[i])
    case PushResultDetails(id, entries) =>
      && Utf8.Clean(id)
      && forall i :: 0 <= i < |entries| ==> Normalize(host, entries[i].details).Some? ==>
           Utf8.Clean(host.jsonStringify(Normalize(host, entries[i].details).value))
    case SubStart(id, _, reason, scopes, _) => Utf8.Clean(id) && Utf8.Clean(reason) && ScopesClean(scopes)
    case Commit(_, _, actor, tables, changes) =>
      && Utf8.Clean(actor) && StringsClean(tables)
      && forall i :: 0 <= i < |changes| ==> Utf8.Clean(changes[i].rowId) && MapClean(changes[i].scopes)
    case SegmentRef(id, _, table, _, _, _, digest, cursor, next, url, _) =>
      Utf8.Clean(id) && Utf8.Clean(table) && Utf8.Clean(digest) && OptClean(cursor) && OptClean(next) && OptClean(url)
    case SegmentInline(_) => true
    case SubEnd(_, state) => OptClean(state)
    case ErrorFrame(code, message, category, _, action, details) =>
      Utf8.Clean(code) && Utf8.Clean(message) && Utf8.Clean(category) && Utf8.Clean(action) && OptClean(details)
    case Unknown(_, _) => true
  }

  // ----- The formats' `ok` and `clean`, unfolded ---------------------------------------------------------

  lemma NonEmptyOk(t: string)
    ensures NonEmptyStrFormat().ok(t) <==> t != [] && IsStr(t)
    ensures NonEmptyStrFormat().clean(t) <==> Utf8.Clean(t)
  {
    hide IsStr;
    ViaOk(StrFormat(), CheckNonEmpty, Id, t);
  }

  lemma ReqHeaderOk(host: Host, v: int, f: Frame)
    requires f.ReqHeader?
    ensures v >= 2 ==> (ReqHeaderFormat2().ok(f) <==> Fits(host, v, f))
    ensures v < 2 ==> (ReqHeaderFormat1().ok(f) <==> Fits(host, v, f))
    ensures Fits(host, v, f) ==>
              (FrameClean(host, f) <==> if v >= 2 then ReqHeaderFormat2().clean(f) else ReqHeaderFormat1().clean(f))
  {
    hide IsStr, Utf8.Clean, NonEmptyStrFormat;
    NonEmptyOk(f.clientId);
    ViaOk(I32Format(), CheckSchemaVersion, Id, f.schemaVersion);
    if v >= 2 {
      ViaOk(PairFormat(NonEmptyStrFormat(), PairFormat(SchemaVersionFormat(), OptEpoch())), ToReqHeader2, FromReqHeader2, f);
      if f.epoch.Some? { NonEmptyOk(f.epoch.value); }
    } else {
      ViaOk(PairFormat(NonEmptyStrFormat(), SchemaVersionFormat()), ToReqHeader1, FromReqHeader1, f);
    }
  }

  lemma OperationOk(o: PushOperation)
    ensures OperationFormat().ok(o) <==> OperationFits(o)
    ensures OperationFormat().clean(o) <==> Utf8.Clean(o.table) && Utf8.Clean(o.rowId)
  {
    hide IsStr, Utf8.Clean, IsBytes;
    ViaOk(OperationFields(), ToOperation, FromOperation, o);
    ViaOk(U8Format(), ToOp, OpByte, o.op);
  }

  lemma PushCommitOk(host: Host, v: int, f: Frame)
    requires f.PushCommit?
    ensures PushCommitFormat().ok(f) <==> Fits(host, v, f)
    ensures PushCommitFormat().clean(f) <==> FrameClean(host, f)
  {
    hide IsStr, Utf8.Clean, NonEmptyStrFormat, OperationFormat, OperationFits;
    NonEmptyOk(f.commitId);
    forall i | 0 <= i < |f.operations|
      ensures OperationFormat().ok(f.operations[i]) <==> OperationFits(f.operations[i])
      ensures OperationFormat().clean(f.operations[i]) <==>
                Utf8.Clean(f.operations[i].table) && Utf8.Clean(f.operations[i].rowId)
    {
      OperationOk(f.operations[i]);
    }
    ViaOk(ListFormat(OperationFormat()), CheckNotEmpty, Id, f.operations);
    ViaOk(PairFormat(NonEmptyStrFormat(), OperationsFormat()), ToPushCommit, FromPushCommit, f);
  }

  lemma PullHeaderOk(host: Host, v: int, f: Frame)
    requires f.PullHeader?
    ensures PullHeaderFormat().ok(f) <==> Fits(host, v, f)
    ensures PullHeaderFormat().clean(f) <==> FrameClean(host, f)
  {
    ViaOk(U8Format(), CheckAccept, Id, f.accept);
    ViaOk(PullFields(), ToPullHeader, FromPullHeader, f);
  }

  lemma ScopesOk(m: ScopeMap)
    ensures StringListMap().ok(m) <==> StringListMapFits(m)
    ensures StringListMap().clean(m) <==> ScopesClean(m)
  {
    hide IsStr, Utf8.Clean, MapFormat;
    var g := ListFormat(StrFormat());
    MapOkIff(g, m);
    forall key | key in m
      ensures g.ok(m[key]) <==> StringsFit(m[key])
      ensures g.clean(m[key]) <==> StringsClean(m[key])
    {
    }
  }

  lemma MapOk(m: map<string, string>)
    ensures StringMap().ok(m) <==> StringMapFits(m)
    ensures StringMap().clean(m) <==> MapClean(m)
  {
    hide IsStr, Utf8.Clean, MapFormat;
    MapOkIff(StrFormat(), m);
  }

  lemma OptJsonOk(host: Host, o: Option<string>)
    ensures OptJson(host).ok(o) <==> OptFits(o) && OptIsJson(host, o)
    ensures OptJson(host).clean(o) <==> OptClean(o)
  {
    hide IsStr, Utf8.Clean;
    if o.Some? { ViaOk(StrFormat(), CheckJsonText(host), Id, o.value); }
  }

  lemma SubscriptionOk(host: Host, v: int, f: Frame)
    requires f.Subscription?
    ensures SubscriptionFormat(host).ok(f) <==> Fits(host, v, f) && Acceptable(host, f)
    ensures SubscriptionFormat(host).clean(f) <==> FrameClean(host, f)
  {
    hide IsStr, Utf8.Clean, StringListMap, OptJson, StringListMapFits, ScopesClean;
    ScopesOk(f.scopes);
    OptJsonOk(host, f.params);
    OptJsonOk(host, f.resumeState);
    ViaOk(SubscriptionFields(host), ToSubscription, FromSubscription, f);
  }

  lemma RespHeaderOk(host: Host, v: int, f: Frame)
    requires f.RespHeader?
    ensures v >= 2 ==> (RespHeaderFormat2().ok(f) <==> Fits(host, v, f))
    ensures v < 2 ==> (RespHeaderFormat1().ok(f) <==> Fits(host, v, f))
    ensures Fits(host, v, f) ==>
              (FrameClean(host, f) <==> if v >= 2 then RespHeaderFormat2().clean(f) else RespHeaderFormat1().clean(f))
  {
    hide IsStr, Utf8.Clean, NonEmptyStrFormat;
    if v >= 2 {
      ViaOk(RespFields(), ToRespHeader2, FromRespHeader2, f);
      NonEmptyOk(FromRespHeader2(f).1.1.0);
    } else {
      ViaOk(PairFormat(OptI32(), OptI32()), ToRespHeader1, FromRespHeader1, f);
    }
  }

  lemma LeaseOk(host: Host, v: int, f: Frame)
    requires f.Lease?
    ensures LeaseFormat().ok(f) <==> Fits(host, v, f)
    ensures LeaseFormat().clean(f) <==> FrameClean(host, f)
  {
    hide IsStr, Utf8.Clean, NonEmptyStrFormat;
    NonEmptyOk(f.leaseId);
    ViaOk(PairFormat(NonEmptyStrFormat(), I64Format()), ToLease, FromLease, f);
  }

  lemma ResultOk(r: OpResult)
    ensures ResultFormat().ok(r) <==> ResultFits(r) && WireResult(r) == r
    ensures ResultFormat().clean(r) <==> ResultClean(r)
  {
    hide IsStr, Utf8.Clean, IsBytes;
    ViaOk(DepFormat(RecordHead(), VariantFormat), DropHead, WithHead, r);
    ViaOk(U8Format(), CheckRecordStatus, Id, HeadOf(r).1);
    match r
    case AppliedResult(i) =>
    case ConflictResult(i, _, _, _, _) => ViaOk(ConflictFields(), ToConflict(i), FromConflict, r);
    case ErrorResult(i, _, _, _, _) => ViaOk(ErrorFields(), ToError(i), FromError, r);
  }

  lemma PushResultOk(host: Host, v: int, f: Frame)
    requires f.PushResult?
    ensures PushResultFormat().ok(f) <==> Fits(host, v, f) && WireFrame(host, f) == f
    ensures PushResultFormat().clean(f) <==> FrameClean(host, f)
  {
    hide IsStr, Utf8.Clean, ResultFormat, ResultFits, ResultClean, WireResult;
    forall i | 0 <= i < |f.results|
      ensures ResultFormat().ok(f.results[i]) <==> ResultFits(f.results[i]) && WireResult(f.results[i]) == f.results[i]
      ensures ResultFormat().clean(f.results[i]) <==> ResultClean(f.results[i])
    {
      ResultOk(f.results[i]);
    }
    assert WireResults(f.results) == f.results <==> forall i :: 0 <= i < |f.results| ==> WireResult(f.results[i]) == f.results[i];
    var head := (f.clientCommitId, (f.status, f.commitSeq));
    ViaOk(U8Format(), ToPushStatus, PushStatusByte, f.status);
    ViaOk(PairFormat(StrFormat(), PairFormat(PushStatusFormat(), OptI64())), CheckCommitSeq, Id, head);
    ViaOk(PairFormat(PushResultHead(), ListFormat(ResultFormat())), ToPushResult, FromPushResult, f);
  }

  lemma SubStartOk(host: Host, v: int, f: Frame)
    requires f.SubStart?
    ensures SubStartFormat().ok(f) <==> Fits(host, v, f)
    ensures SubStartFormat().clean(f) <==> FrameClean(host, f)
  {
    hide IsStr, Utf8.Clean, StringListMap, StringListMapFits, ScopesClean;
    ScopesOk(f.effectiveScopes);
    ViaOk(U8Format(), ToSubStatus, SubStatusByte, f.subStatus);
    ViaOk(SubStartFields(), ToSubStart, FromSubStart, f);
  }

  lemma ChangeOk(c: CommitChange, n: int)
    ensures ChangeFormat(n).ok(c) <==> ChangeFits(c, n)
    ensures ChangeFormat(n).clean(c) <==> Utf8.Clean(c.rowId) && MapClean(c.scopes)
  {
    hide IsStr, Utf8.Clean, IsBytes, StringMap, StringMapFits, MapClean;
    MapOk(c.scopes);
    ViaOk(U16Format(), CheckIndex(n), Id, c.tableIndex);
    ViaOk(U8Format(), ToOp, OpByte, c.op);
    ViaOk(ChangeFields(n), ToChange, FromChange, c);
  }

  lemma CommitOk(host: Host, v: int, f: Frame)
    requires f.Commit?
    ensures CommitFormat().ok(f) <==> Fits(host, v, f)
    ensures CommitFormat().clean(f) <==> FrameClean(host, f)
  {
    hide IsStr, Utf8.Clean, ChangeFormat, ChangeFits, MapClean;
    forall i | 0 <= i < |f.changes|
      ensures ChangeFormat(|f.tables|).ok(f.changes[i]) <==> ChangeFits(f.changes[i], |f.tables|)
      ensures ChangeFormat(|f.tables|).clean(f.changes[i]) <==> Utf8.Clean(f.changes[i].rowId) && MapClean(f.changes[i].scopes)
    {
      ChangeOk(f.changes[i], |f.tables|);
    }
    ViaOk(CommitFields(), ToCommit, FromCommit, f);
  }

  lemma RefUrlsOk(f: Frame)
    requires f.SegmentRef?
    ensures var urls := (f.rowCursor, (f.nextRowCursor, (f.url, f.urlExpiresAtMs)));
            && (RefUrlFields().ok(urls) <==> RefUrlsFit(f))
            && (RefUrlFields().clean(urls) <==> OptClean(f.rowCursor) && OptClean(f.nextRowCursor) && OptClean(f.url))
  {
    hide IsStr, Utf8.Clean, IsSafe;
  }

  lemma RefFieldsOk(f: Frame)
    requires f.SegmentRef?
    ensures RefFields().ok(FromSegmentRef(f)) <==>
              IsStr(f.segmentId) && IsStr(f.segmentTable) && IsSafe(f.byteLength) && IsSafe(f.rowCount) && IsSafe(f.asOfCommitSeq)
              && IsStr(f.scopeDigest) && RefUrlsFit(f)
    ensures RefFields().clean(FromSegmentRef(f)) <==>
              Utf8.Clean(f.segmentId) && Utf8.Clean(f.segmentTable) && Utf8.Clean(f.scopeDigest)
              && OptClean(f.rowCursor) && OptClean(f.nextRowCursor) && OptClean(f.url)
  {
    hide IsStr, Utf8.Clean, IsSafe, RefUrlsFit, RefUrlFields, OptClean;
    RefUrlsOk(f);
    ViaOk(U8Format(), ToMediaType, MediaTypeByte, f.mediaType);
  }

  lemma SegmentRefOk(host: Host, v: int, f: Frame)
    requires f.SegmentRef?
    ensures SegmentRefFormat().ok(f) <==> Fits(host, v, f)
    ensures SegmentRefFormat().clean(f) <==> FrameClean(host, f)
  {
    hide IsStr, Utf8.Clean, IsSafe, RefFields, RefUrlsFit, OptClean, Fits;
    FitsByType(host, v, f);
    RefFieldsOk(f);
    ViaOk(RefFields(), ToSegmentRef, FromSegmentRef, f);
  }

  lemma SubEndOk(host: Host, v: int, f: Frame)
    requires f.SubEnd?
    ensures SubEndFormat(host).ok(f) <==> Fits(host, v, f) && Acceptable(host, f)
    ensures SubEndFormat(host).clean(f) <==> FrameClean(host, f)
  {
    hide IsStr, Utf8.Clean, OptJson;
    OptJsonOk(host, f.bootstrapState);
    ViaOk(PairFormat(I64Format(), OptJson(host)), ToSubEnd, FromSubEnd, f);
  }

  lemma ErrorFrameOk(host: Host, v: int, f: Frame)
    requires f.ErrorFrame?
    ensures ErrorFrameFormat(host).ok(f) <==> Fits(host, v, f) && Acceptable(host, f)
    ensures ErrorFrameFormat(host).clean(f) <==> FrameClean(host, f)
  {
    hide IsStr, Utf8.Clean, OptJson;
    OptJsonOk(host, f.details);
    ViaOk(ErrorFrameFields(host), ToErrorFrame, FromErrorFrame, f);
  }

  /** The values of a layout are the frames the encoder and the decoder agree on. */
  lemma PayloadOk(host: Host, v: int, f: Frame)
    requires !f.Unknown? && HasLayout(FrameType(f))
    ensures PayloadFormat(host, v, FrameType(f)).ok(f) <==> Fits(host, v, f) && Acceptable(host, f) && WireFrame(host, f) == f
    ensures PayloadFormat(host, v, FrameType(f)).ok(f) ==> (PayloadFormat(host, v, FrameType(f)).clean(f) <==> FrameClean(host, f))
  {
    hide ReqHeaderFormat1, ReqHeaderFormat2, PushCommitFormat, PullHeaderFormat, SubscriptionFormat, Fits, FrameClean;
    hide RespHeaderFormat1, RespHeaderFormat2, PushResultFormat, SubStartFormat, CommitFormat, SegmentRefFormat;
    hide SubEndFormat, LeaseFormat, ErrorFrameFormat;
    match f
    case ReqHeader(_, _, _) => ReqHeaderOk(host, v, f);
    case PushCommit(_, _) => PushCommitOk(host, v, f);
    case PullHeader(_, _, _, _) => PullHeaderOk(host, v, f);
    case Subscription(_, _, _, _, _, _) => SubscriptionOk(host, v, f);
    case RespHeader(_, _, _, _) => RespHeaderOk(host, v, f);
    case Lease(_, _) => LeaseOk(host, v, f);
    case PushResult(_, _, _, _) => PushResultOk(host, v, f);
    case SubStart(_, _, _, _, _) => SubStartOk(host, v, f);
    case Commit(_, _, _, _, _) => CommitOk(host, v, f);
    case SegmentRef(_, _, _, _, _, _, _, _, _, _, _) => SegmentRefOk(host, v, f);
    case SubEnd(_, _) => SubEndOk(host, v, f);
    case ErrorFrame(_, _, _, _, _, _) => ErrorFrameOk(host, v, f);
  }
}
