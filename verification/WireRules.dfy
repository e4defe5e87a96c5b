/**
 * What `encodeFrame` refuses, spelled out (packages/core/src/message.ts:854-1101, packages/core/src/bytes.ts:43-115):
 * the presence rules of each frame and the ranges of its fields, in numbers.
 */
module WireRules {
  import opened Results
  import opened Hosts
  import opened Messages
  import opened FrameRules
  import ByteIO
  import RejectionDetails
  import Utf8

  predicate Text(t: string) { |Utf8.Encode(t)| <= 0xFFFF_FFFF }

  predicate OptText(o: Option<string>) { o == None || Text(o.value) }

  predicate Blob(o: Option<bytes>) { o == None || |o.value| <= 0xFFFF_FFFF }

  predicate I32(n: int) { -0x8000_0000 <= n <= 0x7FFF_FFFF }

  predicate I64(n: int) { -0x1F_FFFF_FFFF_FFFF <= n <= 0x1F_FFFF_FFFF_FFFF }

  predicate OptI64(o: Option<int>) { o == None || I64(o.value) }

  predicate Scopes(m: ScopeMap) {
    && |m| <= 0xFFFF_FFFF
    && forall key :: key in m ==> Text(key) && |m[key]| <= 0xFFFF_FFFF && forall i :: 0 <= i < |m[key]| ==> Text(m[key][i])
  }

  predicate Labels(m: map<string, string>) {
    |m| <= 0xFFFF_FFFF && forall key :: key in m ==> Text(key) && Text(m[key])
  }

  /** An upsert carries a payload and a delete does not. */
  predicate Operation(o: PushOperation) {
    && Text(o.table) && Text(o.rowId) && OptI64(o.baseVersion) && Blob(o.payload)
    && match o.op
       case Upsert => o.payload != None
       case Delete => o.payload == None
  }

  /** An upsert carries a version and a row, a delete neither; the table is one of those listed. */
  predicate Change(c: CommitChange, tables: nat) {
    && 0 <= c.tableIndex <= 0xFFFF && c.tableIndex < tables && Text(c.rowId) && OptI64(c.rowVersion) && Labels(c.scopes) && Blob(c.row)
    && match c.op
       case Upsert => c.rowVersion != None && c.row != None
       case Delete => c.rowVersion == None && c.row == None
  }

  predicate Record(r: OpResult) {
    match r
    case AppliedResult(i) => I32(i)
    case ConflictResult(i, code, message, version, row) => I32(i) && Text(code) && Text(message) && I64(version) && |row| <= 0xFFFF_FFFF
    case ErrorResult(i, code, message, _, _) => I32(i) && Text(code) && Text(message)
  }

  predicate Entry(host: Host, e: DetailsEntry) {
    var d := RejectionDetails.Normalize(host, e.details);
    0 <= e.opIndex <= 0x7FFF_FFFF && d != None && Text(host.jsonStringify(d.value))
  }

  predicate Rule(host: Host, v: int, f: Frame) {
    match f
    case ReqHeader(clientId, schemaVersion, epoch) =>
      && clientId != "" && Text(clientId) && 1 <= schemaVersion <= 0x7FFF_FFFF
      && (if v >= 2 then epoch != Some("") && OptText(epoch) else epoch == None)
    case PushCommit(commitId, operations) =>
      && commitId != "" && Text(commitId) && 1 <= |operations| <= 0xFFFF_FFFF
      && forall i :: 0 <= i < |operations| ==> Operation(operations[i])
    case PullHeader(commits, rows, pages, accept) => I32(commits) && I32(rows) && I32(pages) && 0 <= accept <= 0x0F
    case Subscription(id, table, scopes, params, cursor, state) =>
      Text(id) && Text(table) && Scopes(scopes) && OptText(params) && I64(cursor) && OptText(state)
    case RespHeader(required, latest, epoch, reset) =>
      && (required == None || I32(required.value)) && (latest == None || I32(latest.value))
      && (if v >= 2 then epoch != None && epoch != Some("") && OptText(epoch) && reset != None else epoch == None && reset == None)
    case Lease(leaseId, expires) => leaseId != "" && Text(leaseId) && I64(expires)
    case PushResult(id, status, commitSeq, results) =>
      && Text(id) && |results| <= 0xFFFF_FFFF && (forall i :: 0 <= i < |results| ==> Record(results[i]))
      && (if status == Rejected then commitSeq == None else commitSeq != None && I64(commitSeq.value))
    case PushResultDetails(id, entries) =>
      && id != "" && Text(id) && 1 <= |entries| <= 0xFFFF_FFFF && (forall i :: 0 <= i < |entries| ==> Entry(host, entries[i]))
      && forall i, j :: 0 <= i < j < |entries| ==> entries[i].opIndex != entries[j].opIndex
    case SubStart(id, _, reason, scopes, _) => Text(id) && Text(reason) && Scopes(scopes)
    case Commit(seqNo, created, actor, tables, changes) =>
      && I64(seqNo) && I64(created) && Text(actor) && |tables| <= 0xFFFF_FFFF && (forall i :: 0 <= i < |tables| ==> Text(tables[i]))
      && |changes| <= 0xFFFF_FFFF && forall i :: 0 <= i < |changes| ==> Change(changes[i], |tables|)
    case SegmentRef(id, _, table, size, rows, asOf, digest, cursor, next, url, expires) =>
      && Text(id) && Text(table) && I64(size) && I64(rows) && I64(asOf) && Text(digest) && OptText(cursor) && OptText(next)
      && (if url == None then expires == None else Text(url.value) && expires != None && I64(expires.value))
    case SegmentInline(_) => true
    case SubEnd(next, state) => I64(next) && OptText(state)
    case ErrorFrame(code, message, category, _, action, details) =>
      Text(code) && Text(message) && Text(category) && Text(action) && OptText(details)
    case Unknown(t, _) => 0 < t <= 0xFF && t !in [1, 2, 3, 4, 16, 17, 18, 19, 20, 21, 22, 25, 27, 31]
  }

  lemma OperationMeans(o: PushOperation)
    ensures OperationFits(o) <==> Operation(o)
  {
    hide Utf8.Encode;
  }

  lemma ChangeMeans(c: CommitChange, tables: nat)
    ensures ChangeFits(c, tables) <==> Change(c, tables)
  {
    hide Utf8.Encode;
  }

  lemma RecordMeans(r: OpResult)
    ensures ResultFits(r) <==> Record(r)
  {
    hide Utf8.Encode;
  }

  lemma EntryMeans(host: Host, e: DetailsEntry)
    ensures EntryFits(host, e) <==> Entry(host, e)
  {
    hide Utf8.Encode, RejectionDetails.Normalize;
  }

  lemma ScopesMean(m: ScopeMap)
    ensures ByteIO.StringListMapFits(m) <==> Scopes(m)
  {
    hide Utf8.Encode;
  }

  lemma RequestMeans(host: Host, v: int, f: Frame)
    requires f.ReqHeader? || f.PullHeader? || f.Subscription?
    ensures Fits(host, v, f) <==> Rule(host, v, f)
  {
    hide Utf8.Encode, OperationFits, Operation, ChangeFits, Change, ResultFits, Record, EntryFits, Entry, ByteIO.StringListMapFits, Scopes;
    if f.Subscription? { ScopesMean(f.scopes); }
  }

  lemma PushCommitMeans(host: Host, v: int, f: Frame)
    requires f.PushCommit?
    ensures Fits(host, v, f) <==> Rule(host, v, f)
  {
    hide Utf8.Encode, OperationFits, Operation, ChangeFits, Change, ResultFits, Record, EntryFits, Entry, ByteIO.StringListMapFits, Scopes;
    forall i | 0 <= i < |f.operations| ensures OperationFits(f.operations[i]) <==> Operation(f.operations[i]) { OperationMeans(f.operations[i]); }
  }

  lemma PushResultMeans(host: Host, v: int, f: Frame)
    requires f.PushResult?
    ensures Fits(host, v, f) <==> Rule(host, v, f)
  {
    hide Utf8.Encode, OperationFits, Operation, ChangeFits, Change, ResultFits, Record, EntryFits, Entry, ByteIO.StringListMapFits, Scopes;
    forall i | 0 <= i < |f.results| ensures ResultFits(f.results[i]) <==> Record(f.results[i]) { RecordMeans(f.results[i]); }
  }

  lemma DetailsMeans(host: Host, v: int, f: Frame)
    requires f.PushResultDetails?
    ensures Fits(host, v, f) <==> Rule(host, v, f)
  {
    hide Utf8.Encode, OperationFits, Operation, ChangeFits, Change, ResultFits, Record, EntryFits, Entry, ByteIO.StringListMapFits, Scopes;
    forall i | 0 <= i < |f.entries| ensures EntryFits(host, f.entries[i]) <==> Entry(host, f.entries[i]) { EntryMeans(host, f.entries[i]); }
  }

  lemma CommitMeans(host: Host, v: int, f: Frame)
    requires f.Commit?
    ensures Fits(host, v, f) <==> Rule(host, v, f)
  {
    hide Utf8.Encode, OperationFits, Operation, ChangeFits, Change, ResultFits, Record, EntryFits, Entry, ByteIO.StringListMapFits, Scopes;
    forall i | 0 <= i < |f.changes|
      ensures ChangeFits(f.changes[i], |f.tables|) <==> Change(f.changes[i], |f.tables|)
    {
      ChangeMeans(f.changes[i], |f.tables|);
    }
  }

  lemma SectionMeans(host: Host, v: int, f: Frame)
    requires f.SubStart? || f.SegmentRef? || f.SegmentInline? || f.SubEnd?
    ensures Fits(host, v, f) <==> Rule(host, v, f)
  {
    hide Utf8.Encode, OperationFits, Operation, ChangeFits, Change, ResultFits, Record, EntryFits, Entry, ByteIO.StringListMapFits, Scopes;
    if f.SubStart? { ScopesMean(f.effectiveScopes); }
  }

  lemma OtherMeans(host: Host, v: int, f: Frame)
    requires f.RespHeader? || f.Lease? || f.ErrorFrame? || f.Unknown?
    ensures Fits(host, v, f) <==> Rule(host, v, f)
  {
    hide Utf8.Encode, OperationFits, Operation, ChangeFits, Change, ResultFits, Record, EntryFits, Entry, ByteIO.StringListMapFits, Scopes;
  }

  /** The encoder accepts a frame exactly when it meets the rule of its type. */
  lemma FitsMeans(host: Host, v: int, f: Frame)
    ensures Fits(host, v, f) <==> Rule(host, v, f)
  {
    hide Fits, Rule;
    match f
    case ReqHeader(_, _, _) => RequestMeans(host, v, f);
    case PullHeader(_, _, _, _) => RequestMeans(host, v, f);
    case Subscription(_, _, _, _, _, _) => RequestMeans(host, v, f);
    case PushCommit(_, _) => PushCommitMeans(host, v, f);
    case PushResult(_, _, _, _) => PushResultMeans(host, v, f);
    case PushResultDetails(_, _) => DetailsMeans(host, v, f);
    case Commit(_, _, _, _, _) => CommitMeans(host, v, f);
    case SubStart(_, _, _, _, _) => SectionMeans(host, v, f);
    case SegmentRef(_, _, _, _, _, _, _, _, _, _, _) => SectionMeans(host, v, f);
    case SegmentInline(_) => SectionMeans(host, v, f);
    case SubEnd(_, _) => SectionMeans(host, v, f);
    case _ => OtherMeans(host, v, f);
  }
}
