/** `encodeFrame` as a whole (packages/core/src/message.ts:854-1101). */
module FrameEncoder {
  import opened Results
  import opened Hosts
  import opened Primitives
  import opened Formats
  import opened Messages
  import opened FrameFormats
  import opened FrameRules
  import opened FrameWriter
  import opened DetailsCodec
  import opened ByteIO

  /** The bytes a frame puts behind its type and length. */
  ghost function Payload(host: Host, wireVersion: int, f: Frame): bytes {
    match f
    case SegmentInline(segment) => segment
    case Unknown(_, payload) => payload
    case PushResultDetails(_, _) => Put(RawDetailsFormat(), RawOf(host, f), [])
    case _ => Put(PayloadFormat(host, wireVersion, FrameType(f)), f, [])
  }

  lemma SameAtEveryVersion(host: Host, v: int, f: Frame)
    requires !f.ReqHeader? && !f.RespHeader?
    ensures Fits(host, 0, f) <==> Fits(host, v, f)
  {
    hide SubscriptionFits, PushResultFits, SubStartFits, SegmentRefFits, ErrorFrameFits;
    hide IsStr, OperationFits, ResultFits, ChangeFits, EntryFits, StringListMapFits, StringsFit, DistinctIndexes, OptFits, OptSafe;
  }

  /** The field-by-field layout of every frame. */
  ghost function PutFrame(host: Host, v: int, f: Frame, k: bytes): bytes {
    match f
    case ReqHeader(_, _, _) => PutReqHeader(v, f, k)
    case PushCommit(_, _) => PutPushCommit(f, k)
    case PullHeader(_, _, _, _) => PutPullHeader(f, k)
    case Subscription(_, _, _, _, _, _) => PutSubscription(f, k)
    case RespHeader(_, _, epoch, reset) => if v >= 2 ==> epoch.Some? && reset.Some? then PutRespHeader(v, f, k) else k
    case Lease(_, _) => PutLease(f, k)
    case PushResult(_, _, _, _) => PutPushResult(f, k)
    case PushResultDetails(_, _) => PutDetails(host, f, k)
    case SubStart(_, _, _, _, _) => PutSubStart(f, k)
    case Commit(_, _, _, _, _) => PutCommit(f, k)
    case SegmentRef(_, _, _, _, _, _, _, _, _, _, _) => PutSegmentRef(f, k)
    case SubEnd(_, _) => PutSubEnd(f, k)
    case ErrorFrame(_, _, _, _, _, _) => PutErrorFrame(f, k)
    case SegmentInline(segment) => PutRaw(segment, k)
    case Unknown(_, payload) => PutRaw(payload, k)
  }

  lemma FramePut(host: Host, v: int, f: Frame)
    requires f.RespHeader? && v >= 2 ==> f.logEpoch.Some? && f.resetRequired.Some?
    ensures PutFrame(host, v, f, []) == Payload(host, v, f)
  {
    hide PutReqHeader, PutPushCommit, PutPullHeader, PutSubscription, PutRespHeader, PutLease, PutPushResult, PutDetails;
    hide PutSubStart, PutCommit, PutSegmentRef, PutSubEnd, PutErrorFrame, Put, RawDetailsFormat, RawOf;
    hide ReqHeaderFormat1, ReqHeaderFormat2, PushCommitFormat, PullHeaderFormat, SubscriptionFormat;
    hide RespHeaderFormat1, RespHeaderFormat2, PushResultFormat, SubStartFormat, CommitFormat, SegmentRefFormat;
    hide SubEndFormat, LeaseFormat, ErrorFrameFormat;
    match f
    case ReqHeader(_, _, _) => ReqHeaderPut(v, f, []);
    case PushCommit(_, _) => PushCommitPut(f, []);
    case PullHeader(_, _, _, _) => PullHeaderPut(f, []);
    case Subscription(_, _, _, _, _, _) => SubscriptionPut(host, f, []);
    case RespHeader(_, _, _, _) => RespHeaderPut(v, f, []);
    case Lease(_, _) => LeasePut(f, []);
    case PushResult(_, _, _, _) => PushResultPut(f, []);
    case PushResultDetails(_, _) => DetailsPut(host, f, []);
    case SubStart(_, _, _, _, _) => SubStartPut(f, []);
    case Commit(_, _, _, _, _) => CommitPut(f, []);
    case SegmentRef(_, _, _, _, _, _, _, _, _, _, _) => SegmentRefPut(f, []);
    case SubEnd(_, _) => SubEndPut(host, f, []);
    case ErrorFrame(_, _, _, _, _, _) => ErrorFramePut(host, f, []);
    case SegmentInline(segment) => assert segment + [] == segment;
    case Unknown(_, payload) => assert payload + [] == payload;
  }

  lemma EpochsPresent(host: Host, v: int, f: Frame)
    requires Fits(host, v, f)
    ensures f.RespHeader? && v >= 2 ==> f.logEpoch.Some? && f.resetRequired.Some?
  {
  }

  /** The switch over the frame types. */
  method WriteFrame(w: ByteWriter, host: Host, v: int, f: Frame) returns (o: Outcome)
    requires w.Valid()
    modifies w, w.buffer
    ensures w.Valid() && (w.buffer == old(w.buffer) || fresh(w.buffer))
    ensures o.Pass? <==> Fits(host, v, f)
    ensures o.Pass? ==> forall k: bytes :: w.Then(k) == old(w.Then(PutFrame(host, v, f, k)))
  {
    hide PutReqHeader, PutPushCommit, PutPullHeader, PutSubscription, PutRespHeader, PutLease, PutPushResult, PutDetails;
    hide PutSubStart, PutCommit, PutSegmentRef, PutSubEnd, PutErrorFrame, Put, PutRaw, ByteWriter.Then, Fits;
    if !f.ReqHeader? && !f.RespHeader? { SameAtEveryVersion(host, v, f); }
    match f
    case ReqHeader(_, _, _) => o := WriteReqHeader(w, v, f, host);
    case PushCommit(_, _) => o := WritePushCommit(w, f, host);
    case PullHeader(_, _, _, _) => o := WritePullHeader(w, f, host);
    case Subscription(_, _, _, _, _, _) => o := WriteSubscription(w, f, host);
    case RespHeader(_, _, _, _) => o := WriteRespHeader(w, v, f, host);
    case Lease(_, _) => o := WriteLease(w, f, host);
    case PushResult(_, _, _, _) => o := WritePushResult(w, f, host);
    case PushResultDetails(_, _) => o := WriteDetails(w, host, f);
    case SubStart(_, _, _, _, _) => o := WriteSubStart(w, f, host);
    case Commit(_, _, _, _, _) => o := WriteCommit(w, f, host);
    case SegmentRef(_, _, _, _, _, _, _, _, _, _, _) => o := WriteSegmentRef(w, f, host);
    case SubEnd(_, _) => o := WriteSubEnd(w, f, host);
    case ErrorFrame(_, _, _, _, _, _) => o := WriteErrorFrame(w, f, host);
    case SegmentInline(segment) =>
      w.Raw(segment);
      OpaqueFits(host, v, f);
      o := Pass;
    case Unknown(t, payload) =>
      OpaqueFits(host, v, f);
      if t < 0 || t > 0xFF || IsKnownType(t) { return Refused; }
      w.Raw(payload);
      o := Pass;
  }

  lemma OpaqueFits(host: Host, v: int, f: Frame)
    ensures f.SegmentInline? ==> Fits(host, v, f)
    ensures f.Unknown? ==> (Fits(host, v, f) <==> 0 <= f.frameType <= 0xFF && !IsKnownType(f.frameType))
  {
  }

  /** Throws exactly on frames that do not fit; otherwise returns the type and the payload. */
  method EncodeFrame(host: Host, v: int, f: Frame) returns (r: Option<(int, bytes)>)
    ensures r.Some? <==> Fits(host, v, f)
    ensures r.Some? ==> r.value == (FrameType(f), Payload(host, v, f))
  {
    hide PutFrame, Payload, Fits, ByteWriter.Then;
    var w := new ByteWriter();
    var o := WriteFrame(w, host, v, f);
    if o.Refused? { return None; }
    EpochsPresent(host, v, f);
    FramePut(host, v, f);
    var payload := w.Finish();
    return Some((FrameType(f), payload));
  }
}
