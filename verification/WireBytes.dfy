/** Where the byte of every enumeration stands in a payload, and which byte it is. */
module WireBytes {
  import opened Results
  import opened Hosts
  import opened Formats
  import opened Messages
  import opened FrameFormats
  import opened FrameRules
  import FrameEncoder
  import FrameDecoder
  import FrameLaws
  import DetailsCodec
  import Utf8
  import W = WireLayout
  import WireContract

  /** The bytes before a list's item, the item, and those behind it. */
  lemma {:induction false} EachAt<T>(bytesOf: T -> bytes, xs: seq<T>, i: nat)
    requires i < |xs|
    ensures W.Each(bytesOf, xs) == W.Each(bytesOf, xs[..i]) + bytesOf(xs[i]) + W.Each(bytesOf, xs[i + 1..])
  {
    if i == 0 {
      assert xs[..0] == [];
    } else {
      EachAt(bytesOf, xs[1..], i - 1);
      assert xs[1..][..i - 1] == xs[..i][1..] && xs[1..][i..] == xs[i + 1..];
    }
  }

  lemma ByteAt(before: bytes, item: bytes, after: bytes, j: nat)
    requires j < |item|
    ensures (before + item + after)[|before| + j] == item[j]
  {
  }

  lemma TextSize(t: string)
    ensures |W.Text(t)| == 4 + |Utf8.Encode(t)|
  {
  }

  lemma OptI64Size(o: Option<int>)
    ensures |W.Opt(W.I64, o)| == if o.Some? then 9 else 1
  {
  }

  lemma OperationOp(o: PushOperation)
    ensures var i := 8 + |Utf8.Encode(o.table)| + |Utf8.Encode(o.rowId)|;
            i < |W.Operation(o)| && W.Operation(o)[i] == if o.op.Upsert? then 1 else 2
  {
    hide W.Text, W.Opt;
    TextSize(o.table);
    TextSize(o.rowId);
    var op: bytes := [if o.op.Upsert? then 1 else 2];
    ByteAt(W.Text(o.table) + W.Text(o.rowId), op, W.Opt(W.I64, o.baseVersion) + W.Opt(W.Blob, o.payload), 0);
  }

  lemma ChangeOp(c: CommitChange)
    ensures var i := 6 + |Utf8.Encode(c.rowId)|; i < |W.Change(c)| && W.Change(c)[i] == if c.op.Upsert? then 1 else 2
  {
    hide W.Text, W.Opt, W.Labels;
    TextSize(c.rowId);
    var op: bytes := [if c.op.Upsert? then 1 else 2];
    ByteAt(W.Digits(c.tableIndex, 2) + W.Text(c.rowId), op, W.Opt(W.I64, c.rowVersion) + W.Labels(c.scopes) + W.Opt(W.Blob, c.row), 0);
  }

  lemma ResultStatus(r: OpResult)
    ensures |W.Outcomes(r)| > 4
    ensures W.Outcomes(r)[4] == match r case AppliedResult(_) => 1 case ConflictResult(_, _, _, _, _) => 2 case ErrorResult(_, _, _, _, _) => 3
  {
    hide W.Text, W.Blob, W.Digits;
    assert |W.I32(r.opIndex)| == 4;
  }

  /** An upsert is the byte 1 and a delete the byte 2, behind the table and the row id. */
  lemma OperationByte(o: PushOperation, k: bytes)
    ensures var b, i := Put(OperationFormat(), o, k), 8 + |Utf8.Encode(o.table)| + |Utf8.Encode(o.rowId)|;
            i < |b| && b[i] == if o.op.Upsert? then 1 else 2
  {
    hide W.Operation, OperationFormat;
    WireContract.OperationBytes(o, k);
    OperationOp(o);
  }

  lemma ChangeByte(tables: int, c: CommitChange, k: bytes)
    ensures var b, i := Put(ChangeFormat(tables), c, k), 6 + |Utf8.Encode(c.rowId)|;
            i < |b| && b[i] == if c.op.Upsert? then 1 else 2
  {
    hide W.Change, ChangeFormat;
    WireContract.ChangeBytes(tables, c, k);
    ChangeOp(c);
  }

  /** In the payload of a push commit, for each of its operations. */
  lemma PushCommitByte(host: Host, v: int, f: Frame, i: nat)
    requires f.PushCommit? && Fits(host, v, f) && i < |f.operations|
    ensures var o := f.operations[i];
            var at := 8 + |Utf8.Encode(f.commitId)| + |W.Each(W.Operation, f.operations[..i])|
                      + 8 + |Utf8.Encode(o.table)| + |Utf8.Encode(o.rowId)|;
            var p := FrameEncoder.Payload(host, v, f);
            at < |p| && p[at] == if o.op.Upsert? then 1 else 2
  {
    hide W.Operation, W.Each, W.Text, FrameEncoder.Payload, Fits, W.Digits;
    WireContract.PayloadBytes(host, v, f);
    TextSize(f.commitId);
    OperationOp(f.operations[i]);
    EachAt(W.Operation, f.operations, i);
    var o := f.operations[i];
    var before := W.Text(f.commitId) + W.U32(|f.operations|) + W.Each(W.Operation, f.operations[..i]);
    var after := W.Each(W.Operation, f.operations[i + 1..]);
    assert W.Layout(host, v, f) == before + W.Operation(o) + after;
    ByteAt(before, W.Operation(o), after, 8 + |Utf8.Encode(o.table)| + |Utf8.Encode(o.rowId)|);
  }

  /** In the payload of a push result: its status, and the status of each of its records. */
  lemma PushResultByte(host: Host, v: int, f: Frame)
    requires f.PushResult? && Fits(host, v, f)
    ensures var p, at := FrameEncoder.Payload(host, v, f), 4 + |Utf8.Encode(f.clientCommitId)|;
            at < |p| && p[at] == match f.status case Applied => 1 case Cached => 2 case Rejected => 3
  {
    hide W.Text, W.Opt, W.List, FrameEncoder.Payload, Fits;
    WireContract.PayloadBytes(host, v, f);
    TextSize(f.clientCommitId);
  }

  lemma RecordByte(host: Host, v: int, f: Frame, i: nat)
    requires f.PushResult? && Fits(host, v, f) && i < |f.results|
    ensures var at := 4 + |Utf8.Encode(f.clientCommitId)| + 1 + (if f.commitSeq.Some? then 9 else 1) + 4
                      + |W.Each(W.Outcomes, f.results[..i])| + 4;
            var p := FrameEncoder.Payload(host, v, f);
            && at < |p|
            && p[at] == match f.results[i]
                        case AppliedResult(_) => 1
                        case ConflictResult(_, _, _, _, _) => 2
                        case ErrorResult(_, _, _, _, _) => 3
  {
    hide W.Text, W.Opt, W.Each, W.Outcomes, W.Digits, FrameEncoder.Payload, Fits;
    WireContract.PayloadBytes(host, v, f);
    TextSize(f.clientCommitId);
    OptI64Size(f.commitSeq);
    ResultStatus(f.results[i]);
    EachAt(W.Outcomes, f.results, i);
    var status: bytes := [match f.status case Applied => 1 case Cached => 2 case Rejected => 3];
    var before := W.Text(f.clientCommitId) + status + W.Opt(W.I64, f.commitSeq) + W.U32(|f.results|) + W.Each(W.Outcomes, f.results[..i]);
    var after := W.Each(W.Outcomes, f.results[i + 1..]);
    assert W.Layout(host, v, f) == before + W.Outcomes(f.results[i]) + after;
    ByteAt(before, W.Outcomes(f.results[i]), after, 4);
  }

  lemma SubStartByte(host: Host, v: int, f: Frame)
    requires f.SubStart? && Fits(host, v, f)
    ensures var p, at := FrameEncoder.Payload(host, v, f), 4 + |Utf8.Encode(f.subId)|;
            at < |p| && p[at] == match f.subStatus case Active => 1 case Revoked => 2 case Reset => 3
  {
    hide W.Text, W.Scopes, FrameEncoder.Payload, Fits;
    WireContract.PayloadBytes(host, v, f);
    TextSize(f.subId);
  }

  lemma SegmentRefByte(host: Host, v: int, f: Frame)
    requires f.SegmentRef? && Fits(host, v, f)
    ensures var p, at := FrameEncoder.Payload(host, v, f), 4 + |Utf8.Encode(f.segmentId)|;
            at < |p| && p[at] == match f.mediaType case Rows => 1 case Sqlite => 2
  {
    hide W.Text, W.I64, W.RefUrls, FrameEncoder.Payload, Fits;
    WireContract.PayloadBytes(host, v, f);
    TextSize(f.segmentId);
  }

  /** The types decoded as frames of their own are the tags of the registry; every other byte is left to extensions. There are two versions. */
  lemma KnownTypes(t: int)
    ensures IsRequestType(t) <==> t in [1, 2, 3, 4]
    ensures IsResponseType(t) <==> t in [16, 17, 18, 19, 20, 21, 22, 25, 27, 31]
    ensures IsSupported(t) <==> t in [1, 2]
    ensures IsKnownType(t) <==> t == 0 || t in [1, 2, 3, 4] || t in [16, 17, 18, 19, 20, 21, 22, 25, 27, 31]
  {
  }

  lemma KnownTags(f: Frame)
    ensures !f.Unknown? ==> W.Tag(f) != 0 && IsKnownType(W.Tag(f))
  {
  }

  /** The decoder reads a laid out frame back from its tag and its bytes. */
  lemma DecodesLayout(host: Host, kind: MsgKind, v: int, f: Frame)
    requires FrameOfKind(kind, f) && Fits(host, v, f) && Acceptable(host, f) && FrameClean(host, f)
    requires f.PushResultDetails? ==> DetailsCodec.PrintsFaithfully(host)
    ensures FrameDecoder.DecodePayload(host, false, kind, v, W.Tag(f), W.Layout(host, v, f)) == Ok(WireFrame(host, f))
  {
    hide W.Layout, W.Tag, FrameType, FrameEncoder.Payload, Fits, Acceptable, FrameClean, FrameDecoder.DecodePayload, WireFrame;
    hide DetailsCodec.PrintsFaithfully;
    WireContract.PayloadBytes(host, v, f);
    FrameLaws.FrameRoundTrip(host, kind, v, f);
  }
}
