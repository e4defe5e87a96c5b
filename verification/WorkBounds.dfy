/**
 * Decoding takes time bounded by the input, whatever the counts in it claim: a counted loop stops at
 * the first item that fails, and every item before it used up a fixed number of bytes.
 */
module WorkBounds {
  import opened Results
  import opened Hosts
  import opened Primitives
  import opened Formats
  import opened Messages
  import opened FrameFormats
  import opened FrameDecoder
  import opened Envelope
  import opened ByteIO
  import opened LoopTurns
  import opened SegmentIO
  import opened RowCodec
  import SegmentCodec
  import DetailsCodec

  /** Operations of a push commit: eleven bytes each. */
  lemma OperationTurns(host: Host, n: nat, s: bytes)
    ensures Turns(OperationFormat(), false, n, s) * 11 <= |s| + 11
    ensures ReadAll(OperationFormat(), false, n, s).Parsed? ==> n * 11 <= |s|
  {
    hide OperationFormat;
    OperationLawful(host);
    TurnsBounded(OperationFormat(), 11, false, n, s);
  }

  /** Changes of a commit: thirteen bytes each. */
  lemma ChangeTurns(host: Host, tables: nat, n: nat, s: bytes)
    ensures Turns(ChangeFormat(tables), false, n, s) * 13 <= |s| + 13
    ensures ReadAll(ChangeFormat(tables), false, n, s).Parsed? ==> n * 13 <= |s|
  {
    hide ChangeFormat;
    ChangeLawful(host, tables);
    TurnsBounded(ChangeFormat(tables), 13, false, n, s);
  }

  /** Records of a push result: five bytes each. */
  lemma ResultTurns(host: Host, n: nat, s: bytes)
    ensures Turns(ResultFormat(), false, n, s) * 5 <= |s| + 5
    ensures ReadAll(ResultFormat(), false, n, s).Parsed? ==> n * 5 <= |s|
  {
    hide ResultFormat;
    ResultLawful(host);
    TurnsBounded(ResultFormat(), 5, false, n, s);
  }

  /** Entries of either kind of map: eight bytes each. */
  lemma MapEntryTurns(n: nat, s: bytes)
    ensures Turns(StrEntryFormat(), false, n, s) * 8 <= |s| + 8
    ensures ReadAll(StrEntryFormat(), false, n, s).Parsed? ==> n * 8 <= |s|
    ensures Turns(ListEntryFormat(), false, n, s) * 8 <= |s| + 8
    ensures ReadAll(ListEntryFormat(), false, n, s).Parsed? ==> n * 8 <= |s|
  {
    hide StrFormat, PairFormat, ListFormat;
    StrLawful();
    PairLawful(StrFormat(), 4, StrFormat(), 4);
    TurnsBounded(StrEntryFormat(), 8, false, n, s);
    ListLawful(StrFormat(), 4);
    PairLawful(StrFormat(), 4, ListFormat(StrFormat()), 4);
    TurnsBounded(ListEntryFormat(), 8, false, n, s);
  }

  /** Rows of a segment block: eight bytes each, for every table. */
  lemma RowTurns(host: Host, shape: Shape, n: nat, s: bytes)
    ensures Turns(SegmentCodec.SegmentRowFormat(host, shape), false, n, s) * 8 <= |s| + 8
    ensures ReadAll(SegmentCodec.SegmentRowFormat(host, shape), false, n, s).Parsed? ==> n * 8 <= |s|
  {
    hide SegmentCodec.SegmentRowFormat;
    SegmentCodec.SegmentRowLawful(host, shape);
    TurnsBounded(SegmentCodec.SegmentRowFormat(host, shape), 8, false, n, s);
  }

  /** Blocks of a segment: eight bytes each, and the four of the terminator. */
  lemma {:induction false} BlockTurnsBounded(host: Host, shape: Shape, s: bytes)
    ensures BlockTurns(host, shape, s) * 8 <= |s| + 8
    decreases |s|
  {
    hide SegmentCodec.BlockFormat, ReadU32;
    U32Size(0, [], s);
    if ReadU32(s).Parsed? && ReadU32(s).value != 0 {
      var n, s1 := ReadU32(s).value, ReadU32(s).rest;
      U32Exact(s);
      if SegmentCodec.BlockFormat(host, shape, n).read(false, s1).Parsed? {
        SegmentCodec.BlockProgress(host, shape, n, false, s1);
        BlockTurnsBounded(host, shape, SegmentCodec.BlockFormat(host, shape, n).read(false, s1).rest);
      }
    }
  }

  /** Columns of a segment: six bytes each. */
  lemma ColumnTurns(n: nat, s: bytes)
    ensures Turns(SegmentCodec.ColumnFormat(), false, n, s) * 6 <= |s| + 6
    ensures ReadAll(SegmentCodec.ColumnFormat(), false, n, s).Parsed? ==> n * 6 <= |s|
  {
    hide SegmentCodec.ColumnFormat;
    SegmentCodec.ColumnLawful();
    TurnsBounded(SegmentCodec.ColumnFormat(), 6, false, n, s);
  }

  /** Entries of a details companion: eight bytes each. */
  lemma DetailsTurns(n: nat, s: bytes)
    ensures Turns(DetailsCodec.RawEntryFormat(), false, n, s) * 8 <= |s| + 8
    ensures ReadAll(DetailsCodec.RawEntryFormat(), false, n, s).Parsed? ==> n * 8 <= |s|
  {
    hide DetailsCodec.RawEntryFormat;
    DetailsCodec.RawDetailsLawful();
    TurnsBounded(DetailsCodec.RawEntryFormat(), 8, false, n, s);
  }

  /** Frames: five bytes each, whether the message is accepted or not. */
  lemma {:induction false} FrameTurnsBounded(host: Host, kind: MsgKind, v: int, s: bytes)
    ensures FrameTurns(host, kind, v, s) * 5 <= |s| + 5
    ensures ReadFrames(host, false, kind, v, s).Ok? ==>
              FrameTurns(host, kind, v, s) == |ReadFrames(host, false, kind, v, s).value| + 1
              && FrameTurns(host, kind, v, s) * 5 <= |s|
    decreases |s|
  {
    hide ReadRecord, DecodePayload;
    RecordProgress(s);
    if ReadRecord(s).Parsed? {
      var (t, payload) := ReadRecord(s).value;
      if t != END && DecodePayload(host, false, kind, v, t, payload).Ok? {
        FrameTurnsBounded(host, kind, v, ReadRecord(s).rest);
      }
    }
  }
}
