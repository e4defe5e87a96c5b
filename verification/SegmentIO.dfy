/** `encodeRowsSegment` and `decodeRowsSegment` of packages/core/src/segment.ts, against the segment format. */
module SegmentIO {
  import opened Results
  import opened Primitives
  import opened Formats
  import opened Hosts
  import opened RowCodec
  import opened RowIO
  import opened SegmentCodec
  import opened ByteIO
  import opened LoopTurns

  // ----- What the encoder accepts ------------------------------------------------------------

  predicate ColumnsWritable(columns: seq<RowColumn>) {
    IsU16(|columns|) && forall i :: 0 <= i < |columns| ==> IsStr(columns[i].name)
  }

  predicate HeaderWritable(h: Header) {
    IsStr(h.table) && IsI32(h.schemaVersion) && ColumnsWritable(h.columns)
  }

  predicate RowRecordWritable(shape: Shape, row: SegmentRow) {
    1 <= row.serverVersion && IsSafe(row.serverVersion) && RowWritable(shape, row.values)
  }

  predicate RowsWritable(shape: Shape, block: seq<SegmentRow>) {
    forall i :: 0 <= i < |block| ==> RowRecordWritable(shape, block[i])
  }

  /** The bytes of a block's rows. */
  ghost function RowBytes(host: Host, shape: Shape, block: seq<SegmentRow>): bytes {
    PutAll(SegmentRowFormat(host, shape), block, [])
  }

  ghost predicate BlockWritable(host: Host, shape: Shape, block: seq<SegmentRow>) {
    0 < |block| < U32_LIMIT && RowsWritable(shape, block) && IsBytes(RowBytes(host, shape, block))
  }

  ghost predicate SegmentWritable(host: Host, g: RowsSegment) {
    && HeaderWritable(g.header)
    && forall i :: 0 <= i < |g.blocks| ==> BlockWritable(host, ShapeOf(g.header.columns), g.blocks[i])
  }

  // ----- The formats, unfolded -----------------------------------------------------------------

  lemma ColumnPut(c: RowColumn, k: bytes)
    ensures Put(ColumnFormat(), c, k) == PutStr(c.name, PutU8(TypeTag(c.ctype), PutBool(c.nullable, k)))
  {
    hide PutStr, PutU8, PutBool;
    var f := PairFormat(StrFormat(), PairFormat(TagFormat(), BoolFormat()));
    ViaPut(f, ToColumn, FromColumn, c, k);
    ViaPut(U8Format(), TypeFromTag, TypeTag, c.ctype, PutBool(c.nullable, k));
    assert f.put(FromColumn(c), k) == PutPair(StrFormat(), PairFormat(TagFormat(), BoolFormat()), FromColumn(c), k);
  }

  ghost function PutHeader(h: Header, k: bytes): bytes {
    PutRaw(MAGIC, PutU16(FORMAT_VERSION, PutU16(0, PutStr(h.table, PutI32(h.schemaVersion,
      PutU16(|h.columns|, PutAll(ColumnFormat(), h.columns, k)))))))
  }

  lemma HeaderPut(h: Header, k: bytes)
    ensures Put(HeaderFormat(), h, k) == PutHeader(h, k)
  {
    hide PutRaw, PutU16, PutStr, PutI32, PutAll, ColumnFormat;
    var cols := PutU16(|h.columns|, PutAll(ColumnFormat(), h.columns, k));
    ViaPut(DepFormat(U16Format(), ColumnsOf), CheckCount, WithCount, h.columns, k);
    assert ColumnsFormat().put(h.columns, k) == cols;
    var body := PutStr(h.table, PutI32(h.schemaVersion, cols));
    assert BodyFormat().put((h.table, (h.schemaVersion, h.columns)), k) == body;
    ViaPut(U16Format(), CheckFlags, PutFlags, (), body);
    ViaPut(U16Format(), CheckVersion, PutVersion, (), PutU16(0, body));
    ViaPut(RawFormat(4), CheckMagic, PutMagic, (), PutU16(FORMAT_VERSION, PutU16(0, body)));
    ViaPut(PreambleFormat(), ToHeader, FromHeader, h, k);
  }

  lemma RowRecordPut(host: Host, shape: Shape, r: SegmentRow, k: bytes)
    ensures Put(SegmentRowFormat(host, shape), r, k) == PutI64(r.serverVersion, Put(RowFormat(host, shape), r.values, k))
  {
    hide PutI64, RowFormat;
    var f := PairFormat(ServerVersionFormat(), RowFormat(host, shape));
    ViaPut(f, ToRow, FromRow, r, k);
    assert f.put(FromRow(r), k) == PutPair(ServerVersionFormat(), RowFormat(host, shape), FromRow(r), k);
    ViaPut(I64Format(), CheckServerVersion, Id, r.serverVersion, Put(RowFormat(host, shape), r.values, k));
  }

  lemma BlockPut(host: Host, shape: Shape, n: nat, block: seq<SegmentRow>, k: bytes)
    ensures Put(BlockFormat(host, shape, n), block, k)
         == PutU32(|RowBytes(host, shape, block)|, PutRaw(RowBytes(host, shape, block), k))
  {
    hide SegmentRowFormat, PutAll, PutU32, PutRaw;
    var f := ExactlyFormat(SegmentRowFormat(host, shape), n);
    assert f.put(block, []) == RowBytes(host, shape, block);
    assert DelimitedFormat(f).put(block, k) == PutBytes(f.put(block, []), k);
  }

  lemma SegmentPut(host: Host, g: RowsSegment, k: bytes)
    ensures Put(SegmentFormat(host), g, k)
         == Put(HeaderFormat(), g.header, PutBlocks(host, ShapeOf(g.header.columns), g.blocks, k))
  {
    hide HeaderFormat, PutBlocks, ReadBlocks;
    var f := DepFormat(HeaderFormat(), BlocksAfter(host));
    ViaPut(f, ToSegment, FromSegment, g, k);
    assert f.put(FromSegment(g), k) == PutDep(HeaderFormat(), BlocksAfter(host), FromSegment(g), k);
  }

  // ----- Writing ----------------------------------------------------------------------------------

  method WriteColumn(w: ByteWriter, c: RowColumn) returns (o: Outcome)
    requires w.Valid()
    modifies w, w.buffer
    ensures w.Valid() && (w.buffer == old(w.buffer) || fresh(w.buffer))
    ensures o.Pass? <==> IsStr(c.name)
    ensures o.Pass? ==> forall k: bytes :: w.Then(k) == old(w.Then(Put(ColumnFormat(), c, k)))
  {
    hide PutStr, PutU8, PutBool, ColumnFormat, IsStr, ByteWriter.Then, Put;
    :- w.Str(c.name);
    var tag := w.U8(TypeTag(c.ctype));
    w.Bool(c.nullable);
    forall k: bytes ensures w.Then(k) == old(w.Then(Put(ColumnFormat(), c, k))) { ColumnPut(c, k); }
    return Pass;
  }

  method WriteColumns(w: ByteWriter, columns: seq<RowColumn>) returns (o: Outcome)
    requires w.Valid()
    modifies w, w.buffer
    ensures w.Valid() && (w.buffer == old(w.buffer) || fresh(w.buffer))
    ensures o.Pass? <==> forall i :: 0 <= i < |columns| ==> IsStr(columns[i].name)
    ensures o.Pass? ==> forall k: bytes :: w.Then(k) == old(w.Then(PutAll(ColumnFormat(), columns, k)))
  {
    hide PutAll, ColumnFormat, IsStr, ByteWriter.Then, Put;
    assert columns[0..] == columns;
    for i := 0 to |columns|
      invariant w.Valid() && (w.buffer == old(w.buffer) || fresh(w.buffer))
      invariant forall j :: 0 <= j < i ==> IsStr(columns[j].name)
      invariant forall k: bytes ::
                  w.Then(PutAll(ColumnFormat(), columns[i..], k)) == old(w.Then(PutAll(ColumnFormat(), columns, k)))
    {
      var column := columns[i];
      :- WriteColumn(w, column);
      forall k: bytes
        ensures w.Then(PutAll(ColumnFormat(), columns[i + 1..], k)) == old(w.Then(PutAll(ColumnFormat(), columns, k)))
      {
        PutAllStep(ColumnFormat(), columns, i, k);
      }
    }
    forall k: bytes ensures w.Then(k) == old(w.Then(PutAll(ColumnFormat(), columns, k))) {
      PutAllBounds(ColumnFormat(), columns, k);
    }
    return Pass;
  }

  method WriteHeader(w: ByteWriter, h: Header) returns (o: Outcome)
    requires w.Valid()
    modifies w, w.buffer
    ensures w.Valid() && (w.buffer == old(w.buffer) || fresh(w.buffer))
    ensures o.Pass? <==> HeaderWritable(h)
    ensures o.Pass? ==> forall k: bytes :: w.Then(k) == old(w.Then(PutHeader(h, k)))
  {
    hide PutRaw, PutU16, PutStr, PutI32, PutAll, ColumnFormat, HeaderFormat, IsStr, ByteWriter.Then, Put;
    w.Raw(MAGIC);
    var version := w.U16(FORMAT_VERSION);
    var flags := w.U16(0);
    :- w.Str(h.table);
    :- w.I32(h.schemaVersion);
    :- w.U16(|h.columns|);
    :- WriteColumns(w, h.columns);
    return Pass;
  }

  method WriteRowRecord(w: ByteWriter, columns: seq<RowColumn>, row: SegmentRow, ghost host: Host) returns (o: Outcome)
    requires w.Valid()
    modifies w, w.buffer
    ensures w.Valid() && (w.buffer == old(w.buffer) || fresh(w.buffer))
    ensures o.Pass? <==> RowRecordWritable(ShapeOf(columns), row)
    ensures o.Pass? ==> forall k: bytes :: w.Then(k) == old(w.Then(Put(SegmentRowFormat(host, ShapeOf(columns)), row, k)))
  {
    hide PutI64, RowFormat, SegmentRowFormat, RowWritable, ByteWriter.Then, Put;
    if row.serverVersion < 1 { return Refused; }
    :- w.I64(row.serverVersion);
    :- WriteRow(w, columns, row.values, host);
    forall k: bytes ensures w.Then(k) == old(w.Then(Put(SegmentRowFormat(host, ShapeOf(columns)), row, k))) {
      RowRecordPut(host, ShapeOf(columns), row, k);
    }
    return Pass;
  }

  method WriteRows(columns: seq<RowColumn>, block: seq<SegmentRow>, ghost host: Host) returns (r: Option<bytes>)
    ensures r.Some? <==> RowsWritable(ShapeOf(columns), block)
    ensures r.Some? ==> r.value == RowBytes(host, ShapeOf(columns), block)
  {
    hide PutAll, SegmentRowFormat, RowRecordWritable, ByteWriter.Then, Put;
    ghost var shape, f := ShapeOf(columns), SegmentRowFormat(host, ShapeOf(columns));
    var rowsWriter := new ByteWriter();
    assert block[0..] == block;
    for i := 0 to |block|
      invariant rowsWriter.Valid() && fresh(rowsWriter) && fresh(rowsWriter.buffer)
      invariant forall j :: 0 <= j < i ==> RowRecordWritable(shape, block[j])
      invariant forall k: bytes :: rowsWriter.Then(PutAll(f, block[i..], k)) == PutAll(f, block, k)
    {
      var o := WriteRowRecord(rowsWriter, columns, block[i], host);
      if o.Refused? { return None; }
      forall k: bytes ensures rowsWriter.Then(PutAll(f, block[i + 1..], k)) == PutAll(f, block, k) {
        PutAllStep(f, block, i, k);
      }
    }
    PutAllBounds(f, block, []);
    var rows := rowsWriter.Finish();
    return Some(rows);
  }

  method WriteBlock(w: ByteWriter, columns: seq<RowColumn>, block: seq<SegmentRow>, ghost host: Host) returns (o: Outcome)
    requires w.Valid()
    modifies w, w.buffer
    ensures w.Valid() && (w.buffer == old(w.buffer) || fresh(w.buffer))
    ensures o.Pass? <==> BlockWritable(host, ShapeOf(columns), block)
    ensures o.Pass? ==> forall k: bytes ::
              w.Then(k) == old(w.Then(PutU32(|block|, Put(BlockFormat(host, ShapeOf(columns), |block|), block, k))))
  {
    hide PutU32, PutRaw, RowBytes, BlockFormat, RowsWritable, ByteWriter.Then, Put;
    if |block| == 0 { return Refused; }
    var rows := WriteRows(columns, block, host);
    if rows.None? { return Refused; }
    :- w.U32(|block|);
    :- w.U32(|rows.value|);
    w.Raw(rows.value);
    forall k: bytes
      ensures w.Then(k) == old(w.Then(PutU32(|block|, Put(BlockFormat(host, ShapeOf(columns), |block|), block, k))))
    {
      BlockPut(host, ShapeOf(columns), |block|, block, k);
    }
    return Pass;
  }

  lemma PutBlocksStep(host: Host, shape: Shape, blocks: seq<seq<SegmentRow>>, i: nat, k: bytes)
    requires i < |blocks|
    ensures PutBlocks(host, shape, blocks[i..], k)
         == PutU32(|blocks[i]|, Put(BlockFormat(host, shape, |blocks[i]|), blocks[i], PutBlocks(host, shape, blocks[i + 1..], k)))
  {
    hide PutU32, BlockFormat;
    assert blocks[i..][1..] == blocks[i + 1..];
  }

  lemma PutBlocksBounds(host: Host, shape: Shape, blocks: seq<seq<SegmentRow>>, k: bytes)
    ensures PutBlocks(host, shape, blocks[0..], k) == PutBlocks(host, shape, blocks, k)
    ensures PutBlocks(host, shape, blocks[|blocks|..], k) == PutU32(0, k)
  {
    hide PutU32, BlockFormat;
    assert blocks[0..] == blocks;
  }

  method WriteBlocks(w: ByteWriter, columns: seq<RowColumn>, blocks: seq<seq<SegmentRow>>, ghost host: Host) returns (o: Outcome)
    requires w.Valid()
    modifies w, w.buffer
    ensures w.Valid() && (w.buffer == old(w.buffer) || fresh(w.buffer))
    ensures o.Pass? <==> forall i :: 0 <= i < |blocks| ==> BlockWritable(host, ShapeOf(columns), blocks[i])
    ensures o.Pass? ==> forall k: bytes :: w.Then(k) == old(w.Then(PutBlocks(host, ShapeOf(columns), blocks, k)))
  {
    hide PutU32, PutBlocks, BlockFormat, BlockWritable, ByteWriter.Then, Put;
    ghost var shape := ShapeOf(columns);
    assert blocks[0..] == blocks;
    for i := 0 to |blocks|
      invariant w.Valid() && (w.buffer == old(w.buffer) || fresh(w.buffer))
      invariant forall j :: 0 <= j < i ==> BlockWritable(host, shape, blocks[j])
      invariant forall k: bytes ::
                  w.Then(PutBlocks(host, shape, blocks[i..], k)) == old(w.Then(PutBlocks(host, shape, blocks, k)))
    {
      var block := blocks[i];
      :- WriteBlock(w, columns, block, host);
      forall k: bytes
        ensures w.Then(PutBlocks(host, shape, blocks[i + 1..], k)) == old(w.Then(PutBlocks(host, shape, blocks, k)))
      {
        PutBlocksStep(host, shape, blocks, i, k);
      }
    }
    o := w.U32(0);
    forall k: bytes ensures w.Then(k) == old(w.Then(PutBlocks(host, shape, blocks, k))) {
      PutBlocksBounds(host, shape, blocks, k);
    }
  }

  /** Throws exactly on segments that are not writable; otherwise returns their one encoding. */
  method EncodeRowsSegment(g: RowsSegment, ghost host: Host) returns (r: Option<bytes>)
    ensures r.Some? <==> SegmentWritable(host, g)
    ensures r.Some? ==> r.value == Put(SegmentFormat(host), g, [])
  {
    hide PutHeader, HeaderWritable, BlockWritable, PutBlocks, SegmentFormat, ByteWriter.Then, Put;
    SegmentPut(host, g, []);
    HeaderPut(g.header, PutBlocks(host, ShapeOf(g.header.columns), g.blocks, []));
    var w := new ByteWriter();
    var header := WriteHeader(w, g.header);
    if header.Refused? { return None; }
    var blocks := WriteBlocks(w, g.header.columns, g.blocks, host);
    if blocks.Refused? { return None; }
    var bytes := w.Finish();
    return Some(bytes);
  }

  // ----- Reading ----------------------------------------------------------------------------------

  ghost function ReadColumnSpec(s: bytes): Parsed<RowColumn> {
    var (name, s1) :- ReadStr(false, s);
    var (tag, s2) :- ReadU8(s1);
    match TypeFromTag(tag)
    case Err(c) => Failed(c)
    case Ok(t) =>
      var (flags, k) :- ReadU8(s2);
      if flags > 1 then Failed(InvalidRequest) else Parsed(RowColumn(name, t, flags == 1, None, None, None), k)
  }

  lemma ColumnRead(s: bytes)
    ensures ColumnFormat().read(false, s) == ReadColumnSpec(s)
  {
    hide ReadStr, ReadU8, TypeFromTag;
    if ReadStr(false, s).Parsed? {
      var s1 := ReadStr(false, s).rest;
      assert TagFormat().read(false, s1) == ReadVia(U8Format(), TypeFromTag, false, s1);
    }
  }

  method ReadColumn(r: ByteReader) returns (res: Result<RowColumn>)
    requires r.Valid()
    modifies r
    ensures r.Valid() && Follows(ColumnFormat().read(false, old(r.Rest())), res, r.Rest())
    ensures r.Within(old(r.Credit()), 0, res.Ok?)
  {
    hide ReadStr, ReadU8, TypeFromTag, ColumnFormat;
    ColumnRead(r.Rest());
    var name :- r.Str();
    var tag :- r.U8();
    var t :- TypeFromTag(tag);
    var flags :- r.U8();
    if flags > 1 { return Err(InvalidRequest); }
    return Ok(RowColumn(name, t, flags == 1, None, None, None));
  }

  method ReadColumns(r: ByteReader, count: nat) returns (res: Result<seq<RowColumn>>, ghost turns: nat)
    requires r.Valid()
    modifies r
    ensures r.Valid() && Follows(ReadAll(ColumnFormat(), false, count, old(r.Rest())), res, r.Rest())
    ensures turns == Turns(ColumnFormat(), false, count, old(r.Rest()))
    ensures r.WithinLoop(old(r.Credit()), 1, res.Ok?)
  {
    hide ColumnFormat, ReadAll, Turns;
    var columns: seq<RowColumn> := [];
    ghost var f, whole := ColumnFormat(), ReadAll(ColumnFormat(), false, count, r.Rest());
    ResumeStart(whole);
    turns := 0;
    for i := 0 to count
      invariant r.Valid()
      invariant whole == Resume(columns, ReadAll(f, false, count - i, r.Rest()))
      invariant turns + Turns(f, false, count - i, r.Rest()) == Turns(f, false, count, old(r.Rest()))
      invariant r.Credit() <= old(r.Credit())
    {
      ghost var s := r.Rest();
      TurnsStep(f, count - i, s);
      turns := turns + 1;
      r.turns := r.turns + 1;
      var c := ReadColumn(r);
      if c.Err? {
        ResumeFail(f, false, count - i, s, columns);
        return Err(c.code), turns;
      }
      ResumeStep(f, false, count - i, s, columns);
      columns := columns + [c.value];
    }
    ResumeEnd(f, false, r.Rest(), columns);
    TurnsEnd(f, r.Rest());
    return Ok(columns), turns;
  }

  ghost function ReadHeaderSpec(s: bytes): Parsed<Header> {
    var (magic, s1) :- ReadRaw(4, s);
    if magic != MAGIC then Failed(InvalidRequest) else
    var (version, s2) :- ReadU16(s1);
    if version != FORMAT_VERSION then Failed(InvalidRequest) else
    var (flags, s3) :- ReadU16(s2);
    if flags != 0 then Failed(InvalidRequest) else
    var (table, s4) :- ReadStr(false, s3);
    var (schemaVersion, s5) :- ReadI32(s4);
    var (count, s6) :- ReadU16(s5);
    var (columns, k) :- ReadAll(ColumnFormat(), false, count, s6);
    Parsed(Header(table, schemaVersion, columns), k)
  }

  lemma ColumnsRead(s: bytes)
    ensures ColumnsFormat().read(false, s) == match ReadU16(s)
                                              case Failed(c) => Failed(c)
                                              case Parsed(n, s1) => ReadAll(ColumnFormat(), false, n, s1)
  {
    hide ReadU16, ColumnFormat;
    if ReadU16(s).Parsed? {
      var n, s1 := ReadU16(s).value, ReadU16(s).rest;
      var cols := ReadAll(ColumnFormat(), false, n, s1);
      ColumnLawful();
      if cols.Parsed? { ReadAllSound(ColumnFormat(), 6, false, n, s1); }
      assert ColumnsOf(n).read(false, s1) == cols;
    }
  }

  lemma BodyRead(s: bytes)
    ensures BodyFormat().read(false, s) == match ReadStr(false, s)
                                           case Failed(c) => Failed(c)
                                           case Parsed(table, s1) =>
                                             match ReadI32(s1)
                                             case Failed(c) => Failed(c)
                                             case Parsed(version, s2) =>
                                               match ColumnsFormat().read(false, s2)
                                               case Failed(c) => Failed(c)
                                               case Parsed(columns, k) => Parsed((table, (version, columns)), k)
  {
    hide ReadStr, ReadI32, ColumnsFormat;
  }

  lemma HeaderRead(s: bytes)
    ensures HeaderFormat().read(false, s) == ReadHeaderSpec(s)
  {
    hide ReadRaw, ReadU16, BodyFormat, ReadStr, ReadI32, ColumnsFormat, ReadAll;
    if ReadRaw(4, s).Parsed? {
      var s1 := ReadRaw(4, s).rest;
      assert MagicFormat().read(false, s) == ReadVia(RawFormat(4), CheckMagic, false, s);
      if ReadU16(s1).Parsed? {
        var s2 := ReadU16(s1).rest;
        assert VersionFormat().read(false, s1) == ReadVia(U16Format(), CheckVersion, false, s1);
        if ReadU16(s2).Parsed? {
          var s3 := ReadU16(s2).rest;
          assert FlagsFormat().read(false, s2) == ReadVia(U16Format(), CheckFlags, false, s2);
          BodyRead(s3);
          if ReadStr(false, s3).Parsed? && ReadI32(ReadStr(false, s3).rest).Parsed? {
            ColumnsRead(ReadI32(ReadStr(false, s3).rest).rest);
          }
        }
      }
    }
  }

  method ReadHeader(r: ByteReader) returns (res: Result<Header>)
    requires r.Valid()
    modifies r
    ensures r.Valid() && Follows(ReadHeaderSpec(old(r.Rest())), res, r.Rest())
    ensures r.Within(old(r.Credit()), 1, res.Ok?)
  {
    hide ReadRaw, ReadU16, ReadStr, ReadI32, ReadAll, ColumnFormat;
    var magic :- r.Raw(4);
    if magic != MAGIC { return Err(InvalidRequest); }
    var formatVersion :- r.U16();
    if formatVersion != FORMAT_VERSION { return Err(InvalidRequest); }
    var flags :- r.U16();
    if flags != 0 { return Err(InvalidRequest); }
    var table :- r.Str();
    var schemaVersion :- r.I32();
    var columnCount :- r.U16();
    var columns, turns :- ReadColumns(r, columnCount);
    return Ok(Header(table, schemaVersion, columns));
  }

  ghost function ReadRowRecordSpec(host: Host, shape: Shape, s: bytes): Parsed<SegmentRow> {
    var (version, s1) :- ReadI64(s);
    if version < 1 then Failed(InvalidRequest) else
    var (values, k) :- RowFormat(host, shape).read(false, s1);
    Parsed(SegmentRow(version, values), k)
  }

  lemma RowRecordRead(host: Host, shape: Shape, s: bytes)
    ensures SegmentRowFormat(host, shape).read(false, s) == ReadRowRecordSpec(host, shape, s)
  {
    hide ReadI64, RowFormat;
    assert ServerVersionFormat().read(false, s) == ReadVia(I64Format(), CheckServerVersion, false, s);
  }

  method ReadRowRecord(r: ByteReader, host: Host, columns: seq<RowColumn>) returns (res: Result<SegmentRow>)
    requires r.Valid()
    modifies r
    ensures r.Valid() && Follows(SegmentRowFormat(host, ShapeOf(columns)).read(false, old(r.Rest())), res, r.Rest())
    ensures r.Within(old(r.Credit()), 0, res.Ok?)
  {
    hide ReadI64, RowFormat, SegmentRowFormat;
    RowRecordRead(host, ShapeOf(columns), r.Rest());
    var serverVersion :- r.I64();
    if serverVersion < 1 { return Err(InvalidRequest); }
    var values :- ReadRow(r, host, columns);
    return Ok(SegmentRow(serverVersion, values));
  }

  /** The rows of one block; `work` counts the turns of this loop and of the loops inside it. */
  method ReadRows(rowBytes: bytes, host: Host, columns: seq<RowColumn>, rowCount: nat)
    returns (res: Result<seq<SegmentRow>>, ghost turns: nat, ghost work: nat)
    ensures res == ReadWhole(ExactlyFormat(SegmentRowFormat(host, ShapeOf(columns)), rowCount), false, rowBytes)
    ensures turns == Turns(SegmentRowFormat(host, ShapeOf(columns)), false, rowCount, rowBytes)
    ensures work <= 8 * |rowBytes| + if res.Ok? then 0 else 1
  {
    hide SegmentRowFormat, ReadAll, Turns;
    var blockReader := new ByteReader(rowBytes);
    var block: seq<SegmentRow> := [];
    ghost var f, whole := SegmentRowFormat(host, ShapeOf(columns)), ReadAll(SegmentRowFormat(host, ShapeOf(columns)), false, rowCount, rowBytes);
    ResumeStart(whole);
    turns := 0;
    for i := 0 to rowCount
      invariant blockReader.Valid() && fresh(blockReader)
      invariant whole == Resume(block, ReadAll(f, false, rowCount - i, blockReader.Rest()))
      invariant turns + Turns(f, false, rowCount - i, blockReader.Rest()) == Turns(f, false, rowCount, rowBytes)
      invariant blockReader.Credit() <= 8 * |rowBytes|
    {
      ghost var s := blockReader.Rest();
      TurnsStep(f, rowCount - i, s);
      turns := turns + 1;
      blockReader.turns := blockReader.turns + 1;
      var row := ReadRowRecord(blockReader, host, columns);
      if row.Err? {
        ResumeFail(f, false, rowCount - i, s, block);
        return Err(row.code), turns, blockReader.turns;
      }
      ResumeStep(f, false, rowCount - i, s, block);
      block := block + [row.value];
    }
    ResumeEnd(f, false, blockReader.Rest(), block);
    TurnsEnd(f, blockReader.Rest());
    var consumed := blockReader.ExpectFullyConsumed();
    if consumed.Err? { return Err(consumed.code), turns, blockReader.turns; }
    return Ok(block), turns, blockReader.turns;
  }

  lemma BlockRead(host: Host, shape: Shape, n: nat, s: bytes)
    ensures BlockFormat(host, shape, n).read(false, s)
         == match ReadBytes(s)
            case Failed(c) => Failed(c)
            case Parsed(b, k) =>
              match ReadWhole(ExactlyFormat(SegmentRowFormat(host, shape), n), false, b)
              case Err(c) => Failed(c)
              case Ok(rows) => Parsed(rows, k)
  {
    hide SegmentRowFormat, ReadBytes, ReadAll;
  }

  /** One turn of the block loop. */
  ghost function BlocksTurn(host: Host, shape: Shape, s: bytes, done: seq<seq<SegmentRow>>): Parsed<seq<seq<SegmentRow>>> {
    var (n, s1) :- ReadU32(s);
    if n == 0 then Parsed(done, s1)
    else
      var (block, s2) :- BlockFormat(host, shape, n).read(false, s1);
      Resume(done + [block], ReadBlocks(host, shape, false, s2))
  }

  lemma BlocksStep(host: Host, shape: Shape, s: bytes, done: seq<seq<SegmentRow>>)
    ensures Resume(done, ReadBlocks(host, shape, false, s)) == BlocksTurn(host, shape, s, done)
  {
    hide ReadU32, BlockFormat;
    if ReadU32(s).Parsed? {
      var n, s1 := ReadU32(s).value, ReadU32(s).rest;
      assert done + [] == done;
      if n != 0 && BlockFormat(host, shape, n).read(false, s1).Parsed? {
        var h := BlockFormat(host, shape, n).read(false, s1);
        var t := ReadBlocks(host, shape, false, h.rest);
        assert t.Parsed? ==> done + ([h.value] + t.value) == (done + [h.value]) + t.value;
      }
    }
  }

  /** The bytes of a block, then its rows. */
  method ReadBlock(r: ByteReader, host: Host, columns: seq<RowColumn>, rowCount: nat) returns (res: Result<seq<SegmentRow>>)
    requires r.Valid()
    modifies r
    ensures r.Valid() && Follows(BlockFormat(host, ShapeOf(columns), rowCount).read(false, old(r.Rest())), res, r.Rest())
    ensures r.Within(old(r.Credit()), 1, res.Ok?)
  {
    hide ReadBytes, BlockFormat, ReadWhole;
    BlockRead(host, ShapeOf(columns), rowCount, r.Rest());
    var rowBytes :- r.Bytes();
    ghost var turns, work;
    res, turns, work := ReadRows(rowBytes, host, columns, rowCount);
    r.turns := r.turns + work;
  }

  /** The turns of the block loop, up to and with the one that returns or throws. */
  function BlockTurns(host: Host, shape: Shape, s: bytes): nat
    decreases |s|
  {
    match ReadU32(s)
    case Failed(_) => 1
    case Parsed(n, s1) =>
      if n == 0 || BlockFormat(host, shape, n).read(false, s1).Failed? then 1
      else
        BlockProgress(host, shape, n, false, s1);
        1 + BlockTurns(host, shape, BlockFormat(host, shape, n).read(false, s1).rest)
  }

  method ReadRowBlocks(r: ByteReader, host: Host, columns: seq<RowColumn>)
    returns (res: Result<seq<seq<SegmentRow>>>, ghost turns: nat)
    requires r.Valid()
    modifies r
    ensures r.Valid() && Follows(ReadBlocks(host, ShapeOf(columns), false, old(r.Rest())), res, r.Rest())
    ensures turns == BlockTurns(host, ShapeOf(columns), old(r.Rest()))
    ensures r.WithinLoop(old(r.Credit()), 1, res.Ok?)
  {
    hide BlockFormat, ReadBlocks, ReadU32;
    var blocks: seq<seq<SegmentRow>> := [];
    ghost var shape, whole := ShapeOf(columns), ReadBlocks(host, ShapeOf(columns), false, r.Rest());
    ResumeStart(whole);
    turns := 0;
    while true
      invariant r.Valid()
      invariant whole == Resume(blocks, ReadBlocks(host, shape, false, r.Rest()))
      invariant turns + BlockTurns(host, shape, r.Rest()) == BlockTurns(host, shape, old(r.Rest()))
      invariant r.Credit() <= old(r.Credit())
      decreases |r.Rest()|
    {
      BlocksStep(host, shape, r.Rest(), blocks);
      turns := turns + 1;
      r.turns := r.turns + 1;
      var rowCount := r.U32();
      if rowCount.Err? { return Err(rowCount.code), turns; }
      if rowCount.value == 0 { return Ok(blocks), turns; }
      ghost var s := r.Rest();
      var block := ReadBlock(r, host, columns, rowCount.value);
      if block.Err? { return Err(block.code), turns; }
      BlockProgress(host, shape, rowCount.value, false, s);
      blocks := blocks + [block.value];
    }
  }

  ghost function ReadSegmentSpec(host: Host, s: bytes): Parsed<RowsSegment> {
    var (h, s1) :- ReadHeaderSpec(s);
    var (blocks, k) :- ReadBlocks(host, ShapeOf(h.columns), false, s1);
    Parsed(RowsSegment(h, blocks), k)
  }

  lemma SegmentRead(host: Host, s: bytes)
    ensures SegmentFormat(host).read(false, s) == ReadSegmentSpec(host, s)
  {
    hide ReadHeaderSpec, HeaderFormat, ReadBlocks;
    HeaderRead(s);
  }

  lemma SegmentReadWhole(host: Host, b: bytes)
    ensures ReadWhole(SegmentFormat(host), false, b) == Whole(ReadSegmentSpec(host, b))
  {
    hide SegmentFormat, ReadSegmentSpec;
    SegmentRead(host, b);
  }

  method ReadSegment(r: ByteReader, host: Host) returns (res: Result<RowsSegment>)
    requires r.Valid()
    modifies r
    ensures r.Valid() && Follows(ReadSegmentSpec(host, old(r.Rest())), res, r.Rest())
    ensures r.Within(old(r.Credit()), 1, res.Ok?)
  {
    hide ReadHeaderSpec, ReadBlocks, BlockTurns;
    var header :- ReadHeader(r);
    var blocks, turns :- ReadRowBlocks(r, host, header.columns);
    return Ok(RowsSegment(header, blocks));
  }

  /** `work` counts the turns of all loops, nested ones included. */
  method DecodeRowsSegment(host: Host, bytes: bytes) returns (res: Result<RowsSegment>, ghost work: nat)
    ensures res == ReadWhole(SegmentFormat(host), false, bytes)
    ensures work <= 8 * |bytes| + if res.Ok? then 0 else 1
  {
    hide ReadSegmentSpec, SegmentFormat, ReadWhole;
    SegmentReadWhole(host, bytes);
    var reader := new ByteReader(bytes);
    var segment := ReadSegment(reader, host);
    if segment.Err? { return Err(segment.code), reader.turns; }
    var consumed := reader.ExpectFullyConsumed();
    if consumed.Err? { return Err(consumed.code), reader.turns; }
    return segment, reader.turns;
  }
}
