/** The bytes of rows and rows segments, written out, and the proof that the encoder emits them. */
module SegmentContract {
  import opened Results
  import opened Hosts
  import opened Primitives
  import opened Formats
  import opened RowCodec
  import opened RowIO
  import opened SegmentCodec
  import SegmentIO
  import NullBitmap
  import W = WireLayout
  import opened WireContract

  // ----- The layout (packages/core/src/row-codec.ts:59-210, packages/core/src/segment.ts:42-76) ----------------

  function Cell(v: RowValue): bytes {
    match v
    case Null => []
    case Text(t) => W.Text(t)
    case Integer(n) => W.I64(n)
    case Float(bits) => bits
    case Boolean(b) => W.Flag(b)
    case Blob(data) => W.Blob(data)
  }

  function Weight(vs: seq<RowValue>, i: nat, weight: nat): nat { if i < |vs| && vs[i].Null? then weight else 0 }

  /** Eight columns to a byte, the first one the bit of weight 1. */
  function NullByte(vs: seq<RowValue>, i: nat): (b: byte) {
    Weight(vs, i, 1) + Weight(vs, i + 1, 2) + Weight(vs, i + 2, 4) + Weight(vs, i + 3, 8)
    + Weight(vs, i + 4, 16) + Weight(vs, i + 5, 32) + Weight(vs, i + 6, 64) + Weight(vs, i + 7, 128)
  }

  function NullBytes(vs: seq<RowValue>): bytes { seq((|vs| + 7) / 8, q requires 0 <= q => NullByte(vs, 8 * q)) }

  function Row(vs: seq<RowValue>): bytes { NullBytes(vs) + W.Each(Cell, vs) }

  function RowRecord(r: SegmentRow): bytes { W.I64(r.serverVersion) + Row(r.values) }

  function Column(c: RowColumn): bytes {
    W.Text(c.name)
    + [match c.ctype
       case StringCol => 1
       case IntegerCol => 2
       case FloatCol => 3
       case BooleanCol => 4
       case JsonCol => 5
       case BytesCol => 6
       case BlobRefCol => 7
       case CrdtCol => 8]
    + W.Flag(c.nullable)
  }

  function Block(rows: seq<SegmentRow>): bytes { W.U32(|rows|) + W.Blob(W.Each(RowRecord, rows)) }

  /** "SSG2", version 1, no flags; the table and its columns; the blocks; a row count of zero. */
  function SegmentBytes(g: RowsSegment): bytes {
    [0x53, 0x53, 0x47, 0x32] + [1, 0] + [0, 0] + W.Text(g.header.table) + W.I32(g.header.schemaVersion)
    + (W.Digits(|g.header.columns|, 2) + W.Each(Column, g.header.columns)) + W.Each(Block, g.blocks) + [0, 0, 0, 0]
  }

  // ----- Rows ------------------------------------------------------------------------------------------------------

  lemma PackedByte(nulls: seq<bool>, base: nat, vs: seq<RowValue>)
    requires nulls == NullsOf(vs)
    ensures NullBitmap.PackFrom(nulls, base, 0) == NullByte(vs, base)
  {
    hide NullBitmap.PackFrom, Weight;
    PackedHalf(nulls, base, 4, vs);
    PackedHalf(nulls, base, 0, vs);
    PackedEnd(nulls, base);
    Scaled(vs, base + 4, 1, 16);
    Scaled(vs, base + 5, 2, 16);
    Scaled(vs, base + 6, 4, 16);
    Scaled(vs, base + 7, 8, 16);
  }

  lemma Scaled(vs: seq<RowValue>, i: nat, weight: nat, scale: nat)
    ensures Weight(vs, i, scale * weight) == scale * Weight(vs, i, weight)
  {
  }

  lemma PackedHalf(nulls: seq<bool>, base: nat, j: nat, vs: seq<RowValue>)
    requires nulls == NullsOf(vs) && j <= 4
    ensures NullBitmap.PackFrom(nulls, base, j)
         == Weight(vs, base + j, 1) + Weight(vs, base + j + 1, 2) + Weight(vs, base + j + 2, 4) + Weight(vs, base + j + 3, 8)
            + 16 * NullBitmap.PackFrom(nulls, base, j + 4)
  {
    hide NullBitmap.PackFrom, Weight;
    PackedBit(nulls, base, j, vs);
    PackedBit(nulls, base, j + 1, vs);
    PackedBit(nulls, base, j + 2, vs);
    PackedBit(nulls, base, j + 3, vs);
    Scaled(vs, base + j + 1, 1, 2);
    Scaled(vs, base + j + 2, 1, 4);
    Scaled(vs, base + j + 3, 1, 8);
  }

  lemma PackedBit(nulls: seq<bool>, base: nat, j: nat, vs: seq<RowValue>)
    requires nulls == NullsOf(vs) && j < 8
    ensures NullBitmap.PackFrom(nulls, base, j) == Weight(vs, base + j, 1) + 2 * NullBitmap.PackFrom(nulls, base, j + 1)
  {
  }

  lemma PackedEnd(nulls: seq<bool>, base: nat)
    ensures NullBitmap.PackFrom(nulls, base, 8) == 0
  {
  }

  lemma BitmapBytes(vs: seq<RowValue>)
    ensures NullBitmap.Pack(NullsOf(vs)) == NullBytes(vs)
  {
    hide NullBitmap.PackFrom, NullByte;
    var a, b := NullBitmap.Pack(NullsOf(vs)), NullBytes(vs);
    forall q | 0 <= q < |b| ensures a[q] == b[q] { PackedByte(NullsOf(vs), 8 * q, vs); }
  }

  lemma CellBytes(host: Host, t: ColumnType, v: RowValue, k: bytes)
    requires Writable(t, v)
    ensures Put(ValueFormat(host, t), v, k) == Cell(v) + k
  {
    hide PutStr, PutI64, PutBytes, PutBool, W.Text, W.I64, W.Blob, W.Flag, ValueFormat, IsStr;
    ValuePut(host, t, v, k);
    match v
    case Text(s) => TextBytes(s, k);
    case Integer(n) => I64Bytes(n, k);
    case Float(bits) =>
    case Boolean(b) => BoolBytes(b, k);
    case Blob(data) => BlobBytes(data, k);
    case Null =>
  }

  lemma {:induction false} CellsBytes(host: Host, shape: Shape, vs: seq<RowValue>, i: nat, k: bytes)
    requires RowWritable(shape, vs) && i <= |vs|
    ensures PutCells(host, shape, vs, i, k) == W.Each(Cell, vs[i..]) + k
    decreases |vs| - i
  {
    hide Writable, Cell, ValueFormat;
    if i < |vs| {
      CellsBytes(host, shape, vs, i + 1, k);
      assert vs[i..][1..] == vs[i + 1..];
      if vs[i].Null? {
        NullCellBytes();
      } else {
        CellBytes(host, shape[i].0, vs[i], W.Each(Cell, vs[i + 1..]) + k);
        Chain2(Cell(vs[i]), W.Each(Cell, vs[i + 1..]), k);
      }
    }
  }

  lemma NullCellBytes()
    ensures Cell(Null) == []
  {
  }

  /** `encodeRow`: the bitmap, then the cells that are not null. */
  lemma RowLayout(host: Host, shape: Shape, vs: seq<RowValue>, k: bytes)
    requires RowWritable(shape, vs)
    ensures Put(RowFormat(host, shape), vs, k) == Row(vs) + k
  {
    hide RowFormat, NullBitmap.Pack, NullBytes, W.Each, PutCells, Writable;
    RowPut(host, shape, vs, k);
    BitmapBytes(vs);
    CellsBytes(host, shape, vs, 0, k);
    assert vs[0..] == vs;
    Chain2(NullBytes(vs), W.Each(Cell, vs), k);
  }

  // ----- Segments -----------------------------------------------------------------------------------------------------

  lemma RecordLayout(host: Host, shape: Shape, r: SegmentRow, k: bytes)
    requires SegmentIO.RowRecordWritable(shape, r)
    ensures Put(SegmentRowFormat(host, shape), r, k) == RowRecord(r) + k
  {
    hide SegmentRowFormat, RowFormat, PutI64, W.I64, Row, RowWritable;
    SegmentIO.RowRecordPut(host, shape, r, k);
    RowLayout(host, shape, r.values, k);
    I64Bytes(r.serverVersion, Row(r.values) + k);
    Chain2(W.I64(r.serverVersion), Row(r.values), k);
  }

  lemma {:induction false} RecordsLayout(host: Host, shape: Shape, rows: seq<SegmentRow>, k: bytes)
    requires SegmentIO.RowsWritable(shape, rows)
    ensures PutAll(SegmentRowFormat(host, shape), rows, k) == W.Each(RowRecord, rows) + k
  {
    hide SegmentRowFormat, RowRecord, SegmentIO.RowRecordWritable;
    if rows != [] {
      RecordsLayout(host, shape, rows[1..], k);
      RecordLayout(host, shape, rows[0], W.Each(RowRecord, rows[1..]) + k);
      Chain2(RowRecord(rows[0]), W.Each(RowRecord, rows[1..]), k);
    }
  }

  lemma BlockLayout(host: Host, shape: Shape, block: seq<SegmentRow>, k: bytes)
    requires SegmentIO.RowsWritable(shape, block)
    ensures PutU32(|block|, Put(BlockFormat(host, shape, |block|), block, k)) == Block(block) + k
  {
    hide PutU32, PutAll, SegmentRowFormat, BlockFormat, W.Each, W.U32, SegmentIO.RowsWritable;
    SegmentIO.BlockPut(host, shape, |block|, block, k);
    RecordsLayout(host, shape, block, []);
    var rows := W.Each(RowRecord, block);
    assert rows + [] == rows;
    BlobBytes(rows, k);
    U32Bytes(|block|, W.Blob(rows) + k);
    Chain2(W.U32(|block|), W.Blob(rows), k);
  }

  lemma {:induction false} BlocksLayout(host: Host, shape: Shape, blocks: seq<seq<SegmentRow>>, k: bytes)
    requires forall i :: 0 <= i < |blocks| ==> SegmentIO.RowsWritable(shape, blocks[i])
    ensures PutBlocks(host, shape, blocks, k) == W.Each(Block, blocks) + ([0, 0, 0, 0] + k)
  {
    hide PutU32, BlockFormat, Block, SegmentIO.RowsWritable;
    if blocks == [] {
      U32Bytes(0, k);
      assert W.U32(0) == [0, 0, 0, 0] by { FourDigits(0); }
    } else {
      BlocksLayout(host, shape, blocks[1..], k);
      var rest := [0, 0, 0, 0] + k;
      BlockLayout(host, shape, blocks[0], W.Each(Block, blocks[1..]) + rest);
      Chain2(Block(blocks[0]), W.Each(Block, blocks[1..]), rest);
    }
  }

  lemma ColumnLayout(c: RowColumn, k: bytes)
    ensures Put(ColumnFormat(), c, k) == Column(c) + k
  {
    hide PutStr, PutU8, PutBool, W.Text, W.Flag, ColumnFormat;
    SegmentIO.ColumnPut(c, k);
    BoolBytes(c.nullable, k);
    ByteBytes(TypeTag(c.ctype), W.Flag(c.nullable) + k);
    TextBytes(c.name, [TypeTag(c.ctype)] + (W.Flag(c.nullable) + k));
    Chain3(W.Text(c.name), [TypeTag(c.ctype)], W.Flag(c.nullable), k);
  }

  lemma ColumnsLay()
    ensures Lays(ColumnFormat(), Column)
  {
    hide ColumnFormat, Column, Put;
    forall c: RowColumn, k: bytes ensures Put(ColumnFormat(), c, k) == Column(c) + k { ColumnLayout(c, k); }
  }

  lemma OneAndZero(k: bytes)
    ensures PutU16(FORMAT_VERSION, k) == [1, 0] + k && PutU16(0, k) == [0, 0] + k
  {
  }

  /** `encodeRowsSegment` emits exactly the bytes laid out for its segment. */
  lemma SegmentLayout(host: Host, g: RowsSegment)
    requires SegmentIO.SegmentWritable(host, g)
    ensures Put(SegmentFormat(host), g, []) == SegmentBytes(g)
  {
    hide PutStr, PutU16, PutI32, PutAll, PutBlocks, SegmentFormat, HeaderFormat, ColumnFormat, Column, Block;
    hide W.Text, W.I32, W.Each, W.Digits, SegmentIO.RowsWritable, SegmentIO.HeaderWritable, SegmentIO.RowBytes;
    var h, shape, end: bytes := g.header, ShapeOf(g.header.columns), [0, 0, 0, 0];
    SegmentIO.SegmentPut(host, g, []);
    SegmentIO.HeaderPut(h, PutBlocks(host, shape, g.blocks, []));
    assert forall i :: 0 <= i < |g.blocks| ==> SegmentIO.BlockWritable(host, shape, g.blocks[i]);
    BlocksLayout(host, shape, g.blocks, []);
    assert end + [] == end;
    var blocks := W.Each(Block, g.blocks);
    ColumnsLay();
    EachBytes(ColumnFormat(), Column, h.columns, blocks + end);
    var columns := W.Each(Column, h.columns);
    var count := W.Digits(|h.columns|, 2);
    U16Bytes(|h.columns|, columns + (blocks + end));
    Chain2(count, columns, blocks + end);
    var tail := (count + columns) + (blocks + end);
    I32Bytes(h.schemaVersion, tail);
    TextBytes(h.table, W.I32(h.schemaVersion) + tail);
    var body := W.Text(h.table) + (W.I32(h.schemaVersion) + tail);
    OneAndZero(body);
    OneAndZero([0, 0] + body);
    Chain6([0x53, 0x53, 0x47, 0x32], [1, 0], [0, 0], W.Text(h.table), W.I32(h.schemaVersion), count + columns, blocks + end);
    Chain2([0x53, 0x53, 0x47, 0x32] + [1, 0] + [0, 0] + W.Text(h.table) + W.I32(h.schemaVersion) + (count + columns), blocks, end);
  }
}
