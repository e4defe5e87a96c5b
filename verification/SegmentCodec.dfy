/** The rows segment format of packages/core/src/segment.ts. */
module SegmentCodec {
  import opened Results
  import opened Primitives
  import opened Formats
  import opened Hosts
  import opened RowCodec
  import NullBitmap

  datatype SegmentRow = SegmentRow(serverVersion: int, values: seq<RowValue>)

  datatype Header = Header(table: string, schemaVersion: int, columns: seq<RowColumn>)

  /** A table's rows, cut into blocks; how a row is laid out follows from the columns of the header. */
  datatype RowsSegment = RowsSegment(header: Header, blocks: seq<seq<SegmentRow>>)

  const MAGIC: bytes := [0x53, 0x53, 0x47, 0x32] // "SSG2"
  const FORMAT_VERSION := 1

  // ----- Columns -----------------------------------------------------------------------

  function TagFormat(): Format<ColumnType> { ViaFormat(U8Format(), TypeFromTag, TypeTag) }

  /** The wire carries a column's name, type and nullability, and nothing else. */
  function OnWire(c: RowColumn): RowColumn {
    c.(crdtType := None, encrypted := None, declaredType := None)
  }

  function ToColumn(x: (string, (ColumnType, bool))): Result<RowColumn> {
    Ok(RowColumn(x.0, x.1.0, x.1.1, None, None, None))
  }

  function FromColumn(c: RowColumn): (string, (ColumnType, bool)) { (c.name, (c.ctype, c.nullable)) }

  function ColumnFormat(): Format<RowColumn> {
    ViaFormat(PairFormat(StrFormat(), PairFormat(TagFormat(), BoolFormat())), ToColumn, FromColumn)
  }

  lemma ColumnLawful()
    ensures Lawful(ColumnFormat(), 6)
  {
    hide PairFormat, ViaFormat, ListFormat, DepFormat, OptFormat, Lawful, StrFormat, BoolFormat, U8Format;
    U8Lawful();
    ViaLawful(U8Format(), 1, TypeFromTag, TypeTag);
    BoolLawful();
    PairLawful(TagFormat(), 1, BoolFormat(), 1);
    StrLawful();
    PairLawful(StrFormat(), 4, PairFormat(TagFormat(), BoolFormat()), 2);
    ViaLawful(PairFormat(StrFormat(), PairFormat(TagFormat(), BoolFormat())), 6, ToColumn, FromColumn);
  }

  function ColumnsOf(n: int): Format<seq<RowColumn>> { ExactlyFormat(ColumnFormat(), if n < 0 then 0 else n) }

  function CheckCount(x: (int, seq<RowColumn>)): Result<seq<RowColumn>> {
    if x.0 == |x.1| then Ok(x.1) else Err(InvalidRequest)
  }

  function WithCount(cs: seq<RowColumn>): (int, seq<RowColumn>) { (|cs|, cs) }

  /** The column table: a sixteen-bit count, then that many columns. */
  function ColumnsFormat(): Format<seq<RowColumn>> {
    ViaFormat(DepFormat(U16Format(), ColumnsOf), CheckCount, WithCount)
  }

  lemma ColumnsLawful()
    ensures Lawful(ColumnsFormat(), 2)
  {
    hide PairFormat, ViaFormat, ListFormat, DepFormat, OptFormat, Lawful, U16Format, ColumnFormat, ExactlyFormat;
    ColumnLawful();
    forall n ensures Lawful(ColumnsOf(n), 0) {
      var count := if n < 0 then 0 else n;
      ExactlyLawful(ColumnFormat(), 6, count);
      Weaken(ColumnsOf(n), count * 6, 0);
    }
    U16Lawful();
    U16Steady();
    DepLawful(U16Format(), 2, ColumnsOf, 0);
    ViaLawful(DepFormat(U16Format(), ColumnsOf), 2, CheckCount, WithCount);
  }

  lemma U16Steady()
    ensures Steady(U16Format(), ColumnsOf)
  {
    forall s ensures SteadyAt(U16Format(), ColumnsOf, s) {
      assert U16Format().read(true, s) == U16Format().read(false, s);
    }
  }

  // ----- The header -----------------------------------------------------------------------

  function CheckMagic(m: bytes): Result<()> { if m == MAGIC then Ok(()) else Err(InvalidRequest) }

  function PutMagic(u: ()): bytes { MAGIC }

  function CheckVersion(v: int): Result<()> { if v == FORMAT_VERSION then Ok(()) else Err(InvalidRequest) }

  function PutVersion(u: ()): int { FORMAT_VERSION }

  function CheckFlags(v: int): Result<()> { if v == 0 then Ok(()) else Err(InvalidRequest) }

  function PutFlags(u: ()): int { 0 }

  function MagicFormat(): Format<()> { ViaFormat(RawFormat(4), CheckMagic, PutMagic) }

  function VersionFormat(): Format<()> { ViaFormat(U16Format(), CheckVersion, PutVersion) }

  function FlagsFormat(): Format<()> { ViaFormat(U16Format(), CheckFlags, PutFlags) }

  type Preamble = ((), ((), ((), (string, (int, seq<RowColumn>)))))

  function ToHeader(x: Preamble): Result<Header> { Ok(Header(x.1.1.1.0, x.1.1.1.1.0, x.1.1.1.1.1)) }

  function FromHeader(h: Header): Preamble { ((), ((), ((), (h.table, (h.schemaVersion, h.columns))))) }

  function BodyFormat(): Format<(string, (int, seq<RowColumn>))> {
    PairFormat(StrFormat(), PairFormat(I32Format(), ColumnsFormat()))
  }

  function PreambleFormat(): Format<Preamble> {
    PairFormat(MagicFormat(), PairFormat(VersionFormat(), PairFormat(FlagsFormat(), BodyFormat())))
  }

  function HeaderFormat(): Format<Header> { ViaFormat(PreambleFormat(), ToHeader, FromHeader) }

  lemma BodyLawful()
    ensures Lawful(BodyFormat(), 10)
  {
    hide PairFormat, ViaFormat, ListFormat, DepFormat, OptFormat, Lawful, StrFormat, I32Format, ColumnsFormat;
    StrLawful();
    I32Lawful();
    ColumnsLawful();
    PairLawful(I32Format(), 4, ColumnsFormat(), 2);
    PairLawful(StrFormat(), 4, PairFormat(I32Format(), ColumnsFormat()), 6);
  }

  lemma UnitsEqual(a: (), b: ())
    ensures a == b
  {
    match a { case () => match b { case () => } }
  }

  lemma HeaderLawful()
    ensures Lawful(HeaderFormat(), 18)
  {
    hide PairFormat, ViaFormat, ListFormat, DepFormat, OptFormat, Lawful, U16Format, RawFormat, BodyFormat;
    RawLawful(4);
    ViaLawful(RawFormat(4), 4, CheckMagic, PutMagic);
    U16Lawful();
    ViaLawful(U16Format(), 2, CheckVersion, PutVersion);
    ViaLawful(U16Format(), 2, CheckFlags, PutFlags);
    BodyLawful();
    PairLawful(FlagsFormat(), 2, BodyFormat(), 10);
    PairLawful(VersionFormat(), 2, PairFormat(FlagsFormat(), BodyFormat()), 12);
    PairLawful(MagicFormat(), 4, PairFormat(VersionFormat(), PairFormat(FlagsFormat(), BodyFormat())), 14);
    forall x: Preamble ensures FromHeader(ToHeader(x).value) == x {
      UnitsEqual(x.0, x.1.0);
      UnitsEqual(x.0, x.1.1.0);
      UnitsEqual(x.0, ());
    }
    ViaLawful(PreambleFormat(), 18, ToHeader, FromHeader);
  }

  // ----- Rows and blocks --------------------------------------------------------------------

  function CheckServerVersion(v: int): Result<int> { if v < 1 then Err(InvalidRequest) else Ok(v) }

  function ServerVersionFormat(): Format<int> { ViaFormat(I64Format(), CheckServerVersion, Id) }

  function ToRow(x: (int, seq<RowValue>)): Result<SegmentRow> { Ok(SegmentRow(x.0, x.1)) }

  function FromRow(r: SegmentRow): (int, seq<RowValue>) { (r.serverVersion, r.values) }

  function SegmentRowFormat(host: Host, shape: Shape): Format<SegmentRow> {
    ViaFormat(PairFormat(ServerVersionFormat(), RowFormat(host, shape)), ToRow, FromRow)
  }

  /** A row record takes eight bytes at least. */
  lemma SegmentRowLawful(host: Host, shape: Shape)
    ensures Lawful(SegmentRowFormat(host, shape), 8)
  {
    hide PairFormat, ViaFormat, ListFormat, DepFormat, OptFormat, Lawful, I64Format, RowFormat;
    I64Lawful();
    ViaLawful(I64Format(), 8, CheckServerVersion, Id);
    RowLawful(host, shape);
    Weaken(RowFormat(host, shape), NullBitmap.Length(|shape|), 0);
    PairLawful(ServerVersionFormat(), 8, RowFormat(host, shape), 0);
    ViaLawful(PairFormat(ServerVersionFormat(), RowFormat(host, shape)), 8, ToRow, FromRow);
  }

  /** The rows of one block, behind their byte length. */
  function BlockFormat(host: Host, shape: Shape, n: nat): Format<seq<SegmentRow>> {
    DelimitedFormat(ExactlyFormat(SegmentRowFormat(host, shape), n))
  }

  lemma BlockLawful(host: Host, shape: Shape, n: nat)
    ensures Lawful(BlockFormat(host, shape, n), 4)
  {
    hide PairFormat, ViaFormat, ListFormat, DepFormat, OptFormat, Lawful, SegmentRowFormat;
    SegmentRowLawful(host, shape);
    ExactlyLawful(SegmentRowFormat(host, shape), 8, n);
    DelimitedLawful(ExactlyFormat(SegmentRowFormat(host, shape), n), n * 8);
  }

  lemma BlockProgress(host: Host, shape: Shape, n: nat, keepBom: bool, s: bytes)
    requires BlockFormat(host, shape, n).read(keepBom, s).Parsed?
    ensures |BlockFormat(host, shape, n).read(keepBom, s).rest| + 4 <= |s|
  {
    hide BlockFormat;
    BlockLawful(host, shape, n);
    assert SoundAt(BlockFormat(host, shape, n), 4, keepBom, s);
  }

  function PutBlocks(host: Host, shape: Shape, blocks: seq<seq<SegmentRow>>, k: bytes): bytes {
    if blocks == [] then PutU32(0, k)
    else
      var n := |blocks[0]|;
      PutU32(n, BlockFormat(host, shape, n).put(blocks[0], PutBlocks(host, shape, blocks[1..], k)))
  }

  /** Blocks until the end marker, a row count of zero. */
  function ReadBlocks(host: Host, shape: Shape, keepBom: bool, s: bytes): Parsed<seq<seq<SegmentRow>>>
    decreases |s|
  {
    var (n, s1) :- ReadU32(s);
    if n == 0 then Parsed([], s1)
    else
      var (block, s2) :- BlockFormat(host, shape, n).read(keepBom, s1);
      BlockProgress(host, shape, n, keepBom, s1);
      var (blocks, k) :- ReadBlocks(host, shape, keepBom, s2);
      Parsed([block] + blocks, k)
  }

  predicate BlockOk(host: Host, shape: Shape, block: seq<SegmentRow>) {
    0 < |block| < U32_LIMIT && BlockFormat(host, shape, |block|).ok(block)
  }

  predicate BlocksOk(host: Host, shape: Shape, blocks: seq<seq<SegmentRow>>) {
    forall i :: 0 <= i < |blocks| ==> BlockOk(host, shape, blocks[i])
  }

  predicate BlocksClean(host: Host, shape: Shape, blocks: seq<seq<SegmentRow>>) {
    forall i :: 0 <= i < |blocks| ==> BlockFormat(host, shape, |blocks[i]|).clean(blocks[i])
  }

  lemma {:induction false} BlocksRoundTrip(host: Host, shape: Shape, blocks: seq<seq<SegmentRow>>, k: bytes)
    requires BlocksOk(host, shape, blocks)
    ensures ReadBlocks(host, shape, true, PutBlocks(host, shape, blocks, k)) == Parsed(blocks, k)
  {
    hide PutU32, ReadU32, BlockFormat;
    if blocks == [] {
      U32RoundTrip(0, k);
    } else {
      var block, n := blocks[0], |blocks[0]|;
      assert BlockOk(host, shape, block);
      var f, tail := BlockFormat(host, shape, n), PutBlocks(host, shape, blocks[1..], k);
      BlockLawful(host, shape, n);
      BlocksRoundTrip(host, shape, blocks[1..], k);
      U32RoundTrip(n, f.put(block, tail));
      U32Size(n, f.put(block, tail), []);
      assert RoundTripsAt(f, block, tail) && AdditiveAt(f, block, tail);
      assert [block] + blocks[1..] == blocks;
    }
  }

  lemma {:induction false} BlocksExact(host: Host, shape: Shape, s: bytes)
    requires ReadBlocks(host, shape, true, s).Parsed?
    ensures var r := ReadBlocks(host, shape, true, s); s == PutBlocks(host, shape, r.value, r.rest)
    decreases |s|
  {
    hide PutU32, BlockFormat;
    U32Exact(s);
    var n, s1 := ReadU32(s).value, s[4..];
    if n != 0 {
      var f := BlockFormat(host, shape, n);
      var h, r := f.read(true, s1), ReadBlocks(host, shape, true, s);
      BlockLawful(host, shape, n);
      assert ExactAt(f, s1) && SoundAt(f, 4, true, s1);
      BlockCount(host, shape, n, true, s1);
      BlocksExact(host, shape, h.rest);
      assert r.value[1..] == ReadBlocks(host, shape, true, h.rest).value;
    }
  }

  /** The block read has the count that was announced. */
  lemma BlockCount(host: Host, shape: Shape, n: nat, keepBom: bool, s: bytes)
    requires BlockFormat(host, shape, n).read(keepBom, s).Parsed?
    ensures |BlockFormat(host, shape, n).read(keepBom, s).value| == n
  {
    hide SegmentRowFormat, Lawful;
    BlockLawful(host, shape, n);
    BlockSound(host, shape, n, keepBom, s);
  }

  lemma BlockSound(host: Host, shape: Shape, n: nat, keepBom: bool, s: bytes)
    requires BlockFormat(host, shape, n).read(keepBom, s).Parsed? && Lawful(BlockFormat(host, shape, n), 4)
    ensures BlockFormat(host, shape, n).ok(BlockFormat(host, shape, n).read(keepBom, s).value)
    ensures |BlockFormat(host, shape, n).read(keepBom, s).value| == n
  {
    hide SegmentRowFormat;
    assert SoundAt(BlockFormat(host, shape, n), 4, keepBom, s);
  }

  lemma {:induction false} BlocksSound(host: Host, shape: Shape, keepBom: bool, s: bytes)
    requires ReadBlocks(host, shape, keepBom, s).Parsed?
    ensures var r := ReadBlocks(host, shape, keepBom, s);
            && BlocksOk(host, shape, r.value)
            && |r.rest| + 4 <= |s| && |PutBlocks(host, shape, r.value, r.rest)| <= |s|
    decreases |s|
  {
    hide PutU32, BlockFormat;
    U32Exact(s);
    var n, s1, r := ReadU32(s).value, s[4..], ReadBlocks(host, shape, keepBom, s);
    if n == 0 {
      U32Size(0, r.rest, []);
    } else {
      var f := BlockFormat(host, shape, n);
      var h := f.read(keepBom, s1);
      BlockLawful(host, shape, n);
      BlockSound(host, shape, n, keepBom, s1);
      assert SoundAt(f, 4, keepBom, s1);
      BlocksSound(host, shape, keepBom, h.rest);
      var t := ReadBlocks(host, shape, keepBom, h.rest);
      assert r.value[0] == h.value && r.value[1..] == t.value;
      var tail := PutBlocks(host, shape, t.value, t.rest);
      assert AdditiveAt(f, h.value, tail) && AdditiveAt(f, h.value, h.rest);
      U32Size(n, f.put(h.value, tail), []);
      forall i | 0 <= i < |r.value| ensures BlockOk(host, shape, r.value[i]) {
        if i > 0 { assert r.value[i] == t.value[i - 1]; }
      }
    }
  }

  lemma {:induction false} BlocksAdditive(host: Host, shape: Shape, blocks: seq<seq<SegmentRow>>, k: bytes)
    ensures |PutBlocks(host, shape, blocks, k)| == |PutBlocks(host, shape, blocks, [])| + |k|
  {
    hide PutU32, BlockFormat;
    if blocks == [] {
      U32Size(0, k, []);
      U32Size(0, [], []);
    } else {
      BlocksAdditive(host, shape, blocks[1..], k);
      var n := |blocks[0]|;
      var f, a, b := BlockFormat(host, shape, n), PutBlocks(host, shape, blocks[1..], k), PutBlocks(host, shape, blocks[1..], []);
      BlockLawful(host, shape, n);
      assert AdditiveAt(f, blocks[0], a) && AdditiveAt(f, blocks[0], b);
      U32Size(n, f.put(blocks[0], a), []);
      U32Size(n, f.put(blocks[0], b), []);
    }
  }

  lemma {:induction false} BlocksAgree(host: Host, shape: Shape, s: bytes)
    requires ReadBlocks(host, shape, true, s).Parsed?
    ensures var r, d := ReadBlocks(host, shape, true, s), ReadBlocks(host, shape, false, s);
            && (BlocksClean(host, shape, r.value) ==> d == r)
            && (d.Parsed? ==> d.rest == r.rest && (d.value == r.value ==> BlocksClean(host, shape, r.value)))
    decreases |s|
  {
    hide BlockFormat;
    U32Exact(s);
    var n, s1 := ReadU32(s).value, s[4..];
    if n != 0 {
      var f := BlockFormat(host, shape, n);
      var h := f.read(true, s1);
      BlockLawful(host, shape, n);
      assert AgreesAt(f, s1);
      BlockProgress(host, shape, n, true, s1);
      BlockSound(host, shape, n, true, s1);
      BlocksAgree(host, shape, h.rest);
      var t := ReadBlocks(host, shape, true, h.rest);
      BlocksCleanCons(host, shape, h.value, t.value);
      var d := ReadBlocks(host, shape, false, s);
      if d.Parsed? && d.value == ReadBlocks(host, shape, true, s).value {
        assert d.value[0] == f.read(false, s1).value;
        assert d.value[1..] == ReadBlocks(host, shape, false, h.rest).value;
        assert ([h.value] + t.value)[1..] == t.value;
      }
    }
  }

  lemma BlocksCleanCons(host: Host, shape: Shape, b: seq<SegmentRow>, bs: seq<seq<SegmentRow>>)
    ensures BlocksClean(host, shape, [b] + bs) <==> BlockFormat(host, shape, |b|).clean(b) && BlocksClean(host, shape, bs)
  {
    hide BlockFormat;
    var all := [b] + bs;
    assert all[0] == b;
    assert forall i :: 0 <= i < |bs| ==> bs[i] == all[i + 1];
    assert forall i :: 0 < i < |all| ==> all[i] == bs[i - 1];
  }

  function BlocksFormat(host: Host, shape: Shape): Format<seq<seq<SegmentRow>>> {
    Format(
      bs => BlocksOk(host, shape, bs),
      bs => BlocksClean(host, shape, bs),
      (bs, k) => PutBlocks(host, shape, bs, k),
      (keepBom, s) => ReadBlocks(host, shape, keepBom, s))
  }

  lemma BlocksLawful(host: Host, shape: Shape)
    ensures Lawful(BlocksFormat(host, shape), 4)
  {
    hide PutBlocks, ReadBlocks, BlocksOk, BlocksClean;
    var g := BlocksFormat(host, shape);
    forall bs, k ensures RoundTripsAt(g, bs, k) && AdditiveAt(g, bs, k) {
      BlocksAdditive(host, shape, bs, k);
      if g.ok(bs) { BlocksRoundTrip(host, shape, bs, k); }
    }
    forall s ensures ExactAt(g, s) && AgreesAt(g, s) {
      if ReadBlocks(host, shape, true, s).Parsed? {
        BlocksExact(host, shape, s);
        BlocksAgree(host, shape, s);
      }
    }
    forall keepBom, s ensures SoundAt(g, 4, keepBom, s) {
      if ReadBlocks(host, shape, keepBom, s).Parsed? { BlocksSound(host, shape, keepBom, s); }
    }
  }

  // ----- The whole segment --------------------------------------------------------------------

  function BlocksAfter(host: Host): Header -> Format<seq<seq<SegmentRow>>> {
    (h: Header) => BlocksFormat(host, ShapeOf(h.columns))
  }

  function ToSegment(x: (Header, seq<seq<SegmentRow>>)): Result<RowsSegment> { Ok(RowsSegment(x.0, x.1)) }

  function FromSegment(g: RowsSegment): (Header, seq<seq<SegmentRow>>) { (g.header, g.blocks) }

  function SegmentFormat(host: Host): Format<RowsSegment> {
    ViaFormat(DepFormat(HeaderFormat(), BlocksAfter(host)), ToSegment, FromSegment)
  }

  lemma ColumnShape(s: bytes)
    requires ColumnFormat().read(true, s).Parsed? && ColumnFormat().read(false, s).Parsed?
    ensures var r, d := ColumnFormat().read(true, s), ColumnFormat().read(false, s);
            r.value.ctype == d.value.ctype && r.value.nullable == d.value.nullable && r.rest == d.rest
  {
    hide ReadStr, TypeFromTag, ReadBool;
    if ReadStr(true, s).Parsed? { StrReadersAgree(s); }
  }

  lemma ShapeOfCons(c: RowColumn, cs: seq<RowColumn>)
    ensures ShapeOf([c] + cs) == [(c.ctype, c.nullable)] + ShapeOf(cs)
  {
  }

  lemma {:induction false} ColumnsShape(n: nat, s: bytes)
    requires ReadAll(ColumnFormat(), true, n, s).Parsed? && ReadAll(ColumnFormat(), false, n, s).Parsed?
    ensures ShapeOf(ReadAll(ColumnFormat(), true, n, s).value) == ShapeOf(ReadAll(ColumnFormat(), false, n, s).value)
  {
    hide ColumnFormat;
    if n != 0 {
      ColumnShape(s);
      ColumnsShape(n - 1, ColumnFormat().read(true, s).rest);
      var s1 := ColumnFormat().read(true, s).rest;
      ShapeOfCons(ColumnFormat().read(true, s).value, ReadAll(ColumnFormat(), true, n - 1, s1).value);
      ShapeOfCons(ColumnFormat().read(false, s).value, ReadAll(ColumnFormat(), false, n - 1, s1).value);
    }
  }

  lemma ColumnsFormatShape(s: bytes)
    requires ColumnsFormat().read(true, s).Parsed? && ColumnsFormat().read(false, s).Parsed?
    ensures ShapeOf(ColumnsFormat().read(true, s).value) == ShapeOf(ColumnsFormat().read(false, s).value)
  {
    hide ColumnFormat, ReadU16;
    ColumnsShape(ReadU16(s).value, ReadU16(s).rest);
  }

  lemma BodyShape(s: bytes)
    requires BodyFormat().read(true, s).Parsed? && BodyFormat().read(false, s).Parsed?
    ensures ShapeOf(BodyFormat().read(true, s).value.1.1) == ShapeOf(BodyFormat().read(false, s).value.1.1)
  {
    hide ReadStr, ReadI32, ColumnsFormat;
    StrReadersAgree(s);
    ColumnsFormatShape(ReadI32(ReadStr(true, s).rest).rest);
  }

  lemma HeaderSteady(host: Host)
    ensures Steady(HeaderFormat(), BlocksAfter(host))
  {
    forall s ensures SteadyAt(HeaderFormat(), BlocksAfter(host), s) {
      var r, d := HeaderFormat().read(true, s), HeaderFormat().read(false, s);
      if r.Parsed? && d.Parsed? { HeaderShape(s); }
    }
  }

  lemma HeaderShape(s: bytes)
    requires HeaderFormat().read(true, s).Parsed? && HeaderFormat().read(false, s).Parsed?
    ensures ShapeOf(HeaderFormat().read(true, s).value.columns) == ShapeOf(HeaderFormat().read(false, s).value.columns)
  {
    hide ReadRaw, ReadU16, BodyFormat;
    var s1 := ReadRaw(4, s).rest;
    var s2 := ReadU16(s1).rest;
    var s3 := ReadU16(s2).rest;
    BodyShape(s3);
  }

  lemma SegmentLawful(host: Host)
    ensures Lawful(SegmentFormat(host), 22)
  {
    hide PairFormat, ViaFormat, ListFormat, DepFormat, OptFormat, Lawful, Steady, HeaderFormat, BlocksFormat;
    HeaderLawful();
    HeaderSteady(host);
    forall h: Header ensures Lawful(BlocksAfter(host)(h), 4) {
      BlocksLawful(host, ShapeOf(h.columns));
    }
    DepLawful(HeaderFormat(), 18, BlocksAfter(host), 4);
    ViaLawful(DepFormat(HeaderFormat(), BlocksAfter(host)), 22, ToSegment, FromSegment);
  }
}
