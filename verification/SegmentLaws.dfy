/** Rows segments and their bytes determine each other. */
module SegmentLaws {
  import opened Results
  import opened Primitives
  import opened Formats
  import opened Hosts
  import opened RowCodec
  import opened RowIO
  import opened SegmentCodec
  import opened SegmentIO
  import Utf8

  // ----- What the decoder adds to what the encoder accepts ---------------------------------------

  predicate RowsReadable(host: Host, shape: Shape, block: seq<SegmentRow>) {
    forall j :: 0 <= j < |block| ==> RowReadable(host, shape, block[j].values)
  }

  predicate RowsClean(block: seq<SegmentRow>) {
    forall j :: 0 <= j < |block| ==> RowClean(block[j].values)
  }

  predicate SegmentReadable(host: Host, g: RowsSegment) {
    forall i :: 0 <= i < |g.blocks| ==> RowsReadable(host, ShapeOf(g.header.columns), g.blocks[i])
  }

  /** No text in the segment starts with U+FEFF. */
  predicate SegmentClean(g: RowsSegment) {
    && Utf8.Clean(g.header.table)
    && (forall i :: 0 <= i < |g.header.columns| ==> Utf8.Clean(g.header.columns[i].name))
    && (forall i :: 0 <= i < |g.blocks| ==> RowsClean(g.blocks[i]))
  }

  function WireColumns(cs: seq<RowColumn>): seq<RowColumn> {
    seq(|cs|, i requires 0 <= i < |cs| => OnWire(cs[i]))
  }

  /** The segment with its columns reduced to what the wire carries. */
  function WireSegment(g: RowsSegment): RowsSegment {
    g.(header := g.header.(columns := WireColumns(g.header.columns)))
  }

  // ----- The format's `ok` and `clean`, unfolded --------------------------------------------------

  lemma ColumnOk(c: RowColumn)
    ensures ColumnFormat().ok(c) <==> IsStr(c.name) && c == OnWire(c)
    ensures ColumnFormat().clean(c) <==> Utf8.Clean(c.name)
  {
    hide IsStr, PutStr;
    var f := PairFormat(StrFormat(), PairFormat(TagFormat(), BoolFormat()));
    ViaOk(f, ToColumn, FromColumn, c);
    ViaOk(U8Format(), TypeFromTag, TypeTag, c.ctype);
    assert TypeFromTag(TypeTag(c.ctype)) == Ok(c.ctype);
  }

  lemma HeaderOk(h: Header)
    ensures HeaderFormat().ok(h) <==> HeaderWritable(h) && h.columns == WireColumns(h.columns)
    ensures HeaderFormat().clean(h) <==>
              Utf8.Clean(h.table) && forall i :: 0 <= i < |h.columns| ==> Utf8.Clean(h.columns[i].name)
  {
    hide IsStr, PutStr, ColumnFormat;
    ColumnsOk(h.columns);
    var body := (h.table, (h.schemaVersion, h.columns));
    assert BodyFormat().ok(body) <==> IsStr(h.table) && IsI32(h.schemaVersion) && ColumnsFormat().ok(h.columns);
    assert BodyFormat().clean(body) <==> Utf8.Clean(h.table) && ColumnsFormat().clean(h.columns);
    ViaOk(RawFormat(4), CheckMagic, PutMagic, ());
    ViaOk(U16Format(), CheckVersion, PutVersion, ());
    ViaOk(U16Format(), CheckFlags, PutFlags, ());
    ViaOk(PreambleFormat(), ToHeader, FromHeader, h);
  }

  lemma ColumnsOk(cs: seq<RowColumn>)
    ensures ColumnsFormat().ok(cs) <==> ColumnsWritable(cs) && cs == WireColumns(cs)
    ensures ColumnsFormat().clean(cs) <==> forall i :: 0 <= i < |cs| ==> Utf8.Clean(cs[i].name)
  {
    hide IsStr, ColumnFormat;
    ViaOk(DepFormat(U16Format(), ColumnsOf), CheckCount, WithCount, cs);
    forall i | 0 <= i < |cs|
      ensures ColumnFormat().ok(cs[i]) <==> IsStr(cs[i].name) && cs[i] == WireColumns(cs)[i]
      ensures ColumnFormat().clean(cs[i]) <==> Utf8.Clean(cs[i].name)
    {
      ColumnOk(cs[i]);
    }
    assert AllOk(ColumnFormat(), cs) <==> (forall i :: 0 <= i < |cs| ==> IsStr(cs[i].name)) && cs == WireColumns(cs);
  }

  lemma RowRecordOk(host: Host, shape: Shape, r: SegmentRow)
    ensures SegmentRowFormat(host, shape).ok(r)
       <==> RowRecordWritable(shape, r) && RowReadable(host, shape, r.values)
    ensures RowRecordWritable(shape, r) && RowReadable(host, shape, r.values) ==>
              (SegmentRowFormat(host, shape).clean(r) <==> RowClean(r.values))
  {
    hide RowFormat, RowWritable, RowReadable, RowClean;
    var f := PairFormat(ServerVersionFormat(), RowFormat(host, shape));
    ViaOk(f, ToRow, FromRow, r);
    ViaOk(I64Format(), CheckServerVersion, Id, r.serverVersion);
    if RowFormat(host, shape).ok(r.values) { RowOkOnly(host, shape, r.values); }
    if RowWritable(shape, r.values) && RowReadable(host, shape, r.values) { RowOk(host, shape, r.values); }
  }

  lemma BlockOkIff(host: Host, shape: Shape, block: seq<SegmentRow>)
    ensures BlockOk(host, shape, block) <==> BlockWritable(host, shape, block) && RowsReadable(host, shape, block)
    ensures BlockOk(host, shape, block) ==>
              (BlockFormat(host, shape, |block|).clean(block) <==> RowsClean(block))
  {
    hide SegmentRowFormat, RowRecordWritable, RowReadable, RowClean, PutAll;
    forall i | 0 <= i < |block|
      ensures SegmentRowFormat(host, shape).ok(block[i])
         <==> RowRecordWritable(shape, block[i]) && RowReadable(host, shape, block[i].values)
      ensures SegmentRowFormat(host, shape).ok(block[i]) ==>
                (SegmentRowFormat(host, shape).clean(block[i]) <==> RowClean(block[i].values))
    {
      RowRecordOk(host, shape, block[i]);
    }
    var f := ExactlyFormat(SegmentRowFormat(host, shape), |block|);
    assert f.put(block, []) == RowBytes(host, shape, block);
  }

  lemma SegmentOk(host: Host, g: RowsSegment)
    ensures SegmentFormat(host).ok(g) <==> SegmentWritable(host, g) && SegmentReadable(host, g) && g == WireSegment(g)
    ensures SegmentFormat(host).ok(g) ==> (SegmentFormat(host).clean(g) <==> SegmentClean(g))
  {
    hide HeaderFormat, BlockFormat, HeaderWritable, BlockWritable, RowsReadable, RowsClean, BlockOk, PutBlocks, ReadBlocks, WireColumns;
    var shape := ShapeOf(g.header.columns);
    HeaderOk(g.header);
    ViaOk(DepFormat(HeaderFormat(), BlocksAfter(host)), ToSegment, FromSegment, g);
    forall i | 0 <= i < |g.blocks|
      ensures BlockOk(host, shape, g.blocks[i])
         <==> BlockWritable(host, shape, g.blocks[i]) && RowsReadable(host, shape, g.blocks[i])
      ensures BlockOk(host, shape, g.blocks[i]) ==>
                (BlockFormat(host, shape, |g.blocks[i]|).clean(g.blocks[i]) <==> RowsClean(g.blocks[i]))
    {
      BlockOkIff(host, shape, g.blocks[i]);
    }
    assert g == WireSegment(g) <==> g.header.columns == WireColumns(g.header.columns);
  }

  // ----- Column metadata is not on the wire --------------------------------------------------------

  lemma {:induction false} WireColumnsPut(cs: seq<RowColumn>, k: bytes)
    ensures PutAll(ColumnFormat(), WireColumns(cs), k) == PutAll(ColumnFormat(), cs, k)
  {
    hide ColumnFormat, Put;
    if cs != [] {
      WireColumnsPut(cs[1..], k);
      assert WireColumns(cs)[1..] == WireColumns(cs[1..]);
      var tail := PutAll(ColumnFormat(), cs[1..], k);
      ColumnPut(cs[0], tail);
      ColumnPut(OnWire(cs[0]), tail);
      PutAllFirst(ColumnFormat(), cs, k);
      PutAllFirst(ColumnFormat(), WireColumns(cs), k);
    }
  }

  lemma PutAllFirst<T>(f: Format<T>, xs: seq<T>, k: bytes)
    requires xs != []
    ensures PutAll(f, xs, k) == Put(f, xs[0], PutAll(f, xs[1..], k))
  {
  }

  lemma WirePut(host: Host, g: RowsSegment, k: bytes)
    ensures Put(SegmentFormat(host), WireSegment(g), k) == Put(SegmentFormat(host), g, k)
    ensures ShapeOf(WireSegment(g).header.columns) == ShapeOf(g.header.columns)
  {
    hide SegmentFormat, HeaderFormat, PutAll, PutBlocks, Put;
    var v := WireSegment(g);
    assert ShapeOf(v.header.columns) == ShapeOf(g.header.columns);
    SegmentPut(host, g, k);
    SegmentPut(host, v, k);
    var blocks := PutBlocks(host, ShapeOf(g.header.columns), g.blocks, k);
    HeaderPut(g.header, blocks);
    HeaderPut(v.header, blocks);
    WireColumnsPut(g.header.columns, blocks);
  }

  // ----- The two directions ---------------------------------------------------------------------------

  /**
   * Every accepted segment can be encoded again, and gives back the same bytes exactly when
   * they hold no byte order mark at the start of a text.
   */
  lemma SegmentCanonical(host: Host, b: bytes)
    requires ReadWhole(SegmentFormat(host), false, b).Ok?
    ensures var g := ReadWhole(SegmentFormat(host), false, b).value;
            && SegmentWritable(host, g) && SegmentReadable(host, g) && WireSegment(g) == g
            && (Put(SegmentFormat(host), g, []) == b <==> BomFree(SegmentFormat(host), b))
  {
    hide SegmentFormat, Lawful, BomFree, SegmentWritable, SegmentReadable, WireSegment;
    SegmentLawful(host);
    WholeCanonical(SegmentFormat(host), 22, b);
    SegmentOk(host, ReadWhole(SegmentFormat(host), false, b).value);
  }

  lemma WireReadable(host: Host, g: RowsSegment)
    ensures SegmentReadable(host, WireSegment(g)) <==> SegmentReadable(host, g)
    ensures SegmentWritable(host, WireSegment(g)) <==> SegmentWritable(host, g)
    ensures SegmentClean(WireSegment(g)) <==> SegmentClean(g)
    ensures WireSegment(WireSegment(g)) == WireSegment(g)
  {
    hide BlockWritable, RowsReadable, RowsClean, Utf8.Clean, IsStr;
    var v := WireSegment(g);
    assert WireColumns(v.header.columns) == v.header.columns;
    assert ShapeOf(v.header.columns) == ShapeOf(g.header.columns);
    assert forall i :: 0 <= i < |g.header.columns| ==> v.header.columns[i].name == g.header.columns[i].name;
  }

  /**
   * `decodeRowsSegment` returns what `encodeRowsSegment` was given, columns reduced to their wire
   * fields, exactly when its JSON and blob-reference cells are valid and no text in it starts with U+FEFF.
   */
  lemma SegmentRoundTrip(host: Host, g: RowsSegment)
    requires SegmentWritable(host, g)
    ensures ReadWhole(SegmentFormat(host), false, Put(SegmentFormat(host), g, [])) == Ok(WireSegment(g))
       <==> SegmentReadable(host, g) && SegmentClean(g)
  {
    hide SegmentFormat, Lawful, SegmentWritable, SegmentReadable, SegmentClean, WireSegment, ReadWhole, Put;
    var v, b := WireSegment(g), Put(SegmentFormat(host), g, []);
    WirePut(host, g, []);
    WireReadable(host, g);
    SegmentOk(host, v);
    SegmentLawful(host);
    if ReadWhole(SegmentFormat(host), false, b) == Ok(v) { SegmentCanonical(host, b); }
    if SegmentReadable(host, g) { PutWholeRoundTrip(SegmentFormat(host), 22, v); }
  }

  lemma PutWholeRoundTrip<T(!new)>(f: Format<T>, least: nat, x: T)
    requires Lawful(f, least) && f.ok(x)
    ensures ReadWhole(f, false, Put(f, x, [])) == Ok(x) <==> f.clean(x)
  {
    hide Lawful, ReadWhole;
    WholeRoundTrip(f, least, x);
  }
}
