/** `writeRow` and `readRow` of packages/core/src/row-codec.ts, against the row format. */
module RowIO {
  import opened Results
  import opened Primitives
  import opened Formats
  import opened Hosts
  import opened RowCodec
  import opened ByteIO
  import NullBitmap
  import Utf8

  /** `writeValue` does not throw: the value has the column's type and fits the wire. */
  predicate Writable(t: ColumnType, v: RowValue) {
    match t
    case StringCol | JsonCol | BlobRefCol => v.Text? && IsStr(v.text)
    case IntegerCol => v.Integer? && IsSafe(v.n)
    case FloatCol => v.Float? && |v.bits| == 8
    case BooleanCol => v.Boolean?
    case BytesCol | CrdtCol => v.Blob? && IsBytes(v.data)
  }

  /** What only the reader insists on. */
  predicate Readable(host: Host, t: ColumnType, v: RowValue) {
    && (t.JsonCol? && v.Text? ==> IsJson(host, v.text))
    && (t.BlobRefCol? && v.Text? ==> host.isBlobRef(v.text))
  }

  lemma ValueOk(host: Host, t: ColumnType, v: RowValue)
    ensures ValueFormat(host, t).ok(v) <==> Writable(t, v) && Readable(host, t, v)
  {
    hide IsStr, PutStr;
    match t
    case StringCol => assert ToText(FromText(v)) == Ok(v) <==> v.Text?;
    case JsonCol => assert v.Text? ==> CheckJson(host)(FromText(v)) == if IsJson(host, v.text) then Ok(v) else Err(InvalidRequest);
    case BlobRefCol => assert v.Text? ==> CheckBlobRef(host)(FromText(v)) == if host.isBlobRef(v.text) then Ok(v) else Err(InvalidRequest);
    case IntegerCol => assert ToInteger(FromInteger(v)) == Ok(v) <==> v.Integer?;
    case FloatCol => assert ToFloat(FromFloat(v)) == Ok(v) <==> v.Float?;
    case BooleanCol => assert ToBoolean(FromBoolean(v)) == Ok(v) <==> v.Boolean?;
    case BytesCol | CrdtCol => assert ToBlob(FromBlob(v)) == Ok(v) <==> v.Blob?;
  }

  predicate RowWritable(shape: Shape, values: seq<RowValue>) {
    && |values| == |shape|
    && forall i :: 0 <= i < |shape| ==> if values[i].Null? then shape[i].1 else Writable(shape[i].0, values[i])
  }

  predicate RowReadable(host: Host, shape: Shape, values: seq<RowValue>) {
    forall i :: 0 <= i < |shape| && i < |values| ==> Readable(host, shape[i].0, values[i])
  }

  // ----- Writing --------------------------------------------------------------------------

  /** The non-null values from column `i` on. */
  ghost function PutCells(host: Host, shape: Shape, values: seq<RowValue>, i: nat, k: bytes): bytes
    requires i <= |shape| == |values|
    decreases |shape| - i
  {
    if i == |shape| then k
    else if values[i].Null? then PutCells(host, shape, values, i + 1, k)
    else Put(ValueFormat(host, shape[i].0), values[i], PutCells(host, shape, values, i + 1, k))
  }

  lemma {:induction false} CellsPut(host: Host, shape: Shape, values: seq<RowValue>, i: nat, k: bytes)
    requires i <= |shape| == |values|
    ensures Put(CellsFrom(host, shape, NullsOf(values), i), values[i..], k) == PutCells(host, shape, values, i, k)
    decreases |shape| - i
  {
    hide ValueFormat;
    if i < |shape| {
      CellsPut(host, shape, values, i + 1, k);
      assert Split(values[i..]) == (values[i], values[i + 1..]);
      assert NullsOf(values)[i] == values[i].Null?;
    }
  }

  lemma RowPut(host: Host, shape: Shape, values: seq<RowValue>, k: bytes)
    requires |values| == |shape|
    ensures Put(RowFormat(host, shape), values, k)
         == PutRaw(NullBitmap.Pack(NullsOf(values)), PutCells(host, shape, values, 0, k))
  {
    hide CellsFrom;
    var f := DepFormat(NullsFormat(|shape|), CellsFormat(host, shape));
    ViaPut(f, DropNulls, WithNulls, values, k);
    assert f.put(WithNulls(values), k) == PutDep(NullsFormat(|shape|), CellsFormat(host, shape), WithNulls(values), k);
    CellsPut(host, shape, values, 0, k);
    assert values[0..] == values;
  }

  ghost function PutValue(t: ColumnType, v: RowValue, k: bytes): bytes {
    match t
    case StringCol | JsonCol | BlobRefCol => PutStr(FromText(v), k)
    case IntegerCol => PutI64(FromInteger(v), k)
    case FloatCol => PutRaw(FromFloat(v), k)
    case BooleanCol => PutBool(FromBoolean(v), k)
    case BytesCol | CrdtCol => PutBytes(FromBlob(v), k)
  }

  lemma ValuePut(host: Host, t: ColumnType, v: RowValue, k: bytes)
    ensures Put(ValueFormat(host, t), v, k) == PutValue(t, v, k)
  {
    hide PutStr, PutI64, PutBytes, PutBool, PutRaw;
    match t
    case StringCol => ViaPut(StrFormat(), ToText, FromText, v, k);
    case JsonCol => ViaPut(StrFormat(), CheckJson(host), FromText, v, k);
    case BlobRefCol => ViaPut(StrFormat(), CheckBlobRef(host), FromText, v, k);
    case IntegerCol => ViaPut(I64Format(), ToInteger, FromInteger, v, k);
    case FloatCol => ViaPut(F64Format(), ToFloat, FromFloat, v, k);
    case BooleanCol => ViaPut(BoolFormat(), ToBoolean, FromBoolean, v, k);
    case BytesCol | CrdtCol => ViaPut(BytesFormat(), ToBlob, FromBlob, v, k);
  }

  method WriteValue(w: ByteWriter, column: RowColumn, value: RowValue, ghost host: Host) returns (o: Outcome)
    requires w.Valid() && !value.Null?
    modifies w, w.buffer
    ensures w.Valid() && (w.buffer == old(w.buffer) || fresh(w.buffer))
    ensures o.Pass? <==> Writable(column.ctype, value)
    ensures o.Pass? ==> forall k: bytes :: w.Then(k) == old(w.Then(Put(ValueFormat(host, column.ctype), value, k)))
  {
    hide PutStr, PutI64, PutBytes, PutBool, PutRaw, IsStr, IsBytes, ByteWriter.Then, Put, ValueFormat;
    forall k { ValuePut(host, column.ctype, value, k); }
    match column.ctype
    case StringCol | JsonCol | BlobRefCol =>
      if !value.Text? { return Refused; }
      o := w.Str(value.text);
    case IntegerCol =>
      if !value.Integer? { return Refused; }
      o := w.I64(value.n);
    case FloatCol =>
      if !value.Float? || |value.bits| != 8 { return Refused; }
      w.Raw(value.bits);
      return Pass;
    case BooleanCol =>
      if !value.Boolean? { return Refused; }
      w.Bool(value.b);
      return Pass;
    case BytesCol | CrdtCol =>
      if !value.Blob? { return Refused; }
      o := w.Bytes(value.data);
  }

  /** The bitmap of the first `i` columns. */
  ghost predicate Marked(bitmap: bytes, values: seq<RowValue>, i: int) {
    forall t: nat :: t < 8 * |bitmap| ==> (NullBitmap.Bit(bitmap, t) <==> t < i && t < |values| && values[t].Null?)
  }

  lemma MarkNext(bm: bytes, values: seq<RowValue>, i: nat)
    requires i < |values| && i < 8 * |bm| && values[i].Null? && Marked(bm, values, i)
    requires 0 <= NullBitmap.SetBit(bm[i / 8], i % 8) < 256
    ensures Marked(bm[i / 8 := NullBitmap.SetBit(bm[i / 8], i % 8)], values, i + 1)
  {
    var marked := bm[i / 8 := NullBitmap.SetBit(bm[i / 8], i % 8)];
    forall t: nat | t < 8 * |marked|
      ensures NullBitmap.Bit(marked, t) <==> t < i + 1 && t < |values| && values[t].Null?
    {
      NullBitmap.MarkedBit(bm, i, t);
    }
  }

  lemma SkipNext(bm: bytes, values: seq<RowValue>, i: nat)
    requires i < |values| && !values[i].Null? && Marked(bm, values, i)
    ensures Marked(bm, values, i + 1)
  {
    forall t: nat | t < 8 * |bm|
      ensures NullBitmap.Bit(bm, t) <==> t < i + 1 && t < |values| && values[t].Null?
    {
    }
  }

  method NullBitmapOf(columns: seq<RowColumn>, values: seq<RowValue>) returns (r: Option<bytes>)
    requires |values| == |columns|
    ensures r.Some? <==> forall i :: 0 <= i < |columns| && values[i].Null? ==> columns[i].nullable
    ensures r.Some? ==> r.value == NullBitmap.Pack(NullsOf(values))
  {
    hide NullBitmap.Bit, NullBitmap.SetBit, NullBitmap.Pack, Marked;
    var bitmap := new byte[NullBitmap.Length(|columns|)](_ => 0);
    ZeroBits(bitmap[..], values);
    for i := 0 to |columns|
      invariant fresh(bitmap) && bitmap.Length == NullBitmap.Length(|columns|)
      invariant forall j :: 0 <= j < i && values[j].Null? ==> columns[j].nullable
      invariant Marked(bitmap[..], values, i)
    {
      if values[i].Null? {
        if !columns[i].nullable { return None; }
        ghost var before := bitmap[..];
        NullBitmap.MarkedBit(before, i, i);
        MarkNext(before, values, i);
        bitmap[i / 8] := NullBitmap.SetBit(bitmap[i / 8], i % 8);
        assert bitmap[..] == before[i / 8 := NullBitmap.SetBit(before[i / 8], i % 8)];
      } else {
        SkipNext(bitmap[..], values, i);
      }
    }
    MarkedIsPacked(bitmap[..], values);
    return Some(bitmap[..]);
  }

  lemma ZeroBits(bm: bytes, values: seq<RowValue>)
    requires forall q :: 0 <= q < |bm| ==> bm[q] == 0
    ensures Marked(bm, values, 0)
  {
    forall t: nat | t < 8 * |bm|
      ensures !NullBitmap.Bit(bm, t)
    {
      ZeroHasNoBits(t % 8);
    }
  }

  lemma {:induction false} ZeroHasNoBits(j: nat)
    ensures !NullBitmap.BitOf(0, j)
  {
    if j != 0 { ZeroHasNoBits(j - 1); }
  }

  lemma MarkedIsPacked(bm: bytes, values: seq<RowValue>)
    requires |bm| == NullBitmap.Length(|values|) && Marked(bm, values, |values|)
    ensures bm == NullBitmap.Pack(NullsOf(values))
  {
    var nulls := NullsOf(values);
    forall t: nat | t < 8 * |bm|
      ensures NullBitmap.Bit(NullBitmap.Pack(nulls), t) == NullBitmap.Bit(bm, t)
    {
      NullBitmap.PackBit(nulls, t);
    }
    NullBitmap.BitmapsDetermined(bm, NullBitmap.Pack(nulls));
  }

  method WriteCells(w: ByteWriter, columns: seq<RowColumn>, values: seq<RowValue>, ghost host: Host) returns (o: Outcome)
    requires w.Valid() && |values| == |columns|
    modifies w, w.buffer
    ensures w.Valid() && (w.buffer == old(w.buffer) || fresh(w.buffer))
    ensures o.Pass? <==> forall i :: 0 <= i < |columns| && !values[i].Null? ==> Writable(columns[i].ctype, values[i])
    ensures o.Pass? ==> forall k: bytes :: w.Then(k) == old(w.Then(PutCells(host, ShapeOf(columns), values, 0, k)))
  {
    hide ValueFormat, Writable, ByteWriter.Then, Put;
    ghost var shape := ShapeOf(columns);
    for i := 0 to |columns|
      invariant w.Valid() && (w.buffer == old(w.buffer) || fresh(w.buffer))
      invariant forall j :: 0 <= j < i && !values[j].Null? ==> Writable(columns[j].ctype, values[j])
      invariant forall k: bytes ::
                  w.Then(PutCells(host, shape, values, i, k)) == old(w.Then(PutCells(host, shape, values, 0, k)))
    {
      if !values[i].Null? {
        var value := values[i];
        :- WriteValue(w, columns[i], value, host);
      }
    }
    return Pass;
  }

  method WriteRow(w: ByteWriter, columns: seq<RowColumn>, values: seq<RowValue>, ghost host: Host) returns (o: Outcome)
    requires w.Valid()
    modifies w, w.buffer
    ensures w.Valid() && (w.buffer == old(w.buffer) || fresh(w.buffer))
    ensures o.Pass? <==> RowWritable(ShapeOf(columns), values)
    ensures o.Pass? ==> forall k: bytes :: w.Then(k) == old(w.Then(Put(RowFormat(host, ShapeOf(columns)), values, k)))
  {
    hide RowFormat, Writable, PutRaw, PutCells, NullBitmap.Pack, ByteWriter.Then, Put;
    if |values| != |columns| { return Refused; }
    forall k { RowPut(host, ShapeOf(columns), values, k); }
    var bitmap := NullBitmapOf(columns, values);
    if bitmap.None? { return Refused; }
    w.Raw(bitmap.value);
    o := WriteCells(w, columns, values, host);
  }

  // ----- Reading --------------------------------------------------------------------------

  ghost function ReadValueSpec(host: Host, t: ColumnType, s: bytes): Parsed<RowValue> {
    match t
    case StringCol => var (x, k) :- ReadStr(false, s); Parsed(Text(x), k)
    case JsonCol => var (x, k) :- ReadStr(false, s); if IsJson(host, x) then Parsed(Text(x), k) else Failed(InvalidRequest)
    case BlobRefCol => var (x, k) :- ReadStr(false, s); if host.isBlobRef(x) then Parsed(Text(x), k) else Failed(InvalidRequest)
    case IntegerCol => var (x, k) :- ReadI64(s); Parsed(Integer(x), k)
    case FloatCol => var (x, k) :- ReadRaw(8, s); Parsed(Float(x), k)
    case BooleanCol => var (x, k) :- ReadBool(s); Parsed(Boolean(x), k)
    case BytesCol | CrdtCol => var (x, k) :- ReadBytes(s); Parsed(Blob(x), k)
  }

  lemma ValueRead(host: Host, t: ColumnType, s: bytes)
    ensures ValueFormat(host, t).read(false, s) == ReadValueSpec(host, t, s)
  {
    hide ReadStr, ReadI64, ReadBytes, ReadBool, ReadRaw;
    match t
    case StringCol => assert StrFormat().read(false, s) == ReadStr(false, s);
    case JsonCol => assert StrFormat().read(false, s) == ReadStr(false, s);
    case BlobRefCol => assert StrFormat().read(false, s) == ReadStr(false, s);
    case IntegerCol => assert I64Format().read(false, s) == ReadI64(s);
    case FloatCol => assert F64Format().read(false, s) == ReadRaw(8, s);
    case BooleanCol => assert BoolFormat().read(false, s) == ReadBool(s);
    case BytesCol | CrdtCol => assert BytesFormat().read(false, s) == ReadBytes(s);
  }

  method ReadValue(r: ByteReader, host: Host, column: RowColumn) returns (res: Result<RowValue>)
    requires r.Valid()
    modifies r
    ensures r.Valid() && Follows(ValueFormat(host, column.ctype).read(false, old(r.Rest())), res, r.Rest())
    ensures r.Within(old(r.Credit()), 0, res.Ok?)
  {
    hide ReadStr, ReadI64, ReadBytes, ReadBool, ReadRaw, ValueFormat;
    ValueRead(host, column.ctype, r.Rest());
    match column.ctype
    case StringCol =>
      var raw :- r.Str();
      return Ok(Text(raw));
    case JsonCol =>
      var raw :- r.Str();
      if !IsJson(host, raw) { return Err(InvalidRequest); }
      return Ok(Text(raw));
    case BlobRefCol =>
      var raw :- r.Str();
      if !host.isBlobRef(raw) { return Err(InvalidRequest); }
      return Ok(Text(raw));
    case IntegerCol =>
      var n :- r.I64();
      return Ok(Integer(n));
    case FloatCol =>
      var bits :- r.Raw(8);
      return Ok(Float(bits));
    case BooleanCol =>
      var b :- r.Bool();
      return Ok(Boolean(b));
    case BytesCol | CrdtCol =>
      var data :- r.Bytes();
      return Ok(Blob(data));
  }

  ghost function ReadCell(host: Host, column: (ColumnType, bool), isNull: bool, s: bytes): Parsed<RowValue> {
    if !isNull then ValueFormat(host, column.0).read(false, s)
    else if column.1 then Parsed(Null, s)
    else Failed(InvalidRequest)
  }

  /** The values from column `i` on, in the order the reader meets them. */
  ghost function ReadCells(host: Host, shape: Shape, nulls: seq<bool>, i: nat, s: bytes): Parsed<seq<RowValue>>
    requires i <= |shape| == |nulls|
    decreases |shape| - i
  {
    if i == |shape| then Parsed([], s)
    else
      var (v, s1) :- ReadCell(host, shape[i], nulls[i], s);
      var (vs, k) :- ReadCells(host, shape, nulls, i + 1, s1);
      Parsed([v] + vs, k)
  }

  lemma {:induction false} CellsRead(host: Host, shape: Shape, nulls: seq<bool>, i: nat, s: bytes)
    requires i <= |shape| == |nulls|
    ensures CellsFrom(host, shape, nulls, i).read(false, s) == ReadCells(host, shape, nulls, i, s)
    decreases |shape| - i
  {
    hide ValueFormat;
    if i < |shape| {
      var cell := CellFormat(host, shape[i], nulls[i]).read(false, s);
      if cell.Parsed? {
        CellsRead(host, shape, nulls, i + 1, cell.rest);
      }
      CellsFromRead(host, shape, nulls, i, s);
    }
  }

  lemma {:induction false} CellsReadNulls(host: Host, shape: Shape, nulls: seq<bool>, i: nat, s: bytes)
    requires i <= |shape| == |nulls|
    ensures var r := ReadCells(host, shape, nulls, i, s); r.Parsed? ==> NullsOf(r.value) == nulls[i..]
    decreases |shape| - i
  {
    hide ValueFormat;
    var r := ReadCells(host, shape, nulls, i, s);
    if i < |shape| && r.Parsed? {
      ValueReadNotNull(host, shape[i].0, s);
      var s1 := if nulls[i] then s else ValueFormat(host, shape[i].0).read(false, s).rest;
      CellsReadNulls(host, shape, nulls, i + 1, s1);
      assert r.value[1..] == ReadCells(host, shape, nulls, i + 1, s1).value;
      assert NullsOf(r.value) == [r.value[0].Null?] + NullsOf(r.value[1..]);
    }
  }

  lemma CellsFromRead(host: Host, shape: Shape, nulls: seq<bool>, i: nat, s: bytes)
    requires i < |shape| == |nulls|
    ensures CellsFrom(host, shape, nulls, i).read(false, s)
         == ReadVia(PairFormat(CellFormat(host, shape[i], nulls[i]), CellsFrom(host, shape, nulls, i + 1)), Prepend, false, s)
  {
    hide CellFormat, PairFormat;
  }

  lemma ValueReadNotNull(host: Host, t: ColumnType, s: bytes)
    ensures var r := ValueFormat(host, t).read(false, s); r.Parsed? ==> !r.value.Null?
  {
    ValueRead(host, t, s);
  }

  /** The row reader, step by step. */
  ghost function ReadRowSpec(host: Host, shape: Shape, s: bytes): Parsed<seq<RowValue>> {
    var n := NullBitmap.Length(|shape|);
    var (bitmap, s1) :- ReadRaw(n, s);
    if |bitmap| != n || !NullBitmap.PaddingIsZero(bitmap, |shape|) then Failed(InvalidRequest)
    else ReadCells(host, shape, NullBitmap.Unpack(bitmap, |shape|), 0, s1)
  }

  lemma RowRead(host: Host, shape: Shape, s: bytes)
    ensures RowFormat(host, shape).read(false, s) == ReadRowSpec(host, shape, s)
  {
    hide CellsFrom, NullBitmap.PaddingIsZero, NullBitmap.Bit, ReadCells;
    var n := |shape|;
    var nulls := NullsFormat(n).read(false, s);
    assert nulls == ReadVia(RawFormat(NullBitmap.Length(n)), CheckPadding(n), false, s);
    if nulls.Parsed? {
      CellsRead(host, shape, nulls.value, 0, nulls.rest);
      CellsReadNulls(host, shape, nulls.value, 0, nulls.rest);
      assert nulls.value[0..] == nulls.value;
      assert CellsFormat(host, shape)(nulls.value) == CellsFrom(host, shape, nulls.value, 0);
    }
  }

  lemma CellsStep(host: Host, shape: Shape, nulls: seq<bool>, i: nat, s: bytes, done: seq<RowValue>)
    requires i < |shape| == |nulls|
    ensures Resume(done, ReadCells(host, shape, nulls, i, s))
         == match ReadCell(host, shape[i], nulls[i], s)
            case Failed(c) => Failed(c)
            case Parsed(v, s1) => Resume(done + [v], ReadCells(host, shape, nulls, i + 1, s1))
  {
    hide ReadCell;
    var cell := ReadCell(host, shape[i], nulls[i], s);
    if cell.Parsed? {
      var t := ReadCells(host, shape, nulls, i + 1, cell.rest);
      assert t.Parsed? ==> done + ([cell.value] + t.value) == (done + [cell.value]) + t.value;
    }
  }

  method ReadCellValues(r: ByteReader, host: Host, columns: seq<RowColumn>, bitmap: bytes) returns (res: Result<seq<RowValue>>)
    requires r.Valid() && |bitmap| == NullBitmap.Length(|columns|)
    modifies r
    ensures r.Valid()
    ensures Follows(ReadCells(host, ShapeOf(columns), NullBitmap.Unpack(bitmap, |columns|), 0, old(r.Rest())), res, r.Rest())
    ensures r.WithinLoop(old(r.Credit()) + |columns|, 0, res.Ok?)
  {
    hide ValueFormat, NullBitmap.Bit, ReadCells;
    var values: seq<RowValue> := [];
    ghost var shape, nulls := ShapeOf(columns), NullBitmap.Unpack(bitmap, |columns|);
    ghost var whole := ReadCells(host, shape, nulls, 0, r.Rest());
    ResumeStart(whole);
    for i := 0 to |columns|
      invariant r.Valid()
      invariant whole == Resume(values, ReadCells(host, shape, nulls, i, r.Rest()))
      invariant r.Credit() <= old(r.Credit()) + i
    {
      r.turns := r.turns + 1;
      CellsStep(host, shape, nulls, i, r.Rest(), values);
      if NullBitmap.Bit(bitmap, i) {
        if !columns[i].nullable { return Err(InvalidRequest); }
        values := values + [Null];
      } else {
        var v :- ReadValue(r, host, columns[i]);
        values := values + [v];
      }
    }
    CellsEnd(host, shape, nulls, r.Rest(), values);
    return Ok(values);
  }

  lemma CellsEnd(host: Host, shape: Shape, nulls: seq<bool>, s: bytes, done: seq<RowValue>)
    requires |shape| == |nulls|
    ensures Resume(done, ReadCells(host, shape, nulls, |shape|, s)) == Parsed(done, s)
  {
    assert done + [] == done;
  }

  method ReadRow(r: ByteReader, host: Host, columns: seq<RowColumn>) returns (res: Result<seq<RowValue>>)
    requires r.Valid()
    modifies r
    ensures r.Valid() && Follows(RowFormat(host, ShapeOf(columns)).read(false, old(r.Rest())), res, r.Rest())
    ensures r.WithinLoop(old(r.Credit()), 0, res.Ok?)
  {
    hide RowFormat, ReadCells, NullBitmap.Bit, NullBitmap.Unpack;
    RowRead(host, ShapeOf(columns), r.Rest());
    var bitmap :- r.Raw(NullBitmap.Length(|columns|));
    for i := |columns| to 8 * |bitmap|
      invariant r.Valid() && r.Rest() == ReadRaw(NullBitmap.Length(|columns|), old(r.Rest())).rest
      invariant forall j: nat :: |columns| <= j < i ==> !NullBitmap.Bit(bitmap, j)
      invariant r.Credit() + 8 * |bitmap| == old(r.Credit()) + (i - |columns|)
    {
      r.turns := r.turns + 1;
      if NullBitmap.Bit(bitmap, i) { return Err(InvalidRequest); }
    }
    res := ReadCellValues(r, host, columns, bitmap);
  }

  // ----- Standalone rows --------------------------------------------------------------------

  method EncodeRow(columns: seq<RowColumn>, values: seq<RowValue>, ghost host: Host) returns (r: Option<bytes>)
    ensures r.Some? <==> RowWritable(ShapeOf(columns), values)
    ensures r.Some? ==> r.value == Put(RowFormat(host, ShapeOf(columns)), values, [])
  {
    hide RowFormat, RowWritable, ByteWriter.Then, Put;
    var w := new ByteWriter();
    var o := WriteRow(w, columns, values, host);
    if o.Refused? { return None; }
    var bytes := w.Finish();
    return Some(bytes);
  }

  method DecodeRow(host: Host, columns: seq<RowColumn>, bytes: bytes) returns (res: Result<seq<RowValue>>)
    ensures res == ReadWhole(RowFormat(host, ShapeOf(columns)), false, bytes)
  {
    hide RowFormat;
    var r := new ByteReader(bytes);
    var values :- ReadRow(r, host, columns);
    var _ :- r.ExpectFullyConsumed();
    return Ok(values);
  }

  // ----- A row and its bytes ------------------------------------------------------------------

  predicate ValueClean(v: RowValue) { v.Text? ==> Utf8.Clean(v.text) }

  predicate RowClean(values: seq<RowValue>) { forall i :: 0 <= i < |values| ==> ValueClean(values[i]) }

  lemma ValueCleanIff(host: Host, t: ColumnType, v: RowValue)
    requires Writable(t, v)
    ensures ValueFormat(host, t).clean(v) <==> ValueClean(v)
  {
    hide IsStr, PutStr;
    match t
    case StringCol => assert StrFormat().clean(FromText(v)) == Utf8.Clean(v.text);
    case JsonCol => assert StrFormat().clean(FromText(v)) == Utf8.Clean(v.text);
    case BlobRefCol => assert StrFormat().clean(FromText(v)) == Utf8.Clean(v.text);
    case IntegerCol => assert I64Format().clean(FromInteger(v));
    case FloatCol => assert F64Format().clean(FromFloat(v));
    case BooleanCol => assert BoolFormat().clean(FromBoolean(v));
    case BytesCol | CrdtCol => assert BytesFormat().clean(FromBlob(v));
  }

  lemma {:induction false} CellsOk(host: Host, shape: Shape, values: seq<RowValue>, i: nat)
    requires i <= |shape| && RowWritable(shape, values) && RowReadable(host, shape, values)
    ensures CellsFrom(host, shape, NullsOf(values), i).ok(values[i..])
    ensures CellsFrom(host, shape, NullsOf(values), i).clean(values[i..]) <==> RowClean(values[i..])
    decreases |shape| - i
  {
    hide ValueFormat, Writable, Readable;
    if i < |shape| {
      CellsOk(host, shape, values, i + 1);
      ValueOk(host, shape[i].0, values[i]);
      if !values[i].Null? { ValueCleanIff(host, shape[i].0, values[i]); }
      assert Split(values[i..]) == (values[i], values[i + 1..]);
      assert NullsOf(values)[i] == values[i].Null?;
      var cell, tail := CellFormat(host, shape[i], values[i].Null?), CellsFrom(host, shape, NullsOf(values), i + 1);
      ViaOk(PairFormat(cell, tail), Prepend, Split, values[i..]);
      assert cell.ok(values[i]) && (cell.clean(values[i]) <==> ValueClean(values[i]));
      assert [values[i]] + values[i + 1..] == values[i..];
      assert RowClean(values[i..]) <==> ValueClean(values[i]) && RowClean(values[i + 1..]);
    }
  }

  lemma RowOk(host: Host, shape: Shape, values: seq<RowValue>)
    requires RowWritable(shape, values) && RowReadable(host, shape, values)
    ensures RowFormat(host, shape).ok(values) && (RowFormat(host, shape).clean(values) <==> RowClean(values))
  {
    hide CellsFrom, Writable, RowReadable, RowClean, NullBitmap.Pack, NullBitmap.PaddingIsZero, NullBitmap.Unpack;
    var nulls := NullsOf(values);
    var f := DepFormat(NullsFormat(|shape|), CellsFormat(host, shape));
    CellsOk(host, shape, values, 0);
    assert values[0..] == values;
    NullBitmap.UnpackInvertsPack(nulls);
    ViaOk(RawFormat(NullBitmap.Length(|shape|)), CheckPadding(|shape|), NullBitmap.Pack, nulls);
    ViaOk(f, DropNulls, WithNulls, values);
  }

  lemma {:induction false} CellsOkOnly(host: Host, shape: Shape, nulls: seq<bool>, i: nat, vs: seq<RowValue>)
    requires i <= |shape| == |nulls| && CellsFrom(host, shape, nulls, i).ok(vs)
    ensures |vs| == |shape| - i
    ensures forall j :: 0 <= j < |vs| ==> CellFormat(host, shape[i + j], nulls[i + j]).ok(vs[j])
    decreases |shape| - i
  {
    hide CellFormat;
    if i < |shape| {
      var cell, tail := CellFormat(host, shape[i], nulls[i]), CellsFrom(host, shape, nulls, i + 1);
      ViaOk(PairFormat(cell, tail), Prepend, Split, vs);
      assert vs == [Split(vs).0] + Split(vs).1;
      CellsOkOnly(host, shape, nulls, i + 1, vs[1..]);
      forall j | 0 <= j < |vs|
        ensures CellFormat(host, shape[i + j], nulls[i + j]).ok(vs[j])
      {
        if j > 0 { assert vs[j] == vs[1..][j - 1]; }
      }
    }
  }

  lemma RowOkOnly(host: Host, shape: Shape, values: seq<RowValue>)
    requires RowFormat(host, shape).ok(values)
    ensures RowWritable(shape, values) && RowReadable(host, shape, values)
  {
    hide CellsFrom, ValueFormat, NullBitmap.Pack, NullBitmap.PaddingIsZero, NullBitmap.Bit;
    var nulls := NullsOf(values);
    ViaOk(DepFormat(NullsFormat(|shape|), CellsFormat(host, shape)), DropNulls, WithNulls, values);
    ViaOk(RawFormat(NullBitmap.Length(|shape|)), CheckPadding(|shape|), NullBitmap.Pack, nulls);
    assert |nulls| == |shape|;
    CellsOkOnly(host, shape, nulls, 0, values);
    forall i | 0 <= i < |shape|
      ensures if values[i].Null? then shape[i].1 else Writable(shape[i].0, values[i])
      ensures Readable(host, shape[i].0, values[i])
    {
      assert CellFormat(host, shape[0 + i], nulls[0 + i]).ok(values[i]);
      ValueOk(host, shape[i].0, values[i]);
    }
  }

  /** An accepted row payload can be written again, and gives the same bytes unless it holds a byte order mark. */
  lemma RowCanonical(host: Host, columns: seq<RowColumn>, b: bytes)
    requires ReadWhole(RowFormat(host, ShapeOf(columns)), false, b).Ok?
    ensures var f := RowFormat(host, ShapeOf(columns));
            var values := ReadWhole(f, false, b).value;
            && RowWritable(ShapeOf(columns), values) && RowReadable(host, ShapeOf(columns), values)
            && (f.put(values, []) == b <==> BomFree(f, b))
  {
    hide RowFormat, Lawful, BomFree;
    var f := RowFormat(host, ShapeOf(columns));
    RowLawful(host, ShapeOf(columns));
    WholeCanonical(f, NullBitmap.Length(|columns|), b);
    RowOkOnly(host, ShapeOf(columns), ReadWhole(f, false, b).value);
  }

  /**
   * `decodeRow` undoes `encodeRow`, for any number of columns, exactly when JSON and blob-reference
   * cells hold valid text and no text starts with U+FEFF.
   */
  lemma RowRoundTrip(host: Host, columns: seq<RowColumn>, values: seq<RowValue>)
    requires RowWritable(ShapeOf(columns), values)
    ensures var f := RowFormat(host, ShapeOf(columns));
            ReadWhole(f, false, f.put(values, [])) == Ok(values) <==> RowReadable(host, ShapeOf(columns), values) && RowClean(values)
  {
    hide RowFormat, Lawful, RowReadable, RowWritable, RowClean;
    var f := RowFormat(host, ShapeOf(columns));
    RowLawful(host, ShapeOf(columns));
    if ReadWhole(f, false, f.put(values, [])) == Ok(values) { RowCanonical(host, columns, f.put(values, [])); }
    if RowReadable(host, ShapeOf(columns), values) {
      RowOk(host, ShapeOf(columns), values);
      WholeRoundTrip(f, NullBitmap.Length(|columns|), values);
    }
  }
}
