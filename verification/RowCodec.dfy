/**
 * The row codec (packages/core/src/row-codec.ts): one flag a column for the cells that
 * are null, and behind the flags the cells that are not.
 */
module RowCodec {
  import opened Results
  import opened Primitives
  import opened Formats
  import NullBitmap
  import opened Hosts

  datatype ColumnType = StringCol | IntegerCol | FloatCol | BooleanCol | JsonCol | BytesCol | BlobRefCol | CrdtCol

  /** `crdtType`, `encrypted` and `declaredType` are schema metadata and never on the wire. */
  datatype RowColumn = RowColumn(
    name: string,
    ctype: ColumnType,
    nullable: bool,
    crdtType: Option<string>,
    encrypted: Option<bool>,
    declaredType: Option<ColumnType>)

  /** A float is carried as the eight bytes of its IEEE 754 pattern. */
  datatype RowValue =
    | Null
    | Text(text: string)
    | Integer(n: int)
    | Float(bits: bytes)
    | Boolean(b: bool)
    | Blob(data: bytes)

  function TypeTag(t: ColumnType): int {
    match t
    case StringCol => 1
    case IntegerCol => 2
    case FloatCol => 3
    case BooleanCol => 4
    case JsonCol => 5
    case BytesCol => 6
    case BlobRefCol => 7
    case CrdtCol => 8
  }

  function TypeFromTag(tag: int): (r: Result<ColumnType>)
    ensures r.Ok? <==> 1 <= tag <= 8
    ensures r.Ok? ==> TypeTag(r.value) == tag
  {
    if tag == 1 then Ok(StringCol)
    else if tag == 2 then Ok(IntegerCol)
    else if tag == 3 then Ok(FloatCol)
    else if tag == 4 then Ok(BooleanCol)
    else if tag == 5 then Ok(JsonCol)
    else if tag == 6 then Ok(BytesCol)
    else if tag == 7 then Ok(BlobRefCol)
    else if tag == 8 then Ok(CrdtCol)
    else Err(InvalidRequest)
  }

  // ----- Fixed-width bytes ---------------------------------------------------------

  function RawFormat(n: nat): Format<bytes> {
    Format(b => |b| == n, _ => true, PutRaw, (_, s) => ReadRaw(n, s))
  }

  lemma RawLawful(n: nat)
    ensures Lawful(RawFormat(n), n)
  {
    var f := RawFormat(n);
    forall b, k ensures RoundTripsAt(f, b, k) && AdditiveAt(f, b, k) {
      assert |b| == n ==> (b + k)[..n] == b && (b + k)[n..] == k;
    }
    forall keepBom, s ensures ExactAt(f, s) && SoundAt(f, n, keepBom, s) && AgreesAt(f, s) {
      if |s| >= n { assert s == s[..n] + s[n..]; }
    }
  }

  /** The eight bytes of a float. */
  function F64Format(): Format<bytes> { RawFormat(8) }

  // ----- One value -------------------------------------------------------------------

  function ToText(t: string): Result<RowValue> { Ok(Text(t)) }

  function FromText(v: RowValue): string { if v.Text? then v.text else "" }

  function CheckJson(host: Host): string -> Result<RowValue> {
    t => if IsJson(host, t) then Ok(Text(t)) else Err(InvalidRequest)
  }

  function CheckBlobRef(host: Host): string -> Result<RowValue> {
    t => if host.isBlobRef(t) then Ok(Text(t)) else Err(InvalidRequest)
  }

  function ToInteger(n: int): Result<RowValue> { Ok(Integer(n)) }

  function FromInteger(v: RowValue): int { if v.Integer? then v.n else 0 }

  function ToFloat(b: bytes): Result<RowValue> { Ok(Float(b)) }

  function FromFloat(v: RowValue): bytes { if v.Float? then v.bits else [] }

  function ToBoolean(b: bool): Result<RowValue> { Ok(Boolean(b)) }

  function FromBoolean(v: RowValue): bool { v.Boolean? && v.b }

  function ToBlob(b: bytes): Result<RowValue> { Ok(Blob(b)) }

  function FromBlob(v: RowValue): bytes { if v.Blob? then v.data else [] }

  function ValueFormat(host: Host, t: ColumnType): Format<RowValue> {
    match t
    case StringCol => ViaFormat(StrFormat(), ToText, FromText)
    case JsonCol => ViaFormat(StrFormat(), CheckJson(host), FromText)
    case BlobRefCol => ViaFormat(StrFormat(), CheckBlobRef(host), FromText)
    case IntegerCol => ViaFormat(I64Format(), ToInteger, FromInteger)
    case FloatCol => ViaFormat(F64Format(), ToFloat, FromFloat)
    case BooleanCol => ViaFormat(BoolFormat(), ToBoolean, FromBoolean)
    case BytesCol | CrdtCol => ViaFormat(BytesFormat(), ToBlob, FromBlob)
  }

  lemma ViaLawfulAnySize<A(!new)>(f: Format<A>, least: nat, to: A -> Result<RowValue>, from: RowValue -> A)
    requires Lawful(f, least)
    requires forall a :: to(a).Ok? ==> from(to(a).value) == a
    ensures Lawful(ViaFormat(f, to, from), 0)
  {
    ViaLawful(f, least, to, from);
    Weaken(ViaFormat(f, to, from), least, 0);
  }

  lemma ValueLawful(host: Host, t: ColumnType)
    ensures Lawful(ValueFormat(host, t), 0)
  {
    match t
    case StringCol => StrLawful(); ViaLawfulAnySize(StrFormat(), 4, ToText, FromText);
    case JsonCol => StrLawful(); ViaLawfulAnySize(StrFormat(), 4, CheckJson(host), FromText);
    case BlobRefCol => StrLawful(); ViaLawfulAnySize(StrFormat(), 4, CheckBlobRef(host), FromText);
    case IntegerCol => I64Lawful(); ViaLawfulAnySize(I64Format(), 8, ToInteger, FromInteger);
    case FloatCol => RawLawful(8); ViaLawfulAnySize(F64Format(), 8, ToFloat, FromFloat);
    case BooleanCol => BoolLawful(); ViaLawfulAnySize(BoolFormat(), 1, ToBoolean, FromBoolean);
    case BytesCol | CrdtCol => BytesLawful(); ViaLawfulAnySize(BytesFormat(), 4, ToBlob, FromBlob);
  }

  // ----- One row -----------------------------------------------------------------------

  /** What a row's layout depends on: the type and nullability of each column. */
  type Shape = seq<(ColumnType, bool)>

  function ShapeOf(columns: seq<RowColumn>): Shape {
    seq(|columns|, i requires 0 <= i < |columns| => (columns[i].ctype, columns[i].nullable))
  }

  /** A column whose null bit is set takes no bytes, and must be nullable. */
  function NullCell(nullable: bool): Format<RowValue> {
    Format(
      (v: RowValue) => v.Null? && nullable,
      _ => true,
      (_, k) => k,
      (_, s) => if nullable then Parsed(Null, s) else Failed(InvalidRequest))
  }

  function CellFormat(host: Host, column: (ColumnType, bool), isNull: bool): Format<RowValue> {
    if isNull then NullCell(column.1) else ValueFormat(host, column.0)
  }

  lemma CellLawful(host: Host, column: (ColumnType, bool), isNull: bool)
    ensures Lawful(CellFormat(host, column, isNull), 0)
  {
    if isNull {
      var f := NullCell(column.1);
      forall v, k ensures RoundTripsAt(f, v, k) && AdditiveAt(f, v, k) {}
      forall keepBom, s ensures ExactAt(f, s) && SoundAt(f, 0, keepBom, s) && AgreesAt(f, s) {}
    } else {
      ValueLawful(host, column.0);
    }
  }

  function NoCells(): Format<seq<RowValue>> {
    Format(vs => vs == [], _ => true, (_, k) => k, (_, s) => Parsed([], s))
  }

  function Prepend(x: (RowValue, seq<RowValue>)): Result<seq<RowValue>> { Ok([x.0] + x.1) }

  function Split(vs: seq<RowValue>): (RowValue, seq<RowValue>) {
    if vs == [] then (Null, []) else (vs[0], vs[1..])
  }

  /** The cells from column `i` on. */
  function CellsFrom(host: Host, shape: Shape, nulls: seq<bool>, i: nat): Format<seq<RowValue>>
    requires i <= |shape| == |nulls|
    decreases |shape| - i
  {
    if i == |shape| then NoCells()
    else ViaFormat(PairFormat(CellFormat(host, shape[i], nulls[i]), CellsFrom(host, shape, nulls, i + 1)), Prepend, Split)
  }

  lemma NoCellsLawful()
    ensures Lawful(NoCells(), 0)
  {
    var f := NoCells();
    forall v, k ensures RoundTripsAt(f, v, k) && AdditiveAt(f, v, k) {}
    forall keepBom, s ensures ExactAt(f, s) && SoundAt(f, 0, keepBom, s) && AgreesAt(f, s) {}
  }

  lemma {:induction false} CellsLawful(host: Host, shape: Shape, nulls: seq<bool>, i: nat)
    requires i <= |shape| == |nulls|
    ensures Lawful(CellsFrom(host, shape, nulls, i), 0)
    decreases |shape| - i
  {
    hide Lawful, CellFormat, NoCells;
    if i == |shape| {
      NoCellsLawful();
    } else {
      var cell, tail := CellFormat(host, shape[i], nulls[i]), CellsFrom(host, shape, nulls, i + 1);
      CellLawful(host, shape[i], nulls[i]);
      CellsLawful(host, shape, nulls, i + 1);
      PairLawful(cell, 0, tail, 0);
      ViaLawful(PairFormat(cell, tail), 0, Prepend, Split);
    }
  }

  function CheckPadding(n: nat): bytes -> Result<seq<bool>> {
    bm => if |bm| == NullBitmap.Length(n) && NullBitmap.PaddingIsZero(bm, n)
          then Ok(NullBitmap.Unpack(bm, n)) else Err(InvalidRequest)
  }

  function NullsFormat(n: nat): Format<seq<bool>> {
    ViaFormat(RawFormat(NullBitmap.Length(n)), CheckPadding(n), NullBitmap.Pack)
  }

  lemma NullsLawful(n: nat)
    ensures Lawful(NullsFormat(n), NullBitmap.Length(n))
  {
    RawLawful(NullBitmap.Length(n));
    forall bm: bytes | CheckPadding(n)(bm).Ok? ensures NullBitmap.Pack(CheckPadding(n)(bm).value) == bm {
      NullBitmap.PackInvertsUnpack(bm, n);
    }
    ViaLawful(RawFormat(NullBitmap.Length(n)), NullBitmap.Length(n), CheckPadding(n), NullBitmap.Pack);
  }

  function CellsFormat(host: Host, shape: Shape): seq<bool> -> Format<seq<RowValue>> {
    nulls => if |nulls| == |shape| then CellsFrom(host, shape, nulls, 0) else NoCells()
  }

  function NullsOf(vs: seq<RowValue>): seq<bool> { seq(|vs|, i requires 0 <= i < |vs| => vs[i].Null?) }

  function DropNulls(x: (seq<bool>, seq<RowValue>)): Result<seq<RowValue>> {
    if x.0 == NullsOf(x.1) then Ok(x.1) else Err(InvalidRequest)
  }

  function WithNulls(vs: seq<RowValue>): (seq<bool>, seq<RowValue>) { (NullsOf(vs), vs) }

  /** One row: the bitmap, then the cells it leaves. */
  function RowFormat(host: Host, shape: Shape): Format<seq<RowValue>> {
    ViaFormat(DepFormat(NullsFormat(|shape|), CellsFormat(host, shape)), DropNulls, WithNulls)
  }

  lemma CellsFormatLawful(host: Host, shape: Shape, nulls: seq<bool>)
    ensures Lawful(CellsFormat(host, shape)(nulls), 0)
  {
    if |nulls| == |shape| {
      CellsLawful(host, shape, nulls, 0);
    } else {
      NoCellsLawful();
    }
  }

  lemma NullsSteady(host: Host, shape: Shape)
    ensures Steady(NullsFormat(|shape|), CellsFormat(host, shape))
  {
    forall s ensures SteadyAt(NullsFormat(|shape|), CellsFormat(host, shape), s) {
      assert NullsFormat(|shape|).read(true, s) == NullsFormat(|shape|).read(false, s);
    }
  }

  lemma RowLawful(host: Host, shape: Shape)
    ensures Lawful(RowFormat(host, shape), NullBitmap.Length(|shape|))
  {
    hide Lawful, Steady, NullsFormat, CellsFormat;
    var least, nulls, cells := NullBitmap.Length(|shape|), NullsFormat(|shape|), CellsFormat(host, shape);
    NullsLawful(|shape|);
    NullsSteady(host, shape);
    forall bits ensures Lawful(cells(bits), 0) {
      CellsFormatLawful(host, shape, bits);
    }
    DepLawful(nulls, least, cells, 0);
    ViaLawful(DepFormat(nulls, cells), least, DropNulls, WithNulls);
  }
}
