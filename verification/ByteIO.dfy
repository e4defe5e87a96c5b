/**
 * The growable writer and the bounds-checked reader of packages/core/src/bytes.ts.
 *
 * A writer call is specified by what the writer holds in front of any continuation
 * `k`: after writing `x`, `Then(k)` is what `Then(Put(x, k))` was before.
 * A reader call is specified by the pure parse of what was left to read.
 */
module ByteIO {
  import opened Results
  import opened Primitives
  import opened Formats
  import opened LoopTurns
  import CodeUnits
  import Utf8

  class ByteWriter {
    var buffer: array<byte>
    var length: nat

    ghost predicate Valid()
      reads this
    {
      0 < buffer.Length && length <= buffer.Length
    }

    /** What has been written so far. */
    ghost function Contents(): bytes
      requires Valid()
      reads this, buffer
    {
      buffer[..length]
    }

    /** What has been written so far, and then `k`. */
    ghost function Then(k: bytes): bytes
      requires Valid()
      reads this, buffer
    {
      Contents() + k
    }

    constructor ()
      ensures Valid() && fresh(buffer)
      ensures forall k: bytes :: Then(k) == k
    {
      buffer := new byte[256](_ => 0);
      length := 0;
      new;
      assert forall k: bytes :: [] + k == k;
    }

    /** Makes room for `extra` more bytes, doubling the capacity as often as needed. */
    method Reserve(extra: nat) returns (offset: nat)
      requires Valid()
      modifies this
      ensures Valid() && (buffer == old(buffer) || fresh(buffer))
      ensures offset == old(length) && length == offset + extra
      ensures buffer[..offset] == old(Contents())
    {
      offset := length;
      var needed := offset + extra;
      if needed > buffer.Length {
        var capacity := buffer.Length;
        while capacity < needed
          invariant buffer.Length <= capacity
        {
          capacity := capacity * 2;
        }
        var grown := new byte[capacity](_ => 0);
        forall i | 0 <= i < offset {
          grown[i] := buffer[i];
        }
        buffer := grown;
      }
      length := needed;
    }

    method Raw(value: bytes)
      requires Valid()
      modifies this, buffer
      ensures Valid() && (buffer == old(buffer) || fresh(buffer))
      ensures forall k: bytes :: Then(k) == old(Then(PutRaw(value, k)))
    {
      var offset := Reserve(|value|);
      ghost var prefix := buffer[..offset];
      forall i | 0 <= i < |value| {
        buffer[offset + i] := value[i];
      }
      assert buffer[..offset] == prefix;
      assert buffer[offset..length] == value;
      assert Contents() == prefix + value;
      assert forall k: bytes :: (prefix + value) + k == prefix + (value + k);
    }

    method U8(value: int) returns (o: Outcome)
      requires Valid()
      modifies this, buffer
      ensures Valid() && (buffer == old(buffer) || fresh(buffer))
      ensures o.Pass? <==> IsU8(value)
      ensures o.Pass? ==> forall k: bytes :: Then(k) == old(Then(PutU8(value, k)))
    {
      if !IsU8(value) { return Refused; }
      Raw([value]);
      return Pass;
    }

    method U16(value: int) returns (o: Outcome)
      requires Valid()
      modifies this, buffer
      ensures Valid() && (buffer == old(buffer) || fresh(buffer))
      ensures o.Pass? <==> IsU16(value)
      ensures o.Pass? ==> forall k: bytes :: Then(k) == old(Then(PutU16(value, k)))
    {
      if !IsU16(value) { return Refused; }
      Raw([value % 256, value / 256 % 256]);
      return Pass;
    }

    method U32(value: int) returns (o: Outcome)
      requires Valid()
      modifies this, buffer
      ensures Valid() && (buffer == old(buffer) || fresh(buffer))
      ensures o.Pass? <==> IsU32(value)
      ensures o.Pass? ==> forall k: bytes :: Then(k) == old(Then(PutU32(value, k)))
    {
      if !IsU32(value) { return Refused; }
      Raw([value % 256, value / 256 % 256, value / 65536 % 256, value / 16777216 % 256]);
      return Pass;
    }

    method I32(value: int) returns (o: Outcome)
      requires Valid()
      modifies this, buffer
      ensures Valid() && (buffer == old(buffer) || fresh(buffer))
      ensures o.Pass? <==> IsI32(value)
      ensures o.Pass? ==> forall k: bytes :: Then(k) == old(Then(PutI32(value, k)))
    {
      if !IsI32(value) { return Refused; }
      o := U32(Unsigned(value, I32_LIMIT));
    }

    method I64(value: int) returns (o: Outcome)
      requires Valid()
      modifies this, buffer
      ensures Valid() && (buffer == old(buffer) || fresh(buffer))
      ensures o.Pass? <==> IsSafe(value)
      ensures o.Pass? ==> forall k: bytes :: Then(k) == old(Then(PutI64(value, k)))
    {
      if !IsSafe(value) { return Refused; }
      var u := Unsigned(value, I64_LIMIT);
      var low := U32(u % U32_LIMIT);
      var high := U32(u / U32_LIMIT);
      return Pass;
    }

    method Bool(value: bool)
      requires Valid()
      modifies this, buffer
      ensures Valid() && (buffer == old(buffer) || fresh(buffer))
      ensures forall k: bytes :: Then(k) == old(Then(PutBool(value, k)))
    {
      var o := U8(if value then 1 else 0);
    }

    method Bytes(value: bytes) returns (o: Outcome)
      requires Valid()
      modifies this, buffer
      ensures Valid() && (buffer == old(buffer) || fresh(buffer))
      ensures o.Pass? <==> IsBytes(value)
      ensures o.Pass? ==> forall k: bytes :: Then(k) == old(Then(PutBytes(value, k)))
    {
      o := U32(|value|);
      if o.Pass? { Raw(value); }
    }

    method Str(value: string) returns (o: Outcome)
      requires Valid()
      modifies this, buffer
      ensures Valid() && (buffer == old(buffer) || fresh(buffer))
      ensures o.Pass? <==> IsStr(value)
      ensures o.Pass? ==> forall k: bytes :: Then(k) == old(Then(PutStr(value, k)))
    {
      o := Bytes(Utf8.Encode(value));
    }

    method OptI32(value: Option<int>) returns (o: Outcome)
      requires Valid()
      modifies this, buffer
      ensures Valid() && (buffer == old(buffer) || fresh(buffer))
      ensures o.Pass? <==> (value.Some? ==> IsI32(value.value))
      ensures o.Pass? ==> forall k: bytes :: Then(k) == old(Then(PutOpt(I32Format(), value, k)))
    {
      match value
      case None =>
        o := U8(0);
      case Some(v) =>
        var presence := U8(1);
        o := I32(v);
    }

    method OptI64(value: Option<int>) returns (o: Outcome)
      requires Valid()
      modifies this, buffer
      ensures Valid() && (buffer == old(buffer) || fresh(buffer))
      ensures o.Pass? <==> (value.Some? ==> IsSafe(value.value))
      ensures o.Pass? ==> forall k: bytes :: Then(k) == old(Then(PutOpt(I64Format(), value, k)))
    {
      match value
      case None =>
        o := U8(0);
      case Some(v) =>
        var presence := U8(1);
        o := I64(v);
    }

    method OptStr(value: Option<string>) returns (o: Outcome)
      requires Valid()
      modifies this, buffer
      ensures Valid() && (buffer == old(buffer) || fresh(buffer))
      ensures o.Pass? <==> (value.Some? ==> IsStr(value.value))
      ensures o.Pass? ==> forall k: bytes :: Then(k) == old(Then(PutOpt(StrFormat(), value, k)))
    {
      match value
      case None =>
        o := U8(0);
      case Some(v) =>
        var presence := U8(1);
        o := Str(v);
    }

    method OptBytes(value: Option<bytes>) returns (o: Outcome)
      requires Valid()
      modifies this, buffer
      ensures Valid() && (buffer == old(buffer) || fresh(buffer))
      ensures o.Pass? <==> (value.Some? ==> IsBytes(value.value))
      ensures o.Pass? ==> forall k: bytes :: Then(k) == old(Then(PutOpt(BytesFormat(), value, k)))
    {
      match value
      case None =>
        o := U8(0);
      case Some(v) =>
        var presence := U8(1);
        o := Bytes(v);
    }

    method Finish() returns (bytes: bytes)
      requires Valid()
      ensures bytes == Then([])
    {
      bytes := buffer[..length];
    }
  }

  class ByteReader {
    const data: bytes
    var position: nat
    /** Turns of all read loops run on this reader so far. */
    ghost var turns: nat

    ghost predicate Valid()
      reads this
    {
      position <= |data|
    }

    /** What is left to read. */
    ghost function Rest(): bytes
      requires Valid()
      reads this
    {
      data[position..]
    }

    /** The turns taken, and eight for every byte left to read. */
    ghost function Credit(): nat
      requires Valid()
      reads this
    {
      turns + 8 * |Rest()|
    }

    /**
     * Work is paid for by bytes: a call that returned spent no more than eight turns for every byte it
     * used, and had eight to spare; one that threw took at most `slack` turns beyond what was left to read.
     */
    ghost predicate Within(credit: nat, slack: nat, ok: bool)
      requires Valid()
      reads this
    {
      if ok then Credit() + 8 <= credit else turns <= credit + slack
    }

    /** The same, of a loop that may have had nothing to read. */
    ghost predicate WithinLoop(credit: nat, slack: nat, ok: bool)
      requires Valid()
      reads this
    {
      if ok then Credit() <= credit else turns <= credit + slack
    }

    constructor (data: bytes)
      ensures Valid() && this.data == data && Rest() == data && turns == 0
    {
      this.data := data;
      position := 0;
      turns := 0;
    }

    method Remaining() returns (n: nat)
      requires Valid()
      ensures n == |Rest()|
    {
      n := |data| - position;
    }

    method Take(size: nat) returns (r: Result<nat>)
      requires Valid()
      modifies this`position
      ensures Valid()
      ensures r.Ok? <==> size <= |old(Rest())|
      ensures r.Err? ==> r.code == InvalidRequest
      ensures r.Ok? ==> r.value == old(position) && position == old(position) + size
    {
      if |data| - position < size { return Err(InvalidRequest); }
      r := Ok(position);
      position := position + size;
    }

    method U8() returns (r: Result<nat>)
      requires Valid()
      modifies this`position
      ensures Valid() && Follows(ReadU8(old(Rest())), r, Rest())
      ensures Within(old(Credit()), 0, r.Ok?)
    {
      var offset :- Take(1);
      return Ok(data[offset]);
    }

    method U16() returns (r: Result<nat>)
      requires Valid()
      modifies this`position
      ensures Valid() && Follows(ReadU16(old(Rest())), r, Rest())
      ensures Within(old(Credit()), 0, r.Ok?)
    {
      var offset :- Take(2);
      return Ok(FromLittleEndian2(data[offset], data[offset + 1]));
    }

    method U32() returns (r: Result<nat>)
      requires Valid()
      modifies this`position
      ensures Valid() && Follows(ReadU32(old(Rest())), r, Rest())
      ensures Within(old(Credit()), 0, r.Ok?)
    {
      var offset :- Take(4);
      return Ok(FromLittleEndian(data[offset], data[offset + 1], data[offset + 2], data[offset + 3]));
    }

    method I32() returns (r: Result<int>)
      requires Valid()
      modifies this`position
      ensures Valid() && Follows(ReadI32(old(Rest())), r, Rest())
      ensures Within(old(Credit()), 0, r.Ok?)
    {
      var u :- U32();
      return Ok(Signed(u, I32_LIMIT));
    }

    method I64() returns (r: Result<int>)
      requires Valid()
      modifies this`position
      ensures Valid() && Follows(ReadI64(old(Rest())), r, Rest())
      ensures Within(old(Credit()), 0, r.Ok?)
    {
      var offset :- Take(8);
      var low := FromLittleEndian(data[offset], data[offset + 1], data[offset + 2], data[offset + 3]);
      var high := FromLittleEndian(data[offset + 4], data[offset + 5], data[offset + 6], data[offset + 7]);
      var value := Signed(low + U32_LIMIT * high, I64_LIMIT);
      if !IsSafe(value) { return Err(InvalidRequest); }
      return Ok(value);
    }

    method Bool() returns (r: Result<bool>)
      requires Valid()
      modifies this`position
      ensures Valid() && Follows(ReadBool(old(Rest())), r, Rest())
      ensures Within(old(Credit()), 0, r.Ok?)
    {
      var b :- U8();
      if b > 1 { return Err(InvalidRequest); }
      return Ok(b == 1);
    }

    method Raw(size: nat) returns (r: Result<bytes>)
      requires Valid()
      modifies this`position
      ensures Valid() && Follows(ReadRaw(size, old(Rest())), r, Rest())
      ensures r.Ok? ==> Credit() + 8 * size == old(Credit())
    {
      var offset :- Take(size);
      assert data[offset..][..size] == data[offset..offset + size];
      return Ok(data[offset..offset + size]);
    }

    method Bytes() returns (r: Result<bytes>)
      requires Valid()
      modifies this`position
      ensures Valid() && Follows(ReadBytes(old(Rest())), r, Rest())
      ensures Within(old(Credit()), 0, r.Ok?)
      ensures r.Ok? ==> Credit() + 8 * (4 + |r.value|) == old(Credit())
    {
      var size :- U32();
      r := Raw(size);
    }

    method Str() returns (r: Result<string>)
      requires Valid()
      modifies this`position
      ensures Valid() && Follows(ReadStr(false, old(Rest())), r, Rest())
      ensures Within(old(Credit()), 0, r.Ok?)
    {
      var encoded :- Bytes();
      match Utf8.DecodeText(false, encoded)
      case Some(t) => return Ok(t);
      case None => return Err(InvalidRequest);
    }

    method OptI32() returns (r: Result<Option<int>>)
      requires Valid()
      modifies this`position
      ensures Valid() && Follows(ReadOpt(I32Format(), false, old(Rest())), r, Rest())
      ensures Within(old(Credit()), 0, r.Ok?)
    {
      var presence :- U8();
      if presence == 0 { return Ok(None); }
      if presence != 1 { return Err(InvalidRequest); }
      var v :- I32();
      return Ok(Some(v));
    }

    method OptI64() returns (r: Result<Option<int>>)
      requires Valid()
      modifies this`position
      ensures Valid() && Follows(ReadOpt(I64Format(), false, old(Rest())), r, Rest())
      ensures Within(old(Credit()), 0, r.Ok?)
    {
      var presence :- U8();
      if presence == 0 { return Ok(None); }
      if presence != 1 { return Err(InvalidRequest); }
      var v :- I64();
      return Ok(Some(v));
    }

    method OptStr() returns (r: Result<Option<string>>)
      requires Valid()
      modifies this`position
      ensures Valid() && Follows(ReadOpt(StrFormat(), false, old(Rest())), r, Rest())
      ensures Within(old(Credit()), 0, r.Ok?)
    {
      var presence :- U8();
      if presence == 0 { return Ok(None); }
      if presence != 1 { return Err(InvalidRequest); }
      var v :- Str();
      return Ok(Some(v));
    }

    method OptBytes() returns (r: Result<Option<bytes>>)
      requires Valid()
      modifies this`position
      ensures Valid() && Follows(ReadOpt(BytesFormat(), false, old(Rest())), r, Rest())
      ensures Within(old(Credit()), 0, r.Ok?)
    {
      var presence :- U8();
      if presence == 0 { return Ok(None); }
      if presence != 1 { return Err(InvalidRequest); }
      var v :- Bytes();
      return Ok(Some(v));
    }

    method ExpectFullyConsumed() returns (r: Result<()>)
      requires Valid()
      ensures r == if Rest() == [] then Ok(()) else Err(InvalidRequest)
    {
      if |data| != position { return Err(InvalidRequest); }
      return Ok(());
    }
  }

  // ----- Lists and sorted maps ---------------------------------------------------------

  /** A list read so far, then the rest of it. */
  ghost function Resume<T>(done: seq<T>, p: Parsed<seq<T>>): Parsed<seq<T>> {
    match p
    case Parsed(xs, k) => Parsed(done + xs, k)
    case Failed(c) => Failed(c)
  }

  lemma ResumeStep<T>(f: Format<T>, keepBom: bool, n: nat, s: bytes, done: seq<T>)
    requires n > 0 && f.read(keepBom, s).Parsed?
    ensures var h := f.read(keepBom, s);
            Resume(done, ReadAll(f, keepBom, n, s)) == Resume(done + [h.value], ReadAll(f, keepBom, n - 1, h.rest))
  {
    var h := f.read(keepBom, s);
    var t := ReadAll(f, keepBom, n - 1, h.rest);
    if t.Parsed? {
      assert done + ([h.value] + t.value) == (done + [h.value]) + t.value;
    }
  }

  lemma ResumeStart<T>(p: Parsed<seq<T>>)
    ensures Resume([], p) == p
  {
    assert p.Parsed? ==> [] + p.value == p.value;
  }

  lemma ResumeEnd<T>(f: Format<T>, keepBom: bool, s: bytes, done: seq<T>)
    ensures Resume(done, ReadAll(f, keepBom, 0, s)) == Parsed(done, s)
  {
    assert done + [] == done;
  }

  lemma ResumeFail<T>(f: Format<T>, keepBom: bool, n: nat, s: bytes, done: seq<T>)
    requires n > 0 && f.read(keepBom, s).Failed?
    ensures Resume(done, ReadAll(f, keepBom, n, s)) == Failed(f.read(keepBom, s).code)
  {
  }

  /** Every failure of the format is the generic one. */
  ghost predicate Plain<T(!new)>(f: Format<T>) {
    forall s :: PlainAt(f, s)
  }

  ghost predicate PlainAt<T>(f: Format<T>, s: bytes) {
    f.read(false, s).Failed? ==> f.read(false, s).code == InvalidRequest
  }

  lemma {:induction false} ReadAllPlain<T(!new)>(f: Format<T>, n: nat, s: bytes)
    requires Plain(f)
    ensures ReadAll(f, false, n, s).Failed? ==> ReadAll(f, false, n, s).code == InvalidRequest
  {
    if n != 0 {
      assert PlainAt(f, s);
      if f.read(false, s).Parsed? { ReadAllPlain(f, n - 1, f.read(false, s).rest); }
    }
  }

  lemma StringsPlain()
    ensures Plain(StrFormat()) && Plain(ListFormat(StrFormat()))
  {
    forall s ensures PlainAt(StrFormat(), s) {}
    forall s ensures PlainAt(ListFormat(StrFormat()), s) {
      if |s| >= 4 {
        U32Exact(s);
        ReadAllPlain(StrFormat(), ReadU32(s).value, s[4..]);
      }
    }
  }

  lemma EntriesPlain<V(!new)>(g: Format<V>)
    requires Plain(g)
    ensures Plain(PairFormat(StrFormat(), g))
  {
    StringsPlain();
    forall s ensures PlainAt(PairFormat(StrFormat(), g), s) {
      assert PlainAt(StrFormat(), s);
      if ReadStr(false, s).Parsed? { assert PlainAt(g, ReadStr(false, s).rest); }
    }
  }

  predicate StringsFit(xs: seq<string>) {
    |xs| < U32_LIMIT && forall i :: 0 <= i < |xs| ==> IsStr(xs[i])
  }

  method WriteStrings(w: ByteWriter, xs: seq<string>) returns (o: Outcome)
    requires w.Valid()
    modifies w, w.buffer
    ensures w.Valid() && (w.buffer == old(w.buffer) || fresh(w.buffer))
    ensures o.Pass? <==> StringsFit(xs)
    ensures o.Pass? ==> forall k: bytes :: w.Then(k) == old(w.Then(PutList(StrFormat(), xs, k)))
  {
    hide PutStr, IsStr, ByteWriter.Then, Put;
    :- w.U32(|xs|);
    for i := 0 to |xs|
      invariant w.Valid() && (w.buffer == old(w.buffer) || fresh(w.buffer))
      invariant forall j :: 0 <= j < i ==> IsStr(xs[j])
      invariant forall k: bytes ::
                  w.Then(PutAll(StrFormat(), xs[i..], k)) == old(w.Then(PutList(StrFormat(), xs, k)))
    {
      assert xs[i..][1..] == xs[i + 1..];
      :- w.Str(xs[i]);
    }
    return Pass;
  }

  /** The counted loop shared by the string lists of the format. */
  method ReadStringItems(r: ByteReader, count: nat) returns (res: Result<seq<string>>, ghost turns: nat)
    requires r.Valid()
    modifies r
    ensures r.Valid() && Follows(ReadAll(StrFormat(), false, count, old(r.Rest())), res, r.Rest())
    ensures turns == Turns(StrFormat(), false, count, old(r.Rest()))
    ensures r.WithinLoop(old(r.Credit()), 1, res.Ok?)
  {
    hide ReadStr, Turns;
    var xs: seq<string> := [];
    ghost var f, whole := StrFormat(), ReadAll(StrFormat(), false, count, r.Rest());
    ResumeStart(whole);
    turns := 0;
    for i := 0 to count
      invariant r.Valid()
      invariant whole == Resume(xs, ReadAll(f, false, count - i, r.Rest()))
      invariant turns + Turns(f, false, count - i, r.Rest()) == Turns(f, false, count, old(r.Rest()))
      invariant r.Credit() <= old(r.Credit())
    {
      ghost var s := r.Rest();
      TurnsStep(f, count - i, s);
      turns := turns + 1;
      r.turns := r.turns + 1;
      var x := r.Str();
      if x.Err? {
        ResumeFail(f, false, count - i, s, xs);
        return Err(x.code), turns;
      }
      ResumeStep(f, false, count - i, s, xs);
      xs := xs + [x.value];
    }
    ResumeEnd(f, false, r.Rest(), xs);
    TurnsEnd(f, r.Rest());
    return Ok(xs), turns;
  }

  method ReadStrings(r: ByteReader) returns (res: Result<seq<string>>)
    requires r.Valid()
    modifies r
    ensures r.Valid() && Follows(ReadList(StrFormat(), false, old(r.Rest())), res, r.Rest())
    ensures r.Within(old(r.Credit()), 1, res.Ok?)
  {
    var count :- r.U32();
    ghost var turns;
    res, turns := ReadStringItems(r, count);
  }

  // ----- Maps of string to list of strings ------------------------------------------------

  function StringListMap(): Format<map<string, seq<string>>> { MapFormat(ListFormat(StrFormat())) }

  predicate StringListMapFits(m: map<string, seq<string>>) {
    |m| < U32_LIMIT && forall key :: key in m ==> IsStr(key) && StringsFit(m[key])
  }

  function ListEntryFormat(): Format<(string, seq<string>)> { PairFormat(StrFormat(), ListFormat(StrFormat())) }

  lemma PutAllBounds<T>(f: Format<T>, xs: seq<T>, k: bytes)
    ensures PutAll(f, xs[0..], k) == PutAll(f, xs, k) && PutAll(f, xs[|xs|..], k) == k
  {
    assert xs[0..] == xs;
  }

  lemma PutAllStep<T>(f: Format<T>, xs: seq<T>, i: nat, k: bytes)
    requires i < |xs|
    ensures PutAll(f, xs[i..], k) == Put(f, xs[i], PutAll(f, xs[i + 1..], k))
  {
    assert xs[i..][1..] == xs[i + 1..];
  }

  lemma StringListMapPut(m: map<string, seq<string>>, k: bytes)
    ensures Put(StringListMap(), m, k) == PutU32(|m|, PutAll(ListEntryFormat(), Entries(m), k))
  {
  }

  lemma ListEntryPut(es: seq<(string, seq<string>)>, i: nat, k: bytes)
    requires i < |es|
    ensures PutAll(ListEntryFormat(), es[i..], k)
         == PutStr(es[i].0, PutList(StrFormat(), es[i].1, PutAll(ListEntryFormat(), es[i + 1..], k)))
  {
    assert es[i..][1..] == es[i + 1..];
  }

  method WriteListEntry(w: ByteWriter, key: string, values: seq<string>) returns (o: Outcome)
    requires w.Valid()
    modifies w, w.buffer
    ensures w.Valid() && (w.buffer == old(w.buffer) || fresh(w.buffer))
    ensures o.Pass? <==> IsStr(key) && StringsFit(values)
    ensures o.Pass? ==> forall k: bytes :: w.Then(k) == old(w.Then(PutStr(key, PutList(StrFormat(), values, k))))
  {
    hide PutStr, PutList, IsStr, StringsFit, ByteWriter.Then, Put;
    :- w.Str(key);
    o := WriteStrings(w, values);
  }

  predicate ListEntriesFit(es: seq<(string, seq<string>)>) {
    forall i :: 0 <= i < |es| ==> IsStr(es[i].0) && StringsFit(es[i].1)
  }

  lemma ListMapFits(m: map<string, seq<string>>)
    ensures StringListMapFits(m) <==> |m| < U32_LIMIT && ListEntriesFit(Entries(m))
  {
    hide IsStr, StringsFit;
    forall key | key in m
      ensures exists i :: 0 <= i < |Entries(m)| && Entries(m)[i].0 == key
    {
      var i := EntriesHaveKeys(m, key);
    }
  }

  /** The loop over the sorted keys. */
  method WriteListEntries(w: ByteWriter, es: seq<(string, seq<string>)>) returns (o: Outcome)
    requires w.Valid()
    modifies w, w.buffer
    ensures w.Valid() && (w.buffer == old(w.buffer) || fresh(w.buffer))
    ensures o.Pass? <==> ListEntriesFit(es)
    ensures o.Pass? ==> forall k: bytes :: w.Then(k) == old(w.Then(PutAll(ListEntryFormat(), es, k)))
  {
    hide PutStr, PutList, PutAll, IsStr, StringsFit, ListEntryFormat, ByteWriter.Then, Put;
    forall k { PutAllBounds(ListEntryFormat(), es, k); }
    for i := 0 to |es|
      invariant w.Valid() && (w.buffer == old(w.buffer) || fresh(w.buffer))
      invariant forall j :: 0 <= j < i ==> IsStr(es[j].0) && StringsFit(es[j].1)
      invariant forall k: bytes ::
                  w.Then(PutAll(ListEntryFormat(), es[i..], k)) == old(w.Then(PutAll(ListEntryFormat(), es, k)))
    {
      forall k { ListEntryPut(es, i, k); }
      :- WriteListEntry(w, es[i].0, es[i].1);
    }
    return Pass;
  }

  method WriteStringListMap(w: ByteWriter, m: map<string, seq<string>>) returns (o: Outcome)
    requires w.Valid()
    modifies w, w.buffer
    ensures w.Valid() && (w.buffer == old(w.buffer) || fresh(w.buffer))
    ensures o.Pass? <==> StringListMapFits(m)
    ensures o.Pass? ==> forall k: bytes :: w.Then(k) == old(w.Then(Put(StringListMap(), m, k)))
  {
    hide PutU32, PutAll, ListEntryFormat, ListEntriesFit, StringListMap, StringListMapFits, Entries, ByteWriter.Then, Put;
    var es := Entries(m);
    forall k { StringListMapPut(m, k); }
    ListMapFits(m);
    :- w.U32(|es|);
    o := WriteListEntries(w, es);
  }

  /** Entries in wire order, refused unless their keys ascend. */
  ghost function ReadAscending<V>(f: Format<(string, V)>, n: nat, s: bytes): Parsed<seq<(string, V)>> {
    var (es, k) :- ReadAll(f, false, n, s);
    if AscendingKeys(es) then Parsed(es, k) else Failed(InvalidRequest)
  }

  lemma ListEntryRead(s: bytes)
    ensures ListEntryFormat().read(false, s) == match ReadStr(false, s)
                                                case Failed(c) => Failed(c)
                                                case Parsed(key, s1) =>
                                                  match ReadList(StrFormat(), false, s1)
                                                  case Failed(c) => Failed(c)
                                                  case Parsed(values, k) => Parsed((key, values), k)
  {
    hide ReadStr, ReadList;
  }

  lemma ListEntriesPlain(n: nat, s: bytes)
    ensures ReadAll(ListEntryFormat(), false, n, s).Failed? ==> ReadAll(ListEntryFormat(), false, n, s).code == InvalidRequest
  {
    StringsPlain();
    EntriesPlain(ListFormat(StrFormat()));
    ReadAllPlain(ListEntryFormat(), n, s);
  }

  /** A key that does not follow the last one spoils the list, whatever comes after it. */
  lemma NotAscending<V>(f: Format<(string, V)>, n: nat, s: bytes, done: seq<(string, V)>, key: string)
    requires n > 0 && done != [] && !CodeUnits.Less(done[|done| - 1].0, key)
    requires f.read(false, s).Parsed? ==> f.read(false, s).value.0 == key
    ensures var p := Resume(done, ReadAll(f, false, n, s)); p.Parsed? ==> !AscendingKeys(p.value)
  {
    var p := Resume(done, ReadAll(f, false, n, s));
    if p.Parsed? {
      assert p.value[|done|].0 == key && p.value[|done| - 1] == done[|done| - 1];
    }
  }

  lemma NoEntries<V>()
    ensures AscendingKeys<V>([])
  {
  }

  lemma AscendingSnoc<V>(es: seq<(string, V)>, key: string)
    requires AscendingKeys(es) && (es != [] ==> CodeUnits.Less(es[|es| - 1].0, key))
    ensures forall v :: AscendingKeys(es + [(key, v)])
  {
    hide CodeUnits.Less;
    forall i | 0 <= i < |es|
      ensures CodeUnits.Less(es[i].0, key)
    {
      if i < |es| - 1 { CodeUnits.LessTransitive(es[i].0, es[|es| - 1].0, key); }
    }
  }

  method ReadListEntries(r: ByteReader, count: nat) returns (res: Result<seq<(string, seq<string>)>>, ghost turns: nat)
    requires r.Valid()
    modifies r
    ensures r.Valid()
    ensures Follows(ReadAscending(ListEntryFormat(), count, old(r.Rest())), res, r.Rest())
    ensures turns <= Turns(ListEntryFormat(), false, count, old(r.Rest()))
    ensures r.WithinLoop(old(r.Credit()), 2, res.Ok?)
  {
    hide ReadStr, ReadList, CodeUnits.Less, ListEntryFormat, Turns, AscendingKeys, ReadAll, Resume;
    NoEntries<seq<string>>();
    var entries: seq<(string, seq<string>)> := [];
    var previousKey: Option<string> := None;
    ghost var f := ListEntryFormat();
    ghost var whole := ReadAll(f, false, count, r.Rest());
    ResumeStart(whole);
    ListEntriesPlain(count, r.Rest());
    turns := 0;
    for i := 0 to count
      invariant r.Valid() && |entries| == i
      invariant previousKey == if i == 0 then None else Some(entries[i - 1].0)
      invariant AscendingKeys(entries)
      invariant whole == Resume(entries, ReadAll(f, false, count - i, r.Rest()))
      invariant turns + Turns(f, false, count - i, r.Rest()) == Turns(f, false, count, old(r.Rest()))
      invariant r.Credit() <= old(r.Credit())
    {
      ghost var s := r.Rest();
      TurnsStep(f, count - i, s);
      turns := turns + 1;
      r.turns := r.turns + 1;
      ListEntryRead(s);
      var key := r.Str();
      if key.Err? {
        ResumeFail(f, false, count - i, s, entries);
        return Err(key.code), turns;
      }
      if previousKey.Some? && !CodeUnits.Less(previousKey.value, key.value) {
        NotAscending(f, count - i, s, entries, key.value);
        return Err(InvalidRequest), turns;
      }
      AscendingSnoc(entries, key.value);
      previousKey := Some(key.value);
      var values := ReadStrings(r);
      if values.Err? {
        ResumeFail(f, false, count - i, s, entries);
        return Err(values.code), turns;
      }
      ResumeStep(f, false, count - i, s, entries);
      entries := entries + [(key.value, values.value)];
    }
    ResumeEnd(f, false, r.Rest(), entries);
    TurnsEnd(f, r.Rest());
    return Ok(entries), turns;
  }

  lemma StringListMapRead(n: nat, s: bytes, s1: bytes)
    requires ReadU32(s) == Parsed(n, s1)
    ensures StringListMap().read(false, s) == match ReadAscending(ListEntryFormat(), n, s1)
                                              case Failed(c) => Failed(c)
                                              case Parsed(es, k) => Parsed(FromEntries(es), k)
  {
    hide ReadU32, ReadStr, FromEntries, AscendingKeys;
  }

  method ReadStringListMap(r: ByteReader) returns (res: Result<map<string, seq<string>>>)
    requires r.Valid()
    modifies r
    ensures r.Valid() && Follows(StringListMap().read(false, old(r.Rest())), res, r.Rest())
    ensures r.Within(old(r.Credit()), 2, res.Ok?)
  {
    hide ReadU32, StringListMap, ListEntryFormat, ReadAscending;
    ghost var s := r.Rest();
    var count := r.U32();
    if count.Err? {
      ShortListMap(s);
      return Err(count.code);
    }
    StringListMapRead(count.value, s, r.Rest());
    var entries, turns :- ReadListEntries(r, count.value);
    return Ok(FromEntries(entries));
  }

  lemma ShortListMap(s: bytes)
    requires ReadU32(s).Failed?
    ensures StringListMap().read(false, s) == Failed(ReadU32(s).code)
  {
  }

  // ----- Maps of string to string ------------------------------------------------------------

  function StringMap(): Format<map<string, string>> { MapFormat(StrFormat()) }

  function StrEntryFormat(): Format<(string, string)> { PairFormat(StrFormat(), StrFormat()) }

  predicate StringMapFits(m: map<string, string>) {
    |m| < U32_LIMIT && forall key :: key in m ==> IsStr(key) && IsStr(m[key])
  }

  predicate StrEntriesFit(es: seq<(string, string)>) {
    forall i :: 0 <= i < |es| ==> IsStr(es[i].0) && IsStr(es[i].1)
  }

  lemma StrMapFits(m: map<string, string>)
    ensures StringMapFits(m) <==> |m| < U32_LIMIT && StrEntriesFit(Entries(m))
  {
    hide IsStr;
    forall key | key in m
      ensures exists i :: 0 <= i < |Entries(m)| && Entries(m)[i].0 == key
    {
      var i := EntriesHaveKeys(m, key);
    }
  }

  lemma StringMapPut(m: map<string, string>, k: bytes)
    ensures Put(StringMap(), m, k) == PutU32(|m|, PutAll(StrEntryFormat(), Entries(m), k))
  {
  }

  lemma StrEntryPut(es: seq<(string, string)>, i: nat, k: bytes)
    requires i < |es|
    ensures PutAll(StrEntryFormat(), es[i..], k) == PutStr(es[i].0, PutStr(es[i].1, PutAll(StrEntryFormat(), es[i + 1..], k)))
  {
    assert es[i..][1..] == es[i + 1..];
  }

  method WriteStrEntries(w: ByteWriter, es: seq<(string, string)>) returns (o: Outcome)
    requires w.Valid()
    modifies w, w.buffer
    ensures w.Valid() && (w.buffer == old(w.buffer) || fresh(w.buffer))
    ensures o.Pass? <==> StrEntriesFit(es)
    ensures o.Pass? ==> forall k: bytes :: w.Then(k) == old(w.Then(PutAll(StrEntryFormat(), es, k)))
  {
    hide PutStr, PutAll, IsStr, StrEntryFormat, ByteWriter.Then, Put;
    forall k { PutAllBounds(StrEntryFormat(), es, k); }
    for i := 0 to |es|
      invariant w.Valid() && (w.buffer == old(w.buffer) || fresh(w.buffer))
      invariant forall j :: 0 <= j < i ==> IsStr(es[j].0) && IsStr(es[j].1)
      invariant forall k: bytes ::
                  w.Then(PutAll(StrEntryFormat(), es[i..], k)) == old(w.Then(PutAll(StrEntryFormat(), es, k)))
    {
      forall k { StrEntryPut(es, i, k); }
      :- w.Str(es[i].0);
      :- w.Str(es[i].1);
    }
    return Pass;
  }

  method WriteStringMap(w: ByteWriter, m: map<string, string>) returns (o: Outcome)
    requires w.Valid()
    modifies w, w.buffer
    ensures w.Valid() && (w.buffer == old(w.buffer) || fresh(w.buffer))
    ensures o.Pass? <==> StringMapFits(m)
    ensures o.Pass? ==> forall k: bytes :: w.Then(k) == old(w.Then(Put(StringMap(), m, k)))
  {
    hide PutU32, PutAll, StrEntryFormat, StrEntriesFit, StringMap, StringMapFits, Entries, ByteWriter.Then, Put;
    var es := Entries(m);
    forall k { StringMapPut(m, k); }
    StrMapFits(m);
    :- w.U32(|es|);
    o := WriteStrEntries(w, es);
  }

  lemma StrEntryRead(s: bytes)
    ensures StrEntryFormat().read(false, s) == match ReadStr(false, s)
                                               case Failed(c) => Failed(c)
                                               case Parsed(key, s1) =>
                                                 match ReadStr(false, s1)
                                                 case Failed(c) => Failed(c)
                                                 case Parsed(value, k) => Parsed((key, value), k)
  {
    hide ReadStr;
  }

  lemma StrEntriesPlain(n: nat, s: bytes)
    ensures ReadAll(StrEntryFormat(), false, n, s).Failed? ==> ReadAll(StrEntryFormat(), false, n, s).code == InvalidRequest
  {
    StringsPlain();
    EntriesPlain(StrFormat());
    ReadAllPlain(StrEntryFormat(), n, s);
  }

  method ReadStrEntries(r: ByteReader, count: nat) returns (res: Result<seq<(string, string)>>, ghost turns: nat)
    requires r.Valid()
    modifies r
    ensures r.Valid()
    ensures Follows(ReadAscending(StrEntryFormat(), count, old(r.Rest())), res, r.Rest())
    ensures turns <= Turns(StrEntryFormat(), false, count, old(r.Rest()))
    ensures r.WithinLoop(old(r.Credit()), 1, res.Ok?)
  {
    hide ReadStr, CodeUnits.Less, StrEntryFormat, Turns, AscendingKeys, ReadAll, Resume;
    NoEntries<string>();
    var entries: seq<(string, string)> := [];
    var previousKey: Option<string> := None;
    ghost var f := StrEntryFormat();
    ghost var whole := ReadAll(f, false, count, r.Rest());
    ResumeStart(whole);
    StrEntriesPlain(count, r.Rest());
    turns := 0;
    for i := 0 to count
      invariant r.Valid() && |entries| == i
      invariant previousKey == if i == 0 then None else Some(entries[i - 1].0)
      invariant AscendingKeys(entries)
      invariant whole == Resume(entries, ReadAll(f, false, count - i, r.Rest()))
      invariant turns + Turns(f, false, count - i, r.Rest()) == Turns(f, false, count, old(r.Rest()))
      invariant r.Credit() <= old(r.Credit())
    {
      ghost var s := r.Rest();
      TurnsStep(f, count - i, s);
      turns := turns + 1;
      r.turns := r.turns + 1;
      StrEntryRead(s);
      var key := r.Str();
      if key.Err? {
        ResumeFail(f, false, count - i, s, entries);
        return Err(key.code), turns;
      }
      if previousKey.Some? && !CodeUnits.Less(previousKey.value, key.value) {
        NotAscending(f, count - i, s, entries, key.value);
        return Err(InvalidRequest), turns;
      }
      AscendingSnoc(entries, key.value);
      previousKey := Some(key.value);
      var value := r.Str();
      if value.Err? {
        ResumeFail(f, false, count - i, s, entries);
        return Err(value.code), turns;
      }
      ResumeStep(f, false, count - i, s, entries);
      entries := entries + [(key.value, value.value)];
    }
    ResumeEnd(f, false, r.Rest(), entries);
    TurnsEnd(f, r.Rest());
    return Ok(entries), turns;
  }

  lemma StringMapRead(n: nat, s: bytes, s1: bytes)
    requires ReadU32(s) == Parsed(n, s1)
    ensures StringMap().read(false, s) == match ReadAscending(StrEntryFormat(), n, s1)
                                          case Failed(c) => Failed(c)
                                          case Parsed(es, k) => Parsed(FromEntries(es), k)
  {
    hide ReadU32, ReadStr, FromEntries, AscendingKeys;
  }

  lemma ShortMap(s: bytes)
    requires ReadU32(s).Failed?
    ensures StringMap().read(false, s) == Failed(ReadU32(s).code)
  {
  }

  method ReadStringMap(r: ByteReader) returns (res: Result<map<string, string>>)
    requires r.Valid()
    modifies r
    ensures r.Valid() && Follows(StringMap().read(false, old(r.Rest())), res, r.Rest())
    ensures r.Within(old(r.Credit()), 1, res.Ok?)
  {
    hide ReadU32, StringMap, StrEntryFormat, ReadAscending;
    ghost var s := r.Rest();
    var count := r.U32();
    if count.Err? {
      ShortMap(s);
      return Err(count.code);
    }
    StringMapRead(count.value, s, r.Rest());
    var entries, turns :- ReadStrEntries(r, count.value);
    return Ok(FromEntries(entries));
  }
}
