/**
 * The primitive layouts of the wire format: fixed-width little-endian integers,
 * one-byte booleans, and length-prefixed bytes and text.
 *
 * An encoding is given together with what follows it: `PutU32(v, k)` is the four
 * bytes of `v` in front of `k`. `Read...` takes the value back off the front.
 * `keepBom` selects the text decoder (see module `Utf8`); the codec's own is `false`.
 */
module Primitives {
  import opened Results
  import Utf8

  const U8_LIMIT := 0x100
  const U16_LIMIT := 0x1_0000
  const U32_LIMIT := 0x1_0000_0000
  const I32_LIMIT := 0x8000_0000
  const I64_LIMIT := 0x8000_0000_0000_0000
  const MAX_SAFE := 9007199254740991

  predicate IsU8(v: int) { 0 <= v < U8_LIMIT }
  predicate IsU16(v: int) { 0 <= v < U16_LIMIT }
  predicate IsU32(v: int) { 0 <= v < U32_LIMIT }
  predicate IsI32(v: int) { -I32_LIMIT <= v < I32_LIMIT }
  predicate IsSafe(v: int) { -MAX_SAFE <= v <= MAX_SAFE }
  predicate IsStr(t: string) { |Utf8.Encode(t)| < U32_LIMIT }
  predicate IsBytes(b: bytes) { |b| < U32_LIMIT }

  // ----- Writing ---------------------------------------------------------------

  function PutU8(v: int, k: bytes): bytes { [v % 256] + k }

  function PutU16(v: int, k: bytes): bytes { [v % 256, v / 256 % 256] + k }

  function PutU32(v: int, k: bytes): bytes {
    [v % 256, v / 256 % 256, v / 65536 % 256, v / 16777216 % 256] + k
  }

  /** Two's complement, of a value from `-half` to `half - 1`. */
  function Unsigned(v: int, half: int): int { if v < 0 then v + 2 * half else v }

  function PutI32(v: int, k: bytes): bytes { PutU32(Unsigned(v, I32_LIMIT), k) }

  function PutI64(v: int, k: bytes): bytes {
    var u := Unsigned(v, I64_LIMIT);
    PutU32(u % U32_LIMIT, PutU32(u / U32_LIMIT, k))
  }

  function PutBool(v: bool, k: bytes): bytes { PutU8(if v then 1 else 0, k) }

  function PutRaw(b: bytes, k: bytes): bytes { b + k }

  function PutBytes(b: bytes, k: bytes): bytes { PutU32(|b|, PutRaw(b, k)) }

  function PutStr(t: string, k: bytes): bytes { PutBytes(Utf8.Encode(t), k) }

  // ----- Reading ---------------------------------------------------------------

  function ReadU8(s: bytes): Parsed<nat> {
    if |s| < 1 then Failed(InvalidRequest) else Parsed(s[0], s[1..])
  }

  function ReadU16(s: bytes): Parsed<nat> {
    if |s| < 2 then Failed(InvalidRequest) else Parsed(FromLittleEndian2(s[0], s[1]), s[2..])
  }

  function FromLittleEndian2(a: int, b: int): int { a + 256 * b }

  function FromLittleEndian(a: int, b: int, c: int, d: int): int {
    a + 256 * b + 65536 * c + 16777216 * d
  }

  function ReadU32(s: bytes): Parsed<nat> {
    if |s| < 4 then Failed(InvalidRequest) else Parsed(FromLittleEndian(s[0], s[1], s[2], s[3]), s[4..])
  }

  function Signed(u: int, half: int): int { if u < half then u else u - 2 * half }

  function ReadI32(s: bytes): Parsed<int> {
    var (u, k) :- ReadU32(s);
    Parsed(Signed(u, I32_LIMIT), k)
  }

  function ReadI64(s: bytes): Parsed<int> {
    if |s| < 8 then Failed(InvalidRequest) else
    var (lo, s1) :- ReadU32(s);
    var (hi, k) :- ReadU32(s1);
    var v := Signed(lo + U32_LIMIT * hi, I64_LIMIT);
    if IsSafe(v) then Parsed(v, k) else Failed(InvalidRequest)
  }

  function ReadBool(s: bytes): Parsed<bool> {
    var (b, k) :- ReadU8(s);
    if b > 1 then Failed(InvalidRequest) else Parsed(b == 1, k)
  }

  function ReadRaw(n: int, s: bytes): Parsed<bytes>
    requires 0 <= n
  {
    if |s| < n then Failed(InvalidRequest) else Parsed(s[..n], s[n..])
  }

  function ReadBytes(s: bytes): Parsed<bytes> {
    var (n, s1) :- ReadU32(s);
    ReadRaw(n, s1)
  }

  function ReadStr(keepBom: bool, s: bytes): Parsed<string> {
    var (b, k) :- ReadBytes(s);
    match Utf8.DecodeText(keepBom, b)
    case Some(t) => Parsed(t, k)
    case None => Failed(InvalidRequest)
  }

  // ----- The two directions are inverse ------------------------------------------

  lemma LittleEndianSplit(v: int)
    requires IsU32(v)
    ensures FromLittleEndian(v % 256, v / 256 % 256, v / 65536 % 256, v / 16777216 % 256) == v
  {
    assert v / 65536 == v / 256 / 256;
    assert v / 16777216 == v / 65536 / 256;
  }

  lemma LittleEndianJoin(a: byte, b: byte, c: byte, d: byte)
    ensures var v := FromLittleEndian(a, b, c, d);
            IsU32(v) && v % 256 == a && v / 256 % 256 == b && v / 65536 % 256 == c && v / 16777216 % 256 == d
  {
    var v := FromLittleEndian(a, b, c, d);
    assert v / 256 == b + 256 * c + 65536 * d;
    assert v / 65536 == c + 256 * d;
    assert v / 16777216 == d;
  }

  lemma LittleEndianJoin2(a: byte, b: byte)
    ensures var v := FromLittleEndian2(a, b);
            IsU16(v) && v % 256 == a && v / 256 % 256 == b
  {
  }

  lemma U8Laws(v: int, k: bytes, s: bytes)
    ensures IsU8(v) ==> ReadU8(PutU8(v, k)) == Parsed(v, k)
    ensures ReadU8(s).Parsed? ==> IsU8(ReadU8(s).value) && s == PutU8(ReadU8(s).value, ReadU8(s).rest)
  {
    assert PutU8(v, k)[1..] == k;
  }

  lemma U16RoundTrip(v: int, k: bytes)
    requires IsU16(v)
    ensures ReadU16(PutU16(v, k)) == Parsed(v, k)
  {
    assert PutU16(v, k)[2..] == k;
    assert v / 256 % 256 == v / 256;
  }

  lemma U16Exact(s: bytes)
    requires |s| >= 2
    ensures IsU16(ReadU16(s).value) && s == PutU16(ReadU16(s).value, ReadU16(s).rest)
  {
    LittleEndianJoin2(s[0], s[1]);
    assert s == [s[0], s[1]] + s[2..];
  }

  lemma U32Size(v: int, k: bytes, s: bytes)
    ensures |PutU32(v, k)| == 4 + |k|
    ensures ReadU32(s).Parsed? <==> |s| >= 4
  {
  }

  lemma U32RoundTrip(v: int, k: bytes)
    requires IsU32(v)
    ensures ReadU32(PutU32(v, k)) == Parsed(v, k)
  {
    assert PutU32(v, k)[4..] == k;
    LittleEndianSplit(v);
  }

  lemma U32Exact(s: bytes)
    requires |s| >= 4
    ensures ReadU32(s).Parsed? && IsU32(ReadU32(s).value) && ReadU32(s).rest == s[4..]
    ensures s == PutU32(ReadU32(s).value, ReadU32(s).rest)
  {
    LittleEndianJoin(s[0], s[1], s[2], s[3]);
    assert s == [s[0], s[1], s[2], s[3]] + s[4..];
  }

  lemma I32RoundTrip(v: int, k: bytes)
    requires IsI32(v)
    ensures ReadI32(PutI32(v, k)) == Parsed(v, k)
  {
    U32RoundTrip(Unsigned(v, I32_LIMIT), k);
  }

  lemma I32Exact(s: bytes)
    requires |s| >= 4
    ensures IsI32(ReadI32(s).value) && s == PutI32(ReadI32(s).value, ReadI32(s).rest)
  {
    U32Exact(s);
  }

  lemma Halves(lo: int, hi: int)
    requires IsU32(lo) && IsU32(hi)
    ensures var u := lo + U32_LIMIT * hi;
            0 <= u < 2 * I64_LIMIT && u % U32_LIMIT == lo && u / U32_LIMIT == hi
  {
  }

  lemma ReadHalves(lo: int, hi: int, k: bytes)
    requires IsU32(lo) && IsU32(hi)
    ensures var v := Signed(lo + U32_LIMIT * hi, I64_LIMIT);
            IsSafe(v) ==> ReadI64(PutU32(lo, PutU32(hi, k))) == Parsed(v, k)
  {
    U32RoundTrip(lo, PutU32(hi, k));
    U32RoundTrip(hi, k);
  }

  lemma I64RoundTrip(v: int, k: bytes)
    requires IsSafe(v)
    ensures ReadI64(PutI64(v, k)) == Parsed(v, k)
  {
    var u := Unsigned(v, I64_LIMIT);
    var lo, hi := u % U32_LIMIT, u / U32_LIMIT;
    assert u == lo + U32_LIMIT * hi;
    ReadHalves(lo, hi, k);
  }

  lemma I64Exact(s: bytes)
    requires ReadI64(s).Parsed?
    ensures IsSafe(ReadI64(s).value) && s == PutI64(ReadI64(s).value, ReadI64(s).rest)
    ensures |ReadI64(s).rest| + 8 == |s|
  {
    U32Exact(s);
    U32Exact(s[4..]);
    var lo, hi := ReadU32(s).value, ReadU32(s[4..]).value;
    Halves(lo, hi);
  }

  lemma BytesLaws(b: bytes, k: bytes, s: bytes)
    ensures IsBytes(b) ==> ReadBytes(PutBytes(b, k)) == Parsed(b, k)
    ensures ReadBytes(s).Parsed? ==> IsBytes(ReadBytes(s).value) && s == PutBytes(ReadBytes(s).value, ReadBytes(s).rest)
  {
    if IsBytes(b) {
      U32RoundTrip(|b|, b + k);
      assert (b + k)[..|b|] == b && (b + k)[|b|..] == k;
    }
    if ReadBytes(s).Parsed? {
      U32Exact(s);
      var s1 := s[4..];
      var n := ReadU32(s).value;
      assert s1 == s1[..n] + s1[n..];
    }
  }

  lemma StrRoundTrip(t: string, k: bytes)
    requires IsStr(t)
    ensures ReadStr(true, PutStr(t, k)) == Parsed(t, k)
  {
    BytesLaws(Utf8.Encode(t), k, []);
    Utf8.TextRoundTrip(t);
  }

  lemma StrExact(keepBom: bool, s: bytes)
    requires ReadStr(keepBom, s).Parsed?
    ensures var r := ReadStr(keepBom, s);
            && IsStr(r.value)
            && 4 + |Utf8.Encode(r.value)| + |r.rest| <= |s|
            && (keepBom ==> s == PutStr(r.value, r.rest))
  {
    BytesLaws([], [], s);
    Utf8.DecodedTextFits(keepBom, ReadBytes(s).value);
  }

  /** Where the two text decoders part: exactly on text that starts with U+FEFF. */
  lemma StrReadersAgree(s: bytes)
    requires ReadStr(true, s).Parsed?
    ensures var r := ReadStr(true, s);
            && ReadStr(false, s).Parsed?
            && ReadStr(false, s).rest == r.rest
            && (ReadStr(false, s).value == r.value <==> Utf8.Clean(r.value))
  {
    var b := ReadBytes(s).value;
    Utf8.DecodersAgree(b);
    var t := ReadStr(true, s).value;
    assert !Utf8.Clean(t) ==> |t[1..]| != |t|;
  }
}
