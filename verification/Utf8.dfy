/**
 * UTF-8 (RFC 3629) as `TextEncoder` writes it and a fatal `TextDecoder` reads it.
 * Text is a sequence of Unicode scalar values. A decoder built without `ignoreBOM`
 * drops one leading U+FEFF; `DecodeText(false, _)` is that decoder and
 * `DecodeText(true, _)` the one that keeps the mark.
 */
module Utf8 {
  import opened Results

  const BOM: char := '\U{FEFF}'

  function EncodeChar(c: char): (b: bytes)
    ensures 1 <= |b| <= 4
  {
    var n := c as int;
    if n < 0x80 then [n]
    else if n < 0x800 then [0xC0 + n / 64, 0x80 + n % 64]
    else if n < 0x10000 then [0xE0 + n / 4096, 0x80 + n / 64 % 64, 0x80 + n % 64]
    else [0xF0 + n / 262144, 0x80 + n / 4096 % 64, 0x80 + n / 64 % 64, 0x80 + n % 64]
  }

  function Encode(t: string): bytes {
    if t == [] then [] else EncodeChar(t[0]) + Encode(t[1..])
  }

  predicate IsContinuation(b: byte) { 0x80 <= b < 0xC0 }

  /** Six more bits, taken from a continuation byte. */
  function Join(high: int, b: byte): int { high * 64 + (b - 0x80) }

  predicate IsScalar(n: int) { 0 <= n < 0xD800 || 0xE000 <= n < 0x110000 }

  /** The scalar value at the front of `b`, in its shortest form, and its length. */
  function DecodeChar(b: bytes): (r: Option<(char, nat)>)
    ensures r.Some? ==> 1 <= r.value.1 <= |b|
  {
    if |b| >= 1 && b[0] < 0x80 then
      Some((b[0] as char, 1))
    else if |b| >= 2 && 0xC2 <= b[0] < 0xE0 && IsContinuation(b[1]) then
      var n := Join(b[0] - 0xC0, b[1]);
      Some((n as char, 2))
    else if |b| >= 3 && 0xE0 <= b[0] < 0xF0 && IsContinuation(b[1]) && IsContinuation(b[2]) then
      var n := Join(Join(b[0] - 0xE0, b[1]), b[2]);
      if n >= 0x800 && IsScalar(n) then
        Some((n as char, 3))
      else None
    else if |b| >= 4 && 0xF0 <= b[0] < 0xF5 && IsContinuation(b[1]) && IsContinuation(b[2]) && IsContinuation(b[3]) then
      var n := Join(Join(Join(b[0] - 0xF0, b[1]), b[2]), b[3]);
      if 0x10000 <= n < 0x110000 then
        Some((n as char, 4))
      else None
    else None
  }

  lemma SplitThree(a: int, b: int, c: int)
    requires 0 <= a < 16 && 0 <= b < 64 && 0 <= c < 64
    ensures var n := (a * 64 + b) * 64 + c;
            n / 4096 == a && n / 64 % 64 == b && n % 64 == c
  {
  }

  lemma SplitFour(a: int, b: int, c: int, d: int)
    requires 0 <= a < 5 && 0 <= b < 64 && 0 <= c < 64 && 0 <= d < 64
    ensures var n := ((a * 64 + b) * 64 + c) * 64 + d;
            n / 262144 == a && n / 4096 % 64 == b && n / 64 % 64 == c && n % 64 == d
  {
    var n := ((a * 64 + b) * 64 + c) * 64 + d;
    assert n / 64 == (a * 64 + b) * 64 + c;
    assert n / 4096 == a * 64 + b;
  }

  lemma DecodedCharIsExact(b: bytes)
    requires DecodeChar(b).Some?
    ensures EncodeChar(DecodeChar(b).value.0) == b[..DecodeChar(b).value.1]
  {
    var (c, n) := DecodeChar(b).value;
    if n == 1 {
      assert b[..1] == [b[0]];
    } else if n == 2 {
      assert EncodeChar(c) == [b[0], b[1]];
    } else if n == 3 {
      SplitThree(b[0] - 0xE0, b[1] - 0x80, b[2] - 0x80);
      assert EncodeChar(c) == [b[0], b[1], b[2]];
    } else {
      SplitFour(b[0] - 0xF0, b[1] - 0x80, b[2] - 0x80, b[3] - 0x80);
      assert EncodeChar(c) == [b[0], b[1], b[2], b[3]];
    }
  }

  /** Fatal decoding: every accepted input is the encoding of its result. */
  function Decode(b: bytes): (r: Option<string>)
    ensures r.Some? ==> Encode(r.value) == b
    decreases |b|
  {
    if b == [] then Some([])
    else
      match DecodeChar(b)
      case None => None
      case Some((c, n)) =>
        DecodedCharIsExact(b);
        match Decode(b[n..])
        case None => None
        case Some(t) => Some([c] + t)
  }

  lemma JoinThree(n: int)
    requires 0x800 <= n < 0x10000
    ensures Join(Join(n / 4096, 0x80 + n / 64 % 64), 0x80 + n % 64) == n
  {
    assert n / 64 == (n / 4096) * 64 + n / 64 % 64;
  }

  lemma JoinFour(n: int)
    requires 0x10000 <= n < 0x110000
    ensures Join(Join(Join(n / 262144, 0x80 + n / 4096 % 64), 0x80 + n / 64 % 64), 0x80 + n % 64) == n
  {
    assert n / 64 == (n / 4096) * 64 + n / 64 % 64;
    assert n / 4096 == (n / 262144) * 64 + n / 4096 % 64;
  }

  /** The table in section 3 of RFC 3629: the lead byte tells the length, the rest carry six bits each. */
  lemma CharShape(c: char)
    ensures var n, b := c as int, EncodeChar(c);
            && (n < 0x80 ==> b == [n])
            && (0x80 <= n < 0x800 ==>
                  && |b| == 2 && 0xC2 <= b[0] < 0xE0 && IsContinuation(b[1])
                  && n == (b[0] as int - 0xC0) * 64 + (b[1] as int - 0x80))
            && (0x800 <= n < 0x10000 ==>
                  && |b| == 3 && 0xE0 <= b[0] < 0xF0 && IsContinuation(b[1]) && IsContinuation(b[2])
                  && n == (b[0] as int - 0xE0) * 4096 + (b[1] as int - 0x80) * 64 + (b[2] as int - 0x80))
            && (0x10000 <= n ==>
                  && |b| == 4 && 0xF0 <= b[0] < 0xF5 && IsContinuation(b[1]) && IsContinuation(b[2]) && IsContinuation(b[3])
                  && n == (b[0] as int - 0xF0) * 262144 + (b[1] as int - 0x80) * 4096 + (b[2] as int - 0x80) * 64 + (b[3] as int - 0x80))
  {
    var n := c as int;
    if 0x800 <= n < 0x10000 { JoinThree(n); }
    if 0x10000 <= n { JoinFour(n); }
  }

  lemma DecodeWideChar(b: bytes, c: char)
    requires 0x10000 <= c as int
    requires |b| >= 4 && b[..4] == EncodeChar(c)
    ensures DecodeChar(b) == Some((c, 4))
  {
    var e := EncodeChar(c);
    assert b[0] == e[0] && b[1] == e[1] && b[2] == e[2] && b[3] == e[3];
    JoinFour(c as int);
  }

  lemma DecodeThreeByteChar(b: bytes, c: char)
    requires 0x800 <= c as int < 0x10000
    requires |b| >= 3 && b[..3] == EncodeChar(c)
    ensures DecodeChar(b) == Some((c, 3))
  {
    var e := EncodeChar(c);
    assert b[0] == e[0] && b[1] == e[1] && b[2] == e[2];
    JoinThree(c as int);
  }

  lemma DecodeCharInvertsEncodeChar(c: char, k: bytes)
    ensures DecodeChar(EncodeChar(c) + k) == Some((c, |EncodeChar(c)|))
  {
    var n := c as int;
    var e := EncodeChar(c);
    var b := e + k;
    if n < 0x80 {
      assert b[0] == n;
    } else if n < 0x800 {
      assert b[0] == e[0] && b[1] == e[1];
    } else if n < 0x10000 {
      DecodeThreeByteChar(b, c);
    } else {
      DecodeWideChar(b, c);
    }
  }

  lemma {:induction false} DecodeInvertsEncode(t: string)
    ensures Decode(Encode(t)) == Some(t)
  {
    if t != [] {
      DecodeCharInvertsEncodeChar(t[0], Encode(t[1..]));
      var e := EncodeChar(t[0]);
      assert Encode(t)[|e|..] == Encode(t[1..]);
      DecodeInvertsEncode(t[1..]);
      assert [t[0]] + t[1..] == t;
    }
  }

  predicate StartsWithBom(b: bytes) {
    |b| >= 3 && b[0] == 0xEF && b[1] == 0xBB && b[2] == 0xBF
  }

  /** `textDecoder.decode`: the leading mark is dropped unless it is kept. */
  function DecodeText(keepBom: bool, b: bytes): (r: Option<string>) {
    if !keepBom && StartsWithBom(b) then Decode(b[3..]) else Decode(b)
  }

  /** Text that survives a decoder which drops a leading byte order mark. */
  predicate Clean(t: string) { t != [] ==> t[0] != BOM }

  lemma BomIsExactlyTheMark(t: string)
    ensures StartsWithBom(Encode(t)) <==> !Clean(t)
    ensures !Clean(t) ==> Encode(t)[3..] == Encode(t[1..])
  {
    if t != [] {
      var n := t[0] as int;
      var e := EncodeChar(t[0]);
      var b := Encode(t);
      assert forall i :: 0 <= i < |e| ==> b[i] == e[i];
      if t[0] == BOM {
        assert b[3..] == Encode(t[1..]);
      }
    }
  }

  /** What the two decoders make of the same bytes, when the keeping one accepts them. */
  lemma DecodersAgree(b: bytes)
    requires DecodeText(true, b).Some?
    ensures var t := DecodeText(true, b).value;
            DecodeText(false, b) == Some(if Clean(t) then t else t[1..])
  {
    var t := Decode(b).value;
    BomIsExactlyTheMark(t);
    if !Clean(t) {
      DecodeInvertsEncode(t[1..]);
    }
  }

  /** The mark is U+FEFF, the three bytes EF BB BF: in front of any text they are dropped. */
  lemma MarkDropped(t: string)
    ensures DecodeText(false, [0xEF, 0xBB, 0xBF] + Encode(t)) == Some(t)
    ensures Clean(t) <==> (t == [] || t[0] as int != 0xFEFF)
  {
    var b := [0xEF, 0xBB, 0xBF] + Encode(t);
    assert b[3..] == Encode(t);
    DecodeInvertsEncode(t);
  }

  lemma {:induction false} TextRoundTrip(t: string)
    ensures DecodeText(true, Encode(t)) == Some(t)
    ensures DecodeText(false, Encode(t)) == Some(t) <==> Clean(t)
  {
    DecodeInvertsEncode(t);
    DecodersAgree(Encode(t));
    assert !Clean(t) ==> |t[1..]| != |t|;
  }

  /** The dropped mark only makes the text shorter. */
  lemma DecodedTextFits(keepBom: bool, b: bytes)
    requires DecodeText(keepBom, b).Some?
    ensures |Encode(DecodeText(keepBom, b).value)| <= |b|
  {
  }
}
