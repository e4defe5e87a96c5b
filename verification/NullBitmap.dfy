/**
 * The null bitmap of a row: one bit per column, least significant bit first within
 * each byte, padded with zero bits to whole bytes.
 */
module NullBitmap {
  import opened Results

  /** `(b >> j) & 1`. */
  predicate BitOf(b: int, j: nat)
    decreases j
  {
    if j == 0 then b % 2 == 1 else BitOf(b / 2, j - 1)
  }

  /** `b | (1 << j)`. */
  function SetBit(b: int, j: nat): int
    decreases j
  {
    if j == 0 then b / 2 * 2 + 1 else b % 2 + 2 * SetBit(b / 2, j - 1)
  }

  function Pow2(j: nat): int { if j == 0 then 1 else 2 * Pow2(j - 1) }

  lemma {:induction false} SetBitSets(b: int, j: nat, m: nat, t: nat)
    requires 0 <= b < Pow2(m) && j < m
    ensures 0 <= SetBit(b, j) < Pow2(m)
    ensures BitOf(SetBit(b, j), t) <==> t == j || BitOf(b, t)
    decreases m
  {
    if j != 0 {
      SetBitSets(b / 2, j - 1, m - 1, if t == 0 then 0 else t - 1);
    }
  }

  lemma {:induction false} BitsDetermine(a: int, b: int, m: nat)
    requires 0 <= a < Pow2(m) && 0 <= b < Pow2(m)
    requires forall j :: 0 <= j < m ==> BitOf(a, j) == BitOf(b, j)
    ensures a == b
    decreases m
  {
    if m != 0 {
      assert BitOf(a, 0) == BitOf(b, 0);
      forall j | 0 <= j < m - 1
        ensures BitOf(a / 2, j) == BitOf(b / 2, j)
      {
        assert BitOf(a, j + 1) == BitOf(b, j + 1);
      }
      BitsDetermine(a / 2, b / 2, m - 1);
    }
  }

  lemma ByteIsEightBits()
    ensures Pow2(8) == 256
  {
    assert Pow2(4) == 16;
  }

  function Length(n: nat): nat { (n + 7) / 8 }

  /** Bit `i` of a bitmap: byte `i / 8`, position `i % 8`. */
  predicate Bit(bm: bytes, i: nat)
    requires i < 8 * |bm|
  {
    BitOf(bm[i / 8], i % 8)
  }

  lemma BitmapsDetermined(a: bytes, b: bytes)
    requires |a| == |b|
    requires forall i :: 0 <= i < 8 * |a| ==> Bit(a, i) == Bit(b, i)
    ensures a == b
  {
    ByteIsEightBits();
    forall q | 0 <= q < |a|
      ensures a[q] == b[q]
    {
      forall j | 0 <= j < 8
        ensures BitOf(a[q], j) == BitOf(b[q], j)
      {
        assert Bit(a, 8 * q + j) == Bit(b, 8 * q + j);
      }
      BitsDetermine(a[q], b[q], 8);
    }
  }

  /** The low `8 - j` bits of the byte whose bits `j..8` are the flags from `base + j`. */
  function PackFrom(nulls: seq<bool>, base: nat, j: nat): (r: int)
    requires j <= 8
    ensures 0 <= r < Pow2(8 - j)
    decreases 8 - j
  {
    if j == 8 then 0
    else (if base + j < |nulls| && nulls[base + j] then 1 else 0) + 2 * PackFrom(nulls, base, j + 1)
  }

  function Pack(nulls: seq<bool>): bytes {
    ByteIsEightBits();
    seq(Length(|nulls|), q requires 0 <= q => PackFrom(nulls, 8 * q, 0))
  }

  lemma {:induction false} PackFromBit(nulls: seq<bool>, base: nat, j: nat, t: nat)
    requires j + t < 8
    ensures BitOf(PackFrom(nulls, base, j), t) <==> base + j + t < |nulls| && nulls[base + j + t]
    decreases t
  {
    var flag := if base + j < |nulls| && nulls[base + j] then 1 else 0;
    var high := PackFrom(nulls, base, j + 1);
    assert PackFrom(nulls, base, j) == flag + 2 * high;
    if t != 0 {
      assert (flag + 2 * high) / 2 == high;
      PackFromBit(nulls, base, j + 1, t - 1);
    }
  }

  /** A packed bitmap has the flags as its first bits and zeros after them. */
  lemma PackBit(nulls: seq<bool>, i: nat)
    requires i < 8 * Length(|nulls|)
    ensures Bit(Pack(nulls), i) <==> i < |nulls| && nulls[i]
  {
    PackFromBit(nulls, 8 * (i / 8), 0, i % 8);
  }

  /** The first `n` bits. */
  function Unpack(bm: bytes, n: nat): seq<bool>
    requires n <= 8 * |bm|
  {
    seq(n, i requires 0 <= i < n => Bit(bm, i))
  }

  predicate PaddingIsZero(bm: bytes, n: nat) {
    forall i: nat :: n <= i < 8 * |bm| ==> !Bit(bm, i)
  }

  lemma UnpackInvertsPack(nulls: seq<bool>)
    ensures |Pack(nulls)| == Length(|nulls|)
    ensures PaddingIsZero(Pack(nulls), |nulls|) && Unpack(Pack(nulls), |nulls|) == nulls
  {
    var bm := Pack(nulls);
    forall i: nat | i < 8 * |bm|
      ensures Bit(bm, i) <==> i < |nulls| && nulls[i]
    {
      PackBit(nulls, i);
    }
  }

  /** A bitmap with zero padding is the packing of its flags, and of nothing else. */
  lemma PackInvertsUnpack(bm: bytes, n: nat)
    requires |bm| == Length(n) && PaddingIsZero(bm, n)
    ensures Pack(Unpack(bm, n)) == bm
  {
    var nulls := Unpack(bm, n);
    forall i: nat | i < 8 * |bm|
      ensures Bit(Pack(nulls), i) == Bit(bm, i)
    {
      PackBit(nulls, i);
      if i < n {
        assert nulls[i] == Bit(bm, i);
      }
    }
    BitmapsDetermined(Pack(nulls), bm);
  }

  /** Marking a column sets its bit and no other. */
  lemma MarkedBit(bm: bytes, i: nat, t: nat)
    requires i < 8 * |bm| && t < 8 * |bm|
    ensures 0 <= SetBit(bm[i / 8], i % 8) < 256
    ensures Bit(bm[i / 8 := SetBit(bm[i / 8], i % 8)], t) <==> t == i || Bit(bm, t)
  {
    ByteIsEightBits();
    SetBitSets(bm[i / 8], i % 8, 8, t % 8);
    assert t == 8 * (t / 8) + t % 8 && i == 8 * (i / 8) + i % 8;
  }
}
