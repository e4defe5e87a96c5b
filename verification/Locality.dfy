/**
 * A reader is local when what follows the value it reads does not matter. It follows that
 * no accepted whole is a proper prefix of another.
 */
module Locality {
  import opened Results
  import opened Primitives
  import opened Formats
  import opened Hosts
  import opened RowCodec
  import opened SegmentCodec

  ghost predicate LocalAt<T>(f: Format<T>, keepBom: bool, s: bytes, t: bytes) {
    var r := f.read(keepBom, s);
    r.Parsed? ==> f.read(keepBom, s + t) == Parsed(r.value, r.rest + t)
  }

  ghost predicate Local<T(!new)>(f: Format<T>) {
    forall keepBom, s, t :: LocalAt(f, keepBom, s, t)
  }

  lemma U32Local(s: bytes, t: bytes)
    requires ReadU32(s).Parsed?
    ensures ReadU32(s + t) == Parsed(ReadU32(s).value, ReadU32(s).rest + t)
  {
    assert (s + t)[4..] == s[4..] + t;
    assert (s + t)[0] == s[0] && (s + t)[1] == s[1] && (s + t)[2] == s[2] && (s + t)[3] == s[3];
  }

  lemma RawLocalAt(n: nat, s: bytes, t: bytes)
    requires ReadRaw(n, s).Parsed?
    ensures ReadRaw(n, s + t) == Parsed(ReadRaw(n, s).value, ReadRaw(n, s).rest + t)
  {
    assert (s + t)[..n] == s[..n] && (s + t)[n..] == s[n..] + t;
  }

  lemma BytesLocal(s: bytes, t: bytes)
    requires ReadBytes(s).Parsed?
    ensures ReadBytes(s + t) == Parsed(ReadBytes(s).value, ReadBytes(s).rest + t)
  {
    hide ReadU32, ReadRaw;
    U32Local(s, t);
    RawLocalAt(ReadU32(s).value, ReadU32(s).rest, t);
  }

  lemma ScalarsLocal()
    ensures Local(U8Format()) && Local(U16Format()) && Local(I32Format()) && Local(BoolFormat()) && Local(StrFormat())
  {
    forall keepBom, s: bytes, t: bytes ensures LocalAt(U8Format(), keepBom, s, t) && LocalAt(BoolFormat(), keepBom, s, t) {
      if |s| >= 1 { assert (s + t)[1..] == s[1..] + t; }
    }
    forall keepBom, s: bytes, t: bytes ensures LocalAt(U16Format(), keepBom, s, t) {
      if |s| >= 2 { assert (s + t)[2..] == s[2..] + t; }
    }
    forall keepBom, s: bytes, t: bytes ensures LocalAt(I32Format(), keepBom, s, t) {
      if ReadU32(s).Parsed? { U32Local(s, t); }
    }
    forall keepBom, s: bytes, t: bytes ensures LocalAt(StrFormat(), keepBom, s, t) {
      if ReadBytes(s).Parsed? { BytesLocal(s, t); }
    }
  }

  lemma RawLocal(n: nat)
    ensures Local(RawFormat(n))
  {
    forall keepBom, s, t ensures LocalAt(RawFormat(n), keepBom, s, t) {
      if ReadRaw(n, s).Parsed? { RawLocalAt(n, s, t); }
    }
  }

  lemma ViaLocal<A(!new), B(!new)>(f: Format<A>, to: A -> Result<B>, from: B -> A)
    requires Local(f)
    ensures Local(ViaFormat(f, to, from))
  {
    forall keepBom, s, t ensures LocalAt(ViaFormat(f, to, from), keepBom, s, t) {
      assert LocalAt(f, keepBom, s, t);
    }
  }

  lemma DepLocal<A(!new), B(!new)>(f: Format<A>, g: A -> Format<B>)
    requires Local(f) && forall a :: Local(g(a))
    ensures Local(DepFormat(f, g))
  {
    forall keepBom, s, t ensures LocalAt(DepFormat(f, g), keepBom, s, t) {
      assert LocalAt(f, keepBom, s, t);
      var r := f.read(keepBom, s);
      if r.Parsed? {
        assert Local(g(r.value));
        assert LocalAt(g(r.value), keepBom, r.rest, t);
      }
    }
  }

  lemma PairLocal<A(!new), B(!new)>(f: Format<A>, g: Format<B>)
    requires Local(f) && Local(g)
    ensures Local(PairFormat(f, g))
  {
    forall keepBom, s, t ensures LocalAt(PairFormat(f, g), keepBom, s, t) {
      assert LocalAt(f, keepBom, s, t);
      var r := f.read(keepBom, s);
      if r.Parsed? { assert LocalAt(g, keepBom, r.rest, t); }
    }
  }

  lemma {:induction false} ReadAllLocal<T(!new)>(f: Format<T>, keepBom: bool, n: nat, s: bytes, t: bytes)
    requires Local(f) && ReadAll(f, keepBom, n, s).Parsed?
    ensures ReadAll(f, keepBom, n, s + t) == Parsed(ReadAll(f, keepBom, n, s).value, ReadAll(f, keepBom, n, s).rest + t)
  {
    if n != 0 {
      assert LocalAt(f, keepBom, s, t);
      ReadAllLocal(f, keepBom, n - 1, f.read(keepBom, s).rest, t);
    }
  }

  lemma DelimitedLocal<T(!new)>(f: Format<T>)
    ensures Local(DelimitedFormat(f))
  {
    forall keepBom, s, t ensures LocalAt(DelimitedFormat(f), keepBom, s, t) {
      if ReadBytes(s).Parsed? { BytesLocal(s, t); }
    }
  }

  // ----- Rows segments -----------------------------------------------------------------------------

  lemma ColumnsLocal()
    ensures Local(ColumnsFormat())
  {
    hide U8Format, U16Format, BoolFormat, StrFormat, Local;
    ScalarsLocal();
    ViaLocal(U8Format(), TypeFromTag, TypeTag);
    PairLocal(TagFormat(), BoolFormat());
    PairLocal(StrFormat(), PairFormat(TagFormat(), BoolFormat()));
    ViaLocal(PairFormat(StrFormat(), PairFormat(TagFormat(), BoolFormat())), ToColumn, FromColumn);
    forall n ensures Local(ColumnsOf(n)) { ExactlyLocal(ColumnFormat(), if n < 0 then 0 else n); }
    DepLocal(U16Format(), ColumnsOf);
    ViaLocal(DepFormat(U16Format(), ColumnsOf), CheckCount, WithCount);
  }

  lemma ExactlyLocal<T(!new)>(f: Format<T>, n: nat)
    requires Local(f)
    ensures Local(ExactlyFormat(f, n))
  {
    forall keepBom, s, t ensures LocalAt(ExactlyFormat(f, n), keepBom, s, t) {
      if ReadAll(f, keepBom, n, s).Parsed? { ReadAllLocal(f, keepBom, n, s, t); }
    }
  }

  lemma HeaderLocal()
    ensures Local(HeaderFormat())
  {
    hide U16Format, I32Format, StrFormat, RawFormat, ColumnsFormat, Local;
    ScalarsLocal();
    RawLocal(4);
    ColumnsLocal();
    PairLocal(I32Format(), ColumnsFormat());
    PairLocal(StrFormat(), PairFormat(I32Format(), ColumnsFormat()));
    ViaLocal(U16Format(), CheckFlags, PutFlags);
    PairLocal(FlagsFormat(), BodyFormat());
    ViaLocal(U16Format(), CheckVersion, PutVersion);
    PairLocal(VersionFormat(), PairFormat(FlagsFormat(), BodyFormat()));
    ViaLocal(RawFormat(4), CheckMagic, PutMagic);
    PairLocal(MagicFormat(), PairFormat(VersionFormat(), PairFormat(FlagsFormat(), BodyFormat())));
    ViaLocal(PreambleFormat(), ToHeader, FromHeader);
  }

  lemma {:induction false} BlocksLocal(host: Host, shape: Shape, keepBom: bool, s: bytes, t: bytes)
    requires ReadBlocks(host, shape, keepBom, s).Parsed?
    ensures ReadBlocks(host, shape, keepBom, s + t)
         == Parsed(ReadBlocks(host, shape, keepBom, s).value, ReadBlocks(host, shape, keepBom, s).rest + t)
    decreases |s|
  {
    hide BlockFormat;
    U32Exact(s);
    U32Local(s, t);
    var n, s1 := ReadU32(s).value, s[4..];
    if n != 0 {
      var f := BlockFormat(host, shape, n);
      BlockLocal(host, shape, n);
      assert LocalAt(f, keepBom, s1, t);
      BlockProgress(host, shape, n, keepBom, s1);
      BlocksLocal(host, shape, keepBom, f.read(keepBom, s1).rest, t);
    }
  }

  lemma BlockLocal(host: Host, shape: Shape, n: nat)
    ensures Local(BlockFormat(host, shape, n))
  {
    hide Local, SegmentRowFormat;
    DelimitedLocal(ExactlyFormat(SegmentRowFormat(host, shape), n));
  }

  lemma SegmentLocal(host: Host)
    ensures Local(SegmentFormat(host))
  {
    hide Local, HeaderFormat, BlocksFormat;
    HeaderLocal();
    forall h: Header ensures Local(BlocksAfter(host)(h)) { BlocksFormatLocal(host, ShapeOf(h.columns)); }
    DepLocal(HeaderFormat(), BlocksAfter(host));
    ViaLocal(DepFormat(HeaderFormat(), BlocksAfter(host)), ToSegment, FromSegment);
  }

  lemma BlocksFormatLocal(host: Host, shape: Shape)
    ensures Local(BlocksFormat(host, shape))
  {
    hide ReadBlocks, PutBlocks;
    forall keepBom, s, t ensures LocalAt(BlocksFormat(host, shape), keepBom, s, t) {
      if ReadBlocks(host, shape, keepBom, s).Parsed? { BlocksLocal(host, shape, keepBom, s, t); }
    }
  }

  /** Nothing accepted stays accepted when bytes are added to it. */
  lemma PrefixFree<T(!new)>(f: Format<T>, b: bytes, t: bytes)
    requires Local(f) && ReadWhole(f, false, b).Ok? && t != []
    ensures ReadWhole(f, false, b + t).Err?
  {
    assert LocalAt(f, false, b, t);
    assert [] + t == t;
  }

  /** No proper prefix of an accepted rows segment is accepted. */
  lemma SegmentPrefixFree(host: Host, b: bytes, n: nat)
    requires ReadWhole(SegmentFormat(host), false, b).Ok? && n < |b|
    ensures ReadWhole(SegmentFormat(host), false, b[..n]).Err?
  {
    hide SegmentFormat, Local;
    SegmentLocal(host);
    assert b == b[..n] + b[n..];
    if ReadWhole(SegmentFormat(host), false, b[..n]).Ok? {
      PrefixFree(SegmentFormat(host), b[..n], b[n..]);
    }
  }
}
