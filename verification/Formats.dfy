/**
 * A wire format is a set of values, a way to put one in front of what follows it,
 * and a way to read one off the front. This module says when a format is lawful and
 * shows that options, counted lists and sorted maps of lawful formats are lawful.
 */
module Formats {
  import opened Results
  import opened Primitives
  import CodeUnits
  import Utf8

  /**
   * `ok` holds of the values that both the encoder and the decoder accept; `clean` of
   * those none of whose texts starts with a byte order mark; `read` takes the flag that
   * keeps such a mark (the codec's own decoder is `read(false, _)`).
   */
  datatype Format<!T> = Format(
    ok: T -> bool,
    clean: T -> bool,
    put: (T, bytes) -> bytes,
    read: (bool, bytes) -> Parsed<T>)

  ghost predicate RoundTripsAt<T>(f: Format<T>, x: T, k: bytes) {
    f.ok(x) ==> f.read(true, f.put(x, k)) == Parsed(x, k)
  }

  /** `f.put`, as a function of the format. */
  function Put<T>(f: Format<T>, x: T, k: bytes): bytes { f.put(x, k) }

  /** What was put is read back, and what follows it is left. */
  ghost predicate RoundTrips<T(!new)>(f: Format<T>) {
    forall x, k :: RoundTripsAt(f, x, k)
  }

  ghost predicate ExactAt<T>(f: Format<T>, s: bytes) {
    var r := f.read(true, s);
    r.Parsed? ==> s == f.put(r.value, r.rest)
  }

  /** Whatever is read was exactly put: no value has a second encoding. */
  ghost predicate Exact<T(!new)>(f: Format<T>) {
    forall s :: ExactAt(f, s)
  }

  ghost predicate SoundAt<T>(f: Format<T>, least: nat, keepBom: bool, s: bytes) {
    var r := f.read(keepBom, s);
    r.Parsed? ==> f.ok(r.value) && |r.rest| + least <= |s| && |f.put(r.value, r.rest)| <= |s|
  }

  /** Whatever is read can be put again, in no more bytes, and took at least `least` of them. */
  ghost predicate Sound<T(!new)>(f: Format<T>, least: nat) {
    forall keepBom, s :: SoundAt(f, least, keepBom, s)
  }

  ghost predicate AgreesAt<T>(f: Format<T>, s: bytes) {
    var r, d := f.read(true, s), f.read(false, s);
    r.Parsed? ==>
      && (f.clean(r.value) ==> d == r)
      && (d.Parsed? ==> d.rest == r.rest && (d.value == r.value ==> f.clean(r.value)))
  }

  /** The dropping reader returns the value the keeping one does exactly when it is clean. */
  ghost predicate Agrees<T(!new)>(f: Format<T>) {
    forall s :: AgreesAt(f, s)
  }

  ghost predicate AdditiveAt<T>(f: Format<T>, x: T, k: bytes) {
    |f.put(x, k)| == |f.put(x, [])| + |k|
  }

  /** The size of an encoding does not depend on what follows it. */
  ghost predicate Additive<T(!new)>(f: Format<T>) {
    forall x, k :: AdditiveAt(f, x, k)
  }

  ghost predicate Lawful<T(!new)>(f: Format<T>, least: nat) {
    RoundTrips(f) && Exact(f) && Sound(f, least) && Agrees(f) && Additive(f)
  }

  lemma Weaken<T(!new)>(f: Format<T>, least: nat, less: nat)
    requires Lawful(f, least) && less <= least
    ensures Lawful(f, less)
  {
    forall keepBom, s ensures SoundAt(f, less, keepBom, s) {
      assert SoundAt(f, least, keepBom, s);
    }
  }

  // ----- Scalars -----------------------------------------------------------------

  function U8Format(): Format<int> {
    Format(IsU8, _ => true, PutU8, (_, s) => ReadU8(s))
  }

  function U16Format(): Format<int> {
    Format(IsU16, _ => true, PutU16, (_, s) => ReadU16(s))
  }

  function BoolFormat(): Format<bool> {
    Format(_ => true, _ => true, PutBool, (_, s) => ReadBool(s))
  }

  function I32Format(): Format<int> {
    Format(IsI32, _ => true, PutI32, (_, s) => ReadI32(s))
  }

  function I64Format(): Format<int> {
    Format(IsSafe, _ => true, PutI64, (_, s) => ReadI64(s))
  }

  function BytesFormat(): Format<bytes> {
    Format(IsBytes, _ => true, PutBytes, (_, s) => ReadBytes(s))
  }

  function StrFormat(): Format<string> {
    Format(IsStr, Utf8.Clean, PutStr, ReadStr)
  }

  lemma U8Lawful()
    ensures Lawful(U8Format(), 1)
  {
    var f := U8Format();
    forall x: int, k ensures RoundTripsAt(f, x, k) && AdditiveAt(f, x, k) {
      U8Laws(x, k, []);
    }
    forall s ensures ExactAt(f, s) && AgreesAt(f, s) && SoundAt(f, 1, true, s) && SoundAt(f, 1, false, s) {
      U8Laws(0, [], s);
    }
  }

  lemma U16Lawful()
    ensures Lawful(U16Format(), 2)
  {
    var f := U16Format();
    forall x: int, k ensures RoundTripsAt(f, x, k) && AdditiveAt(f, x, k) {
      if IsU16(x) { U16RoundTrip(x, k); }
    }
    forall s ensures ExactAt(f, s) && AgreesAt(f, s) && SoundAt(f, 2, true, s) && SoundAt(f, 2, false, s) {
      if |s| >= 2 { U16Exact(s); }
    }
  }

  lemma I32Lawful()
    ensures Lawful(I32Format(), 4)
  {
    var f := I32Format();
    forall x: int, k ensures RoundTripsAt(f, x, k) && AdditiveAt(f, x, k) {
      if IsI32(x) { I32RoundTrip(x, k); }
    }
    forall s ensures ExactAt(f, s) && AgreesAt(f, s) && SoundAt(f, 4, true, s) && SoundAt(f, 4, false, s) {
      if |s| >= 4 { I32Exact(s); }
    }
  }

  lemma I64Lawful()
    ensures Lawful(I64Format(), 8)
  {
    var f := I64Format();
    forall x: int, k ensures RoundTripsAt(f, x, k) && AdditiveAt(f, x, k) {
      if IsSafe(x) { I64RoundTrip(x, k); }
    }
    forall s ensures ExactAt(f, s) && AgreesAt(f, s) && SoundAt(f, 8, true, s) && SoundAt(f, 8, false, s) {
      if ReadI64(s).Parsed? { I64Exact(s); }
    }
  }

  lemma BoolLawful()
    ensures Lawful(BoolFormat(), 1)
  {
    var f := BoolFormat();
    forall x: bool, k ensures RoundTripsAt(f, x, k) && AdditiveAt(f, x, k) {
      U8Laws(if x then 1 else 0, k, []);
    }
    forall s ensures ExactAt(f, s) && AgreesAt(f, s) && SoundAt(f, 1, true, s) && SoundAt(f, 1, false, s) {
      U8Laws(0, [], s);
    }
  }

  lemma BytesLawful()
    ensures Lawful(BytesFormat(), 4)
  {
    var f := BytesFormat();
    forall x: bytes, k ensures RoundTripsAt(f, x, k) && AdditiveAt(f, x, k) {
      BytesLaws(x, k, []);
    }
    forall s ensures ExactAt(f, s) && AgreesAt(f, s) && SoundAt(f, 4, true, s) && SoundAt(f, 4, false, s) {
      BytesLaws([], [], s);
    }
  }

  lemma StrLawful()
    ensures Lawful(StrFormat(), 4)
  {
    var f := StrFormat();
    forall x: string, k ensures RoundTripsAt(f, x, k) && AdditiveAt(f, x, k) {
      if IsStr(x) { StrRoundTrip(x, k); }
    }
    forall s ensures ExactAt(f, s) && AgreesAt(f, s) && SoundAt(f, 4, true, s) && SoundAt(f, 4, false, s) {
      if ReadStr(true, s).Parsed? { StrExact(true, s); StrReadersAgree(s); }
      if ReadStr(false, s).Parsed? { StrExact(false, s); }
    }
  }

  // ----- Options -----------------------------------------------------------------

  function PutOpt<T>(f: Format<T>, o: Option<T>, k: bytes): bytes {
    match o
    case None => PutU8(0, k)
    case Some(x) => PutU8(1, f.put(x, k))
  }

  function ReadOpt<T>(f: Format<T>, keepBom: bool, s: bytes): Parsed<Option<T>> {
    var (presence, s1) :- ReadU8(s);
    if presence == 0 then Parsed(None, s1)
    else if presence == 1 then
      var (x, k) :- f.read(keepBom, s1);
      Parsed(Some(x), k)
    else Failed(InvalidRequest)
  }

  function OptFormat<T>(f: Format<T>): Format<Option<T>> {
    Format(
      (o: Option<T>) => o.Some? ==> f.ok(o.value),
      (o: Option<T>) => o.Some? ==> f.clean(o.value),
      (o, k) => PutOpt(f, o, k),
      (keepBom, s) => ReadOpt(f, keepBom, s))
  }

  lemma OptLawful<T(!new)>(f: Format<T>, least: nat)
    requires Lawful(f, least)
    ensures Lawful(OptFormat(f), 1)
  {
    var g := OptFormat(f);
    forall o, k ensures RoundTripsAt(g, o, k) && AdditiveAt(g, o, k) {
      U8Laws(0, k, []);
      if o.Some? {
        U8Laws(1, f.put(o.value, k), []);
        assert RoundTripsAt(f, o.value, k) && AdditiveAt(f, o.value, k);
      }
    }
    forall s ensures ExactAt(g, s) && AgreesAt(g, s) && SoundAt(g, 1, true, s) && SoundAt(g, 1, false, s) {
      U8Laws(0, [], s);
      if |s| >= 1 {
        var s1 := s[1..];
        assert ExactAt(f, s1) && AgreesAt(f, s1);
        assert SoundAt(f, least, true, s1) && SoundAt(f, least, false, s1);
      }
    }
  }

  // ----- Counted lists -------------------------------------------------------------

  function PutAll<T>(f: Format<T>, xs: seq<T>, k: bytes): bytes {
    if xs == [] then k else f.put(xs[0], PutAll(f, xs[1..], k))
  }

  function ReadAll<T>(f: Format<T>, keepBom: bool, n: int, s: bytes): Parsed<seq<T>>
    requires 0 <= n
  {
    if n == 0 then Parsed([], s)
    else
      var (x, s1) :- f.read(keepBom, s);
      var (xs, k) :- ReadAll(f, keepBom, n - 1, s1);
      Parsed([x] + xs, k)
  }

  predicate AllOk<T>(f: Format<T>, xs: seq<T>) { forall i :: 0 <= i < |xs| ==> f.ok(xs[i]) }

  predicate AllClean<T>(f: Format<T>, xs: seq<T>) { forall i :: 0 <= i < |xs| ==> f.clean(xs[i]) }

  lemma {:induction false} ReadAllInvertsPutAll<T(!new)>(f: Format<T>, xs: seq<T>, k: bytes)
    requires RoundTrips(f) && AllOk(f, xs)
    ensures ReadAll(f, true, |xs|, PutAll(f, xs, k)) == Parsed(xs, k)
  {
    if xs != [] {
      ReadAllInvertsPutAll(f, xs[1..], k);
      assert RoundTripsAt(f, xs[0], PutAll(f, xs[1..], k));
      assert [xs[0]] + xs[1..] == xs;
    }
  }

  lemma {:induction false} PutAllInvertsReadAll<T(!new)>(f: Format<T>, n: nat, s: bytes)
    requires Exact(f) && ReadAll(f, true, n, s).Parsed?
    ensures PutAll(f, ReadAll(f, true, n, s).value, ReadAll(f, true, n, s).rest) == s
  {
    if n != 0 {
      assert ExactAt(f, s);
      PutAllInvertsReadAll(f, n - 1, f.read(true, s).rest);
      assert ReadAll(f, true, n, s).value[1..] == ReadAll(f, true, n - 1, f.read(true, s).rest).value;
    }
  }

  lemma {:induction false} PutAllAdditive<T(!new)>(f: Format<T>, xs: seq<T>, k: bytes)
    requires Additive(f)
    ensures |PutAll(f, xs, k)| == |PutAll(f, xs, [])| + |k|
  {
    if xs != [] {
      PutAllAdditive(f, xs[1..], k);
      assert AdditiveAt(f, xs[0], PutAll(f, xs[1..], k)) && AdditiveAt(f, xs[0], PutAll(f, xs[1..], []));
    }
  }

  /** However many items the count claims, reading them took `least` bytes each. */
  lemma {:induction false} ReadAllSound<T(!new)>(f: Format<T>, least: nat, keepBom: bool, n: nat, s: bytes)
    requires Sound(f, least) && Additive(f) && ReadAll(f, keepBom, n, s).Parsed?
    ensures var r := ReadAll(f, keepBom, n, s);
            && |r.value| == n && AllOk(f, r.value)
            && |r.rest| + n * least <= |s|
            && |PutAll(f, r.value, r.rest)| <= |s|
  {
    if n != 0 {
      assert SoundAt(f, least, keepBom, s);
      var h := f.read(keepBom, s);
      ReadAllSound(f, least, keepBom, n - 1, h.rest);
      var t := ReadAll(f, keepBom, n - 1, h.rest);
      var r := ReadAll(f, keepBom, n, s);
      assert r.value[1..] == t.value;
      assert AdditiveAt(f, h.value, PutAll(f, t.value, t.rest)) && AdditiveAt(f, h.value, h.rest);
      assert n * least == (n - 1) * least + least;
    }
  }

  lemma {:induction false} ReadAllAgrees<T(!new)>(f: Format<T>, n: nat, s: bytes)
    requires Agrees(f) && ReadAll(f, true, n, s).Parsed?
    ensures var r, d := ReadAll(f, true, n, s), ReadAll(f, false, n, s);
            && (AllClean(f, r.value) ==> d == r)
            && (d.Parsed? ==> d.rest == r.rest && (d.value == r.value ==> AllClean(f, r.value)))
  {
    if n != 0 {
      assert AgreesAt(f, s);
      var h := f.read(true, s);
      ReadAllAgrees(f, n - 1, h.rest);
      var r, d := ReadAll(f, true, n, s), ReadAll(f, false, n, s);
      var t := ReadAll(f, true, n - 1, h.rest);
      assert r.value[1..] == t.value && r.value[0] == h.value;
      if AllClean(f, r.value) {
        assert f.clean(r.value[0]);
        assert forall i :: 0 <= i < |t.value| ==> t.value[i] == r.value[i + 1];
      }
      if d.Parsed? && d.value == r.value {
        assert d.value[0] == f.read(false, s).value;
        assert d.value[1..] == ReadAll(f, false, n - 1, h.rest).value;
        assert forall i :: 0 < i < |r.value| ==> r.value[i] == t.value[i - 1];
      }
    }
  }

  function PutList<T>(f: Format<T>, xs: seq<T>, k: bytes): bytes {
    PutU32(|xs|, PutAll(f, xs, k))
  }

  function ReadList<T>(f: Format<T>, keepBom: bool, s: bytes): Parsed<seq<T>> {
    var (n, s1) :- ReadU32(s);
    ReadAll(f, keepBom, n, s1)
  }

  function ListFormat<T>(f: Format<T>): Format<seq<T>> {
    Format(
      xs => |xs| < U32_LIMIT && AllOk(f, xs),
      xs => AllClean(f, xs),
      (xs, k) => PutList(f, xs, k),
      (keepBom, s) => ReadList(f, keepBom, s))
  }

  lemma ListLawful<T(!new)>(f: Format<T>, least: nat)
    requires Lawful(f, least)
    ensures Lawful(ListFormat(f), 4)
  {
    hide PutU32, ReadU32, PutAll, ReadAll;
    var g := ListFormat(f);
    forall xs, k ensures RoundTripsAt(g, xs, k) && AdditiveAt(g, xs, k) {
      PutAllAdditive(f, xs, k);
      U32Size(|xs|, PutAll(f, xs, k), []);
      U32Size(|xs|, PutAll(f, xs, []), []);
      if g.ok(xs) {
        U32RoundTrip(|xs|, PutAll(f, xs, k));
        ReadAllInvertsPutAll(f, xs, k);
      }
    }
    forall s ensures ExactAt(g, s) && AgreesAt(g, s) {
      U32Size(0, [], s);
      if ReadList(f, true, s).Parsed? {
        U32Exact(s);
        PutAllInvertsReadAll(f, ReadU32(s).value, s[4..]);
        ReadAllSound(f, least, true, ReadU32(s).value, s[4..]);
        ReadAllAgrees(f, ReadU32(s).value, s[4..]);
      }
    }
    forall keepBom, s ensures SoundAt(g, 4, keepBom, s) {
      U32Size(0, [], s);
      var r := ReadList(f, keepBom, s);
      if r.Parsed? {
        U32Exact(s);
        ReadAllSound(f, least, keepBom, ReadU32(s).value, s[4..]);
        U32Size(|r.value|, PutAll(f, r.value, r.rest), []);
      }
    }
  }

  /** Exactly `n` items, the count being known. */
  function ExactlyFormat<T>(f: Format<T>, n: nat): Format<seq<T>> {
    Format(
      xs => |xs| == n && AllOk(f, xs),
      xs => AllClean(f, xs),
      (xs, k) => PutAll(f, xs, k),
      (keepBom, s) => ReadAll(f, keepBom, n, s))
  }

  lemma ExactlyLawful<T(!new)>(f: Format<T>, least: nat, n: nat)
    requires Lawful(f, least)
    ensures Lawful(ExactlyFormat(f, n), n * least)
  {
    hide PutAll, ReadAll;
    var g, total := ExactlyFormat(f, n), n * least;
    forall xs, k ensures RoundTripsAt(g, xs, k) && AdditiveAt(g, xs, k) {
      PutAllAdditive(f, xs, k);
      if g.ok(xs) { ReadAllInvertsPutAll(f, xs, k); }
    }
    forall s ensures ExactAt(g, s) && AgreesAt(g, s) {
      if ReadAll(f, true, n, s).Parsed? {
        PutAllInvertsReadAll(f, n, s);
        ReadAllAgrees(f, n, s);
      }
    }
    forall keepBom, s ensures SoundAt(g, total, keepBom, s) {
      if ReadAll(f, keepBom, n, s).Parsed? { ReadAllSound(f, least, keepBom, n, s); }
    }
  }

  // ----- Records: fields in a row, and checked views of them -------------------------

  function PutPair<A, B>(f: Format<A>, g: Format<B>, x: (A, B), k: bytes): bytes {
    f.put(x.0, g.put(x.1, k))
  }

  function ReadPair<A, B>(f: Format<A>, g: Format<B>, keepBom: bool, s: bytes): Parsed<(A, B)> {
    var (a, s1) :- f.read(keepBom, s);
    var (b, k) :- g.read(keepBom, s1);
    Parsed((a, b), k)
  }

  function PairFormat<A, B>(f: Format<A>, g: Format<B>): Format<(A, B)> {
    Format(
      (x: (A, B)) => f.ok(x.0) && g.ok(x.1),
      (x: (A, B)) => f.clean(x.0) && g.clean(x.1),
      (x, k) => PutPair(f, g, x, k),
      (keepBom, s) => ReadPair(f, g, keepBom, s))
  }

  lemma PairLawful<A(!new), B(!new)>(f: Format<A>, m: nat, g: Format<B>, n: nat)
    requires Lawful(f, m) && Lawful(g, n)
    ensures Lawful(PairFormat(f, g), m + n)
  {
    var h, least := PairFormat(f, g), m + n;
    forall x: (A, B), k ensures RoundTripsAt(h, x, k) && AdditiveAt(h, x, k) {
      assert RoundTripsAt(f, x.0, g.put(x.1, k)) && RoundTripsAt(g, x.1, k);
      assert AdditiveAt(f, x.0, g.put(x.1, k)) && AdditiveAt(f, x.0, g.put(x.1, [])) && AdditiveAt(g, x.1, k);
    }
    forall s ensures ExactAt(h, s) && AgreesAt(h, s) {
      var a := f.read(true, s);
      assert ExactAt(f, s) && AgreesAt(f, s);
      if a.Parsed? { assert ExactAt(g, a.rest) && AgreesAt(g, a.rest); }
    }
    forall keepBom, s ensures SoundAt(h, least, keepBom, s) {
      var a := f.read(keepBom, s);
      assert SoundAt(f, m, keepBom, s);
      if a.Parsed? {
        var b := g.read(keepBom, a.rest);
        assert SoundAt(g, n, keepBom, a.rest);
        if b.Parsed? {
          assert AdditiveAt(f, a.value, g.put(b.value, b.rest)) && AdditiveAt(f, a.value, a.rest);
        }
      }
    }
  }

  function ReadVia<A, B>(f: Format<A>, to: A -> Result<B>, keepBom: bool, s: bytes): Parsed<B> {
    var (a, k) :- f.read(keepBom, s);
    match to(a)
    case Ok(b) => Parsed(b, k)
    case Err(c) => Failed(c)
  }

  /** The values of `f`, seen as another type; `to` checks what was read, `from` lays out. */
  function ViaFormat<A, B(==)>(f: Format<A>, to: A -> Result<B>, from: B -> A): Format<B> {
    Format(
      b => f.ok(from(b)) && to(from(b)) == Ok(b),
      b => f.clean(from(b)),
      (b, k) => f.put(from(b), k),
      (keepBom, s) => ReadVia(f, to, keepBom, s))
  }

  lemma ViaOk<A, B>(f: Format<A>, to: A -> Result<B>, from: B -> A, b: B)
    ensures ViaFormat(f, to, from).ok(b) <==> f.ok(from(b)) && to(from(b)) == Ok(b)
    ensures ViaFormat(f, to, from).clean(b) <==> f.clean(from(b))
  {
  }

  lemma ViaPut<A, B>(f: Format<A>, to: A -> Result<B>, from: B -> A, b: B, k: bytes)
    ensures ViaFormat(f, to, from).put(b, k) == f.put(from(b), k)
  {
  }

  lemma ViaLawful<A(!new), B(!new)>(f: Format<A>, least: nat, to: A -> Result<B>, from: B -> A)
    requires Lawful(f, least)
    requires forall a :: to(a).Ok? ==> from(to(a).value) == a
    ensures Lawful(ViaFormat(f, to, from), least)
  {
    var g := ViaFormat(f, to, from);
    forall b, k ensures RoundTripsAt(g, b, k) && AdditiveAt(g, b, k) {
      assert RoundTripsAt(f, from(b), k) && AdditiveAt(f, from(b), k);
    }
    forall s ensures ExactAt(g, s) && AgreesAt(g, s) {
      assert ExactAt(f, s) && AgreesAt(f, s) && SoundAt(f, least, true, s);
    }
    forall keepBom, s ensures SoundAt(g, least, keepBom, s) {
      assert SoundAt(f, least, keepBom, s);
    }
  }

  function Id<T>(x: T): T { x }

  /** Text that must not be empty. */
  function CheckNonEmpty(t: string): Result<string> { if t == [] then Err(InvalidRequest) else Ok(t) }

  function NonEmptyStrFormat(): Format<string> { ViaFormat(StrFormat(), CheckNonEmpty, Id) }

  lemma NonEmptyStrLawful()
    ensures Lawful(NonEmptyStrFormat(), 4)
  {
    StrLawful();
    ViaLawful(StrFormat(), 4, CheckNonEmpty, Id);
  }

  // ----- Formats that depend on what came before ------------------------------------

  function PutDep<A, B>(f: Format<A>, g: A -> Format<B>, x: (A, B), k: bytes): bytes {
    f.put(x.0, g(x.0).put(x.1, k))
  }

  function ReadDep<A, B>(f: Format<A>, g: A -> Format<B>, keepBom: bool, s: bytes): Parsed<(A, B)> {
    var (a, s1) :- f.read(keepBom, s);
    var (b, k) :- g(a).read(keepBom, s1);
    Parsed((a, b), k)
  }

  function DepFormat<A, B>(f: Format<A>, g: A -> Format<B>): Format<(A, B)> {
    Format(
      (x: (A, B)) => f.ok(x.0) && g(x.0).ok(x.1),
      (x: (A, B)) => f.clean(x.0) && g(x.0).clean(x.1),
      (x, k) => PutDep(f, g, x, k),
      (keepBom, s) => ReadDep(f, g, keepBom, s))
  }

  /** What `g` makes of the value `f` reads does not depend on the byte order mark. */
  ghost predicate Steady<A(!new), B>(f: Format<A>, g: A -> Format<B>) {
    forall s :: SteadyAt(f, g, s)
  }

  ghost predicate SteadyAt<A, B>(f: Format<A>, g: A -> Format<B>, s: bytes) {
    var r, d := f.read(true, s), f.read(false, s);
    r.Parsed? && d.Parsed? ==> g(r.value) == g(d.value)
  }

  lemma DepLawful<A(!new), B(!new)>(f: Format<A>, m: nat, g: A -> Format<B>, n: nat)
    requires Lawful(f, m) && Steady(f, g)
    requires forall a :: Lawful(g(a), n)
    ensures Lawful(DepFormat(f, g), m + n)
  {
    var h, least := DepFormat(f, g), m + n;
    forall x: (A, B), k ensures RoundTripsAt(h, x, k) && AdditiveAt(h, x, k) {
      var e := g(x.0);
      assert Lawful(e, n);
      assert RoundTripsAt(f, x.0, e.put(x.1, k)) && RoundTripsAt(e, x.1, k);
      assert AdditiveAt(f, x.0, e.put(x.1, k)) && AdditiveAt(f, x.0, e.put(x.1, [])) && AdditiveAt(e, x.1, k);
    }
    forall s ensures ExactAt(h, s) && AgreesAt(h, s) {
      var a := f.read(true, s);
      assert ExactAt(f, s) && AgreesAt(f, s) && SteadyAt(f, g, s);
      if a.Parsed? {
        var e := g(a.value);
        assert Lawful(e, n);
        assert ExactAt(e, a.rest) && AgreesAt(e, a.rest);
      }
    }
    forall keepBom, s ensures SoundAt(h, least, keepBom, s) {
      var a := f.read(keepBom, s);
      assert SoundAt(f, m, keepBom, s);
      if a.Parsed? {
        var e := g(a.value);
        assert Lawful(e, n);
        var b := e.read(keepBom, a.rest);
        assert SoundAt(e, n, keepBom, a.rest);
        if b.Parsed? {
          assert AdditiveAt(f, a.value, e.put(b.value, b.rest)) && AdditiveAt(f, a.value, a.rest);
        }
      }
    }
  }

  // ----- A value alone in its bytes ---------------------------------------------------

  /** A parse that must have used everything. */
  function Whole<T>(p: Parsed<T>): Result<T> {
    match p
    case Parsed(x, rest) => if rest == [] then Ok(x) else Err(InvalidRequest)
    case Failed(c) => Err(c)
  }

  /** Reads one value and insists that it used all of `b`. */
  function ReadWhole<T>(f: Format<T>, keepBom: bool, b: bytes): Result<T> { Whole(f.read(keepBom, b)) }

  /** Decoding what was encoded returns it exactly when no text in it starts with the mark. */
  lemma WholeRoundTrip<T(!new)>(f: Format<T>, least: nat, x: T)
    requires Lawful(f, least) && f.ok(x)
    ensures ReadWhole(f, true, f.put(x, [])) == Ok(x)
    ensures ReadWhole(f, false, f.put(x, [])) == Ok(x) <==> f.clean(x)
  {
    assert RoundTripsAt(f, x, []) && AgreesAt(f, f.put(x, []));
  }

  /** No text in `b`, as it stands on the wire, starts with a byte order mark. */
  predicate BomFree<T>(f: Format<T>, b: bytes) {
    ReadWhole(f, true, b).Ok? && f.clean(ReadWhole(f, true, b).value)
  }

  /** Encoding what was decoded gives the same bytes exactly when they are free of the mark. */
  lemma WholeCanonical<T(!new)>(f: Format<T>, least: nat, b: bytes)
    requires Lawful(f, least) && ReadWhole(f, false, b).Ok?
    ensures var x := ReadWhole(f, false, b).value;
            f.ok(x) && |f.put(x, [])| <= |b| && (f.put(x, []) == b <==> BomFree(f, b))
  {
    var x := ReadWhole(f, false, b).value;
    assert SoundAt(f, least, false, b) && ExactAt(f, b) && AgreesAt(f, b);
    if f.put(x, []) == b {
      WholeRoundTrip(f, least, x);
    }
  }

  function ReadDelimited<T>(f: Format<T>, keepBom: bool, s: bytes): Parsed<T> {
    var (b, k) :- ReadBytes(s);
    match ReadWhole(f, keepBom, b)
    case Ok(x) => Parsed(x, k)
    case Err(c) => Failed(c)
  }

  /** A value behind its byte length. */
  function DelimitedFormat<T>(f: Format<T>): Format<T> {
    Format(
      x => f.ok(x) && IsBytes(f.put(x, [])),
      f.clean,
      (x, k) => PutBytes(f.put(x, []), k),
      (keepBom, s) => ReadDelimited(f, keepBom, s))
  }

  lemma DelimitedLawful<T(!new)>(f: Format<T>, least: nat)
    requires Lawful(f, least)
    ensures Lawful(DelimitedFormat(f), 4)
  {
    var g := DelimitedFormat(f);
    forall x, k ensures RoundTripsAt(g, x, k) && AdditiveAt(g, x, k) {
      BytesLaws(f.put(x, []), k, []);
      assert RoundTripsAt(f, x, []);
    }
    forall s ensures ExactAt(g, s) && AgreesAt(g, s) && SoundAt(g, 4, true, s) && SoundAt(g, 4, false, s) {
      BytesLaws([], [], s);
      if ReadBytes(s).Parsed? {
        var b := ReadBytes(s).value;
        assert ExactAt(f, b) && AgreesAt(f, b) && SoundAt(f, least, true, b) && SoundAt(f, least, false, b);
      }
    }
  }

  // ----- Sorted maps ---------------------------------------------------------------

  function Keys<V>(es: seq<(string, V)>): seq<string> { seq(|es|, i requires 0 <= i < |es| => es[i].0) }

  /** The entries of a map in ascending key order, as the writers emit them. */
  function Entries<V>(m: map<string, V>): (es: seq<(string, V)>)
    ensures |es| == |m|
    ensures forall i :: 0 <= i < |es| ==>
              es[i].0 == CodeUnits.Sorted(m.Keys)[i] && es[i].0 in m && es[i].1 == m[es[i].0]
  {
    var ks := CodeUnits.Sorted(m.Keys);
    seq(|ks|, i requires 0 <= i < |ks| => assert ks[i] in ks; (ks[i], m[ks[i]]))
  }

  /** `Object.fromEntries`: a later entry wins. */
  function FromEntries<V>(es: seq<(string, V)>): map<string, V> {
    if es == [] then map[] else map[es[0].0 := es[0].1] + FromEntries(es[1..])
  }

  predicate AscendingKeys<V>(es: seq<(string, V)>) {
    forall i, j :: 0 <= i < j < |es| ==> CodeUnits.Less(es[i].0, es[j].0)
  }

  lemma {:induction false} FromEntriesKeys<V>(es: seq<(string, V)>)
    ensures forall x :: x in FromEntries(es) <==> x in Keys(es)
  {
    if es != [] {
      FromEntriesKeys(es[1..]);
      assert Keys(es) == [es[0].0] + Keys(es[1..]);
    }
  }

  lemma {:induction false} FromEntriesAt<V>(es: seq<(string, V)>, i: nat)
    requires AscendingKeys(es) && i < |es|
    ensures es[i].0 in FromEntries(es) && FromEntries(es)[es[i].0] == es[i].1
  {
    if i == 0 {
      FromEntriesKeys(es[1..]);
      if es[0].0 in Keys(es[1..]) {
        var j :| 0 <= j < |es| - 1 && Keys(es[1..])[j] == es[0].0;
        CodeUnits.LessTotal(es[0].0, es[j + 1].0);
      }
    } else {
      FromEntriesAt(es[1..], i - 1);
    }
  }

  lemma KeysAscend<V>(es: seq<(string, V)>)
    requires AscendingKeys(es)
    ensures CodeUnits.Ascending(Keys(es))
  {
    var ks := Keys(es);
    forall i, j | 0 <= i < j < |ks|
      ensures CodeUnits.Less(ks[i], ks[j])
    {
      assert ks[i] == es[i].0 && ks[j] == es[j].0;
    }
  }

  /** Ascending entries are the entries of the map they make. */
  lemma EntriesOfFromEntries<V>(es: seq<(string, V)>)
    requires AscendingKeys(es)
    ensures Entries(FromEntries(es)) == es
  {
    var m := FromEntries(es);
    FromEntriesKeys(es);
    KeysAscend(es);
    CodeUnits.SortedUnique(Keys(es), m.Keys);
    var r := Entries(m);
    assert |r| == |es|;
    forall i | 0 <= i < |es|
      ensures r[i] == es[i]
    {
      FromEntriesAt(es, i);
      assert r[i].0 == Keys(es)[i] == es[i].0;
    }
  }

  lemma EntriesAscend<V>(m: map<string, V>)
    ensures AscendingKeys(Entries(m))
  {
    var es, ks := Entries(m), CodeUnits.Sorted(m.Keys);
    CodeUnits.SortedAscends(m.Keys);
    forall i, j | 0 <= i < j < |es|
      ensures CodeUnits.Less(es[i].0, es[j].0)
    {
      assert CodeUnits.Less(ks[i], ks[j]);
    }
  }

  lemma EntriesHaveKeys<V>(m: map<string, V>, x: string) returns (i: nat)
    requires x in m
    ensures i < |Entries(m)| && Entries(m)[i].0 == x
  {
    var ks := CodeUnits.Sorted(m.Keys);
    assert x in ks;
    i :| i < |ks| && ks[i] == x;
  }

  lemma EntriesLookup<V>(m: map<string, V>, x: string)
    ensures x in m <==> x in FromEntries(Entries(m))
    ensures x in m ==> FromEntries(Entries(m))[x] == m[x]
  {
    var es := Entries(m);
    FromEntriesKeys(es);
    if x in m {
      var i := EntriesHaveKeys(m, x);
      EntriesAscend(m);
      FromEntriesAt(es, i);
    }
  }

  /** Every map is rebuilt from its entries. */
  lemma FromEntriesOfEntries<V>(m: map<string, V>)
    ensures AscendingKeys(Entries(m)) && FromEntries(Entries(m)) == m
  {
    EntriesAscend(m);
    var n := FromEntries(Entries(m));
    forall x
      ensures x in m <==> x in n
      ensures x in m ==> n[x] == m[x]
    {
      EntriesLookup(m, x);
    }
    assert m == n;
  }

  function CheckAscending<V>(es: seq<(string, V)>): Result<map<string, V>> {
    if AscendingKeys(es) then Ok(FromEntries(es)) else Err(InvalidRequest)
  }

  function MapFormat<V(==)>(g: Format<V>): Format<map<string, V>> {
    ViaFormat(ListFormat(PairFormat(StrFormat(), g)), CheckAscending, Entries)
  }

  lemma MapLawful<V(!new)>(g: Format<V>, least: nat)
    requires Lawful(g, least)
    ensures Lawful(MapFormat(g), 4)
  {
    StrLawful();
    PairLawful(StrFormat(), 4, g, least);
    ListLawful(PairFormat(StrFormat(), g), 4 + least);
    forall es: seq<(string, V)> | CheckAscending(es).Ok? ensures Entries(CheckAscending(es).value) == es {
      EntriesOfFromEntries(es);
    }
    ViaLawful(ListFormat(PairFormat(StrFormat(), g)), 4, CheckAscending, Entries);
  }

  /** The values of a map format, key by key. */
  lemma MapOkIff<V(!new)>(g: Format<V>, m: map<string, V>)
    ensures MapFormat(g).ok(m) <==> |m| < U32_LIMIT && forall key :: key in m ==> IsStr(key) && g.ok(m[key])
    ensures MapFormat(g).clean(m) <==> forall key :: key in m ==> Utf8.Clean(key) && g.clean(m[key])
  {
    hide IsStr, Utf8.Clean, FromEntries, AscendingKeys, Entries;
    var f, es := PairFormat(StrFormat(), g), Entries(m);
    FromEntriesOfEntries(m);
    ViaOk(ListFormat(f), CheckAscending<V>, Entries<V>, m);
    forall i | 0 <= i < |es|
      ensures f.ok(es[i]) <==> IsStr(es[i].0) && g.ok(m[es[i].0])
      ensures f.clean(es[i]) <==> Utf8.Clean(es[i].0) && g.clean(m[es[i].0])
    {
    }
    forall key | key in m
      ensures exists i :: 0 <= i < |es| && es[i].0 == key
    {
      var i := EntriesHaveKeys(m, key);
    }
  }
}
