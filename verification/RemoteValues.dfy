/** `encodeValue` and `decodeValue` of packages/core/src/remote-operations.ts. */
module RemoteValues {
  import opened Results
  import Base64

  // ----- Values and their tagged form -------------------------------------------------------------------

  /** A JavaScript value; the properties of a plain object are in enumeration order. */
  datatype Value =
    | Null
    | Boolean(b: bool)
    | Number(bits: int)
    | Text(s: string)
    | BigInt(n: int)
    | Bytes(data: bytes)
    | List(items: seq<Value>)
    | Plain(properties: seq<(string, Value)>)
    | Unsupported

  /**
   * What arrives as a tagged value: a tag with its content, perhaps with members the decoder does not
   * look at (`Padded`), or anything else (`Malformed`).
   */
  datatype Encoded =
    | ENull
    | EBoolean(b: bool)
    | ENumber(bits: int)
    | EText(s: string)
    | EInteger(digits: string)
    | EBytes(base64: string)
    | EList(items: seq<Encoded>)
    | EPlain(entries: seq<(string, Encoded)>)
    | Padded(inner: Encoded)
    | Malformed

  /** The exponent of a double is not all ones. */
  predicate IsFinite(bits: int) { bits / 0x10_0000_0000_0000 % 2048 != 2047 }

  const MIN_I64 := -9223372036854775808
  const MAX_I64 := 9223372036854775807

  // ----- Integers as text -----------------------------------------------------------------------------------

  function Digits(n: nat): (t: string)
    ensures t != []
  {
    if n < 10 then [('0' as int + n) as char] else Digits(n / 10) + [('0' as int + n % 10) as char]
  }

  /** `value.toString()`. */
  function Decimal(n: int): string { if n < 0 then ['-'] + Digits(-n) else Digits(n) }

  predicate IsDigit(c: char) { '0' <= c <= '9' }

  predicate AllDigits(t: string) { forall i :: 0 <= i < |t| ==> IsDigit(t[i]) }

  /** `0|[1-9][0-9]*`. */
  predicate IsNatural(t: string) { t == ['0'] || (t != [] && t[0] != '0' && AllDigits(t)) }

  /** `^-?(?:0|[1-9][0-9]*)$`. */
  predicate IsDecimal(t: string) { IsNatural(t) || (t != [] && t[0] == '-' && IsNatural(t[1..])) }

  function Natural(t: string): nat
    requires AllDigits(t)
  {
    if t == [] then 0 else Natural(t[..|t| - 1]) * 10 + (t[|t| - 1] as int - '0' as int)
  }

  /** `BigInt(text)` on text of that form. */
  function Parse(t: string): int
    requires IsDecimal(t)
  {
    if IsNatural(t) then Natural(t) else 0 - (Natural(t[1..]) as int)
  }

  lemma {:induction false} DigitsParse(n: nat)
    ensures AllDigits(Digits(n)) && Natural(Digits(n)) == n && IsNatural(Digits(n))
    ensures n > 0 ==> Digits(n)[0] != '0'
  {
    var t := Digits(n);
    if n < 10 {
      assert t[..0] == [];
    } else {
      DigitsParse(n / 10);
      assert t[..|t| - 1] == Digits(n / 10);
      assert t[0] == Digits(n / 10)[0];
    }
  }

  lemma {:induction false} ParseDigits(t: string)
    requires IsNatural(t)
    ensures AllDigits(t) && Digits(Natural(t)) == t
    ensures t != ['0'] ==> Natural(t) > 0
  {
    var c := t[|t| - 1];
    var front := t[..|t| - 1];
    assert IsDigit(c) && t == front + [c];
    if front == [] {
      assert Natural(front) == 0;
    } else {
      FrontIsNatural(t);
      ParseDigits(front);
      LastDigit(Natural(front), c);
    }
  }

  lemma FrontIsNatural(t: string)
    requires IsNatural(t) && |t| > 1
    ensures IsNatural(t[..|t| - 1]) && t[..|t| - 1] != ['0']
  {
    var front := t[..|t| - 1];
    assert front[0] == t[0];
  }

  lemma LastDigit(m: nat, c: char)
    requires m > 0 && IsDigit(c)
    ensures Digits(m * 10 + (c as int - '0' as int)) == Digits(m) + [c]
  {
    var n := m * 10 + (c as int - '0' as int);
    assert n / 10 == m && n % 10 == c as int - '0' as int;
  }

  lemma DecimalParse(n: int)
    ensures IsDecimal(Decimal(n)) && Parse(Decimal(n)) == n
  {
    hide Digits, Natural, IsNatural;
    if n < 0 {
      DigitsParse(-n);
      assert Decimal(n)[1..] == Digits(-n);
      MinusIsNoDigit(Decimal(n));
    } else {
      DigitsParse(n);
    }
  }

  lemma MinusIsNoDigit(t: string)
    ensures t != [] && t[0] == '-' ==> !IsNatural(t)
  {
    if t != [] && t[0] == '-' { assert !IsDigit(t[0]); }
  }

  /** Text that denotes an integer is what that integer prints as, except minus zero. */
  lemma ParseDecimal(t: string)
    requires IsDecimal(t)
    ensures Decimal(Parse(t)) == t <==> t != ['-', '0']
  {
    hide Digits, Natural, IsNatural;
    MinusIsNoDigit(t);
    if IsNatural(t) {
      ParseDigits(t);
    } else {
      ParseDigits(t[1..]);
      assert t == ['-'] + t[1..];
      ZeroDigits();
    }
  }

  lemma ZeroDigits()
    ensures Digits(0) == ['0'] && Natural(['0']) == 0
  {
    assert ['0'][..0] == [];
  }

  // ----- Encoding ---------------------------------------------------------------------------------------------

  /** `encodeValue`, or nothing where it throws. */
  function EncodeValue(v: Value): Option<Encoded> {
    match v
    case Null => Some(ENull)
    case Boolean(b) => Some(EBoolean(b))
    case Number(bits) => if IsFinite(bits) then Some(ENumber(bits)) else None
    case Text(s) => Some(EText(s))
    case BigInt(n) => if MIN_I64 <= n <= MAX_I64 then Some(EInteger(Decimal(n))) else None
    case Bytes(data) => Some(EBytes(Base64.Encode(data)))
    case List(items) =>
      if forall i :: 0 <= i < |items| ==> EncodeValue(items[i]).Some?
      then Some(EList(seq(|items|, i requires 0 <= i < |items| && EncodeValue(items[i]).Some? => EncodeValue(items[i]).value)))
      else None
    case Plain(ps) =>
      if forall i :: 0 <= i < |ps| ==> EncodeValue(ps[i].1).Some?
      then Some(EPlain(seq(|ps|, i requires 0 <= i < |ps| && EncodeValue(ps[i].1).Some? => (ps[i].0, EncodeValue(ps[i].1).value))))
      else None
    case Unsupported => None
  }

  // ----- The order of properties ----------------------------------------------------------------------------

  const NO_INDEX := 4294967295

  /** The array index a property name denotes; `NO_INDEX` for every other name. */
  function Index(key: string): nat {
    if IsNatural(key) && Natural(key) < NO_INDEX then Natural(key) else NO_INDEX
  }

  /** Array indexes first and ascending, then the other names, as objects list their properties. */
  predicate Enumerates<T>(es: seq<(string, T)>) { forall i, j :: 0 <= i < j < |es| ==> Index(es[i].0) <= Index(es[j].0) }

  /** Puts an entry in front of the later ones it does not have to follow. */
  function Insert<T>(e: (string, T), es: seq<(string, T)>): seq<(string, T)> {
    if es == [] || Index(e.0) <= Index(es[0].0) then [e] + es else [es[0]] + Insert(e, es[1..])
  }

  /** The properties of `Object.fromEntries(es)` as they are listed: others keep the order they came in. */
  function Reorder<T>(es: seq<(string, T)>): seq<(string, T)> {
    if es == [] then [] else Insert(es[0], Reorder(es[1..]))
  }

  lemma {:induction false} InsertSize<T>(e: (string, T), es: seq<(string, T)>)
    ensures |Insert(e, es)| == |es| + 1
  {
    if es != [] && Index(e.0) > Index(es[0].0) { InsertSize(e, es[1..]); }
  }

  /** Where an entry comes from: it is the new one, or it stood in the list. */
  lemma {:induction false} InsertOrigin<T>(e: (string, T), es: seq<(string, T)>, i: nat) returns (j: nat)
    requires i < |Insert(e, es)|
    ensures Insert(e, es)[i] == e || (j < |es| && es[j] == Insert(e, es)[i])
  {
    hide Index;
    j := 0;
    if es == [] || Index(e.0) <= Index(es[0].0) {
      if i > 0 { j := i - 1; }
    } else if i > 0 {
      var k := InsertOrigin(e, es[1..], i - 1);
      j := k + 1;
    }
  }

  lemma {:induction false} InsertEnumerates<T>(e: (string, T), es: seq<(string, T)>)
    requires Enumerates(es)
    ensures Enumerates(Insert(e, es))
  {
    hide Index;
    var r := Insert(e, es);
    if es == [] || Index(e.0) <= Index(es[0].0) {
      assert forall i :: 0 < i < |r| ==> r[i] == es[i - 1];
    } else {
      InsertEnumerates(e, es[1..]);
      var tail := Insert(e, es[1..]);
      forall i | 0 <= i < |tail| ensures Index(es[0].0) <= Index(tail[i].0) { var j := InsertOrigin(e, es[1..], i); }
      assert forall i :: 0 < i < |r| ==> r[i] == tail[i - 1];
    }
  }

  predicate Fresh<T>(key: string, es: seq<(string, T)>) { forall i :: 0 <= i < |es| ==> es[i].0 != key }

  lemma {:induction false} InsertDistinct<T>(e: (string, T), es: seq<(string, T)>)
    requires DistinctKeys(es) && Fresh(e.0, es)
    ensures DistinctKeys(Insert(e, es))
  {
    hide Index;
    var r := Insert(e, es);
    if es == [] || Index(e.0) <= Index(es[0].0) {
      assert forall i :: 0 < i < |r| ==> r[i] == es[i - 1];
    } else {
      InsertDistinct(e, es[1..]);
      var tail := Insert(e, es[1..]);
      forall i | 0 <= i < |tail| ensures tail[i].0 != es[0].0 { var j := InsertOrigin(e, es[1..], i); }
      assert forall i :: 0 < i < |r| ==> r[i] == tail[i - 1];
    }
  }

  lemma {:induction false} ReorderSize<T>(es: seq<(string, T)>)
    ensures |Reorder(es)| == |es|
  {
    hide Insert;
    if es != [] {
      ReorderSize(es[1..]);
      InsertSize(es[0], Reorder(es[1..]));
    }
  }

  lemma {:induction false} ReorderOrigin<T>(es: seq<(string, T)>, i: nat) returns (j: nat)
    requires i < |Reorder(es)|
    ensures j < |es| && es[j] == Reorder(es)[i]
  {
    hide Insert;
    var k := InsertOrigin(es[0], Reorder(es[1..]), i);
    if Reorder(es)[i] == es[0] {
      j := 0;
    } else {
      var m := ReorderOrigin(es[1..], k);
      j := m + 1;
    }
  }

  /** What comes out is in order, with the same names. */
  lemma {:induction false} ReorderEnumerates<T>(es: seq<(string, T)>)
    ensures Enumerates(Reorder(es))
    ensures DistinctKeys(es) ==> DistinctKeys(Reorder(es))
  {
    hide Index, Insert;
    if es != [] {
      var rest := es[1..];
      ReorderEnumerates(rest);
      InsertEnumerates(es[0], Reorder(rest));
      if DistinctKeys(es) {
        forall i | 0 <= i < |Reorder(rest)| ensures Reorder(rest)[i].0 != es[0].0 { var j := ReorderOrigin(rest, i); }
        InsertDistinct(es[0], Reorder(rest));
      }
    }
  }

  /** And entries that are in order stay as they are. */
  lemma {:induction false} ReorderFixed<T>(es: seq<(string, T)>)
    requires Enumerates(es)
    ensures Reorder(es) == es
  {
    hide Index;
    if es != [] {
      ReorderFixed(es[1..]);
      assert es == [es[0]] + es[1..];
      if |es| > 1 { assert es[1..][0] == es[1]; }
    }
  }

  /** The entries whose names are no array index. */
  function Others<T>(es: seq<(string, T)>): seq<(string, T)> {
    if es == [] then [] else (if Index(es[0].0) == NO_INDEX then [es[0]] else []) + Others(es[1..])
  }

  lemma {:induction false} InsertOthers<T>(e: (string, T), es: seq<(string, T)>)
    ensures Others(Insert(e, es)) == Others([e] + es)
  {
    hide IsNatural, Natural;
    assert ([e] + es)[1..] == es;
    if es != [] && Index(e.0) > Index(es[0].0) {
      InsertOthers(e, es[1..]);
      assert ([e] + es[1..])[1..] == es[1..] && ([es[0]] + Insert(e, es[1..]))[1..] == Insert(e, es[1..]);
    }
  }

  /** The other names keep the order they came in. */
  lemma {:induction false} ReorderStable<T>(es: seq<(string, T)>)
    ensures Others(Reorder(es)) == Others(es)
  {
    hide Index, Insert;
    if es != [] {
      ReorderStable(es[1..]);
      InsertOthers(es[0], Reorder(es[1..]));
      assert ([es[0]] + Reorder(es[1..]))[1..] == Reorder(es[1..]);
    }
  }

  /** Integers are those of 64 bits, and numbers those whose exponent field is not all ones. */
  lemma ScalarRanges(n: int, sign: bool, exponent: nat, fraction: nat)
    requires exponent < 2048 && fraction < 0x10_0000_0000_0000
    ensures EncodeValue(BigInt(n)).Some? <==> -0x8000_0000_0000_0000 <= n < 0x8000_0000_0000_0000
    ensures var bits := (if sign then 0x8000_0000_0000_0000 else 0) + exponent * 0x10_0000_0000_0000 + fraction;
            EncodeValue(Number(bits)).Some? <==> exponent != 2047
  {
    var high := exponent + (if sign then 2048 else 0);
    var bits := (if sign then 0x8000_0000_0000_0000 else 0) + exponent * 0x10_0000_0000_0000 + fraction;
    assert bits == 0x10_0000_0000_0000 * high + fraction;
    assert bits / 0x10_0000_0000_0000 == high;
  }

  /** A name is an array index exactly when it is what an integer below 2^32 - 1 prints as. */
  lemma IndexMeans(key: string, n: nat)
    ensures n < 4294967295 ==> (Index(key) == n <==> key == Decimal(n))
    ensures Index(key) <= 4294967295
  {
    hide Digits, Natural, IsNatural;
    DigitsParse(n);
    if IsNatural(key) { ParseDigits(key); }
  }

  lemma SameOrder<T, U>(es: seq<(string, T)>, fs: seq<(string, U)>)
    requires |es| == |fs| && forall i :: 0 <= i < |es| ==> es[i].0 == fs[i].0
    ensures Enumerates(es) <==> Enumerates(fs)
    ensures DistinctKeys(es) <==> DistinctKeys(fs)
  {
    hide Index;
  }

  predicate DistinctKeys<T>(es: seq<(string, T)>) { forall i, j :: 0 <= i < j < |es| ==> es[i].0 != es[j].0 }

  /** `decodeValue`, or nothing where it throws. */
  function Decode(e: Encoded): Option<Value> {
    match e
    case ENull => Some(Null)
    case EBoolean(b) => Some(Boolean(b))
    case ENumber(bits) => if IsFinite(bits) then Some(Number(bits)) else None
    case EText(s) => Some(Text(s))
    case EInteger(t) => if IsDecimal(t) && MIN_I64 <= Parse(t) <= MAX_I64 then Some(BigInt(Parse(t))) else None
    case EBytes(t) => (match Base64.Decode(t) case Some(b) => Some(Bytes(b)) case None => None)
    case EList(items) =>
      if forall i :: 0 <= i < |items| ==> Decode(items[i]).Some?
      then Some(List(seq(|items|, i requires 0 <= i < |items| && Decode(items[i]).Some? => Decode(items[i]).value)))
      else None
    case EPlain(es) =>
      if DistinctKeys(es) && forall i :: 0 <= i < |es| ==> Decode(es[i].1).Some?
      then Some(Plain(Reorder(seq(|es|, i requires 0 <= i < |es| && Decode(es[i].1).Some? => (es[i].0, Decode(es[i].1).value)))))
      else None
    case Padded(inner) => Decode(inner)
    case Malformed => None
  }

  /** Every plain object in the tree has distinct property names, listed in their order, as objects do. */
  predicate IsTree(v: Value) {
    match v
    case List(items) => forall i :: 0 <= i < |items| ==> IsTree(items[i])
    case Plain(ps) => DistinctKeys(ps) && Enumerates(ps) && forall i :: 0 <= i < |ps| ==> IsTree(ps[i].1)
    case _ => true
  }

  /** The decoded entries, in the order they came. */
  function DecodedEntries(es: seq<(string, Encoded)>): seq<(string, Value)>
    requires forall i :: 0 <= i < |es| ==> Decode(es[i].1).Some?
  {
    seq(|es|, i requires 0 <= i < |es| => (es[i].0, Decode(es[i].1).value))
  }

  lemma PlainDecodes(es: seq<(string, Encoded)>)
    ensures Decode(EPlain(es)).Some? <==> DistinctKeys(es) && forall i :: 0 <= i < |es| ==> Decode(es[i].1).Some?
    ensures Decode(EPlain(es)).Some? ==> Decode(EPlain(es)).value == Plain(Reorder(DecodedEntries(es)))
  {
    hide Reorder;
    if Decode(EPlain(es)).Some? {
      assert seq(|es|, i requires 0 <= i < |es| && Decode(es[i].1).Some? => (es[i].0, Decode(es[i].1).value)) == DecodedEntries(es);
    }
  }

  /** Decoding what was encoded returns it, for every tree `encodeValue` accepts. */
  lemma {:induction false} ValueRoundTrip(v: Value)
    requires IsTree(v) && EncodeValue(v).Some?
    ensures Decode(EncodeValue(v).value) == Some(v)
  {
    hide IsFinite, Decimal, IsDecimal, Parse, Base64.Encode, Base64.Decode, Index;
    match v
    case Null =>
    case Boolean(b) =>
    case Number(bits) =>
    case Text(s) =>
    case BigInt(n) => DecimalParse(n);
    case Bytes(data) => Base64.DecodeExact(Base64.Encode(data), data);
    case List(items) =>
      var es := EncodeValue(v).value.items;
      forall i | 0 <= i < |items| ensures Decode(es[i]) == Some(items[i]) { ValueRoundTrip(items[i]); }
      assert Decode(EList(es)).value.items == items;
    case Plain(ps) =>
      var es := EncodeValue(v).value.entries;
      forall i | 0 <= i < |ps| ensures Decode(es[i].1) == Some(ps[i].1) && es[i].0 == ps[i].0 { ValueRoundTrip(ps[i].1); }
      PlainReturns(ps, es);
  }

  lemma PlainReturns(ps: seq<(string, Value)>, es: seq<(string, Encoded)>)
    requires |es| == |ps| && forall i :: 0 <= i < |ps| ==> Decode(es[i].1) == Some(ps[i].1) && es[i].0 == ps[i].0
    requires DistinctKeys(ps) && Enumerates(ps)
    ensures Decode(EPlain(es)) == Some(Plain(ps))
  {
    hide Index, Decode, Reorder, Enumerates, DistinctKeys;
    SameOrder(es, ps);
    PlainDecodes(es);
    assert DecodedEntries(es) == ps;
    ReorderFixed(ps);
  }

  /** No integer in the tree is written as minus zero. */
  predicate NoMinusZero(e: Encoded) {
    match e
    case EInteger(t) => t != ['-', '0']
    case EList(items) => forall i :: 0 <= i < |items| ==> NoMinusZero(items[i])
    case EPlain(es) => forall i :: 0 <= i < |es| ==> NoMinusZero(es[i].1)
    case Padded(inner) => NoMinusZero(inner)
    case _ => true
  }

  /** The entries of every object in the tree are in the order an object lists its properties. */
  predicate InEnumerationOrder(e: Encoded) {
    match e
    case EList(items) => forall i :: 0 <= i < |items| ==> InEnumerationOrder(items[i])
    case EPlain(es) => Enumerates(es) && forall i :: 0 <= i < |es| ==> InEnumerationOrder(es[i].1)
    case Padded(inner) => InEnumerationOrder(inner)
    case _ => true
  }

  /** No tagged value in the tree has members besides its tag and its content. */
  predicate NoExtras(e: Encoded) {
    match e
    case EList(items) => forall i :: 0 <= i < |items| ==> NoExtras(items[i])
    case EPlain(es) => forall i :: 0 <= i < |es| ==> NoExtras(es[i].1)
    case Padded(_) => false
    case _ => true
  }

  predicate IsCanonical(e: Encoded) { NoExtras(e) && NoMinusZero(e) && InEnumerationOrder(e) }

  /**
   * What is decoded can be encoded again, and gives the tagged form it came from exactly when nothing
   * in it is padded, no integer is written as minus zero and every object lists its entries in order.
   */
  lemma {:induction false} DecodedValueEncodes(e: Encoded)
    requires Decode(e).Some?
    ensures IsTree(Decode(e).value) && EncodeValue(Decode(e).value).Some?
    ensures EncodeValue(Decode(e).value).value == e <==> NoExtras(e) && NoMinusZero(e) && InEnumerationOrder(e)
  {
    hide IsFinite, Decimal, IsDecimal, Parse, Base64.Encode, Base64.Decode;
    match e
    case ENull =>
    case EBoolean(b) =>
    case ENumber(bits) =>
    case EText(s) =>
    case EInteger(t) => ParseDecimal(t);
    case EBytes(t) => Base64.DecodeExact(t, Base64.Decode(t).value);
    case EList(items) => ListEncodes(items);
    case EPlain(es) => PlainEncodes(es);
    case Padded(inner) => DecodedValueEncodes(inner);
  }

  lemma {:induction false} ListEncodes(items: seq<Encoded>)
    requires Decode(EList(items)).Some?
    ensures var v := Decode(EList(items)).value;
            IsTree(v) && EncodeValue(v).Some? && (EncodeValue(v).value == EList(items) <==> IsCanonical(EList(items)))
    decreases EList(items), 0
  {
    hide Index;
    var v := Decode(EList(items)).value;
    forall i | 0 <= i < |items|
      ensures IsTree(v.items[i]) && EncodeValue(v.items[i]).Some?
      ensures EncodeValue(v.items[i]).value == items[i] <==> IsCanonical(items[i])
    {
      DecodedValueEncodes(items[i]);
    }
    var r := EncodeValue(v).value;
    if r == EList(items) {
      forall i | 0 <= i < |items| ensures IsCanonical(items[i]) { assert r.items[i] == items[i]; }
    }
    if IsCanonical(EList(items)) {
      forall i | 0 <= i < |items| ensures r.items[i] == items[i] { assert IsCanonical(items[i]); }
      assert r.items == items;
    }
  }

  lemma {:induction false} PlainEncodes(es: seq<(string, Encoded)>)
    requires Decode(EPlain(es)).Some?
    ensures var v := Decode(EPlain(es)).value;
            IsTree(v) && EncodeValue(v).Some? && (EncodeValue(v).value == EPlain(es) <==> IsCanonical(EPlain(es)))
    decreases EPlain(es), 0
  {
    hide Index, Reorder, Enumerates;
    PlainDecodes(es);
    var ds := DecodedEntries(es);
    forall i | 0 <= i < |es|
      ensures IsTree(ds[i].1) && EncodeValue(ds[i].1).Some?
      ensures EncodeValue(ds[i].1).value == es[i].1 <==> IsCanonical(es[i].1)
    {
      DecodedValueEncodes(es[i].1);
    }
    SameOrder(es, ds);
    ReorderSize(ds);
    ReorderEnumerates(ds);
    var ps := Reorder(ds);
    forall i | 0 <= i < |ps| ensures IsTree(ps[i].1) && EncodeValue(ps[i].1).Some? {
      var j := ReorderOrigin(ds, i);
    }
    var r := EncodeValue(Plain(ps)).value;
    SameOrder(ps, r.entries);
    if Enumerates(es) {
      ReorderFixed(ds);
      EntriesCanonical(es, r.entries);
    }
  }

  lemma EntriesCanonical(es: seq<(string, Encoded)>, rs: seq<(string, Encoded)>)
    requires |rs| == |es| && Enumerates(es)
    requires forall i :: 0 <= i < |es| ==> rs[i].0 == es[i].0 && (rs[i].1 == es[i].1 <==> IsCanonical(es[i].1))
    ensures rs == es <==> IsCanonical(EPlain(es))
  {
    hide Index, Enumerates;
    if rs == es {
      forall i | 0 <= i < |es| ensures IsCanonical(es[i].1) { assert rs[i] == es[i]; }
    }
    if IsCanonical(EPlain(es)) {
      forall i | 0 <= i < |es| ensures rs[i] == es[i] { assert IsCanonical(es[i].1); }
    }
  }

  /** Entries out of property order: the name 1 is an array index and is listed before the name b. */
  lemma IndexAfterName()
    ensures var e := EPlain([("b", ENull), ("1", ENull)]);
            && Decode(e) == Some(Plain([("1", Null), ("b", Null)]))
            && EncodeValue(Plain([("1", Null), ("b", Null)])) == Some(EPlain([("1", ENull), ("b", ENull)]))
            && EncodeValue(Decode(e).value).value != e && NoExtras(e) && NoMinusZero(e)
  {
    var es := [("b", ENull), ("1", ENull)];
    var ds := [("b", Null), ("1", Null)];
    NameIndexes();
    PlainDecodes(es);
    assert DecodedEntries(es) == ds;
    assert ds[1..] == [("1", Null)] && ds[1..][1..] == [];
    var last := [("1", Null)];
    assert Reorder(last[1..]) == [] && Reorder(last) == last;
    assert last[1..] == [];
    assert Insert(("b", Null), last) == [("1", Null)] + Insert(("b", Null), []);
    var ps := [("1", Null), ("b", Null)];
    assert Reorder(ds) == ps;
    var fs := [("1", ENull), ("b", ENull)];
    assert EncodeValue(Plain(ps)).value.entries == fs;
    assert fs[0].0 != es[0].0;
  }

  lemma NameIndexes()
    ensures Index("1") == 1 && Index("b") == NO_INDEX && "1" != "b"
  {
    assert "1"[..0] == [];
    assert Natural("1") == Natural("1"[..0]) * 10 + 1;
    assert !IsDigit("b"[0]);
  }

  /** The text that is accepted and not canonical. */
  lemma MinusZero()
    ensures Decode(EInteger(['-', '0'])) == Some(BigInt(0)) && EncodeValue(BigInt(0)) == Some(EInteger(['0']))
  {
    ZeroDigits();
    assert ['-', '0'][1..] == ['0'];
    MinusIsNoDigit(['-', '0']);
  }

  // ----- The decoder as it runs -----------------------------------------------------------------------------

  method DecodeItems(e: Encoded) returns (r: Option<seq<Value>>)
    requires e.EList?
    ensures r == match Decode(e) case Some(v) => Some(v.items) case None => None
    decreases e, 0
  {
    var values: seq<Value> := [];
    for i := 0 to |e.items|
      invariant |values| == i
      invariant forall j :: 0 <= j < i ==> Decode(e.items[j]) == Some(values[j])
    {
      var x := DecodeValue(e.items[i]);
      if x.None? { return None; }
      values := values + [x.value];
    }
    assert values == Decode(e).value.items;
    return Some(values);
  }

  /** The loop over the entries, with its set of keys seen. */
  method DecodeEntries(e: Encoded) returns (r: Option<seq<(string, Value)>>)
    requires e.EPlain?
    ensures r == match Decode(e) case Some(v) => Some(DecodedEntries(e.entries)) case None => None
    decreases e, 0
  {
    hide Reorder;
    var entries: seq<(string, Value)> := [];
    var keys: set<string> := {};
    for i := 0 to |e.entries|
      invariant |entries| == i
      invariant forall j :: 0 <= j < i ==> Decode(e.entries[j].1) == Some(entries[j].1) && entries[j].0 == e.entries[j].0
      invariant forall x :: x in keys <==> exists j :: 0 <= j < i && e.entries[j].0 == x
      invariant forall j, k :: 0 <= j < k < i ==> e.entries[j].0 != e.entries[k].0
    {
      var key := e.entries[i].0;
      if key in keys { return None; }
      keys := keys + {key};
      var x := DecodeValue(e.entries[i].1);
      if x.None? { return None; }
      entries := entries + [(key, x.value)];
    }
    assert entries == DecodedEntries(e.entries);
    return Some(entries);
  }

  /** The switch over the tags; it computes `Decode`. */
  method DecodeValue(e: Encoded) returns (r: Option<Value>)
    ensures r == Decode(e)
    decreases e, 1
  {
    hide Reorder;
    match e
    case ENull => return Some(Null);
    case EBoolean(b) => return Some(Boolean(b));
    case ENumber(bits) =>
      if !IsFinite(bits) { return None; }
      return Some(Number(bits));
    case EText(s) => return Some(Text(s));
    case EInteger(t) =>
      if !IsDecimal(t) { return None; }
      var integer := Parse(t);
      if integer < MIN_I64 || integer > MAX_I64 { return None; }
      return Some(BigInt(integer));
    case EBytes(t) =>
      var b := Base64.Base64ToBytes(t);
      if b.None? { return None; }
      return Some(Bytes(b.value));
    case EList(items) =>
      var values := DecodeItems(e);
      if values.None? { return None; }
      return Some(List(values.value));
    case EPlain(es) =>
      var entries := DecodeEntries(e);
      if entries.None? { return None; }
      PlainDecodes(es);
      return Some(Plain(Reorder(entries.value)));
    case Padded(inner) => r := DecodeValue(inner);
    case Malformed => return None;
  }
}
