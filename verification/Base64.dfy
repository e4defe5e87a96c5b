/** `bytesToBase64` of packages/core/src/render.ts and `base64ToBytes` of packages/core/src/remote-operations.ts. */
module Base64 {
  import opened Results

  // ----- The alphabet (section 4 of RFC 4648) -----------------------------------------------------------

  type Sextet = n: int | 0 <= n < 64

  function CharOf(n: Sextet): char {
    if n < 26 then ('A' as int + n) as char
    else if n < 52 then ('a' as int + n - 26) as char
    else if n < 62 then ('0' as int + n - 52) as char
    else if n == 62 then '+'
    else '/'
  }

  predicate InAlphabet(c: char) {
    'A' <= c <= 'Z' || 'a' <= c <= 'z' || '0' <= c <= '9' || c == '+' || c == '/'
  }

  /** `alphabet.indexOf(c)`, with padding read as zero. */
  function ValueOf(c: char): Sextet {
    if 'A' <= c <= 'Z' then c as int - 'A' as int
    else if 'a' <= c <= 'z' then c as int - 'a' as int + 26
    else if '0' <= c <= '9' then c as int - '0' as int + 52
    else if c == '+' then 62
    else if c == '/' then 63
    else 0
  }

  lemma AlphabetInverse(n: Sextet)
    ensures InAlphabet(CharOf(n)) && ValueOf(CharOf(n)) == n
  {
  }

  const UPPER := "ABCDEFGHIJKLMNOPQRSTUVWXYZ"
  const LOWER := "abcdefghijklmnopqrstuvwxyz"
  const REST := "0123456789+/"

  lemma UpperAt(n: nat)
    requires n < 26
    ensures |UPPER| == 26 && UPPER[n] == CharOf(n)
  {
    assert UPPER[n] as int == 'A' as int + n;
  }

  lemma LowerAt(n: nat)
    requires n < 26
    ensures |LOWER| == 26 && LOWER[n] == CharOf(n + 26)
  {
    assert LOWER[n] as int == 'a' as int + n;
  }

  lemma RestAt(n: nat)
    requires n < 12
    ensures |REST| == 12 && REST[n] == CharOf(n + 52)
  {
    assert n < 10 ==> REST[n] as int == '0' as int + n;
  }

  /** The alphabet, spelled out: `CharOf` indexes it and `ValueOf` finds the index again. */
  lemma AlphabetSpelled(n: Sextet)
    ensures var alphabet := UPPER + LOWER + REST;
            |alphabet| == 64 && CharOf(n) == alphabet[n] && ValueOf(alphabet[n]) == n
  {
    AlphabetInverse(n);
    UpperAt(if n < 26 then n else 0);
    LowerAt(if 26 <= n < 52 then n - 26 else 0);
    RestAt(if 52 <= n then n - 52 else 0);
  }

  // ----- Groups of three bytes and of four characters ------------------------------------------------------

  function Chunk(a: int, b: int, c: int): int { a * 65536 + b * 256 + c }

  /** Bits 18 to 23, 12 to 17, 6 to 11 and 0 to 5 of a chunk. */
  function Sextets(chunk: int): (Sextet, Sextet, Sextet, Sextet) {
    (chunk / 262144 % 64, chunk / 4096 % 64, chunk / 64 % 64, chunk % 64)
  }

  function Join(a: int, b: int, c: int, d: int): int { a * 262144 + b * 4096 + c * 64 + d }

  function Octets(chunk: int): (b: bytes)
    ensures |b| == 3
  {
    [chunk / 65536 % 256, chunk / 256 % 256, chunk % 256]
  }

  lemma OctetsOfChunk(a: byte, b: byte, c: byte)
    ensures Octets(Chunk(a, b, c)) == [a, b, c]
  {
    var n := Chunk(a, b, c);
    assert n / 65536 == a && n / 256 == a * 256 + b;
  }

  lemma JoinOfSextets(n: int)
    requires 0 <= n < 16777216
    ensures var (p, q, r, s) := Sextets(n); Join(p, q, r, s) == n
  {
    var n1, n2 := n / 64, n / 64 / 64;
    assert n / 4096 == n2 && n / 262144 == n2 / 64;
    assert n2 / 64 % 64 == n2 / 64;
    assert n == 64 * n1 + n % 64 && n1 == 64 * n2 + n1 % 64 && n2 == 64 * (n2 / 64) + n2 % 64;
  }

  lemma Multiple(n: int, k: int)
    requires n == 64 * k
    ensures n % 64 == 0 && n / 64 == k
  {
  }

  lemma ZeroSextets(a: byte, b: byte, c: byte)
    ensures c == 0 ==> Chunk(a, b, c) % 64 == 0
    ensures b == 0 && c == 0 ==> Chunk(a, b, c) / 64 % 64 == 0
  {
    if c == 0 { Multiple(Chunk(a, b, c), a * 1024 + b * 4); }
    if b == 0 && c == 0 { Multiple(Chunk(a, b, c) / 64, a * 16); }
  }

  lemma ChunkRange(a: byte, b: byte, c: byte)
    ensures 0 <= Chunk(a, b, c) < 16777216
  {
  }

  lemma ChunkSplits(a: byte, b: byte, c: byte)
    ensures Octets(Chunk(a, b, c)) == [a, b, c]
    ensures var (p, q, r, s) := Sextets(Chunk(a, b, c)); Join(p, q, r, s) == Chunk(a, b, c)
    ensures c == 0 ==> Sextets(Chunk(a, b, c)).3 == 0
    ensures b == 0 && c == 0 ==> Sextets(Chunk(a, b, c)).2 == 0
  {
    hide Join, Octets, Chunk;
    OctetsOfChunk(a, b, c);
    ChunkRange(a, b, c);
    JoinOfSextets(Chunk(a, b, c));
    ZeroSextets(a, b, c);
  }

  function Quad(chunk: int): (t: string)
    ensures |t| == 4
  {
    var (p, q, r, s) := Sextets(chunk);
    [CharOf(p), CharOf(q), CharOf(r), CharOf(s)]
  }

  /** The text of `b`, in groups of three with the last group padded. */
  function Encode(b: bytes): string {
    if |b| == 0 then []
    else if |b| == 1 then Quad(Chunk(b[0], 0, 0))[..2] + ['=', '=']
    else if |b| == 2 then Quad(Chunk(b[0], b[1], 0))[..3] + ['=']
    else Quad(Chunk(b[0], b[1], b[2])) + Encode(b[3..])
  }

  // ----- What the text is, group by group --------------------------------------------------------------------

  function At(b: bytes, i: nat): byte { if i < |b| then b[i] else 0 }

  /** A character of the alphabet as it is spelled out. */
  function Letter(n: Sextet): char {
    AlphabetSpelled(n);
    (UPPER + LOWER + REST)[n]
  }

  /** Four characters for three bytes, six bits each. */
  function Letters(x: byte, y: byte, z: byte): (t: string)
    ensures |t| == 4
  {
    [Letter(x / 4), Letter(x % 4 * 16 + y / 16), Letter(y % 16 * 4 + z / 64), Letter(z % 64)]
  }

  /** A padding character stands where a byte is missing. */
  function Group(b: bytes, q: nat): (t: string)
    ensures |t| == 4
  {
    var t := Letters(At(b, 3 * q), At(b, 3 * q + 1), At(b, 3 * q + 2));
    if 3 * q + 2 < |b| then t else if 3 * q + 1 < |b| then t[..3] + "=" else t[..2] + "=="
  }

  lemma LowSextets(x: byte, y: byte, z: byte)
    ensures Chunk(x, y, z) % 64 == z % 64
    ensures Chunk(x, y, z) / 64 == x * 1024 + y * 4 + z / 64
  {
    var k := x * 1024 + y * 4;
    assert Chunk(x, y, z) == 64 * k + z;
  }

  lemma HighSextets(x: byte, y: byte, w: int)
    requires 0 <= w < 4
    ensures var n := x * 1024 + y * 4 + w;
            n % 64 == y % 16 * 4 + w && n / 64 == x * 16 + y / 16
            && (x * 16 + y / 16) % 64 == x % 4 * 16 + y / 16 && (x * 16 + y / 16) / 64 == x / 4
  {
    assert x * 1024 + y * 4 + w == 64 * (x * 16 + y / 16) + (y % 16 * 4 + w);
    assert x * 16 + y / 16 == 64 * (x / 4) + (x % 4 * 16 + y / 16);
  }

  lemma SextetsOfBytes(x: byte, y: byte, z: byte)
    ensures Sextets(Chunk(x, y, z)) == (x / 4, x % 4 * 16 + y / 16, y % 16 * 4 + z / 64, z % 64)
  {
    hide Chunk;
    LowSextets(x, y, z);
    HighSextets(x, y, z / 64);
    var n := Chunk(x, y, z);
    assert n / 4096 == n / 64 / 64 && n / 262144 == n / 64 / 64 / 64;
    assert x / 4 % 64 == x / 4;
  }

  lemma QuadSpelled(x: byte, y: byte, z: byte)
    ensures Quad(Chunk(x, y, z)) == Letters(x, y, z)
  {
    hide Chunk, Sextets, CharOf, ValueOf;
    SextetsOfBytes(x, y, z);
    AlphabetSpelled(x / 4);
    AlphabetSpelled(x % 4 * 16 + y / 16);
    AlphabetSpelled(y % 16 * 4 + z / 64);
    AlphabetSpelled(z % 64);
  }

  lemma FirstGroup(b: bytes)
    requires b != []
    ensures Encode(b) == Group(b, 0) + if |b| <= 3 then [] else Encode(b[3..])
  {
    hide Quad, Chunk, Letters;
    QuadSpelled(b[0], At(b, 1), At(b, 2));
    if |b| == 3 { assert b[3..] == []; }
  }

  lemma LaterGroup(b: bytes, q: nat)
    requires q > 0 && 3 * q < |b|
    ensures Group(b, q) == Group(b[3..], q - 1)
  {
    hide Letters;
  }

  /** The text is its groups, one for every three bytes begun. */
  lemma {:induction false} EncodeAt(b: bytes, q: nat)
    requires 3 * q < |b|
    ensures |Encode(b)| == (|b| + 2) / 3 * 4 && 4 * q + 4 <= |Encode(b)|
    ensures Encode(b)[4 * q..4 * q + 4] == Group(b, q)
  {
    hide Encode, Group;
    FirstGroup(b);
    if |b| > 3 {
      var k := if q == 0 then 0 else q - 1;
      EncodeAt(b[3..], k);
      if q > 0 {
        LaterGroup(b, q);
        Shifted(Group(b, 0), Encode(b[3..]), 4 * k);
      }
    }
  }

  lemma Shifted(head: string, tail: string, i: nat)
    requires |head| == 4 && i + 4 <= |tail|
    ensures (head + tail)[i + 4..i + 8] == tail[i..i + 4]
  {
  }

  /** `^(?:[A-Za-z0-9+/]{4})*(?:[A-Za-z0-9+/]{2}==|[A-Za-z0-9+/]{3}=)?$`. */
  predicate Pattern(t: string) {
    t == [] ||
    (|t| >= 4 && InAlphabet(t[0]) && InAlphabet(t[1]) &&
      ((InAlphabet(t[2]) && InAlphabet(t[3]) && Pattern(t[4..]))
       || (|t| == 4 && t[2] == '=' && t[3] == '=')
       || (|t| == 4 && InAlphabet(t[2]) && t[3] == '=')))
  }

  function ChunkOf(t: string): int
    requires |t| >= 4
  {
    Join(ValueOf(t[0]), ValueOf(t[1]), ValueOf(t[2]), ValueOf(t[3]))
  }

  /** The octets of all groups, padding included. */
  function AllOctets(t: string): bytes {
    if |t| < 4 then [] else Octets(ChunkOf(t)) + AllOctets(t[4..])
  }

  function Padding(t: string): nat {
    if |t| >= 2 && t[|t| - 2..] == "==" then 2 else if |t| >= 1 && t[|t| - 1] == '=' then 1 else 0
  }

  lemma {:induction false} PatternSize(t: string)
    requires Pattern(t)
    ensures |t| % 4 == 0 && (t != [] ==> |t| >= 4)
  {
    if t != [] && InAlphabet(t[2]) && InAlphabet(t[3]) { PatternSize(t[4..]); }
  }

  lemma {:induction false} OctetsSize(t: string)
    requires |t| % 4 == 0
    ensures |AllOctets(t)| * 4 == |t| * 3
  {
    hide Octets, ChunkOf;
    if |t| >= 4 { OctetsSize(t[4..]); }
  }

  // ----- Decoding undoes encoding ----------------------------------------------------------------------------

  lemma QuadDecodes(a: byte, b: byte, c: byte, k: string)
    ensures var t := Quad(Chunk(a, b, c)) + k;
            && InAlphabet(t[0]) && InAlphabet(t[1]) && InAlphabet(t[2]) && InAlphabet(t[3])
            && Octets(ChunkOf(t)) == [a, b, c] && t[4..] == k
  {
    hide CharOf, ValueOf, InAlphabet, Sextets, Join, Octets;
    var (p, q, r, s) := Sextets(Chunk(a, b, c));
    AlphabetInverse(p);
    AlphabetInverse(q);
    AlphabetInverse(r);
    AlphabetInverse(s);
    ChunkSplits(a, b, c);
  }

  lemma ShortDecodes(b: bytes)
    requires |b| == 1 || |b| == 2
    ensures var t := Encode(b);
            Pattern(t) && |t| == 4 && Padding(t) == 3 - |b| && AllOctets(t)[..|b|] == b
  {
    hide CharOf, InAlphabet, Sextets, Join, Octets;
    var b1 := if |b| == 2 then b[1] else 0;
    var chunk := Chunk(b[0], b1, 0);
    var (p, q, r, s) := Sextets(chunk);
    AlphabetInverse(p);
    AlphabetInverse(q);
    AlphabetInverse(r);
    ChunkSplits(b[0], b1, 0);
    PaddingIsNoDigit();
    var t := Encode(b);
    assert t == [CharOf(p), CharOf(q), if |b| == 2 then CharOf(r) else '=', '='];
    assert ChunkOf(t) == chunk;
    assert t[4..] == [];
    assert AllOctets(t) == Octets(chunk) + [];
    assert t[2..] == [t[2], t[3]];
  }

  lemma PaddingIsNoDigit()
    ensures !InAlphabet('=') && ValueOf('=') == 0
  {
  }

  /** A full group in front of a well-formed text. */
  lemma PrependGroup(q: string, o: bytes, k: string)
    requires |q| == 4 && InAlphabet(q[0]) && InAlphabet(q[1]) && InAlphabet(q[2]) && InAlphabet(q[3])
    requires Octets(ChunkOf(q)) == o && Pattern(k)
    ensures Pattern(q + k) && Padding(q + k) == Padding(k) && AllOctets(q + k) == o + AllOctets(k)
  {
    hide ValueOf, InAlphabet, Join, Octets;
    var t := q + k;
    assert t[4..] == k && ChunkOf(t) == ChunkOf(q);
    PatternSize(k);
    PaddingIsNoDigit();
    if k == [] {
      assert t[2..] == [t[2], t[3]];
    } else {
      assert t[|t| - 2..] == k[|k| - 2..] && t[|t| - 1] == k[|k| - 1];
    }
  }

  lemma {:induction false} EncodedDecodes(b: bytes)
    ensures var t := Encode(b);
            && Pattern(t) && |t| % 4 == 0 && |AllOctets(t)| - Padding(t) == |b| && AllOctets(t)[..|b|] == b
  {
    hide CharOf, ValueOf, InAlphabet, Sextets, Join, Octets, Quad, Pattern, Padding, AllOctets, Chunk, ChunkOf;
    if b == [] {
      EmptyText();
    } else if |b| == 1 || |b| == 2 {
      ShortDecodes(b);
      OctetsSize(Encode(b));
    } else {
      EncodedDecodes(b[3..]);
      var q, k := Quad(Chunk(b[0], b[1], b[2])), Encode(b[3..]);
      QuadDecodes(b[0], b[1], b[2], []);
      assert q + [] == q;
      PrependGroup(q, [b[0], b[1], b[2]], k);
      assert b == [b[0], b[1], b[2]] + b[3..];
    }
  }

  lemma EmptyText()
    ensures Pattern([]) && Padding([]) == 0 && AllOctets([]) == []
  {
  }

  // ----- The code ------------------------------------------------------------------------------------------------

  lemma {:induction false} EncodeConcat(a: bytes, b: bytes)
    requires |a| % 3 == 0
    ensures Encode(a + b) == Encode(a) + Encode(b)
  {
    hide Quad;
    if a == [] {
      assert a + b == b;
    } else {
      assert (a + b)[3..] == a[3..] + b;
      EncodeConcat(a[3..], b);
    }
  }

  method BytesToBase64(b: bytes) returns (out: string)
    ensures out == Encode(b)
  {
    hide Encode, CharOf, Sextets, Chunk;
    out := [];
    var i := 0;
    EncodeEmpty();
    while i + 2 < |b|
      invariant 0 <= i <= |b| && i % 3 == 0
      invariant out == Encode(b[..i])
    {
      var chunk := Chunk(b[i], b[i + 1], b[i + 2]);
      var group := b[i..i + 3];
      assert b[..i + 3] == b[..i] + group;
      EncodeConcat(b[..i], group);
      EncodeThree(group);
      var (p, q, r, s) := Sextets(chunk);
      out := out + [CharOf(p), CharOf(q), CharOf(r), CharOf(s)];
      i := i + 3;
    }
    var rest := |b| - i;
    var tail := b[i..];
    assert b == b[..i] + tail;
    EncodeConcat(b[..i], tail);
    EncodeRest(tail);
    if rest == 1 {
      var chunk := Chunk(b[i], 0, 0);
      var (p, q, _, _) := Sextets(chunk);
      out := out + [CharOf(p), CharOf(q)] + ['=', '='];
    } else if rest == 2 {
      var chunk := Chunk(b[i], b[i + 1], 0);
      var (p, q, r, _) := Sextets(chunk);
      out := out + [CharOf(p), CharOf(q), CharOf(r)] + ['='];
    }
  }

  lemma EncodeEmpty()
    ensures Encode([]) == []
  {
  }

  lemma EncodeThree(b: bytes)
    requires |b| == 3
    ensures Encode(b) == Quad(Chunk(b[0], b[1], b[2]))
  {
    assert b[3..] == [];
  }

  lemma EncodeRest(b: bytes)
    requires |b| < 3
    ensures Encode(b) == if b == [] then []
                         else if |b| == 1 then Quad(Chunk(b[0], 0, 0))[..2] + ['=', '=']
                         else Quad(Chunk(b[0], b[1], 0))[..3] + ['=']
  {
  }

  lemma {:induction false} OctetsConcat(s: string, t: string)
    requires |s| % 4 == 0 && |t| % 4 == 0
    ensures AllOctets(s + t) == AllOctets(s) + AllOctets(t)
  {
    hide Octets, ChunkOf;
    if s == [] {
      assert s + t == t;
    } else {
      assert (s + t)[4..] == s[4..] + t;
      OctetsConcat(s[4..], t);
      ChunkOfPrefix(s, t);
    }
  }

  lemma ChunkOfPrefix(s: string, t: string)
    requires |s| >= 4
    ensures ChunkOf(s + t) == ChunkOf(s)
  {
    hide ValueOf, Join;
  }

  /** `(text.length / 4) * 3 - padding`. */
  function RoomFor(text: string): (n: nat)
    requires |text| % 4 == 0
    ensures |AllOctets(text)| - Padding(text) == n
  {
    OctetsSize(text);
    SomeRoom(|text|, |AllOctets(text)|);
    |text| / 4 * 3 - Padding(text)
  }

  lemma SomeRoom(n: nat, m: nat)
    requires n % 4 == 0 && m * 4 == n * 3
    ensures n / 4 * 3 == m
  {
  }

  /** What `base64ToBytes` returns, or nothing where it throws. */
  function Decode(text: string): Option<bytes> {
    if |text| % 4 != 0 || !Pattern(text) then None
    else
      PatternSize(text);
      var size := RoomFor(text);
      var out := AllOctets(text)[..size];
      if Encode(out) == text then Some(out) else None
  }

  /** Base64 is exact: what is accepted is what is encoded, and it decodes to the bytes it came from. */
  lemma DecodeExact(text: string, b: bytes)
    ensures Decode(text) == Some(b) <==> Encode(b) == text
  {
    hide Encode, Octets, Pattern, Padding, AllOctets;
    if Encode(b) == text { EncodedDecodes(b); }
    if |text| % 4 == 0 && Pattern(text) { PatternSize(text); }
  }

  /** The decoded groups, one octet at a time as long as there is room, and encoded again for a check. */
  method Base64ToBytes(text: string) returns (r: Option<bytes>)
    ensures r == Decode(text)
  {
    hide Encode, CharOf, Octets, ValueOf, Join, InAlphabet, Pattern;
    if |text| % 4 != 0 || !Pattern(text) { return None; }
    PatternSize(text);
    var size := RoomFor(text);
    var out := DecodeGroups(text, size);
    var again := BytesToBase64(out);
    if again != text { return None; }
    return Some(out);
  }

  /** The octets of one group, as long as there is room. */
  method WriteOctets(out: array<byte>, start: nat, chunk: int) returns (offset: nat)
    requires start <= out.Length
    modifies out
    ensures offset == if start + 3 < out.Length then start + 3 else out.Length
    ensures out[..offset] == old(out[..start]) + Octets(chunk)[..offset - start]
  {
    offset := start;
    if offset < out.Length { out[offset] := chunk / 65536 % 256; offset := offset + 1; }
    if offset < out.Length { out[offset] := chunk / 256 % 256; offset := offset + 1; }
    if offset < out.Length { out[offset] := chunk % 256; offset := offset + 1; }
  }

  /** One more group of the text. */
  lemma GroupDone(text: string, index: nat)
    requires |text| % 4 == 0 && index % 4 == 0 && index + 4 <= |text|
    ensures AllOctets(text[..index + 4]) == AllOctets(text[..index]) + Octets(ChunkOf(text[index..index + 4]))
  {
    hide ChunkOf, Octets;
    var group := text[index..index + 4];
    assert text[..index + 4] == text[..index] + group;
    OctetsConcat(text[..index], group);
    assert group[4..] == [] && AllOctets(group) == Octets(ChunkOf(group)) + [];
  }

  method DecodeGroups(text: string, size: nat) returns (result: bytes)
    requires |text| % 4 == 0 && size <= |AllOctets(text)|
    ensures result == AllOctets(text)[..size]
  {
    hide Octets, ChunkOf, AllOctets;
    var out := new byte[size](_ => 0);
    var offset, index := 0, 0;
    OctetsSize(text[..0]);
    while index < |text|
      invariant 0 <= index <= |text| && index % 4 == 0
      invariant offset == (if |AllOctets(text[..index])| < size then |AllOctets(text[..index])| else size)
      invariant out[..offset] == AllOctets(text[..index])[..offset]
    {
      GroupDone(text, index);
      ghost var before, done := offset, AllOctets(text[..index]);
      var chunk := ChunkOf(text[index..index + 4]);
      offset := WriteOctets(out, offset, chunk);
      index := index + 4;
      Clipped(done, Octets(chunk), before, offset);
    }
    assert text[..index] == text;
    result := out[..];
  }

  /** Cutting both lists to size is cutting their concatenation. */
  lemma Clipped(done: bytes, more: bytes, before: nat, offset: nat)
    requires before <= |done| && |more| == 3 && before <= offset <= before + 3
    requires before == |done| || offset == before
    ensures done[..before] + more[..offset - before] == (done + more)[..offset]
  {
  }
}
