/** `canonicalScopeJson` of packages/core/src/canonical-json.ts: the text behind scope digests. */
module ScopeJson {
  import CodeUnits

  // ----- Quoting (section 7 of RFC 8259, as JSON.stringify does it) -----------------------------------

  function HexDigit(n: int): char
    requires 0 <= n < 16
  {
    if n < 10 then ('0' as int + n) as char else ('a' as int + n - 10) as char
  }

  /** A character inside a JSON string. */
  function Escape(c: char): string {
    if c == '\"' then ['\\', '\"']
    else if c == '\\' then ['\\', '\\']
    else if c as int == 8 then ['\\', 'b']
    else if c as int == 9 then ['\\', 't']
    else if c as int == 10 then ['\\', 'n']
    else if c as int == 12 then ['\\', 'f']
    else if c as int == 13 then ['\\', 'r']
    else if (c as int) < 32 then ['\\', 'u', '0', '0', HexDigit(c as int / 16), HexDigit(c as int % 16)]
    else [c]
  }

  function Body(t: string): string {
    if t == [] then ['\"'] else Escape(t[0]) + Body(t[1..])
  }

  function Quote(t: string): string { ['\"'] + Body(t) }

  lemma HexDigitInjective(m: int, n: int)
    requires 0 <= m < 16 && 0 <= n < 16 && HexDigit(m) == HexDigit(n)
    ensures m == n
  {
  }

  lemma EscapeShape(c: char)
    ensures Escape(c) != [] && Escape(c)[0] != '\"'
    ensures Escape(c)[0] == '\\' <==> |Escape(c)| > 1
    ensures |Escape(c)| == 1 ==> Escape(c) == [c]
    ensures |Escape(c)| == 2 || |Escape(c)| == 6 || |Escape(c)| == 1
    ensures |Escape(c)| == 6 <==> |Escape(c)| > 1 && Escape(c)[1] == 'u'
  {
  }

  /** No escape is the start of another, so the first one can be told. */
  lemma EscapeSplits(c: char, x: string, d: char, y: string)
    requires Escape(c) + x == Escape(d) + y
    ensures c == d && x == y
  {
    EscapeShape(c);
    EscapeShape(d);
    var p, q := Escape(c) + x, Escape(d) + y;
    assert p[0] == Escape(c)[0] && q[0] == Escape(d)[0];
    if |Escape(c)| > 1 {
      assert p[1] == Escape(c)[1] && q[1] == Escape(d)[1];
      if |Escape(c)| == 6 {
        assert p[4] == Escape(c)[4] && q[4] == Escape(d)[4];
        assert p[5] == Escape(c)[5] && q[5] == Escape(d)[5];
        HexDigitInjective(c as int / 16, d as int / 16);
        HexDigitInjective(c as int % 16, d as int % 16);
      }
    }
    assert x == p[|Escape(c)|..] && y == q[|Escape(d)|..];
  }

  lemma {:induction false} BodySplits(a: string, x: string, b: string, y: string)
    requires Body(a) + x == Body(b) + y
    ensures a == b && x == y
    decreases |a|
  {
    hide Escape;
    var p, q := Body(a) + x, Body(b) + y;
    if a != [] { EscapeShape(a[0]); assert p[0] == Escape(a[0])[0]; }
    if b != [] { EscapeShape(b[0]); assert q[0] == Escape(b[0])[0]; }
    if a == [] {
      assert p[0] == '\"';
      assert x == p[1..] && y == q[1..];
    } else {
      assert p == Escape(a[0]) + (Body(a[1..]) + x) && q == Escape(b[0]) + (Body(b[1..]) + y);
      EscapeSplits(a[0], Body(a[1..]) + x, b[0], Body(b[1..]) + y);
      BodySplits(a[1..], x, b[1..], y);
      assert a == [a[0]] + a[1..] && b == [b[0]] + b[1..];
    }
  }

  /** Quoting is injective and self-delimiting. */
  lemma QuoteSplits(a: string, x: string, b: string, y: string)
    requires Quote(a) + x == Quote(b) + y
    ensures a == b && x == y
  {
    hide Body;
    var p, q := Quote(a) + x, Quote(b) + y;
    assert p[1..] == Body(a) + x && q[1..] == Body(b) + y;
    BodySplits(a, x, b, y);
  }

  // ----- The canonical text ----------------------------------------------------------------------------

  /** `parts.join(',')`. */
  function Join(parts: seq<string>): string {
    if parts == [] then []
    else if |parts| == 1 then parts[0]
    else parts[0] + [','] + Join(parts[1..])
  }

  function Quotes(vs: seq<string>): seq<string> { seq(|vs|, i requires 0 <= i < |vs| => Quote(vs[i])) }

  function Members(vs: seq<string>): set<string> { set v | v in vs }

  /** A key with its values deduplicated and sorted. */
  function Part(key: string, values: seq<string>): string {
    Quote(key) + [':', '['] + Join(Quotes(CodeUnits.Sorted(Members(values)))) + [']']
  }

  function Parts(scopes: map<string, seq<string>>, keys: seq<string>): seq<string>
    requires forall i :: 0 <= i < |keys| ==> keys[i] in scopes
  {
    seq(|keys|, i requires 0 <= i < |keys| => Part(keys[i], scopes[keys[i]]))
  }

  function CanonicalScopeJson(scopes: map<string, seq<string>>): string {
    var keys := CodeUnits.Sorted(scopes.Keys);
    assert forall i :: 0 <= i < |keys| ==> keys[i] in keys;
    ['{'] + Join(Parts(scopes, keys)) + ['}']
  }

  // ----- Texts that can be told apart from the left ------------------------------------------------------

  /** A comma-separated list closed by `end`, and then `k`. */
  function Closed(parts: seq<string>, end: char, k: string): string { Join(parts) + [end] + k }

  /** What follows an element of such a list. */
  function After(parts: seq<string>, end: char, k: string): string {
    if parts == [] then [end] + k else [','] + Closed(parts, end, k)
  }

  lemma ClosedSteps(parts: seq<string>, end: char, k: string)
    ensures parts == [] ==> Closed(parts, end, k) == [end] + k
    ensures parts != [] ==> Closed(parts, end, k) == parts[0] + After(parts[1..], end, k)
  {
    if |parts| == 1 { assert parts[1..] == []; }
  }

  lemma {:induction false} ListSplits(vs: seq<string>, x: string, ws: seq<string>, y: string)
    requires Closed(Quotes(vs), ']', x) == Closed(Quotes(ws), ']', y)
    ensures vs == ws && x == y
    decreases |vs|, 0
  {
    hide Join, Quote;
    var p, q := Closed(Quotes(vs), ']', x), Closed(Quotes(ws), ']', y);
    ClosedSteps(Quotes(vs), ']', x);
    ClosedSteps(Quotes(ws), ']', y);
    if vs != [] { QuoteStarts(vs[0]); assert p[0] == Quote(vs[0])[0]; }
    if ws != [] { QuoteStarts(ws[0]); assert q[0] == Quote(ws[0])[0]; }
    assert (vs == [] ==> p[0] == ']') && (ws == [] ==> q[0] == ']');
    if vs == [] {
      assert x == p[1..] && y == q[1..];
    } else {
      QuotesTail(vs);
      QuotesTail(ws);
      QuoteSplits(vs[0], After(Quotes(vs[1..]), ']', x), ws[0], After(Quotes(ws[1..]), ']', y));
      AfterList(vs[1..], x, ws[1..], y);
      assert vs == [vs[0]] + vs[1..] && ws == [ws[0]] + ws[1..];
    }
  }

  lemma QuotesTail(vs: seq<string>)
    requires vs != []
    ensures Quotes(vs)[0] == Quote(vs[0]) && Quotes(vs)[1..] == Quotes(vs[1..])
  {
    hide Quote;
  }

  lemma QuoteStarts(t: string)
    ensures Quote(t) != [] && Quote(t)[0] == '\"'
  {
  }

  lemma {:induction false} AfterList(vs: seq<string>, x: string, ws: seq<string>, y: string)
    requires After(Quotes(vs), ']', x) == After(Quotes(ws), ']', y)
    ensures vs == ws && x == y
    decreases |vs|, 1
  {
    hide Join, Quote;
    var p, q := After(Quotes(vs), ']', x), After(Quotes(ws), ']', y);
    if vs == [] {
      assert p[0] == ']';
      assert x == p[1..] && y == q[1..];
    } else {
      assert p[0] == ',';
      assert p[1..] == Closed(Quotes(vs), ']', x) && q[1..] == Closed(Quotes(ws), ']', y);
      ListSplits(vs, x, ws, y);
    }
  }

  /** A key and its sorted values. */
  type Entry = (string, seq<string>)

  function EntryText(e: Entry): string { Quote(e.0) + [':', '['] + Join(Quotes(e.1)) + [']'] }

  function EntryTexts(es: seq<Entry>): seq<string> { seq(|es|, i requires 0 <= i < |es| => EntryText(es[i])) }

  lemma EntrySplits(d: Entry, x: string, e: Entry, y: string)
    requires EntryText(d) + x == EntryText(e) + y
    ensures d == e && x == y
  {
    hide Quote, Join, Quotes;
    var s, t := Closed(Quotes(d.1), ']', x), Closed(Quotes(e.1), ']', y);
    assert EntryText(d) + x == Quote(d.0) + ([':', '['] + s);
    assert EntryText(e) + y == Quote(e.0) + ([':', '['] + t);
    QuoteSplits(d.0, [':', '['] + s, e.0, [':', '['] + t);
    assert s == ([':', '['] + s)[2..] && t == ([':', '['] + t)[2..];
    ListSplits(d.1, x, e.1, y);
  }

  lemma EntryStarts(e: Entry)
    ensures EntryText(e) != [] && EntryText(e)[0] == '\"'
  {
    hide Join, Quotes;
    QuoteStarts(e.0);
  }

  lemma EntryTextsTail(es: seq<Entry>)
    requires es != []
    ensures EntryTexts(es)[0] == EntryText(es[0]) && EntryTexts(es)[1..] == EntryTexts(es[1..])
  {
    hide EntryText;
  }

  lemma {:induction false} EntriesSplit(ds: seq<Entry>, x: string, es: seq<Entry>, y: string)
    requires Closed(EntryTexts(ds), '}', x) == Closed(EntryTexts(es), '}', y)
    ensures ds == es && x == y
    decreases |ds|, 0
  {
    hide Join, EntryText;
    var p, q := Closed(EntryTexts(ds), '}', x), Closed(EntryTexts(es), '}', y);
    ClosedSteps(EntryTexts(ds), '}', x);
    ClosedSteps(EntryTexts(es), '}', y);
    if ds != [] { EntryStarts(ds[0]); assert p[0] == EntryText(ds[0])[0]; }
    if es != [] { EntryStarts(es[0]); assert q[0] == EntryText(es[0])[0]; }
    assert (ds == [] ==> p[0] == '}') && (es == [] ==> q[0] == '}');
    if ds == [] {
      assert x == p[1..] && y == q[1..];
    } else {
      EntryTextsTail(ds);
      EntryTextsTail(es);
      EntrySplits(ds[0], After(EntryTexts(ds[1..]), '}', x), es[0], After(EntryTexts(es[1..]), '}', y));
      AfterEntries(ds[1..], x, es[1..], y);
      assert ds == [ds[0]] + ds[1..] && es == [es[0]] + es[1..];
    }
  }

  lemma {:induction false} AfterEntries(ds: seq<Entry>, x: string, es: seq<Entry>, y: string)
    requires After(EntryTexts(ds), '}', x) == After(EntryTexts(es), '}', y)
    ensures ds == es && x == y
    decreases |ds|, 1
  {
    hide Join, EntryText;
    var p, q := After(EntryTexts(ds), '}', x), After(EntryTexts(es), '}', y);
    if ds == [] {
      assert p[0] == '}';
      assert x == p[1..] && y == q[1..];
    } else {
      assert p[0] == ',';
      assert p[1..] == Closed(EntryTexts(ds), '}', x) && q[1..] == Closed(EntryTexts(es), '}', y);
      EntriesSplit(ds, x, es, y);
    }
  }

  // ----- A complete invariant ----------------------------------------------------------------------------

  ghost function Canonical(scopes: map<string, seq<string>>): (es: seq<Entry>)
    ensures |es| == |scopes|
    ensures forall i :: 0 <= i < |es| ==>
              && es[i].0 == CodeUnits.Sorted(scopes.Keys)[i] && es[i].0 in scopes
              && es[i].1 == CodeUnits.Sorted(Members(scopes[es[i].0]))
  {
    var keys := CodeUnits.Sorted(scopes.Keys);
    seq(|keys|, i requires 0 <= i < |keys| => assert keys[i] in keys; (keys[i], CodeUnits.Sorted(Members(scopes[keys[i]]))))
  }

  lemma CanonicalText(scopes: map<string, seq<string>>)
    ensures CanonicalScopeJson(scopes) == ['{'] + Closed(EntryTexts(Canonical(scopes)), '}', [])
  {
    hide Join, Quote, Quotes, Members;
    var keys := CodeUnits.Sorted(scopes.Keys);
    assert forall i :: 0 <= i < |keys| ==> keys[i] in keys;
    assert Parts(scopes, keys) == EntryTexts(Canonical(scopes));
  }

  /** The same keys, and under each key the same set of values. */
  predicate SameScopes(a: map<string, seq<string>>, b: map<string, seq<string>>) {
    a.Keys == b.Keys && forall key :: key in a ==> Members(a[key]) == Members(b[key])
  }

  lemma SortedInjective(a: set<string>, b: set<string>)
    requires CodeUnits.Sorted(a) == CodeUnits.Sorted(b)
    ensures a == b
  {
    var r := CodeUnits.Sorted(a);
    assert forall x :: x in a <==> x in r;
    assert forall x :: x in b <==> x in r;
  }

  lemma SameKeys(a: map<string, seq<string>>, b: map<string, seq<string>>)
    requires Canonical(a) == Canonical(b)
    ensures a.Keys == b.Keys
  {
    hide Members, Canonical;
    var es := Canonical(a);
    var ka, kb := CodeUnits.Sorted(a.Keys), CodeUnits.Sorted(b.Keys);
    assert |ka| == |es| == |kb|;
    assert forall i :: 0 <= i < |es| ==> ka[i] == es[i].0 && kb[i] == es[i].0;
    assert ka == kb;
    SortedInjective(a.Keys, b.Keys);
  }

  lemma EntryOfKey(a: map<string, seq<string>>, key: string) returns (i: nat)
    requires key in a
    ensures i < |Canonical(a)| && Canonical(a)[i].0 == key
  {
    hide Members, Canonical;
    var ks := CodeUnits.Sorted(a.Keys);
    assert key in ks;
    i :| i < |ks| && ks[i] == key;
  }

  lemma SameEntries(a: map<string, seq<string>>, b: map<string, seq<string>>)
    requires Canonical(a) == Canonical(b)
    ensures SameScopes(a, b)
  {
    hide Members, Canonical, CodeUnits.Sorted;
    SameKeys(a, b);
    forall key | key in a ensures Members(a[key]) == Members(b[key]) {
      var i := EntryOfKey(a, key);
      SortedInjective(Members(a[key]), Members(b[key]));
    }
  }

  /** Two scope maps have the same canonical text exactly when they mean the same scopes. */
  lemma CompleteInvariant(a: map<string, seq<string>>, b: map<string, seq<string>>)
    ensures CanonicalScopeJson(a) == CanonicalScopeJson(b) <==> SameScopes(a, b)
  {
    hide Join, EntryText, EntryTexts, Members, CanonicalScopeJson, Closed;
    CanonicalText(a);
    CanonicalText(b);
    if CanonicalScopeJson(a) == CanonicalScopeJson(b) {
      var p, q := Closed(EntryTexts(Canonical(a)), '}', []), Closed(EntryTexts(Canonical(b)), '}', []);
      assert (['{'] + p)[1..] == p && (['{'] + q)[1..] == q;
      EntriesSplit(Canonical(a), [], Canonical(b), []);
      SameEntries(a, b);
    }
    if SameScopes(a, b) {
      assert Canonical(a) == Canonical(b);
    }
  }
}
