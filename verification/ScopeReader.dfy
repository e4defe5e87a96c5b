/**
 * A reader of JSON objects whose members are arrays of strings (RFC 8259, without white space), and what it makes
 * of the canonical scope text.
 */
module ScopeReader {
  import opened Results
  import opened ScopeJson
  import CodeUnits

  // ----- Strings (section 7 of RFC 8259) ------------------------------------------------------------------

  function HexValue(c: char): Option<int> {
    if '0' <= c <= '9' then Some(c as int - '0' as int)
    else if 'a' <= c <= 'f' then Some(c as int - 'a' as int + 10)
    else if 'A' <= c <= 'F' then Some(c as int - 'A' as int + 10)
    else None
  }

  function HexChar(a: char, b: char, c: char, d: char): Option<char> {
    var p, q, r, s := HexValue(a), HexValue(b), HexValue(c), HexValue(d);
    if p.None? || q.None? || r.None? || s.None? then None
    else
      var n := p.value * 4096 + q.value * 256 + r.value * 16 + s.value;
      if 0 <= n < 0xD800 || 0xE000 <= n < 0x10000 then Some(n as char) else None
  }

  /** One character of a string, and how much text it took. */
  function ReadChar(s: string): (r: Option<(char, nat)>)
    ensures r.Some? ==> 1 <= r.value.1 <= |s|
  {
    if s == [] || s[0] == '\"' || (s[0] as int) < 0x20 then None
    else if s[0] != '\\' then Some((s[0], 1))
    else if |s| < 2 then None
    else
      match s[1]
      case '\"' => Some(('\"', 2))
      case '\\' => Some(('\\', 2))
      case '/' => Some(('/', 2))
      case 'b' => Some(('\U{8}', 2))
      case 'f' => Some(('\U{C}', 2))
      case 'n' => Some(('\U{A}', 2))
      case 'r' => Some(('\U{D}', 2))
      case 't' => Some(('\U{9}', 2))
      case 'u' =>
        if |s| < 6 || HexChar(s[2], s[3], s[4], s[5]).None? then None else Some((HexChar(s[2], s[3], s[4], s[5]).value, 6))
      case _ => None
  }

  /** The characters up to the closing quotation mark. */
  function ReadBody(s: string): (r: Option<(string, string)>)
    ensures r.Some? ==> |r.value.1| < |s|
    decreases |s|
  {
    if s == [] then None
    else if s[0] == '\"' then Some(([], s[1..]))
    else
      match ReadChar(s)
      case None => None
      case Some((c, n)) =>
        match ReadBody(s[n..])
        case None => None
        case Some((t, k)) => Some(([c] + t, k))
  }

  function ReadString(s: string): (r: Option<(string, string)>)
    ensures r.Some? ==> |r.value.1| < |s|
  {
    if s != [] && s[0] == '\"' then ReadBody(s[1..]) else None
  }

  lemma HexRead(n: int)
    requires 0 <= n < 16
    ensures HexValue(HexDigit(n)) == Some(n)
  {
  }

  lemma EscapeRead(c: char, k: string)
    ensures ReadChar(Escape(c) + k) == Some((c, |Escape(c)|))
  {
    var s := Escape(c) + k;
    EscapeShape(c);
    assert s[0] == Escape(c)[0];
    if |Escape(c)| == 2 {
      assert s[1] == Escape(c)[1];
    } else if |Escape(c)| == 6 {
      HexRead(c as int / 16);
      HexRead(c as int % 16);
      assert s[1] == 'u' && s[2] == '0' && s[3] == '0' && s[4] == Escape(c)[4] && s[5] == Escape(c)[5];
      assert c as int == c as int / 16 * 16 + c as int % 16;
    }
  }

  lemma {:induction false} BodyRead(t: string, k: string)
    ensures ReadBody(Body(t) + k) == Some((t, k))
  {
    hide Escape, ReadChar;
    var s := Body(t) + k;
    if t == [] {
      assert s == ['\"'] + k;
    } else {
      var rest := Body(t[1..]) + k;
      assert s == Escape(t[0]) + rest;
      EscapeShape(t[0]);
      EscapeRead(t[0], rest);
      assert s[|Escape(t[0])|..] == rest;
      BodyRead(t[1..], k);
      assert t == [t[0]] + t[1..];
    }
  }

  lemma QuoteRead(t: string, k: string)
    ensures ReadString(Quote(t) + k) == Some((t, k))
  {
    hide Body, ReadBody;
    assert (Quote(t) + k)[1..] == Body(t) + k;
    BodyRead(t, k);
  }

  // ----- Arrays of strings (section 5) -----------------------------------------------------------------------

  /** The strings up to the closing bracket, from the first one on. */
  function ReadItems(s: string): (r: Option<(seq<string>, string)>)
    ensures r.Some? ==> |r.value.1| < |s|
    decreases |s|
  {
    match ReadString(s)
    case None => None
    case Some((t, k)) =>
      if k != [] && k[0] == ']' then Some(([t], k[1..]))
      else if k != [] && k[0] == ',' then
        match ReadItems(k[1..])
        case None => None
        case Some((ts, rest)) => Some(([t] + ts, rest))
      else None
  }

  function ReadArray(s: string): (r: Option<(seq<string>, string)>)
    ensures r.Some? ==> |r.value.1| < |s|
  {
    if |s| >= 2 && s[0] == '[' && s[1] == ']' then Some(([], s[2..]))
    else if s != [] && s[0] == '[' then ReadItems(s[1..])
    else None
  }

  lemma {:induction false} ItemsRead(vs: seq<string>, k: string)
    requires vs != []
    ensures ReadItems(Closed(Quotes(vs), ']', k)) == Some((vs, k))
  {
    hide Quote, Join, Closed;
    ClosedSteps(Quotes(vs), ']', k);
    QuotesTail(vs);
    QuoteRead(vs[0], After(Quotes(vs[1..]), ']', k));
    if |vs| > 1 {
      ItemsRead(vs[1..], k);
      assert ([','] + Closed(Quotes(vs[1..]), ']', k))[1..] == Closed(Quotes(vs[1..]), ']', k);
      assert vs == [vs[0]] + vs[1..];
    } else {
      assert ([']'] + k)[1..] == k && vs == [vs[0]];
    }
  }

  lemma ArrayRead(vs: seq<string>, k: string)
    ensures ReadArray(['['] + Closed(Quotes(vs), ']', k)) == Some((vs, k))
  {
    hide Quote, Join, Closed, ReadItems;
    var s := Closed(Quotes(vs), ']', k);
    ClosedSteps(Quotes(vs), ']', k);
    assert (['['] + s)[1..] == s;
    if vs == [] {
      assert ['['] + s == ['[', ']'] + k;
    } else {
      QuoteStarts(vs[0]);
      assert s[0] == '\"';
      ItemsRead(vs, k);
    }
  }

  // ----- Objects of arrays (section 4) -------------------------------------------------------------------------

  function ReadEntry(s: string): (r: Option<(Entry, string)>)
    ensures r.Some? ==> |r.value.1| < |s|
  {
    match ReadString(s)
    case None => None
    case Some((key, k)) =>
      if k == [] || k[0] != ':' then None
      else
        match ReadArray(k[1..])
        case None => None
        case Some((vs, rest)) => Some(((key, vs), rest))
  }

  function ReadEntries(s: string): (r: Option<(seq<Entry>, string)>)
    decreases |s|
  {
    match ReadEntry(s)
    case None => None
    case Some((e, k)) =>
      if k != [] && k[0] == '}' then Some(([e], k[1..]))
      else if k != [] && k[0] == ',' then
        match ReadEntries(k[1..])
        case None => None
        case Some((es, rest)) => Some(([e] + es, rest))
      else None
  }

  /** The members of the object the whole text is. */
  function ReadObject(s: string): Option<seq<Entry>> {
    if s == ['{', '}'] then Some([])
    else if s == [] || s[0] != '{' then None
    else
      match ReadEntries(s[1..])
      case None => None
      case Some((es, k)) => if k == [] then Some(es) else None
  }

  lemma EntryRead(e: Entry, k: string)
    ensures ReadEntry(EntryText(e) + k) == Some((e, k))
  {
    hide Quote, Join, Quotes, ReadString, ReadArray;
    var list := ['['] + Closed(Quotes(e.1), ']', k);
    assert EntryText(e) + k == Quote(e.0) + ([':'] + list);
    QuoteRead(e.0, [':'] + list);
    assert ([':'] + list)[1..] == list;
    ArrayRead(e.1, k);
  }

  lemma {:induction false} EntriesRead(es: seq<Entry>)
    requires es != []
    ensures ReadEntries(Closed(EntryTexts(es), '}', [])) == Some((es, []))
  {
    hide EntryText, Join, Closed, ReadEntry;
    ClosedSteps(EntryTexts(es), '}', []);
    EntryTextsTail(es);
    EntryRead(es[0], After(EntryTexts(es[1..]), '}', []));
    if |es| > 1 {
      EntriesRead(es[1..]);
      assert ([','] + Closed(EntryTexts(es[1..]), '}', []))[1..] == Closed(EntryTexts(es[1..]), '}', []);
      assert es == [es[0]] + es[1..];
    } else {
      assert (['}'] + [])[1..] == [] && es == [es[0]];
    }
  }

  lemma ObjectRead(es: seq<Entry>)
    ensures ReadObject(['{'] + Closed(EntryTexts(es), '}', [])) == Some(es)
  {
    hide Join, EntryText, ReadEntries, Closed;
    var s := Closed(EntryTexts(es), '}', []);
    ClosedSteps(EntryTexts(es), '}', []);
    assert (['{'] + s)[1..] == s;
    if es == [] {
      assert ['{'] + s == ['{', '}'];
    } else {
      EntryTextsTail(es);
      EntryStarts(es[0]);
      assert s[0] == '\"' && (['{'] + s)[1] == '\"';
      EntriesRead(es);
    }
  }

  lemma CanonicalKeys(scopes: map<string, seq<string>>, i: nat, j: nat)
    requires i < j < |scopes|
    ensures var es := Canonical(scopes); CodeUnits.Less(es[i].0, es[j].0)
  {
    hide CodeUnits.Less, Canonical;
    CodeUnits.SortedAscends(scopes.Keys);
  }

  lemma CanonicalValues(scopes: map<string, seq<string>>, i: nat)
    requires i < |scopes|
    ensures var e := Canonical(scopes)[i];
            e.0 in scopes && CodeUnits.Ascending(e.1) && forall v :: v in e.1 <==> v in scopes[e.0]
  {
    hide Canonical;
    CodeUnits.SortedAscends(Members(scopes[Canonical(scopes)[i].0]));
  }

  /**
   * The canonical text is a JSON object: its members are the keys of the scopes in ascending order, each with the
   * values under it in ascending order, every value once.
   */
  lemma CanonicalReads(scopes: map<string, seq<string>>)
    ensures var r := ReadObject(CanonicalScopeJson(scopes));
            && r.Some? && |r.value| == |scopes|
            && (forall i :: 0 <= i < |r.value| ==> r.value[i].0 in scopes)
            && (forall i, j :: 0 <= i < j < |r.value| ==> CodeUnits.Less(r.value[i].0, r.value[j].0))
            && (forall i :: 0 <= i < |r.value| ==>
                  && CodeUnits.Ascending(r.value[i].1)
                  && forall v :: v in r.value[i].1 <==> v in scopes[r.value[i].0])
  {
    hide EntryTexts, Closed, CanonicalScopeJson, ReadObject, CodeUnits.Less, CodeUnits.Ascending, Canonical;
    CanonicalText(scopes);
    ObjectRead(Canonical(scopes));
    forall i: nat, j: nat | i < j < |scopes| ensures CodeUnits.Less(Canonical(scopes)[i].0, Canonical(scopes)[j].0) { CanonicalKeys(scopes, i, j); }
    forall i: nat | i < |scopes|
      ensures var e := Canonical(scopes)[i]; e.0 in scopes && CodeUnits.Ascending(e.1) && forall v :: v in e.1 <==> v in scopes[e.0]
    {
      CanonicalValues(scopes, i);
    }
  }
}
