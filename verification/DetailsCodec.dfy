/**
 * The PUSH_RESULT_DETAILS payload (packages/core/src/message.ts:447-475 and 983-1008). Its entries
 * carry JSON text, which the decoder parses and normalizes and the encoder normalizes and prints,
 * so the layout is lawful below that step only.
 */
module DetailsCodec {
  import opened Results
  import opened Hosts
  import opened Primitives
  import opened Formats
  import opened Messages
  import opened FrameRules
  import opened ByteIO
  import opened LoopTurns
  import opened RejectionDetails
  import FrameWriter
  import Utf8

  // ----- Below the JSON step: a commit id and indexed texts -------------------------------------------

  type RawEntry = (int, string)

  type RawDetails = (string, seq<RawEntry>)

  predicate DistinctRaw(es: seq<RawEntry>) { forall i, j :: 0 <= i < j < |es| ==> es[i].0 != es[j].0 }

  predicate RawInOrder(es: seq<RawEntry>) { (forall i :: 0 <= i < |es| ==> 0 <= es[i].0) && DistinctRaw(es) }

  function CheckRaw(x: RawDetails): Result<RawDetails> {
    if x.1 != [] && RawInOrder(x.1) then Ok(x) else Err(InvalidRequest)
  }

  function RawEntryFormat(): Format<RawEntry> { PairFormat(I32Format(), StrFormat()) }

  function RawFields(): Format<RawDetails> { PairFormat(NonEmptyStrFormat(), ListFormat(RawEntryFormat())) }

  function RawDetailsFormat(): Format<RawDetails> { ViaFormat(RawFields(), CheckRaw, Id) }

  lemma RawDetailsLawful()
    ensures Lawful(RawDetailsFormat(), 8) && Lawful(RawEntryFormat(), 8)
  {
    hide PairFormat, ViaFormat, ListFormat, Lawful, NonEmptyStrFormat, I32Format, StrFormat, RawInOrder;
    I32Lawful();
    StrLawful();
    NonEmptyStrLawful();
    PairLawful(I32Format(), 4, StrFormat(), 4);
    ListLawful(RawEntryFormat(), 8);
    PairLawful(NonEmptyStrFormat(), 4, ListFormat(RawEntryFormat()), 4);
    ViaLawful(RawFields(), 8, CheckRaw, Id);
  }

  // ----- The JSON step ---------------------------------------------------------------------------------

  /** The text the encoder prints for an entry whose details normalize. */
  function TextOf(host: Host, e: DetailsEntry): string {
    match Normalize(host, e.details)
    case Some(d) => host.jsonStringify(d)
    case None => ""
  }

  function RawEntries(host: Host, es: seq<DetailsEntry>): seq<RawEntry> {
    seq(|es|, i requires 0 <= i < |es| => (es[i].opIndex, TextOf(host, es[i])))
  }

  function RawOf(host: Host, f: Frame): RawDetails {
    if f.PushResultDetails? then (f.detailsOf, RawEntries(host, f.entries)) else ("", [])
  }

  /** `normalizeRejectionDetails(JSON.parse(text))`, or nothing where that throws. */
  function ParseDetails(host: Host, text: string): Option<Json> {
    match host.jsonParse(text)
    case Some(v) => Normalize(host, v)
    case None => None
  }

  predicate AllParse(host: Host, es: seq<RawEntry>) {
    forall i :: 0 <= i < |es| ==> ParseDetails(host, es[i].1).Some?
  }

  function ParseEntries(host: Host, es: seq<RawEntry>): seq<DetailsEntry>
    requires AllParse(host, es)
  {
    seq(|es|, i requires 0 <= i < |es| => DetailsEntry(es[i].0, ParseDetails(host, es[i].1).value))
  }

  function ToDetails(host: Host): RawDetails -> Result<Frame> {
    (x: RawDetails) =>
      if AllParse(host, x.1) then Ok(PushResultDetails(x.0, ParseEntries(host, x.1))) else Err(InvalidRequest)
  }

  function ReadDetails(host: Host, keepBom: bool, s: bytes): Parsed<Frame> {
    ReadVia(RawDetailsFormat(), ToDetails(host), keepBom, s)
  }

  /** The encoder's verdict on a details frame is the raw layout's on what it prints. */
  lemma DetailsFit(host: Host, v: int, f: Frame)
    requires f.PushResultDetails?
    requires forall i :: 0 <= i < |f.entries| ==> Normalize(host, f.entries[i].details).Some?
    ensures Fits(host, v, f) <==> RawDetailsFormat().ok(RawOf(host, f))
    ensures FrameClean(host, f) <==> RawDetailsFormat().clean(RawOf(host, f))
  {
    hide IsStr, Utf8.Clean, Normalize, NonEmptyStrFormat;
    var raw := RawOf(host, f);
    NonEmptyOk(f.detailsOf);
    ViaOk(RawFields(), CheckRaw, Id, raw);
    forall i | 0 <= i < |f.entries|
      ensures RawEntryFormat().ok(raw.1[i]) && 0 <= raw.1[i].0 <==> EntryFits(host, f.entries[i])
      ensures raw.1[i].0 == f.entries[i].opIndex
      ensures RawEntryFormat().clean(raw.1[i]) <==> Utf8.Clean(host.jsonStringify(Normalize(host, f.entries[i].details).value))
    {
    }
    assert DistinctRaw(raw.1) <==> DistinctIndexes(f.entries);
  }

  // ----- What is asked of the JSON engine -----------------------------------------------------------------

  /** Printing a normalized details object gives text that starts with a brace and parses back. */
  ghost predicate PrintsFaithfully(host: Host) {
    forall v :: Normalize(host, v).Some? ==> FaithfulAt(host, Normalize(host, v).value)
  }

  predicate FaithfulAt(host: Host, d: Json) {
    host.jsonParse(host.jsonStringify(d)) == Some(d) && Utf8.Clean(host.jsonStringify(d))
  }

  /** What is printed for normalized details is no longer than any text that parses to them. */
  ghost predicate PrintsCompactly(host: Host) {
    forall t :: ParseDetails(host, t).Some? ==> CompactAt(host, t)
  }

  predicate CompactAt(host: Host, t: string)
    requires ParseDetails(host, t).Some?
  {
    |Utf8.Encode(host.jsonStringify(ParseDetails(host, t).value))| <= |Utf8.Encode(t)|
  }

  // ----- Writing ---------------------------------------------------------------------------------------------

  ghost function PutEntries(host: Host, es: seq<DetailsEntry>, k: bytes): bytes {
    PutAll(RawEntryFormat(), RawEntries(host, es), k)
  }

  ghost function PutDetails(host: Host, f: Frame, k: bytes): bytes
    requires f.PushResultDetails?
  {
    PutStr(f.detailsOf, PutU32(|f.entries|, PutEntries(host, f.entries, k)))
  }

  lemma DetailsPut(host: Host, f: Frame, k: bytes)
    requires f.PushResultDetails?
    ensures Put(RawDetailsFormat(), RawOf(host, f), k) == PutDetails(host, f, k)
  {
    hide PutStr, PutU32, PutAll, NonEmptyStrFormat, RawEntryFormat, TextOf;
    var raw := RawOf(host, f);
    ViaPut(RawFields(), CheckRaw, Id, raw, k);
    FrameWriter.NonEmptyPut(raw.0, PutU32(|raw.1|, PutAll(RawEntryFormat(), raw.1, k)));
  }

  ghost function PutRawEntry(host: Host, e: DetailsEntry, k: bytes): bytes {
    PutI32(e.opIndex, PutStr(TextOf(host, e), k))
  }

  lemma RawEntryPut(host: Host, es: seq<DetailsEntry>, i: nat, k: bytes)
    requires i < |es|
    ensures |RawEntries(host, es)| == |es|
    ensures PutAll(RawEntryFormat(), RawEntries(host, es)[i..], k)
         == PutRawEntry(host, es[i], PutAll(RawEntryFormat(), RawEntries(host, es)[i + 1..], k))
  {
    hide PutI32, PutStr, TextOf;
    PutAllStep(RawEntryFormat(), RawEntries(host, es), i, k);
  }

  method WriteEntry(w: ByteWriter, host: Host, e: DetailsEntry) returns (o: Outcome)
    requires w.Valid()
    modifies w, w.buffer
    ensures w.Valid() && (w.buffer == old(w.buffer) || fresh(w.buffer))
    ensures o.Pass? <==> EntryFits(host, e)
    ensures o.Pass? ==> forall k: bytes :: w.Then(k) == old(w.Then(PutRawEntry(host, e, k)))
  {
    hide ByteWriter.Then, Put, PutI32, PutStr, IsStr, Normalize;
    if e.opIndex < 0 { return Refused; }
    :- w.I32(e.opIndex);
    var details := NormalizeRejectionDetails(host, e.details);
    if details.None? { return Refused; }
    o := w.Str(host.jsonStringify(details.value));
  }

  /** The loop over the entries, with its set of indexes seen. */
  method WriteEntries(w: ByteWriter, host: Host, es: seq<DetailsEntry>) returns (o: Outcome)
    requires w.Valid()
    modifies w, w.buffer
    ensures w.Valid() && (w.buffer == old(w.buffer) || fresh(w.buffer))
    ensures o.Pass? <==> DistinctIndexes(es) && forall i :: 0 <= i < |es| ==> EntryFits(host, es[i])
    ensures o.Pass? ==> forall k: bytes :: w.Then(k) == old(w.Then(PutEntries(host, es, k)))
  {
    hide ByteWriter.Then, Put, PutAll, PutRawEntry, EntryFits, RawEntryFormat, RawEntries;
    RawEntriesSize(host, es);
    assert RawEntries(host, es)[0..] == RawEntries(host, es);
    var seen: set<int> := {};
    for i := 0 to |es|
      invariant w.Valid() && (w.buffer == old(w.buffer) || fresh(w.buffer))
      invariant forall j :: 0 <= j < i ==> EntryFits(host, es[j])
      invariant forall j, k :: 0 <= j < k < i ==> es[j].opIndex != es[k].opIndex
      invariant forall x :: x in seen <==> exists j :: 0 <= j < i && es[j].opIndex == x
      invariant forall k: bytes ::
                  w.Then(PutAll(RawEntryFormat(), RawEntries(host, es)[i..], k)) == old(w.Then(PutEntries(host, es, k)))
    {
      if es[i].opIndex in seen { return Refused; }
      seen := seen + {es[i].opIndex};
      :- WriteEntry(w, host, es[i]);
      forall k: bytes
        ensures w.Then(PutAll(RawEntryFormat(), RawEntries(host, es)[i + 1..], k)) == old(w.Then(PutEntries(host, es, k)))
      {
        RawEntryPut(host, es, i, k);
      }
    }
    forall k: bytes ensures w.Then(k) == old(w.Then(PutEntries(host, es, k))) {
      PutAllBounds(RawEntryFormat(), RawEntries(host, es), k);
    }
    return Pass;
  }

  lemma RawEntriesSize(host: Host, es: seq<DetailsEntry>)
    ensures |RawEntries(host, es)| == |es|
  {
  }

  method WriteDetails(w: ByteWriter, host: Host, f: Frame) returns (o: Outcome)
    requires w.Valid() && f.PushResultDetails?
    modifies w, w.buffer
    ensures w.Valid() && (w.buffer == old(w.buffer) || fresh(w.buffer))
    ensures o.Pass? <==> Fits(host, 0, f)
    ensures o.Pass? ==> forall k: bytes :: w.Then(k) == old(w.Then(PutDetails(host, f, k)))
  {
    hide ByteWriter.Then, Put, PutStr, PutU32, PutEntries, IsStr, EntryFits, DistinctIndexes;
    if f.detailsOf == [] { return Refused; }
    if |f.entries| == 0 { return Refused; }
    :- w.Str(f.detailsOf);
    :- w.U32(|f.entries|);
    o := WriteEntries(w, host, f.entries);
  }

  /** The work of a frame decoder is paid for by bytes, with one turn to spare for each pass of the validator. */
  ghost predicate FrameWithin(r: ByteReader, credit: nat, slack: nat, res: Result<Frame>)
    requires r.Valid()
    reads r
  {
    if res.Ok? then r.Credit() + 8 + Passes(res.value) <= credit else r.turns <= credit + slack
  }

  // ----- Reading -----------------------------------------------------------------------------------------------

  predicate Indexed(es: seq<DetailsEntry>, i: int) { exists j :: 0 <= j < |es| && es[j].opIndex == i }

  /** The rest of the loop, `done` being what it has pushed. */
  ghost function ReadEntries(host: Host, n: nat, s: bytes, done: seq<DetailsEntry>): Parsed<seq<DetailsEntry>> {
    if n == 0 then Parsed(done, s) else
    var (i, s1) :- ReadI32(s);
    if i < 0 || Indexed(done, i) then Failed(InvalidRequest) else
    var (t, s2) :- ReadStr(false, s1);
    match ParseDetails(host, t)
    case None => Failed(InvalidRequest)
    case Some(d) => ReadEntries(host, n - 1, s2, done + [DetailsEntry(i, d)])
  }

  /** The entries still to come are usable after those already read. */
  predicate UsableAfter(host: Host, done: seq<DetailsEntry>, es: seq<RawEntry>) {
    && RawInOrder(es) && AllParse(host, es)
    && forall i :: 0 <= i < |es| ==> !Indexed(done, es[i].0)
  }

  lemma UsableStep(host: Host, done: seq<DetailsEntry>, e: RawEntry, es: seq<RawEntry>)
    requires 0 <= e.0 && !Indexed(done, e.0) && ParseDetails(host, e.1).Some?
    ensures var next := done + [DetailsEntry(e.0, ParseDetails(host, e.1).value)];
            UsableAfter(host, done, [e] + es) <==> UsableAfter(host, next, es)
  {
    hide ParseDetails;
    var d := ParseDetails(host, e.1).value;
    var next := done + [DetailsEntry(e.0, d)];
    var all := [e] + es;
    forall i ensures Indexed(next, i) <==> Indexed(done, i) || i == e.0 {
      if Indexed(done, i) {
        var j :| 0 <= j < |done| && done[j].opIndex == i;
        assert next[j].opIndex == i;
      }
      assert next[|done|].opIndex == e.0;
    }
    assert all[1..] == es;
    if UsableAfter(host, done, all) {
      forall i | 0 <= i < |es| ensures es[i] == all[i + 1] && !Indexed(next, es[i].0) {
        assert all[0].0 != all[i + 1].0;
      }
    }
    if UsableAfter(host, next, es) {
      forall i | 0 <= i < |all|
        ensures 0 <= all[i].0 && ParseDetails(host, all[i].1).Some? && !Indexed(done, all[i].0)
      {
        if i > 0 { assert all[i] == es[i - 1]; }
      }
      forall i, j | 0 <= i < j < |all| ensures all[i].0 != all[j].0 {
        assert all[j] == es[j - 1];
        if i > 0 { assert all[i] == es[i - 1]; }
      }
    }
  }

  /** What the loop makes of the raw entries. */
  ghost function Conclude(host: Host, done: seq<DetailsEntry>, p: Parsed<seq<RawEntry>>): Parsed<seq<DetailsEntry>> {
    match p
    case Failed(_) => Failed(InvalidRequest)
    case Parsed(es, k) =>
      if UsableAfter(host, done, es) then Parsed(done + ParseEntries(host, es), k) else Failed(InvalidRequest)
  }

  lemma RawEntryRead(n: nat, s: bytes)
    requires n > 0
    ensures ReadAll(RawEntryFormat(), false, n, s) == RawTurn(n, s)
  {
    hide ReadI32, ReadStr;
  }

  ghost function RawTurn(n: nat, s: bytes): Parsed<seq<RawEntry>>
    requires n > 0
  {
    var (i, s1) :- ReadI32(s);
    var (t, s2) :- ReadStr(false, s1);
    var (es, k) :- ReadAll(RawEntryFormat(), false, n - 1, s2);
    Parsed([(i, t)] + es, k)
  }

  lemma ScalarsPlain(s: bytes)
    ensures ReadI32(s).Failed? ==> ReadI32(s).code == InvalidRequest
    ensures ReadStr(false, s).Failed? ==> ReadStr(false, s).code == InvalidRequest
    ensures ReadU32(s).Failed? ==> ReadU32(s).code == InvalidRequest
  {
  }

  lemma {:induction false} EntriesRead(host: Host, n: nat, s: bytes, done: seq<DetailsEntry>)
    ensures ReadEntries(host, n, s, done) == Conclude(host, done, ReadAll(RawEntryFormat(), false, n, s))
    decreases n, 1
  {
    hide ReadI32, ReadStr, RawEntryFormat, ParseDetails;
    if n == 0 {
      assert done + ParseEntries(host, []) == done;
    } else {
      RawEntryRead(n, s);
      ScalarsPlain(s);
      if ReadI32(s).Parsed? {
        var i, s1 := ReadI32(s).value, ReadI32(s).rest;
        ScalarsPlain(s1);
        if ReadStr(false, s1).Parsed? {
          var t, s2 := ReadStr(false, s1).value, ReadStr(false, s1).rest;
          EntriesTail(host, n, i, t, s2, done);
        }
      }
    }
  }

  ghost function Prepend(e: RawEntry, p: Parsed<seq<RawEntry>>): Parsed<seq<RawEntry>> {
    match p
    case Parsed(es, k) => Parsed([e] + es, k)
    case Failed(c) => Failed(c)
  }

  /** One entry off the front, in both readings. */
  lemma {:induction false} EntriesTail(host: Host, n: nat, i: int, t: string, s2: bytes, done: seq<DetailsEntry>)
    requires n > 0
    ensures Conclude(host, done, Prepend((i, t), ReadAll(RawEntryFormat(), false, n - 1, s2)))
         == if i < 0 || Indexed(done, i) || ParseDetails(host, t).None? then Failed(InvalidRequest)
            else ReadEntries(host, n - 1, s2, done + [DetailsEntry(i, ParseDetails(host, t).value)])
    decreases n, 0
  {
    hide RawEntryFormat, ParseDetails, ReadI32, ReadStr;
    var tail := ReadAll(RawEntryFormat(), false, n - 1, s2);
    if i < 0 || Indexed(done, i) || ParseDetails(host, t).None? {
      if tail.Parsed? { assert ([(i, t)] + tail.value)[0] == (i, t); }
    } else {
      var next := done + [DetailsEntry(i, ParseDetails(host, t).value)];
      EntriesRead(host, n - 1, s2, next);
      if tail.Parsed? {
        UsableStep(host, done, (i, t), tail.value);
        if UsableAfter(host, next, tail.value) {
          assert done + ParseEntries(host, [(i, t)] + tail.value) == next + ParseEntries(host, tail.value);
        }
      }
    }
  }

  ghost function ReadDetailsSpec(host: Host, s: bytes): Parsed<Frame> {
    var (id, s1) :- ReadStr(false, s);
    if id == [] then Failed(InvalidRequest) else
    var (count, s2) :- ReadU32(s1);
    if count == 0 then Failed(InvalidRequest) else
    var (entries, k) :- ReadEntries(host, count, s2, []);
    Parsed(PushResultDetails(id, entries), k)
  }

  lemma RawFieldsRead(s: bytes)
    ensures RawFields().read(false, s) == RawFieldsSpec(s)
  {
    hide ReadStr, ReadU32, ReadAll, RawEntryFormat;
    assert NonEmptyStrFormat().read(false, s) == ReadVia(StrFormat(), CheckNonEmpty, false, s);
  }

  ghost function RawFieldsSpec(s: bytes): Parsed<RawDetails> {
    var (id, s1) :- ReadStr(false, s);
    if id == [] then Failed(InvalidRequest) else
    var (count, s2) :- ReadU32(s1);
    var (es, k) :- ReadAll(RawEntryFormat(), false, count, s2);
    Parsed((id, es), k)
  }

  lemma DetailsRead(host: Host, s: bytes)
    ensures ReadDetails(host, false, s) == ReadDetailsSpec(host, s)
  {
    hide ReadStr, ReadU32, ReadAll, RawFields, RawEntryFormat, ReadEntries, ParseDetails;
    RawFieldsRead(s);
    ScalarsPlain(s);
    if ReadStr(false, s).Parsed? && ReadStr(false, s).value != [] {
      var s1 := ReadStr(false, s).rest;
      ScalarsPlain(s1);
      if ReadU32(s1).Parsed? {
        var count, s2 := ReadU32(s1).value, ReadU32(s1).rest;
        EntriesRead(host, count, s2, []);
        RawCount(count, s2);
        var p := ReadAll(RawEntryFormat(), false, count, s2);
        if p.Parsed? && AllParse(host, p.value) {
          assert [] + ParseEntries(host, p.value) == ParseEntries(host, p.value);
        }
      }
    }
  }

  lemma RawCount(n: nat, s: bytes)
    ensures var p := ReadAll(RawEntryFormat(), false, n, s);
            if p.Parsed? then |p.value| == n else p.code == InvalidRequest
  {
    hide ReadAll, Lawful;
    RawDetailsLawful();
    assert Lawful(RawEntryFormat(), 8);
    var p := ReadAll(RawEntryFormat(), false, n, s);
    if p.Parsed? {
      LawfulReads(RawEntryFormat(), 8);
      ReadAllSound(RawEntryFormat(), 8, false, n, s);
    } else {
      RawPlain();
      ReadAllPlain(RawEntryFormat(), n, s);
    }
  }

  lemma RawPlain()
    ensures Plain(RawEntryFormat())
  {
    hide ReadI32, ReadStr;
    forall s ensures PlainAt(RawEntryFormat(), s) {
      ScalarsPlain(s);
      if ReadI32(s).Parsed? { ScalarsPlain(ReadI32(s).rest); }
    }
  }

  lemma LawfulReads<T(!new)>(f: Format<T>, least: nat)
    requires Lawful(f, least)
    ensures Sound(f, least) && Additive(f)
  {
  }

  method ReadDetailsEntries(r: ByteReader, host: Host, count: nat) returns (res: Result<seq<DetailsEntry>>, ghost turns: nat)
    requires r.Valid()
    modifies r
    ensures r.Valid() && Follows(ReadEntries(host, count, old(r.Rest()), []), res, r.Rest())
    ensures turns <= Turns(RawEntryFormat(), false, count, old(r.Rest()))
    ensures r.WithinLoop(old(r.Credit()), 1, res.Ok?)
    ensures res.Ok? ==> r.Credit() + |res.value| <= old(r.Credit())
  {
    hide ReadI32, ReadStr, Normalize, RawEntryFormat, Turns;
    var entries: seq<DetailsEntry> := [];
    var seen: set<int> := {};
    ghost var f, whole := RawEntryFormat(), ReadEntries(host, count, r.Rest(), []);
    turns := 0;
    for i := 0 to count
      invariant r.Valid()
      invariant forall x :: x in seen <==> Indexed(entries, x)
      invariant whole == ReadEntries(host, count - i, r.Rest(), entries)
      invariant turns + Turns(f, false, count - i, r.Rest()) == Turns(f, false, count, old(r.Rest()))
      invariant r.Credit() + |entries| <= old(r.Credit())
    {
      TurnsStep(f, count - i, r.Rest());
      RawEntryParts(r.Rest());
      turns := turns + 1;
      r.turns := r.turns + 1;
      var opIndex := r.I32();
      if opIndex.Err? { return Err(opIndex.code), turns; }
      if opIndex.value < 0 || opIndex.value in seen { return Err(InvalidRequest), turns; }
      seen := seen + {opIndex.value};
      ScalarsPlain(r.Rest());
      var text := r.Str();
      if text.Err? { return Err(text.code), turns; }
      var parsed := host.jsonParse(text.value);
      if parsed.None? { return Err(InvalidRequest), turns; }
      var details := NormalizeRejectionDetails(host, parsed.value);
      if details.None? { return Err(InvalidRequest), turns; }
      var e := DetailsEntry(opIndex.value, details.value);
      IndexedSnoc(entries, e);
      entries := entries + [e];
    }
    TurnsEnd(f, r.Rest());
    return Ok(entries), turns;
  }

  lemma RawEntryParts(s: bytes)
    ensures ReadI32(s).Parsed? && ReadStr(false, ReadI32(s).rest).Parsed? ==>
              RawEntryFormat().read(false, s).Parsed? && RawEntryFormat().read(false, s).rest == ReadStr(false, ReadI32(s).rest).rest
  {
    hide ReadI32, ReadStr;
  }

  lemma IndexedSnoc(es: seq<DetailsEntry>, e: DetailsEntry)
    ensures forall x :: Indexed(es + [e], x) <==> Indexed(es, x) || x == e.opIndex
  {
    var next := es + [e];
    assert next[|es|] == e;
    forall x ensures Indexed(next, x) <==> Indexed(es, x) || x == e.opIndex {
      if Indexed(es, x) {
        var j :| 0 <= j < |es| && es[j].opIndex == x;
        assert next[j].opIndex == x;
      }
    }
  }

  method DecodeDetails(r: ByteReader, host: Host) returns (res: Result<Frame>)
    requires r.Valid()
    modifies r
    ensures r.Valid() && Follows(ReadDetails(host, false, old(r.Rest())), res, r.Rest())
    ensures FrameWithin(r, old(r.Credit()), 1, res)
  {
    hide ReadStr, ReadU32, ReadDetails, ReadEntries;
    DetailsRead(host, r.Rest());
    var id :- r.Str();
    if id == [] { return Err(InvalidRequest); }
    var count :- r.U32();
    if count == 0 { return Err(InvalidRequest); }
    var entries, turns :- ReadDetailsEntries(r, host, count);
    return Ok(PushResultDetails(id, entries));
  }
}
