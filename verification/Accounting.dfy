/**
 * The two consumers of a decoded response: `account` of load/src/vclient.ts and `responseSections` of
 * packages/conformance/src/raw.ts.
 */
module Accounting {
  import opened Results
  import opened Hosts
  import opened Formats
  import opened Messages
  import opened FrameRules
  import opened Grammar
  import opened ResponseGrammar
  import opened Envelope
  import opened MessageLaws
  import SegmentCodec
  import SegmentIO
  import SegmentLaws
  import SegmentContract

  // ----- Sections of a frame list --------------------------------------------------------------------

  predicate IsEdge(f: Frame) { f.SubStart? || f.SubEnd? }

  /** The frames at `i` and `j` are the two ends of one section. */
  predicate Section(fs: seq<Frame>, i: nat, j: nat) {
    && i < j < |fs| && fs[i].SubStart? && fs[j].SubEnd?
    && forall k :: i < k < j ==> !IsEdge(fs[k])
  }

  /** The section open in front of frame `j`: where it starts. */
  function OpenAt(fs: seq<Frame>, j: nat): (start: Option<nat>)
    requires j <= |fs|
    ensures start.Some? ==> start.value < j && fs[start.value].SubStart?
  {
    if j == 0 then None
    else if fs[j - 1].SubStart? then Some(j - 1)
    else if fs[j - 1].SubEnd? then None
    else OpenAt(fs, j - 1)
  }

  /** What `OpenAt` means, without its recursion. */
  lemma {:induction false} OpenMeans(fs: seq<Frame>, i: nat, j: nat)
    requires j <= |fs|
    ensures OpenAt(fs, j) == Some(i) <==> i < j && fs[i].SubStart? && forall k :: i < k < j ==> !IsEdge(fs[k])
  {
    if j > 0 && !IsEdge(fs[j - 1]) { OpenMeans(fs, i, j - 1); }
  }

  lemma SectionIsOpen(fs: seq<Frame>, i: nat, j: nat)
    requires j < |fs| && fs[j].SubEnd?
    ensures Section(fs, i, j) <==> OpenAt(fs, j) == Some(i)
  {
    OpenMeans(fs, i, j);
  }

  predicate NoErrors(fs: seq<Frame>) { forall i :: 0 <= i < |fs| ==> !fs[i].ErrorFrame? }

  // ----- The grammar closes every section -------------------------------------------------------------

  lemma PrefixRuns(s: ResponseState, ts: seq<Token>, j: nat)
    requires ResponseRun(s, ts).Some? && j <= |ts|
    ensures ResponseRun(s, ts[..j]).Some?
  {
    assert ts == ts[..j] + ts[j..];
    RunConcat(s, ts[..j], ts[j..]);
  }

  /** The validator's flag says whether a section is open. */
  lemma {:induction false} FlagIsOpen(fs: seq<Frame>, j: nat)
    requires AcceptsResponse(Tokens(fs)) && NoErrors(fs) && 1 <= j <= |fs|
    ensures var r := ResponseRun(ResponseStart, Tokens(fs)[1..j]);
            r.Some? && (r.value.inSubscription <==> OpenAt(fs, j).Some?) && !r.value.errorSeen
    decreases j
  {
    hide ErrorIndexes, EntryIndexes, Matches, ResponseRun;
    var ts := Tokens(fs);
    assert ts[1..][..j - 1] == ts[1..j];
    PrefixRuns(ResponseStart, ts[1..], j - 1);
    if j == 1 {
      assert ts[1..1] == [];
      NothingRuns(ResponseStart);
    } else {
      FlagIsOpen(fs, j - 1);
      assert ts[1..j] == ts[1..j - 1] + [ts[j - 1]];
      RunConcat(ResponseStart, ts[1..j - 1], [ts[j - 1]]);
      RunOne(ResponseRun(ResponseStart, ts[1..j - 1]).value, ts[j - 1]);
      assert !fs[j - 1].ErrorFrame?;
      StepFlag(ResponseRun(ResponseStart, ts[1..j - 1]).value, fs[j - 1]);
    }
  }

  lemma NothingRuns(s: ResponseState)
    ensures ResponseRun(s, []) == Some(s)
  {
  }

  lemma StepToken(s: ResponseState, t: Token)
    requires !t.TError? && ResponseStep(s, t).Some?
    ensures var n := ResponseStep(s, t).value;
            && n.errorSeen == s.errorSeen
            && n.inSubscription == (if t.TSubStart? then true else if t.TSubEnd? then false else s.inSubscription)
            && (t.TSubEnd? || t.TCommit? || t.TSegment? ==> s.inSubscription)
            && (t.TSubStart? ==> !s.inSubscription)
  {
    hide Matches;
    match t
    case TSubStart =>
    case TSubEnd =>
    case TCommit =>
    case TSegment =>
    case TDetails(_, _) =>
    case TResult(_, _, _) =>
    case TLease =>
    case _ =>
  }

  lemma TokenKind(f: Frame)
    ensures TokenOf(f).TError? <==> f.ErrorFrame?
    ensures TokenOf(f).TSubStart? <==> f.SubStart?
    ensures TokenOf(f).TSubEnd? <==> f.SubEnd?
    ensures TokenOf(f).TCommit? <==> f.Commit?
    ensures TokenOf(f).TSegment? <==> f.SegmentRef? || f.SegmentInline?
  {
    hide ErrorIndexes, EntryIndexes;
  }

  lemma StepFlag(s: ResponseState, f: Frame)
    requires !f.ErrorFrame? && ResponseStep(s, TokenOf(f)).Some?
    ensures var t := ResponseStep(s, TokenOf(f)).value;
            && t.errorSeen == s.errorSeen
            && t.inSubscription == (if f.SubStart? then true else if f.SubEnd? then false else s.inSubscription)
            && (f.SubEnd? || f.Commit? || f.SegmentRef? || f.SegmentInline? ==> s.inSubscription)
            && (f.SubStart? ==> !s.inSubscription)
  {
    hide TokenOf, ResponseStep;
    TokenKind(f);
    StepToken(s, TokenOf(f));
  }

  /**
   * In a response the grammar accepts, with no ERROR in it, every SUB_END closes the section of one
   * SUB_START, and commits and segments stand inside a section.
   */
  lemma EndsHaveStarts(fs: seq<Frame>, j: nat)
    requires AcceptsResponse(Tokens(fs)) && NoErrors(fs) && j < |fs|
    ensures fs[j].SubEnd? || fs[j].Commit? || fs[j].SegmentRef? || fs[j].SegmentInline? ==> OpenAt(fs, j).Some?
    ensures fs[j].SubEnd? ==> OpenAt(fs, j).Some? && Section(fs, OpenAt(fs, j).value, j)
    ensures fs[j].SubStart? ==> OpenAt(fs, j).None?
  {
    hide TokenOf, ResponseRun, ResponseStep, OpenAt, Section;
    var ts := Tokens(fs);
    if j > 0 {
      FlagIsOpen(fs, j);
      FlagIsOpen(fs, j + 1);
      assert ts[1..j + 1] == ts[1..j] + [ts[j]];
      RunConcat(ResponseStart, ts[1..j], [ts[j]]);
      RunOne(ResponseRun(ResponseStart, ts[1..j]).value, ts[j]);
      StepFlag(ResponseRun(ResponseStart, ts[1..j]).value, fs[j]);
    }
    if j == 0 { StartsWithHeader(fs); }
    if fs[j].SubEnd? { SectionIsOpen(fs, OpenAt(fs, j).value, j); }
  }

  lemma StartsWithHeader(fs: seq<Frame>)
    requires AcceptsResponse(Tokens(fs))
    ensures fs[0].RespHeader?
  {
    TokenAt(fs, 0);
  }

  lemma {:induction false} FindEnd(fs: seq<Frame>, i: nat, k: nat) returns (j: nat)
    requires i < k <= |fs| && fs[i].SubStart? && OpenAt(fs, k) != Some(i)
    requires forall n :: i < n < |fs| && fs[n].SubStart? ==> OpenAt(fs, n).None?
    ensures Section(fs, i, j)
    decreases k
  {
    if k == i + 1 {
      assert false;
    } else if OpenAt(fs, k - 1) == Some(i) {
      OpenMeans(fs, i, k - 1);
      j := k - 1;
      assert IsEdge(fs[j]);
    } else {
      j := FindEnd(fs, i, k - 1);
    }
  }

  /** And every SUB_START is closed by one SUB_END. */
  lemma StartsHaveEnds(fs: seq<Frame>, i: nat) returns (j: nat)
    requires AcceptsResponse(Tokens(fs)) && NoErrors(fs) && i < |fs| && fs[i].SubStart?
    ensures Section(fs, i, j)
  {
    hide ErrorIndexes, EntryIndexes, Matches, ResponseRun;
    var ts := Tokens(fs);
    FlagIsOpen(fs, |fs|);
    assert ts[1..|fs|] == ts[1..];
    forall n | i < n < |fs| && fs[n].SubStart? ensures OpenAt(fs, n).None? { EndsHaveStarts(fs, n); }
    j := FindEnd(fs, i, |fs|);
  }

  /** Sections do not overlap: a frame is in one of them at most. */
  lemma SectionsDisjoint(fs: seq<Frame>, i: nat, j: nat, m: nat, n: nat, k: nat)
    requires Section(fs, i, j) && Section(fs, m, n) && i <= k <= j && m <= k <= n
    ensures i == m && j == n
  {
    assert IsEdge(fs[i]) && IsEdge(fs[j]) && IsEdge(fs[m]) && IsEdge(fs[n]);
  }

  // ----- `account` ----------------------------------------------------------------------------------------

  datatype SubState = SubState(table: string, scopes: ScopeMap, cursor: int, bootstrapState: Option<string>)

  datatype Tally = Tally(appliedRows: int, bootstrapComplete: bool)

  /** The frame at `j` ends a section of the subscription `id`. */
  predicate Closes(fs: seq<Frame>, j: nat, id: string) {
    j < |fs| && fs[j].SubEnd? && OpenAt(fs, j).Some? && fs[OpenAt(fs, j).value].subId == id
  }

  /** A subscription after the first `n` frames: as its last SUB_END among them left it. */
  function After(s: SubState, fs: seq<Frame>, id: string, n: nat): SubState
    requires n <= |fs|
  {
    if n == 0 then s
    else if Closes(fs, n - 1, id) then s.(cursor := fs[n - 1].nextCursor, bootstrapState := fs[n - 1].bootstrapState)
    else After(s, fs, id, n - 1)
  }

  function RowsIn(blocks: seq<seq<SegmentCodec.SegmentRow>>, n: nat): nat
    requires n <= |blocks|
  {
    if n == 0 then 0 else RowsIn(blocks, n - 1) + |blocks[n - 1]|
  }

  function RowsOf(host: Host, f: Frame): int {
    match f
    case SegmentInline(payload) =>
      (match ReadWhole(SegmentCodec.SegmentFormat(host), false, payload)
       case Ok(g) => RowsIn(g.blocks, |g.blocks|)
       case Err(_) => 0)
    case SegmentRef(_, _, _, _, rowCount, _, _, _, _, _, _) => rowCount
    case Commit(_, _, _, _, changes) => |changes|
    case _ => 0
  }

  /** The rows of all blocks, one behind the other. */
  function AllRows(blocks: seq<seq<SegmentCodec.SegmentRow>>): seq<SegmentCodec.SegmentRow> {
    if blocks == [] then [] else blocks[0] + AllRows(blocks[1..])
  }

  lemma {:induction false} AllRowsSnoc(blocks: seq<seq<SegmentCodec.SegmentRow>>, n: nat)
    requires n < |blocks|
    ensures AllRows(blocks[..n + 1]) == AllRows(blocks[..n]) + blocks[n]
  {
    if n > 0 {
      AllRowsSnoc(blocks[1..], n - 1);
      assert blocks[..n + 1][1..] == blocks[1..][..n] && blocks[..n][1..] == blocks[1..][..n - 1];
    } else {
      assert blocks[..1][1..] == [] && blocks[..0] == [];
    }
  }

  lemma {:induction false} RowsInCounts(blocks: seq<seq<SegmentCodec.SegmentRow>>, n: nat)
    requires n <= |blocks|
    ensures RowsIn(blocks, n) == |AllRows(blocks[..n])|
  {
    if n > 0 {
      RowsInCounts(blocks, n - 1);
      AllRowsSnoc(blocks, n - 1);
    }
  }

  /** What a frame adds to `appliedRows`: the rows of its inline segment, its row count, its changes, or nothing. */
  lemma FrameRows(host: Host, f: Frame, g: SegmentCodec.RowsSegment)
    ensures SegmentIO.SegmentWritable(host, g) && SegmentLaws.SegmentReadable(host, g) && SegmentLaws.SegmentClean(g) ==>
              RowsOf(host, SegmentInline(SegmentContract.SegmentBytes(g))) == |AllRows(g.blocks)|
    ensures f.SegmentRef? ==> RowsOf(host, f) == f.rowCount
    ensures f.Commit? ==> RowsOf(host, f) == |f.changes|
    ensures !f.SegmentInline? && !f.SegmentRef? && !f.Commit? ==> RowsOf(host, f) == 0
  {
    hide SegmentIO.SegmentWritable, SegmentLaws.SegmentReadable, SegmentLaws.SegmentClean, SegmentContract.SegmentBytes, SegmentCodec.SegmentFormat;
    if SegmentIO.SegmentWritable(host, g) && SegmentLaws.SegmentReadable(host, g) && SegmentLaws.SegmentClean(g) {
      SegmentContract.SegmentLayout(host, g);
      SegmentLaws.SegmentRoundTrip(host, g);
      RowsInCounts(g.blocks, |g.blocks|);
      assert g.blocks[..|g.blocks|] == g.blocks;
    }
  }

  function RowsUpTo(host: Host, fs: seq<Frame>, n: nat): int
    requires n <= |fs|
  {
    if n == 0 then 0 else RowsUpTo(host, fs, n - 1) + RowsOf(host, fs[n - 1])
  }

  predicate InlineDecodes(host: Host, f: Frame) {
    f.SegmentInline? ==> ReadWhole(SegmentCodec.SegmentFormat(host), false, f.segment).Ok?
  }

  method CountRows(blocks: seq<seq<SegmentCodec.SegmentRow>>) returns (rows: nat)
    ensures rows == RowsIn(blocks, |blocks|)
  {
    rows := 0;
    for i := 0 to |blocks|
      invariant rows == RowsIn(blocks, i)
    {
      rows := rows + |blocks[i]|;
    }
  }

  method HasErrorFrame(fs: seq<Frame>) returns (found: bool)
    ensures found <==> !NoErrors(fs)
  {
    for i := 0 to |fs|
      invariant forall j :: 0 <= j < i ==> !fs[j].ErrorFrame?
    {
      if fs[i].ErrorFrame? { return true; }
    }
    return false;
  }

  class VClient {
    var subs: map<string, SubState>

    constructor (subs: map<string, SubState>)
      ensures this.subs == subs
    {
      this.subs := subs;
    }

    /**
     * Throws exactly on an ERROR frame, before anything changes, and on an inline segment that does
     * not decode. Otherwise every subscription is as the last section of its own left it, the rows
     * are those of all frames, and the bootstrap is complete exactly when no section of a
     * known subscription ended with a bootstrap state.
     */
    method Account(host: Host, fs: seq<Frame>) returns (r: Option<Tally>)
      modifies this
      ensures !NoErrors(fs) ==> r.None? && subs == old(subs)
      ensures r.Some? <==> NoErrors(fs) && forall i :: 0 <= i < |fs| ==> InlineDecodes(host, fs[i])
      ensures subs.Keys == old(subs).Keys
      ensures r.Some? ==> forall id :: id in subs ==> subs[id] == After(old(subs)[id], fs, id, |fs|)
      ensures r.Some? ==> r.value.appliedRows == RowsUpTo(host, fs, |fs|)
      ensures r.Some? ==> (r.value.bootstrapComplete <==>
                             forall j: nat, id :: Closes(fs, j, id) && id in old(subs) ==> fs[j].bootstrapState.None?)
    {
      hide SegmentCodec.SegmentFormat, ReadWhole, After, Closes, OpenAt, AllDone, Known;
      var failed := HasErrorFrame(fs);
      if failed { return None; }
      var appliedRows, bootstrapComplete := 0, true;
      NothingClosed(subs, fs);
      var currentSub: Option<string> := None;
      for n := 0 to |fs|
        invariant subs == StatesAt(old(subs), fs, n)
        invariant appliedRows == RowsUpTo(host, fs, n)
        invariant forall i :: 0 <= i < n ==> InlineDecodes(host, fs[i])
        invariant currentSub == Known(old(subs), fs, n)
        invariant bootstrapComplete <==> AllDone(old(subs), fs, n)
      {
        var f := fs[n];
        NextFrame(old(subs), fs, n);
        NextStates(old(subs), fs, n);
        if f.SubStart? {
          currentSub := if f.subId in subs then Some(f.subId) else None;
        } else if f.SegmentInline? {
          var segment, _ := SegmentIO.DecodeRowsSegment(host, f.segment);
          if segment.Err? { return None; }
          var rows := CountRows(segment.value.blocks);
          appliedRows := appliedRows + rows;
        } else if f.SegmentRef? {
          appliedRows := appliedRows + f.rowCount;
        } else if f.Commit? {
          appliedRows := appliedRows + |f.changes|;
        } else if f.SubEnd? {
          if currentSub.Some? {
            subs := subs[currentSub.value := subs[currentSub.value].(cursor := f.nextCursor, bootstrapState := f.bootstrapState)];
            if f.bootstrapState.Some? { bootstrapComplete := false; }
          }
          currentSub := None;
        }
      }
      return Some(Tally(appliedRows, bootstrapComplete));
    }
  }

  ghost function StatesAt(subs: map<string, SubState>, fs: seq<Frame>, n: nat): map<string, SubState>
    requires n <= |fs|
  {
    map id | id in subs :: After(subs[id], fs, id, n)
  }

  lemma {:induction false} AfterKeeps(s: SubState, fs: seq<Frame>, id: string, n: nat)
    requires n <= |fs|
    ensures After(s, fs, id, n).table == s.table && After(s, fs, id, n).scopes == s.scopes
  {
    hide Closes;
    if n > 0 && !Closes(fs, n - 1, id) { AfterKeeps(s, fs, id, n - 1); }
  }

  lemma NextStates(subs: map<string, SubState>, fs: seq<Frame>, n: nat)
    requires n < |fs|
    ensures var known, now := Known(subs, fs, n), StatesAt(subs, fs, n);
            StatesAt(subs, fs, n + 1)
              == if fs[n].SubEnd? && known.Some?
                 then now[known.value := now[known.value].(cursor := fs[n].nextCursor, bootstrapState := fs[n].bootstrapState)]
                 else now
  {
    hide Closes;
    NextFrame(subs, fs, n);
    forall id | id in subs ensures After(subs[id], fs, id, n).table == subs[id].table && After(subs[id], fs, id, n).scopes == subs[id].scopes {
      AfterKeeps(subs[id], fs, id, n);
    }
  }

  lemma NothingClosed(subs: map<string, SubState>, fs: seq<Frame>)
    ensures AllDone(subs, fs, 0) && Known(subs, fs, 0) == None && StatesAt(subs, fs, 0) == subs
    ensures AllDone(subs, fs, |fs|) <==> forall j: nat, id :: Closes(fs, j, id) && id in subs ==> fs[j].bootstrapState.None?
  {
    assert forall j: nat, id :: Closes(fs, j, id) ==> j < |fs|;
  }

  /** The known subscription whose section is open in front of frame `n`. */
  ghost function Known(subs: map<string, SubState>, fs: seq<Frame>, n: nat): Option<string>
    requires n <= |fs|
  {
    if OpenAt(fs, n).Some? && fs[OpenAt(fs, n).value].subId in subs then Some(fs[OpenAt(fs, n).value].subId) else None
  }

  ghost predicate AllDone(subs: map<string, SubState>, fs: seq<Frame>, n: nat) {
    forall j: nat, id :: j < n && Closes(fs, j, id) && id in subs ==> fs[j].bootstrapState.None?
  }

  lemma NextFrame(subs: map<string, SubState>, fs: seq<Frame>, n: nat)
    requires n < |fs|
    ensures AllDone(subs, fs, n + 1) <==>
              AllDone(subs, fs, n) && (fs[n].SubEnd? && Known(subs, fs, n).Some? ==> fs[n].bootstrapState.None?)
    ensures fs[n].SubEnd? ==> forall id :: id in subs ==> (Closes(fs, n, id) <==> Known(subs, fs, n) == Some(id))
    ensures !fs[n].SubEnd? ==> forall id :: !Closes(fs, n, id)
    ensures Known(subs, fs, n + 1) == if fs[n].SubStart? then (if fs[n].subId in subs then Some(fs[n].subId) else None)
                                      else if fs[n].SubEnd? then None else Known(subs, fs, n)
  {
    if fs[n].SubEnd? && Known(subs, fs, n).Some? { assert Closes(fs, n, Known(subs, fs, n).value); }
  }

  /** A SUB_END updates the subscription its own SUB_START named. */
  lemma ClosesItsSection(fs: seq<Frame>, j: nat, id: string)
    ensures Closes(fs, j, id) <==> exists i: nat :: Section(fs, i, j) && fs[i].subId == id
  {
    if Closes(fs, j, id) { SectionIsOpen(fs, OpenAt(fs, j).value, j); }
    if i: nat :| Section(fs, i, j) && fs[i].subId == id { SectionIsOpen(fs, i, j); }
  }

  /** Final cursors are those of the last section of each subscription; the others keep theirs. */
  lemma {:induction false} LastSectionWins(s: SubState, fs: seq<Frame>, id: string, j: nat, n: nat)
    requires n <= |fs|
    ensures j < n && Closes(fs, j, id) && (forall k: nat :: j < k < n ==> !Closes(fs, k, id)) ==>
              After(s, fs, id, n) == s.(cursor := fs[j].nextCursor, bootstrapState := fs[j].bootstrapState)
    ensures (forall k: nat :: k < n ==> !Closes(fs, k, id)) ==> After(s, fs, id, n) == s
  {
    hide Closes;
    if n > 0 { LastSectionWins(s, fs, id, j, n - 1); }
  }

  /** On a decoded response without ERROR, `account` never throws. */
  lemma AccountNeverThrows(host: Host, b: bytes)
    requires Decoded(host, false, b).Ok?
    ensures forall i :: 0 <= i < |Decoded(host, false, b).value.frames| ==> InlineDecodes(host, Decoded(host, false, b).value.frames[i])
  {
    hide Decoded, Accepts, Fits, WireFrame, FrameOfKind, ReadWhole, SegmentCodec.SegmentFormat;
    DecodedSound(host, false, b);
    var fs := Decoded(host, false, b).value.frames;
    forall i | 0 <= i < |fs| ensures InlineDecodes(host, fs[i]) { assert Acceptable(host, fs[i]); }
  }

  // ----- `responseSections` -------------------------------------------------------------------------------

  datatype Record = Record(start: Frame, body: seq<Frame>, end: Frame)

  /** The section that ends at `j`. */
  function RecordAt(fs: seq<Frame>, j: nat): Record
    requires j < |fs| && OpenAt(fs, j).Some?
  {
    var i := OpenAt(fs, j).value;
    Record(fs[i], fs[i + 1..j], fs[j])
  }

  /** The last section of `id` among the first `n` frames. */
  function SectionOf(fs: seq<Frame>, id: string, n: nat): Option<Record>
    requires n <= |fs|
  {
    if n == 0 then None
    else if Closes(fs, n - 1, id) then Some(RecordAt(fs, n - 1))
    else SectionOf(fs, id, n - 1)
  }

  ghost predicate Holds(result: map<string, Record>, fs: seq<Frame>, n: nat)
    requires n <= |fs|
  {
    forall id :: if id in result then SectionOf(fs, id, n) == Some(result[id]) else SectionOf(fs, id, n) == None
  }

  lemma HoldsNext(result: map<string, Record>, fs: seq<Frame>, n: nat)
    requires n < |fs| && Holds(result, fs, n)
    ensures fs[n].SubEnd? && OpenAt(fs, n).Some? ==>
              Holds(result[fs[OpenAt(fs, n).value].subId := RecordAt(fs, n)], fs, n + 1)
    ensures !fs[n].SubEnd? || OpenAt(fs, n).None? ==> Holds(result, fs, n + 1)
  {
    hide RecordAt, OpenAt;
  }

  /** The sections by subscription; of several with the same id the last stays. */
  method ResponseSections(fs: seq<Frame>) returns (result: map<string, Record>)
    ensures Holds(result, fs, |fs|)
  {
    hide Holds;
    result := map[];
    NoneHeld(fs);
    var start: Option<Frame> := None;
    var body: seq<Frame> := [];
    for n := 0 to |fs|
      invariant Holds(result, fs, n)
      invariant start.Some? <==> OpenAt(fs, n).Some?
      invariant start.Some? ==> start.value == fs[OpenAt(fs, n).value] && body == fs[OpenAt(fs, n).value + 1..n]
    {
      var frame := fs[n];
      HoldsNext(result, fs, n);
      if frame.SubStart? {
        start := Some(frame);
        body := [];
      } else if frame.SubEnd? {
        if start.Some? { result := result[start.value.subId := Record(start.value, body, frame)]; }
        start := None;
      } else if start.Some? {
        body := body + [frame];
      }
    }
  }

  lemma NoneHeld(fs: seq<Frame>)
    ensures Holds(map[], fs, 0)
  {
  }

  /** With distinct ids every section is found under its own. */
  lemma {:induction false} SectionFound(fs: seq<Frame>, j: nat, id: string, n: nat)
    requires j < n <= |fs| && Closes(fs, j, id) && forall k: nat :: j < k < n ==> !Closes(fs, k, id)
    ensures SectionOf(fs, id, n) == Some(RecordAt(fs, j))
  {
    hide Closes, RecordAt;
    if j < n - 1 { SectionFound(fs, j, id, n - 1); }
  }

  /**
   * In an accepted response without ERROR every section edge, commit and segment is in a section, and
   * by `SectionsDisjoint` in no other: the sections partition those frames, in order.
   */
  lemma EveryFrameHasItsSection(fs: seq<Frame>, k: nat) returns (i: nat, j: nat)
    requires AcceptsResponse(Tokens(fs)) && NoErrors(fs) && k < |fs|
    requires IsEdge(fs[k]) || fs[k].Commit? || fs[k].SegmentRef? || fs[k].SegmentInline?
    ensures Section(fs, i, j) && i <= k <= j
  {
    hide AcceptsResponse, Tokens, OpenAt;
    EndsHaveStarts(fs, k);
    if fs[k].SubStart? {
      i := k;
      j := StartsHaveEnds(fs, i);
    } else {
      i := OpenAt(fs, k).value;
      OpenMeans(fs, i, k);
      j := StartsHaveEnds(fs, i);
    }
  }

  // ----- The sections, one after the other ------------------------------------------------------------------

  /** The frame at `k` is an end of a section or stands between the two. */
  predicate Inside(fs: seq<Frame>, k: nat)
    requires k < |fs|
  {
    fs[k].SubStart? || OpenAt(fs, k).Some?
  }

  /** The first `n` frames without those outside any section. */
  function InsideFrames(fs: seq<Frame>, n: nat): seq<Frame>
    requires n <= |fs|
  {
    if n == 0 then [] else InsideFrames(fs, n - 1) + (if Inside(fs, n - 1) then [fs[n - 1]] else [])
  }

  /** The sections that end among the first `n` frames, in frame order. */
  function Records(fs: seq<Frame>, n: nat): seq<Record>
    requires n <= |fs|
  {
    if n == 0 then []
    else if fs[n - 1].SubEnd? && OpenAt(fs, n - 1).Some? then Records(fs, n - 1) + [RecordAt(fs, n - 1)]
    else Records(fs, n - 1)
  }

  function Flatten(rs: seq<Record>): seq<Frame> {
    if rs == [] then []
    else Flatten(rs[..|rs| - 1]) + ([rs[|rs| - 1].start] + rs[|rs| - 1].body + [rs[|rs| - 1].end])
  }

  /** Starts stand outside sections and ends inside. */
  predicate Nested(fs: seq<Frame>) {
    forall k: nat :: k < |fs| ==> (fs[k].SubStart? ==> OpenAt(fs, k).None?) && (fs[k].SubEnd? ==> OpenAt(fs, k).Some?)
  }

  function OpenFrames(fs: seq<Frame>, n: nat): seq<Frame>
    requires n <= |fs|
  {
    match OpenAt(fs, n)
    case Some(i) => fs[i..n]
    case None => []
  }

  lemma FlattenSnoc(rs: seq<Record>, r: Record)
    ensures Flatten(rs + [r]) == Flatten(rs) + ([r.start] + r.body + [r.end])
  {
    assert (rs + [r])[..|rs|] == rs;
  }

  lemma RecordFrames(fs: seq<Frame>, j: nat)
    requires j < |fs| && OpenAt(fs, j).Some?
    ensures var r := RecordAt(fs, j); [r.start] + r.body + [r.end] == OpenFrames(fs, j) + [fs[j]]
  {
    hide OpenAt;
    SliceStarts(fs, OpenAt(fs, j).value, j);
  }

  lemma SliceStarts<T>(xs: seq<T>, i: nat, k: nat)
    requires i < k <= |xs|
    ensures [xs[i]] + xs[i + 1..k] == xs[i..k]
  {
  }

  lemma SliceEnds<T>(xs: seq<T>, i: nat, k: nat)
    requires i <= k < |xs|
    ensures xs[i..k] + [xs[k]] == xs[i..k + 1]
  {
  }

  lemma OpenNext(fs: seq<Frame>, k: nat)
    requires k < |fs|
    ensures OpenAt(fs, k + 1) == if fs[k].SubStart? then Some(k) else if fs[k].SubEnd? then None else OpenAt(fs, k)
  {
  }

  lemma OpenStep(fs: seq<Frame>, k: nat)
    requires Nested(fs) && k < |fs|
    ensures OpenFrames(fs, k + 1) == if fs[k].SubEnd? then [] else if Inside(fs, k) then OpenFrames(fs, k) + [fs[k]] else []
    ensures !Inside(fs, k) ==> OpenFrames(fs, k) == [] && !fs[k].SubEnd?
    ensures fs[k].SubEnd? ==> Inside(fs, k) && OpenAt(fs, k).Some?
  {
    hide OpenAt;
    OpenNext(fs, k);
    if OpenAt(fs, k).Some? { SliceEnds(fs, OpenAt(fs, k).value, k); }
    SliceEnds(fs, k, k);
    assert fs[k..k] == [];
  }

  lemma RecordsNext(fs: seq<Frame>, k: nat)
    requires k < |fs|
    ensures Records(fs, k + 1) == if fs[k].SubEnd? && OpenAt(fs, k).Some? then Records(fs, k) + [RecordAt(fs, k)] else Records(fs, k)
    ensures InsideFrames(fs, k + 1) == if Inside(fs, k) then InsideFrames(fs, k) + [fs[k]] else InsideFrames(fs, k)
  {
    hide OpenAt, RecordAt, Inside;
  }

  lemma Regroup<T>(a: seq<T>, b: seq<T>, x: T)
    ensures a + (b + [x]) == a + b + [x] && a + [] == a
  {
  }

  lemma NoneFlattened(fs: seq<Frame>)
    ensures Flatten(Records(fs, 0)) == [] && OpenFrames(fs, 0) == [] && InsideFrames(fs, 0) == []
  {
  }

  lemma {:induction false} FlattenedSoFar(fs: seq<Frame>, n: nat)
    requires Nested(fs) && n <= |fs|
    ensures Flatten(Records(fs, n)) + OpenFrames(fs, n) == InsideFrames(fs, n)
  {
    hide Nested, OpenAt, OpenFrames, Inside, Flatten, RecordAt, Records, InsideFrames;
    if n == 0 {
      NoneFlattened(fs);
    } else {
      var k := n - 1;
      FlattenedSoFar(fs, k);
      OpenStep(fs, k);
      RecordsNext(fs, k);
      var done, open := Flatten(Records(fs, k)), OpenFrames(fs, k);
      Regroup(done, open, fs[k]);
      if fs[k].SubEnd? {
        FlattenSnoc(Records(fs, k), RecordAt(fs, k));
        RecordFrames(fs, k);
        Regroup(Flatten(Records(fs, n)), [], fs[k]);
      }
    }
  }

  lemma AcceptedNests(fs: seq<Frame>)
    requires AcceptsResponse(Tokens(fs)) && NoErrors(fs)
    ensures Nested(fs) && OpenAt(fs, |fs|).None?
  {
    hide AcceptsResponse, Tokens, OpenAt;
    forall k: nat | k < |fs| ensures (fs[k].SubStart? ==> OpenAt(fs, k).None?) && (fs[k].SubEnd? ==> OpenAt(fs, k).Some?) {
      EndsHaveStarts(fs, k);
    }
    AllClosed(fs);
  }

  lemma TailSlice<T>(xs: seq<T>)
    requires xs != []
    ensures xs[1..|xs|] == xs[1..]
  {
  }

  lemma AllClosed(fs: seq<Frame>)
    requires AcceptsResponse(Tokens(fs)) && NoErrors(fs)
    ensures OpenAt(fs, |fs|).None?
  {
    hide TokenOf, ResponseRun, OpenAt, Tokens, NoErrors;
    FlagIsOpen(fs, |fs|);
    TailSlice(Tokens(fs));
  }

  // From the first SUB_START on only unknown frames stand outside a section.

  lemma StepOutside(s: ResponseState, t: Token)
    requires ResponseStep(s, t).Some?
    ensures ResponseStep(s, t).value.sawSubscription == (s.sawSubscription || t.TSubStart?)
    ensures s.sawBody || t.TSubStart? ==> ResponseStep(s, t).value.sawBody
    ensures s.sawSubscription && s.sawBody && !s.inSubscription && !t.TSubStart? && !t.TError? ==> t.TUnknown? || IsRequestToken(t)
  {
    hide Matches;
    match t
    case TSubStart =>
    case TSubEnd =>
    case TCommit =>
    case TSegment =>
    case TDetails(_, _) =>
    case TResult(_, _, _) =>
    case TLease =>
    case _ =>
  }

  lemma {:induction false} SawStart(fs: seq<Frame>, i: nat, j: nat)
    requires AcceptsResponse(Tokens(fs)) && NoErrors(fs) && i < j <= |fs| && fs[i].SubStart?
    ensures var r := ResponseRun(ResponseStart, Tokens(fs)[1..j]); r.Some? && r.value.sawSubscription && r.value.sawBody
    decreases j
  {
    hide TokenOf, ResponseRun, ResponseStep;
    var ts := Tokens(fs);
    StartsWithHeader(fs);
    FlagIsOpen(fs, j);
    FlagIsOpen(fs, j - 1);
    assert ts[1..j] == ts[1..j - 1] + [ts[j - 1]];
    RunConcat(ResponseStart, ts[1..j - 1], [ts[j - 1]]);
    RunOne(ResponseRun(ResponseStart, ts[1..j - 1]).value, ts[j - 1]);
    StepOutside(ResponseRun(ResponseStart, ts[1..j - 1]).value, ts[j - 1]);
    TokenKind(fs[j - 1]);
    if i < j - 1 { SawStart(fs, i, j - 1); }
  }

  lemma OutsideIsUnknown(fs: seq<Frame>, i: nat, k: nat)
    requires AcceptsResponse(Tokens(fs)) && NoErrors(fs) && OfKind(Response, fs)
    requires i < k < |fs| && fs[i].SubStart? && !Inside(fs, k)
    ensures fs[k].Unknown?
  {
    hide TokenOf, ResponseRun, ResponseStep, OpenAt;
    var ts := Tokens(fs);
    SawStart(fs, i, k);
    FlagIsOpen(fs, k);
    FlagIsOpen(fs, k + 1);
    assert ts[1..k + 1] == ts[1..k] + [ts[k]];
    RunConcat(ResponseStart, ts[1..k], [ts[k]]);
    RunOne(ResponseRun(ResponseStart, ts[1..k]).value, ts[k]);
    StepOutside(ResponseRun(ResponseStart, ts[1..k]).value, ts[k]);
    TokenKind(fs[k]);
    ResponseKind(fs[k]);
  }

  lemma ResponseKind(f: Frame)
    ensures TokenOf(f).TUnknown? <==> f.Unknown?
    ensures IsRequestToken(TokenOf(f)) ==> !FrameOfKind(Response, f)
  {
    hide ErrorIndexes, EntryIndexes;
  }

  /** No two sections have the same id. */
  predicate DistinctIds(fs: seq<Frame>) {
    forall i, j :: 0 <= i < j < |fs| && fs[i].SubStart? && fs[j].SubStart? ==> fs[i].subId != fs[j].subId
  }

  lemma ClosesOnce(fs: seq<Frame>, j: nat, k: nat, id: string)
    requires DistinctIds(fs) && Closes(fs, j, id) && Closes(fs, k, id)
    ensures j == k
  {
    var i, m := OpenAt(fs, j).value, OpenAt(fs, k).value;
    OpenMeans(fs, i, j);
    OpenMeans(fs, m, k);
    assert i == m;
    assert IsEdge(fs[j]) && IsEdge(fs[k]);
  }

  lemma {:induction false} RecordsHeld(result: map<string, Record>, fs: seq<Frame>, n: nat, m: nat)
    requires DistinctIds(fs) && Holds(result, fs, |fs|) && n <= |fs| && m < |Records(fs, n)|
    ensures Records(fs, n)[m].start.SubStart?
    ensures var id := Records(fs, n)[m].start.subId; id in result && result[id] == Records(fs, n)[m]
  {
    hide OpenAt, Holds;
    if fs[n - 1].SubEnd? && OpenAt(fs, n - 1).Some? && m == |Records(fs, n)| - 1 {
      var id := fs[OpenAt(fs, n - 1).value].subId;
      assert Closes(fs, n - 1, id);
      forall k: nat | n - 1 < k < |fs| ensures !Closes(fs, k, id) { if Closes(fs, k, id) { ClosesOnce(fs, n - 1, k, id); } }
      SectionFound(fs, n - 1, id, |fs|);
      HeldAt(result, fs, id);
    } else {
      RecordsHeld(result, fs, n - 1, m);
    }
  }

  lemma HeldAt(result: map<string, Record>, fs: seq<Frame>, id: string)
    requires Holds(result, fs, |fs|)
    ensures SectionOf(fs, id, |fs|).Some? ==> id in result && result[id] == SectionOf(fs, id, |fs|).value
  {
    hide SectionOf;
  }

  /**
   * What `responseSections` returns for an accepted response without ERROR and with distinct ids: its
   * records in frame order, start, body and end one after the other, are the frames from the first
   * SUB_START on, but for unknown frames between sections.
   */
  lemma SectionsPartition(result: map<string, Record>, fs: seq<Frame>)
    requires AcceptsResponse(Tokens(fs)) && NoErrors(fs) && OfKind(Response, fs) && DistinctIds(fs)
    requires Holds(result, fs, |fs|)
    ensures forall m :: 0 <= m < |Records(fs, |fs|)| ==>
              && Records(fs, |fs|)[m].start.SubStart? && Records(fs, |fs|)[m].start.subId in result
              && result[Records(fs, |fs|)[m].start.subId] == Records(fs, |fs|)[m]
    ensures Flatten(Records(fs, |fs|)) == InsideFrames(fs, |fs|)
    ensures forall k: nat :: k < |fs| && !Inside(fs, k) ==>
              fs[k].Unknown? || forall i :: 0 <= i < k ==> !fs[i].SubStart?
  {
    hide AcceptsResponse, Tokens, Holds, OpenAt, Records, InsideFrames, Flatten, Inside;
    forall m | 0 <= m < |Records(fs, |fs|)|
      ensures Records(fs, |fs|)[m].start.SubStart? && Records(fs, |fs|)[m].start.subId in result
      ensures result[Records(fs, |fs|)[m].start.subId] == Records(fs, |fs|)[m]
    {
      RecordsHeld(result, fs, |fs|, m);
    }
    AcceptedNests(fs);
    FlattenedSoFar(fs, |fs|);
    forall k: nat, i: nat | k < |fs| && !Inside(fs, k) && i < k && fs[i].SubStart? ensures fs[k].Unknown? {
      OutsideIsUnknown(fs, i, k);
    }
  }
}
