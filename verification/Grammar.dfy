/**
 * The frame grammar of packages/core/src/message.ts:700-838: the two validators as flag automata,
 * and the language of the request validator.
 */
module Grammar {
  import opened Results
  import opened Messages

  /** What the validators look at in a frame. */
  datatype Token =
    | TReqHeader | TPush | TPull | TSubscription
    | TRespHeader | TLease
    | TResult(id: string, rejected: bool, errors: set<int>)
    | TDetails(of: string, indexes: set<int>)
    | TSubStart | TCommit | TSegment | TSubEnd | TError
    | TUnknown

  function ErrorIndexes(rs: seq<OpResult>): set<int> { set r | r in rs && r.ErrorResult? :: r.opIndex }

  function EntryIndexes(es: seq<DetailsEntry>): set<int> { set e | e in es :: e.opIndex }

  function TokenOf(f: Frame): Token {
    match f
    case ReqHeader(_, _, _) => TReqHeader
    case PushCommit(_, _) => TPush
    case PullHeader(_, _, _, _) => TPull
    case Subscription(_, _, _, _, _, _) => TSubscription
    case RespHeader(_, _, _, _) => TRespHeader
    case Lease(_, _) => TLease
    case PushResult(id, status, _, results) => TResult(id, status.Rejected?, ErrorIndexes(results))
    case PushResultDetails(id, entries) => TDetails(id, EntryIndexes(entries))
    case SubStart(_, _, _, _, _) => TSubStart
    case Commit(_, _, _, _, _) => TCommit
    case SegmentRef(_, _, _, _, _, _, _, _, _, _, _) => TSegment
    case SegmentInline(_) => TSegment
    case SubEnd(_, _) => TSubEnd
    case ErrorFrame(_, _, _, _, _, _) => TError
    case Unknown(_, _) => TUnknown
  }

  function Tokens(fs: seq<Frame>): (ts: seq<Token>)
    ensures |ts| == |fs|
  {
    seq(|fs|, i requires 0 <= i < |fs| => TokenOf(fs[i]))
  }

  predicate IsRequestToken(t: Token) { t.TReqHeader? || t.TPush? || t.TPull? || t.TSubscription? }

  // ----- Requests ------------------------------------------------------------------------------------

  datatype RequestState = RequestState(pushes: nat, hasPull: bool)

  function RequestStep(s: RequestState, t: Token): Option<RequestState> {
    match t
    case TReqHeader => None
    case TPush => if s.hasPull then None else Some(s.(pushes := s.pushes + 1))
    case TPull => if s.hasPull then None else Some(s.(hasPull := true))
    case TSubscription => if s.hasPull then Some(s) else None
    case _ => Some(s)
  }

  function RequestRun(s: RequestState, ts: seq<Token>): Option<RequestState>
    decreases |ts|
  {
    if ts == [] then Some(s)
    else
      match RequestStep(s, ts[0])
      case None => None
      case Some(next) => RequestRun(next, ts[1..])
  }

  const RequestStart := RequestState(0, false)

  predicate RequestEnd(s: Option<RequestState>) { s.Some? && (s.value.pushes > 0 || s.value.hasPull) }

  predicate AcceptsRequest(ts: seq<Token>) {
    ts != [] && ts[0].TReqHeader? && RequestEnd(RequestRun(RequestStart, ts[1..]))
  }

  method ValidateRequestSequence(frames: seq<Frame>) returns (r: Result<()>, ghost turns: nat)
    ensures r == if AcceptsRequest(Tokens(frames)) then Ok(()) else Err(InvalidRequest)
    ensures turns <= |frames|
  {
    hide Tokens, TokenOf, RequestRun;
    turns := 0;
    if |frames| == 0 { return Err(InvalidRequest), turns; }
    TokenAt(frames, 0);
    if !frames[0].ReqHeader? { return Err(InvalidRequest), turns; }
    var pushCount: nat, hasPull := 0, false;
    ghost var ts := Tokens(frames);
    for i := 1 to |frames|
      invariant turns < i
      invariant RequestRun(RequestStart, ts[1..]) == RequestRun(RequestState(pushCount, hasPull), ts[i..])
    {
      turns := turns + 1;
      TokenAt(frames, i);
      RequestRunStep(RequestState(pushCount, hasPull), ts, i);
      match TokenOf(frames[i])
      case TReqHeader => return Err(InvalidRequest), turns;
      case TPush =>
        if hasPull { return Err(InvalidRequest), turns; }
        pushCount := pushCount + 1;
      case TPull =>
        if hasPull { return Err(InvalidRequest), turns; }
        hasPull := true;
      case TSubscription =>
        if !hasPull { return Err(InvalidRequest), turns; }
      case _ =>
    }
    RequestRunEnd(RequestState(pushCount, hasPull), ts);
    if pushCount == 0 && !hasPull { return Err(InvalidRequest), turns; }
    return Ok(()), turns;
  }

  lemma RequestRunStep(s: RequestState, ts: seq<Token>, i: nat)
    requires i < |ts|
    ensures RequestRun(s, ts[i..]) == match RequestStep(s, ts[i])
                                      case None => None
                                      case Some(next) => RequestRun(next, ts[i + 1..])
  {
    hide RequestStep;
    assert ts[i..][1..] == ts[i + 1..];
  }

  lemma RequestRunEnd(s: RequestState, ts: seq<Token>)
    ensures RequestRun(s, ts[|ts|..]) == Some(s)
  {
  }

  function Times(t: Token, n: nat): seq<Token> { seq(n, _ => t) }

  /** A header, pushes, then perhaps a pull with its subscriptions; not the header alone. */
  datatype RequestShape = RequestShape(pushes: nat, subscriptions: Option<nat>) {
    predicate Valid() { pushes > 0 || subscriptions.Some? }

    function Pull(): seq<Token> {
      if subscriptions.Some? then [TPull] + Times(TSubscription, subscriptions.value) else []
    }

    function Flatten(): seq<Token> { [TReqHeader] + Times(TPush, pushes) + Pull() }
  }

  lemma {:induction false} RequestRunConcat(s: RequestState, a: seq<Token>, b: seq<Token>)
    ensures RequestRun(s, a + b) == match RequestRun(s, a) case None => None case Some(m) => RequestRun(m, b)
    decreases |a|
  {
    if a == [] {
      assert a + b == b;
    } else {
      assert (a + b)[1..] == a[1..] + b;
      if RequestStep(s, a[0]).Some? { RequestRunConcat(RequestStep(s, a[0]).value, a[1..], b); }
    }
  }

  lemma {:induction false} PushesRun(s: RequestState, n: nat)
    requires !s.hasPull
    ensures RequestRun(s, Times(TPush, n)) == Some(s.(pushes := s.pushes + n))
    decreases n
  {
    if n > 0 {
      assert Times(TPush, n)[1..] == Times(TPush, n - 1);
      PushesRun(s.(pushes := s.pushes + 1), n - 1);
    }
  }

  lemma {:induction false} SubscriptionsRun(s: RequestState, n: nat)
    requires s.hasPull
    ensures RequestRun(s, Times(TSubscription, n)) == Some(s)
  {
    if n > 0 {
      assert Times(TSubscription, n)[1..] == Times(TSubscription, n - 1);
      SubscriptionsRun(s, n - 1);
    }
  }

  lemma {:induction false} ParseSubscriptions(s: RequestState, ts: seq<Token>)
    requires s.hasPull && RequestRun(s, ts).Some? && forall i :: 0 <= i < |ts| ==> IsRequestToken(ts[i])
    ensures ts == Times(TSubscription, |ts|)
  {
    if ts != [] {
      assert IsRequestToken(ts[0]);
      ParseSubscriptions(s, ts[1..]);
      assert ts == [ts[0]] + ts[1..];
    }
  }

  lemma {:induction false} ParsePushes(s: RequestState, ts: seq<Token>) returns (p: RequestShape)
    requires !s.hasPull && RequestRun(s, ts).Some? && forall i :: 0 <= i < |ts| ==> IsRequestToken(ts[i])
    ensures ts == Times(TPush, p.pushes) + p.Pull()
    ensures RequestRun(s, ts).value == RequestState(s.pushes + p.pushes, p.subscriptions.Some?)
    decreases |ts|
  {
    if ts == [] {
      p := RequestShape(0, None);
    } else {
      assert IsRequestToken(ts[0]) && ts == [ts[0]] + ts[1..];
      if ts[0].TPull? {
        ParseSubscriptions(s.(hasPull := true), ts[1..]);
        SubscriptionsRun(s.(hasPull := true), |ts| - 1);
        p := RequestShape(0, Some(|ts| - 1));
      } else {
        var q := ParsePushes(s.(pushes := s.pushes + 1), ts[1..]);
        p := q.(pushes := q.pushes + 1);
        assert Times(TPush, p.pushes) == [TPush] + Times(TPush, q.pushes);
      }
    }
  }

  ghost predicate IsRequestShape(ts: seq<Token>) { exists p: RequestShape :: p.Valid() && p.Flatten() == ts }

  /** The request automaton accepts exactly the request grammar. */
  lemma RequestGrammar(ts: seq<Token>)
    requires forall i :: 0 <= i < |ts| ==> IsRequestToken(ts[i])
    ensures AcceptsRequest(ts) <==> IsRequestShape(ts)
  {
    if AcceptsRequest(ts) {
      var p := ParsePushes(RequestStart, ts[1..]);
      assert ts == [ts[0]] + ts[1..];
      assert p.Flatten() == ts;
    }
    if p: RequestShape :| p.Valid() && p.Flatten() == ts {
      var rest := Times(TPush, p.pushes) + p.Pull();
      assert ts[1..] == rest;
      PushesRun(RequestStart, p.pushes);
      RequestRunConcat(RequestStart, Times(TPush, p.pushes), p.Pull());
      if p.subscriptions.Some? {
        assert p.Pull()[1..] == Times(TSubscription, p.subscriptions.value);
        SubscriptionsRun(RequestState(p.pushes, true), p.subscriptions.value);
      }
    }
  }

  // ----- Responses -----------------------------------------------------------------------------------

  datatype ResponseState = ResponseState(
    inSubscription: bool, sawSubscription: bool, sawLease: bool, sawBody: bool,
    hasCommits: bool, hasSegments: bool, errorSeen: bool,
    lastResult: Option<Token>, hasDetails: bool)

  const ResponseStart := ResponseState(false, false, false, false, false, false, false, None, false)

  /** A details companion belongs to this result: same commit, rejected, only its error records. */
  predicate Matches(result: Token, details: Token) {
    result.TResult? && details.TDetails? && result.id == details.of && result.rejected && details.indexes <= result.errors
  }

  function ResponseStep(s: ResponseState, t: Token): Option<ResponseState> {
    if s.errorSeen then None
    else
      match t
      case TRespHeader => None
      case TLease => if s.sawLease || s.sawBody then None else Some(s.(sawLease := true))
      case TResult(_, _, _) =>
        if s.sawSubscription then None else Some(s.(lastResult := Some(t), hasDetails := false, sawBody := true))
      case TDetails(_, _) =>
        if s.sawSubscription || s.lastResult.None? || s.hasDetails || !Matches(s.lastResult.value, t) then None
        else Some(s.(hasDetails := true, sawBody := true))
      case TSubStart =>
        if s.inSubscription then None
        else Some(s.(inSubscription := true, sawSubscription := true, sawBody := true, hasCommits := false, hasSegments := false))
      case TCommit => if !s.inSubscription || s.hasSegments then None else Some(s.(hasCommits := true))
      case TSegment => if !s.inSubscription || s.hasCommits then None else Some(s.(hasSegments := true))
      case TSubEnd => if !s.inSubscription then None else Some(s.(inSubscription := false))
      case TError => Some(s.(errorSeen := true, sawBody := true))
      case TUnknown => Some(s.(sawBody := true))
      case _ => Some(s)
  }

  function ResponseRun(s: ResponseState, ts: seq<Token>): Option<ResponseState>
    decreases |ts|
  {
    if ts == [] then Some(s)
    else
      match ResponseStep(s, ts[0])
      case None => None
      case Some(next) => ResponseRun(next, ts[1..])
  }

  predicate ResponseEnd(s: Option<ResponseState>) { s.Some? && (s.value.inSubscription ==> s.value.errorSeen) }

  predicate AcceptsResponse(ts: seq<Token>) {
    ts != [] && ts[0].TRespHeader? && ResponseEnd(ResponseRun(ResponseStart, ts[1..]))
  }

  /** The operation index is that of an error record of the result. */
  predicate NamesAnError(opIndex: int, results: seq<OpResult>) {
    exists j :: 0 <= j < |results| && results[j].ErrorResult? && results[j].opIndex == opIndex
  }

  /** The companion names the commit of a rejected result, and each entry an error record of it. */
  predicate Accompanies(f: Frame, result: Frame)
    requires f.PushResultDetails? && result.PushResult?
  {
    && f.detailsOf == result.clientCommitId
    && result.status == Rejected
    && forall i :: 0 <= i < |f.entries| ==> NamesAnError(f.entries[i].opIndex, result.results)
  }

  lemma ErrorIndexesMean(rs: seq<OpResult>, x: int)
    ensures x in ErrorIndexes(rs) <==> NamesAnError(x, rs)
  {
    if x in ErrorIndexes(rs) {
      var r :| r in rs && r.ErrorResult? && r.opIndex == x;
      var j :| 0 <= j < |rs| && rs[j] == r;
      assert rs[j].ErrorResult? && rs[j].opIndex == x;
    }
  }

  lemma EntriesWithin(es: seq<DetailsEntry>, rs: seq<OpResult>)
    ensures EntryIndexes(es) <= ErrorIndexes(rs) <==> forall i :: 0 <= i < |es| ==> NamesAnError(es[i].opIndex, rs)
  {
    hide ErrorIndexes, NamesAnError;
    forall x: int ensures x in ErrorIndexes(rs) <==> NamesAnError(x, rs) { ErrorIndexesMean(rs, x); }
    forall i | 0 <= i < |es| ensures es[i].opIndex in EntryIndexes(es) { assert es[i] in es; }
  }

  lemma MatchesMeans(result: Frame, f: Frame)
    requires f.PushResultDetails? && result.PushResult?
    ensures Matches(TokenOf(result), TokenOf(f)) <==> Accompanies(f, result)
  {
    hide ErrorIndexes, EntryIndexes, NamesAnError;
    EntriesWithin(f.entries, result.results);
  }

  /** `errorIndexes` of a result: one turn for each of its records. */
  method CollectErrors(rs: seq<OpResult>) returns (indexes: set<int>, ghost turns: nat)
    ensures indexes == ErrorIndexes(rs) && turns == |rs|
  {
    indexes := {};
    turns := 0;
    for i := 0 to |rs|
      invariant turns == i && indexes == ErrorIndexes(rs[..i])
    {
      turns := turns + 1;
      ErrorsSnoc(rs, i);
      if rs[i].ErrorResult? { indexes := indexes + {rs[i].opIndex}; }
    }
    assert rs[..|rs|] == rs;
  }

  lemma ErrorsSnoc(rs: seq<OpResult>, i: nat)
    requires i < |rs|
    ensures ErrorIndexes(rs[..i + 1]) == ErrorIndexes(rs[..i]) + if rs[i].ErrorResult? then {rs[i].opIndex} else {}
  {
    assert rs[..i + 1] == rs[..i] + [rs[i]];
  }

  /** Whether every entry points at an error; it stops at the first that does not. */
  method EntriesPointAtErrors(es: seq<DetailsEntry>, indexes: set<int>) returns (ok: bool, ghost turns: nat)
    ensures ok <==> EntryIndexes(es) <= indexes
    ensures turns <= |es|
  {
    turns := 0;
    for i := 0 to |es|
      invariant turns == i && forall j :: 0 <= j < i ==> es[j].opIndex in indexes
    {
      turns := turns + 1;
      if es[i].opIndex !in indexes {
        assert es[i] in es && es[i].opIndex in EntryIndexes(es);
        return false, turns;
      }
    }
    return true, turns;
  }

  /** Whether a details companion matches the last result. */
  method IsCompanion(last: Frame, frame: Frame) returns (ok: bool, ghost turns: nat)
    requires last.PushResult? && frame.PushResultDetails?
    ensures ok == Matches(TokenOf(last), TokenOf(frame))
    ensures ok <==> Accompanies(frame, last)
    ensures turns <= Passes(last) + Passes(frame)
  {
    hide ErrorIndexes, EntryIndexes, Accompanies;
    MatchesMeans(last, frame);
    turns := 0;
    if last.clientCommitId != frame.detailsOf || !last.status.Rejected? { return false, turns; }
    var errorIndexes, passing := CollectErrors(last.results);
    var all, pointing := EntriesPointAtErrors(frame.entries, errorIndexes);
    return all, passing + pointing;
  }

  /** The last push result is the one the state remembers. */
  ghost predicate Remembers(s: ResponseState, last: Option<Frame>) {
    match last
    case None => s.lastResult.None?
    case Some(f) => f.PushResult? && s.lastResult == Some(TokenOf(f))
  }

  /** What a companion of the last result would still have to pass over. */
  ghost function Pending(s: ResponseState, last: Option<Frame>): nat {
    if last.Some? && !s.hasDetails then Passes(last.value) else 0
  }

  /** The loop over the frames; the fields of `s` are the flags it updates. */
  method ValidateResponseSequence(frames: seq<Frame>) returns (r: Result<()>, ghost turns: nat)
    ensures r == if AcceptsResponse(Tokens(frames)) then Ok(()) else Err(InvalidRequest)
    ensures turns <= |frames| + AllPasses(frames, |frames|)
  {
    hide ResponseRun, Tokens, Matches, TokenOf, AllPasses, Passes;
    turns := 0;
    if |frames| == 0 { return Err(InvalidRequest), turns; }
    TokenAt(frames, 0);
    if !frames[0].RespHeader? { return Err(InvalidRequest), turns; }
    var s := ResponseStart;
    var last: Option<Frame> := None;
    ghost var ts := Tokens(frames);
    for i := 1 to |frames|
      invariant ResponseRun(ResponseStart, ts[1..]) == ResponseRun(s, ts[i..])
      invariant Remembers(s, last)
      invariant turns + Pending(s, last) < i + AllPasses(frames, i)
    {
      turns := turns + 1;
      RunStep(s, ts, i);
      TokenAt(frames, i);
      PassesNext(frames, i);
      PassesGrow(frames, i + 1);
      var t := TokenOf(frames[i]);
      if s.errorSeen { return Err(InvalidRequest), turns; }
      match t
      case TRespHeader => return Err(InvalidRequest), turns;
      case TLease =>
        if s.sawLease { return Err(InvalidRequest), turns; }
        if s.sawBody { return Err(InvalidRequest), turns; }
        s := s.(sawLease := true);
      case TResult(_, _, _) =>
        if s.sawSubscription { return Err(InvalidRequest), turns; }
        s := s.(lastResult := Some(t), hasDetails := false, sawBody := true);
        last := Some(frames[i]);
      case TDetails(_, _) =>
        if s.sawSubscription { return Err(InvalidRequest), turns; }
        if s.lastResult.None? { return Err(InvalidRequest), turns; }
        if s.hasDetails { return Err(InvalidRequest), turns; }
        var matches, passing := IsCompanion(last.value, frames[i]);
        turns := turns + passing;
        if !matches { return Err(InvalidRequest), turns; }
        s := s.(hasDetails := true, sawBody := true);
      case TSubStart =>
        if s.inSubscription { return Err(InvalidRequest), turns; }
        s := s.(inSubscription := true, sawSubscription := true, sawBody := true, hasCommits := false, hasSegments := false);
      case TCommit =>
        if !s.inSubscription { return Err(InvalidRequest), turns; }
        if s.hasSegments { return Err(InvalidRequest), turns; }
        s := s.(hasCommits := true);
      case TSegment =>
        if !s.inSubscription { return Err(InvalidRequest), turns; }
        if s.hasCommits { return Err(InvalidRequest), turns; }
        s := s.(hasSegments := true);
      case TSubEnd =>
        if !s.inSubscription { return Err(InvalidRequest), turns; }
        s := s.(inSubscription := false);
      case TError =>
        s := s.(errorSeen := true, sawBody := true);
      case TUnknown =>
        s := s.(sawBody := true);
      case _ =>
    }
    RunEnd(s, ts);
    if s.inSubscription && !s.errorSeen { return Err(InvalidRequest), turns; }
    return Ok(()), turns;
  }

  lemma PassesNext(fs: seq<Frame>, i: nat)
    requires i < |fs|
    ensures AllPasses(fs, i + 1) == AllPasses(fs, i) + Passes(fs[i])
  {
  }

  lemma {:induction false} PassesGrow(fs: seq<Frame>, i: nat)
    requires i <= |fs|
    ensures AllPasses(fs, i) <= AllPasses(fs, |fs|)
    decreases |fs| - i
  {
    if i < |fs| { PassesGrow(fs, i + 1); }
  }

  lemma TokenAt(frames: seq<Frame>, i: nat)
    requires i < |frames|
    ensures Tokens(frames)[i] == TokenOf(frames[i])
    ensures TokenOf(frames[i]).TRespHeader? <==> frames[i].RespHeader?
    ensures TokenOf(frames[i]).TReqHeader? <==> frames[i].ReqHeader?
    ensures TokenOf(frames[i]).TResult? <==> frames[i].PushResult?
    ensures TokenOf(frames[i]).TDetails? <==> frames[i].PushResultDetails?
  {
  }

  lemma RunStep(s: ResponseState, ts: seq<Token>, i: nat)
    requires i < |ts|
    ensures ResponseRun(s, ts[i..]) == match ResponseStep(s, ts[i])
                                       case None => None
                                       case Some(next) => ResponseRun(next, ts[i + 1..])
  {
    hide ResponseStep;
    assert ts[i..][1..] == ts[i + 1..];
  }

  lemma RunEnd(s: ResponseState, ts: seq<Token>)
    ensures ResponseRun(s, ts[|ts|..]) == Some(s)
  {
  }
}
