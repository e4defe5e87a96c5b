/** The language of the response validator, without unknown frames. */
module ResponseGrammar {
  import opened Results
  import opened Grammar

  // ----- The shape of a response ----------------------------------------------------------------------

  /** A push result with its details companion, if it has one. */
  datatype Push = Push(result: Token, details: Option<Token>) {
    predicate Valid() { result.TResult? && (details.Some? ==> details.value.TDetails? && Matches(result, details.value)) }

    function Flatten(): seq<Token> { [result] + (if details.Some? then [details.value] else []) }
  }

  /** The frames of a subscription section: commits only, or segments only. */
  predicate IsBody(body: seq<Token>) {
    (forall i :: 0 <= i < |body| ==> body[i].TCommit?) || (forall i :: 0 <= i < |body| ==> body[i].TSegment?)
  }

  datatype Ending = Complete | Failure | OpenFailure(body: seq<Token>) {
    predicate Valid() { OpenFailure? ==> IsBody(body) }

    /** Nothing, an error, or a section that an error cuts short. */
    function Flatten(): seq<Token> {
      match this
      case Complete => []
      case Failure => [TError]
      case OpenFailure(body) => [TSubStart] + body + [TError]
    }
  }

  function FlattenPushes(ps: seq<Push>): seq<Token> {
    if ps == [] then [] else ps[0].Flatten() + FlattenPushes(ps[1..])
  }

  function FlattenSections(bodies: seq<seq<Token>>): seq<Token> {
    if bodies == [] then [] else [TSubStart] + bodies[0] + [TSubEnd] + FlattenSections(bodies[1..])
  }

  datatype ResponseShape = ResponseShape(lease: bool, pushes: seq<Push>, sections: seq<seq<Token>>, ending: Ending) {
    predicate Valid() {
      && (forall i :: 0 <= i < |pushes| ==> pushes[i].Valid())
      && (forall i :: 0 <= i < |sections| ==> IsBody(sections[i]))
      && ending.Valid()
    }

    function Tail(): seq<Token> { FlattenSections(sections) + ending.Flatten() }

    function Flatten(): seq<Token> {
      [TRespHeader] + (if lease then [TLease] else []) + FlattenPushes(pushes) + Tail()
    }
  }

  predicate IsPlain(t: Token) { !IsRequestToken(t) && !t.TUnknown? }

  predicate AllPlain(ts: seq<Token>) { forall i :: 0 <= i < |ts| ==> IsPlain(ts[i]) }

  // ----- Every shape is accepted --------------------------------------------------------------------------

  lemma {:induction false} RunConcat(s: ResponseState, a: seq<Token>, b: seq<Token>)
    ensures ResponseRun(s, a + b) == match ResponseRun(s, a) case None => None case Some(m) => ResponseRun(m, b)
    decreases |a|
  {
    hide ResponseStep;
    if a == [] {
      assert a + b == b;
    } else {
      assert (a + b)[1..] == a[1..] + b;
      if ResponseStep(s, a[0]).Some? { RunConcat(ResponseStep(s, a[0]).value, a[1..], b); }
    }
  }

  lemma RunOne(s: ResponseState, t: Token)
    ensures ResponseRun(s, [t]) == ResponseStep(s, t)
  {
    hide ResponseStep;
    var ts := [t];
    assert ts[0] == t && ts[1..] == [];
    if ResponseStep(s, t).Some? { assert ResponseRun(ResponseStep(s, t).value, ts[1..]) == ResponseStep(s, t); }
  }

  lemma {:induction false} CommitsRun(s: ResponseState, body: seq<Token>)
    requires s.inSubscription && !s.errorSeen && !s.hasSegments && forall i :: 0 <= i < |body| ==> body[i].TCommit?
    ensures ResponseRun(s, body) == Some(s.(hasCommits := s.hasCommits || body != []))
    decreases |body|
  {
    if body != [] { CommitsRun(s.(hasCommits := true), body[1..]); }
  }

  lemma {:induction false} SegmentsRun(s: ResponseState, body: seq<Token>)
    requires s.inSubscription && !s.errorSeen && !s.hasCommits && forall i :: 0 <= i < |body| ==> body[i].TSegment?
    ensures ResponseRun(s, body) == Some(s.(hasSegments := s.hasSegments || body != []))
    decreases |body|
  {
    if body != [] { SegmentsRun(s.(hasSegments := true), body[1..]); }
  }

  /** Between sections, or before the first. */
  predicate Outside(s: ResponseState) { !s.inSubscription && !s.errorSeen }

  lemma OpenRun(s: ResponseState, body: seq<Token>) returns (m: ResponseState)
    requires Outside(s) && IsBody(body)
    ensures ResponseRun(s, [TSubStart] + body) == Some(m) && m.inSubscription && !m.errorSeen
  {
    hide ResponseRun;
    RunConcat(s, [TSubStart], body);
    RunOne(s, TSubStart);
    var o := ResponseStep(s, TSubStart).value;
    if forall i :: 0 <= i < |body| ==> body[i].TCommit? {
      CommitsRun(o, body);
    } else {
      SegmentsRun(o, body);
    }
    m := ResponseRun(o, body).value;
  }

  lemma SectionRun(s: ResponseState, body: seq<Token>) returns (m: ResponseState)
    requires Outside(s) && IsBody(body)
    ensures ResponseRun(s, [TSubStart] + body + [TSubEnd]) == Some(m) && Outside(m)
  {
    hide ResponseRun, IsBody;
    var o := OpenRun(s, body);
    RunConcat(s, [TSubStart] + body, [TSubEnd]);
    RunOne(o, TSubEnd);
    m := ResponseStep(o, TSubEnd).value;
  }

  lemma EndingRun(s: ResponseState, e: Ending)
    requires Outside(s) && e.Valid()
    ensures ResponseEnd(ResponseRun(s, e.Flatten()))
  {
    hide IsBody;
    match e
    case Complete =>
    case Failure => RunOne(s, TError);
    case OpenFailure(body) =>
      var o := OpenRun(s, body);
      RunConcat(s, [TSubStart] + body, [TError]);
      RunOne(o, TError);
  }

  lemma {:induction false} TailRun(s: ResponseState, bodies: seq<seq<Token>>, e: Ending)
    requires Outside(s) && e.Valid() && forall i :: 0 <= i < |bodies| ==> IsBody(bodies[i])
    ensures ResponseEnd(ResponseRun(s, FlattenSections(bodies) + e.Flatten()))
    decreases |bodies|
  {
    hide IsBody, ResponseRun, ResponseEnd;
    if bodies == [] {
      EndingRun(s, e);
      assert [] + e.Flatten() == e.Flatten();
    } else {
      var m := SectionRun(s, bodies[0]);
      TailRun(m, bodies[1..], e);
      var head := [TSubStart] + bodies[0] + [TSubEnd];
      var rest := FlattenSections(bodies[1..]) + e.Flatten();
      assert FlattenSections(bodies) + e.Flatten() == head + rest;
      RunConcat(s, head, rest);
    }
  }

  predicate BeforeSections(s: ResponseState) { Outside(s) && !s.sawSubscription }

  lemma PushRun(s: ResponseState, p: Push) returns (m: ResponseState)
    requires BeforeSections(s) && p.Valid()
    ensures ResponseRun(s, p.Flatten()) == Some(m) && BeforeSections(m)
  {
    hide ResponseRun, Matches;
    RunOne(s, p.result);
    m := ResponseStep(s, p.result).value;
    if p.details.Some? {
      RunConcat(s, [p.result], [p.details.value]);
      RunOne(m, p.details.value);
      m := ResponseStep(m, p.details.value).value;
    } else {
      assert [p.result] + [] == [p.result];
    }
  }

  lemma {:induction false} PushesThenTailRun(s: ResponseState, ps: seq<Push>, bodies: seq<seq<Token>>, e: Ending)
    requires BeforeSections(s) && (forall i :: 0 <= i < |ps| ==> ps[i].Valid())
    requires e.Valid() && forall i :: 0 <= i < |bodies| ==> IsBody(bodies[i])
    ensures ResponseEnd(ResponseRun(s, FlattenPushes(ps) + (FlattenSections(bodies) + e.Flatten())))
    decreases |ps|
  {
    hide ResponseRun, IsBody, FlattenSections;
    var tail := FlattenSections(bodies) + e.Flatten();
    if ps == [] {
      TailRun(s, bodies, e);
      assert [] + tail == tail;
    } else {
      var m := PushRun(s, ps[0]);
      PushesThenTailRun(m, ps[1..], bodies, e);
      assert FlattenPushes(ps) + tail == ps[0].Flatten() + (FlattenPushes(ps[1..]) + tail);
      RunConcat(s, ps[0].Flatten(), FlattenPushes(ps[1..]) + tail);
    }
  }

  lemma ShapeAccepted(r: ResponseShape)
    requires r.Valid()
    ensures AcceptsResponse(r.Flatten())
  {
    hide IsBody, FlattenSections, FlattenPushes, ResponseRun;
    var rest := FlattenPushes(r.pushes) + r.Tail();
    if r.lease {
      assert r.Flatten()[1..] == [TLease] + rest;
      RunConcat(ResponseStart, [TLease], rest);
      RunOne(ResponseStart, TLease);
      PushesThenTailRun(ResponseStep(ResponseStart, TLease).value, r.pushes, r.sections, r.ending);
    } else {
      assert r.Flatten()[1..] == rest;
      PushesThenTailRun(ResponseStart, r.pushes, r.sections, r.ending);
    }
  }

  // ----- Everything accepted has a shape --------------------------------------------------------------------

  /** The part of a response from its sections on. */
  datatype TailShape = TailShape(sections: seq<seq<Token>>, ending: Ending) {
    predicate Valid() { (forall i :: 0 <= i < |sections| ==> IsBody(sections[i])) && ending.Valid() }

    function Flatten(): seq<Token> { FlattenSections(sections) + ending.Flatten() }
  }

  lemma AfterError(s: ResponseState, ts: seq<Token>)
    requires s.errorSeen && ResponseRun(s, ts).Some?
    ensures ts == []
  {
  }

  /** The body may go on from the kind of frame the section holds already. */
  predicate Continues(s: ResponseState, body: seq<Token>) {
    && (s.hasCommits ==> forall i :: 0 <= i < |body| ==> body[i].TCommit?)
    && (s.hasSegments ==> forall i :: 0 <= i < |body| ==> body[i].TSegment?)
  }

  /** From inside a section: its body, then either its end and a tail, or an error and nothing. */
  lemma {:induction false} ParseOpen(s: ResponseState, ts: seq<Token>) returns (body: seq<Token>, tail: Option<TailShape>)
    requires s.inSubscription && s.sawSubscription && s.sawBody && !s.errorSeen && !(s.hasCommits && s.hasSegments)
    requires AllPlain(ts) && ResponseEnd(ResponseRun(s, ts))
    ensures IsBody(body) && Continues(s, body)
    ensures tail.Some? ==> tail.value.Valid() && ts == body + [TSubEnd] + tail.value.Flatten()
    ensures tail.None? ==> ts == body + [TError]
    decreases |ts|, 2
  {
    hide FlattenSections, Matches, TailShape.Flatten, TailShape.Valid, AllPlain;
    assert ts != [];
    var next := Advance(s, ts);
    if ts[0].TSubEnd? {
      var t := ParseTail(next, ts[1..]);
      body, tail := [], Some(t);
    } else if ts[0].TError? {
      AfterError(next, ts[1..]);
      body, tail := [], None;
    } else {
      assert ts[0].TCommit? || ts[0].TSegment?;
      var b, t := ParseOpen(next, ts[1..]);
      body, tail := [ts[0]] + b, t;
      assert forall i :: 0 < i < |body| ==> body[i] == b[i - 1];
    }
  }

  /** From outside a section with no push to come: sections, then the ending. */
  lemma {:induction false} ParseTail(s: ResponseState, ts: seq<Token>) returns (tail: TailShape)
    requires Outside(s) && s.sawSubscription && s.sawBody
    requires AllPlain(ts) && ResponseEnd(ResponseRun(s, ts))
    ensures tail.Valid() && ts == tail.Flatten()
    decreases |ts|, 1
  {
    hide Matches, FlattenSections, IsBody;
    if ts != [] { assert IsPlain(ts[0]); }
    tail := ParseLateTail(s, ts);
  }

  lemma EndingAlone(e: Ending)
    ensures TailShape([], e).Flatten() == e.Flatten()
  {
  }

  lemma NoSections(e: Ending)
    requires e.Valid()
    ensures TailShape([], e).Valid()
  {
  }

  lemma Regroup(ts: seq<Token>, body: seq<Token>, t: Option<TailShape>)
    requires ts != [] && ts[0].TSubStart?
    requires t.Some? ==> ts[1..] == body + [TSubEnd] + t.value.Flatten()
    requires t.None? ==> ts[1..] == body + [TError]
    ensures ts == [TSubStart] + (body + (if t.Some? then [TSubEnd] + t.value.Flatten() else [TError]))
  {
    hide TailShape.Flatten;
    assert ts == [ts[0]] + ts[1..];
  }

  /** One accepted token off the front. */
  lemma Advance(s: ResponseState, ts: seq<Token>) returns (next: ResponseState)
    requires ts != [] && AllPlain(ts) && ResponseEnd(ResponseRun(s, ts))
    ensures ResponseStep(s, ts[0]) == Some(next) && IsPlain(ts[0])
    ensures AllPlain(ts[1..]) && ResponseEnd(ResponseRun(next, ts[1..])) && ts == [ts[0]] + ts[1..]
  {
    hide ResponseStep;
    next := ResponseStep(s, ts[0]).value;
  }

  /** No push at the front: sections, then the ending. */
  lemma {:induction false} ParseLateTail(s: ResponseState, ts: seq<Token>) returns (tail: TailShape)
    requires Outside(s) && (ts == [] || ts[0].TError? || ts[0].TSubStart?)
    requires AllPlain(ts) && ResponseEnd(ResponseRun(s, ts))
    ensures tail.Valid() && ts == tail.Flatten()
    decreases |ts|, 0
  {
    hide Matches, FlattenSections, IsBody, ResponseRun, AllPlain, TailShape.Flatten, TailShape.Valid;
    if ts == [] {
      NoSections(Complete);
      EndingAlone(Complete);
      tail := TailShape([], Complete);
    } else {
      var next := Advance(s, ts);
      if ts[0].TError? {
        AfterError(next, ts[1..]);
        NoSections(Failure);
        EndingAlone(Failure);
        tail := TailShape([], Failure);
      } else {
        var body, t := ParseOpen(next, ts[1..]);
        tail := SectionFirst(body, t);
        Regroup(ts, body, t);
      }
    }
  }

  /** A section in front of what follows it, as a tail. */
  lemma SectionFirst(body: seq<Token>, rest: Option<TailShape>) returns (tail: TailShape)
    requires IsBody(body) && (rest.Some? ==> rest.value.Valid())
    ensures tail.Valid()
    ensures tail.Flatten() == [TSubStart] + (body + (if rest.Some? then [TSubEnd] + rest.value.Flatten() else [TError]))
  {
    hide IsBody;
    match rest
    case Some(t) =>
      tail := TailShape([body] + t.sections, t.ending);
      assert tail.sections[1..] == t.sections;
    case None =>
      tail := TailShape([], OpenFailure(body));
  }

  lemma {:induction false} ParsePush(s: ResponseState, ts: seq<Token>) returns (ps: seq<Push>, tail: TailShape)
    requires BeforeSections(s) && s.sawBody && (s.lastResult.None? || s.hasDetails)
    requires AllPlain(ts) && ResponseEnd(ResponseRun(s, ts))
    ensures (forall i :: 0 <= i < |ps| ==> ps[i].Valid()) && tail.Valid() && ts == FlattenPushes(ps) + tail.Flatten()
    decreases |ts|
  {
    hide FlattenSections, Matches, FlattenPushes;
    if ts == [] || ts[0].TError? || ts[0].TSubStart? {
      tail := ParseLateTail(s, ts);
      ps := [];
      assert FlattenPushes([]) + tail.Flatten() == tail.Flatten() by { NoPushes(tail.Flatten()); }
    } else {
      assert IsPlain(ts[0]) && ts == [ts[0]] + ts[1..];
      assert ts[0].TResult?;
      ps, tail := ParseResult(s, ts);
    }
  }

  lemma NoPushes(k: seq<Token>)
    ensures FlattenPushes([]) + k == k
  {
    assert [] + k == k;
  }

  lemma OnePush(p: Push, ps: seq<Push>, k: seq<Token>)
    ensures FlattenPushes([p] + ps) + k == p.Flatten() + (FlattenPushes(ps) + k)
  {
    assert ([p] + ps)[1..] == ps;
  }

  /** A push result at the front, perhaps with its companion. */
  lemma {:induction false} ParseResult(s: ResponseState, ts: seq<Token>) returns (ps: seq<Push>, tail: TailShape)
    requires BeforeSections(s) && ts != [] && ts[0].TResult?
    requires AllPlain(ts) && ResponseEnd(ResponseRun(s, ts))
    ensures (forall i :: 0 <= i < |ps| ==> ps[i].Valid()) && tail.Valid() && ts == FlattenPushes(ps) + tail.Flatten()
    decreases |ts|, 0
  {
    hide FlattenSections, Matches, FlattenPushes, IsBody;
    var next, rest := ResponseStep(s, ts[0]).value, ts[1..];
    assert ts == [ts[0]] + rest;
    if rest != [] && rest[0].TDetails? {
      var after := ResponseStep(next, rest[0]).value;
      assert rest == [rest[0]] + rest[1..];
      var qs, t := ParsePush(after, rest[1..]);
      var p := Push(ts[0], Some(rest[0]));
      ps, tail := [p] + qs, t;
      OnePush(p, qs, t.Flatten());
      assert p.Flatten() == [ts[0], rest[0]];
    } else {
      var p := Push(ts[0], None);
      assert p.Flatten() == [ts[0]];
      if rest == [] || rest[0].TError? || rest[0].TSubStart? {
        tail := ParseLateTail(next, rest);
        ps := [p] + [];
        OnePush(p, [], tail.Flatten());
        NoPushes(tail.Flatten());
      } else {
        assert IsPlain(rest[0]);
        var qs, t := ParseResult(next, rest);
        ps, tail := [p] + qs, t;
        OnePush(p, qs, t.Flatten());
      }
    }
  }

  /** From the header, or the lease behind it, on. */
  lemma ParseBody(s: ResponseState, ts: seq<Token>) returns (ps: seq<Push>, tail: TailShape)
    requires s == ResponseStart || s == ResponseStart.(sawLease := true)
    requires AllPlain(ts) && ResponseEnd(ResponseRun(s, ts)) && (ts != [] ==> !ts[0].TLease?)
    ensures (forall i :: 0 <= i < |ps| ==> ps[i].Valid()) && tail.Valid() && ts == FlattenPushes(ps) + tail.Flatten()
  {
    hide FlattenSections, Matches, FlattenPushes, IsBody;
    if ts == [] || ts[0].TError? || ts[0].TSubStart? {
      tail := ParseLateTail(s, ts);
      ps := [];
      NoPushes(tail.Flatten());
    } else {
      assert IsPlain(ts[0]);
      ps, tail := ParseResult(s, ts);
    }
  }

  lemma AcceptedHasShape(ts: seq<Token>) returns (r: ResponseShape)
    requires AllPlain(ts) && AcceptsResponse(ts)
    ensures r.Valid() && r.Flatten() == ts
  {
    hide FlattenSections, Matches, FlattenPushes, IsBody;
    var rest := ts[1..];
    assert ts == [TRespHeader] + rest;
    if rest != [] && rest[0].TLease? {
      assert rest == [TLease] + rest[1..];
      var ps, tail := ParseBody(ResponseStart.(sawLease := true), rest[1..]);
      r := ResponseShape(true, ps, tail.sections, tail.ending);
    } else {
      var ps, tail := ParseBody(ResponseStart, rest);
      r := ResponseShape(false, ps, tail.sections, tail.ending);
    }
  }

  ghost predicate IsResponseShape(ts: seq<Token>) { exists r: ResponseShape :: r.Valid() && r.Flatten() == ts }

  /** The response automaton accepts exactly the response grammar. */
  lemma ResponseGrammar(ts: seq<Token>)
    requires AllPlain(ts)
    ensures AcceptsResponse(ts) <==> IsResponseShape(ts)
  {
    hide AcceptsResponse;
    if AcceptsResponse(ts) {
      var r := AcceptedHasShape(ts);
    }
    if r: ResponseShape :| r.Valid() && r.Flatten() == ts {
      ShapeAccepted(r);
    }
  }
}
