/** What erasing or inserting unknown frames does to acceptance (packages/core/src/message.ts:700-838). */
module UnknownFrames {
  import opened Results
  import opened Hosts
  import opened Messages
  import opened FrameRules
  import opened Grammar

  function Erase(ts: seq<Token>): seq<Token> {
    if ts == [] then [] else (if ts[0].TUnknown? then [] else [ts[0]]) + Erase(ts[1..])
  }

  lemma {:induction false} RequestRunErased(s: RequestState, ts: seq<Token>)
    ensures RequestRun(s, Erase(ts)) == RequestRun(s, ts)
    decreases |ts|
  {
    if ts != [] {
      var rest := Erase(ts[1..]);
      if ts[0].TUnknown? {
        assert Erase(ts) == rest;
        RequestRunErased(s, ts[1..]);
      } else {
        assert Erase(ts)[1..] == rest;
        if RequestStep(s, ts[0]).Some? { RequestRunErased(RequestStep(s, ts[0]).value, ts[1..]); }
      }
    }
  }

  /**
   * Two requests that differ only in unknown frames after the header stand or fall together,
   * so erasing or inserting such frames never changes acceptance.
   */
  lemma RequestTransparency(ts: seq<Token>, us: seq<Token>)
    requires ts != [] && us != [] && ts[0] == us[0] && Erase(ts[1..]) == Erase(us[1..])
    ensures AcceptsRequest(ts) <==> AcceptsRequest(us)
  {
    RequestRunErased(RequestStart, ts[1..]);
    RequestRunErased(RequestStart, us[1..]);
  }

  // ----- Responses ---------------------------------------------------------------------------------

  /** No unknown frame stands ahead of a lease. */
  predicate NoneBeforeLease(ts: seq<Token>) {
    forall i, j :: 0 <= i < j < |ts| ==> !(ts[i].TUnknown? && ts[j].TLease?)
  }

  /** No unknown frame stands after an error. */
  predicate NoneAfterError(ts: seq<Token>) {
    forall i, j :: 0 <= i < j < |ts| ==> !(ts[i].TError? && ts[j].TUnknown?)
  }

  predicate HasLease(ts: seq<Token>) { exists i :: 0 <= i < |ts| && ts[i].TLease? }

  predicate HasUnknown(ts: seq<Token>) { exists i :: 0 <= i < |ts| && ts[i].TUnknown? }

  /** The original and the erased run differ at most in `sawBody`, set by an unknown frame. */
  predicate Erases(s: ResponseState, e: ResponseState) {
    s == e.(sawBody := s.sawBody) && (e.sawBody ==> s.sawBody)
  }

  predicate Blocked(s: ResponseState, e: ResponseState, ts: seq<Token>) {
    || (s.sawBody && !e.sawBody && HasLease(ts))
    || (e.errorSeen && HasUnknown(ts))
  }

  predicate SameEnd(a: Option<ResponseState>, b: Option<ResponseState>) {
    a.Some? && b.Some? ==> a.value == b.value.(sawBody := a.value.sawBody)
  }

  lemma Split(ts: seq<Token>)
    requires ts != []
    ensures NoneBeforeLease(ts) <==> NoneBeforeLease(ts[1..]) && !(ts[0].TUnknown? && HasLease(ts[1..]))
    ensures NoneAfterError(ts) <==> NoneAfterError(ts[1..]) && !(ts[0].TError? && HasUnknown(ts[1..]))
    ensures HasLease(ts) <==> ts[0].TLease? || HasLease(ts[1..])
    ensures HasUnknown(ts) <==> ts[0].TUnknown? || HasUnknown(ts[1..])
  {
    var us := ts[1..];
    forall i | 0 <= i < |us| ensures us[i] == ts[i + 1] {}
    assert forall i :: 0 < i < |ts| ==> ts[i] == us[i - 1];
    if HasLease(us) { var i :| 0 <= i < |us| && us[i].TLease?; assert ts[i + 1].TLease?; }
    if HasUnknown(us) { var i :| 0 <= i < |us| && us[i].TUnknown?; assert ts[i + 1].TUnknown?; }
  }

  lemma Nothing()
    ensures NoneBeforeLease([]) && NoneAfterError([]) && !HasLease([]) && !HasUnknown([])
  {
  }

  /** One step of the original against one (or none) of the erased. */
  lemma StepErased(s: ResponseState, e: ResponseState, t: Token)
    requires Erases(s, e)
    ensures s.errorSeen ==> ResponseStep(s, t).None?
    ensures t.TUnknown? && !s.errorSeen ==> ResponseStep(s, t).Some? && ResponseStep(s, t).value == s.(sawBody := true)
    ensures !t.TUnknown? && ResponseStep(e, t).None? ==> ResponseStep(s, t).None?
    ensures !t.TUnknown? && ResponseStep(e, t).Some? ==>
              (ResponseStep(s, t).None? <==> t.TLease? && s.sawBody && !e.sawBody)
    ensures !t.TUnknown? && ResponseStep(e, t).Some? && ResponseStep(s, t).Some? ==>
              && Erases(ResponseStep(s, t).value, ResponseStep(e, t).value)
              && (ResponseStep(e, t).value.errorSeen <==> t.TError?)
              && (s.sawBody ==> ResponseStep(s, t).value.sawBody)
              && (ResponseStep(e, t).value.sawBody ==> e.sawBody || t.TError? || t.TResult? || t.TDetails? || t.TSubStart?)
  {
  }

  lemma {:induction false} LateLease(s: ResponseState, ts: seq<Token>)
    requires s.sawBody && HasLease(ts)
    ensures ResponseRun(s, ts).None?
    decreases |ts|
  {
    if ts[0].TLease? || ResponseStep(s, ts[0]).None? { return; }
    Split(ts);
    LateLease(ResponseStep(s, ts[0]).value, ts[1..]);
  }

  /** The original run succeeds exactly when the erased one does and nothing blocks it. */
  ghost predicate Agree(s: ResponseState, e: ResponseState, ts: seq<Token>) {
    && (ResponseRun(s, ts).Some? <==>
          ResponseRun(e, Erase(ts)).Some? && NoneBeforeLease(ts) && NoneAfterError(ts) && !Blocked(s, e, ts))
    && SameEnd(ResponseRun(s, ts), ResponseRun(e, Erase(ts)))
  }

  lemma UnknownTurn(s: ResponseState, e: ResponseState, ts: seq<Token>)
    requires Erases(s, e) && ts != [] && ts[0].TUnknown?
    requires !s.errorSeen ==> Agree(s.(sawBody := true), e, ts[1..])
    ensures Agree(s, e, ts)
  {
    hide ResponseStep, HasLease, HasUnknown, NoneBeforeLease, NoneAfterError;
    if s.sawBody && HasLease(ts) { LateLease(s, ts); }
    Split(ts);
    StepErased(s, e, ts[0]);
    assert Erase(ts) == Erase(ts[1..]);
  }

  lemma KnownTurn(s: ResponseState, e: ResponseState, ts: seq<Token>)
    requires Erases(s, e) && ts != [] && !ts[0].TUnknown?
    requires ResponseStep(s, ts[0]).Some? && ResponseStep(e, ts[0]).Some? ==>
               Agree(ResponseStep(s, ts[0]).value, ResponseStep(e, ts[0]).value, ts[1..])
    ensures Agree(s, e, ts)
  {
    hide ResponseStep, HasLease, HasUnknown, NoneBeforeLease, NoneAfterError;
    if s.sawBody && HasLease(ts) { LateLease(s, ts); }
    Split(ts);
    StepErased(s, e, ts[0]);
    assert Erase(ts)[1..] == Erase(ts[1..]) && Erase(ts)[0] == ts[0];
  }

  lemma {:induction false} ResponseRunErased(s: ResponseState, e: ResponseState, ts: seq<Token>)
    requires Erases(s, e)
    ensures Agree(s, e, ts)
    decreases |ts|
  {
    hide ResponseStep;
    if ts == [] {
      Nothing();
    } else if ts[0].TUnknown? {
      if !s.errorSeen { ResponseRunErased(s.(sawBody := true), e, ts[1..]); }
      UnknownTurn(s, e, ts);
    } else {
      StepErased(s, e, ts[0]);
      if ResponseStep(s, ts[0]).Some? {
        ResponseRunErased(ResponseStep(s, ts[0]).value, ResponseStep(e, ts[0]).value, ts[1..]);
      }
      KnownTurn(s, e, ts);
    }
  }

  /** The response with its unknown frames after the header erased. */
  function Erased(ts: seq<Token>): seq<Token>
    requires ts != []
  {
    [ts[0]] + Erase(ts[1..])
  }

  /**
   * A response is accepted exactly when its erasure is and no unknown frame stands ahead of a lease
   * or after an error. Left to right: erasing preserves acceptance. Right to left: inserting does,
   * except in those two places.
   */
  lemma ResponseTransparency(ts: seq<Token>)
    requires ts != []
    ensures AcceptsResponse(ts) <==> AcceptsResponse(Erased(ts)) && NoneBeforeLease(ts[1..]) && NoneAfterError(ts[1..])
  {
    hide ResponseRun, Erase, NoneBeforeLease, NoneAfterError;
    ResponseRunErased(ResponseStart, ResponseStart, ts[1..]);
    assert Erased(ts)[1..] == Erase(ts[1..]);
  }

  // ----- A trip over the wire -----------------------------------------------------------------------

  lemma WireErrors(rs: seq<OpResult>)
    ensures ErrorIndexes(WireResults(rs)) == ErrorIndexes(rs)
  {
    var ws := WireResults(rs);
    forall i | 0 <= i < |rs| ensures ws[i].ErrorResult? == rs[i].ErrorResult? && ws[i].opIndex == rs[i].opIndex {}
    forall x | x in ErrorIndexes(rs) ensures x in ErrorIndexes(ws) {
      var r :| r in rs && r.ErrorResult? && r.opIndex == x;
      var i :| 0 <= i < |rs| && rs[i] == r;
      assert ws[i] in ws;
    }
    forall x | x in ErrorIndexes(ws) ensures x in ErrorIndexes(rs) {
      var r :| r in ws && r.ErrorResult? && r.opIndex == x;
      var i :| 0 <= i < |ws| && ws[i] == r;
      assert rs[i] in rs;
    }
  }

  lemma WireIndexes(host: Host, es: seq<DetailsEntry>)
    ensures EntryIndexes(WireEntries(host, es)) == EntryIndexes(es)
  {
    var ws := WireEntries(host, es);
    forall i | 0 <= i < |es| ensures ws[i].opIndex == es[i].opIndex {}
    forall x | x in EntryIndexes(es) ensures x in EntryIndexes(ws) {
      var e :| e in es && e.opIndex == x;
      var i :| 0 <= i < |es| && es[i] == e;
      assert ws[i] in ws;
    }
    forall x | x in EntryIndexes(ws) ensures x in EntryIndexes(es) {
      var e :| e in ws && e.opIndex == x;
      var i :| 0 <= i < |ws| && ws[i] == e;
      assert es[i] in es;
    }
  }

  /** The trip leaves what the validators look at unchanged. */
  lemma WireToken(host: Host, f: Frame)
    ensures TokenOf(WireFrame(host, f)) == TokenOf(f)
  {
    hide ErrorIndexes, EntryIndexes, WireResults, WireEntries;
    if f.PushResult? { WireErrors(f.results); }
    if f.PushResultDetails? { WireIndexes(host, f.entries); }
  }
}
