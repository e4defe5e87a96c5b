/** Which details companions a response may carry, told from its frames (packages/core/src/message.ts:764-797). */
module Companions {
  import opened Results
  import opened Messages
  import opened Grammar
  import opened ResponseGrammar
  import Accounting

  /** Among the frames before `n`, the one at `i` is the last push result and no companion has come since. */
  predicate Awaits(fs: seq<Frame>, i: nat, n: nat) {
    && i < n <= |fs| && fs[i].PushResult?
    && forall k :: i < k < n ==> !fs[k].PushResult? && !fs[k].PushResultDetails?
  }

  // ----- What the validator remembers ------------------------------------------------------------------

  predicate HasError(fs: seq<Frame>, n: nat)
    requires n <= |fs|
  {
    exists i :: 0 <= i < n && fs[i].ErrorFrame?
  }

  predicate HasSection(fs: seq<Frame>, n: nat)
    requires n <= |fs|
  {
    exists i :: 0 <= i < n && fs[i].SubStart?
  }

  /** The last push result among the first `n` frames. */
  function LastResult(fs: seq<Frame>, n: nat): (i: Option<nat>)
    requires n <= |fs|
    ensures i.Some? ==> i.value < n && fs[i.value].PushResult?
  {
    if n == 0 then None else if fs[n - 1].PushResult? then Some(n - 1) else LastResult(fs, n - 1)
  }

  /** A companion has come since that result. */
  function Accompanied(fs: seq<Frame>, n: nat): bool
    requires n <= |fs|
  {
    n > 0 && !fs[n - 1].PushResult? && (fs[n - 1].PushResultDetails? || Accompanied(fs, n - 1))
  }

  lemma {:induction false} AwaitsMeans(fs: seq<Frame>, i: nat, n: nat)
    requires n <= |fs|
    ensures Awaits(fs, i, n) <==> LastResult(fs, n) == Some(i) && !Accompanied(fs, n)
  {
    if n > 0 && !fs[n - 1].PushResult? { AwaitsMeans(fs, i, n - 1); }
  }

  ghost predicate Remembered(s: ResponseState, fs: seq<Frame>, n: nat)
    requires n <= |fs|
  {
    && (s.errorSeen <==> HasError(fs, n))
    && (s.sawSubscription <==> HasSection(fs, n))
    && s.lastResult == (if LastResult(fs, n).Some? then Some(TokenOf(fs[LastResult(fs, n).value])) else None)
    && (s.lastResult.Some? ==> (s.hasDetails <==> Accompanied(fs, n)))
  }

  lemma StepRemembers(s: ResponseState, fs: seq<Frame>, n: nat)
    requires n < |fs| && Remembered(s, fs, n) && ResponseStep(s, TokenOf(fs[n])).Some?
    ensures Remembered(ResponseStep(s, TokenOf(fs[n])).value, fs, n + 1)
  {
    hide TokenOf, HasError, HasSection;
    Grown(fs, n);
    Accounting.TokenKind(fs[n]);
    ResultKind(fs[n]);
    TokenRemembers(s, TokenOf(fs[n]));
  }

  lemma Grown(fs: seq<Frame>, n: nat)
    requires n < |fs|
    ensures HasError(fs, n + 1) <==> HasError(fs, n) || fs[n].ErrorFrame?
    ensures HasSection(fs, n + 1) <==> HasSection(fs, n) || fs[n].SubStart?
  {
  }

  lemma ResultKind(f: Frame)
    ensures TokenOf(f).TResult? <==> f.PushResult?
    ensures TokenOf(f).TDetails? <==> f.PushResultDetails?
  {
    hide ErrorIndexes, EntryIndexes;
  }

  lemma TokenRemembers(s: ResponseState, t: Token)
    requires ResponseStep(s, t).Some?
    ensures var n := ResponseStep(s, t).value;
            && (n.errorSeen <==> s.errorSeen || t.TError?)
            && (n.sawSubscription <==> s.sawSubscription || t.TSubStart?)
            && n.lastResult == (if t.TResult? then Some(t) else s.lastResult)
            && n.hasDetails == (if t.TResult? then false else t.TDetails? || s.hasDetails)
            && (t.TDetails? ==> s.lastResult.Some?)
  {
    hide Matches;
    match t
    case TSubStart =>
    case TSubEnd =>
    case TCommit =>
    case TSegment =>
    case TDetails(_, _) =>
    case TResult(_, _, _) =>
    case TLease =>
    case TError =>
    case _ =>
  }

  lemma {:induction false} StateAt(fs: seq<Frame>, n: nat)
    requires AcceptsResponse(Tokens(fs)) && 1 <= n <= |fs|
    ensures var r := ResponseRun(ResponseStart, Tokens(fs)[1..n]); r.Some? && Remembered(r.value, fs, n)
    decreases n
  {
    hide TokenOf, ResponseRun, ResponseStep, Remembered;
    var ts := Tokens(fs);
    assert ts[1..][..n - 1] == ts[1..n];
    Accounting.PrefixRuns(ResponseStart, ts[1..], n - 1);
    if n == 1 {
      assert ts[1..1] == [];
      Accounting.NothingRuns(ResponseStart);
      Accounting.StartsWithHeader(fs);
      StartRemembers(fs);
    } else {
      StateAt(fs, n - 1);
      assert ts[1..n] == ts[1..n - 1] + [ts[n - 1]];
      RunConcat(ResponseStart, ts[1..n - 1], [ts[n - 1]]);
      RunOne(ResponseRun(ResponseStart, ts[1..n - 1]).value, ts[n - 1]);
      StepRemembers(ResponseRun(ResponseStart, ts[1..n - 1]).value, fs, n - 1);
    }
  }

  lemma StartRemembers(fs: seq<Frame>)
    requires fs != [] && fs[0].RespHeader?
    ensures Remembered(ResponseStart, fs, 1)
  {
  }

  // ----- The companion rule ----------------------------------------------------------------------------------

  /** In the state reached, a companion is let through exactly when it is due. */
  lemma CompanionStep(s: ResponseState, fs: seq<Frame>, f: Frame)
    requires Remembered(s, fs, |fs|) && f.PushResultDetails?
    ensures ResponseStep(s, TokenOf(f)).Some? <==>
              && !HasError(fs, |fs|) && !HasSection(fs, |fs|)
              && exists i: nat :: Awaits(fs, i, |fs|) && Accompanies(f, fs[i])
  {
    hide TokenOf, HasError, HasSection, Matches, Awaits, Accompanies;
    ResultKind(f);
    forall i: nat ensures Awaits(fs, i, |fs|) <==> LastResult(fs, |fs|) == Some(i) && !Accompanied(fs, |fs|) { AwaitsMeans(fs, i, |fs|); }
    if LastResult(fs, |fs|).Some? { MatchesMeans(fs[LastResult(fs, |fs|).value], f); }
  }

  /**
   * A details companion may follow an accepted response exactly when there is no ERROR and no section
   * in it, and its last push result, not yet accompanied, is the rejected one the companion is of.
   */
  lemma CompanionAccepted(fs: seq<Frame>, f: Frame)
    requires AcceptsResponse(Tokens(fs)) && f.PushResultDetails?
    ensures AcceptsResponse(Tokens(fs + [f])) <==>
              && !HasError(fs, |fs|) && !HasSection(fs, |fs|)
              && exists i: nat :: Awaits(fs, i, |fs|) && Accompanies(f, fs[i])
  {
    hide TokenOf, ResponseRun, ResponseStep, Remembered, HasError, HasSection, Awaits, Accompanies;
    var ts, all := Tokens(fs), Tokens(fs + [f]);
    assert all == ts + [TokenOf(f)];
    assert all[1..] == ts[1..] + [TokenOf(f)] && ts[1..|fs|] == ts[1..];
    StateAt(fs, |fs|);
    var s := ResponseRun(ResponseStart, ts[1..]).value;
    RunConcat(ResponseStart, ts[1..], [TokenOf(f)]);
    RunOne(s, TokenOf(f));
    CompanionStep(s, fs, f);
    ResultKind(f);
    DetailsKeep(s, TokenOf(f));
  }

  lemma DetailsKeep(s: ResponseState, t: Token)
    requires t.TDetails?
    ensures ResponseStep(s, t).Some? ==>
              ResponseStep(s, t).value.inSubscription == s.inSubscription && ResponseStep(s, t).value.errorSeen == s.errorSeen
  {
  }

  /** Every companion in an accepted response belongs to the result it follows. */
  lemma CompanionsBelong(fs: seq<Frame>, j: nat) returns (i: nat)
    requires AcceptsResponse(Tokens(fs)) && j < |fs| && fs[j].PushResultDetails?
    ensures i < j && fs[i].PushResult? && Accompanies(fs[j], fs[i])
    ensures forall k :: i < k < j ==> !fs[k].PushResult? && !fs[k].PushResultDetails?
  {
    hide TokenOf, ResponseRun, ResponseStep, Remembered, HasError, HasSection, Accompanies;
    Accounting.StartsWithHeader(fs);
    var ts, front := Tokens(fs), fs[..j];
    StateAt(fs, j);
    StateAt(fs, j + 1);
    assert ts[1..j + 1] == ts[1..j] + [ts[j]];
    var s := ResponseRun(ResponseStart, ts[1..j]).value;
    RunConcat(ResponseStart, ts[1..j], [ts[j]]);
    RunOne(s, ts[j]);
    RememberedFront(s, fs, j);
    CompanionStep(s, front, fs[j]);
    i :| Awaits(front, i, j) && Accompanies(fs[j], front[i]);
  }

  lemma RememberedFront(s: ResponseState, fs: seq<Frame>, n: nat)
    requires n <= |fs| && Remembered(s, fs, n)
    ensures Remembered(s, fs[..n], n)
  {
    hide TokenOf;
    SameResult(fs, n, n);
    assert forall i :: 0 <= i < n ==> fs[..n][i] == fs[i];
  }

  lemma {:induction false} SameResult(fs: seq<Frame>, n: nat, k: nat)
    requires k <= n <= |fs|
    ensures LastResult(fs[..n], k) == LastResult(fs, k) && Accompanied(fs[..n], k) == Accompanied(fs, k)
  {
    if k > 0 { SameResult(fs, n, k - 1); }
  }
}
