/** Safety and liveness of the auto-sync scheduler over whole runs. */
module AutoSyncRuns {
  import opened Results
  import opened AutoSync

  /** The host could have delivered these events, one after the other. */
  predicate Possible(s: State, es: seq<Event>)
    decreases |es|
  {
    es == [] || (Enabled(s, es[0]) && Possible(Step(s, es[0]), es[1..]))
  }

  function Run(s: State, es: seq<Event>): State
    requires Possible(s, es)
    decreases |es|
  {
    if es == [] then s else Run(Step(s, es[0]), es[1..])
  }

  lemma {:induction false} RunKeeps(s: State, es: seq<Event>)
    requires Inv(s) && Possible(s, es)
    ensures Inv(Run(s, es))
    decreases |es|
  {
    hide Inv, Step, Enabled;
    if es != [] {
      StepKeeps(s, es[0]);
      RunKeeps(Step(s, es[0]), es[1..]);
    }
  }

  /**
   * In every interleaving: at most one auto-sync run is in flight; the only timer that can fire is the
   * one the client holds; while the client is open that timer is armed exactly when `retryAt` is set, and is due then.
   */
  lemma Safety(autoSync: bool, preflight: bool, es: seq<Event>)
    requires Possible(Start(autoSync, preflight), es)
    ensures var s := Run(Start(autoSync, preflight), es);
            && s.inFlight <= 1 && (s.running <==> s.inFlight == 1)
            && |s.armed| <= 1 && s.armed.Keys == (if s.timer.Some? then {s.timer.value} else {})
            && (!s.closed ==> (s.timer.Some? <==> s.retryAt.Some?))
            && (s.timer.Some? ==> s.retryAt == Some(s.armed[s.timer.value]))
  {
    hide Possible, Run, Step;
    InvStart(autoSync, preflight);
    RunKeeps(Start(autoSync, preflight), es);
  }

  // ----- The retry, told from the events --------------------------------------------------------------------

  /** A background intent that gets past the guard. */
  predicate Asks(s: State, e: Event) { e.Background? && s.autoSync && !s.closed && !s.paused && !s.preflight }

  /** When that intent wants its sync. */
  function Deadline(e: Event): int
    requires e.Background?
  {
    if e.delay < 0 then e.now else e.now + e.delay
  }

  /** An event that drops the pending retry. */
  predicate Clears(s: State, e: Event) {
    match e
    case Interactive => s.autoSync && !s.closed && !s.paused && !s.preflight
    case TimerFired(_) => true
    case RunSettled => s.again && !s.closed && !s.paused && !s.preflight
    case PauseCalled => true
    case PreflightCalled => !s.closed && s.barrier.None?
    case ResumeContinued => s.autoSync && !s.closed && !s.preflight
    case _ => false
  }

  function Earlier(pending: Option<int>, deadline: int): int {
    if pending.Some? && pending.value <= deadline then pending.value else deadline
  }

  /** What a step makes of the pending retry. */
  lemma RetryStep(s: State, e: Event)
    requires Enabled(s, e) && !Step(s, e).closed
    ensures !s.closed
    ensures Clears(s, e) ==> Step(s, e).retryAt.None?
    ensures Asks(s, e) ==> Step(s, e).retryAt == Some(Earlier(s.retryAt, Deadline(e)))
    ensures !Clears(s, e) && !Asks(s, e) ==> Step(s, e).retryAt == s.retryAt
  {
    hide Command, RequestAutoSync, RequestBackgroundSync, RunAutoSync, BeginSecurityPreflight, ContinueActivate, Pause, Passes;
    match e
    case Interactive => RequestClears(s);
    case Background(now, delay) => BackgroundAsks(s, now, Max(0, delay));
    case Microtask => RunKeepsRetry(s.(microtasks := s.microtasks - 1, scheduled := false));
    case RunSettled => RequestClears(s.(inFlight := s.inFlight - 1, running := false, again := false));
    case TimerFired(id) => RequestClears(s.(armed := s.armed - {id}, timer := None, retryAt := None));
    case CommandCalled(name) => CommandKeepsRetry(s, name);
    case PreflightCalled => PreflightClears(s);
    case ActivateContinued(i, fulfilled) => ActivateKeepsRetry(s, i, fulfilled);
    case PauseCalled => PauseClears(s);
    case ResumeCalled => CommandKeepsRetry(s, "connectRealtime");
    case ResumeContinued => RequestClears(s.(resuming := s.resuming - 1, paused := false));
    case _ =>
  }

  lemma CommandKeepsRetry(s: State, name: string)
    ensures Command(s, name).retryAt == s.retryAt && Command(s, name).closed == s.closed
  {
    hide Passes;
  }

  lemma RunKeepsRetry(s: State)
    ensures RunAutoSync(s).retryAt == s.retryAt && RunAutoSync(s).closed == s.closed
  {
    hide Command;
    CommandKeepsRetry(s.(running := true, inFlight := s.inFlight + 1, starts := s.starts + 1, owed := false), "syncUntilIdle");
  }

  lemma PreflightClears(s: State)
    ensures BeginSecurityPreflight(s).retryAt == if s.closed || s.barrier.Some? then s.retryAt else None
    ensures BeginSecurityPreflight(s).closed == s.closed
  {
    hide Command;
    CommandKeepsRetry(EnterPreflight(s), "beginSecurityPreflight");
  }

  lemma ActivateKeepsRetry(s: State, i: nat, fulfilled: bool)
    requires i < |s.waiting|
    ensures ContinueActivate(s, i, fulfilled).retryAt == s.retryAt && ContinueActivate(s, i, fulfilled).closed == s.closed
  {
    hide Command, Passes;
    CommandKeepsRetry(s.(waiting := s.waiting[..i] + s.waiting[i + 1..]), "activateSecurity");
  }

  lemma PauseClears(s: State)
    ensures Pause(s).retryAt.None? && Pause(s).closed == s.closed
  {
    hide Command;
    CommandKeepsRetry(ClearRetry(s.(paused := true)).(owed := false), "disconnectRealtime");
  }

  lemma RequestClears(s: State)
    ensures RequestAutoSync(s).retryAt == if Guarded(s) then s.retryAt else None
    ensures RequestAutoSync(s).closed == s.closed
  {
  }

  lemma BackgroundAsks(s: State, now: int, delay: int)
    ensures RequestBackgroundSync(s, now, delay).retryAt
         == if Guarded(s) then s.retryAt else Some(Earlier(s.retryAt, now + delay))
    ensures RequestBackgroundSync(s, now, delay).closed == s.closed
  {
  }

  /** The state the event at `i` finds. */
  function At(s: State, es: seq<Event>, i: nat): State
    requires Possible(s, es) && i <= |es|
  {
    RunPrefix(s, es, i);
    Run(s, es[..i])
  }

  lemma NextAt(s: State, es: seq<Event>, i: nat)
    requires Possible(s, es) && i < |es|
    ensures Enabled(At(s, es, i), es[i]) && At(s, es, i + 1) == Step(At(s, es, i), es[i])
  {
    hide Step, Enabled;
    RunPrefix(s, es, i + 1);
    var front := es[..i + 1];
    RunPrefix(s, front, i);
    assert front[..i] == es[..i] && front[i..] == [es[i]];
    var t := At(s, es, i);
    assert [es[i]][1..] == [];
    assert Possible(t, [es[i]]) && Run(t, [es[i]]) == Run(Step(t, es[i]), []);
  }

  /** `c` is where the events since the last one that dropped the retry begin. */
  predicate Since(s: State, es: seq<Event>, c: nat, n: nat)
    requires Possible(s, es) && n <= |es|
  {
    && c <= n && (c > 0 ==> Clears(At(s, es, c - 1), es[c - 1]))
    && forall i :: c <= i < n ==> !Clears(At(s, es, i), es[i])
  }

  predicate AsksAt(s: State, es: seq<Event>, i: nat)
    requires Possible(s, es) && i < |es|
  {
    Asks(At(s, es, i), es[i])
  }

  /** `due` is the earliest deadline among the intents from `c` to `n`, or nothing when there is none. */
  predicate Earliest(s: State, es: seq<Event>, c: nat, n: nat, due: Option<int>)
    requires Possible(s, es) && n <= |es|
  {
    match due
    case None => forall i :: c <= i < n ==> !AsksAt(s, es, i)
    case Some(d) =>
      && (exists i :: c <= i < n && AsksAt(s, es, i) && Deadline(es[i]) == d)
      && forall i :: c <= i < n && AsksAt(s, es, i) ==> d <= Deadline(es[i])
  }

  lemma {:induction false} RetrySince(s: State, es: seq<Event>, n: nat) returns (c: nat)
    requires Possible(s, es) && n <= |es| && s.retryAt.None?
    ensures Since(s, es, c, n)
    ensures !At(s, es, n).closed ==> Earliest(s, es, c, n, At(s, es, n).retryAt)
    decreases n
  {
    hide Step, Enabled, Run, Possible, Clears, At, Deadline;
    if n == 0 {
      c := 0;
      AtStart(s, es);
    } else {
      var b := RetrySince(s, es, n - 1);
      NextAt(s, es, n - 1);
      var t, e := At(s, es, n - 1), es[n - 1];
      c := if Clears(t, e) then n else b;
      if !Step(t, e).closed {
        RetryStep(t, e);
        assert AsksAt(s, es, n - 1) <==> Asks(t, e);
      }
    }
  }

  lemma AtStart(s: State, es: seq<Event>)
    requires Possible(s, es)
    ensures At(s, es, 0) == s
  {
    assert es[..0] == [];
  }

  /**
   * While the client is open, `retryAt` is the earliest deadline among the background intents that
   * passed the guard since the last event that dropped the retry, and nothing when there was none; a
   * timer is armed exactly then, and it is due at that time.
   */
  lemma RetryAsAsked(autoSync: bool, preflight: bool, es: seq<Event>) returns (c: nat)
    requires Possible(Start(autoSync, preflight), es)
    ensures Since(Start(autoSync, preflight), es, c, |es|)
    ensures var start := Start(autoSync, preflight);
            var s := Run(start, es);
            !s.closed ==>
              && Earliest(start, es, c, |es|, s.retryAt)
              && (s.timer.Some? <==> s.retryAt.Some?)
              && s.armed == (if s.timer.Some? then map[s.timer.value := s.retryAt.value] else map[])
  {
    hide Step, Enabled, Run, Possible, Since, Earliest;
    var start := Start(autoSync, preflight);
    c := RetrySince(start, es, |es|);
    assert es[..|es|] == es;
    InvStart(autoSync, preflight);
    RunKeeps(start, es);
  }

  // ----- What a step leaves alone -------------------------------------------------------------------------

  /** No call, no run started, still as open as it was. */
  predicate Quiet(s: State, t: State) {
    t.autoSync == s.autoSync && t.starts == s.starts && t.calls == s.calls && t.closed == s.closed
  }

  /** At most one call, which passed the gate; a run started only if the client was open. */
  predicate Orderly(s: State, t: State, preflight: bool) {
    && t.autoSync == s.autoSync && t.starts >= s.starts && (s.closed ==> t.closed && t.starts == s.starts)
    && (t.calls == s.calls || (!s.closed && AddsAllowed(s, t, preflight)))
  }

  predicate AddsAllowed(s: State, t: State, preflight: bool) {
    && |t.calls| == |s.calls| + 1 && t.calls[..|s.calls|] == s.calls
    && !t.calls[|s.calls|].closed && t.calls[|s.calls|].preflight == preflight
    && (preflight ==> t.calls[|s.calls|].name in Allowlist())
  }

  lemma RequestQuiet(s: State)
    ensures Quiet(s, RequestAutoSync(s)) && RequestAutoSync(s).preflight == s.preflight
  {
  }

  lemma BackgroundQuiet(s: State, now: int, delay: int)
    ensures Quiet(s, RequestBackgroundSync(s, now, delay))
  {
  }

  lemma SettleQuiet(s: State)
    requires s.inFlight > 0
    ensures Quiet(s, Settle(s))
  {
    hide RequestAutoSync;
    var t := s.(inFlight := s.inFlight - 1, running := false);
    RequestQuiet(t.(again := false));
  }

  lemma FireQuiet(s: State, id: nat)
    ensures Quiet(s, FireTimer(s, id))
  {
    hide RequestAutoSync;
    RequestQuiet(s.(armed := s.armed - {id}, timer := None, retryAt := None));
  }

  lemma CommandOrderly(s: State, name: string)
    ensures Command(s, name) == s.(calls := Command(s, name).calls)
    ensures Orderly(s, Command(s, name), s.preflight)
  {
    hide Allowlist;
  }

  lemma RunOrderly(s: State)
    ensures Orderly(s, RunAutoSync(s), s.preflight)
  {
    hide Allowlist, Command;
    CommandOrderly(s.(running := true, inFlight := s.inFlight + 1, starts := s.starts + 1, owed := false), "syncUntilIdle");
  }

  lemma PreflightOrderly(s: State)
    ensures Orderly(s, BeginSecurityPreflight(s), true)
  {
    hide Allowlist, Command;
    var t := EnterPreflight(s);
    CommandOrderly(t, "beginSecurityPreflight");
  }

  lemma ActivateOrderly(s: State, i: nat, fulfilled: bool)
    requires i < |s.waiting|
    ensures Orderly(s, ContinueActivate(s, i, fulfilled), s.preflight)
  {
    hide Allowlist, Command, Passes;
    CommandOrderly(s.(waiting := s.waiting[..i] + s.waiting[i + 1..]), "activateSecurity");
  }

  lemma PauseOrderly(s: State)
    ensures Orderly(s, Pause(s), s.preflight)
  {
    hide Allowlist, Command;
    CommandOrderly(ClearRetry(s.(paused := true)).(owed := false), "disconnectRealtime");
  }

  lemma StepOrderly(s: State, e: Event)
    requires Enabled(s, e)
    ensures Orderly(s, Step(s, e), s.preflight || e.PreflightCalled?)
  {
    hide Allowlist, RequestAutoSync, RequestBackgroundSync, RunAutoSync, Settle, FireTimer, BeginSecurityPreflight, ContinueActivate, Pause, Command, AddsAllowed;
    match e
    case Interactive => RequestQuiet(s);
    case Background(now, delay) => BackgroundQuiet(s, now, Max(0, delay));
    case Microtask => RunOrderly(s.(microtasks := s.microtasks - 1, scheduled := false)); Same(s, s.(microtasks := s.microtasks - 1, scheduled := false), Step(s, e));
    case RunSettled => SettleQuiet(s);
    case TimerFired(id) => FireQuiet(s, id);
    case CommandCalled(name) => CommandOrderly(s, name);
    case PreflightCalled => PreflightOrderly(s);
    case BarrierSettled(b) =>
    case ActivateCalled =>
    case ActivateContinued(i, fulfilled) => ActivateOrderly(s, i, fulfilled);
    case ActivateSettled(ok) =>
    case PauseCalled => PauseOrderly(s);
    case ResumeCalled => CommandOrderly(s, "connectRealtime"); AddsSame(s, Command(s, "connectRealtime"), Step(s, e));
    case ResumeContinued => RequestQuiet(s.(resuming := s.resuming - 1, paused := false));
    case CloseCalled =>
  }

  lemma Same(s: State, u: State, t: State)
    requires u.calls == s.calls
    ensures AddsAllowed(u, t, s.preflight) == AddsAllowed(s, t, s.preflight)
  {
    hide Allowlist;
  }

  lemma AddsSame(s: State, u: State, t: State)
    requires u.calls == t.calls
    ensures AddsAllowed(s, u, s.preflight) == AddsAllowed(s, t, s.preflight)
  {
    hide Allowlist;
  }

  // ----- No lost wakeup -----------------------------------------------------------------------------------

  predicate Excuses(e: Event) { e.CloseCalled? || e.PauseCalled? || e.PreflightCalled? }

  /** A wakeup owed stays owed until a run starts. */
  lemma OwedStep(s: State, e: Event)
    requires Inv(s) && Enabled(s, e) && !Excuses(e) && s.owed
    ensures Step(s, e).owed || Step(s, e).starts > s.starts
  {
    hide Allowlist, Inv, RequestAutoSync, RequestBackgroundSync, RunAutoSync, Settle, FireTimer, Command, Orderly;
    OwedIsOpen(s);
    match e
    case Interactive => RequestOwes(s);
    case Background(now, delay) => BackgroundOwes(s, now, Max(0, delay));
    case Microtask => MicrotaskOwes(s);
    case RunSettled => SettleOwes(s);
    case TimerFired(id) => TimerKeeps(s, id);
    case CommandCalled(name) => CommandOrderly(s, name);
    case ActivateContinued(i, fulfilled) => CommandOrderly(s.(waiting := s.waiting[..i] + s.waiting[i + 1..]), "activateSecurity");
    case ResumeCalled => CommandOrderly(s, "connectRealtime");
    case ResumeContinued => RequestOwes(s.(resuming := s.resuming - 1, paused := false));
    case _ =>
  }

  lemma OwedIsOpen(s: State)
    requires Inv(s) && s.owed
    ensures !Guarded(s)
  {
    hide Gated;
  }

  lemma RequestOwes(s: State)
    requires !Guarded(s)
    ensures RequestAutoSync(s).owed
  {
  }

  lemma BackgroundOwes(s: State, now: int, delay: int)
    ensures RequestBackgroundSync(s, now, delay).owed == s.owed
  {
  }

  lemma MicrotaskOwes(s: State)
    requires Inv(s) && s.owed && s.microtasks > 0
    ensures Step(s, Microtask).owed || Step(s, Microtask).starts > s.starts
  {
    hide Allowlist, Gated, Command;
    CommandOrderly(s.(microtasks := s.microtasks - 1, scheduled := false, running := true, inFlight := s.inFlight + 1,
                      starts := s.starts + 1, owed := false), "syncUntilIdle");
  }

  lemma SettleOwes(s: State)
    requires Inv(s) && s.owed && s.inFlight > 0
    ensures Settle(s).owed
  {
    hide Allowlist, Gated;
  }

  lemma {:induction false} OwedRun(s: State, es: seq<Event>, n: nat)
    requires Inv(s) && Possible(s, es) && (forall i :: 0 <= i < |es| ==> !Excuses(es[i]))
    requires s.owed || s.starts > n
    requires s.starts >= n
    ensures Run(s, es).owed || Run(s, es).starts > n
    decreases |es|
  {
    hide Inv, Step, Enabled;
    if es != [] {
      StepKeeps(s, es[0]);
      StepOrderly(s, es[0]);
      if s.owed { OwedStep(s, es[0]); }
      OwedRun(Step(s, es[0]), es[1..], n);
    }
  }

  /**
   * No lost wakeup: once an interactive intent passes the guard then, as long as the client is not
   * closed, paused or put in preflight, a run has started since, or a microtask is queued, or the
   * run in flight will be followed by another.
   */
  lemma NoLostWakeup(preflight: bool, before: seq<Event>, after: seq<Event>)
    requires Possible(Start(true, preflight), before)
    requires !Guarded(Run(Start(true, preflight), before))
    requires var s := Run(Start(true, preflight), before);
             Enabled(s, Interactive) && Possible(Step(s, Interactive), after)
    requires forall i :: 0 <= i < |after| ==> !Excuses(after[i])
    ensures var s := Run(Start(true, preflight), before);
            var t := Run(Step(s, Interactive), after);
            t.starts > s.starts || t.microtasks >= 1 || (t.running && t.again)
  {
    hide Possible, Run, Enabled;
    InvStart(true, preflight);
    RunKeeps(Start(true, preflight), before);
    AutoSyncKept(Start(true, preflight), before);
    var s := Run(Start(true, preflight), before);
    RequestKeeps(s);
    var t0 := Step(s, Interactive);
    RunKeeps(t0, after);
    OwedRun(t0, after, s.starts);
  }

  lemma {:induction false} AutoSyncKept(s: State, es: seq<Event>)
    requires Possible(s, es)
    ensures Run(s, es).autoSync == s.autoSync
    decreases |es|
  {
    hide Step, Enabled;
    if es != [] {
      StepOrderly(s, es[0]);
      AutoSyncKept(Step(s, es[0]), es[1..]);
    }
  }

  /** A microtask that finds an owed wakeup and no run in flight starts one, and its command goes through. */
  lemma MicrotaskDelivers(s: State)
    requires Inv(s) && s.owed && !s.running
    ensures Enabled(s, Microtask)
    ensures Step(s, Microtask).starts == s.starts + 1
    ensures Step(s, Microtask).calls == s.calls + [Call("syncUntilIdle", false, false)]
  {
    hide Allowlist, Gated;
  }

  /** An owed wakeup is two steps of the host away from a run at most, and that run reaches the native module. */
  lemma WakeupDelivered(s: State)
    requires Inv(s) && s.owed
    ensures !s.running ==>
              && Enabled(s, Microtask)
              && Step(s, Microtask).starts == s.starts + 1
              && Step(s, Microtask).calls == s.calls + [Call("syncUntilIdle", false, false)]
    ensures s.running ==>
              && Enabled(s, RunSettled)
              && Enabled(Step(s, RunSettled), Microtask)
              && var t := Step(Step(s, RunSettled), Microtask);
              && t.starts == s.starts + 1
              && t.calls == s.calls + [Call("syncUntilIdle", false, false)]
  {
    hide Allowlist, Settle, Gated, RunAutoSync;
    if s.running {
      SettleKeeps(s);
      SettleOwes(s);
      SettleQuiet(s);
      SettleIdle(s);
      MicrotaskDelivers(Settle(s));
    } else {
      MicrotaskDelivers(s);
    }
  }

  lemma SettleIdle(s: State)
    requires s.inFlight > 0
    ensures !Settle(s).running
  {
  }

  /** An armed timer that fires always brings on a run: nothing that blocks one leaves it armed. */
  lemma TimerDelivers(s: State, id: nat)
    requires Inv(s) && id in s.armed
    ensures Inv(Step(s, TimerFired(id))) && Step(s, TimerFired(id)).owed && Step(s, TimerFired(id)).retryAt.None?
  {
    hide Allowlist, Gated;
    TimerKeeps(s, id);
  }

  /** Intents coalesce: asking twice is asking once. */
  lemma RequestsCoalesce(s: State)
    ensures RequestAutoSync(RequestAutoSync(s)) == RequestAutoSync(s)
  {
  }

  // ----- The gate -----------------------------------------------------------------------------------------

  lemma ClosedStep(s: State, e: Event)
    requires s.closed && Enabled(s, e)
    ensures Step(s, e).closed && Step(s, e).calls == s.calls && Step(s, e).starts == s.starts
  {
    hide Step, Enabled;
    StepOrderly(s, e);
  }

  /** After `close`, in every interleaving, `native.command` is never called again and no run starts. */
  lemma {:induction false} ClosedForGood(s: State, es: seq<Event>)
    requires s.closed && Possible(s, es)
    ensures Run(s, es).closed && Run(s, es).calls == s.calls && Run(s, es).starts == s.starts
    decreases |es|
  {
    hide Step, Enabled;
    if es != [] {
      ClosedStep(s, es[0]);
      ClosedForGood(Step(s, es[0]), es[1..]);
    }
  }

  /** In preflight a step adds at most one call, and only one on the allowlist. */
  lemma PreflightStep(s: State, e: Event)
    requires s.preflight && Enabled(s, e)
    ensures Step(s, e).calls == s.calls
         || exists name :: name in Allowlist() && Step(s, e).calls == s.calls + [Call(name, false, true)]
  {
    hide Step, Enabled, Allowlist;
    StepOrderly(s, e);
    var t := Step(s, e);
    if t.calls != s.calls {
      var c := t.calls[|s.calls|];
      assert t.calls == s.calls + [c] && c == Call(c.name, false, true);
    }
  }

  /** A run can be cut anywhere. */
  lemma {:induction false} RunPrefix(s: State, es: seq<Event>, i: nat)
    requires Possible(s, es) && i <= |es|
    ensures Possible(s, es[..i]) && Possible(Run(s, es[..i]), es[i..]) && Run(s, es) == Run(Run(s, es[..i]), es[i..])
    decreases |es|
  {
    hide Step, Enabled;
    if i == 0 {
      assert es[..0] == [] && es[0..] == es;
    } else {
      assert es[..i][0] == es[0] && es[..i][1..] == es[1..][..i - 1] && es[1..][i - 1..] == es[i..];
      RunPrefix(Step(s, es[0]), es[1..], i - 1);
    }
  }

  lemma {:induction false} CallsGrow(s: State, es: seq<Event>)
    requires Possible(s, es)
    ensures |s.calls| <= |Run(s, es).calls| && Run(s, es).calls[..|s.calls|] == s.calls
    decreases |es|
  {
    hide Step, Enabled;
    if es != [] {
      StepOrderly(s, es[0]);
      CallsGrow(Step(s, es[0]), es[1..]);
    }
  }

  /**
   * Wherever a run is cut: the step taken there adds no call if the client is closed by then, and one
   * on the allowlist at most if it is in preflight; what was called before stays in the log.
   */
  lemma Gate(autoSync: bool, preflight: bool, es: seq<Event>, i: nat)
    requires Possible(Start(autoSync, preflight), es) && i < |es|
    ensures var start := Start(autoSync, preflight);
            && Possible(start, es[..i]) && Enabled(Run(start, es[..i]), es[i])
            && var s := Run(start, es[..i]);
            && var t := Step(s, es[i]);
            && (s.closed ==> t.calls == s.calls)
            && (s.preflight ==> t.calls == s.calls || exists name :: name in Allowlist() && t.calls == s.calls + [Call(name, false, true)])
            && |t.calls| <= |Run(start, es).calls| && Run(start, es).calls[..|t.calls|] == t.calls
  {
    hide Step, Allowlist;
    var start := Start(autoSync, preflight);
    RunPrefix(start, es, i);
    var s := Run(start, es[..i]);
    assert es[i..][0] == es[i];
    if s.closed { ClosedStep(s, es[i]); }
    if s.preflight { PreflightStep(s, es[i]); }
    CallsGrow(Step(s, es[i]), es[i..][1..]);
  }

  // ----- Which command a step sends ---------------------------------------------------------------------------

  predicate Listed(name: string) {
    || name == "securityLifecycle" || name == "beginSecurityPreflight" || name == "activateSecurity" || name == "purgeLocalData"
    || name == "localRevision" || name == "statusSnapshot" || name == "shutdown"
  }

  /** The command that reaches `native.command` in this step, if one does. */
  function Sends(s: State, e: Event): Option<string> {
    match e
    case Microtask => if !s.closed && !s.paused && !s.running && !s.preflight then Some("syncUntilIdle") else None
    case CommandCalled(name) => if !s.closed && (!s.preflight || Listed(name)) then Some(name) else None
    case PreflightCalled => if !s.closed && s.barrier.None? then Some("beginSecurityPreflight") else None
    case ActivateContinued(_, fulfilled) => if !s.closed && fulfilled then Some("activateSecurity") else None
    case PauseCalled => if !s.closed && !s.preflight then Some("disconnectRealtime") else None
    case ResumeCalled => if !s.closed && !s.preflight then Some("connectRealtime") else None
    case _ => None
  }

  lemma AllowlistSpelled(name: string)
    ensures name in Allowlist() <==> Listed(name)
  {
  }

  lemma OthersNotListed()
    ensures !Listed("syncUntilIdle") && !Listed("disconnectRealtime") && !Listed("connectRealtime")
    ensures Listed("beginSecurityPreflight") && Listed("activateSecurity")
  {
  }

  lemma CommandSends(s: State, name: string)
    ensures Command(s, name).calls
         == if !s.closed && (!s.preflight || Listed(name)) then s.calls + [Call(name, false, s.preflight)] else s.calls
  {
    hide Allowlist, Listed;
    AllowlistSpelled(name);
  }

  /** Each step sends the one command that belongs to it, and no other. */
  lemma StepSends(s: State, e: Event)
    requires Enabled(s, e)
    ensures Step(s, e).calls
         == if Sends(s, e).Some? then s.calls + [Call(Sends(s, e).value, false, s.preflight || e.PreflightCalled?)] else s.calls
  {
    hide Command, RequestAutoSync, RequestBackgroundSync, RunAutoSync, Settle, FireTimer, BeginSecurityPreflight, ContinueActivate, Pause, Listed;
    OthersNotListed();
    match e
    case Interactive => RequestQuiet(s);
    case Background(now, delay) => BackgroundQuiet(s, now, Max(0, delay));
    case Microtask => RunSends(s.(microtasks := s.microtasks - 1, scheduled := false));
    case RunSettled => SettleQuiet(s);
    case TimerFired(id) => FireQuiet(s, id);
    case CommandCalled(name) => CommandSends(s, name);
    case PreflightCalled => PreflightSends(s);
    case ActivateContinued(i, fulfilled) => ActivateSends(s, i, fulfilled);
    case PauseCalled => PauseSends(s);
    case ResumeCalled => CommandSends(s, "connectRealtime");
    case ResumeContinued => RequestQuiet(s.(resuming := s.resuming - 1, paused := false));
    case _ =>
  }

  lemma RunSends(s: State)
    ensures RunAutoSync(s).calls
         == if !s.closed && !s.paused && !s.running && !s.preflight then s.calls + [Call("syncUntilIdle", false, false)] else s.calls
  {
    hide Command, Listed;
    OthersNotListed();
    CommandSends(s.(running := true, inFlight := s.inFlight + 1, starts := s.starts + 1, owed := false), "syncUntilIdle");
  }

  lemma PreflightSends(s: State)
    ensures BeginSecurityPreflight(s).calls
         == if s.closed || s.barrier.Some? then s.calls else s.calls + [Call("beginSecurityPreflight", false, true)]
  {
    hide Command, Listed;
    OthersNotListed();
    CommandSends(EnterPreflight(s), "beginSecurityPreflight");
  }

  lemma ActivateSends(s: State, i: nat, fulfilled: bool)
    requires i < |s.waiting|
    ensures ContinueActivate(s, i, fulfilled).calls
         == if !s.closed && fulfilled then s.calls + [Call("activateSecurity", false, s.preflight)] else s.calls
  {
    hide Command, Listed, Allowlist;
    OthersNotListed();
    AllowlistSpelled("activateSecurity");
    CommandSends(s.(waiting := s.waiting[..i] + s.waiting[i + 1..]), "activateSecurity");
  }

  lemma PauseSends(s: State)
    ensures Pause(s).calls
         == if !s.closed && !s.preflight then s.calls + [Call("disconnectRealtime", false, false)] else s.calls
  {
    hide Command, Listed;
    OthersNotListed();
    CommandSends(ClearRetry(s.(paused := true)).(owed := false), "disconnectRealtime");
  }

  /** Entering preflight drops the queued sync, the repeat and the retry with its timer, and waits on one new promise. */
  lemma PreflightDrops(s: State)
    requires Inv(s) && !s.closed && s.barrier.None?
    ensures var t := Step(s, PreflightCalled);
            && t.preflight && !t.scheduled && !t.again && t.retryAt.None? && t.timer.None? && t.armed == map[]
            && t.barrier == Some(s.nextId) && t.barriers == {s.nextId}
  {
    hide Command, Gated;
    CommandOrderly(EnterPreflight(s), "beginSecurityPreflight");
  }

  // ----- Pausing ------------------------------------------------------------------------------------------

  lemma PausedStep(s: State, e: Event)
    requires s.paused && s.resuming == 0 && Enabled(s, e) && !e.ResumeCalled?
    ensures Step(s, e).paused && Step(s, e).resuming == 0 && Step(s, e).starts == s.starts
  {
    hide Allowlist, RequestAutoSync, RequestBackgroundSync, Settle, FireTimer, Command;
    match e
    case Interactive => GuardedRequest(s);
    case Background(now, delay) => GuardedBackground(s, now, Max(0, delay));
    case RunSettled => PausedSettle(s);
    case TimerFired(id) => PausedTimer(s, id);
    case CommandCalled(name) => CommandOrderly(s, name);
    case PreflightCalled => CommandOrderly(EnterPreflight(s), "beginSecurityPreflight");
    case ActivateContinued(i, fulfilled) => CommandOrderly(s.(waiting := s.waiting[..i] + s.waiting[i + 1..]), "activateSecurity");
    case PauseCalled => CommandOrderly(ClearRetry(s.(paused := true)).(owed := false), "disconnectRealtime");
    case _ =>
  }

  lemma GuardedRequest(s: State)
    requires Guarded(s)
    ensures RequestAutoSync(s) == s
  {
  }

  lemma GuardedBackground(s: State, now: int, delay: int)
    requires Guarded(s)
    ensures RequestBackgroundSync(s, now, delay) == s
  {
  }

  lemma PausedSettle(s: State)
    requires s.paused && s.inFlight > 0
    ensures Settle(s).paused && Settle(s).resuming == s.resuming && Settle(s).starts == s.starts
  {
  }

  lemma PausedTimer(s: State, id: nat)
    requires s.paused
    ensures FireTimer(s, id).paused && FireTimer(s, id).resuming == s.resuming && FireTimer(s, id).starts == s.starts
  {
  }

  /** A paused client with no `resume` under way starts no run until `resume` is called. */
  lemma {:induction false} PauseHolds(s: State, es: seq<Event>)
    requires s.paused && s.resuming == 0 && Possible(s, es) && forall i :: 0 <= i < |es| ==> !es[i].ResumeCalled?
    ensures Run(s, es).paused && Run(s, es).starts == s.starts
    decreases |es|
  {
    hide Step, Enabled;
    if es != [] {
      PausedStep(s, es[0]);
      PauseHolds(Step(s, es[0]), es[1..]);
    }
  }

  lemma RequestIdle(s: State)
    ensures RequestAutoSync(s).running == s.running
  {
  }

  /** Such a state is two calls away from the start: `resume()`, then `pause()` before it is done. */
  lemma PauseUndone()
    ensures Possible(Start(true, false), [ResumeCalled, PauseCalled])
    ensures var s := Run(Start(true, false), [ResumeCalled, PauseCalled]);
            Inv(s) && s.paused && s.autoSync && !s.closed && s.resuming > 0
  {
    hide Allowlist, Command, Inv;
    var start, es := Start(true, false), [ResumeCalled, PauseCalled];
    assert es[1..] == [PauseCalled] && es[1..][1..] == [];
    CommandOrderly(start, "connectRealtime");
    var s := Step(start, ResumeCalled);
    CommandOrderly(ClearRetry(s.(paused := true)).(owed := false), "disconnectRealtime");
    assert Possible(Step(s, PauseCalled), []) && Possible(s, [PauseCalled]);
    assert Run(s, [PauseCalled]) == Run(Step(s, PauseCalled), []);
    InvStart(true, false);
    RunKeeps(start, es);
  }

  /** Events in which nobody calls `resume`. */
  predicate NoResume(es: seq<Event>) { forall i :: 0 <= i < |es| ==> !es[i].ResumeCalled? }

  /** From `s` a run may start without another call of `resume`. */
  ghost predicate MayStart(s: State) {
    exists es :: Possible(s, es) && NoResume(es) && Run(s, es).starts > s.starts
  }

  /** What may happen after a step may happen. */
  lemma MayStartAfter(s: State, e: Event)
    requires Enabled(s, e) && !e.ResumeCalled? && Step(s, e).starts == s.starts && MayStart(Step(s, e))
    ensures MayStart(s)
  {
    hide Step, Enabled;
    var es :| Possible(Step(s, e), es) && NoResume(es) && Run(Step(s, e), es).starts > s.starts;
    var all := [e] + es;
    assert all[0] == e && all[1..] == es;
    assert Possible(s, all) && Run(s, all) == Run(Step(s, e), es);
    assert NoResume(all);
  }

  /** A paused, open client with a `resume` under way. */
  predicate Resuming(s: State) { Inv(s) && s.paused && s.autoSync && !s.closed && s.resuming > 0 }

  /** Idle and outside preflight: the `resume` finishes and its microtask starts the run. */
  lemma IdleMayStart(s: State)
    requires Resuming(s) && !s.running && !s.preflight
    ensures MayStart(s)
  {
    hide Allowlist, Inv, RequestAutoSync, RunAutoSync;
    ResumeKeeps(s);
    var t := Step(s, ResumeContinued);
    var r := s.(resuming := s.resuming - 1, paused := false);
    RequestOwes(r);
    RequestQuiet(r);
    RequestIdle(r);
    MicrotaskDelivers(t);
    var es := [Microtask];
    assert es[1..] == [] && Possible(Step(t, Microtask), []);
    assert Possible(t, es) && Run(t, es) == Run(Step(t, Microtask), []);
    MayStartAfter(s, ResumeContinued);
  }

  /** With a run in flight: it settles first. */
  lemma RunningMayStart(s: State)
    requires Resuming(s) && !s.preflight
    ensures MayStart(s)
  {
    hide Allowlist, Gated, RequestAutoSync, MayStart;
    if s.running {
      SettleKeeps(s);
      PausedSettle(s);
      SettleQuiet(s);
      SettleIdle(s);
      SettleKeepsLifecycle(s);
      IdleMayStart(Settle(s));
      MayStartAfter(s, RunSettled);
    } else {
      IdleMayStart(s);
    }
  }

  lemma SettleKeepsLifecycle(s: State)
    requires s.inFlight > 0
    ensures Settle(s).preflight == s.preflight
  {
  }

  /** In preflight: the barrier settles, `activateSecurity` is called and answered, and then as above. */
  lemma PreflightMayStart(s: State)
    requires Resuming(s) && s.preflight && s.barrier.None?
    ensures MayStart(s)
  {
    hide Inv, MayStart, RequestAutoSync;
    ActivationPasses();
    StepKeeps(s, ActivateCalled);
    var a := Step(s, ActivateCalled);
    var last := |s.waiting|;
    assert a.waiting[last] == None;
    StepKeeps(a, ActivateContinued(last, true));
    var b := Step(a, ActivateContinued(last, true));
    CommandOrderly(a.(waiting := a.waiting[..last] + a.waiting[last + 1..]), "activateSecurity");
    StepKeeps(b, ActivateSettled(true));
    var c := Step(b, ActivateSettled(true));
    RunningMayStart(c);
    MayStartAfter(b, ActivateSettled(true));
    MayStartAfter(a, ActivateContinued(last, true));
    MayStartAfter(s, ActivateCalled);
  }

  lemma ActivationPasses()
    ensures "activateSecurity" in Allowlist()
  {
  }

  lemma ResumingMayStart(s: State)
    requires Resuming(s)
    ensures MayStart(s)
  {
    hide Inv, MayStart;
    if !s.preflight {
      RunningMayStart(s);
    } else if s.barrier.None? {
      PreflightMayStart(s);
    } else {
      BarrierOutstanding(s);
      StepKeeps(s, BarrierSettled(s.barrier.value));
      PreflightMayStart(Step(s, BarrierSettled(s.barrier.value)));
      MayStartAfter(s, BarrierSettled(s.barrier.value));
    }
  }

  lemma BarrierOutstanding(s: State)
    requires Inv(s) && s.barrier.Some?
    ensures s.barrier.value in s.barriers
  {
    hide Gated;
  }

  /**
   * When `pause` stops the scheduler: a paused, open client with auto-sync may start a run without
   * another call of `resume` exactly when an earlier `resume` has not finished.
   */
  lemma PauseHoldsExactly(s: State)
    requires Inv(s) && s.paused && s.autoSync && !s.closed
    ensures MayStart(s) <==> s.resuming > 0
  {
    hide Inv, MayStart;
    if s.resuming > 0 {
      ResumingMayStart(s);
    } else {
      NeverStarts(s);
    }
  }

  lemma NeverStarts(s: State)
    requires s.paused && s.resuming == 0
    ensures !MayStart(s)
  {
    hide Step, Enabled;
    forall es | Possible(s, es) && NoResume(es) ensures Run(s, es).starts == s.starts { PauseHolds(s, es); }
  }
}
