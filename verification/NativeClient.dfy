/**
 * `NativeSyncClient` as an object: each method is one uninterrupted turn of the event loop, proved to
 * take the step of module `AutoSync` that bears its name. Where the source awaits, what comes
 * after is a method of its own, which the host calls when the promise settles.
 */
module NativeClient {
  import opened Results
  import opened AutoSync

  /** Queued microtasks, runs in flight, armed timers with the time each is due, unanswered preflight commands, activations behind
      the barrier and behind their command, resumes behind theirs. */
  datatype HostSide = HostSide(
    microtasks: nat, inFlight: nat, armed: map<nat, int>, barriers: set<nat>,
    waiting: seq<Option<nat>>, activating: nat, resuming: nat, nextId: nat)
  {
    function ClearTimeout(timer: Option<nat>): HostSide {
      if timer.Some? then this.(armed := armed - {timer.value}) else this
    }

    function SetTimeout(now: int, delayMs: int): HostSide { this.(armed := armed[nextId := now + delayMs], nextId := nextId + 1) }

    function QueueMicrotask(): HostSide { this.(microtasks := microtasks + 1) }
  }

  /** Calls of `native.command`, runs started, a wakeup owed. */
  datatype Past = Past(calls: seq<Call>, starts: nat, owed: bool)

  class NativeSyncClient {
    const autoSync: bool
    var closed: bool
    var paused: bool
    var syncScheduled: bool
    var syncRunning: bool
    var syncAgain: bool
    var retryAt: Option<int>
    var retryTimer: Option<nat>
    var preflight: bool
    var preflightBarrier: Option<nat>
    /** What the host still owes the client. */
    ghost var host: HostSide
    /** What happened so far. */
    ghost var past: Past

    ghost function Now(): State
      reads this
    {
      State(autoSync, closed, paused, syncScheduled, syncRunning, syncAgain, retryAt, retryTimer, preflight, preflightBarrier,
            host.microtasks, host.inFlight, host.armed, host.barriers, host.waiting, host.activating, host.resuming, host.nextId,
            past.calls, past.starts, past.owed)
    }

    constructor (autoSync: bool, preflight: bool)
      ensures Now() == Start(autoSync, preflight)
    {
      this.autoSync, this.preflight := autoSync, preflight;
      closed, paused, syncScheduled, syncRunning, syncAgain := false, false, false, false, false;
      retryAt, retryTimer, preflightBarrier := None, None, None;
      host := HostSide(0, 0, map[], {}, [], 0, 0, 0);
      past := Past([], 0, false);
    }

    /** Returns whether `native.command` was called; otherwise it threw. */
    method Command(name: string) returns (called: bool)
      modifies this`past
      ensures Now() == AutoSync.Command(old(Now()), name)
      ensures called <==> Passes(old(Now()), name)
    {
      hide Allowlist;
      if closed { return false; }
      if preflight && name !in Allowlist() { return false; }
      past := past.(calls := past.calls + [Call(name, closed, preflight)]);
      return true;
    }

    /** The three lines that cancel a pending retry. */
    method ClearRetry()
      modifies this`host, this`retryTimer, this`retryAt
      ensures Now() == AutoSync.ClearRetry(old(Now()))
    {
      host := host.ClearTimeout(retryTimer);
      retryTimer := None;
      retryAt := None;
    }

    method RequestAutoSync()
      modifies this
      ensures Now() == AutoSync.RequestAutoSync(old(Now()))
    {
      if closed || paused || preflight { return; }
      ClearRetry();
      past := past.(owed := true);
      if syncRunning {
        syncAgain := true;
        return;
      }
      if syncScheduled { return; }
      syncScheduled := true;
      host := host.QueueMicrotask();
    }

    /** `id` is what `setTimeout` returns if it is called. */
    method RequestBackgroundSync(now: int, delayMs: int, id: nat)
      requires id == host.nextId
      modifies this
      ensures Now() == AutoSync.RequestBackgroundSync(old(Now()), now, delayMs)
      ensures !closed && !paused && !preflight ==>
                retryAt == if old(retryAt).Some? && old(retryAt).value <= now + delayMs then old(retryAt) else Some(now + delayMs)
    {
      if closed || paused || preflight { return; }
      var deadline := now + delayMs;
      if retryAt.Some? && retryAt.value <= deadline { return; }
      host := host.ClearTimeout(retryTimer);
      retryAt := Some(deadline);
      retryTimer := Some(id);
      host := host.SetTimeout(now, delayMs);
    }

    /** The callback given to `setTimeout`. */
    method OnTimer(id: nat)
      requires Enabled(Now(), TimerFired(id))
      modifies this
      ensures Now() == FireTimer(old(Now()), id)
    {
      hide AutoSync.RequestAutoSync;
      host := host.(armed := host.armed - {id});
      retryTimer := None;
      retryAt := None;
      RequestAutoSync();
    }

    /** The callback given to `queueMicrotask`. */
    method OnMicrotask()
      requires Enabled(Now(), Microtask)
      modifies this
      ensures Now() == Step(old(Now()), Microtask)
    {
      hide AutoSync.RunAutoSync;
      host := host.(microtasks := host.microtasks - 1);
      syncScheduled := false;
      RunAutoSync();
    }

    /** `#runAutoSync` up to its await. */
    method RunAutoSync()
      modifies this
      ensures Now() == AutoSync.RunAutoSync(old(Now()))
    {
      hide Allowlist, AutoSync.Command;
      if closed || paused || syncRunning { return; }
      syncRunning := true;
      host := host.(inFlight := host.inFlight + 1);
      past := past.(starts := past.starts + 1, owed := false);
      var called := Command("syncUntilIdle");
    }

    /** `#runAutoSync` from its `finally` on. */
    method OnRunSettled()
      requires Enabled(Now(), RunSettled)
      modifies this
      ensures Now() == Settle(old(Now()))
    {
      hide AutoSync.RequestAutoSync;
      host := host.(inFlight := host.inFlight - 1);
      syncRunning := false;
      if syncAgain {
        syncAgain := false;
        RequestAutoSync();
      }
    }

    /** The `sync-intent` branch of the event dispatch. */
    method OnInteractiveIntent()
      modifies this
      ensures Now() == Step(old(Now()), Interactive)
    {
      hide AutoSync.RequestAutoSync;
      if autoSync { RequestAutoSync(); }
    }

    method OnBackgroundIntent(now: int, delayMs: int, id: nat)
      requires id == host.nextId
      modifies this
      ensures Now() == Step(old(Now()), Background(now, delayMs))
    {
      hide AutoSync.RequestBackgroundSync;
      if autoSync { RequestBackgroundSync(now, Max(0, delayMs), id); }
    }

    /** What `beginSecurityPreflight` drops before its command. */
    method EnterPreflight()
      modifies this
      ensures Now() == AutoSync.EnterPreflight(old(Now()))
    {
      hide AutoSync.ClearRetry;
      preflight := true;
      ClearRetry();
      syncScheduled := false;
      syncAgain := false;
      past := past.(owed := false);
    }

    /** `promise` is the barrier, should one be created. */
    method BeginSecurityPreflight(promise: nat)
      requires promise == host.nextId
      modifies this
      ensures Now() == AutoSync.BeginSecurityPreflight(old(Now()))
    {
      hide Allowlist, AutoSync.Command, AutoSync.EnterPreflight;
      if closed { return; }
      if preflightBarrier.Some? { return; }
      EnterFrame(Now());
      EnterPreflight();
      CommandFrame(Now(), "beginSecurityPreflight");
      var called := Command("beginSecurityPreflight");
      preflightBarrier := Some(promise);
      host := host.(barriers := host.barriers + {promise}, nextId := promise + 1);
    }

    method OnBarrierSettled(barrier: nat)
      requires Enabled(Now(), BarrierSettled(barrier))
      modifies this
      ensures Now() == SettleBarrier(old(Now()), barrier)
    {
      host := host.(barriers := host.barriers - {barrier});
      if preflightBarrier == Some(barrier) { preflightBarrier := None; }
    }

    /** `activateSecurity` up to its first await. */
    method ActivateSecurity()
      modifies this`host
      ensures Now() == Step(old(Now()), ActivateCalled)
    {
      if !preflight { return; }
      host := host.(waiting := host.waiting + [preflightBarrier]);
    }

    /** `activateSecurity` behind the barrier, up to its second await. */
    method OnActivateContinued(i: nat, fulfilled: bool)
      requires Enabled(Now(), ActivateContinued(i, fulfilled))
      modifies this
      ensures Now() == ContinueActivate(old(Now()), i, fulfilled)
    {
      hide Allowlist, Passes;
      host := host.(waiting := host.waiting[..i] + host.waiting[i + 1..]);
      if fulfilled {
        var called := Command("activateSecurity");
        if called { host := host.(activating := host.activating + 1); }
      }
    }

    /** `activateSecurity` behind its command. */
    method OnActivateSettled(ok: bool)
      requires Enabled(Now(), ActivateSettled(ok))
      modifies this
      ensures Now() == Step(old(Now()), ActivateSettled(ok))
    {
      host := host.(activating := host.activating - 1);
      if ok { preflight := false; }
    }

    method Pause()
      modifies this
      ensures Now() == AutoSync.Pause(old(Now()))
    {
      hide Allowlist, AutoSync.Command;
      paused := true;
      ClearRetry();
      past := past.(owed := false);
      var called := Command("disconnectRealtime");
    }

    /** `resume` up to its await. */
    method Resume()
      modifies this
      ensures Now() == Step(old(Now()), ResumeCalled)
    {
      hide Allowlist, AutoSync.Command;
      CommandFrame(Now(), "connectRealtime");
      var called := Command("connectRealtime");
      host := host.(resuming := host.resuming + 1);
    }

    /** `resume` behind its await. */
    method OnResumeContinued()
      requires Enabled(Now(), ResumeContinued)
      modifies this
      ensures Now() == Step(old(Now()), ResumeContinued)
    {
      hide AutoSync.RequestAutoSync;
      host := host.(resuming := host.resuming - 1);
      paused := false;
      if autoSync { RequestAutoSync(); }
    }

    method Close()
      modifies this
      ensures Now() == AutoSync.Close(old(Now()))
    {
      if closed { return; }
      closed := true;
      host := host.ClearTimeout(retryTimer);
      retryTimer := None;
      past := past.(owed := false);
    }
  }

  lemma EnterFrame(s: State)
    ensures AutoSync.EnterPreflight(s).nextId == s.nextId
  {
  }

  lemma CommandFrame(s: State, name: string)
    ensures AutoSync.Command(s, name) == s.(calls := AutoSync.Command(s, name).calls)
  {
    hide Allowlist;
  }
}
