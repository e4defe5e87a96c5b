/**
 * The auto-sync scheduler and the command gate of bindings/react-native/src/index.ts, as a state machine
 * whose steps are the turns of the JavaScript event loop. Every step runs to completion; between
 * steps the host may fire queued microtasks, armed timers and settled promises in any order.
 */
module AutoSync {
  import opened Results

  // ----- State -----------------------------------------------------------------------------------------

  /** A call of `native.command`, with what the client looked like when it was made. */
  datatype Call = Call(name: string, closed: bool, preflight: bool)

  datatype State = State(
    // the fields of the client
    autoSync: bool, closed: bool, paused: bool, scheduled: bool, running: bool, again: bool,
    retryAt: Option<int>, timer: Option<nat>, preflight: bool, barrier: Option<nat>,
    // what the host still owes it; an armed timer has the time it is due at
    microtasks: nat, inFlight: nat, armed: map<nat, int>, barriers: set<nat>,
    waiting: seq<Option<nat>>, activating: nat, resuming: nat, nextId: nat,
    // what happened
    calls: seq<Call>, starts: nat, owed: bool)

  function Start(autoSync: bool, preflight: bool): State {
    State(autoSync, false, false, false, false, false, None, None, preflight, None,
          0, 0, map[], {}, [], 0, 0, 0, [], 0, false)
  }

  predicate Guarded(s: State) { s.closed || s.paused || s.preflight }

  /** The commands that pass during security preflight. */
  function Allowlist(): set<string> {
    {"securityLifecycle", "beginSecurityPreflight", "activateSecurity", "purgeLocalData", "localRevision",
     "statusSnapshot", "shutdown"}
  }

  // ----- The methods of the client, as functions of its state --------------------------------------------

  /** `#command` gets as far as `native.command`. */
  predicate Passes(s: State, name: string) { !s.closed && (s.preflight ==> name in Allowlist()) }

  function Command(s: State, name: string): State {
    if Passes(s, name) then s.(calls := s.calls + [Call(name, s.closed, s.preflight)]) else s
  }

  function Disarm(s: State): State {
    s.(armed := if s.timer.Some? then s.armed - {s.timer.value} else s.armed, timer := None)
  }

  function ClearRetry(s: State): State { Disarm(s).(retryAt := None) }

  function RequestAutoSync(s: State): State {
    if Guarded(s) then s
    else
      var t := ClearRetry(s).(owed := true);
      if t.running then t.(again := true)
      else if t.scheduled then t
      else t.(scheduled := true, microtasks := t.microtasks + 1)
  }

  function Max(a: int, b: int): int { if a < b then b else a }

  /** `setTimeout`: the host will fire the timer `delay` after `now`. */
  function SetTimeout(s: State, now: int, delay: int): State {
    s.(timer := Some(s.nextId), armed := s.armed[s.nextId := now + delay], nextId := s.nextId + 1)
  }

  function RequestBackgroundSync(s: State, now: int, delay: int): State {
    if Guarded(s) then s
    else
      var deadline := now + delay;
      if s.retryAt.Some? && s.retryAt.value <= deadline then s
      else SetTimeout(Disarm(s).(retryAt := Some(deadline)), now, delay)
  }

  function RunAutoSync(s: State): State {
    if s.closed || s.paused || s.running then s
    else Command(s.(running := true, inFlight := s.inFlight + 1, starts := s.starts + 1, owed := false), "syncUntilIdle")
  }

  /** What the client drops when it enters preflight. */
  function EnterPreflight(s: State): State {
    ClearRetry(s.(preflight := true)).(scheduled := false, again := false, owed := false)
  }

  function BeginSecurityPreflight(s: State): State {
    if s.closed || s.barrier.Some? then s
    else
      var t := EnterPreflight(s);
      Command(t, "beginSecurityPreflight").(
        barrier := Some(t.nextId), barriers := t.barriers + {t.nextId}, nextId := t.nextId + 1)
  }

  function Pause(s: State): State {
    Command(ClearRetry(s.(paused := true)).(owed := false), "disconnectRealtime")
  }

  function Close(s: State): State {
    if s.closed then s else Disarm(s.(closed := true)).(owed := false)
  }

  // ----- Steps --------------------------------------------------------------------------------------------

  datatype Event =
    | Interactive
    | Background(now: int, delay: int)
    | Microtask
    | RunSettled
    | TimerFired(id: nat)
    | CommandCalled(name: string)
    | PreflightCalled
    | BarrierSettled(barrier: nat)
    | ActivateCalled
    | ActivateContinued(index: nat, fulfilled: bool)
    | ActivateSettled(ok: bool)
    | PauseCalled
    | ResumeCalled
    | ResumeContinued
    | CloseCalled

  /** The host may deliver the event now; callers may always call. */
  predicate Enabled(s: State, e: Event) {
    match e
    case Microtask => s.microtasks > 0
    case RunSettled => s.inFlight > 0
    case TimerFired(id) => id in s.armed
    case BarrierSettled(b) => b in s.barriers
    case ActivateContinued(i, _) => i < |s.waiting| && (s.waiting[i].Some? ==> s.waiting[i].value !in s.barriers)
    case ActivateSettled(_) => s.activating > 0
    case ResumeContinued => s.resuming > 0
    case _ => true
  }

  function Settle(s: State): State
    requires s.inFlight > 0
  {
    var t := s.(inFlight := s.inFlight - 1, running := false);
    if t.again then RequestAutoSync(t.(again := false)) else t
  }

  function FireTimer(s: State, id: nat): State {
    RequestAutoSync(s.(armed := s.armed - {id}, timer := None, retryAt := None))
  }

  function SettleBarrier(s: State, b: nat): State {
    s.(barriers := s.barriers - {b}, barrier := if s.barrier == Some(b) then None else s.barrier)
  }

  /** After the barrier: the command, if it was fulfilled, and then its reply. */
  function ContinueActivate(s: State, i: nat, fulfilled: bool): State
    requires i < |s.waiting|
  {
    var t := s.(waiting := s.waiting[..i] + s.waiting[i + 1..]);
    if fulfilled && Passes(t, "activateSecurity")
    then Command(t, "activateSecurity").(activating := t.activating + 1)
    else t
  }

  function Step(s: State, e: Event): State
    requires Enabled(s, e)
  {
    match e
    case Interactive => if s.autoSync then RequestAutoSync(s) else s
    case Background(now, delay) => if s.autoSync then RequestBackgroundSync(s, now, Max(0, delay)) else s
    case Microtask => RunAutoSync(s.(microtasks := s.microtasks - 1, scheduled := false))
    case RunSettled => Settle(s)
    case TimerFired(id) => FireTimer(s, id)
    case CommandCalled(name) => Command(s, name)
    case PreflightCalled => BeginSecurityPreflight(s)
    case BarrierSettled(b) => SettleBarrier(s, b)
    case ActivateCalled => if s.preflight then s.(waiting := s.waiting + [s.barrier]) else s
    case ActivateContinued(i, fulfilled) => ContinueActivate(s, i, fulfilled)
    case ActivateSettled(ok) => s.(activating := s.activating - 1, preflight := s.preflight && !ok)
    case PauseCalled => Pause(s)
    case ResumeCalled => Command(s, "connectRealtime").(resuming := s.resuming + 1)
    case ResumeContinued =>
      var t := s.(resuming := s.resuming - 1, paused := false);
      if t.autoSync then RequestAutoSync(t) else t
    case CloseCalled => Close(s)
  }

  // ----- Every reachable state ------------------------------------------------------------------------------

  /** At most one run is in flight, and the client knows whether one is. */
  predicate OneRun(s: State) { s.inFlight <= 1 && (s.running <==> s.inFlight == 1) }

  /** The one timer the host may fire is the one the client holds, due at `retryAt`, and only where it may still sync. */
  predicate OneTimer(s: State) {
    && (s.timer.Some? ==> s.retryAt.Some? && s.timer.value < s.nextId && !Guarded(s))
    && s.armed == (if s.timer.Some? then map[s.timer.value := s.retryAt.value] else map[])
  }

  /** While open, a timer is armed whenever a retry is due. */
  predicate RetryDue(s: State) { !s.closed && s.retryAt.Some? ==> s.timer.Some? }

  /** A wakeup still owed is on its way: a microtask is queued, or the run in flight will be repeated. */
  predicate NotLost(s: State) {
    && (s.scheduled ==> s.microtasks >= 1)
    && (s.owed ==> !Guarded(s) && (if s.running then s.again else s.microtasks >= 1))
  }

  predicate Gated(s: State) {
    forall i :: 0 <= i < |s.calls| ==> !s.calls[i].closed && (s.calls[i].preflight ==> s.calls[i].name in Allowlist())
  }

  /** At most one preflight command is unanswered, and it is the one the client waits on. */
  predicate OneBarrier(s: State) {
    && s.barriers == (if s.barrier.Some? then {s.barrier.value} else {})
    && (s.barrier.Some? ==> s.barrier.value < s.nextId)
  }

  predicate Inv(s: State) { OneRun(s) && OneTimer(s) && RetryDue(s) && NotLost(s) && Gated(s) && OneBarrier(s) }

  lemma InvStart(autoSync: bool, preflight: bool)
    ensures Inv(Start(autoSync, preflight))
  {
  }

  lemma CommandKeeps(s: State, name: string)
    requires Gated(s)
    ensures Gated(Command(s, name))
    ensures Command(s, name) == s.(calls := Command(s, name).calls)
  {
    hide Allowlist;
  }

  lemma ClearRetryKeeps(s: State)
    requires OneTimer(s)
    ensures ClearRetry(s).armed == map[] && ClearRetry(s).timer.None?
  {
  }

  lemma RequestKeeps(s: State)
    requires OneRun(s) && OneTimer(s) && RetryDue(s) && Gated(s) && OneBarrier(s)
    requires (s.scheduled ==> s.microtasks >= 1) && (s.owed ==> !Guarded(s))
    ensures Inv(RequestAutoSync(s))
    ensures !Guarded(s) ==> RequestAutoSync(s).owed
  {
    hide Allowlist;
    ClearRetryKeeps(s);
  }

  lemma BackgroundKeeps(s: State, now: int, delay: int)
    requires Inv(s)
    ensures Inv(RequestBackgroundSync(s, now, delay))
  {
    hide Allowlist, Gated;
    assert Gated(s) ==> Gated(RequestBackgroundSync(s, now, delay)) by { SameCalls(s, RequestBackgroundSync(s, now, delay)); }
  }

  lemma SameCalls(s: State, t: State)
    requires s.calls == t.calls
    ensures Gated(s) <==> Gated(t)
  {
    hide Allowlist;
  }

  lemma MicrotaskKeeps(s: State)
    requires Inv(s) && s.microtasks > 0
    ensures Inv(Step(s, Microtask))
  {
    hide Allowlist;
    var t := s.(microtasks := s.microtasks - 1, scheduled := false);
    if !(t.closed || t.paused || t.running) {
      CommandKeeps(t.(running := true, inFlight := t.inFlight + 1, starts := t.starts + 1, owed := false), "syncUntilIdle");
    }
  }

  lemma SettleKeeps(s: State)
    requires Inv(s) && s.inFlight > 0
    ensures Inv(Settle(s))
  {
    hide Allowlist;
    var t := s.(inFlight := s.inFlight - 1, running := false);
    if t.again { RequestKeeps(t.(again := false)); }
  }

  lemma TimerKeeps(s: State, id: nat)
    requires Inv(s) && id in s.armed
    ensures Inv(FireTimer(s, id)) && FireTimer(s, id).owed
  {
    hide Allowlist;
    RequestKeeps(s.(armed := s.armed - {id}, timer := None, retryAt := None));
  }

  lemma PreflightKeeps(s: State)
    requires Inv(s)
    ensures Inv(BeginSecurityPreflight(s))
  {
    hide Allowlist;
    if !(s.closed || s.barrier.Some?) {
      var t := EnterPreflight(s);
      CommandKeeps(t, "beginSecurityPreflight");
    }
  }

  lemma ActivateKeeps(s: State, i: nat, fulfilled: bool)
    requires Inv(s) && i < |s.waiting|
    ensures Inv(ContinueActivate(s, i, fulfilled))
  {
    hide Allowlist;
    CommandKeeps(s.(waiting := s.waiting[..i] + s.waiting[i + 1..]), "activateSecurity");
  }

  lemma PauseKeeps(s: State)
    requires Inv(s)
    ensures Inv(Pause(s))
  {
    hide Allowlist;
    CommandKeeps(ClearRetry(s.(paused := true)).(owed := false), "disconnectRealtime");
  }

  lemma ResumeKeeps(s: State)
    requires Inv(s) && s.resuming > 0
    ensures Inv(Step(s, ResumeContinued))
  {
    hide Allowlist;
    var t := s.(resuming := s.resuming - 1, paused := false);
    if t.autoSync { RequestKeeps(t); }
  }

  /** Every step keeps the invariant. */
  lemma StepKeeps(s: State, e: Event)
    requires Inv(s) && Enabled(s, e)
    ensures Inv(Step(s, e))
  {
    hide Allowlist, RequestAutoSync, RequestBackgroundSync, Settle, FireTimer, BeginSecurityPreflight, ContinueActivate, Pause, Command;
    match e
    case Interactive => RequestKeeps(s);
    case Background(now, delay) => BackgroundKeeps(s, now, Max(0, delay));
    case Microtask => MicrotaskKeeps(s);
    case RunSettled => SettleKeeps(s);
    case TimerFired(id) => TimerKeeps(s, id);
    case CommandCalled(name) => CommandKeeps(s, name);
    case PreflightCalled => PreflightKeeps(s);
    case BarrierSettled(b) =>
    case ActivateCalled =>
    case ActivateContinued(i, fulfilled) => ActivateKeeps(s, i, fulfilled);
    case ActivateSettled(ok) =>
    case PauseCalled => PauseKeeps(s);
    case ResumeCalled => CommandKeeps(s, "connectRealtime");
    case ResumeContinued => ResumeKeeps(s);
    case CloseCalled =>
  }
}
