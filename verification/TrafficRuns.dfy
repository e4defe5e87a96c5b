/** An observer over a whole run of waits, messages, acknowledgements and closes, in any order. */
module TrafficRuns {
  import opened Results
  import opened Observations
  import opened Traffic

  datatype Happening =
    | WaitDeltas(count: int)
    | WaitRounds(count: int)
    | WaitAck(cursor: int)
    | WaitWakes(count: int)
    | WaitPresence(count: int)
    | WaitHellos(count: int)
    | WaitClose
    | Text(event: ServerEvent)
    | Binary(message: bytes)
    | Acked(cursor: int)
    | Closed

  // ----- What each counter sees of the run ------------------------------------------------------------

  /** The binary messages among the first `n` happenings. */
  function Binaries(hs: seq<Happening>, n: nat): seq<bytes>
    requires n <= |hs|
  {
    if n == 0 then [] else Binaries(hs, n - 1) + (if hs[n - 1].Binary? then [hs[n - 1].message] else [])
  }

  function Cursors(hs: seq<Happening>, n: nat): seq<int>
    requires n <= |hs|
  {
    if n == 0 then [] else Cursors(hs, n - 1) + (if hs[n - 1].Acked? then [hs[n - 1].cursor] else [])
  }

  function DeltaEvent(hs: seq<Happening>, i: nat): Event
    requires i < |hs|
  {
    match hs[i]
    case WaitDeltas(count) => Wait(count)
    case Binary(m) => if IsDelta(m) then Bump else Aside
    case _ => Aside
  }

  /** The happening at `i` is the chunk that completes a round. */
  predicate EndsRound(hs: seq<Happening>, i: nat)
    requires i < |hs|
  {
    hs[i].Binary? && |Binaries(hs, i + 1)| > 0 && Completes(Binaries(hs, i + 1), |Binaries(hs, i + 1)| - 1)
  }

  function RoundEvent(hs: seq<Happening>, i: nat): Event
    requires i < |hs|
  {
    if hs[i].WaitRounds? then Wait(hs[i].count) else if EndsRound(hs, i) then Bump else Aside
  }

  function AckEvent(hs: seq<Happening>, i: nat): Event
    requires i < |hs|
  {
    match hs[i]
    case WaitAck(cursor) => Wait(cursor)
    case Acked(_) => Reach(MaxAck(Cursors(hs, i + 1)))
    case _ => Aside
  }

  function WakeEvent(hs: seq<Happening>, i: nat): Event
    requires i < |hs|
  {
    if hs[i].WaitWakes? then Wait(hs[i].count) else if hs[i] == Text(Sync) then Bump else Aside
  }

  function PresenceEvent(hs: seq<Happening>, i: nat): Event
    requires i < |hs|
  {
    if hs[i].WaitPresence? then Wait(hs[i].count) else if hs[i] == Text(Presence) then Bump else Aside
  }

  function HelloEvent(hs: seq<Happening>, i: nat): Event
    requires i < |hs|
  {
    if hs[i].WaitHellos? then Wait(hs[i].count) else if hs[i] == Text(Hello) then Bump else Aside
  }

  function DeltaEvents(hs: seq<Happening>): seq<Event> { seq(|hs|, i requires 0 <= i < |hs| => DeltaEvent(hs, i)) }

  function RoundEvents(hs: seq<Happening>): seq<Event> { seq(|hs|, i requires 0 <= i < |hs| => RoundEvent(hs, i)) }

  function AckEvents(hs: seq<Happening>): seq<Event> { seq(|hs|, i requires 0 <= i < |hs| => AckEvent(hs, i)) }

  function WakeEvents(hs: seq<Happening>): seq<Event> { seq(|hs|, i requires 0 <= i < |hs| => WakeEvent(hs, i)) }

  function PresenceEvents(hs: seq<Happening>): seq<Event> { seq(|hs|, i requires 0 <= i < |hs| => PresenceEvent(hs, i)) }

  function HelloEvents(hs: seq<Happening>): seq<Event> { seq(|hs|, i requires 0 <= i < |hs| => HelloEvent(hs, i)) }

  /** Those who asked to be told of the close, by position. */
  function CloseIds(hs: seq<Happening>, n: nat): seq<nat>
    requires n <= |hs|
  {
    if n == 0 then [] else CloseIds(hs, n - 1) + (if hs[n - 1].WaitClose? then [n - 1] else [])
  }

  predicate HasClosed(hs: seq<Happening>, n: nat)
    requires n <= |hs|
  {
    exists i :: 0 <= i < n && hs[i].Closed?
  }

  // ----- The observer after the first `n` happenings -----------------------------------------------------

  ghost predicate CountsFollow(o: RealtimeObservations, hs: seq<Happening>, n: nat)
    requires n <= |hs|
    reads o
  {
    && o.deltas == Run(0, DeltaEvents(hs), n) && o.rounds == Run(0, RoundEvents(hs), n)
    && o.acks == Run(-1, AckEvents(hs), n) && o.ackCursors == Cursors(hs, n)
    && o.wakes == Run(0, WakeEvents(hs), n) && o.presences == Run(0, PresenceEvents(hs), n)
    && o.hellos == Run(0, HelloEvents(hs), n)
  }

  ghost predicate CloseFollows(o: RealtimeObservations, hs: seq<Happening>, n: nat)
    requires n <= |hs|
    reads o
  {
    && (o.closedByServer <==> HasClosed(hs, n))
    && o.closeWaiters == (if o.closedByServer then [] else CloseIds(hs, n))
    && o.closeResolved == (if o.closedByServer then CloseIds(hs, n) else [])
  }

  ghost predicate BinaryFollows(o: RealtimeObservations, hs: seq<Happening>, n: nat)
    requires n <= |hs|
    reads o, o.responseScanner
  {
    o.Now() == ObserveAll(Binaries(hs, n), |Binaries(hs, n)|)
  }

  /** What the next happening does to each part. */
  lemma NextHappening(hs: seq<Happening>, n: nat)
    requires n < |hs|
    ensures Run(0, DeltaEvents(hs), n + 1) == Observations.Step(Run(0, DeltaEvents(hs), n), DeltaEvent(hs, n), n)
    ensures Run(0, RoundEvents(hs), n + 1) == Observations.Step(Run(0, RoundEvents(hs), n), RoundEvent(hs, n), n)
    ensures Run(-1, AckEvents(hs), n + 1) == Observations.Step(Run(-1, AckEvents(hs), n), AckEvent(hs, n), n)
    ensures Run(0, WakeEvents(hs), n + 1) == Observations.Step(Run(0, WakeEvents(hs), n), WakeEvent(hs, n), n)
    ensures Run(0, PresenceEvents(hs), n + 1) == Observations.Step(Run(0, PresenceEvents(hs), n), PresenceEvent(hs, n), n)
    ensures Run(0, HelloEvents(hs), n + 1) == Observations.Step(Run(0, HelloEvents(hs), n), HelloEvent(hs, n), n)
  {
    hide Observations.Step, Run, DeltaEvent, RoundEvent, AckEvent, WakeEvent, PresenceEvent, HelloEvent;
    RunNext(0, DeltaEvents(hs), n);
    RunNext(0, RoundEvents(hs), n);
    RunNext(-1, AckEvents(hs), n);
    RunNext(0, WakeEvents(hs), n);
    RunNext(0, PresenceEvents(hs), n);
    RunNext(0, HelloEvents(hs), n);
  }

  lemma NextClose(hs: seq<Happening>, n: nat)
    requires n < |hs|
    ensures HasClosed(hs, n + 1) <==> HasClosed(hs, n) || hs[n].Closed?
    ensures CloseIds(hs, n + 1) == CloseIds(hs, n) + if hs[n].WaitClose? then [n] else []
  {
  }

  /** One more binary message, and what it does to the count of rounds. */
  lemma NextBinary(hs: seq<Happening>, n: nat)
    requires n < |hs| && hs[n].Binary?
    ensures var ms, seen := Binaries(hs, n + 1), ObserveAll(Binaries(hs, n), |Binaries(hs, n)|);
            && ObserveAll(ms, |ms|) == Observe(seen, hs[n].message)
            && (EndsRound(hs, n) <==> ObserveAll(ms, |ms|).rounds != seen.rounds)
  {
    hide Observe, Completes, OpenSince;
    var before, ms := Binaries(hs, n), Binaries(hs, n + 1);
    assert ms == before + [hs[n].message];
    ObservePrefix(before, [hs[n].message], |before|);
    TrafficMeans(ms, |ms|);
    TrafficMeans(ms, |ms| - 1);
  }

  lemma {:induction false} ObservePrefix(ms: seq<bytes>, more: seq<bytes>, n: nat)
    requires n <= |ms|
    ensures ObserveAll(ms + more, n) == ObserveAll(ms, n)
  {
    hide Observe;
    if n > 0 { ObservePrefix(ms, more, n - 1); }
  }

  lemma NoBinary(hs: seq<Happening>, n: nat)
    requires n < |hs| && !hs[n].Binary?
    ensures Binaries(hs, n + 1) == Binaries(hs, n)
  {
  }

  lemma NextCursors(hs: seq<Happening>, n: nat)
    requires n < |hs|
    ensures Cursors(hs, n + 1) == Cursors(hs, n) + if hs[n].Acked? then [hs[n].cursor] else []
  {
  }

  predicate IsWait(h: Happening) {
    h.WaitDeltas? || h.WaitRounds? || h.WaitAck? || h.WaitWakes? || h.WaitPresence? || h.WaitHellos?
  }

  method DeliverWait(o: RealtimeObservations, hs: seq<Happening>, n: nat)
    requires o.Valid() && n < |hs| && CountsFollow(o, hs, n) && CloseFollows(o, hs, n) && BinaryFollows(o, hs, n)
    requires IsWait(hs[n])
    modifies o.Repr()
    ensures o.Valid() && fresh(o.Repr() - old(o.Repr()))
    ensures CountsFollow(o, hs, n + 1) && CloseFollows(o, hs, n + 1) && BinaryFollows(o, hs, n + 1)
  {
    hide Run, DeltaEvents, RoundEvents, AckEvents, WakeEvents, PresenceEvents, HelloEvents, Binaries, Cursors, CloseIds, HasClosed, EndsRound, Observe, ObserveAll, Moved;
    NextHappening(hs, n);
    NextClose(hs, n);
    NextCursors(hs, n);
    NoBinary(hs, n);
    NoRound(hs, n);
    match hs[n]
    case WaitDeltas(count) => o.WaitForDeltas(count, n);
    case WaitRounds(count) => o.WaitForRounds(count, n);
    case WaitAck(cursor) => o.WaitForAck(cursor, n);
    case WaitWakes(count) => o.WaitForWakes(count, n);
    case WaitPresence(count) => o.WaitForPresence(count, n);
    case WaitHellos(count) => o.WaitForHelloCount(count, n);
  }

  method DeliverBinary(o: RealtimeObservations, hs: seq<Happening>, n: nat)
    requires o.Valid() && n < |hs| && CountsFollow(o, hs, n) && CloseFollows(o, hs, n) && BinaryFollows(o, hs, n)
    requires hs[n].Binary?
    modifies o.Repr()
    ensures o.Valid() && fresh(o.Repr() - old(o.Repr()))
    ensures CountsFollow(o, hs, n + 1) && CloseFollows(o, hs, n + 1) && BinaryFollows(o, hs, n + 1)
  {
    hide Run, DeltaEvents, RoundEvents, AckEvents, WakeEvents, PresenceEvents, HelloEvents, Binaries, Cursors, CloseIds, HasClosed, EndsRound, Observe, ObserveAll, Moved;
    NextHappening(hs, n);
    NextClose(hs, n);
    NextCursors(hs, n);
    NextBinary(hs, n);
    var threw := o.ObserveServerBinary(hs[n].message, n);
  }

  /** One happening, delivered. */
  method Deliver(o: RealtimeObservations, hs: seq<Happening>, n: nat)
    requires o.Valid() && n < |hs| && CountsFollow(o, hs, n) && CloseFollows(o, hs, n) && BinaryFollows(o, hs, n)
    modifies o.Repr()
    ensures o.Valid() && fresh(o.Repr() - old(o.Repr()))
    ensures CountsFollow(o, hs, n + 1) && CloseFollows(o, hs, n + 1) && BinaryFollows(o, hs, n + 1)
  {
    if IsWait(hs[n]) {
      DeliverWait(o, hs, n);
    } else if hs[n].Binary? {
      DeliverBinary(o, hs, n);
    } else {
      DeliverRest(o, hs, n);
    }
  }

  method DeliverRest(o: RealtimeObservations, hs: seq<Happening>, n: nat)
    requires o.Valid() && n < |hs| && CountsFollow(o, hs, n) && CloseFollows(o, hs, n) && BinaryFollows(o, hs, n)
    requires !IsWait(hs[n]) && !hs[n].Binary?
    modifies o.Repr()
    ensures o.Valid() && fresh(o.Repr() - old(o.Repr()))
    ensures CountsFollow(o, hs, n + 1) && CloseFollows(o, hs, n + 1) && BinaryFollows(o, hs, n + 1)
  {
    hide Run, DeltaEvents, RoundEvents, AckEvents, WakeEvents, PresenceEvents, HelloEvents, Binaries, Cursors, CloseIds, HasClosed, EndsRound, Observe, ObserveAll, Moved;
    NextHappening(hs, n);
    NextClose(hs, n);
    NextCursors(hs, n);
    NoBinary(hs, n);
    NoRound(hs, n);
    match hs[n]
    case WaitClose => o.WaitForClose(n);
    case Text(event) => o.ObserveServerEvent(event, n);
    case Acked(cursor) => o.ObserveAck(cursor, n);
    case Closed => o.ObserveServerClose();
  }

  lemma NoRound(hs: seq<Happening>, n: nat)
    requires n < |hs| && !hs[n].Binary?
    ensures !EndsRound(hs, n)
  {
  }

  lemma NothingYet(hs: seq<Happening>)
    ensures Run(0, DeltaEvents(hs), 0) == Channel(0, [], []) && Run(0, RoundEvents(hs), 0) == Channel(0, [], [])
    ensures Run(-1, AckEvents(hs), 0) == Channel(-1, [], []) && Run(0, WakeEvents(hs), 0) == Channel(0, [], [])
    ensures Run(0, PresenceEvents(hs), 0) == Channel(0, [], []) && Run(0, HelloEvents(hs), 0) == Channel(0, [], [])
    ensures Cursors(hs, 0) == [] && Binaries(hs, 0) == [] && CloseIds(hs, 0) == [] && !HasClosed(hs, 0)
  {
  }

  /**
   * A new observer, told one happening after the other. Every waiter of every counter has been resolved
   * once if its counter stood at its threshold since, and never if not; those who wait for the
   * close are resolved exactly when it came; the flag says whether a delta arrived inside a round.
   */
  method Replay(hs: seq<Happening>) returns (o: RealtimeObservations)
    ensures o.Valid() && fresh(o.Repr())
    ensures Settles(o.deltas, 0, DeltaEvents(hs)) && Settles(o.rounds, 0, RoundEvents(hs))
    ensures Settles(o.acks, -1, AckEvents(hs)) && Settles(o.wakes, 0, WakeEvents(hs))
    ensures Settles(o.presences, 0, PresenceEvents(hs)) && Settles(o.hellos, 0, HelloEvents(hs))
    ensures CloseFollows(o, hs, |hs|)
    ensures var ms := Binaries(hs, |hs|);
            (o.deltaInterleavedDuringRound <==> DeltaInRound(ms, |ms|)) && o.rounds.level == Completed(ms, |ms|)
  {
    hide Run, Settles, DeltaEvent, RoundEvent, AckEvent, WakeEvent, PresenceEvent, HelloEvent, Binaries, Cursors, CloseIds, HasClosed, ObserveAll;
    NothingYet(hs);
    o := new RealtimeObservations();
    for n := 0 to |hs|
      invariant o.Valid() && fresh(o.Repr())
      invariant CountsFollow(o, hs, n) && CloseFollows(o, hs, n) && BinaryFollows(o, hs, n)
    {
      Deliver(o, hs, n);
    }
    RunSettles(0, DeltaEvents(hs));
    RunSettles(0, RoundEvents(hs));
    RunSettles(-1, AckEvents(hs));
    RunSettles(0, WakeEvents(hs));
    RunSettles(0, PresenceEvents(hs));
    RunSettles(0, HelloEvents(hs));
    TrafficMeans(Binaries(hs, |hs|), |Binaries(hs, |hs|)|);
  }
}
