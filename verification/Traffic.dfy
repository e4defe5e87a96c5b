/** The realtime traffic an observer sees: rounds, deltas and their interleaving. */
module Traffic {
  import opened Results
  import opened Scanner
  import opened Observations
  import ScannerLaws

  // ----- Binary messages ---------------------------------------------------------------------------------

  predicate IsDelta(m: bytes) { m != [] && m[0] == 0x00 }

  predicate IsChunk(m: bytes) { m != [] && m[0] == 0x01 }

  /** What the observer makes of the binary messages: the bytes of the round in flight, and three totals. */
  datatype Seen = Seen(fed: Option<bytes>, rounds: int, deltas: int, interleaved: bool)

  function Fed(s: Seen, m: bytes): bytes
    requires m != []
  {
    (if s.fed.Some? then s.fed.value else []) + m[1..]
  }

  function Observe(s: Seen, m: bytes): Seen {
    if IsChunk(m) then
      if Scan(Fed(s, m)).Scanned? then s.(fed := None, rounds := s.rounds + 1) else s.(fed := Some(Fed(s, m)))
    else if IsDelta(m) then s.(deltas := s.deltas + 1, interleaved := s.interleaved || s.fed.Some?)
    else s
  }

  /** The first byte routes a message: 0 to the deltas, 1 to the round in flight, and any other nowhere. */
  lemma TagRouting(s: Seen, tag: byte, body: bytes)
    ensures var t := Observe(s, [tag] + body);
            && (tag == 0 ==> t.deltas == s.deltas + 1 && t.fed == s.fed && t.rounds == s.rounds)
            && (tag == 1 ==>
                  && t.deltas == s.deltas && t.interleaved == s.interleaved
                  && (t.rounds == s.rounds ==> t.fed == Some((if s.fed.Some? then s.fed.value else []) + body)))
            && (tag > 1 ==> t == s)
    ensures Observe(s, []) == s
  {
    hide Scan;
    assert ([tag] + body)[1..] == body;
  }

  function ObserveAll(ms: seq<bytes>, n: nat): Seen
    requires n <= |ms|
  {
    if n == 0 then Seen(None, 0, 0, false) else Observe(ObserveAll(ms, n - 1), ms[n - 1])
  }

  // ----- Rounds, told from the messages alone ----------------------------------------------------------------

  /** The bytes of the chunks from `a` up to `n`. */
  function FedSince(ms: seq<bytes>, a: nat, n: nat): bytes
    requires a <= n <= |ms|
  {
    if n == a then [] else FedSince(ms, a, n - 1) + (if IsChunk(ms[n - 1]) then ms[n - 1][1..] else [])
  }

  /** The first chunk of the round in flight in front of message `n`. */
  function OpenSince(ms: seq<bytes>, n: nat): (start: Option<nat>)
    requires n <= |ms|
    ensures start.Some? ==> start.value < n
  {
    if n == 0 then None
    else if !IsChunk(ms[n - 1]) then OpenSince(ms, n - 1)
    else
      var before := OpenSince(ms, n - 1);
      var a := if before.Some? then before.value else n - 1;
      if Scan(FedSince(ms, a, n)).Scanned? then None else Some(a)
  }

  /** The chunks from `a` up to `n` hold no whole message yet. */
  ghost predicate Unfinished(ms: seq<bytes>, a: nat, n: nat)
    requires n <= |ms|
  {
    forall m :: a <= m < n && IsChunk(ms[m]) ==> !Scan(FedSince(ms, a, m + 1)).Scanned?
  }

  /** What `OpenSince` means: a round starts with a chunk outside any round and lasts until a message is whole. */
  lemma {:induction false} OpenMeans(ms: seq<bytes>, a: nat, n: nat)
    requires n <= |ms|
    ensures OpenSince(ms, n) == Some(a) <==>
              a < n && IsChunk(ms[a]) && OpenSince(ms, a).None? && Unfinished(ms, a, n)
    decreases n
  {
    hide Scan;
    if n > 0 {
      OpenMeans(ms, a, n - 1);
      if OpenSince(ms, n - 1).Some? { OpenMeans(ms, OpenSince(ms, n - 1).value, n - 1); }
      if a < n - 1 && OpenSince(ms, n) == Some(a) { assert OpenSince(ms, n - 1) == Some(a); }
    }
  }

  /** The chunk at `k` completes the scan of its round. */
  predicate Completes(ms: seq<bytes>, k: nat)
    requires k < |ms|
  {
    && IsChunk(ms[k])
    && Scan(FedSince(ms, if OpenSince(ms, k).Some? then OpenSince(ms, k).value else k, k + 1)).Scanned?
  }

  function Completed(ms: seq<bytes>, n: nat): nat
    requires n <= |ms|
  {
    if n == 0 then 0 else Completed(ms, n - 1) + (if Completes(ms, n - 1) then 1 else 0)
  }

  /** A delta in front of `n` arrived inside a round. */
  ghost predicate DeltaInRound(ms: seq<bytes>, n: nat)
    requires n <= |ms|
  {
    exists k: nat :: k < n && IsDelta(ms[k]) && OpenSince(ms, k).Some?
  }

  lemma DeltaNext(ms: seq<bytes>, n: nat)
    requires n < |ms|
    ensures DeltaInRound(ms, n + 1) <==> DeltaInRound(ms, n) || (IsDelta(ms[n]) && OpenSince(ms, n).Some?)
  {
    hide OpenSince;
  }

  lemma FedStep(ms: seq<bytes>, n: nat)
    requires n < |ms|
    ensures FedSince(ms, n, n + 1) == if IsChunk(ms[n]) then ms[n][1..] else []
  {
    assert FedSince(ms, n, n) == [];
  }

  /**
   * Over every trace: the flag is set exactly when a delta arrived between the first chunk of a round
   * and the chunk that completes it, and the rounds counted are the scans completed.
   */
  lemma {:induction false} TrafficMeans(ms: seq<bytes>, n: nat)
    requires n <= |ms|
    ensures var s := ObserveAll(ms, n);
            && s.fed == (if OpenSince(ms, n).Some? then Some(FedSince(ms, OpenSince(ms, n).value, n)) else None)
            && s.rounds == Completed(ms, n)
            && (s.interleaved <==> DeltaInRound(ms, n))
    decreases n
  {
    hide Scan;
    if n > 0 {
      TrafficMeans(ms, n - 1);
      DeltaNext(ms, n - 1);
      FedStep(ms, n - 1);
      var s, m, open := ObserveAll(ms, n - 1), ms[n - 1], OpenSince(ms, n - 1);
      if IsChunk(m) {
        var a := if open.Some? then open.value else n - 1;
        assert FedSince(ms, a, n) == Fed(s, m);
      } else if open.Some? {
        assert FedSince(ms, open.value, n) == FedSince(ms, open.value, n - 1);
      }
    }
  }

  // ----- The observer -----------------------------------------------------------------------------------------

  datatype ServerEvent = Hello | Sync | Presence | Other

  function MaxOf(xs: seq<int>): int
    requires xs != []
  {
    if |xs| == 1 then xs[0]
    else if xs[|xs| - 1] > MaxOf(xs[..|xs| - 1]) then xs[|xs| - 1] else MaxOf(xs[..|xs| - 1])
  }

  /** `maxAckCursor`. */
  function MaxAck(cursors: seq<int>): int { if cursors == [] then -1 else MaxOf(cursors) }

  lemma {:induction false} MaxIsMax(xs: seq<int>)
    requires xs != []
    ensures MaxOf(xs) in xs && forall x :: x in xs ==> x <= MaxOf(xs)
  {
    var front := xs[..|xs| - 1];
    assert xs == front + [xs[|xs| - 1]];
    if front != [] { MaxIsMax(front); }
  }

  /** `waitFor…`: resolved at once, or put on the list. */
  method AddWaiter(c: Channel, threshold: int, id: nat) returns (d: Channel)
    ensures d == Observations.Step(c, Wait(threshold), id)
  {
    if c.level >= threshold { return c.(resolved := c.resolved + [id]); }
    return c.(pending := c.pending + [Waiter(id, threshold)]);
  }

  /** The counter moves and its waiters are drained. */
  method Advance(c: Channel, level: int, ghost id: nat) returns (d: Channel)
    ensures d == Observations.Step(c, Reach(level), id)
  {
    var rest, resolved := Drain(c.pending, level);
    d := Channel(level, rest, c.resolved + resolved);
  }

  class RealtimeObservations {
    var hellos: Channel
    var wakes: Channel
    var presences: Channel
    var deltas: Channel
    var rounds: Channel
    var acks: Channel
    var ackCursors: seq<int>
    var closedByServer: bool
    var closeWaiters: seq<nat>
    var closeResolved: seq<nat>
    var deltaInterleavedDuringRound: bool
    var responseScanner: MessageStreamScanner?

    ghost function Repr(): set<object>
      reads this, responseScanner
    {
      if responseScanner == null then {this}
      else
        var scanner: MessageStreamScanner := responseScanner;
        {this, scanner, scanner.buffer}
    }

    ghost predicate Valid()
      reads this, responseScanner, if responseScanner == null then {} else {responseScanner.buffer}
    {
      && acks.level == MaxAck(ackCursors)
      && (responseScanner != null ==> responseScanner.Valid() && !responseScanner.complete)
    }

    /** The binary traffic so far. */
    ghost function Now(): Seen
      reads this, responseScanner
    {
      Seen(if responseScanner == null then None else Some(responseScanner.stream),
           rounds.level, deltas.level, deltaInterleavedDuringRound)
    }

    constructor ()
      ensures Valid() && fresh(Repr()) && Now() == ObserveAll([], 0)
      ensures hellos == Channel(0, [], []) && wakes == Channel(0, [], []) && presences == Channel(0, [], [])
      ensures deltas == Channel(0, [], []) && rounds == Channel(0, [], []) && acks == Channel(-1, [], []) && ackCursors == []
      ensures !closedByServer && closeWaiters == [] && closeResolved == []
    {
      var zero := Channel(0, [], []);
      hellos, wakes, presences, deltas, rounds, acks := zero, zero, zero, zero, zero, Channel(-1, [], []);
      ackCursors, closedByServer, closeWaiters, closeResolved := [], false, [], [];
      deltaInterleavedDuringRound, responseScanner := false, null;
    }

    method WaitForDeltas(count: int, id: nat)
      modifies this`deltas
      ensures deltas == Observations.Step(old(deltas), Wait(count), id)
    {
      deltas := AddWaiter(deltas, count, id);
    }

    method WaitForRounds(count: int, id: nat)
      modifies this`rounds
      ensures rounds == Observations.Step(old(rounds), Wait(count), id)
    {
      rounds := AddWaiter(rounds, count, id);
    }

    method WaitForAck(cursor: int, id: nat)
      requires Valid()
      modifies this`acks
      ensures Valid() && acks == Observations.Step(old(acks), Wait(cursor), id)
    {
      acks := AddWaiter(acks, cursor, id);
    }

    method WaitForWakes(count: int, id: nat)
      modifies this`wakes
      ensures wakes == Observations.Step(old(wakes), Wait(count), id)
    {
      wakes := AddWaiter(wakes, count, id);
    }

    method WaitForPresence(count: int, id: nat)
      modifies this`presences
      ensures presences == Observations.Step(old(presences), Wait(count), id)
    {
      presences := AddWaiter(presences, count, id);
    }

    method WaitForHelloCount(count: int, id: nat)
      modifies this`hellos
      ensures hellos == Observations.Step(old(hellos), Wait(count), id)
    {
      hellos := AddWaiter(hellos, count, id);
    }

    method WaitForClose(id: nat)
      modifies this`closeWaiters, this`closeResolved
      ensures closedByServer ==> closeResolved == old(closeResolved) + [id] && closeWaiters == old(closeWaiters)
      ensures !closedByServer ==> closeWaiters == old(closeWaiters) + [id] && closeResolved == old(closeResolved)
    {
      if closedByServer { closeResolved := closeResolved + [id]; }
      else { closeWaiters := closeWaiters + [id]; }
    }

    /** Everybody who waits for the close is resolved and nobody is left. */
    method ObserveServerClose()
      modifies this`closedByServer, this`closeWaiters, this`closeResolved
      ensures closedByServer && closeWaiters == [] && closeResolved == old(closeResolved) + old(closeWaiters)
    {
      closedByServer := true;
      closeResolved := closeResolved + closeWaiters;
      closeWaiters := [];
    }

    method ObserveServerEvent(e: ServerEvent, ghost id: nat)
      modifies this`hellos, this`wakes, this`presences
      ensures hellos == if e.Hello? then Observations.Step(old(hellos), Reach(old(hellos.level) + 1), id) else old(hellos)
      ensures wakes == if e.Sync? then Observations.Step(old(wakes), Reach(old(wakes.level) + 1), id) else old(wakes)
      ensures presences == if e.Presence? then Observations.Step(old(presences), Reach(old(presences.level) + 1), id) else old(presences)
    {
      match e
      case Hello => hellos := Advance(hellos, hellos.level + 1, id);
      case Sync => wakes := Advance(wakes, wakes.level + 1, id);
      case Presence => presences := Advance(presences, presences.level + 1, id);
      case Other =>
    }

    method ObserveAck(cursor: int, ghost id: nat)
      requires Valid()
      modifies this`acks, this`ackCursors
      ensures Valid() && ackCursors == old(ackCursors) + [cursor]
      ensures acks == Observations.Step(old(acks), Reach(MaxAck(ackCursors)), id)
    {
      ackCursors := ackCursors + [cursor];
      acks := Advance(acks, MaxAck(ackCursors), id);
    }

    method ObserveDelta(ghost id: nat)
      modifies this`deltas
      ensures deltas == Observations.Step(old(deltas), Reach(old(deltas.level) + 1), id)
    {
      deltas := Advance(deltas, deltas.level + 1, id);
    }

    /** Routes one message by its tag; it throws when the scanner refuses the header of a round. */
    method ObserveServerBinary(m: bytes, ghost id: nat) returns (threw: bool)
      requires Valid()
      modifies Repr()
      ensures Valid() && fresh(Repr() - old(Repr()))
      ensures Now() == Observe(old(Now()), m)
      ensures threw <==> IsChunk(m) && Scan(Fed(old(Now()), m)) == BadHeader
      ensures Now().rounds == old(Now().rounds) ==> rounds == old(rounds)
      ensures Now().rounds != old(Now().rounds) ==> rounds == Observations.Step(old(rounds), Reach(old(rounds.level) + 1), id)
      ensures deltas == if IsDelta(m) then Observations.Step(old(deltas), Reach(old(deltas.level) + 1), id) else old(deltas)
      ensures hellos == old(hellos) && wakes == old(wakes) && presences == old(presences)
      ensures acks == old(acks) && ackCursors == old(ackCursors)
      ensures closedByServer == old(closedByServer) && closeWaiters == old(closeWaiters) && closeResolved == old(closeResolved)
    {
      hide Scan, Left, Due;
      if m == [] { return false; }
      if m[0] == 0x01 {
        if responseScanner == null { responseScanner := new MessageStreamScanner(); }
        var answer := responseScanner.Push(m[1..]);
        ScannerLaws.ScanExtends(responseScanner.stream, []);
        if answer.Scanned? {
          responseScanner := null;
          rounds := Advance(rounds, rounds.level + 1, id);
        }
        return answer.BadHeader?;
      }
      if m[0] == 0x00 {
        if responseScanner != null { deltaInterleavedDuringRound := true; }
        ObserveDelta(id);
      }
      return false;
    }
  }
}
