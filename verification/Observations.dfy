/** `RealtimeObservations` and `drain` of packages/conformance/src/scenario.ts. */
module Observations {

  // ----- A counter with its waiters --------------------------------------------------------------------

  datatype Waiter = Waiter(id: nat, threshold: int)

  /** What a counter has reached, who waits for more, and who was resolved, in order. */
  datatype Channel = Channel(level: int, pending: seq<Waiter>, resolved: seq<nat>)

  /** Somebody starts to wait, the counter moves or goes up by one, or something else happens. */
  datatype Event = Wait(threshold: int) | Reach(level: int) | Bump | Aside

  /** The waiters that `drain` leaves, in order. */
  function Left(ws: seq<Waiter>, reached: int): seq<Waiter> {
    if ws == [] then []
    else (if ws[0].threshold <= reached then [] else [ws[0]]) + Left(ws[1..], reached)
  }

  /** The waiters that `drain` resolves, last first. */
  function Due(ws: seq<Waiter>, reached: int): seq<nat> {
    if ws == [] then []
    else Due(ws[1..], reached) + (if ws[0].threshold <= reached then [ws[0].id] else [])
  }

  /** One event; a waiter is known by the position of the event that made it. */
  function Step(c: Channel, e: Event, id: nat): Channel {
    match e
    case Wait(threshold) =>
      if c.level >= threshold then c.(resolved := c.resolved + [id])
      else c.(pending := c.pending + [Waiter(id, threshold)])
    case Reach(level) => Moved(c, level)
    case Bump => Moved(c, c.level + 1)
    case Aside => c
  }

  /** The counter stands at `level` and its waiters have been drained. */
  function Moved(c: Channel, level: int): Channel {
    Channel(level, Left(c.pending, level), c.resolved + Due(c.pending, level))
  }

  function Run(start: int, es: seq<Event>, n: nat): Channel
    requires n <= |es|
  {
    if n == 0 then Channel(start, [], []) else Step(Run(start, es, n - 1), es[n - 1], n - 1)
  }

  /** The loop from the last waiter to the first, each one due spliced out and resolved. */
  method Drain(waiters: seq<Waiter>, reached: int) returns (rest: seq<Waiter>, resolved: seq<nat>)
    ensures rest == Left(waiters, reached) && resolved == Due(waiters, reached)
  {
    rest, resolved := waiters, [];
    var i := |waiters|;
    assert waiters[..i] == waiters;
    while i > 0
      invariant 0 <= i <= |waiters|
      invariant rest == waiters[..i] + Left(waiters[i..], reached)
      invariant resolved == Due(waiters[i..], reached)
    {
      i := i - 1;
      assert waiters[i..][1..] == waiters[i + 1..];
      var waiter := rest[i];
      assert waiter == waiters[i];
      if reached >= waiter.threshold {
        rest := rest[..i] + rest[i + 1..];
        resolved := resolved + [waiter.id];
      }
    }
    assert waiters[0..] == waiters;
  }

  /** The positions of the waiters due, in the order of the list. */
  function DueAt(ws: seq<Waiter>, reached: int, n: nat): seq<nat>
    requires n <= |ws|
  {
    if n == 0 then [] else DueAt(ws, reached, n - 1) + (if ws[n - 1].threshold <= reached then [n - 1] else [])
  }

  lemma {:induction false} DueSplits(a: seq<Waiter>, b: seq<Waiter>, reached: int)
    ensures Due(a + b, reached) == Due(b, reached) + Due(a, reached)
  {
    if a == [] {
      assert a + b == b;
    } else {
      assert (a + b)[1..] == a[1..] + b;
      DueSplits(a[1..], b, reached);
    }
  }

  /** Who is due is resolved in the reverse of the order they began to wait. */
  lemma {:induction false} DueBackwards(ws: seq<Waiter>, reached: int, n: nat)
    requires n <= |ws|
    ensures var due, at := Due(ws[..n], reached), DueAt(ws, reached, n);
            && |due| == |at|
            && forall k :: 0 <= k < |at| ==> at[k] < n && due[|at| - 1 - k] == ws[at[k]].id
  {
    if n > 0 {
      DueBackwards(ws, reached, n - 1);
      assert ws[..n] == ws[..n - 1] + [ws[n - 1]];
      DueSplits(ws[..n - 1], [ws[n - 1]], reached);
      assert [ws[n - 1]][1..] == [];
    }
  }

  // ----- Each waiter is resolved once, when it is due ------------------------------------------------------

  /** The level after the event at `u`. */
  function LevelAfter(start: int, es: seq<Event>, u: nat): int
    requires u < |es|
  {
    Run(start, es, u + 1).level
  }

  /** The counter stood at the threshold at some moment from `i` on, before `n`. */
  ghost predicate Reached(start: int, es: seq<Event>, i: nat, n: nat, threshold: int)
    requires n <= |es|
  {
    exists u :: i <= u < n && LevelAfter(start, es, u) >= threshold
  }

  function Count(ids: seq<nat>, id: nat): nat {
    if ids == [] then 0 else (if ids[0] == id then 1 else 0) + Count(ids[1..], id)
  }

  function CountPending(ws: seq<Waiter>, w: Waiter): nat {
    if ws == [] then 0 else (if ws[0] == w then 1 else 0) + CountPending(ws[1..], w)
  }

  lemma {:induction false} CountConcat(a: seq<nat>, b: seq<nat>, id: nat)
    ensures Count(a + b, id) == Count(a, id) + Count(b, id)
  {
    if a == [] {
      assert a + b == b;
    } else {
      assert (a + b)[1..] == a[1..] + b;
      CountConcat(a[1..], b, id);
    }
  }

  lemma {:induction false} CountPendingSnoc(ws: seq<Waiter>, x: Waiter, w: Waiter)
    ensures CountPending(ws + [x], w) == CountPending(ws, w) + (if x == w then 1 else 0)
  {
    if ws == [] {
      assert (ws + [x])[1..] == [];
    } else {
      assert (ws + [x])[1..] == ws[1..] + [x];
      CountPendingSnoc(ws[1..], x, w);
    }
  }

  /** Every waiter with the given id is the given one. */
  predicate Only(ws: seq<Waiter>, w: Waiter) { forall i :: 0 <= i < |ws| && ws[i].id == w.id ==> ws[i] == w }

  lemma LeftStep(x: Waiter, ws: seq<Waiter>, reached: int, w: Waiter)
    ensures CountPending(Left([x] + ws, reached), w)
         == CountPending(Left(ws, reached), w) + (if x.threshold > reached && x == w then 1 else 0)
    ensures CountPending([x] + ws, w) == CountPending(ws, w) + (if x == w then 1 else 0)
  {
    hide Due;
    assert ([x] + ws)[1..] == ws;
    assert ([x] + Left(ws, reached))[1..] == Left(ws, reached);
    assert [] + Left(ws, reached) == Left(ws, reached);
  }

  lemma DueStep(x: Waiter, ws: seq<Waiter>, reached: int, id: nat)
    ensures Count(Due([x] + ws, reached), id)
         == Count(Due(ws, reached), id) + (if x.threshold <= reached && x.id == id then 1 else 0)
  {
    assert ([x] + ws)[1..] == ws;
    var last := if x.threshold <= reached then [x.id] else [];
    CountConcat(Due(ws, reached), last, id);
    assert last != [] ==> last[1..] == [];
  }

  lemma {:induction false} OnlyLeft(ws: seq<Waiter>, reached: int, w: Waiter)
    requires Only(ws, w)
    ensures Only(Left(ws, reached), w)
  {
    if ws != [] {
      OnlyLeft(ws[1..], reached, w);
      assert ws[0].id == w.id ==> ws[0] == w;
    }
  }

  lemma {:induction false} DrainCounts(ws: seq<Waiter>, reached: int, w: Waiter)
    requires Only(ws, w)
    ensures CountPending(Left(ws, reached), w) == if w.threshold <= reached then 0 else CountPending(ws, w)
    ensures Count(Due(ws, reached), w.id) == if w.threshold <= reached then CountPending(ws, w) else 0
  {
    if ws != [] {
      hide Left, Due, Count, CountPending;
      DrainCounts(ws[1..], reached, w);
      assert ws[0].id == w.id ==> ws[0] == w;
      assert ws == [ws[0]] + ws[1..];
      LeftStep(ws[0], ws[1..], reached, w);
      DueStep(ws[0], ws[1..], reached, w.id);
    }
  }

  /** Where a waiter stands after `n` events. */
  ghost predicate Stands(c: Channel, w: Waiter, made: bool, reached: bool) {
    && Only(c.pending, w)
    && CountPending(c.pending, w) == (if made && !reached then 1 else 0)
    && Count(c.resolved, w.id) == (if made && reached then 1 else 0)
  }

  lemma ReachedNext(start: int, es: seq<Event>, i: nat, n: nat, threshold: int)
    requires n < |es|
    ensures Reached(start, es, i, n + 1, threshold)
       <==> Reached(start, es, i, n, threshold) || (i <= n && LevelAfter(start, es, n) >= threshold)
  {
    hide LevelAfter;
  }

  lemma WaitStands(c: Channel, w: Waiter, made: bool, reached: bool, threshold: int, id: nat)
    requires Stands(c, w, made, reached) && id != w.id
    ensures Stands(Step(c, Wait(threshold), id), w, made, reached)
  {
    CountConcat(c.resolved, [id], w.id);
    assert [id][1..] == [];
    CountPendingSnoc(c.pending, Waiter(id, threshold), w);
  }

  lemma OwnWaitStands(c: Channel, w: Waiter)
    requires Stands(c, w, false, false)
    ensures Stands(Step(c, Wait(w.threshold), w.id), w, true, c.level >= w.threshold)
  {
    CountConcat(c.resolved, [w.id], w.id);
    assert [w.id][1..] == [];
    CountPendingSnoc(c.pending, w, w);
  }

  lemma MovedStands(c: Channel, w: Waiter, made: bool, reached: bool, level: int)
    requires Stands(c, w, made, reached)
    ensures Stands(Moved(c, level), w, made, made && (reached || level >= w.threshold))
  {
    DrainCounts(c.pending, level, w);
    OnlyLeft(c.pending, level, w);
    CountConcat(c.resolved, Due(c.pending, level), w.id);
  }

  lemma {:induction false} WaiterStands(start: int, es: seq<Event>, i: nat, n: nat)
    requires i < |es| && es[i].Wait? && n <= |es|
    ensures Stands(Run(start, es, n), Waiter(i, es[i].threshold), i < n, i < n && Reached(start, es, i, n, es[i].threshold))
  {
    hide Moved, Stands;
    var w := Waiter(i, es[i].threshold);
    if n == 0 {
      FreshStands(start, w);
    } else {
      WaiterStands(start, es, i, n - 1);
      var c := Run(start, es, n - 1);
      ReachedNext(start, es, i, n - 1, w.threshold);
      LevelStep(c, es[n - 1], n - 1);
      match es[n - 1]
      case Reach(level) =>
        MovedStands(c, w, i < n - 1, i < n - 1 && Reached(start, es, i, n - 1, w.threshold), level);
      case Bump =>
        MovedStands(c, w, i < n - 1, i < n - 1 && Reached(start, es, i, n - 1, w.threshold), c.level + 1);
      case Aside =>
        if i < n - 1 { Settled(start, es, i, n - 1); }
      case Wait(threshold) =>
        if n - 1 == i {
          NotYet(start, es, i, w.threshold);
          OwnWaitStands(c, w);
        } else {
          WaitStands(c, w, i < n - 1, i < n - 1 && Reached(start, es, i, n - 1, w.threshold), threshold, n - 1);
          if i < n - 1 { Settled(start, es, i, n - 1); }
        }
    }
  }

  lemma FreshStands(start: int, w: Waiter)
    ensures Stands(Channel(start, [], []), w, false, false)
  {
  }

  lemma NotYet(start: int, es: seq<Event>, i: nat, threshold: int)
    requires i <= |es|
    ensures !Reached(start, es, i, i, threshold)
  {
  }

  lemma LevelStep(c: Channel, e: Event, id: nat)
    ensures Step(c, e, id).level == if e.Reach? then e.level else if e.Bump? then c.level + 1 else c.level
  {
  }

  /** What does not move the counter makes nothing due. */
  lemma Settled(start: int, es: seq<Event>, i: nat, n: nat)
    requires i < n < |es| && es[i].Wait? && (es[n].Wait? || es[n].Aside?)
    ensures LevelAfter(start, es, n) >= es[i].threshold ==> Reached(start, es, i, n, es[i].threshold)
  {
    assert LevelAfter(start, es, n) == LevelAfter(start, es, n - 1);
  }

  /**
   * Each waiter is resolved exactly once, at the first moment the counter reaches its threshold: after
   * `n` events it has been resolved once if the counter has stood there since, and never if not.
   */
  lemma ResolvedOnceWhenDue(start: int, es: seq<Event>, i: nat, n: nat)
    requires i < n <= |es| && es[i].Wait?
    ensures Count(Run(start, es, n).resolved, i) == if Reached(start, es, i, n, es[i].threshold) then 1 else 0
  {
    hide Run;
    WaiterStands(start, es, i, n);
  }

  /** The channel is where the events take it, and has resolved each waiter once if it was due and never if not. */
  ghost predicate Settles(c: Channel, start: int, es: seq<Event>) {
    && c == Run(start, es, |es|)
    && forall i :: 0 <= i < |es| && es[i].Wait? ==>
         Count(c.resolved, i) == if Reached(start, es, i, |es|, es[i].threshold) then 1 else 0
  }

  lemma RunSettles(start: int, es: seq<Event>)
    ensures Settles(Run(start, es, |es|), start, es)
  {
    hide Run, Reached;
    forall i | 0 <= i < |es| && es[i].Wait?
      ensures Count(Run(start, es, |es|).resolved, i) == if Reached(start, es, i, |es|, es[i].threshold) then 1 else 0
    {
      ResolvedOnceWhenDue(start, es, i, |es|);
    }
  }

  lemma RunNext(start: int, es: seq<Event>, n: nat)
    requires n < |es|
    ensures Run(start, es, n + 1) == Step(Run(start, es, n), es[n], n)
  {
  }
}
