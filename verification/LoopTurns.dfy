/** How often the body of a counted read loop runs. */
module LoopTurns {
  import opened Results
  import opened Formats

  /** The turns of a loop that reads `n` items, up to and with the one that throws. */
  function Turns<T>(f: Format<T>, keepBom: bool, n: nat, s: bytes): nat {
    if n == 0 then 0
    else
      match f.read(keepBom, s)
      case Failed(_) => 1
      case Parsed(_, k) => 1 + Turns(f, keepBom, n - 1, k)
  }

  /** With `least` bytes an item, at most one turn more than the input has room for. */
  lemma {:induction false} TurnsBounded<T(!new)>(f: Format<T>, least: nat, keepBom: bool, n: nat, s: bytes)
    requires Sound(f, least)
    ensures Turns(f, keepBom, n, s) * least <= |s| + least
    ensures ReadAll(f, keepBom, n, s).Parsed? ==>
              Turns(f, keepBom, n, s) == n && n * least + |ReadAll(f, keepBom, n, s).rest| <= |s|
  {
    if n > 0 {
      assert SoundAt(f, least, keepBom, s);
      var h := f.read(keepBom, s);
      if h.Parsed? {
        TurnsBounded(f, least, keepBom, n - 1, h.rest);
        var t := Turns(f, keepBom, n - 1, h.rest);
        assert (1 + t) * least == least + t * least;
        assert n * least == (n - 1) * least + least;
      }
    }
  }

  /** One turn, as a loop takes it. */
  lemma TurnsStep<T>(f: Format<T>, n: nat, s: bytes)
    requires n > 0
    ensures Turns(f, false, n, s)
         == 1 + if f.read(false, s).Parsed? then Turns(f, false, n - 1, f.read(false, s).rest) else 0
  {
  }

  lemma TurnsEnd<T>(f: Format<T>, s: bytes)
    ensures Turns(f, false, 0, s) == 0
  {
  }
}
