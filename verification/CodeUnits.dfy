/**
 * JavaScript's string order: UTF-16 code units, compared lexicographically. The
 * writers sort map keys by it and the readers insist on it.
 */
module CodeUnits {

  function CharUnits(c: char): (u: seq<int>)
    ensures 1 <= |u| <= 2
  {
    var n := c as int;
    if n < 0x10000 then [n] else [0xD800 + (n - 0x10000) / 1024, 0xDC00 + (n - 0x10000) % 1024]
  }

  function Units(t: string): seq<int> {
    if t == [] then [] else CharUnits(t[0]) + Units(t[1..])
  }

  predicate UnitsLess(a: seq<int>, b: seq<int>) {
    if b == [] then false
    else if a == [] then true
    else if a[0] != b[0] then a[0] < b[0]
    else UnitsLess(a[1..], b[1..])
  }

  /** `a < b` on JavaScript strings. */
  predicate Less(a: string, b: string) { UnitsLess(Units(a), Units(b)) }

  lemma {:induction false} UnitsLessTotal(a: seq<int>, b: seq<int>)
    ensures a == b || UnitsLess(a, b) || UnitsLess(b, a)
    ensures !(UnitsLess(a, b) && UnitsLess(b, a)) && !UnitsLess(a, a)
  {
    if a != [] && b != [] && a[0] == b[0] {
      UnitsLessTotal(a[1..], b[1..]);
      assert a == [a[0]] + a[1..] && b == [b[0]] + b[1..];
    }
    if a != [] {
      UnitsLessTotal(a[1..], a[1..]);
    }
  }

  lemma {:induction false} UnitsLessTransitive(a: seq<int>, b: seq<int>, c: seq<int>)
    requires UnitsLess(a, b) && UnitsLess(b, c)
    ensures UnitsLess(a, c)
  {
    if a != [] && a[0] == b[0] && b[0] == c[0] {
      UnitsLessTransitive(a[1..], b[1..], c[1..]);
    }
  }

  lemma FirstCharByUnits(a: char, x: seq<int>, b: char, y: seq<int>)
    requires CharUnits(a) + x == CharUnits(b) + y
    ensures a == b && x == y
  {
    var u, v := CharUnits(a) + x, CharUnits(b) + y;
    assert u[0] == CharUnits(a)[0] && v[0] == CharUnits(b)[0];
    if |CharUnits(a)| == 2 {
      assert u[1] == CharUnits(a)[1] && v[1] == CharUnits(b)[1];
      assert x == u[2..];
    } else {
      assert x == u[1..];
    }
  }

  lemma {:induction false} UnitsInjective(a: string, b: string)
    requires Units(a) == Units(b)
    ensures a == b
  {
    if a != [] && b != [] {
      FirstCharByUnits(a[0], Units(a[1..]), b[0], Units(b[1..]));
      UnitsInjective(a[1..], b[1..]);
      assert a == [a[0]] + a[1..] && b == [b[0]] + b[1..];
    }
  }

  /** `Less` is a strict total order on text: total and irreflexive ... */
  lemma LessTotal(a: string, b: string)
    ensures a == b || Less(a, b) || Less(b, a)
    ensures Less(a, b) ==> a != b && !Less(b, a)
  {
    UnitsLessTotal(Units(a), Units(b));
    if Units(a) == Units(b) {
      UnitsInjective(a, b);
    }
  }

  /** ... and transitive. */
  lemma LessTransitive(a: string, b: string, c: string)
    requires Less(a, b) && Less(b, c)
    ensures Less(a, c)
  {
    UnitsLessTransitive(Units(a), Units(b), Units(c));
  }

  // ----- What the order is, without its recursion --------------------------------------------------------

  /** The units agree up to `i`, and there the first text ends or has the smaller unit. */
  predicate BelowAt(a: seq<int>, b: seq<int>, i: nat) {
    i <= |a| && i < |b| && a[..i] == b[..i] && (i == |a| || a[i] < b[i])
  }

  lemma BelowHead(a: seq<int>, b: seq<int>, i: nat)
    requires BelowAt(a, b, i) && i > 0
    ensures a[0] == b[0]
  {
    assert a[..i][0] == a[0] && b[..i][0] == b[0];
  }

  lemma {:induction false} UnitsLessMeans(a: seq<int>, b: seq<int>)
    ensures UnitsLess(a, b) <==> exists i :: BelowAt(a, b, i)
  {
    forall i: nat | BelowAt(a, b, i) && i > 0 ensures a != [] && a[0] == b[0] { BelowHead(a, b, i); }
    if b == [] || a == [] || a[0] != b[0] {
      if b != [] && (a == [] || a[0] < b[0]) { assert BelowAt(a, b, 0); }
    } else {
      UnitsLessMeans(a[1..], b[1..]);
      if i: nat :| BelowAt(a[1..], b[1..], i) {
        assert a[..i + 1] == [a[0]] + a[1..][..i] && b[..i + 1] == [b[0]] + b[1..][..i];
        assert BelowAt(a, b, i + 1);
      }
      if i: nat :| BelowAt(a, b, i) {
        assert i > 0;
        assert a[1..][..i - 1] == a[..i][1..] && b[1..][..i - 1] == b[..i][1..];
        assert BelowAt(a[1..], b[1..], i - 1);
      }
    }
  }

  /**
   * One text is below another exactly when its code units are a proper prefix of the other's, or the
   * two first differ in a unit that is smaller in the one.
   */
  lemma LessMeans(a: string, b: string)
    ensures var u, v := Units(a), Units(b);
            Less(a, b) <==>
              || (|u| < |v| && u == v[..|u|])
              || exists i :: 0 <= i < |u| && i < |v| && u[..i] == v[..i] && u[i] < v[i]
  {
    var u, v := Units(a), Units(b);
    UnitsLessMeans(u, v);
    if i: nat :| BelowAt(u, v, i) { assert i == |u| ==> u[..i] == u; }
    if |u| < |v| && u == v[..|u|] {
      assert u[..|u|] == u;
      assert BelowAt(u, v, |u|);
    }
    if i: nat :| i < |u| && i < |v| && u[..i] == v[..i] && u[i] < v[i] { assert BelowAt(u, v, i); }
  }

  /** A scalar below 0x10000 is one unit, itself; any other is a high and a low surrogate (RFC 2781). */
  lemma UnitsOfChar(c: char, t: string)
    ensures Units([c] + t) == Units([c]) + Units(t)
    ensures (c as int) < 0x10000 ==> Units([c]) == [c as int]
    ensures (c as int) >= 0x10000 ==>
              var u := Units([c]);
              && |u| == 2 && 0xD800 <= u[0] < 0xDC00 && 0xDC00 <= u[1] < 0xE000
              && c as int == 0x10000 + (u[0] - 0xD800) * 0x400 + (u[1] - 0xDC00)
  {
    assert ([c] + t)[1..] == t && [c][1..] == [];
    assert Units([c]) == CharUnits(c) + [];
  }

  /** Every string is strictly below the ones after it. */
  ghost predicate Ascending(ks: seq<string>) {
    forall i, j :: 0 <= i < j < |ks| ==> Less(ks[i], ks[j])
  }

  predicate IsLeast(k: string, s: set<string>) {
    k in s && forall x :: x in s ==> x == k || Less(k, x)
  }

  lemma {:induction false} LeastExists(s: set<string>) returns (k: string)
    requires s != {}
    ensures IsLeast(k, s)
  {
    k :| k in s;
    var t := s - {k};
    assert forall x :: x in s ==> x == k || x in t;
    if t != {} {
      var m := LeastExists(t);
      LessTotal(k, m);
      if Less(k, m) {
        forall x | x in t && x != m
          ensures Less(k, x)
        {
          LessTransitive(k, m, x);
        }
      } else {
        k := m;
      }
    }
  }

  lemma LeastUnique(s: set<string>, k: string, m: string)
    requires IsLeast(k, s) && IsLeast(m, s)
    ensures k == m
  {
    LessTotal(k, m);
  }

  /** `[...s].sort()`: the members of `s`, ascending. */
  function Sorted(s: set<string>): (r: seq<string>)
    ensures |r| == |s|
    ensures forall x :: x in s <==> x in r
    decreases |s|
  {
    if s == {} then []
    else
      assert exists k :: IsLeast(k, s) by { var m := LeastExists(s); }
      assert forall k, m :: IsLeast(k, s) && IsLeast(m, s) ==> k == m by {
        forall k, m | IsLeast(k, s) && IsLeast(m, s) ensures k == m { LeastUnique(s, k, m); }
      }
      var k :| IsLeast(k, s);
      [k] + Sorted(s - {k})
  }

  lemma SortedSteps(s: set<string>)
    requires s != {}
    ensures var r := Sorted(s); IsLeast(r[0], s) && r[1..] == Sorted(s - {r[0]})
  {
    var m := LeastExists(s);
    var r := Sorted(s);
    forall k | IsLeast(k, s) ensures k == m { LeastUnique(s, k, m); }
    assert r == [m] + Sorted(s - {m});
  }

  lemma {:induction false} SortedAscends(s: set<string>)
    ensures Ascending(Sorted(s))
    decreases |s|
  {
    if s != {} {
      var r := Sorted(s);
      SortedSteps(s);
      SortedAscends(s - {r[0]});
      forall i, j | 0 <= i < j < |r|
        ensures Less(r[i], r[j])
      {
        var tail := Sorted(s - {r[0]});
        assert r[j] == tail[j - 1];
        if i > 0 {
          assert r[i] == tail[i - 1];
        } else {
          assert tail[j - 1] in s - {r[0]};
        }
      }
    }
  }

  lemma HeadsAgree(a: seq<string>, b: seq<string>)
    requires a != [] && Ascending(a) && Ascending(b)
    requires forall x :: x in a <==> x in b
    ensures b != [] && a[0] == b[0]
  {
    assert a[0] in b;
    assert b[0] in a;
    LessTotal(a[0], b[0]);
  }

  /** An ascending list is fixed by its elements. */
  lemma {:induction false} AscendingUnique(a: seq<string>, b: seq<string>)
    requires Ascending(a) && Ascending(b)
    requires forall x :: x in a <==> x in b
    ensures a == b
  {
    if a == [] {
      if b != [] {
        HeadsAgree(b, a);
      }
    } else {
      HeadsAgree(a, b);
      assert a == [a[0]] + a[1..] && b == [b[0]] + b[1..];
      forall x
        ensures x in a[1..] <==> x in b[1..]
      {
        LessTotal(a[0], x);
        assert x in a[1..] ==> Less(a[0], x);
        assert x in b[1..] ==> Less(b[0], x);
        assert x in a <==> x == a[0] || x in a[1..];
        assert x in b <==> x == b[0] || x in b[1..];
      }
      AscendingUnique(a[1..], b[1..]);
    }
  }

  lemma SortedUnique(ks: seq<string>, s: set<string>)
    requires Ascending(ks)
    requires forall x :: x in s <==> x in ks
    ensures ks == Sorted(s)
  {
    SortedAscends(s);
    AscendingUnique(ks, Sorted(s));
  }
}
