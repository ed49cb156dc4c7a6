/** Repeating a step until it reaches an end, when there are only finitely many cases. */
module Orbits {
  import opened Sorting

  /** At most n steps from x, none from an end. */
  function Orbit<X>(step: X -> X, end: X -> bool, x: X, n: nat): X
    decreases n
  {
    if n == 0 || end(x) then x else Orbit(step, end, step(x), n - 1)
  }

  lemma {:induction false} OrbitSplits<X>(step: X -> X, end: X -> bool, x: X, n: nat, m: nat)
    ensures Orbit(step, end, x, n + m) == Orbit(step, end, Orbit(step, end, x, n), m)
    decreases n
  {
    if n > 0 && !end(x) {
      OrbitSplits(step, end, step(x), n - 1, m);
    } else if end(x) {
      OrbitStays(step, end, x, n + m);
      OrbitStays(step, end, x, m);
    }
  }

  lemma OrbitStays<X>(step: X -> X, end: X -> bool, x: X, n: nat)
    ensures end(x) ==> Orbit(step, end, x, n) == x
  {
  }

  /** Before an end, the case of a state, a number below bound, decides whether its step ends and else the case of that. */
  ghost predicate Decides<X(!new)>(step: X -> X, end: X -> bool, inv: X -> bool, kind: X -> nat, bound: nat) {
    && (forall x :: inv(x) && !end(x) && !end(step(x)) ==> inv(step(x)))
    && (forall x :: inv(x) && !end(x) ==> kind(x) < bound)
    && (forall x, y :: inv(x) && inv(y) && !end(x) && !end(y) && kind(x) == kind(y) ==> end(step(x)) == end(step(y)))
    && (forall x, y :: inv(x) && inv(y) && !end(x) && !end(y) && kind(x) == kind(y) && !end(step(x)) ==>
          kind(step(x)) == kind(step(y)))
  }

  /** Two states of one case end after the same number of steps. */
  lemma {:induction false} SameEnd<X(!new)>(step: X -> X, end: X -> bool, inv: X -> bool, kind: X -> nat, bound: nat, x: X, y: X, n: nat)
    requires Decides(step, end, inv, kind, bound)
    requires inv(x) && inv(y) && !end(x) && !end(y) && kind(x) == kind(y)
    ensures end(Orbit(step, end, x, n)) <==> end(Orbit(step, end, y, n))
    decreases n
  {
    if n > 0 {
      var x', y' := step(x), step(y);
      if end(x') {
        OrbitStays(step, end, x', n - 1);
        OrbitStays(step, end, y', n - 1);
      } else {
        SameEnd(step, end, inv, kind, bound, x', y', n - 1);
      }
    }
  }

  lemma {:induction false} OrbitInv<X(!new)>(step: X -> X, end: X -> bool, inv: X -> bool, kind: X -> nat, bound: nat, x: X, n: nat)
    requires Decides(step, end, inv, kind, bound) && inv(x) && !end(Orbit(step, end, x, n))
    ensures inv(Orbit(step, end, x, n)) && !end(x)
    decreases n
  {
    OrbitStays(step, end, x, n);
    if n > 0 {
      OrbitStays(step, end, step(x), n - 1);
      OrbitInv(step, end, inv, kind, bound, step(x), n - 1);
    }
  }

  /** Among bound + 1 numbers below bound two are equal. */
  lemma Repeats(ks: seq<nat>, bound: nat) returns (i: nat, j: nat)
    requires |ks| == bound + 1 && forall i :: 0 <= i < |ks| ==> ks[i] < bound
    ensures i < j < |ks| && ks[i] == ks[j]
  {
    if Distinct(ks) {
      SetOfSize(ks);
      NumbersBelow((set k | k in ks), bound);
      assert false;
    }
    i, j :| 0 <= i < j < |ks| && ks[i] == ks[j];
  }

  /** An end that is reached at all is reached within as many steps as there are cases. */
  lemma {:induction false} EndsSoon<X(!new)>(step: X -> X, end: X -> bool, inv: X -> bool, kind: X -> nat, bound: nat, x: X, n: nat)
    requires Decides(step, end, inv, kind, bound) && inv(x) && end(Orbit(step, end, x, n))
    ensures end(Orbit(step, end, x, bound))
    decreases n
  {
    if n <= bound {
      OrbitSplits(step, end, x, n, bound - n);
      OrbitStays(step, end, Orbit(step, end, x, n), bound - n);
    } else if !end(Orbit(step, end, x, bound)) {
      var d := Returns(step, end, inv, kind, bound, x, n);
      EndsSoon(step, end, inv, kind, bound, x, n - d);
    }
  }

  /** When the end is later than that, a case occurs twice, and what lies between can be left out. */
  lemma Returns<X(!new)>(step: X -> X, end: X -> bool, inv: X -> bool, kind: X -> nat, bound: nat, x: X, n: nat) returns (d: nat)
    requires Decides(step, end, inv, kind, bound) && inv(x) && n > bound
    requires end(Orbit(step, end, x, n)) && !end(Orbit(step, end, x, bound))
    ensures 0 < d <= n && end(Orbit(step, end, x, n - d))
  {
    forall i | 0 <= i <= bound
      ensures inv(Orbit(step, end, x, i)) && !end(Orbit(step, end, x, i))
    {
      NotYet(step, end, inv, kind, bound, x, i);
    }
    var ks := seq(bound + 1, i requires 0 <= i <= bound => kind(Orbit(step, end, x, i)));
    var i, j := Repeats(ks, bound);
    OrbitSplits(step, end, x, i, n - j);
    OrbitSplits(step, end, x, j, n - j);
    SameEnd(step, end, inv, kind, bound, Orbit(step, end, x, i), Orbit(step, end, x, j), n - j);
    d := j - i;
  }

  lemma NotYet<X(!new)>(step: X -> X, end: X -> bool, inv: X -> bool, kind: X -> nat, bound: nat, x: X, i: nat)
    requires Decides(step, end, inv, kind, bound) && inv(x) && !end(Orbit(step, end, x, bound)) && i <= bound
    ensures inv(Orbit(step, end, x, i)) && !end(Orbit(step, end, x, i))
  {
    OrbitSplits(step, end, x, i, bound - i);
    OrbitStays(step, end, Orbit(step, end, x, i), bound - i);
    OrbitInv(step, end, inv, kind, bound, x, i);
  }
}
