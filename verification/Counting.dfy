/** Sizes of finite sets. */
module Counting {

  /** If x is determined by two coordinates taken from a and b, there are at most |a| * |b| of them. */
  lemma {:induction false} PairBound<X(!new), A(!new), B(!new)>(xs: set<X>, a: set<A>, b: set<B>, f: X -> A, g: X -> B)
    requires forall x :: x in xs ==> f(x) in a && g(x) in b
    requires forall x, y :: x in xs && y in xs && f(x) == f(y) && g(x) == g(y) ==> x == y
    ensures |xs| <= |a| * |b|
    decreases |a|
  {
    if a == {} {
      if x :| x in xs { assert false; }
    } else {
      var p :| p in a;
      var here := set x | x in xs && f(x) == p;
      var rest := set x | x in xs && f(x) != p;
      assert xs == here + rest;
      PairBound(rest, a - {p}, b, f, g);
      InjectionBound(here, b, g);
      MulStep(|a|, |b|);
    }
  }

  lemma {:induction false} InjectionBound<X(!new), B(!new)>(xs: set<X>, b: set<B>, g: X -> B)
    requires forall x :: x in xs ==> g(x) in b
    requires forall x, y :: x in xs && y in xs && g(x) == g(y) ==> x == y
    ensures |xs| <= |b|
    decreases |xs|
  {
    if xs == {} {
    } else {
      var x :| x in xs;
      InjectionBound(xs - {x}, b - {g(x)}, g);
    }
  }

  lemma MulStep(n: nat, m: nat)
    requires n > 0
    ensures n * m == (n - 1) * m + m
  {
  }

  lemma MulMonotone(a: nat, b: nat, c: nat)
    requires a <= b
    ensures a * c <= b * c
  {
  }

  lemma MulCommute(a: nat, b: nat)
    ensures a * b == b * a
  {
  }

  /** The numbers 0..m. */
  function UpTo(m: nat): (ks: set<nat>)
    ensures |ks| == m + 1 && forall k :: k in ks <==> 0 <= k <= m
  {
    if m == 0 then {0}
    else
      var before: set<nat> := UpTo(m - 1);
      assert m !in before;
      before + {m}
  }
}
