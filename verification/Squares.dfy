/** Squares and integer square roots. */
module Squares {

  function Sq(x: int): int { x * x }

  lemma SqNonNegative(x: int)
    ensures Sq(x) >= 0 && Sq(-x) == Sq(x)
  {
  }

  lemma SqNext(x: int)
    ensures Sq(x + 1) == Sq(x) + 2 * x + 1 && Sq(x - 1) == Sq(x) - 2 * x + 1
  {
  }

  lemma SqLeq(a: int, b: int)
    requires 0 <= a <= b
    ensures Sq(a) <= Sq(b)
  {
    assert a * a <= a * b <= b * b;
  }

  function IntSqrt(n: nat): (r: nat)
    ensures Sq(r) <= n < Sq(r + 1)
  {
    if n == 0 then 0 else
      var r := IntSqrt(n - 1);
      if Sq(r + 1) <= n then SqNext(r + 1); r + 1 else r
  }

  lemma IntSqrtLeq(n: nat, r: nat)
    ensures n < Sq(r + 1) <==> IntSqrt(n) <= r
  {
    hide Sq;
    var s := IntSqrt(n);
    if s > r { SqLeq(r + 1, s); } else { SqLeq(s + 1, r + 1); }
  }

  lemma IntSqrtIs(n: nat, r: nat)
    requires Sq(r) <= n < Sq(r + 1)
    ensures IntSqrt(n) == r
  {
    hide Sq, IntSqrt;
    IntSqrtLeq(n, r);
    if r > 0 { IntSqrtLeq(n, r - 1); }
  }

  /** A leg is no longer than the distance. */
  lemma LegWithin(x: int, y: int, r: nat)
    requires Sq(x) + Sq(y) < Sq(r + 1)
    ensures -(r as int) <= x <= r
  {
    hide Sq;
    SqNonNegative(x);
    SqNonNegative(y);
    if x > r { SqLeq(r + 1, x); }
    if x < -(r as int) { SqLeq(r + 1, -x); }
  }

  /** Changing one leg by 1 changes the distance by at most 1. */
  lemma LegStep(x: int, y: int, x': int)
    requires x' == x - 1 || x' == x + 1
    ensures Sq(x) + Sq(y) >= 0 && Sq(x') + Sq(y) >= 0
    ensures IntSqrt(Sq(x) + Sq(y)) <= IntSqrt(Sq(x') + Sq(y)) + 1
  {
    hide Sq, IntSqrt;
    SqNonNegative(x);
    SqNonNegative(y);
    SqNonNegative(x');
    var r := IntSqrt(Sq(x') + Sq(y));
    LegWithin(x', y, r);
    SqNext(x');
    SqNext(r);
    SqNext(r + 1);
    IntSqrtLeq(Sq(x) + Sq(y), r + 1);
  }
}
