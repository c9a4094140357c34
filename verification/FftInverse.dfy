/** The transform of `Oscar.c` undoes itself: applied twice, with the scale the benchmark
    uses, it returns its input. */
module FftInverse {
  import opened ComplexNumbers
  import opened Fft
  import opened Powers

  // ----- More on powers -----

  lemma {:induction false} PowTimes(w: Complex, a: nat, b: nat)
    ensures Pow(w, a * b) == Pow(Pow(w, a), b)
    decreases b
  {
    hide Mul;
    if b == 0 {
      assert a * b == 0;
    } else {
      var c := a * (b - 1);
      assert a * b == a + c;
      PowTimes(w, a, b - 1);
      PowAdd(w, a, c);
    }
  }

  lemma {:induction false} PowProduct(a: Complex, b: Complex, k: nat)
    ensures Pow(Mul(a, b), k) == Mul(Pow(a, k), Pow(b, k))
    decreases k
  {
    hide Mul;
    if k == 0 {
      MulOne(ONE);
    } else {
      var u, v := Pow(a, k - 1), Pow(b, k - 1);
      PowProduct(a, b, k - 1);
      MulExchange(a, b, u, v);
    }
  }

  lemma MulExchange(a: Complex, b: Complex, c: Complex, d: Complex)
    ensures Mul(Mul(a, b), Mul(c, d)) == Mul(Mul(a, c), Mul(b, d))
  {
    hide Mul;
    MulAssoc(a, b, Mul(c, d));
    MulAssoc(b, c, d);
    MulCommutes(b, c);
    MulAssoc(c, b, d);
    MulAssoc(a, c, Mul(b, d));
  }

  lemma {:induction false} PowOne(k: nat)
    ensures Pow(ONE, k) == ONE
  {
    hide Mul;
    if k > 0 {
      PowOne(k - 1);
      MulOne(ONE);
    }
  }

  lemma {:induction false} PowMinusOne(k: nat)
    ensures Pow(MINUS_ONE, k) == if k % 2 == 0 then ONE else MINUS_ONE
  {
    hide Mul;
    if k > 0 {
      PowMinusOne(k - 1);
      MulOne(MINUS_ONE);
      MinusOneTwice();
    }
  }

  lemma MinusOneTwice()
    ensures Mul(MINUS_ONE, MINUS_ONE) == ONE
  {
  }

  lemma ConjugateMul(a: Complex, b: Complex)
    ensures Conjugate(Mul(a, b)) == Mul(Conjugate(a), Conjugate(b))
  {
  }

  lemma {:induction false} ConjugatePow(w: Complex, k: nat)
    ensures Conjugate(Pow(w, k)) == Pow(Conjugate(w), k)
  {
    if k > 0 {
      ConjugatePow(w, k - 1);
      ConjugateMul(w, Pow(w, k - 1));
    }
  }

  ghost function Times(x: real, y: real): real { x * y }

  ghost function Norm(a: Complex): real { Times(a.re, a.re) + Times(a.im, a.im) }

  lemma TimesPositive(x: real, y: real)
    ensures (x > 0.0 && y > 0.0) || (x < 0.0 && y < 0.0) ==> Times(x, y) > 0.0
    ensures x == 0.0 ==> Times(x, y) == 0.0
  {
  }

  lemma NormPositive(a: Complex)
    requires a != ZERO
    ensures Norm(a) > 0.0
  {
    hide Times;
    TimesPositive(a.re, a.re);
    TimesPositive(a.im, a.im);
    assert a == Complex(a.re, a.im);
  }

  /** Multiplying a product by the conjugate of one factor leaves the other, scaled. */
  lemma NormTimes(a: Complex, b: Complex)
    ensures Norm(a) * b.re == a.re * Mul(a, b).re + a.im * Mul(a, b).im
    ensures Norm(a) * b.im == a.re * Mul(a, b).im - a.im * Mul(a, b).re
  {
  }

  lemma NoZeroDivisors(a: Complex, b: Complex)
    requires Mul(a, b) == ZERO && a != ZERO
    ensures b == ZERO
  {
    NormPositive(a);
    NormTimes(a, b);
    hide Norm, Mul;
    ZeroFactor(Norm(a), b.re);
    ZeroFactor(Norm(a), b.im);
  }

  lemma ProductPositive(n: real, x: real)
    ensures n > 0.0 && x > 0.0 ==> n * x > 0.0
  {
  }

  lemma ZeroFactor(n: real, x: real)
    requires n > 0.0 && n * x == 0.0
    ensures x == 0.0
  {
    ProductPositive(n, x);
    ProductPositive(n, -x);
    assert n * -x == -(n * x);
  }

  // ----- Roots of unity -----

  /** Below a full turn no power of the root is 1. */
  lemma {:induction false} NoEarlierTurn(w: Complex, log: nat, d: nat)
    requires log >= 1 && Pow(w, Exp2(log - 1)) == MINUS_ONE && 0 < d < Exp2(log)
    ensures Pow(w, d) != ONE
    decreases log
  {
    hide Mul;
    var m := Exp2(log - 1);
    if d % 2 == 1 {
      PowTimes(w, m, d);
      PowTimes(w, d, m);
      assert m * d == d * m;
      PowMinusOne(d);
      PowOne(m);
    } else {
      var e, v := d / 2, Pow(w, 2);
      PowTimes(w, 2, e);
      PowTimes(w, 2, Exp2(log - 2));
      NoEarlierTurn(v, log - 1, e);
    }
  }

  /** 1 + z + z^2 + ... + z^(k-1). */
  ghost function Geometric(z: Complex, k: nat): Complex {
    if k == 0 then ZERO else Add(Geometric(z, k - 1), Pow(z, k - 1))
  }

  lemma {:induction false} GeometricTimes(z: Complex, k: nat)
    ensures Mul(Sub(z, ONE), Geometric(z, k)) == Sub(Pow(z, k), ONE)
  {
    hide Mul, Add, Sub;
    if k == 0 {
      MulOne(Sub(z, ONE));
      SubSelf(ONE);
    } else {
      GeometricTimes(z, k - 1);
      MulAdd(Sub(z, ONE), Geometric(z, k - 1), Pow(z, k - 1));
      Telescope(z, Pow(z, k - 1));
    }
  }

  lemma SubSelf(a: Complex)
    ensures Sub(a, a) == ZERO
  {
  }

  lemma Telescope(z: Complex, p: Complex)
    ensures Add(Sub(p, ONE), Mul(Sub(z, ONE), p)) == Sub(Mul(z, p), ONE)
  {
  }

  lemma SubZero(a: Complex, b: Complex)
    ensures Sub(a, b) == ZERO <==> a == b
  {
    if Sub(a, b) == ZERO { assert a == Complex(a.re, a.im) && b == Complex(b.re, b.im); }
  }

  /** A geometric sum over a full turn of a number other than 1 vanishes. */
  lemma GeometricVanishes(z: Complex, n: nat)
    requires Pow(z, n) == ONE && z != ONE
    ensures Geometric(z, n) == ZERO
  {
    hide Mul, Sub;
    GeometricTimes(z, n);
    SubSelf(ONE);
    SubZero(z, ONE);
    NoZeroDivisors(Sub(z, ONE), Geometric(z, n));
  }

  lemma {:induction false} GeometricOfOne(k: nat)
    ensures Geometric(ONE, k) == Complex(k as real, 0.0)
  {
    hide Mul, Pow;
    if k > 0 {
      GeometricOfOne(k - 1);
      PowOne(k - 1);
    }
  }

  // ----- Double sums -----

  ghost function Row(t: (nat, nat) -> Complex, q: nat, count: nat): Complex {
    if count == 0 then ZERO else Add(Row(t, q, count - 1), t(q, count - 1))
  }

  ghost function Rows(t: (nat, nat) -> Complex, rows: nat, count: nat): Complex {
    if rows == 0 then ZERO else Add(Rows(t, rows - 1, count), Row(t, rows - 1, count))
  }

  ghost function Column(t: (nat, nat) -> Complex, r: nat, rows: nat): Complex {
    if rows == 0 then ZERO else Add(Column(t, r, rows - 1), t(rows - 1, r))
  }

  ghost function Columns(t: (nat, nat) -> Complex, rows: nat, count: nat): Complex {
    if count == 0 then ZERO else Add(Columns(t, rows, count - 1), Column(t, count - 1, rows))
  }

  lemma {:induction false} ColumnsEmpty(t: (nat, nat) -> Complex, count: nat)
    ensures Columns(t, 0, count) == ZERO
  {
    if count > 0 { ColumnsEmpty(t, count - 1); }
  }

  lemma {:induction false} ColumnsMore(t: (nat, nat) -> Complex, rows: nat, count: nat)
    ensures Columns(t, rows + 1, count) == Add(Columns(t, rows, count), Row(t, rows, count))
    decreases count
  {
    hide Add;
    if count == 0 {
      MulOne(ZERO);
    } else {
      ColumnsMore(t, rows, count - 1);
      AddExchange(Columns(t, rows, count - 1), Row(t, rows, count - 1),
                  Column(t, count - 1, rows), t(rows, count - 1));
    }
  }

  /** A double sum can be taken by rows or by columns. */
  lemma {:induction false} SwapSums(t: (nat, nat) -> Complex, rows: nat, count: nat)
    ensures Rows(t, rows, count) == Columns(t, rows, count)
    decreases rows
  {
    if rows == 0 {
      ColumnsEmpty(t, count);
    } else {
      SwapSums(t, rows - 1, count);
      ColumnsMore(t, rows - 1, count);
    }
  }

  // ----- The transform as a sum from the back -----

  ghost function Sum(x: seq<Complex>, w: Complex, p: nat, count: nat): Complex {
    if count == 0 then ZERO else Add(Sum(x, w, p, count - 1), Term(x, w, count - 1, p))
  }

  lemma {:induction false} SumOnwards(x: seq<Complex>, w: Complex, p: nat, from: nat, count: nat)
    ensures Add(Sum(x, w, p, from), Strided(x, w, from, 1, count, p)) == Sum(x, w, p, from + count)
    decreases count
  {
    hide Term;
    if count > 0 {
      SumOnwards(x, w, p, from + 1, count - 1);
      hide Add;
      AddAssoc(Sum(x, w, p, from), Term(x, w, from, p), Strided(x, w, from + 1, 1, count - 1, p));
    }
  }

  lemma DftIsSum(x: seq<Complex>, w: Complex, p: nat)
    ensures Dft(x, w, p) == Sum(x, w, p, |x|)
  {
    SumOnwards(x, w, p, 0, |x|);
    hide Add, Strided;
    MulOne(Strided(x, w, 0, 1, |x|, p));
  }

  /** What one call of `Fft` makes of the samples. */
  ghost function Transform(x: seq<Complex>, w: Complex, s: real): (y: seq<Complex>)
    ensures |y| == |x|
  {
    seq(|x|, p requires 0 <= p < |x| => Scale(s, Conjugate(Dft(x, w, p))))
  }

  // ----- Twice the transform as a double sum -----

  /** Sample `r` under frequency `q` of the first transform and `p` of the second. */
  ghost function Cross(x: seq<Complex>, w: Complex, p: nat, q: nat, r: nat): Complex {
    Mul(Pow(Conjugate(w), p * q), Term(x, w, r, q))
  }

  ghost function Crosses(x: seq<Complex>, w: Complex, p: nat): (nat, nat) -> Complex {
    (q: nat, r: nat) => Cross(x, w, p, q, r)
  }

  lemma {:induction false} RowIsFrequency(x: seq<Complex>, w: Complex, p: nat, q: nat, count: nat)
    ensures Row(Crosses(x, w, p), q, count) == Mul(Pow(Conjugate(w), p * q), Sum(x, w, q, count))
    decreases count
  {
    hide Mul, Add, Term, Pow;
    var c := Pow(Conjugate(w), p * q);
    if count == 0 {
      MulOne(c);
    } else {
      RowIsFrequency(x, w, p, q, count - 1);
      MulAdd(c, Sum(x, w, q, count - 1), Term(x, w, count - 1, q));
    }
  }

  lemma SecondTerm(x: seq<Complex>, w: Complex, s: real, p: nat, q: nat)
    requires q < |x|
    ensures Conjugate(Term(Transform(x, w, s), w, q, p)) == Scale(s, Row(Crosses(x, w, p), q, |x|))
  {
    var c, f := Pow(w, p * q), Dft(x, w, q);
    hide *;
    assert Term(Transform(x, w, s), w, q, p) == Mul(c, Scale(s, Conjugate(f))) by { TermAt(x, w, s, p, q); }
    ConjugateScaled(c, s, f);
    ConjugatePow(w, p * q);
    DftIsSum(x, w, q);
    RowIsFrequency(x, w, p, q, |x|);
  }

  lemma TermAt(x: seq<Complex>, w: Complex, s: real, p: nat, q: nat)
    requires q < |x|
    ensures Term(Transform(x, w, s), w, q, p) == Mul(Pow(w, p * q), Scale(s, Conjugate(Dft(x, w, q))))
  {
    hide Mul, Scale, Conjugate, Dft, Pow;
  }

  lemma ConjugateScaled(c: Complex, s: real, f: Complex)
    ensures Conjugate(Mul(c, Scale(s, Conjugate(f)))) == Scale(s, Mul(Conjugate(c), f))
  {
  }

  lemma ConjugateSum(s: real, a: Complex, b: Complex, c: Complex, d: Complex)
    requires Conjugate(a) == Scale(s, c) && Conjugate(b) == Scale(s, d)
    ensures Conjugate(Add(a, b)) == Scale(s, Add(c, d))
  {
  }

  lemma {:induction false} SecondSum(x: seq<Complex>, w: Complex, s: real, p: nat, count: nat)
    requires count <= |x|
    ensures Conjugate(Sum(Transform(x, w, s), w, p, count)) == Scale(s, Rows(Crosses(x, w, p), count, |x|))
    decreases count
  {
    hide *;
    if count == 0 {
      NoSum(Transform(x, w, s), w, s, p, Crosses(x, w, p), |x|);
    } else {
      SecondSum(x, w, s, p, count - 1);
      SecondTerm(x, w, s, p, count - 1);
      ConjugateSum(s, Sum(Transform(x, w, s), w, p, count - 1), Term(Transform(x, w, s), w, count - 1, p),
                   Rows(Crosses(x, w, p), count - 1, |x|), Row(Crosses(x, w, p), count - 1, |x|));
      SumsGrow(Transform(x, w, s), w, p, Crosses(x, w, p), count, |x|);
    }
  }

  lemma NoSum(x: seq<Complex>, w: Complex, s: real, p: nat, t: (nat, nat) -> Complex, width: nat)
    ensures Conjugate(Sum(x, w, p, 0)) == Scale(s, Rows(t, 0, width))
  {
  }

  lemma SumsGrow(x: seq<Complex>, w: Complex, p: nat, t: (nat, nat) -> Complex, count: nat, width: nat)
    requires count > 0
    ensures Sum(x, w, p, count) == Add(Sum(x, w, p, count - 1), Term(x, w, count - 1, p))
    ensures Rows(t, count, width) == Add(Rows(t, count - 1, width), Row(t, count - 1, width))
  {
  }

  // ----- The columns of the double sum -----

  /** How far sample `r` turns from one frequency of the first transform to the next. */
  ghost function Turn(w: Complex, p: nat, r: nat): Complex { Mul(Pow(Conjugate(w), p), Pow(w, r)) }

  lemma TurnPower(w: Complex, p: nat, r: nat, q: nat)
    ensures Pow(Turn(w, p, r), q) == Mul(Pow(Conjugate(w), p * q), Pow(w, q * r))
  {
    hide Mul, Pow;
    PowProduct(Pow(Conjugate(w), p), Pow(w, r), q);
    PowTimes(Conjugate(w), p, q);
    PowTimes(w, r, q);
    assert r * q == q * r;
  }

  lemma {:induction false} ColumnIsGeometric(x: seq<Complex>, w: Complex, p: nat, r: nat, rows: nat)
    requires r < |x|
    ensures Column(Crosses(x, w, p), r, rows) == Mul(x[r], Geometric(Turn(w, p, r), rows))
    decreases rows
  {
    hide Mul, Add, Pow, Turn;
    if rows == 0 {
      MulOne(x[r]);
    } else {
      var q := rows - 1;
      ColumnIsGeometric(x, w, p, r, q);
      TurnPower(w, p, r, q);
      MulAssoc(Pow(Conjugate(w), p * q), Pow(w, q * r), x[r]);
      MulCommutes(x[r], Pow(Turn(w, p, r), q));
      MulAdd(x[r], Geometric(Turn(w, p, r), q), Pow(Turn(w, p, r), q));
    }
  }

  /** A root whose half turn is -1, on the unit circle. */
  ghost predicate UnitRoot(w: Complex, log: nat) {
    log >= 1 && Pow(w, Exp2(log - 1)) == MINUS_ONE && Mul(Conjugate(w), w) == ONE
  }

  lemma RootTurns(w: Complex, log: nat)
    requires UnitRoot(w, log)
    ensures Pow(w, Exp2(log)) == ONE && UnitRoot(Conjugate(w), log)
  {
    hide Mul, Pow, Conjugate;
    var m := Exp2(log - 1);
    ConjugatePow(w, m);
    ConjugateBack(w);
    MulCommutes(w, Conjugate(w));
    PowAdd(w, m, m);
    MinusOneTwice();
  }

  lemma ConjugateBack(w: Complex)
    ensures Conjugate(Conjugate(w)) == w && Conjugate(MINUS_ONE) == MINUS_ONE
  {
  }

  lemma TurnIsWhole(w: Complex, log: nat, p: nat, r: nat)
    requires UnitRoot(w, log)
    ensures Pow(Turn(w, p, r), Exp2(log)) == ONE
  {
    hide Mul, Pow;
    var n := Exp2(log);
    RootTurns(w, log);
    RootTurns(Conjugate(w), log);
    TurnPower(w, p, r, n);
    PowOfOne(w, n, r);
    PowOfOne(Conjugate(w), n, p);
    assert p * n == n * p;
    MulOne(ONE);
  }

  lemma TurnCancels(w: Complex, p: nat, d: nat)
    requires Mul(Conjugate(w), w) == ONE
    ensures Turn(w, p, p + d) == Pow(w, d) && Turn(w, p + d, p) == Pow(Conjugate(w), d)
  {
    hide Mul, Pow;
    var v := Conjugate(w);
    PowProduct(v, w, p);
    PowOne(p);
    PowAdd(w, p, d);
    PowAdd(v, d, p);
    MulAssoc(Pow(v, p), Pow(w, p), Pow(w, d));
    MulAssoc(Pow(v, d), Pow(v, p), Pow(w, p));
    MulOne(Pow(w, d));
    MulOne(Pow(v, d));
    assert p + d == d + p;
  }

  /** Only the sample at the frequency of the second transform stays put. */
  lemma TurnIsOneIff(w: Complex, log: nat, p: nat, r: nat)
    requires UnitRoot(w, log) && p < Exp2(log) && r < Exp2(log)
    ensures Turn(w, p, r) == ONE <==> p == r
  {
    hide Mul, Turn, Exp2, Conjugate;
    RootTurns(w, log);
    if p <= r {
      TurnCancels(w, p, r - p);
      if p < r { NoEarlierTurn(w, log, r - p); }
    } else {
      TurnCancels(w, r, p - r);
      NoEarlierTurn(Conjugate(w), log, p - r);
    }
  }

  lemma MulReal(a: Complex, n: real)
    ensures Mul(a, Complex(n, 0.0)) == Scale(n, a)
  {
  }

  lemma ColumnSum(x: seq<Complex>, w: Complex, log: nat, p: nat, r: nat)
    requires UnitRoot(w, log) && |x| == Exp2(log) && p < |x| && r < |x|
    ensures Column(Crosses(x, w, p), r, |x|) == if r == p then Scale(|x| as real, x[p]) else ZERO
  {
    hide *;
    ColumnIsGeometric(x, w, p, r, |x|);
    TurnIsOneIff(w, log, p, r);
    if r == p {
      GeometricOfOne(|x|);
      MulReal(x[p], |x| as real);
    } else {
      TurnIsWhole(w, log, p, r);
      GeometricVanishes(Turn(w, p, r), |x|);
      MulOne(x[r]);
    }
  }

  lemma AddZero(a: Complex)
    ensures Add(ZERO, a) == a && Add(a, ZERO) == a
  {
  }

  lemma {:induction false} ColumnsSum(x: seq<Complex>, w: Complex, log: nat, p: nat, count: nat)
    requires UnitRoot(w, log) && |x| == Exp2(log) && p < |x| && count <= |x|
    ensures Columns(Crosses(x, w, p), |x|, count) == if p < count then Scale(|x| as real, x[p]) else ZERO
    decreases count
  {
    hide UnitRoot, Column, Crosses, Scale, Exp2, Add;
    if count > 0 {
      AddZero(Scale(|x| as real, x[p]));
      AddZero(ZERO);
      ColumnsSum(x, w, log, p, count - 1);
      ColumnSum(x, w, log, p, count - 1);
    }
  }

  // ----- The transform undoes itself -----

  lemma ScaleThrice(n: real, s: real, a: Complex)
    requires n * s * s == 1.0
    ensures Scale(s, Scale(s, Scale(n, a))) == a
  {
    Rescale(n, s, a.re);
    Rescale(n, s, a.im);
    assert a == Complex(a.re, a.im);
  }

  lemma Rescale(n: real, s: real, x: real)
    requires n * s * s == 1.0
    ensures s * (s * (n * x)) == x
  {
    assert s * (s * (n * x)) == n * s * s * x;
  }

  /** Two transforms give back the samples. */
  lemma TwiceIsIdentity(x: seq<Complex>, w: Complex, log: nat, s: real)
    requires UnitRoot(w, log) && |x| == Exp2(log) && |x| as real * s * s == 1.0
    ensures Transform(Transform(x, w, s), w, s) == x
  {
    hide *;
    var y := Transform(x, w, s);
    forall p: nat | p < |x| ensures Transform(y, w, s)[p] == x[p] {
      TransformAt(y, w, s, p);
      SampleReturns(x, w, log, s, p);
    }
  }

  lemma TransformAt(x: seq<Complex>, w: Complex, s: real, p: nat)
    requires p < |x|
    ensures Transform(x, w, s)[p] == Scale(s, Conjugate(Dft(x, w, p)))
  {
  }

  lemma SampleReturns(x: seq<Complex>, w: Complex, log: nat, s: real, p: nat)
    requires UnitRoot(w, log) && |x| == Exp2(log) && |x| as real * s * s == 1.0 && p < |x|
    ensures Scale(s, Conjugate(Dft(Transform(x, w, s), w, p))) == x[p]
  {
    hide *;
    DftIsSum(Transform(x, w, s), w, p);
    SecondSum(x, w, s, p, |x|);
    SwapSums(Crosses(x, w, p), |x|, |x|);
    ColumnsSum(x, w, log, p, |x|);
    ScaleThrice(|x| as real, s, x[p]);
  }
}
