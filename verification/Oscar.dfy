/** The rest of `Oscar.c`: the table of roots of unity and the benchmark itself. */
module Oscar {
  import opened ComplexNumbers
  import opened Powers
  import opened Remainders
  import Fft
  import FftInverse

  // ----- The midpoint rule -----

  /** On the unit circle u^2 + 1 is u stretched by twice its real part. */
  lemma SquarePlusOne(u: Complex)
    requires Mul(Conjugate(u), u) == ONE
    ensures Add(Mul(u, u), ONE) == Scale(2.0 * u.re, u)
  {
  }

  lemma MulScale(a: Complex, t: real, u: Complex)
    ensures Mul(a, Scale(t, u)) == Scale(t, Mul(a, u))
  {
  }

  lemma ScaleBack(h: real, t: real, u: Complex)
    requires h * t == 1.0
    ensures Scale(h, Scale(t, u)) == u
  {
    assert h * (t * u.re) == h * t * u.re && h * (t * u.im) == h * t * u.im;
    assert u == Complex(u.re, u.im);
  }

  /** The power midway between a and a*u^2 is their sum, scaled by the half secant of u. */
  lemma Midpoint(a: Complex, u: Complex, h: real)
    requires Mul(Conjugate(u), u) == ONE && h * (2.0 * u.re) == 1.0
    ensures Scale(h, Add(Mul(a, Mul(u, u)), a)) == Mul(a, u)
  {
    SquarePlusOne(u);
    var t := 2.0 * u.re;
    hide Add, Mul, Scale;
    MulAdd(a, Mul(u, u), ONE);
    MulOne(a);
    MulScale(a, t, u);
    ScaleBack(h, t, Mul(a, u));
  }

  /** The same, on the table: entry `k` from the entries `i` to either side. */
  lemma MidwayPower(w: Complex, k: nat, i: nat, h: real)
    requires i <= k && Mul(Conjugate(w), w) == ONE && h * (2.0 * Pow(w, i).re) == 1.0
    ensures Scale(h, Add(Pow(w, k + i), Pow(w, k - i))) == Pow(w, k)
  {
    hide Add, Mul, Scale, Pow;
    var a, u := Pow(w, k - i), Pow(w, i);
    PowAdd(w, k - i, i);
    PowAdd(w, i, i);
    PowAdd(w, k - i, i + i);
    assert k - i + (i + i) == k + i;
    UnitPower(w, i);
    Midpoint(a, u, h);
  }

  lemma UnitPower(w: Complex, i: nat)
    requires Mul(Conjugate(w), w) == ONE
    ensures Mul(Conjugate(Pow(w, i)), Pow(w, i)) == ONE
  {
    hide Mul, Pow, Conjugate;
    FftInverse.ConjugatePow(w, i);
    FftInverse.PowProduct(Conjugate(w), w, i);
    FftInverse.PowOne(i);
  }

  // ----- The table -----

  /** A root of unity of order 2^log on the unit circle, counted from its quarter turn. */
  ghost predicate QuarterRoot(w: Complex, log: nat) {
    log >= 2 && Pow(w, Exp2(log - 2)) == Complex(0.0, 1.0) && Mul(Conjugate(w), w) == ONE
  }

  lemma QuarterIsUnit(w: Complex, log: nat)
    requires QuarterRoot(w, log)
    ensures FftInverse.UnitRoot(w, log)
  {
    var q := Exp2(log - 2);
    assert Mul(Complex(0.0, 1.0), Complex(0.0, 1.0)) == MINUS_ONE;
    hide Mul, Pow;
    PowAdd(w, q, q);
  }

  /** `h[j]` is half the secant of the angle bisected in round `j`. */
  ghost predicate HalfSecants(h: seq<real>, w: Complex, log: nat) {
    |h| == 26 && forall j :: 1 <= j <= log - 2 && j <= 25 ==> h[j] * (2.0 * Pow(w, Exp2(log - 2 - j)).re) == 1.0
  }

  /** Entries 0..m of the table that are multiples of `l` are in place. */
  ghost predicate Filled(e: seq<Complex>, w: Complex, m: nat, l: nat)
    requires l > 0
  {
    |e| > m + 1 && forall q: nat :: q <= m && q % l == 0 ==> e[q + 1] == Pow(w, q)
  }

  lemma StepUp(k: nat, l: nat)
    requires l > 0
    ensures (k + l) % l == k % l
  {
    DivMod(k / l + 1, l, k % l);
    assert (k / l + 1) * l == k / l * l + l;
  }

  lemma Neighbours(k: nat, l: nat, i: nat, m: nat)
    requires l == 2 * i && i > 0 && k % l == i && k <= m && m % l == 0
    ensures i <= k && k + i <= m && (k + i) % l == 0 && (k - i) % l == 0
  {
    var c, d := k / l, m / l;
    Division(k, l);
    Division(m, l);
    NextBelow(c, d, l, i);
    Multiple(c, l, k - i);
    Multiple(c + 1, l, k + i);
  }

  lemma NextBelow(c: nat, d: nat, l: nat, i: nat)
    requires 0 < i && c * l + i <= d * l
    ensures c * l + l == (c + 1) * l <= d * l
  {
    ProductsApart(c, d, l);
    ProductsApart(d, c + 1, l);
    assert (d + 1) * l == d * l + l && (c + 1) * l == c * l + l;
  }

  lemma Multiple(c: nat, l: nat, x: nat)
    requires l > 0 && x == c * l
    ensures x % l == 0
  {
    DivMod(c, l, 0);
  }

  lemma Division(k: nat, l: nat)
    requires l > 0
    ensures k == k / l * l + k % l
  {
  }

  lemma SameQuotient(a: nat, b: nat, l: nat)
    requires a * l <= b * l < a * l + l
    ensures a == b
  {
    ProductsApart(a, b, l);
    ProductsApart(b, a, l);
    assert (a + 1) * l == a * l + l && (b + 1) * l == b * l + l;
  }

  lemma NextOdd(k: nat, l: nat, i: nat, q: nat)
    requires l > 0 && k % l == i && q % l == i && k <= q < k + l
    ensures q == k
  {
    Division(k, l);
    Division(q, l);
    SameQuotient(k / l, q / l, l);
  }

  lemma Halved(q: nat, l: nat, i: nat)
    requires l == 2 * i && i > 0 && q % i == 0
    ensures q % l == 0 || q % l == i
  {
    Division(q, i);
    var c := q / i;
    var d := c / 2;
    if c == 2 * d {
      assert c * i == d * (2 * i);
      DivMod(d, l, 0);
    } else {
      assert c * i == d * (2 * i) + i by { assert c == 2 * d + 1; }
      DivMod(d, l, i);
    }
  }

  /** Entry q + 1 after a round of bisection: the odd multiples of `i` are computed from their
      neighbours.  In a round with steps of length 1 every entry is its own neighbour. */
  ghost function SweptEntry(e: seq<Complex>, h: real, m: nat, l: nat, i: nat, q: nat): Complex
    requires l > 0 && q <= m && |e| > m + 1
  {
    if q % l == i && i <= q && q + i <= m then Scale(h, Add(e[q + i + 1], e[q - i + 1])) else e[q + 1]
  }

  /** The round has got up to entry `k`. */
  ghost predicate SweptUpTo(e: seq<Complex>, e': seq<Complex>, h: real, m: nat, l: nat, i: nat, k: nat)
    requires l > 0
  {
    && |e'| == |e| > m + 1 && e'[0] == e[0] && e'[m + 2..] == e[m + 2..]
    && forall p :: 1 <= p <= m + 1 ==> e'[p] == if p <= k then SweptEntry(e, h, m, l, i, p - 1) else e[p]
  }

  ghost predicate Swept(e: seq<Complex>, e': seq<Complex>, h: real, m: nat, l: nat, i: nat)
    requires l > 0
  {
    SweptUpTo(e, e', h, m, l, i, m + 1)
  }

  ghost predicate Steps(m: nat, l: nat, i: nat) {
    l > 0 && i == l / 2 && (l == 1 || l == 2 * i) && m % l == 0 && i <= m
  }

  /** The neighbours of an entry computed in this round are not. */
  lemma SweepAt(m: nat, l: nat, i: nat, k: nat)
    requires Steps(m, l, i) && k % l == i && k <= m
    ensures i <= k && k + i <= m && (i > 0 ==> (k - i) % l != i)
  {
    if i > 0 { Neighbours(k, l, i, m); }
  }

  lemma SweepStarts(e: seq<Complex>, h: real, m: nat, l: nat, i: nat)
    requires Steps(m, l, i) && |e| > m + 1
    ensures i % l == i && SweptUpTo(e, e, h, m, l, i, i)
  {
    hide Add, Scale;
    DivMod(0, l, i);
    forall p | 1 <= p <= m + 1 && p <= i ensures e[p] == SweptEntry(e, h, m, l, i, p - 1) { DivMod(0, l, p - 1); }
  }

  lemma SweepStep(e: seq<Complex>, now: seq<Complex>, next: seq<Complex>, h: real, m: nat, l: nat, i: nat, k: nat)
    requires Steps(m, l, i) && k % l == i && k <= m && SweptUpTo(e, now, h, m, l, i, k)
    requires i <= k && k + i <= m && next == now[k + 1 := Scale(h, Add(now[k + i + 1], now[k - i + 1]))]
    ensures SweptUpTo(e, next, h, m, l, i, k + l)
  {
    hide Add, Scale, SweptEntry;
    ComputedAt(e, now, h, m, l, i, k);
    assert next[m + 2..] == now[m + 2..];
    forall p | 1 <= p <= m + 1 && k + 1 < p <= k + l ensures SweptEntry(e, h, m, l, i, p - 1) == e[p] {
      NotComputed(e, h, m, l, i, k, p - 1);
    }
  }

  lemma ComputedAt(e: seq<Complex>, now: seq<Complex>, h: real, m: nat, l: nat, i: nat, k: nat)
    requires Steps(m, l, i) && k % l == i && k <= m && SweptUpTo(e, now, h, m, l, i, k)
    ensures i <= k && k + i <= m && SweptEntry(e, h, m, l, i, k) == Scale(h, Add(now[k + i + 1], now[k - i + 1]))
  {
    hide Add, Scale;
    SweepAt(m, l, i, k);
  }

  lemma NotComputed(e: seq<Complex>, h: real, m: nat, l: nat, i: nat, k: nat, q: nat)
    requires Steps(m, l, i) && k % l == i && k < q <= m && q < k + l && |e| > m + 1
    ensures SweptEntry(e, h, m, l, i, q) == e[q + 1]
  {
    hide Add, Scale;
    if q % l == i { NextOdd(k, l, i, q); }
  }

  method SetMiddle(e: array<Complex>, k: nat, i: nat, h: real)
    requires i <= k && k + i + 1 < e.Length
    modifies e
    ensures e[..] == old(e[..])[k + 1 := Scale(h, Add(old(e[..])[k + i + 1], old(e[..])[k - i + 1]))]
  {
    ghost var was := e[..];
    e[k + 1] := Complex(h * (e[k + i + 1].re + e[k - i + 1].re), h * (e[k + i + 1].im + e[k - i + 1].im));
    assert e[k + 1] == Scale(h, Add(was[k + i + 1], was[k - i + 1]));
  }

  /** The innermost loop of the table. */
  method Sweep(m: nat, l: nat, i: nat, h: real, e: array<Complex>)
    requires Steps(m, l, i) && e.Length > m + 1
    modifies e
    ensures Swept(old(e[..]), e[..], h, m, l, i)
  {
    ghost var was := e[..];
    SweepStarts(was, h, m, l, i);
    var k := i;
    hide SweptUpTo, SweptEntry, Add, Scale;
    while true
      invariant k <= m && k % l == i && SweptUpTo(was, e[..], h, m, l, i, k)
      decreases m - k
    {
      ghost var now := e[..];
      SweepAt(m, l, i, k);
      SetMiddle(e, k, i, h);
      SweepStep(was, now, e[..], h, m, l, i, k);
      StepUp(k, l);
      k := k + l;
      if !(k <= m) { break; }
    }
    SweepEnds(was, e[..], h, m, l, i, k);
  }

  lemma SweepEnds(e: seq<Complex>, now: seq<Complex>, h: real, m: nat, l: nat, i: nat, k: nat)
    requires l > 0 && k > m && SweptUpTo(e, now, h, m, l, i, k)
    ensures Swept(e, now, h, m, l, i)
  {
    hide SweptEntry;
  }

  lemma SweptAt(e: seq<Complex>, e': seq<Complex>, h: real, m: nat, l: nat, i: nat, q: nat)
    requires l > 0 && q <= m && Swept(e, e', h, m, l, i)
    ensures |e'| == |e| > m + 1 && e'[q + 1] == SweptEntry(e, h, m, l, i, q)
  {
    hide SweptEntry;
    var p := q + 1;
    assert e'[p] == SweptEntry(e, h, m, l, i, p - 1);
  }

  /** With the half secant of the angle of `i` steps, a round halves the steps. */
  lemma SweepBisects(e: seq<Complex>, e': seq<Complex>, h: real, m: nat, l: nat, i: nat, w: Complex)
    requires Steps(m, l, i) && i > 0 && Swept(e, e', h, m, l, i) && Filled(e, w, m, l)
    requires Mul(Conjugate(w), w) == ONE && h * (2.0 * Pow(w, i).re) == 1.0
    ensures Filled(e', w, m, i)
  {
    hide Pow, Mul, Conjugate, Scale, Add, Swept, SweptEntry;
    SweptAt(e, e', h, m, l, i, 0);
    forall q: nat | q <= m && q % i == 0 ensures e'[q + 1] == Pow(w, q) {
      BisectedAt(e, e', h, m, l, i, w, q);
    }
  }

  lemma BisectedAt(e: seq<Complex>, e': seq<Complex>, h: real, m: nat, l: nat, i: nat, w: Complex, q: nat)
    requires Steps(m, l, i) && i > 0 && Swept(e, e', h, m, l, i) && Filled(e, w, m, l) && q <= m && q % i == 0
    requires Mul(Conjugate(w), w) == ONE && h * (2.0 * Pow(w, i).re) == 1.0
    ensures |e'| > m + 1 && e'[q + 1] == Pow(w, q)
  {
    hide Pow, Mul, Conjugate, Scale, Add, Swept;
    SweptAt(e, e', h, m, l, i, q);
    Halved(q, l, i);
    if q % l == i {
      Neighbours(q, l, i, m);
      MidwayPower(w, q, i, h);
    }
  }

  /** Whatever its factor, a round does not touch what earlier rounds put in place. */
  lemma SweepKeeps(e: seq<Complex>, e': seq<Complex>, h: real, m: nat, l: nat, i: nat, w: Complex, g: nat)
    requires Steps(m, l, i) && i > 0 && Swept(e, e', h, m, l, i) && g > 0 && g % l == 0 && Filled(e, w, m, g)
    ensures Filled(e', w, m, g)
  {
    hide Pow, Scale, Add, Swept;
    SweptAt(e, e', h, m, l, i, 0);
    forall q: nat | q <= m && q % g == 0 ensures e'[q + 1] == Pow(w, q) {
      MultipleOf(q, g, l);
      SweptAt(e, e', h, m, l, i, q);
    }
  }

  lemma MultipleOf(q: nat, g: nat, l: nat)
    requires g > 0 && l > 0 && q % g == 0 && g % l == 0
    ensures q % l == 0
  {
    Division(q, g);
    Division(g, l);
    var a, b := q / g, g / l;
    assert a * (b * l) == (a * b) * l;
    DivMod(a * b, l, 0);
  }

  lemma MultipleOfPower(a: nat, b: nat)
    requires a <= b
    ensures Exp2(b) % Exp2(a) == 0 && Exp2(a) <= Exp2(b)
  {
    Exp2Add(b - a, a);
    DivMod(Exp2(b - a), Exp2(a), 0);
    if a < b { Exp2Grows(a, b); }
  }

  lemma QuarterPowers(w: Complex, log: nat)
    requires QuarterRoot(w, log)
    ensures Exp2(log - 1) == 2 * Exp2(log - 2) && Pow(w, 0) == ONE
    ensures Pow(w, Exp2(log - 2)) == Complex(0.0, 1.0) && Pow(w, Exp2(log - 1)) == MINUS_ONE
  {
    QuarterIsUnit(w, log);
  }

  lemma QuarterMultiples(q: nat, l: nat)
    requires l > 0 && q <= 2 * l && q % l == 0
    ensures q == 0 || q == l || q == 2 * l
  {
    Division(q, l);
    ProductsApart(2, q / l, l);
    assert (2 + 1) * l == 2 * l + l;
  }

  /** The three entries that start the table. */
  lemma FirstEntries(e: seq<Complex>, w: Complex, log: nat, m: nat, l: nat)
    requires QuarterRoot(w, log) && m == Exp2(log - 1) && l == Exp2(log - 2) && |e| > m + 1
    requires e[1] == ONE && e[l + 1] == Complex(0.0, 1.0) && e[m + 1] == MINUS_ONE
    ensures Filled(e, w, m, l)
  {
    hide Pow, QuarterRoot, Exp2;
    QuarterPowers(w, log);
    forall q: nat | q <= m && q % l == 0 ensures e[q + 1] == Pow(w, q) { QuarterMultiples(q, l); }
  }

  /** Round `j` bisects steps of length `l`. */
  ghost predicate RoundAt(log: nat, j: nat, m: nat, l: nat) {
    1 <= j <= log - 2 && l == Exp2(log - 1 - j) && m == Exp2(log - 1)
  }

  /** The table has 25 half secants; later rounds reuse the last. */
  const LAST := 25

  /** The finest steps the half secants are good for. */
  function Grain(log: nat): nat { if log <= LAST + 2 then 1 else Exp2(log - 2 - LAST) }

  /** The steps in place before round `j`. */
  ghost function InPlace(log: nat, j: nat, l: nat): nat { if j <= LAST + 1 then l else Grain(log) }

  lemma RoundSizes(log: nat, j: nat, m: nat, l: nat)
    requires RoundAt(log, j, m, l)
    ensures Steps(m, l, l / 2) && l == 2 * (l / 2) && l / 2 == Exp2(log - 2 - j)
    ensures if l / 2 > 1 then RoundAt(log, j + 1, m, l / 2) else j == log - 2
  {
    hide Exp2, Steps;
    MultipleOfPower(log - 1 - j, log - 1);
    HalfPower(log - 1 - j);
    StepsAre(m, l, Exp2(log - 2 - j));
    if j < log - 2 { HalfPower(log - 2 - j); } else { PowerZero(0); }
  }

  lemma StepsAre(m: nat, l: nat, i: nat)
    requires l == 2 * i && 0 < i && m % l == 0 && l <= m
    ensures Steps(m, l, i) && l / 2 == i
  {
  }

  lemma HalfPower(a: nat)
    requires a > 0
    ensures Exp2(a) == 2 * Exp2(a - 1) && Exp2(a - 1) >= 1
  {
  }

  lemma PowerZero(a: nat)
    requires a == 0
    ensures Exp2(a) == 1
  {
  }

  /** A round whose half secant is in the table. */
  lemma GoodRound(e: seq<Complex>, e': seq<Complex>, h: seq<real>, log: nat, j: nat, m: nat, l: nat, w: Complex)
    requires RoundAt(log, j, m, l) && j <= LAST && QuarterRoot(w, log) && HalfSecants(h, w, log)
    requires l > 0 && Filled(e, w, m, l) && Swept(e, e', h[j], m, l, l / 2)
    ensures l / 2 > 0 && Filled(e', w, m, l / 2)
  {
    hide Pow, Mul, Conjugate, Exp2, Filled, Swept;
    RoundSizes(log, j, m, l);
    SweepBisects(e, e', h[j], m, l, l / 2, w);
  }

  /** A later round. */
  lemma LateRound(e: seq<Complex>, e': seq<Complex>, h: real, log: nat, j: nat, m: nat, l: nat, w: Complex)
    requires RoundAt(log, j, m, l) && j > LAST && l > 0 && Swept(e, e', h, m, l, l / 2)
    requires Grain(log) > 0 && Filled(e, w, m, Grain(log))
    ensures Filled(e', w, m, Grain(log))
  {
    MultipleOfPower(log - 1 - j, log - 2 - LAST);
    hide Pow, Exp2, Filled, Swept;
    RoundSizes(log, j, m, l);
    SweepKeeps(e, e', h, m, l, l / 2, w, Grain(log));
  }

  /** Any round. */
  lemma AnyRound(e: seq<Complex>, e': seq<Complex>, h: seq<real>, log: nat, j: nat, m: nat, l: nat, w: Complex)
    requires RoundAt(log, j, m, l) && QuarterRoot(w, log) && HalfSecants(h, w, log)
    requires l > 0 && Swept(e, e', h[if j < LAST then j else LAST], m, l, l / 2)
    requires InPlace(log, j, l) > 0 && Filled(e, w, m, InPlace(log, j, l))
    ensures l / 2 > 0 && InPlace(log, j + 1, l / 2) > 0 && Filled(e', w, m, InPlace(log, j + 1, l / 2))
    ensures l / 2 == 1 ==> InPlace(log, j + 1, l / 2) == Grain(log)
  {
    RoundSizes(log, j, m, l);
    GrainAt(log, j, m, l);
    hide Pow, Exp2, Filled, Swept, RoundAt, QuarterRoot, Grain;
    if j <= LAST {
      GoodRound(e, e', h, log, j, m, l, w);
    } else {
      LateRound(e, e', h[LAST], log, j, m, l, w);
    }
  }

  lemma GrainAt(log: nat, j: nat, m: nat, l: nat)
    requires RoundAt(log, j, m, l)
    ensures Grain(log) > 0 && (j == LAST + 1 ==> l == Grain(log))
    ensures j == log - 2 && j <= LAST ==> Grain(log) == 1
  {
  }

  /** Rounds of bisection, until the steps are of length 1. */
  method Refine(m: nat, first: nat, e: array<Complex>, h: seq<real>, ghost log: nat, ghost w: Complex)
    requires RoundAt(log, 1, m, first) && QuarterRoot(w, log) && HalfSecants(h, w, log)
    requires first > 0 && e.Length > m + 1 && Filled(e[..], w, m, first)
    modifies e
    ensures Grain(log) > 0 && Filled(e[..], w, m, Grain(log))
    ensures e[0] == old(e[0]) && e[m + 2..] == old(e[m + 2..])
  {
    var l, j := first, 1;
    ghost var round := 1;
    while true
      invariant l > 0 && RoundAt(log, round, m, l) && j == if round < LAST then round else LAST
      invariant InPlace(log, round, l) > 0 && Filled(e[..], w, m, InPlace(log, round, l))
      invariant e[0] == old(e[0]) && e[m + 2..] == old(e[m + 2..])
      decreases l
    {
      hide *;
      ghost var was := e[..];
      RoundSizes(log, round, m, l);
      TableSize(h, w, log);
      Sweep(m, l, l / 2, h[j], e);
      AnyRound(was, e[..], h, log, round, m, l, w);
      j := if j + 1 < 25 then j + 1 else 25;
      l := l / 2;
      round := round + 1;
      if !(l > 1) { break; }
    }
  }

  lemma TableSize(h: seq<real>, w: Complex, log: nat)
    requires HalfSecants(h, w, log)
    ensures |h| == 26 && LAST == 25
  {
  }

  /** The table: entry k + 1 becomes the k-th power of the root, up to half a turn; beyond
      2^27 points only where the half secants reach.  For 4 points there is nothing to
      bisect, but the loop is entered and scales all three entries. */
  method Exptab(n: nat, e: array<Complex>, h: seq<real>, ghost log: nat, ghost w: Complex)
    requires log >= 2 && n == Exp2(log) && e.Length > n / 2 + 1
    requires QuarterRoot(w, log) && HalfSecants(h, w, log)
    modifies e
    ensures log > 2 ==> Grain(log) > 0 && Filled(e[..], w, n / 2, Grain(log))
    ensures 3 <= log <= 27 ==> forall k: nat :: k <= n / 2 ==> e[k + 1] == Pow(w, k)
    ensures log == 2 ==> ((forall k: nat :: k <= n / 2 ==> e[k + 1] == Pow(w, k)) <==> h[1] == 0.5)
    ensures e[0] == old(e[0]) && e[n / 2 + 2..] == old(e[n / 2 + 2..])
  {
    hide *;
    var m := n / 2;
    var l := m / 2;
    Halves(log);
    TableSize(h, w, log);
    FirstThree(m, l, e, log, w);
    if l > 1 {
      FirstRound(log, m, l);
      Refine(m, l, e, h, log, w);
      Complete(e[..], w, m, log);
    } else {
      ghost var was := e[..];
      OneStep(log, m, l);
      Sweep(m, l, l / 2, h[1], e);
      FourPoints(was, e[..], h[1], m, w);
      Ends(was, e[..], h[1], m);
    }
  }

  lemma Halves(log: nat)
    requires log >= 2
    ensures Exp2(log) / 2 == Exp2(log - 1) && Exp2(log - 1) / 2 == Exp2(log - 2) > 0
  {
  }

  lemma FirstRound(log: nat, m: nat, l: nat)
    requires log >= 2 && m == Exp2(log - 1) && l == Exp2(log - 2) && l > 1
    ensures log > 2 && RoundAt(log, 1, m, l)
  {
  }

  lemma Ends(e: seq<Complex>, e': seq<Complex>, h: real, m: nat)
    requires Swept(e, e', h, m, 1, 0)
    ensures |e'| == |e| > m + 1 && e'[0] == e[0] && e'[m + 2..] == e[m + 2..]
  {
  }

  method FirstThree(m: nat, l: nat, e: array<Complex>, ghost log: nat, ghost w: Complex)
    requires QuarterRoot(w, log) && m == Exp2(log - 1) && l == Exp2(log - 2) > 0 && e.Length > m + 1
    modifies e
    ensures Filled(e[..], w, m, l)
    ensures e[0] == old(e[0]) && e[m + 2..] == old(e[m + 2..])
  {
    e[1] := ONE;
    e[l + 1] := Complex(0.0, 1.0);
    e[m + 1] := MINUS_ONE;
    FirstEntries(e[..], w, log, m, l);
  }

  lemma OneStep(log: nat, m: nat, l: nat)
    requires log >= 2 && m == Exp2(log - 1) && l == Exp2(log - 2) && l <= 1
    ensures log == 2 && m == 2 && l == 1 && Steps(m, l, 0)
  {
  }

  lemma FourPoints(e: seq<Complex>, e': seq<Complex>, h: real, m: nat, w: Complex)
    requires m == 2 && Filled(e, w, m, 1) && Swept(e, e', h, m, 1, 0)
    ensures (forall k: nat :: k <= m ==> e'[k + 1] == Pow(w, k)) <==> h == 0.5
  {
    hide *;
    ScaledEntry(e, e', h, m, w, 0);
    PowZero(w);
    ScaledOne(h);
    forall k: nat | k <= m ensures k + 1 < |e'|
        && (h == 0.5 ==> e'[k + 1] == Pow(w, k)) { ScaledEntry(e, e', h, m, w, k); }
    if h != 0.5 { assert e'[0 + 1] != Pow(w, 0); }
  }

  lemma ScaledOne(h: real)
    ensures Scale(2.0 * h, ONE) == ONE <==> h == 0.5
  {
  }

  lemma ScaledEntry(e: seq<Complex>, e': seq<Complex>, h: real, m: nat, w: Complex, k: nat)
    requires k <= m && Filled(e, w, m, 1) && Swept(e, e', h, m, 1, 0)
    ensures |e'| > m + 1 && e'[k + 1] == Scale(2.0 * h, Pow(w, k))
    ensures h == 0.5 ==> e'[k + 1] == Pow(w, k)
  {
    hide Pow, Swept, Filled;
    SweptAt(e, e', h, m, 1, 0, k);
    FilledAt(e, w, m, 1, k);
    Twice(h, Pow(w, k));
  }

  lemma FilledAt(e: seq<Complex>, w: Complex, m: nat, l: nat, q: nat)
    requires l > 0 && Filled(e, w, m, l) && q <= m && q % l == 0
    ensures |e| > m + 1 && e[q + 1] == Pow(w, q)
  {
  }

  lemma Twice(h: real, u: Complex)
    ensures Scale(h, Add(u, u)) == Scale(2.0 * h, u)
    ensures h == 0.5 ==> Scale(2.0 * h, u) == u
  {
    assert h * (u.re + u.re) == 2.0 * h * u.re && h * (u.im + u.im) == 2.0 * h * u.im;
    assert u == Complex(u.re, u.im);
  }

  lemma PowZero(w: Complex)
    ensures Pow(w, 0) == ONE
  {
  }

  /** A table filled in steps of 1 is complete. */
  lemma Complete(e: seq<Complex>, w: Complex, m: nat, log: nat)
    requires Grain(log) > 0 && Filled(e, w, m, Grain(log))
    ensures log <= 27 ==> forall k: nat :: k <= m ==> e[k + 1] == Pow(w, k)
  {
  }

  // ----- The benchmark -----

  /** One call of the transform, seen on the samples. */
  method Once(n: nat, z: array<Complex>, w: array<Complex>, e: array<Complex>, sqrinv: real,
              ghost log: nat, ghost omega: Complex)
    requires log >= 1 && n == Exp2(log) && Pow(omega, n / 2) == MINUS_ONE
    requires z.Length > n && w.Length > n && e.Length > n / 2 && z != w && e != w && e != z
    requires forall k :: 1 <= k <= n / 2 ==> e[k] == Pow(omega, k - 1)
    modifies z, w
    ensures z[1..n + 1] == FftInverse.Transform(old(z[1..n + 1]), omega, sqrinv)
    ensures z[0] == old(z[0]) && z[n + 1..] == old(z[n + 1..])
  {
    ghost var x := z[1..n + 1];
    Fft.Fft(n, z, w, e, sqrinv, log, omega);
    forall p: nat | p < n ensures z[1..n + 1][p] == FftInverse.Transform(x, omega, sqrinv)[p] {
      FftInverse.TransformAt(x, omega, sqrinv, p);
    }
  }

  lemma HalfTurn(omega: Complex, log: nat)
    requires FftInverse.UnitRoot(omega, log)
    ensures log >= 1 && Pow(omega, Exp2(log) / 2) == MINUS_ONE
  {
  }

  /** The samples after so many calls. */
  ghost function Turned(x: seq<Complex>, omega: Complex, sqrinv: real, calls: nat): seq<Complex> {
    if calls % 2 == 0 then x else FftInverse.Transform(x, omega, sqrinv)
  }

  lemma TurnedIs(x: seq<Complex>, omega: Complex, sqrinv: real, calls: nat)
    ensures Turned(x, omega, sqrinv, calls) == if calls % 2 == 0 then x else FftInverse.Transform(x, omega, sqrinv)
  {
  }

  lemma OneMoreCall(x: seq<Complex>, omega: Complex, log: nat, sqrinv: real, calls: nat)
    requires FftInverse.UnitRoot(omega, log) && |x| == Exp2(log) && |x| as real * sqrinv * sqrinv == 1.0
    ensures FftInverse.Transform(Turned(x, omega, sqrinv, calls), omega, sqrinv) == Turned(x, omega, sqrinv, calls + 1)
  {
    hide FftInverse.Transform, FftInverse.UnitRoot, Exp2;
    FftInverse.TwiceIsIdentity(x, omega, log, sqrinv);
  }

  /** The transform called over and over: after an even number of calls the samples are
      back, after an odd number they are transformed once. */
  method Repeat(n: nat, z: array<Complex>, w: array<Complex>, e: array<Complex>, sqrinv: real, rounds: nat,
                ghost log: nat, ghost omega: Complex)
    requires FftInverse.UnitRoot(omega, log) && n == Exp2(log) && n as real * sqrinv * sqrinv == 1.0
    requires z.Length > n && w.Length > n && e.Length > n / 2 && z != w && e != w && e != z
    requires forall k :: 1 <= k <= n / 2 ==> e[k] == Pow(omega, k - 1)
    modifies z, w
    ensures z[1..n + 1] == if rounds % 2 == 0 then old(z[1..n + 1])
                           else FftInverse.Transform(old(z[1..n + 1]), omega, sqrinv)
    ensures z[0] == old(z[0]) && z[n + 1..] == old(z[n + 1..])
  {
    hide *;
    ghost var x, last := z[1..n + 1], z[n + 1..];
    HalfTurn(omega, log);
    TurnedIs(x, omega, sqrinv, 0);
    TurnedIs(x, omega, sqrinv, rounds);
    for i := 0 to rounds
      invariant z[1..n + 1] == Turned(x, omega, sqrinv, i)
      invariant z[0] == old(z[0]) && z[n + 1..] == last
    {
      Once(n, z, w, e, sqrinv, log, omega);
      OneMoreCall(x, omega, log, sqrinv, i);
    }
  }

  /** The benchmark on any samples: build the table, transform twenty times.  Over exact
      numbers what it prints is what it started from. */
  method Oscar(z: array<Complex>, w: array<Complex>, e: array<Complex>, h: seq<real>, ghost omega: Complex)
    requires z.Length == 257 && w.Length == 257 && e.Length == 130 && z != w && e != w && e != z
    requires QuarterRoot(omega, 8) && HalfSecants(h, omega, 8)
    modifies z, w, e
    ensures z[..] == old(z[..])
    ensures forall k: nat :: k <= 128 ==> e[k + 1] == Pow(omega, k)
  {
    ghost var log := 8;
    ghost var before := z[..];
    assert Exp2(log) == 256 by { TwoToTheEighth(log); }
    Exptab(256, e, h, log, omega);
    QuarterIsUnit(omega, log);
    hide *;
    Repeat(256, z, w, e, 0.0625, 20, log, omega);
    assert z[..] == [z[0]] + z[1..257] + z[257..];
  }

  lemma TwoToTheEighth(log: nat)
    requires log == 8
    ensures Exp2(log) == 256
  {
    assert Exp2(log - 4) == 16 by { assert Exp2(log - 6) == 4; }
    Exp2Add(log - 4, log - 4);
  }
}
