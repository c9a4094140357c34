/** `Fft` of `Oscar.c`: an in-order radix-2 transform that runs through the input once per
    doubling of `l`, proved equal to the discrete Fourier transform. */
module Fft {
  import opened ComplexNumbers
  import opened Powers
  import opened Remainders

  // ----- The transform as a sum -----

  /** The sample at position `i` times w^(r*i); nothing beyond the end. */
  function Term(x: seq<Complex>, w: Complex, i: nat, r: nat): Complex {
    if i < |x| then Mul(Pow(w, r * i), x[i]) else ZERO
  }

  /** The sum over the `count` positions i = q, q + step, q + 2*step, ... of their terms. */
  function Strided(x: seq<Complex>, w: Complex, q: nat, step: nat, count: nat, r: nat): Complex
    decreases count
  {
    if count == 0 then ZERO
    else Add(Term(x, w, q, r), Strided(x, w, q + step, step, count - 1, r))
  }

  /** The discrete Fourier transform of `x` at frequency `p`. */
  function Dft(x: seq<Complex>, w: Complex, p: nat): Complex {
    Strided(x, w, 0, 1, |x|, p)
  }

  /** A sum splits into the even and the odd positions of its progression. */
  lemma {:induction false} SplitSum(x: seq<Complex>, w: Complex, q: nat, step: nat, count: nat, r: nat)
    ensures Strided(x, w, q, step, 2 * count, r)
         == Add(Strided(x, w, q, 2 * step, count, r), Strided(x, w, q + step, 2 * step, count, r))
    decreases count
  {
    hide Add, Mul, Term;
    if count == 0 {
      MulOne(ZERO);
    } else {
      SplitSum(x, w, q + 2 * step, step, count - 1, r);
      var a, b := Term(x, w, q, r), Term(x, w, q + step, r);
      var even := Strided(x, w, q + 2 * step, 2 * step, count - 1, r);
      var odd := Strided(x, w, q + 2 * step + step, 2 * step, count - 1, r);
      calc {
        Strided(x, w, q, step, 2 * count, r);
        Add(a, Strided(x, w, q + step, step, 2 * count - 1, r));
        Add(a, Add(b, Strided(x, w, q + step + step, step, 2 * (count - 1), r)));
        { AddAssoc(a, b, Add(even, odd)); }
        Add(Add(a, b), Add(even, odd));
        { AddExchange(a, b, even, odd); }
        Add(Add(a, even), Add(b, odd));
      }
    }
  }

  /** Where `l` turns of the progression's step are a full turn, raising the frequency by
      `l` multiplies the whole sum by one constant. */
  lemma {:induction false} ShiftSum(x: seq<Complex>, w: Complex, q: nat, step: nat, count: nat, r: nat, l: nat)
    requires Pow(w, l * step) == ONE
    ensures Strided(x, w, q, step, count, r + l) == Mul(Pow(w, l * q), Strided(x, w, q, step, count, r))
    decreases count
  {
    hide Add, Mul, Term;
    var c := Pow(w, l * q);
    if count == 0 {
      MulOne(c);
    } else {
      ShiftSum(x, w, q + step, step, count - 1, r, l);
      ShiftTerm(x, w, q, r, l);
      NextFactor(w, l, q, step);
      MulAdd(c, Term(x, w, q, r), Strided(x, w, q + step, step, count - 1, r));
    }
  }

  lemma NextFactor(w: Complex, l: nat, q: nat, step: nat)
    requires Pow(w, l * step) == ONE
    ensures Pow(w, l * (q + step)) == Pow(w, l * q)
  {
    hide Mul;
    var a, b := l * q, l * step;
    assert l * (q + step) == a + b;
    PowAdd(w, a, b);
    MulOne(Pow(w, a));
  }

  lemma ShiftTerm(x: seq<Complex>, w: Complex, i: nat, r: nat, l: nat)
    ensures Term(x, w, i, r + l) == Mul(Pow(w, l * i), Term(x, w, i, r))
  {
    hide Mul;
    var a, b := l * i, r * i;
    if i < |x| {
      assert (r + l) * i == a + b;
      PowAdd(w, a, b);
      MulAssoc(Pow(w, a), Pow(w, b), x[i]);
    } else {
      MulOne(Pow(w, a));
    }
  }

  // ----- One butterfly -----

  lemma ButterflySum(x: seq<Complex>, w: Complex, b: nat, s: nat, l: nat, r: nat)
    ensures Add(Strided(x, w, b, 2 * s, l, r), Strided(x, w, b + s, 2 * s, l, r)) == Strided(x, w, b, s, 2 * l, r)
  {
    SplitSum(x, w, b, s, l, r);
  }

  lemma ButterflyDifference(x: seq<Complex>, w: Complex, b: nat, s: nat, l: nat, r: nat)
    requires Pow(w, l * s) == MINUS_ONE
    ensures Mul(Pow(w, l * b), Sub(Strided(x, w, b, 2 * s, l, r), Strided(x, w, b + s, 2 * s, l, r)))
         == Strided(x, w, b, s, 2 * l, r + l)
  {
    hide *;
    var even, odd := Strided(x, w, b, 2 * s, l, r), Strided(x, w, b + s, 2 * s, l, r);
    var c := Pow(w, l * b);
    FullTurn(w, l, s);
    SplitSum(x, w, b, s, l, r + l);
    ShiftSum(x, w, b, 2 * s, l, r, l);
    ShiftSum(x, w, b + s, 2 * s, l, r, l);
    HalfTurn(w, l, b, s);
    MulMinusOne(c, odd);
    MulSub(c, even, odd);
  }

  lemma HalfTurn(w: Complex, l: nat, b: nat, s: nat)
    requires Pow(w, l * s) == MINUS_ONE
    ensures Pow(w, l * (b + s)) == Mul(Pow(w, l * b), MINUS_ONE)
  {
    hide Mul;
    var u, v := l * b, l * s;
    assert l * (b + s) == u + v;
    PowAdd(w, u, v);
  }

  lemma FullTurn(w: Complex, l: nat, s: nat)
    requires Pow(w, l * s) == MINUS_ONE
    ensures Pow(w, l * (2 * s)) == ONE
  {
    var a := l * s;
    assert l * (2 * s) == a + a;
    PowAdd(w, a, a);
  }

  // ----- The stages -----

  /** What position `p` holds between stages: with `q` and `r` quotient and remainder of
      `p` by `l`, the sum over `l` samples that lie `step` apart, starting at `q`. */
  function Cell(x: seq<Complex>, w: Complex, l: nat, step: nat, p: nat): Complex
    requires l > 0
  {
    Strided(x, w, p / l, step, l, p % l)
  }

  lemma CellAt(x: seq<Complex>, w: Complex, l: nat, step: nat, q: nat, r: nat)
    requires r < l
    ensures q * l + r >= 0 && Cell(x, w, l, step, q * l + r) == Strided(x, w, q, step, l, r)
  {
    assert (q * l + r) / l == q && (q * l + r) % l == r by { DivMod(q, l, r); }
  }

  /** Positions 1..upto of the array hold their cells. */
  ghost predicate Holds(a: array<Complex>, x: seq<Complex>, w: Complex, l: nat, step: nat, upto: nat)
    requires l > 0
    reads a
  {
    upto < a.Length && forall i :: 1 <= i <= upto ==> a[i] == Cell(x, w, l, step, i - 1)
  }

  /** The shape of one stage: `m` butterflies in `s` blocks of length `l`, where half a
      turn of omega is `m` steps. */
  ghost predicate StageShape(m: nat, l: nat, s: nat, omega: Complex) {
    m == l * s && l > 0 && s > 0 && Pow(omega, m) == MINUS_ONE
  }

  /** Block number `b` starts at offset `k`. */
  ghost predicate BlockAt(k: nat, b: nat, l: nat) { k == b * l }

  /** The body of the innermost loop. */
  method Butterfly(i: nat, j: nat, k: nat, m: nat, z: array<Complex>, w: array<Complex>, e: array<Complex>)
    requires k < j && i + j < w.Length && i + m < z.Length && k + 1 < e.Length
    requires z != w && e != w
    modifies w
    ensures w[i + k] == Add(z[i], z[m + i])
    ensures w[i + j] == Mul(e[k + 1], Sub(z[i], z[m + i]))
    ensures forall p :: 0 <= p < w.Length && p != i + k && p != i + j ==> w[p] == old(w[p])
  {
    w[i + k] := Complex(z[i].re + z[m + i].re, z[i].im + z[m + i].im);
    w[i + j] := Complex(
      e[k + 1].re * (z[i].re - z[i + m].re) - e[k + 1].im * (z[i].im - z[i + m].im),
      e[k + 1].re * (z[i].im - z[i + m].im) + e[k + 1].im * (z[i].re - z[i + m].re));
  }

  /** A butterfly on the two cells that belong together yields the two cells of the next
      stage. */
  lemma ButterflyCells(x: seq<Complex>, omega: Complex, k: nat, m: nat, b: nat, s: nat, l: nat, r: nat)
    requires r < l && StageShape(m, l, s, omega) && BlockAt(k, b, l)
    ensures Add(Cell(x, omega, l, 2 * s, k + r), Cell(x, omega, l, 2 * s, m + k + r))
            == Cell(x, omega, 2 * l, s, 2 * k + r)
    ensures Mul(Pow(omega, k), Sub(Cell(x, omega, l, 2 * s, k + r), Cell(x, omega, l, 2 * s, m + k + r)))
            == Cell(x, omega, 2 * l, s, 2 * k + l + r)
  {
    hide Add, Mul, Sub, Strided, Cell, Pow;
    assert (b + s) * l + r == l * s + b * l + r;
    assert b * (2 * l) == 2 * (b * l);
    CellAt(x, omega, l, 2 * s, b, r);
    CellAt(x, omega, l, 2 * s, b + s, r);
    CellAt(x, omega, 2 * l, s, b, r);
    CellAt(x, omega, 2 * l, s, b, l + r);
    ButterflySum(x, omega, b, s, l, r);
    ButterflyDifference(x, omega, b, s, l, r);
    assert l * b == b * l;
  }

  /** The innermost loop: the butterflies of one block. */
  method Block(k: nat, l: nat, m: nat, z: array<Complex>, w: array<Complex>, e: array<Complex>,
               ghost b: nat, ghost s: nat, ghost x: seq<Complex>, ghost omega: Complex)
    returns (ghost writes: multiset<int>)
    requires StageShape(m, l, s, omega) && BlockAt(k, b, l) && l > 0 && k + l <= m
    requires z != w && z.Length > 2 * m && w.Length > 2 * m && e.Length > m && e != w
    requires e[k + 1] == Pow(omega, k)
    requires Holds(z, x, omega, l, 2 * s, 2 * m) && Holds(w, x, omega, 2 * l, s, 2 * k)
    modifies w
    ensures Holds(w, x, omega, 2 * l, s, 2 * (k + l))
    ensures forall p :: writes[p] == if 2 * k < p <= 2 * (k + l) then 1 else 0
  {
    hide Add, Mul, Sub, Strided, Cell, Pow, StageShape, BlockAt;
    var i, j := k + 1, k + l;
    writes := multiset{};
    while true
      invariant k + 1 <= i <= j
      invariant Holds(w, x, omega, 2 * l, s, 2 * k)
      invariant forall r :: 2 * k + 1 <= r < i + k ==> w[r] == Cell(x, omega, 2 * l, s, r - 1)
      invariant forall r :: 2 * k + l + 1 <= r < i + j ==> w[r] == Cell(x, omega, 2 * l, s, r - 1)
      invariant forall p :: writes[p] == if 2 * k < p < i + k || 2 * k + l < p < i + j then 1 else 0
      decreases j - i
    {
      ButterflyCells(x, omega, k, m, b, s, l, i - k - 1);
      assert z[i] == Cell(x, omega, l, 2 * s, i - 1);
      assert z[m + i] == Cell(x, omega, l, 2 * s, m + i - 1);
      Butterfly(i, j, k, m, z, w, e);
      writes := writes + multiset{i + k, i + j};
      i := i + 1;
      if !(i <= j) { break; }
    }
  }

  lemma FirstBlock(l: nat)
    ensures BlockAt(0, 0, l)
  {
  }

  lemma NextBlock(k: nat, b: nat, l: nat)
    requires BlockAt(k, b, l)
    ensures BlockAt(k + l, b + 1, l)
  {
  }

  lemma LastBlock(k: nat, b: nat, m: nat, l: nat, s: nat, omega: Complex)
    requires StageShape(m, l, s, omega) && BlockAt(k, b, l) && k <= m < k + l
    ensures k == m
  {
    assert (s - b) * l == m - k;
    ProductsApart(0, s - b, l);
  }

  /** One stage: all blocks.  Every position of `w` is written exactly once. */
  method Stage(l: nat, m: nat, z: array<Complex>, w: array<Complex>, e: array<Complex>,
               ghost s: nat, ghost x: seq<Complex>, ghost omega: Complex)
    returns (ghost writes: multiset<int>)
    requires StageShape(m, l, s, omega) && 0 < l <= m
    requires z != w && z.Length > 2 * m && w.Length > 2 * m && e.Length > m && e != w
    requires forall k :: 1 <= k <= m ==> e[k] == Pow(omega, k - 1)
    requires Holds(z, x, omega, l, 2 * s, 2 * m)
    modifies w
    ensures Holds(w, x, omega, 2 * l, s, 2 * m)
    ensures forall p :: writes[p] == if 1 <= p <= 2 * m then 1 else 0
  {
    hide Strided, Cell, Pow, StageShape, BlockAt;
    ghost var b := 0;
    var k, j := 0, l;
    FirstBlock(l);
    writes := multiset{};
    while true
      invariant BlockAt(k, b, l) && j == k + l && j <= m
      invariant Holds(w, x, omega, 2 * l, s, 2 * k)
      invariant forall p :: writes[p] == if 0 < p <= 2 * k then 1 else 0
      decreases m - k
    {
      ghost var more := Block(k, l, m, z, w, e, b, s, x, omega);
      writes := writes + more;
      NextBlock(k, b, l);
      k := j;
      j := k + l;
      b := b + 1;
      if !(j <= m) { break; }
    }
    LastBlock(k, b, m, l, s, omega);
  }

  lemma ShapeAt(log: nat, done: nat, omega: Complex)
    requires done < log && Pow(omega, Exp2(log - 1)) == MINUS_ONE
    ensures StageShape(Exp2(log - 1), Exp2(done), Exp2(log - 1 - done), omega)
    ensures Exp2(done) <= Exp2(log - 1)
  {
    Exp2Add(done, log - 1 - done);
    if done < log - 1 { Exp2Grows(done, log - 1); }
  }

  lemma FirstStage(log: nat)
    requires log >= 1
    ensures Exp2(0) == 1 && Exp2(log) == 2 * Exp2(log - 1) && 1 <= Exp2(log) / 2 == Exp2(log - 1)
  {
  }

  /** One stage further the blocks are twice as long, up to the last stage. */
  lemma NextStage(log: nat, done: nat)
    requires done < log
    ensures Exp2(done + 1) == 2 * Exp2(done)
    ensures if done + 1 < log
            then Exp2(done + 1) <= Exp2(log - 1) && Exp2(log - 1 - done) == 2 * Exp2(log - 2 - done)
            else Exp2(done + 1) == Exp2(log) == 2 * Exp2(log - 1) && Exp2(log - 1 - done) == 1
  {
    if done + 2 < log { Exp2Grows(done + 1, log - 1); }
  }

  lemma FirstCell(x: seq<Complex>, w: Complex, step: nat, p: nat)
    requires p < |x|
    ensures Cell(x, w, 1, step, p) == x[p]
  {
    assert Strided(x, w, p, step, 1, 0) == Add(Term(x, w, p, 0), ZERO);
    assert 0 * p == 0;
    MulOne(x[p]);
  }

  lemma LastCell(x: seq<Complex>, w: Complex, p: nat)
    requires p < |x|
    ensures Cell(x, w, |x|, 1, p) == Dft(x, w, p)
  {
  }

  method Copy(n: nat, z: array<Complex>, w: array<Complex>)
    requires 1 <= n < z.Length && n < w.Length && z != w
    modifies z
    ensures forall i :: 1 <= i <= n ==> z[i] == w[i]
    ensures z[0] == old(z[0]) && forall i :: n < i < z.Length ==> z[i] == old(z[i])
  {
    var index := 1;
    while true
      invariant 1 <= index <= n
      invariant forall i :: 1 <= i < index ==> z[i] == w[i]
      invariant z[0] == old(z[0]) && forall i :: n < i < z.Length ==> z[i] == old(z[i])
      decreases n - index
    {
      z[index] := w[index];
      index := index + 1;
      if !(index <= n) { break; }
    }
  }

  method ScaleConjugate(n: nat, z: array<Complex>, sqrinv: real)
    requires n < z.Length
    modifies z
    ensures forall i :: 1 <= i <= n ==> z[i] == Scale(sqrinv, Conjugate(old(z[i])))
    ensures z[0] == old(z[0]) && forall i :: n < i < z.Length ==> z[i] == old(z[i])
  {
    for i := 1 to n + 1
      invariant forall p :: 1 <= p < i ==> z[p] == Scale(sqrinv, Conjugate(old(z[p])))
      invariant forall p :: i <= p < z.Length ==> z[p] == old(z[p])
      invariant z[0] == old(z[0])
    {
      z[i] := Complex(sqrinv * z[i].re, -sqrinv * z[i].im);
    }
  }

  /** One pass of the outer loop: a stage, then the copy back. */
  method Pass(n: nat, l: nat, z: array<Complex>, w: array<Complex>, e: array<Complex>,
              ghost s: nat, ghost x: seq<Complex>, ghost omega: Complex)
    requires n % 2 == 0 && StageShape(n / 2, l, s, omega) && 0 < l <= n / 2
    requires z != w && z.Length > n && w.Length > n && e.Length > n / 2 && e != w && e != z
    requires forall k :: 1 <= k <= n / 2 ==> e[k] == Pow(omega, k - 1)
    requires Holds(z, x, omega, l, 2 * s, n)
    modifies z, w
    ensures Holds(z, x, omega, 2 * l, s, n)
    ensures z[0] == old(z[0]) && forall i :: n < i < z.Length ==> z[i] == old(z[i])
  {
    hide Cell, Pow, StageShape;
    ghost var writes := Stage(l, n / 2, z, w, e, s, x, omega);
    Copy(n, z, w);
  }

  lemma FirstCells(z: array<Complex>, x: seq<Complex>, w: Complex, n: nat)
    requires n < z.Length && x == z[1..n + 1]
    ensures Holds(z, x, w, 1, n, n)
  {
    hide Cell;
    forall i | 1 <= i <= n ensures z[i] == Cell(x, w, 1, n, i - 1) { FirstCell(x, w, n, i - 1); }
  }

  lemma LastCells(z: array<Complex>, x: seq<Complex>, w: Complex, n: nat)
    requires 0 < n == |x| && Holds(z, x, w, n, 1, n)
    ensures forall p :: 1 <= p <= n ==> z[p] == Dft(x, w, p - 1)
  {
    hide Cell, Dft;
    forall p | 1 <= p <= n ensures z[p] == Dft(x, w, p - 1) { LastCell(x, w, p - 1); }
  }

  /** The stages: afterwards the array holds the discrete Fourier transform. */
  method Stages(n: nat, z: array<Complex>, w: array<Complex>, e: array<Complex>, ghost log: nat, ghost omega: Complex)
    requires log >= 1 && n == Exp2(log)
    requires z.Length > n && w.Length > n && e.Length > n / 2 && z != w && e != w && e != z
    requires forall k :: 1 <= k <= n / 2 ==> e[k] == Pow(omega, k - 1)
    requires Pow(omega, n / 2) == MINUS_ONE
    modifies z, w
    ensures forall p :: 1 <= p <= n ==> z[p] == Dft(old(z[1..n + 1]), omega, p - 1)
    ensures z[0] == old(z[0]) && forall i :: n < i < z.Length ==> z[i] == old(z[i])
  {
    hide *;
    ghost var x := z[1..n + 1];
    var l, m := 1, n / 2;
    ghost var done := 0;
    FirstStage(log);
    FirstCells(z, x, omega, n);
    while true
      invariant 0 <= done < log && l == Exp2(done) && 0 < l <= m
      invariant Holds(z, x, omega, l, 2 * Exp2(log - 1 - done), n)
      invariant z[0] == old(z[0]) && forall i :: n < i < z.Length ==> z[i] == old(z[i])
      decreases log - done
    {
      ShapeAt(log, done, omega);
      Pass(n, l, z, w, e, Exp2(log - 1 - done), x, omega);
      NextStage(log, done);
      l := l + l;
      done := done + 1;
      if !(l <= m) { break; }
    }
    LastCells(z, x, omega, n);
  }

  /** The transform: over exact complex numbers, with the powers of a root of unity as
      table, position `p` ends up with the conjugate of the discrete Fourier transform at
      frequency p - 1, scaled. */
  method Fft(n: nat, z: array<Complex>, w: array<Complex>, e: array<Complex>, sqrinv: real,
             ghost log: nat, ghost omega: Complex)
    requires log >= 1 && n == Exp2(log)
    requires z.Length > n && w.Length > n && e.Length > n / 2 && z != w && e != w && e != z
    requires forall k :: 1 <= k <= n / 2 ==> e[k] == Pow(omega, k - 1)
    requires Pow(omega, n / 2) == MINUS_ONE
    modifies z, w
    ensures forall p :: 1 <= p <= n ==>
              z[p] == Scale(sqrinv, Conjugate(Dft(old(z[1..n + 1]), omega, p - 1)))
    ensures z[0] == old(z[0]) && forall i :: n < i < z.Length ==> z[i] == old(z[i])
  {
    Stages(n, z, w, e, log, omega);
    ScaleConjugate(n, z, sqrinv);
  }
}
