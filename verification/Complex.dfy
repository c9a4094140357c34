/** Exact complex numbers: the ring laws and powers that the transform of `Oscar.c`
    rests on. */
module ComplexNumbers {

  datatype Complex = Complex(re: real, im: real)

  const ZERO := Complex(0.0, 0.0)
  const ONE := Complex(1.0, 0.0)
  const MINUS_ONE := Complex(-1.0, 0.0)

  function Add(a: Complex, b: Complex): Complex { Complex(a.re + b.re, a.im + b.im) }

  function Sub(a: Complex, b: Complex): Complex { Complex(a.re - b.re, a.im - b.im) }

  function Mul(a: Complex, b: Complex): Complex {
    Complex(a.re * b.re - a.im * b.im, a.re * b.im + a.im * b.re)
  }

  function Neg(a: Complex): Complex { Complex(-a.re, -a.im) }

  function Conjugate(a: Complex): Complex { Complex(a.re, -a.im) }

  function Scale(s: real, a: Complex): Complex { Complex(s * a.re, s * a.im) }

  function Pow(w: Complex, k: nat): Complex {
    if k == 0 then ONE else Mul(w, Pow(w, k - 1))
  }

  lemma AddAssoc(a: Complex, b: Complex, c: Complex)
    ensures Add(Add(a, b), c) == Add(a, Add(b, c))
  {
  }

  /** Regroup a sum of two sums. */
  lemma AddExchange(a: Complex, b: Complex, c: Complex, d: Complex)
    ensures Add(Add(a, b), Add(c, d)) == Add(Add(a, c), Add(b, d))
  {
  }

  lemma MulCommutes(a: Complex, b: Complex)
    ensures Mul(a, b) == Mul(b, a)
  {
  }

  lemma MulAssoc(a: Complex, b: Complex, c: Complex)
    ensures Mul(Mul(a, b), c) == Mul(a, Mul(b, c))
  {
  }

  lemma MulAdd(a: Complex, b: Complex, c: Complex)
    ensures Mul(a, Add(b, c)) == Add(Mul(a, b), Mul(a, c))
  {
  }

  lemma MulOne(a: Complex)
    ensures Mul(a, ONE) == a && Mul(ONE, a) == a && Mul(a, ZERO) == ZERO && Add(ZERO, a) == a
  {
  }

  lemma MulMinusOne(a: Complex, b: Complex)
    ensures Mul(Mul(a, MINUS_ONE), b) == Neg(Mul(a, b))
  {
  }

  lemma MulSub(a: Complex, b: Complex, c: Complex)
    ensures Mul(a, Sub(b, c)) == Add(Mul(a, b), Neg(Mul(a, c)))
  {
  }

  lemma {:induction false} PowAdd(w: Complex, a: nat, b: nat)
    ensures Pow(w, a + b) == Mul(Pow(w, a), Pow(w, b))
    decreases a
  {
    hide Mul;
    if a == 0 {
      MulOne(Pow(w, b));
    } else {
      PowAdd(w, a - 1, b);
      MulAssoc(w, Pow(w, a - 1), Pow(w, b));
    }
  }

  lemma {:induction false} PowOfOne(w: Complex, a: nat, k: nat)
    requires Pow(w, a) == ONE
    ensures Pow(w, a * k) == ONE
    decreases k
  {
    hide Mul;
    if k > 0 {
      PowOfOne(w, a, k - 1);
      var b := a * (k - 1);
      assert a * k == a + b;
      PowAdd(w, a, b);
      MulOne(ONE);
    }
  }
}
