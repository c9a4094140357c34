/** Powers of two. */
module Powers {
  import opened Remainders

  function Exp2(k: nat): (r: nat)
    ensures r >= 1
  {
    if k == 0 then 1 else 2 * Exp2(k - 1)
  }

  lemma {:induction false} Exp2Add(a: nat, b: nat)
    ensures Exp2(a) * Exp2(b) == Exp2(a + b)
    decreases a
  {
    hide Exp2;
    Exp2Step(a);
    if a > 0 {
      Exp2Add(a - 1, b);
      Exp2Step(a + b);
      assert a - 1 + b == a + b - 1;
      Double(Exp2(a - 1), Exp2(b));
    }
  }

  lemma Exp2Step(k: nat)
    ensures Exp2(k) == if k == 0 then 1 else 2 * Exp2(k - 1)
  {
  }

  lemma Double(u: nat, v: nat)
    ensures 2 * u * v == 2 * (u * v)
  {
  }

  lemma {:induction false} Exp2Grows(a: nat, b: nat)
    requires a < b
    ensures 2 * Exp2(a) <= Exp2(b)
    decreases b
  {
    if a < b - 1 { Exp2Grows(a, b - 1); }
  }

  // ----- Bits -----

  /** The bit of `n` at place `j` is set. */
  ghost predicate Bit(n: nat, j: nat) { if j == 0 then n % 2 == 1 else Bit(n / 2, j - 1) }

  lemma {:induction false} ZeroAt(j: nat)
    ensures !Bit(0, j)
  {
    if j > 0 { ZeroAt(j - 1); }
  }

  /** A remainder by a power of two keeps the low bits. */
  lemma {:induction false} LowBits(n: nat, k: nat, j: nat)
    ensures Bit(n % Exp2(k), j) <==> j < k && Bit(n, j)
    decreases k
  {
    if k == 0 {
      ZeroAt(j);
    } else {
      TwoDigits(n, 2, Exp2(k - 1));
      hide Exp2;
      Exp2Step(k);
      if j > 0 { LowBits(n / 2, k - 1, j - 1); }
    }
  }
}
