/** Quotients and remainders. */
module Remainders {

  lemma DivMod(q: nat, l: nat, r: nat)
    requires r < l
    ensures (q * l + r) / l == q && (q * l + r) % l == r
  {
    var p := q * l + r;
    assert p == (p / l) * l + p % l;
    ProductsApart(p / l, q, l);
    ProductsApart(q, p / l, l);
  }

  lemma ProductsApart(a: nat, b: nat, l: nat)
    ensures a < b ==> (a + 1) * l <= b * l
  {
    if a < b { assert b * l == (a + 1) * l + (b - a - 1) * l; }
  }

  lemma DivModBack(w: nat, p: nat)
    requires p > 0
    ensures w == w / p * p + w % p
  {
  }

  lemma Regroup(c: nat, q: nat, d: nat, p: nat)
    ensures (c * q + d) * p == c * (p * q) + d * p
  {
    assert (c * q + d) * p == c * q * p + d * p;
    assert c * q * p == c * (q * p);
  }

  lemma TwoDigitsOf(p: nat, q: nat, c: nat, d: nat, b: nat)
    requires b < p && d < q
    ensures p * q > 0 && ((c * q + d) * p + b) % (p * q) == d * p + b
  {
    ProductsApart(d, q, p);
    Regroup(c, q, d, p);
    var pq, dp := p * q, d * p;
    assert pq == q * p && (d + 1) * p == dp + p;
    DivMod(c, pq, dp + b);
  }

  /** A remainder by a product, in two digits. */
  lemma TwoDigits(w: nat, p: nat, q: nat)
    requires p > 0 && q > 0
    ensures p * q > 0 && w % (p * q) == w / p % q * p + w % p
  {
    DivModBack(w, p);
    DivModBack(w / p, q);
    TwoDigitsOf(p, q, w / p / q, w / p % q, w % p);
  }
}
