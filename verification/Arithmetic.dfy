/** Powers and division, as several components use them. */
module Arithmetic {
  function Pow2(k: nat): (r: nat)
    ensures r > 0
  {
    if k == 0 then 1 else 2 * Pow2(k - 1)
  }

  lemma Small(e: int, d: int)
    requires d > 0 && -d < e * d < d
    ensures e == 0
  {
  }

  /** Quotient and remainder are unique. */
  lemma Division(n: int, d: int, q: int, r: int)
    requires 0 <= r < d && n == q * d + r
    ensures n / d == q && n % d == r
  {
    var e := n / d - q;
    assert n == (n / d) * d + n % d;
    assert e * d == r - n % d;
    Small(e, d);
  }

  lemma DivTwice(n: nat, p: nat, d: nat)
    requires p > 0 && d > 0
    ensures p * d > 0 && n / p / d == n / (p * d)
  {
    var q, r := n / p / d, n / p % d;
    assert n == (n / p) * p + n % p;
    assert n / p == q * d + r;
    assert (q * d + r) * p == q * (p * d) + r * p;
    assert 0 <= r * p <= (d - 1) * p;
    Division(n, p * d, q, r * p + n % p);
  }

  lemma Product(a: nat, x: nat, y: nat)
    requires x <= y
    ensures a * x <= a * y
  {
  }

  lemma DivBelow(m: nat, p: nat, q: nat)
    requires p > 0 && m < p * q
    ensures m / p < q
  {
    assert m == p * (m / p) + m % p;
    if q <= m / p { Product(p, q, m / p); }
  }
}
