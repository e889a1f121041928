/** Products, quotients, and powers of two. */
module Division {

  lemma {:induction false} TimesRises(x: nat, y: nat, m: nat)
    requires x < y
    ensures x * m + m <= y * m
    decreases y
  {
    assert y * m == (y - 1) * m + m;
    if x < y - 1 {
      TimesRises(x, y - 1, m);
    }
  }

  /** Quotient and remainder are the only ones there are. */
  lemma {:induction false} DivModUnique(n: nat, q: nat, r: nat, m: nat)
    requires r < m && n == q * m + r
    ensures n / m == q && n % m == r
  {
    assert n == n / m * m + n % m;
    if n / m < q {
      TimesRises(n / m, q, m);
    } else if q < n / m {
      TimesRises(q, n / m, m);
    }
  }

  function Pow2(n: nat): (r: nat)
    ensures r > 0
  {
    if n == 0 then 1 else 2 * Pow2(n - 1)
  }
}
