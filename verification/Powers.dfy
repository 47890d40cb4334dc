/** Powers of two, and sums modulo one. */
module Powers {
  function Pow2(n: nat): (r: int)
    ensures r >= 1
  {
    if n == 0 then 1 else 2 * Pow2(n - 1)
  }

  lemma QuotientIs(x: nat, h: nat, q: nat)
    requires h > 0 && q * h <= x < q * h + h
    ensures x / h == q
  {
    if x / h < q { MulMonotone(x / h + 1, q, h); }
    if x / h > q { MulMonotone(q + 1, x / h, h); }
  }

  lemma MulMonotone(a: int, b: int, h: nat)
    requires a <= b
    ensures a * h <= b * h
  {
  }

  lemma TopBit(x: nat, h: nat)
    requires x < 2 * h
    ensures x / h == if x < h then 0 else 1
  {
    if x < h { QuotientIs(x, h, 0); } else { QuotientIs(x, h, 1); }
  }

  lemma ModOnce(a: nat, m: nat)
    requires a < 2 * m
    ensures a % m == if a < m then a else a - m
  {
    TopBit(a, m);
  }
}
