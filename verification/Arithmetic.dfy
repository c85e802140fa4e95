/** The few facts about products and quotients the model needs. */
module Arithmetic {

  function Min(a: int, b: int): (m: int)
    ensures m <= a && m <= b && (m == a || m == b)
  {
    if a < b then a else b
  }

  function Max(a: int, b: int): (m: int)
    ensures a <= m && b <= m && (m == a || m == b)
  {
    if a > b then a else b
  }

  /** Multiples of d are at least d apart. */
  lemma {:induction false} ProductStep(a: int, b: int, d: int)
    requires a < b && 0 <= d
    ensures a * d + d <= b * d
    decreases b - a
  {
    assert b * d == (b - 1) * d + d;
    if a < b - 1 { ProductStep(a, b - 1, d); }
  }

  lemma Divide(n: int, d: int, q: int)
    requires d > 0 && n == q * d
    ensures n / d == q
  {
    var k := n / d;
    assert n == k * d + n % d;
    if q < k { ProductStep(q, k, d); }
    if k < q { ProductStep(k, q, d); }
  }

  function Pow2(n: nat): (p: nat)
    ensures p > 0
  {
    if n == 0 then 1 else 2 * Pow2(n - 1)
  }

  /** q times d, by repeated addition, so that the solver sees sums only. */
  ghost function Times(q: nat, d: nat): (p: nat) {
    if q == 0 then 0 else Times(q - 1, d) + d
  }

  lemma {:induction false} TimesIsProduct(q: nat, d: nat)
    ensures Times(q, d) == q * d
  {
    if q > 0 { TimesIsProduct(q - 1, d); }
  }
}
