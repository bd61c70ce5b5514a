/** Facts about products and quotients that the solver needs spelled out. */
module Arithmetic {

  lemma AtLeastOnce(d: int, n: int)
    requires d > 0
    ensures n >= 1 ==> d * n >= d
  {
    assert d * n == d * (n - 1) + d;
  }

  /** Quotient and remainder are unique. */
  lemma DivisionIsUnique(a: int, d: int, q: int, r: int)
    requires d > 0 && a == d * q + r && 0 <= r < d
    ensures a / d == q && a % d == r
  {
    var n := q - a / d;
    AtLeastOnce(d, n);
    AtLeastOnce(d, -n);
    assert d * n == d * q - d * (a / d);
  }

  lemma QuotientAtMost(n: nat, d: nat, k: nat)
    requires d > 0 && n < d * k + d
    ensures n / d <= k
  {
    var m := n / d - k;
    AtLeastOnce(d, m);
    assert d * m == d * (n / d) - d * k;
  }

  lemma QuotientAtLeast(n: nat, d: nat, k: nat)
    requires d > 0 && d * k <= n
    ensures k <= n / d
  {
    var m := k - n / d;
    AtLeastOnce(d, m);
    assert d * m == d * k - d * (n / d);
  }

  lemma MulMonotone(a: nat, b: nat, m: nat)
    requires a <= b
    ensures a * m <= b * m
  {
    assert b * m == a * m + (b - a) * m;
  }
}
