/** Nonlinear facts. */
module Arithmetic {

  lemma TimesMonotone(i: int, j: int, n: nat)
    requires i <= j
    ensures i * n <= j * n
  {
  }

  /** The quotient and the remainder of i * n + r by n. */
  lemma Divide(i: int, r: nat, n: nat)
    requires r < n
    ensures (i * n + r) / n == i && (i * n + r) % n == r
  {
    var x := i * n + r;
    var q, m := x / n, x % n;
    assert x == q * n + m && 0 <= m < n;
    if i > q {
      TimesMonotone(q + 1, i, n);
    } else if i < q {
      TimesMonotone(i + 1, q, n);
    }
  }
}
