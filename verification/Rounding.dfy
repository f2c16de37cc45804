/** Rounding up to a multiple, the arithmetic behind alignment gaps and page padding. */
module Rounding {

  /** BFD_ALIGN (x, n), and (x + mask) & ~mask when n == mask + 1 is a power of two. */
  function RoundUp(x: int, n: int): (u: int)
    requires n > 0
    ensures x <= u < x + n
    ensures u % n == 0
  {
    var top := x + n - 1;
    MultipleOf(top / n, n);
    top - top % n
  }

  lemma {:induction false} MultipleOf(p: int, n: int)
    requires n > 0
    ensures (n * p) % n == 0
  {
    var q, r := (n * p) / n, (n * p) % n;
    assert n * (p - q) == r;
    AtLeastFactor(n, p - q);
  }

  lemma AtLeastFactor(n: int, d: int)
    requires n > 0
    ensures d >= 1 ==> n * d >= n
    ensures d <= -1 ==> n * d <= -n
  {
  }

  lemma {:induction false} MultiplesSubtract(a: int, b: int, n: int)
    requires n > 0 && a % n == 0 && b % n == 0
    ensures (a - b) % n == 0
    ensures a - b < n && b - a < n ==> a == b
  {
    var p, q := a / n, b / n;
    assert a - b == n * (p - q);
    MultipleOf(p - q, n);
    AtLeastFactor(n, p - q);
  }

  /** A multiple is left where it is. */
  lemma {:induction false} RoundUpMultiple(x: int, n: int)
    requires n > 0 && x % n == 0
    ensures RoundUp(x, n) == x
  {
    MultiplesSubtract(RoundUp(x, n), x, n);
  }

  /** Shifting by a base commutes with rounding up exactly when the base is a multiple. */
  lemma {:induction false} RoundUpShift(base: int, x: int, n: int)
    requires n > 0
    ensures RoundUp(base + x, n) == base + RoundUp(x, n) <==> base % n == 0
  {
    var a, b := RoundUp(base + x, n), RoundUp(x, n);
    if a == base + b {
      MultiplesSubtract(a, b, n);
    }
    if base % n == 0 {
      MultiplesSubtract(a, base, n);
      MultiplesSubtract(a - base, b, n);
    }
  }
}
