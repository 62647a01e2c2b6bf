/** Division with remainder. */
module Arithmetic {
  lemma Multiple(d: int, n: int)
    requires n > 0
    ensures (d >= 1 ==> n * d >= n) && (d <= -1 ==> n * d <= -n)
  {
  }

  lemma Remainder(a: int, n: int, q: int, r: int)
    requires n > 0 && a == n * q + r && 0 <= r < n
    ensures a % n == r && a / n == q
  {
    var d := a / n - q;
    assert n * d == r - a % n by {
      assert a == n * (a / n) + a % n;
      assert n * d == n * (a / n) - n * q;
    }
    Multiple(d, n);
  }
}
