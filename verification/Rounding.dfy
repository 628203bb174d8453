/** Integer division truncated towards zero, as Go divides. */
module Rounding {

  function Trunc(a: int, b: nat): int
    requires b > 0
  {
    if a >= 0 then a / b else -(-a / b)
  }

  /** q is t / n, rounded towards zero. */
  ghost predicate TowardsZero(q: int, t: int, n: nat) {
    if t >= 0 then q * n <= t < q * n + n else q * n - n < t <= q * n
  }

  lemma TruncExactly(t: int, n: nat)
    requires n > 0
    ensures TowardsZero(Trunc(t, n), t, n)
  {
    var a := if t >= 0 then t else -t;
    assert a == a / n * n + a % n;
  }
}
