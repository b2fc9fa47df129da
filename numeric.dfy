/**
 * Arithmetic shared by the readers and writers: absolute value, Python's
 * `int()` of a float, and the uniqueness of Euclidean division.
 */
module Numeric {

  function Abs(v: real): real
  {
    if v < 0.0 then -v else v
  }

  /** Python's `int()` of a float: truncation toward zero. */
  function Trunc(v: real): (t: int)
    ensures v >= 0.0 ==> 0.0 <= t as real <= v < t as real + 1.0
    ensures v < 0.0 ==> t as real - 1.0 < v <= t as real <= 0.0
  {
    if v >= 0.0 then v.Floor else -((-v).Floor)
  }

  /** Euclidean division is determined by its quotient and remainder. */
  lemma DivMod(a: int, n: int, q: int, r: int)
    requires n > 0 && a == n * q + r && 0 <= r < n
    ensures a / n == q && a % n == r
  {
    var q0, r0 := a / n, a % n;
    var d := q0 - q;
    assert n * d == r - r0;
    if d >= 1 {
      MulPos(n, d);
    } else if d <= -1 {
      MulPos(n, -d);
    }
  }

  lemma {:induction false} MulPos(n: int, d: int)
    requires n > 0 && d >= 1
    ensures n * d >= n
    decreases d
  {
    if d > 1 {
      MulPos(n, d - 1);
      assert n * d == n * (d - 1) + n;
    }
  }
}
