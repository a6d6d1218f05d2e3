/**
 * The JavaScript number idioms the telemetry code relies on, over real numbers:
 * `Math.abs`, `Math.min`, `Math.max` and the falsy-zero guard `v || 1e-9`.
 */
module JsMath {
  /** The substitute the code uses for a zero denominator (`1e-9`). */
  const Epsilon: real := 0.000000001

  function Abs(v: real): (r: real)
    ensures r >= 0.0
    ensures r == v || r == -v
  {
    if v < 0.0 then -v else v
  }

  function Min(a: real, b: real): (r: real)
    ensures r <= a && r <= b
    ensures r == a || r == b
  {
    if a <= b then a else b
  }

  function Max(a: real, b: real): (r: real)
    ensures r >= a && r >= b
    ensures r == a || r == b
  {
    if a >= b then a else b
  }

  /** `v || 1e-9`: zero is falsy, so it is replaced; every other value is kept. */
  function OrEpsilon(v: real): (r: real)
    ensures r != 0.0
    ensures v != 0.0 ==> r == v
    ensures v == 0.0 ==> r == Epsilon
  {
    if v != 0.0 then v else Epsilon
  }

  /** Facts about a quotient of a non-negative number by a positive one. */
  lemma QuotientNonNegative(a: real, d: real)
    requires a >= 0.0 && d > 0.0
    ensures a / d >= 0.0
    ensures a / d == 0.0 <==> a == 0.0
    ensures a == d ==> a / d == 1.0
  {
    assert (a / d) * d == a;
  }
}
