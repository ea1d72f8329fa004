/** Monotonicity of multiplication on the reals, in the shapes the proofs call for. */
module RealMath {

  lemma MulLe(a: real, b: real, c: real)
    requires a <= b && 0.0 <= c
    ensures a * c <= b * c && c * a <= c * b
  {
    assert (b - a) * c >= 0.0;
  }

  lemma MulLt(a: real, b: real, c: real)
    requires a < b && 0.0 < c
    ensures a * c < b * c && c * a < c * b
  {
    assert (b - a) * c > 0.0;
  }

  lemma MulAssoc(a: real, b: real, c: real)
    ensures (a * b) * c == a * (b * c)
  {
  }

  lemma SquareGrows(u: real, v: real)
    requires 0.0 <= u < v
    ensures u * u < v * v
  {
    var x := v - u;
    assert v * v == u * u + x * (u + v);
  }

  lemma MulPositive(a: real, b: real)
    requires 0.0 < a && 0.0 < b
    ensures 0.0 < a * b
  {
  }

  /** A product whose sign is known from its factors. */
  function Times(a: real, b: real): (y: real)
    ensures a > 0.0 && b > 0.0 ==> y > 0.0
    ensures a < 0.0 && b < 0.0 ==> y > 0.0
  {
    assert a < 0.0 && b < 0.0 ==> (-a) * (-b) > 0.0;
    a * b
  }

  function Squared(x: real): (y: real)
    ensures x != 0.0 ==> y > 0.0
  {
    Times(x, x)
  }

  function Abs(x: real): real {
    if x < 0.0 then -x else x
  }
}
