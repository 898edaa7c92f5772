/** Rounding helpers with the semantics of JavaScript's `Math.ceil`, `Math.floor`,
    `Math.min` and `Math.max` on exact reals, and the laws of the transcendental
    functions `Math.pow` and `Math.log` that the engine relies on.  The two
    transcendental functions themselves are parameters of the operations that use
    them; the laws below are the only facts assumed about them. */
module Arith {

  /** `Math.ceil`: the least integer not below `x`. */
  function Ceil(x: real): (c: int)
    ensures x <= c as real < x + 1.0
  {
    if x.Floor as real == x then x.Floor else x.Floor + 1
  }

  /** `Math.floor(x / 1000) * 1000`: the greatest multiple of 1000 not above `x`. */
  function FloorTo1000(x: real): (y: real)
    ensures y <= x < y + 1000.0
    ensures IsMultipleOf1000(y)
  {
    (x / 1000.0).Floor as real * 1000.0
  }

  /** `y` is an integer number of thousands. */
  predicate IsMultipleOf1000(y: real)
  {
    (y / 1000.0).Floor as real * 1000.0 == y
  }

  function Min(x: real, y: real): real
  {
    if x <= y then x else y
  }

  function Max(x: real, y: real): real
  {
    if x >= y then x else y
  }

  function MinInt(a: int, b: int): int
  {
    if a <= b then a else b
  }

  function MaxInt(a: int, b: int): int
  {
    if a >= b then a else b
  }

  /** A power with a base above 1 and a positive exponent exceeds 1. */
  ghost predicate PowGrows(pow: (real, real) -> real)
  {
    forall b, e :: b > 1.0 && e > 0.0 ==> pow(b, e) > 1.0
  }

  /** A negative exponent gives the reciprocal: `b^(-e) * b^e == 1` for a positive base. */
  ghost predicate PowReciprocal(pow: (real, real) -> real)
  {
    forall b, e :: b > 0.0 ==> pow(b, -e) * pow(b, e) == 1.0
  }

  /** The natural logarithm is positive above 1. */
  ghost predicate LnPositive(ln: real -> real)
  {
    forall x :: x > 1.0 ==> ln(x) > 0.0
  }

  /** `pow` and `ln` agree: `b^e == x` whenever `e * ln(b) == ln(x)`, for a positive `x`
      and a base above 1. */
  ghost predicate PowInvertsLn(pow: (real, real) -> real, ln: real -> real)
  {
    forall b, e, x :: b > 1.0 && x > 0.0 && e * ln(b) == ln(x) ==> pow(b, e) == x
  }

  lemma DivAboveOne(n: real, d: real)
    requires 0.0 < d < n
    ensures n / d > 1.0
  {
  }

  lemma DivMul(n: real, d: real)
    requires d != 0.0
    ensures (n / d) * d == n
  {
  }

  lemma DivByFactor(n: real, d: real, q: real)
    requires d != 0.0 && q * d == n
    ensures n / d == q
  {
  }

  lemma CancelFactor(a: real, b: real, f: real)
    requires f != 0.0 && a * f == b * f
    ensures a == b
  {
    DivByFactor(b * f, f, a);
    DivByFactor(b * f, f, b);
  }

  lemma DivBelowOne(n: real, d: real)
    requires d > 0.0
    ensures 0.0 <= n < d ==> 0.0 <= n / d < 1.0
  {
    var q := n / d;
    DivMul(n, d);
    if 0.0 <= n < d {
      if q >= 1.0 {
        assert q * d == d + (q - 1.0) * d;
        MulNonNegative(q - 1.0, d);
        assert false;
      }
      if q < 0.0 {
        MulNonNegative(-q, d);
        assert false;
      }
    }
  }

  lemma MulNonNegative(a: real, b: real)
    requires a >= 0.0 && b >= 0.0
    ensures a * b >= 0.0
  {
  }

  lemma MulMonotone(a: real, b: real, c: real)
    requires a <= b && c >= 0.0
    ensures a * c <= b * c
  {
    MulNonNegative(b - a, c);
    assert (b - a) * c == b * c - a * c;
  }
}
