/**
 * Go's integer division and remainder. Go's `/` truncates toward zero and
 * `%` takes the sign of the dividend, whereas Dafny's are Euclidean. The
 * calendar code divides negative numbers in several places, so every `/`
 * and `%` of the Go source is written with these two functions. Every
 * divisor in the source is a positive constant.
 */
module GoInt {

  /** Go's `a / b` for `int` operands and a positive divisor. */
  function Quo(a: int, b: int): int
    requires b > 0
  {
    if a < 0 then -((-a) / b) else a / b
  }

  /** Go's `a % b` for `int` operands and a positive divisor. */
  function Rem(a: int, b: int): int
    requires b > 0
  {
    if a < 0 then -((-a) % b) else a % b
  }

  /** The defining identity of Go's quotient and remainder, and the range of the remainder. */
  lemma QuoRem(a: int, b: int)
    requires b > 0
    ensures a == b * Quo(a, b) + Rem(a, b)
    ensures -b < Rem(a, b) < b
    ensures a >= 0 ==> Rem(a, b) >= 0
    ensures a <= 0 ==> Rem(a, b) <= 0
  {
    if a < 0 {
      var u := -a;
      assert u == b * (u / b) + u % b;
      assert a == b * (-(u / b)) + (-(u % b));
    }
  }
}
