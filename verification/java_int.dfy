/**
 Java's integer division and remainder. Both truncate toward zero, whereas
 Dafny's `/` and `%` are Euclidean; the two agree on non-negative operands.
 Only positive divisors occur in the model (2, 100 and 10000).
 */
module JavaInt {

  /** Java's `a / b` for a positive divisor: the quotient rounded toward zero. */
  function Div(a: int, b: int): (q: int)
    requires b > 0
    ensures 0 <= a ==> 0 <= a - b * q < b
    ensures a < 0 ==> -b < a - b * q <= 0
    ensures 0 <= a ==> q == a / b
  {
    if a >= 0 then a / b else -((-a) / b)
  }

  /** Java's `a % b` for a positive divisor: the remainder takes the sign of `a`. */
  function Mod(a: int, b: int): (r: int)
    requires b > 0
    ensures a == b * Div(a, b) + r
    ensures 0 <= a ==> 0 <= r < b && r == a % b
    ensures a < 0 ==> -b < r <= 0
  {
    a - b * Div(a, b)
  }
}
