/**
 * Rounding to a whole unit of the base currency. The pipeline rounds with
 * pandas/numpy `round(0)`: to the nearest integer, halves to the even one.
 */
module Rounding {

  function Abs(x: real): real { if x < 0.0 then -x else x }

  /** Nearest integer to `x`, ties to even. */
  function Round(x: real): (r: int)
    ensures -0.5 <= r as real - x <= 0.5
    ensures Abs(r as real - x) == 0.5 ==> r % 2 == 0
  {
    var f := x.Floor;
    var frac := x - f as real;
    if frac < 0.5 then f
    else if frac > 0.5 then f + 1
    else if f % 2 == 0 then f
    else f + 1
  }

  /** The two properties of Round determine it: any integer meeting them is Round(x). */
  lemma RoundUnique(x: real, n: int)
    requires -0.5 <= n as real - x <= 0.5
    requires Abs(n as real - x) == 0.5 ==> n % 2 == 0
    ensures n == Round(x)
  {
  }

  /** A whole amount is left unchanged. */
  lemma RoundInteger(n: int)
    ensures Round(n as real) == n
  {
    RoundUnique(n as real, n);
  }

  /** Rounding never turns a non-negative amount negative. */
  lemma RoundNonNegative(x: real)
    requires x >= 0.0
    ensures Round(x) >= 0
  {
  }
}
