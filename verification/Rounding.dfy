/** Round-half-even of an exact real to an integer number of units. */
module Rounding {

  function RoundHalfEven(x: real): int {
    var f := x.Floor;
    var rest := x - f as real;
    if rest < 0.5 then f
    else if rest > 0.5 then f + 1
    else if f % 2 == 0 then f else f + 1
  }

  /** The result is a nearest integer, and at a tie the even one. */
  lemma RoundNearest(x: real)
    ensures -0.5 <= RoundHalfEven(x) as real - x <= 0.5
    ensures RoundHalfEven(x) as real - x == 0.5 || RoundHalfEven(x) as real - x == -0.5 ==> RoundHalfEven(x) % 2 == 0
  {
  }

  /** Nothing else is: nearest, and even at a tie, determine the result. */
  lemma RoundUnique(x: real, n: int)
    requires -0.5 <= n as real - x <= 0.5
    requires n as real - x == 0.5 || n as real - x == -0.5 ==> n % 2 == 0
    ensures n == RoundHalfEven(x)
  {
    RoundNearest(x);
    var m := RoundHalfEven(x);
    assert -1.0 <= n as real - m as real <= 1.0;
    assert -1 <= n - m <= 1;
  }

  lemma RoundMonotone(x: real, y: real)
    requires x <= y
    ensures RoundHalfEven(x) <= RoundHalfEven(y)
  {
    var fx, fy := x.Floor, y.Floor;
    assert fx <= fy;
  }
}
