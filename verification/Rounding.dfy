/** Python's `round` to an integer: to nearest, ties to even. */
module Rounding {

  function RoundHalfEven(x: real): int {
    var below := x.Floor;
    var part := x - below as real;
    if part < 0.5 then below
    else if part > 0.5 then below + 1
    else if below % 2 == 0 then below
    else below + 1
  }

  /** `n` is a nearest integer of `x`, and an even one if there are two. */
  ghost predicate IsRounding(x: real, n: int) {
    && -0.5 <= x - n as real <= 0.5
    && (x - n as real == 0.5 || x - n as real == -0.5 ==> n % 2 == 0)
  }

  lemma RoundIsTheRounding(x: real, n: int)
    ensures n == RoundHalfEven(x) <==> IsRounding(x, n)
  {}

  lemma RoundMonotone(x: real, y: real)
    requires x <= y
    ensures RoundHalfEven(x) <= RoundHalfEven(y)
  {}

  /** Integer bounds survive rounding. */
  lemma RoundWithin(x: real, lo: int, hi: int)
    requires lo as real <= x <= hi as real
    ensures lo <= RoundHalfEven(x) <= hi
    ensures lo == hi ==> RoundHalfEven(x) == lo
  {}
}
