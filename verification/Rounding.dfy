/** The rounding rules the clock and the grade use, on reals. */
module Rounding {

  /** Python's round(x): to the nearest integer, a tie to the even one. */
  function HalfEven(x: real): int {
    var f := x.Floor;
    var d := x - f as real;
    if d < 0.5 then f else if d > 0.5 then f + 1 else if f % 2 == 0 then f else f + 1
  }

  /** Decimal ROUND_HALF_UP of a non-negative number. */
  function HalfUp(x: real): int {
    (x + 0.5).Floor
  }

  function Ceil(x: real): int {
    -((-x).Floor)
  }

  /** Python's round(x, 6). */
  function Round6(x: real): real {
    HalfEven(x * 1000000.0) as real / 1000000.0
  }

  function Clamp(lo: int, hi: int, x: int): int {
    var capped := if x < hi then x else hi;
    if capped > lo then capped else lo
  }

  /** What each rule means: the even neighbour of a tie, the upper neighbour of a tie, and the least
      integer not below. */
  lemma RulesMean(x: real)
    ensures HalfEven(x) as real - 0.5 <= x <= HalfEven(x) as real + 0.5
    ensures x == HalfEven(x) as real - 0.5 || x == HalfEven(x) as real + 0.5 ==> HalfEven(x) % 2 == 0
    ensures HalfUp(x) as real - 0.5 <= x < HalfUp(x) as real + 0.5
    ensures Ceil(x) as real - 1.0 < x <= Ceil(x) as real
  {
  }

  /** A millionth is rounded to the nearest one. */
  lemma Round6Means(x: real)
    ensures Round6(x) - 0.0000005 <= x <= Round6(x) + 0.0000005
    ensures (Round6(x) * 1000000.0).Floor as real == Round6(x) * 1000000.0
  {
    RulesMean(x * 1000000.0);
    assert Round6(x) * 1000000.0 == HalfEven(x * 1000000.0) as real;
  }

  /** Clamping takes the nearest number of the range. */
  lemma ClampMeans(lo: int, hi: int, x: int)
    requires lo <= hi
    ensures lo <= Clamp(lo, hi, x) <= hi
    ensures lo <= x <= hi ==> Clamp(lo, hi, x) == x
    ensures x < lo ==> Clamp(lo, hi, x) == lo
    ensures x > hi ==> Clamp(lo, hi, x) == hi
  {
  }

  lemma HalfEvenBetween(x: real, lo: int, hi: int)
    requires lo as real <= x <= hi as real
    ensures lo <= HalfEven(x) <= hi
  {
  }

  lemma HalfEvenMonotone(x: real, y: real)
    requires x <= y
    ensures HalfEven(x) <= HalfEven(y)
  {
    assert x.Floor <= y.Floor;
  }

  lemma Round6Between(x: real, lo: int, hi: int)
    requires lo as real <= x <= hi as real
    ensures lo as real <= Round6(x) <= hi as real
  {
    HalfEvenBetween(x * 1000000.0, lo * 1000000, hi * 1000000);
  }

  lemma Round6Monotone(x: real, y: real)
    requires x <= y
    ensures Round6(x) <= Round6(y)
  {
    HalfEvenMonotone(x * 1000000.0, y * 1000000.0);
  }

  lemma CeilMonotone(x: real, y: real)
    requires x <= y
    ensures Ceil(x) <= Ceil(y)
  {
    assert (-y).Floor <= (-x).Floor;
  }

  lemma CeilBetween(x: real, lo: int, hi: int)
    requires lo as real <= x <= hi as real
    ensures lo <= Ceil(x) <= hi
  {
  }
}
