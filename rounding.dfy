/**
 * `round(x, 2)` on a percentage, with percentages represented exactly as
 * integers counting hundredths of a percent (66.67 % is 6667).
 */
module Rounding {

  /** `n / d` rounded to the nearest integer, a tie going to the even neighbour. */
  function RoundHalfEven(n: int, d: int): (r: int)
    requires d > 0
    ensures 2 * (r * d - n) <= d && 2 * (n - r * d) <= d
    ensures 2 * (r * d - n) == d || 2 * (n - r * d) == d ==> r % 2 == 0
  {
    var q, rem := n / d, n % d;
    assert n == q * d + rem;
    assert (q + 1) * d == q * d + d;
    if 2 * rem < d then q
    else if 2 * rem > d then q + 1
    else if q % 2 == 0 then q
    else q + 1
  }

  /**
   * The percentage `100 * num / den` rounded to two decimals, in hundredths:
   * the integer nearest to `10000 * num / den`.
   */
  function Hundredths(num: int, den: int): (r: int)
    requires den > 0
    ensures 2 * (r * den - 10000 * num) <= den && 2 * (10000 * num - r * den) <= den
    ensures 0 <= num <= den ==> 0 <= r <= 10000
  {
    var r := RoundHalfEven(num * 10000, den);
    NearestInRange(num, den, r);
    r
  }

  lemma NearestInRange(num: int, den: int, r: int)
    requires den > 0
    requires 2 * (r * den - 10000 * num) <= den && 2 * (10000 * num - r * den) <= den
    ensures 0 <= num <= den ==> 0 <= r <= 10000
  {
    if 0 <= num <= den {
      if r < 0 {
        MulMonotone(r, -1, den);
      }
      if r > 10000 {
        MulMonotone(10001, r, den);
      }
    }
  }

  lemma MulMonotone(a: int, b: int, d: int)
    requires a <= b && d >= 0
    ensures a * d <= b * d
  {
    var k := b - a;
    assert b * d == a * d + k * d;
  }

  lemma MulBelowThree(x: int, d: int)
    requires d > 0 && x * d <= 2 * d
    ensures x <= 2
  {
    if x > 2 {
      MulMonotone(3, x, d);
    }
  }

  /**
   * Four rounded shares of one whole add up to 100 % give or take 0.02 %:
   * if `n1 + n2 + n3 + n4 == den` the rounded percentages sum to within 2
   * hundredths of 10000.
   */
  lemma {:induction false} SharesSumNearWhole(n1: int, n2: int, n3: int, n4: int, den: int)
    requires den > 0 && n1 + n2 + n3 + n4 == den
    ensures 10000 - 2 <= Hundredths(n1, den) + Hundredths(n2, den) + Hundredths(n3, den) + Hundredths(n4, den) <= 10000 + 2
  {
    var p1, p2, p3, p4 := Hundredths(n1, den), Hundredths(n2, den), Hundredths(n3, den), Hundredths(n4, den);
    var e1, e2, e3, e4 := p1 * den - 10000 * n1, p2 * den - 10000 * n2, p3 * den - 10000 * n3, p4 * den - 10000 * n4;
    var x := p1 + p2 + p3 + p4 - 10000;
    Distribute(p1, p2, p3, p4, den);
    assert x * den == e1 + e2 + e3 + e4;
    MulBelowThree(x, den);
    assert (-x) * den == -(x * den);
    MulBelowThree(-x, den);
  }

  lemma Distribute(a: int, b: int, c: int, e: int, d: int)
    ensures (a + b + c + e - 10000) * d == a * d + b * d + c * d + e * d - 10000 * d
  {
  }
}
