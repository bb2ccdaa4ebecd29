/** JavaScript arithmetic the quiz app uses on scores and limits, computed exactly on integers. */
module JsMath {

  /**
   * `Math.round(num / den)` evaluated on exact rationals: the integer nearest
   * to num/den, a half rounded up (towards +infinity).
   */
  function RoundDiv(num: int, den: int): (r: int)
    requires den > 0
    ensures r * (2 * den) <= 2 * num + den < (r + 1) * (2 * den)
  {
    (2 * num + den) / (2 * den)
  }

  /** A rounded percentage of a part of a whole lies in [0, 100], is 0 for no part and 100 for all of it. */
  lemma RoundPercentBounds(part: int, whole: int)
    requires 0 <= part <= whole && whole > 0
    ensures 0 <= RoundDiv(100 * part, whole) <= 100
    ensures part == 0 ==> RoundDiv(100 * part, whole) == 0
    ensures part == whole ==> RoundDiv(100 * part, whole) == 100
  {
    var r := RoundDiv(100 * part, whole);
    var d := 2 * whole;
    var n := 200 * part + whole;
    assert r * d <= n < (r + 1) * d;
    assert whole <= n <= 201 * whole;
    if r > 100 {
      MulMono(101, r, d);
      assert false;
    }
    if r < 0 {
      MulMono(r + 1, 0, d);
      assert false;
    }
    if part == 0 && r > 0 {
      MulMono(1, r, d);
      assert false;
    }
    if part == whole && r < 100 {
      MulMono(r + 1, 100, d);
      assert false;
    }
  }

  /** `RoundPercentBounds` for a part that may lie outside the whole. */
  lemma RoundPercentBoundsIf(part: int, whole: int)
    requires whole > 0
    ensures 0 <= part <= whole ==> 0 <= RoundDiv(100 * part, whole) <= 100
  {
    if 0 <= part <= whole {
      RoundPercentBounds(part, whole);
    }
  }

  lemma MulMono(a: int, b: int, c: int)
    requires a <= b && c >= 0
    ensures a * c <= b * c
  {
    assert b * c - a * c == (b - a) * c;
  }

  function Min(a: int, b: int): (r: int)
    ensures r <= a && r <= b && (r == a || r == b)
  {
    if a <= b then a else b
  }

  /** The end index `s.slice(0, end)` uses on a sequence of length `len`. */
  function SliceEnd(end: int, len: nat): (r: nat)
    ensures r <= len
    ensures 0 <= end <= len ==> r == end
    ensures end > len ==> r == len
    ensures end < 0 ==> r == if len + end < 0 then 0 else len + end
  {
    if end < 0 then (if len + end < 0 then 0 else len + end)
    else if end > len then len
    else end
  }

  /** JavaScript's `a % b`: the remainder of division truncated toward zero, with the sign of `a`. */
  function JsRem(a: int, b: int): (r: int)
    requires b > 0
    ensures a >= 0 ==> 0 <= r < b
    ensures a < 0 ==> -b < r <= 0
  {
    if a >= 0 then a % b else -((-a) % b)
  }

  /** `Math.round(x)` for a finite number: the nearest integer, a half rounded up. */
  function RoundReal(x: real): (r: int)
    ensures r as real - 0.5 <= x < r as real + 0.5
  {
    (x + 0.5).Floor
  }

  /** `Math.floor(num / den)` on exact rationals. */
  function FloorDiv(num: int, den: int): (r: int)
    requires den > 0
    ensures r * den <= num < (r + 1) * den
  {
    num / den
  }
}
