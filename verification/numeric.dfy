/** Integer helpers for the arithmetic the integration does on floats:
    Python's `round` (ties to even), `int()` on a float (truncation toward
    zero) and the `min`/`max` clamps. */
module Numeric {

  function Abs(x: int): nat {
    if x < 0 then -x else x
  }

  /** `max(lo, min(x, hi))`, the clamp written out in several places. */
  function Clamp(x: int, lo: int, hi: int): (r: int)
    requires lo <= hi
    ensures lo <= r <= hi
    ensures lo <= x <= hi ==> r == x
  {
    if x < lo then lo else if x > hi then hi else x
  }

  /** Python's `round(num / den)` evaluated exactly: the integer nearest to
      the rational `num / den`, with a tie going to the even neighbour. */
  function RoundHalfEven(num: int, den: int): (r: int)
    requires den > 0
    ensures 2 * Abs(num - r * den) <= den
    ensures 2 * Abs(num - r * den) == den ==> r % 2 == 0
  {
    var q := num / den;
    var rem := num % den;
    assert num == q * den + rem;
    if 2 * rem < den then q
    else if 2 * rem > den then q + 1
    else if q % 2 == 0 then q
    else q + 1
  }

  /** The two properties in the contract of `RoundHalfEven` pin the result
      down: any integer that is nearest and even on a tie is that result. */
  lemma RoundHalfEvenUnique(num: int, den: int, r: int)
    requires den > 0
    requires 2 * Abs(num - r * den) <= den
    requires 2 * Abs(num - r * den) == den ==> r % 2 == 0
    ensures r == RoundHalfEven(num, den)
  {
    var s := RoundHalfEven(num, den);
    if r != s {
      var lo, hi := if r < s then r else s, if r < s then s else r;
      var a, b := num - hi * den, num - lo * den;
      assert (hi - lo) * den == b - a;
      MulDistance(hi - lo, den);
      assert false;
    }
  }

  /** A quotient of at most one half rounds to 0 (a tie at one half goes
      to the even 0). */
  lemma RoundToZero(num: int, den: int)
    requires den > 0 && 0 <= 2 * num <= den
    ensures RoundHalfEven(num, den) == 0
  {
    RoundHalfEvenUnique(num, den, 0);
  }

  /** A positive multiple of `den` is at least `den`, and at least twice
      `den` once the factor is two or more. */
  lemma MulDistance(d: int, den: int)
    requires d >= 1 && den > 0
    ensures d * den >= den
    ensures d >= 2 ==> d * den >= 2 * den
  {
    assert d * den == (d - 1) * den + den;
    if d >= 2 {
      assert d * den == (d - 2) * den + 2 * den;
    }
  }

  /** Rounding a quotient that lies in [lo, hi] gives a value in [lo, hi]. */
  lemma RoundWithin(num: int, den: int, lo: int, hi: int)
    requires den > 0 && lo <= hi
    requires lo * den <= num <= hi * den
    ensures lo <= RoundHalfEven(num, den) <= hi
  {
    var r := RoundHalfEven(num, den);
    if r > hi {
      assert (r - hi) * den == r * den - hi * den;
      MulDistance(r - hi, den);
      assert false;
    } else if r < lo {
      assert (lo - r) * den == lo * den - r * den;
      MulDistance(lo - r, den);
      assert false;
    }
  }

  /** A whole quotient rounds to itself. */
  lemma RoundWhole(k: int, den: int)
    requires den > 0
    ensures RoundHalfEven(k * den, den) == k
  {
    RoundHalfEvenUnique(k * den, den, k);
  }

  /** Python's `int(x)` on a float: truncation toward zero. */
  function Truncate(x: real): (r: int)
    ensures x >= 0.0 ==> 0 <= r && r as real <= x < r as real + 1.0
    ensures x < 0.0 ==> r <= 0 && r as real - 1.0 < x <= r as real
  {
    if x >= 0.0 then x.Floor else -((-x).Floor)
  }

  /** Truncation leaves a value that is already whole unchanged. */
  lemma TruncateWhole(n: int)
    ensures Truncate(n as real) == n
  {
  }
}
