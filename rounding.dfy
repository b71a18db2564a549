/** Rounding to one decimal place, as done by Python's `round(x, 1)` and by
    pandas' `Series.round(1)`: to the nearest tenth, ties to the even tenth.
    Values are exact reals, so the binary representation of floats (which
    makes many apparent ties not ties at all) is not modelled. */
module Rounding {

  /** A real with at most one decimal place. */
  predicate OneDecimal(x: real)
  {
    (x * 10.0).Floor as real == x * 10.0
  }

  /** The integer nearest to `x`, ties going to the even neighbour. */
  function RoundHalfEven(x: real): (n: int)
    ensures x - 0.5 <= n as real <= x + 0.5
    ensures x.Floor as real == x ==> n == x.Floor
  {
    var f := x.Floor;
    var frac := x - f as real;
    if frac < 0.5 then f
    else if frac > 0.5 then f + 1
    else if f % 2 == 0 then f
    else f + 1
  }

  /** `round(x, 1)`: a one-decimal value within a twentieth of `x`; a value
      that already has one decimal (zero among them) is left unchanged, so
      rounding twice is rounding once. */
  function Round1(x: real): (r: real)
    ensures OneDecimal(r)
    ensures x - 0.05 <= r <= x + 0.05
    ensures OneDecimal(x) ==> r == x
  {
    RoundHalfEven(x * 10.0) as real / 10.0
  }

  /** Rounding never crosses a bound that itself has one decimal. */
  lemma {:induction false} Round1Within(x: real, lo: real, hi: real)
    requires OneDecimal(lo) && OneDecimal(hi)
    requires lo <= x <= hi
    ensures lo <= Round1(x) <= hi
  {
    var r := Round1(x);
    var n, a, b := (r * 10.0).Floor, (lo * 10.0).Floor, (hi * 10.0).Floor;
    assert r * 10.0 == n as real && lo * 10.0 == a as real && hi * 10.0 == b as real;
    // r lies within a twentieth of x, so n lies within a half of [a, b]
    assert a as real - 0.5 <= n as real <= b as real + 0.5;
    assert a <= n <= b;
  }

  lemma RoundHalfEvenMonotone(x: real, y: real)
    requires x <= y
    ensures RoundHalfEven(x) <= RoundHalfEven(y)
  {
  }

  /** Rounding preserves order (not strictly: close values may round alike). */
  lemma Round1Monotone(x: real, y: real)
    requires x <= y
    ensures Round1(x) <= Round1(y)
  {
    RoundHalfEvenMonotone(x * 10.0, y * 10.0);
  }
}
