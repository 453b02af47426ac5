/**
 * `Number(x.toFixed(2))` on exact reals: toFixed picks the nearest multiple of
 * 1/100, the larger one on a tie, and formats a negative number as the
 * negation of its magnitude's rendering.
 */
module Numbers {

  /** The whole number of hundredths toFixed(2) renders `x` as. */
  function Hundredths(x: real): (n: int)
    ensures x >= 0.0 ==> n >= 0
    ensures -0.5 <= (n as real) - x * 100.0 <= 0.5
    decreases if x < 0.0 then 1 else 0
  {
    if x < 0.0 then -Hundredths(-x) else (x * 100.0 + 0.5).Floor
  }

  /** `Number(x.toFixed(2))`: a whole number of hundredths within half a hundredth of `x`. */
  function Fixed2(x: real): (r: real)
    ensures x >= 0.0 ==> r >= 0.0
    ensures -0.005 <= r - x <= 0.005
    ensures r * 100.0 == Hundredths(x) as real
  {
    (Hundredths(x) as real) / 100.0
  }

  /** Zero stays zero. */
  lemma Fixed2Zero()
    ensures Fixed2(0.0) == 0.0
  {
  }

  /** Rounding keeps a value between 0 and a whole bound `hi` inside those bounds. */
  lemma Fixed2Within(x: real, hi: int)
    requires 0.0 <= x <= hi as real
    ensures 0.0 <= Fixed2(x) <= hi as real
  {
    var n := (x * 100.0 + 0.5).Floor;
    assert n <= hi * 100 by {
      assert x * 100.0 + 0.5 < (hi * 100 + 1) as real;
    }
  }
}
