/** Pure numeric helpers of the telemetry engine: the MET speed-tier table
    and decimal rounding of reported figures. Float arithmetic is modelled
    on mathematical reals. */
module Metrics {

  /** Metabolic equivalent for a speed in km/h. The tiers are half-open
      intervals [low, high) at 10, 16, 20, 24 and 28 km/h; the last is open-ended. */
  function MetFromSpeed(speedKmh: real): (met: real)
    ensures met in {3.5, 5.5, 7.0, 8.0, 10.0, 12.0}
    ensures met == 3.5 <==> speedKmh < 10.0
    ensures met == 5.5 <==> 10.0 <= speedKmh < 16.0
    ensures met == 7.0 <==> 16.0 <= speedKmh < 20.0
    ensures met == 8.0 <==> 20.0 <= speedKmh < 24.0
    ensures met == 10.0 <==> 24.0 <= speedKmh < 28.0
    ensures met == 12.0 <==> 28.0 <= speedKmh
  {
    if speedKmh < 10.0 then 3.5
    else if speedKmh < 16.0 then 5.5
    else if speedKmh < 20.0 then 7.0
    else if speedKmh < 24.0 then 8.0
    else if speedKmh < 28.0 then 10.0
    else 12.0
  }

  /** A faster rider is never assigned a lower MET value. */
  lemma MetMonotone(slower: real, faster: real)
    requires slower <= faster
    ensures MetFromSpeed(slower) <= MetFromSpeed(faster)
  {
  }

  /** 10 raised to a natural power, as a real. */
  function Pow10(n: nat): (p: real)
    ensures p >= 1.0
    ensures n > 0 ==> p >= 10.0
  {
    if n == 0 then 1.0 else 10.0 * Pow10(n - 1)
  }

  /** Round to the nearest integer, halves away from zero. */
  function RoundHalfAway(x: real): (k: int)
    ensures -0.5 <= k as real - x <= 0.5
    ensures k as real - x == 0.5 ==> x > 0.0
    ensures x - k as real == 0.5 ==> x < 0.0
  {
    if x >= 0.0 then (x + 0.5).Floor else -((-x + 0.5).Floor)
  }

  /** Rounding treats a value and its negation alike. */
  lemma RoundHalfAwayOdd(x: real)
    ensures RoundHalfAway(-x) == -RoundHalfAway(x)
  {
  }

  /** The result of RoundHalfAway is determined by its contract: any integer
      at most one half away from x, with ties broken away from zero, is it. */
  lemma RoundHalfAwayUnique(x: real, k: int)
    requires -0.5 <= k as real - x <= 0.5
    requires k as real - x == 0.5 ==> x > 0.0
    requires x - k as real == 0.5 ==> x < 0.0
    ensures k == RoundHalfAway(x)
  {
  }

  /** r is a whole multiple of 1/f: it lies on the grid that rounding to
      scale f produces. */
  predicate OnGrid(r: real, f: real) {
    (r * f).Floor as real == r * f
  }

  /** r is v rounded to the grid of multiples of 1/f: on the grid, within
      half a grid step of v, and a tie goes away from zero. */
  predicate RoundedTo(v: real, r: real, f: real) {
    && OnGrid(r, f)
    && -0.5 <= (r - v) * f <= 0.5
    && ((r - v) * f == 0.5 ==> v > 0.0)
    && ((v - r) * f == 0.5 ==> v < 0.0)
  }

  lemma WholeIsOnGrid(k: int, f: real, r: real)
    requires r * f == k as real
    ensures OnGrid(r, f)
  {
  }

  /** Round v to `places` decimal digits, halves away from zero; a negative
      number of places leaves v as it is. */
  function Round(v: real, places: int): (r: real)
    ensures places < 0 ==> r == v
    ensures places >= 0 ==> RoundedTo(v, r, Pow10(places))
  {
    if places < 0 then v else RoundToScale(v, Pow10(places))
  }

  /** Round v to the nearest multiple of 1/f, halves away from zero. */
  function RoundToScale(v: real, f: real): (r: real)
    requires f > 0.0
    ensures RoundedTo(v, r, f)
  {
    var k := RoundHalfAway(v * f);
    ScaleBack(k as real, v, f);
    WholeIsOnGrid(k, f, k as real / f);
    k as real / f
  }

  /** Dividing by a positive scale and multiplying back is the identity, and
      distances to v scale with it. */
  lemma ScaleBack(a: real, v: real, f: real)
    requires f > 0.0
    ensures (a / f) * f == a
    ensures (a / f - v) * f == a - v * f
    ensures (v - a / f) * f == v * f - a
  {
  }

  /** Rounding to a scale is determined by RoundedTo. */
  lemma RoundToScaleUnique(v: real, f: real, r: real)
    requires f > 0.0
    requires RoundedTo(v, r, f)
    ensures r == RoundToScale(v, f)
  {
    var k := (r * f).Floor;
    assert r * f == k as real;
    assert (r - v) * f == r * f - v * f;
    assert (v - r) * f == v * f - r * f;
    RoundHalfAwayUnique(v * f, k);
    ScaleBack(k as real, v, f);
    assert r == (r * f) / f;
  }

  /** Rounding is determined by RoundedTo: any value that is v rounded to
      the 10^-places grid is Round(v, places). */
  lemma RoundUnique(v: real, places: nat, r: real)
    requires RoundedTo(v, r, Pow10(places))
    ensures r == Round(v, places)
  {
    RoundToScaleUnique(v, Pow10(places), r);
  }
}
