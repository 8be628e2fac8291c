/** Numeric constants and utility functions (src/common.rs). */
module Common {
  import opened RealArith

  /** The value of `PI` the source declares; `INFINITY` is an `Ext` bound in `Intervals`. */
  const Pi: real := 3.1415926535897932385

  function DegreesToRadians(degrees: real): real {
    degrees * Pi / 180.0
  }

  /**
   * `random_range_f64(min, max)`: the uniform draw `random_f64()` is the parameter `draw`.
   */
  function RandomRange(min: real, max: real, draw: real): real {
    min + (max - min) * draw
  }

  lemma DegreesToRadiansFixedPoints()
    ensures DegreesToRadians(0.0) == 0.0
    ensures DegreesToRadians(180.0) == Pi
    ensures DegreesToRadians(90.0) == Pi / 2.0
  {
  }

  /** The conversion is linear: it respects sums and scalar multiples. */
  lemma DegreesToRadiansLinear(a: real, b: real, s: real)
    ensures DegreesToRadians(a + b) == DegreesToRadians(a) + DegreesToRadians(b)
    ensures DegreesToRadians(s * a) == s * DegreesToRadians(a)
  {
  }

  /** The conversion is strictly increasing. */
  lemma DegreesToRadiansIncreasing(a: real, b: real)
    requires a < b
    ensures DegreesToRadians(a) < DegreesToRadians(b)
  {
  }

  lemma RandomRangeEndpoints(min: real, max: real)
    ensures RandomRange(min, max, 0.0) == min
    ensures RandomRange(min, max, 1.0) == max
  {
  }

  /** A draw in [0, 1) lands in [min, max) when min < max. */
  lemma RandomRangeBounds(min: real, max: real, draw: real)
    requires min < max
    requires 0.0 <= draw < 1.0
    ensures min <= RandomRange(min, max, draw) < max
  {
    MulStrictlyMonotone(max - min, draw, 1.0);
    assert (max - min) * draw < (max - min) * 1.0;
    assert (max - min) * draw < max - min;
    MulNonNegative(max - min, draw);
  }
}
