/**
 * The scalar utilities of rtweekend.h: the constant pi, degree/radian
 * conversion, clamping, and scaling a uniform draw into an interval.
 *
 * The Mersenne-Twister behind `random_double()` is not modelled: every
 * draw is a parameter `r`, and the lemmas assume only `0 <= r < 1`, the
 * range the source documents for it.
 */
module RtWeekend {

  const Pi: real := 3.1415926535897932385

  /** A draw of `random_double()`: a real in `[0, 1)`. */
  predicate IsUnitDraw(r: real) {
    0.0 <= r < 1.0
  }

  function DegreesToRadians(degrees: real): (radians: real)
    ensures degrees == 180.0 ==> radians == Pi
    ensures degrees == 0.0 ==> radians == 0.0
  {
    degrees * Pi / 180.0
  }

  /** The conversion is linear. */
  lemma DegreesToRadiansLinear(a: real, b: real, k: real)
    ensures DegreesToRadians(a + b) == DegreesToRadians(a) + DegreesToRadians(b)
    ensures DegreesToRadians(k * a) == k * DegreesToRadians(a)
  {
    calc {
      DegreesToRadians(k * a);
      (k * a) * Pi / 180.0;
      k * (a * Pi / 180.0);
    }
  }

  function Clamp(x: real, min: real, max: real): (r: real)
    ensures min <= max ==> min <= r <= max
    ensures min <= x <= max ==> r == x
    ensures x < min ==> r == min
    ensures min <= max && x > max ==> r == max
  {
    if x < min then min
    else if x > max then max
    else x
  }

  /** Clamping twice changes nothing. */
  lemma ClampIdempotent(x: real, min: real, max: real)
    requires min <= max
    ensures Clamp(Clamp(x, min, max), min, max) == Clamp(x, min, max)
  {}

  /** Clamping preserves the order of its inputs. */
  lemma ClampMonotone(x: real, y: real, min: real, max: real)
    requires min <= max
    requires x <= y
    ensures Clamp(x, min, max) <= Clamp(y, min, max)
  {}

  /** `random_double(min, max)` given the draw `r` of `random_double()`. */
  function RandomDouble(min: real, max: real, r: real): (d: real)
    ensures IsUnitDraw(r) && min < max ==> min <= d < max
    ensures r == 0.0 ==> d == min
  {
    var width := max - min;
    var s := width * r;
    ScaledDrawBelow(width, r, s);
    min + s
  }

  /** `w * r` lies in `[0, w)` for a positive width and a unit draw, and is 0 for the draw 0. */
  lemma ScaledDrawBelow(w: real, r: real, s: real)
    requires s == w * r
    ensures IsUnitDraw(r) && w > 0.0 ==> 0.0 <= s < w
    ensures r == 0.0 ==> s == 0.0
  {
    if r == 0.0 {
      assert s == w * 0.0;
    }
    if IsUnitDraw(r) && w > 0.0 {
      var rest := 1.0 - r;
      assert s + w * rest == w;
      ProductPositive(w, rest);
      ProductNonNegative(w, r);
      assert 0.0 <= s;
      assert s < w;
    }
  }

  lemma ProductPositive(a: real, b: real)
    requires a > 0.0 && b > 0.0
    ensures a * b > 0.0
  {}

  lemma ProductNonNegative(a: real, b: real)
    requires a >= 0.0 && b >= 0.0
    ensures a * b >= 0.0
  {}
}
