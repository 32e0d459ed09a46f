/**
 * `random_cosine_direction` of test.cpp: from two draws `r1`, `r2` it
 * builds `(cos(phi) sqrt(r2), sin(phi) sqrt(r2), sqrt(1 - r2))` with
 * `phi = 2 pi r1`. The program prints each direction's length to check
 * that it is 1; the lemmas here state why it is.
 *
 * The draws, `sqrt`, `sin` and `cos` are parameters; the lemmas assume
 * only that the draws lie in `[0, 1)`, that `sqrt` is exact where it is
 * used and that `sin(phi)^2 + cos(phi)^2 = 1`.
 */
module CosineDirection {
  import opened Vec
  import opened RtWeekend

  /** `phi = 2 * pi * r1` */
  function Phi(r1: real): real {
    2.0 * Pi * r1
  }

  /**
   * `random_cosine_direction()` from the draws `r1`, `r2`. Under the
   * assumptions `Exact` names, it is a unit vector whose height lies in
   * `(0, 1]`: a direction into the upper hemisphere, never along its rim.
   */
  function RandomCosineDirection(r1: real, r2: real, sqrt: real -> real, sin: real -> real, cos: real -> real): (d: Vec3)
    ensures Exact(r1, r2, sqrt, sin, cos) ==> LengthSquared(d) == 1.0 && 0.0 < d.z <= 1.0
  {
    var z := sqrt(1.0 - r2);
    var phi := Phi(r1);
    var x, y := cos(phi) * sqrt(r2), sin(phi) * sqrt(r2);
    DirectionFacts(r1, r2, sqrt, sin, cos, x, y, z);
    Vec3(x, y, z)
  }

  /** The assumptions the lemmas make about the draws and the transcendental functions. */
  ghost predicate Exact(r1: real, r2: real, sqrt: real -> real, sin: real -> real, cos: real -> real) {
    && IsUnitDraw(r1) && IsUnitDraw(r2)
    && IsSqrtAt(sqrt, r2) && IsSqrtAt(sqrt, 1.0 - r2)
    && sin(Phi(r1)) * sin(Phi(r1)) + cos(Phi(r1)) * cos(Phi(r1)) == 1.0
  }

  /** `(a b)^2 = a^2 b^2` */
  lemma SquareOfProduct(a: real, b: real)
    ensures (a * b) * (a * b) == (a * a) * (b * b)
  {}

  /**
   * The components `random_cosine_direction` computes: the horizontal part
   * has squared length `r2`, so the direction lies on the cylinder of
   * radius `sqrt(r2)`, and the height is in `(0, 1]` with square `1 - r2`.
   */
  lemma DirectionFacts(r1: real, r2: real, sqrt: real -> real, sin: real -> real, cos: real -> real, x: real, y: real, z: real)
    requires x == cos(Phi(r1)) * sqrt(r2) && y == sin(Phi(r1)) * sqrt(r2) && z == sqrt(1.0 - r2)
    ensures Exact(r1, r2, sqrt, sin, cos) ==> x * x + y * y == r2 && z * z == 1.0 - r2 && 0.0 < z <= 1.0
  {
    if Exact(r1, r2, sqrt, sin, cos) {
      var phi, s := Phi(r1), sqrt(r2);
      var c, n := cos(phi), sin(phi);
      SquareOfProduct(c, s);
      SquareOfProduct(n, s);
      assert (c * c) * (s * s) + (n * n) * (s * s) == (c * c + n * n) * (s * s);
      assert z * z == 1.0 - r2 && 0.0 < 1.0 - r2 <= 1.0;
      if z > 1.0 {
        MulStrict(1.0, z, z);
      }
      assert z != 0.0;
    }
  }

  /** The direction is a unit vector, so the length the program prints is 1. */
  lemma IsUnit(r1: real, r2: real, sqrt: real -> real, sin: real -> real, cos: real -> real)
    requires Exact(r1, r2, sqrt, sin, cos)
    requires IsSqrtAt(sqrt, 1.0)
    ensures Length(RandomCosineDirection(r1, r2, sqrt, sin, cos), sqrt) == 1.0
  {
    SqrtOfOne(sqrt);
  }

  /** The exact square root of 1 is 1. */
  lemma SqrtOfOne(sqrt: real -> real)
    requires IsSqrtAt(sqrt, 1.0)
    ensures sqrt(1.0) == 1.0
  {
    var s := sqrt(1.0);
    if s > 1.0 {
      MulStrict(1.0, s, s);
    } else if s < 1.0 {
      MulLe(s, 1.0, s);
    }
  }

  /**
   * The cosine of the direction with the pole is `z = sqrt(1 - r2)`, so
   * its square falls linearly with the draw: `r2` is the squared sine.
   */
  lemma CosineFromDraw(r1: real, r2: real, sqrt: real -> real, sin: real -> real, cos: real -> real)
    requires Exact(r1, r2, sqrt, sin, cos)
    ensures var v := RandomCosineDirection(r1, r2, sqrt, sin, cos);
      v.z * v.z == 1.0 - r2 && v.z >= 0.0
  {}
}
