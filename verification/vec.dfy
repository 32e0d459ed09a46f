/**
 * Vectors, points, colours and rays over the reals.
 *
 * The ray tracer's vec3.h and ray.h are not part of this model; this module
 * defines the arithmetic the modelled headers use (sum, difference, scalar
 * product, component-wise product, dot and cross product, ray evaluation)
 * directly over `real`, and the square root behind `length` and
 * `unit_vector` as a parameter.
 */
module Vec {

  datatype Vec3 = Vec3(x: real, y: real, z: real)

  /** A point in space and an RGB colour share the vector representation. */
  type Point3 = Vec3
  type Color = Vec3

  const Zero: Vec3 := Vec3(0.0, 0.0, 0.0)
  const Black: Color := Vec3(0.0, 0.0, 0.0)

  function Add(a: Vec3, b: Vec3): Vec3 {
    Vec3(a.x + b.x, a.y + b.y, a.z + b.z)
  }

  function Sub(a: Vec3, b: Vec3): Vec3 {
    Vec3(a.x - b.x, a.y - b.y, a.z - b.z)
  }

  function Neg(a: Vec3): Vec3 {
    Vec3(-a.x, -a.y, -a.z)
  }

  /** `k * a` */
  function Scale(k: real, a: Vec3): Vec3 {
    Vec3(k * a.x, k * a.y, k * a.z)
  }

  /** Component-wise product, used for colour attenuation. */
  function Mul(a: Vec3, b: Vec3): Vec3 {
    Vec3(a.x * b.x, a.y * b.y, a.z * b.z)
  }

  function Dot(a: Vec3, b: Vec3): real {
    a.x * b.x + a.y * b.y + a.z * b.z
  }

  function Cross(a: Vec3, b: Vec3): Vec3 {
    Vec3(a.y * b.z - a.z * b.y,
         a.z * b.x - a.x * b.z,
         a.x * b.y - a.y * b.x)
  }

  function LengthSquared(a: Vec3): real {
    Dot(a, a)
  }

  /** Component `i` of `v`, as `v[i]` in the source. */
  function Get(v: Vec3, i: nat): real
    requires i < 3
  {
    if i == 0 then v.x else if i == 1 then v.y else v.z
  }

  /** `v` with component `i` replaced by `c`. */
  function With(v: Vec3, i: nat, c: real): Vec3
    requires i < 3
  {
    if i == 0 then v.(x := c) else if i == 1 then v.(y := c) else v.(z := c)
  }

  /** `sqrt` behaves as the exact non-negative square root at `x`. */
  ghost predicate IsSqrtAt(sqrt: real -> real, x: real) {
    sqrt(x) >= 0.0 && sqrt(x) * sqrt(x) == x
  }

  /** `fabs` */
  function Abs(x: real): (a: real)
    ensures a >= 0.0 && (a == x || a == -x)
  {
    if x < 0.0 then -x else x
  }

  function Length(v: Vec3, sqrt: real -> real): real {
    sqrt(LengthSquared(v))
  }

  /**
   * `v / v.length()`. The source divides by zero for the zero vector; the
   * model returns the vector itself there.
   */
  function UnitVector(v: Vec3, sqrt: real -> real): Vec3 {
    var l := Length(v, sqrt);
    if l == 0.0 then v else Scale(1.0 / l, v)
  }

  /** A ray `origin + t * direction` carrying its shutter time. */
  datatype Ray = Ray(origin: Point3, direction: Vec3, time: real)

  function At(r: Ray, t: real): Point3 {
    Add(r.origin, Scale(t, r.direction))
  }

  /** The upper end of a hit interval: a finite bound or `infinity`. */
  datatype Limit = Finite(value: real) | Infinity

  /** `t` passes the source's `t > t_max` rejection. */
  predicate AtMost(t: real, m: Limit) {
    m.Infinity? || t <= m.value
  }

  /** `t < m` */
  predicate Below(t: real, m: Limit) {
    m.Infinity? || t < m.value
  }

  /** `a <= b` on the extended reals. */
  predicate LimitLe(a: Limit, b: Limit) {
    b.Infinity? || (a.Finite? && a.value <= b.value)
  }

  // ---------------------------------------------------------------------
  // Algebra used by the proofs of the other modules.

  lemma DotScaleLeft(k: real, a: Vec3, b: Vec3)
    ensures Dot(Scale(k, a), b) == k * Dot(a, b)
  {}

  lemma DotSymmetric(a: Vec3, b: Vec3)
    ensures Dot(a, b) == Dot(b, a)
  {}

  lemma DotNeg(a: Vec3, b: Vec3)
    ensures Dot(a, Neg(b)) == -Dot(a, b)
  {}

  lemma CrossOrthogonal(a: Vec3, b: Vec3)
    ensures Dot(Cross(a, b), a) == 0.0
    ensures Dot(Cross(a, b), b) == 0.0
  {}

  lemma LengthSquaredNonNegative(v: Vec3)
    ensures LengthSquared(v) >= 0.0
    ensures v.x * v.x >= 0.0 && v.y * v.y >= 0.0 && v.z * v.z >= 0.0
  {
    SquareNonNegative(v.x);
    SquareNonNegative(v.y);
    SquareNonNegative(v.z);
  }

  lemma SquareNonNegative(a: real)
    ensures a * a >= 0.0
    ensures a != 0.0 ==> a * a > 0.0
  {
    if a < 0.0 { assert a * a == (-a) * (-a); }
  }

  /**
   * The unit vector is a multiple of its argument, and a non-negative one
   * when the square root is exact at its squared length.
   */
  lemma UnitVectorIsMultiple(v: Vec3, sqrt: real -> real)
    ensures exists k: real {:trigger Scale(k, v)} :: UnitVector(v, sqrt) == Scale(k, v)
    ensures IsSqrtAt(sqrt, LengthSquared(v)) ==>
              exists k: real {:trigger Scale(k, v)} :: k >= 0.0 && UnitVector(v, sqrt) == Scale(k, v)
  {
    var l := Length(v, sqrt);
    if l == 0.0 {
      assert UnitVector(v, sqrt) == Scale(1.0, v);
    } else {
      assert UnitVector(v, sqrt) == Scale(1.0 / l, v);
      if IsSqrtAt(sqrt, LengthSquared(v)) {
        Recip(l);
      }
    }
  }

  /**
   * With an exact square root, `unit_vector` of a non-zero vector has
   * length one and points the same way as the vector: their dot product is
   * positive.
   */
  lemma UnitVectorAlong(v: Vec3, sqrt: real -> real)
    ensures LengthSquared(v) > 0.0 && IsSqrtAt(sqrt, LengthSquared(v)) ==>
              LengthSquared(UnitVector(v, sqrt)) == 1.0 && Dot(UnitVector(v, sqrt), v) > 0.0
  {
    if LengthSquared(v) > 0.0 && IsSqrtAt(sqrt, LengthSquared(v)) {
      UnitVectorIsUnit(v, sqrt);
      var l := Length(v, sqrt);
      assert l * l == LengthSquared(v);
      assert l > 0.0;
      Recip(l);
      assert UnitVector(v, sqrt) == Scale(1.0 / l, v);
      DotScaleLeft(1.0 / l, v, v);
      assert Dot(v, v) == LengthSquared(v);
      assert (1.0 / l) * LengthSquared(v) > 0.0;
    }
  }

  /** With an exact square root, `unit_vector` of a non-zero vector has length one. */
  lemma UnitVectorIsUnit(v: Vec3, sqrt: real -> real)
    requires LengthSquared(v) > 0.0
    requires IsSqrtAt(sqrt, LengthSquared(v))
    ensures LengthSquared(UnitVector(v, sqrt)) == 1.0
  {
    var l := Length(v, sqrt);
    assert l * l == LengthSquared(v);
    assert l != 0.0;
    UnitVectorOfNonZeroLength(v, sqrt);
  }

  /** The same, from a non-zero length rather than a non-zero squared length. */
  lemma UnitVectorOfNonZeroLength(v: Vec3, sqrt: real -> real)
    requires IsSqrtAt(sqrt, LengthSquared(v))
    requires Length(v, sqrt) != 0.0
    ensures LengthSquared(UnitVector(v, sqrt)) == 1.0
  {
    var l := Length(v, sqrt);
    var s := LengthSquared(v);
    assert l * l == s;
    var k := 1.0 / l;
    assert k * l == 1.0;
    calc {
      LengthSquared(Scale(k, v));
      k * k * s;
      k * k * (l * l);
      (k * l) * (k * l);
      1.0;
    }
  }

  lemma MulStrict(x: real, y: real, d: real)
    requires x < y && d > 0.0
    ensures x * d < y * d
  {
    assert y * d - x * d == (y - x) * d;
  }

  lemma MulLe(x: real, y: real, d: real)
    requires x <= y && d >= 0.0
    ensures x * d <= y * d
  {
    assert y * d - x * d == (y - x) * d;
  }

  lemma MulLeNeg(x: real, y: real, d: real)
    requires x <= y && d <= 0.0
    ensures y * d <= x * d
  {
    assert x * d - y * d == (y - x) * (-d);
  }

  lemma Recip(d: real)
    requires d != 0.0
    ensures d * (1.0 / d) == 1.0
    ensures d > 0.0 ==> 1.0 / d > 0.0
    ensures d < 0.0 ==> 1.0 / d < 0.0
  {}

  /** For positive `d`: `x / d < t` exactly when `x < t * d`, and likewise for `>`. */
  lemma QuotPos(x: real, t: real, d: real)
    requires d > 0.0
    ensures x * (1.0 / d) < t <==> x < t * d
    ensures t < x * (1.0 / d) <==> t * d < x
  {
    var i := 1.0 / d;
    Recip(d);
    assert x * i * d == x * (i * d);
    assert t * d * i == t * (d * i);
    if x * i < t { MulStrict(x * i, t, d); }
    if x < t * d { MulStrict(x, t * d, i); }
    if t < x * i { MulStrict(t, x * i, d); }
    if t * d < x { MulStrict(t * d, x, i); }
  }

  /** For negative `d` the comparisons turn round. */
  lemma QuotNeg(x: real, t: real, d: real)
    requires d < 0.0
    ensures x * (1.0 / d) < t <==> t * d < x
    ensures t < x * (1.0 / d) <==> x < t * d
  {
    var i := 1.0 / d;
    Recip(d);
    assert x * (1.0 / d) == (-x) * (1.0 / (-d));
    assert t * d == -(t * (-d));
    QuotPos(-x, t, -d);
  }

  /**
   * `n / d`, with 0 for a zero denominator. The source divides by zero in
   * some degenerate cases, where IEEE arithmetic gives an infinity or a
   * NaN; the model's callers say where they use this.
   */
  function Ratio(n: real, d: real): (q: real)
    ensures d != 0.0 ==> q * d == n
    ensures 0.0 <= n <= d ==> 0.0 <= q <= 1.0
    ensures 0.0 <= n && 0.0 < d ==> 0.0 <= q
  {
    if d == 0.0 then 0.0 else RatioBounds(n, d); n / d
  }

  lemma RatioBounds(n: real, d: real)
    requires d != 0.0
    ensures (n / d) * d == n
    ensures 0.0 <= n <= d ==> 0.0 <= n / d <= 1.0
    ensures 0.0 <= n && 0.0 < d ==> 0.0 <= n / d
  {
    if 0.0 <= n <= d {
      MulLe(n / d, 1.0, d);
    }
  }
}
