/**
 * The orthonormal basis of onb.h: `build_from_w` turns a direction into
 * three mutually orthogonal axes `u`, `v`, `w`, and `local` expresses
 * coordinates in that basis as a world vector.
 *
 * `unit_vector` goes through the square-root parameter; the orthogonality
 * facts need nothing of it, the unit-length facts need it to be exact at
 * the two lengths involved.
 */
module Onb {
  import opened Vec

  /** `axis[0]`, `axis[1]`, `axis[2]` */
  datatype Onb = Onb(u: Vec3, v: Vec3, w: Vec3)

  /** `local(x, y, z)`: `x u + y v + z w` */
  function Local(b: Onb, x: real, y: real, z: real): Vec3 {
    Add(Add(Scale(x, b.u), Scale(y, b.v)), Scale(z, b.w))
  }

  /** `local(a)`, written out separately in the source. */
  function LocalVec(b: Onb, a: Vec3): Vec3 {
    Add(Add(Scale(a.x, b.u), Scale(a.y, b.v)), Scale(a.z, b.w))
  }

  /** The helper axis: the y axis when `w` is close to the x axis, else the x axis. */
  function HelperAxis(w: Vec3): (a: Vec3)
    ensures a == Vec3(0.0, 1.0, 0.0) || a == Vec3(1.0, 0.0, 0.0)
  {
    if Abs(w.x) > 0.9 then Vec3(0.0, 1.0, 0.0) else Vec3(1.0, 0.0, 0.0)
  }

  /**
   * `build_from_w(n)`. Whatever the square root, the three axes are
   * pairwise orthogonal. With a square root exact at `|n|^2` and at the
   * squared length of the cross product of `w` with the helper axis, a
   * non-zero `n` gives three unit axes.
   */
  function BuildFromW(n: Vec3, sqrt: real -> real): (b: Onb)
    ensures Dot(b.v, b.w) == 0.0 && Dot(b.u, b.w) == 0.0 && Dot(b.u, b.v) == 0.0
    ensures LengthSquared(n) > 0.0 && IsSqrtAt(sqrt, LengthSquared(n))
            && IsSqrtAt(sqrt, LengthSquared(Cross(UnitVector(n, sqrt), HelperAxis(UnitVector(n, sqrt))))) ==>
              LengthSquared(b.w) == 1.0 && LengthSquared(b.v) == 1.0 && LengthSquared(b.u) == 1.0
  {
    var w := UnitVector(n, sqrt);
    var v := UnitVector(Cross(w, HelperAxis(w)), sqrt);
    FrameOrthogonal(w, v, Cross(w, v), sqrt);
    FrameUnit(n, w, v, Cross(w, v), sqrt);
    Onb(Cross(w, v), v, w)
  }

  // -----------------------------------------------------------------------
  // local

  /** The two `local` overloads agree. */
  lemma LocalOverloadsAgree(b: Onb, x: real, y: real, z: real)
    ensures LocalVec(b, Vec3(x, y, z)) == Local(b, x, y, z)
  {}

  /** `local` is additive in its coordinates. */
  lemma LocalAdditive(b: Onb, a: Vec3, c: Vec3)
    ensures LocalVec(b, Add(a, c)) == Add(LocalVec(b, a), LocalVec(b, c))
  {
    var ac := Add(a, c);
    ScaleSum(a.x, c.x, ac.x, b.u);
    ScaleSum(a.y, c.y, ac.y, b.v);
    ScaleSum(a.z, c.z, ac.z, b.w);
    AddShuffle(Scale(a.x, b.u), Scale(a.y, b.v), Scale(a.z, b.w), Scale(c.x, b.u), Scale(c.y, b.v), Scale(c.z, b.w));
  }

  /** `(x + y) u = x u + y u`, with the sum passed in as `s`. */
  lemma ScaleSum(x: real, y: real, s: real, u: Vec3)
    requires s == x + y
    ensures Scale(s, u) == Add(Scale(x, u), Scale(y, u))
  {}

  /** `(p1 + q1) + (p2 + q2) + (p3 + q3) = (p1 + p2 + p3) + (q1 + q2 + q3)` */
  lemma AddShuffle(p1: Vec3, p2: Vec3, p3: Vec3, q1: Vec3, q2: Vec3, q3: Vec3)
    ensures Add(Add(Add(p1, q1), Add(p2, q2)), Add(p3, q3)) == Add(Add(Add(p1, p2), p3), Add(Add(q1, q2), q3))
  {}

  /** `local` commutes with scaling. */
  lemma LocalHomogeneous(b: Onb, a: Vec3, k: real)
    ensures LocalVec(b, Scale(k, a)) == Scale(k, LocalVec(b, a))
  {
    var p, q, r := Scale(a.x, b.u), Scale(a.y, b.v), Scale(a.z, b.w);
    var ka := Scale(k, a);
    ScaleTwice(k, a.x, ka.x, b.u);
    ScaleTwice(k, a.y, ka.y, b.v);
    ScaleTwice(k, a.z, ka.z, b.w);
    ScaleAdd(k, p, q);
    ScaleAdd(k, Add(p, q), r);
  }

  /** `(k x) u = k (x u)`, with the product passed in as `kx`. */
  lemma ScaleTwice(k: real, x: real, kx: real, u: Vec3)
    requires kx == k * x
    ensures Scale(kx, u) == Scale(k, Scale(x, u))
  {
    assert kx * u.x == k * (x * u.x);
    assert kx * u.y == k * (x * u.y);
    assert kx * u.z == k * (x * u.z);
  }

  /** `k (p + q) = k p + k q` */
  lemma ScaleAdd(k: real, p: Vec3, q: Vec3)
    ensures Scale(k, Add(p, q)) == Add(Scale(k, p), Scale(k, q))
  {}

  /** The coordinate axes go to the basis axes; in particular `local(0, 0, 1)` is `w`. */
  lemma LocalAxes(b: Onb)
    ensures Local(b, 1.0, 0.0, 0.0) == b.u
    ensures Local(b, 0.0, 1.0, 0.0) == b.v
    ensures Local(b, 0.0, 0.0, 1.0) == b.w
  {
    assert Scale(1.0, b.u) == b.u && Scale(1.0, b.v) == b.v && Scale(1.0, b.w) == b.w;
    assert Scale(0.0, b.u) == Zero && Scale(0.0, b.v) == Zero && Scale(0.0, b.w) == Zero;
  }

  /** In an orthonormal basis, the `w` coordinate of `local(a)` is `a.z`. */
  lemma LocalAlongW(b: Onb, a: Vec3)
    requires Dot(b.u, b.w) == 0.0 && Dot(b.v, b.w) == 0.0 && LengthSquared(b.w) == 1.0
    ensures Dot(LocalVec(b, a), b.w) == a.z
  {
    var p, q := Add(Scale(a.x, b.u), Scale(a.y, b.v)), Scale(a.z, b.w);
    DotAdd(p, q, b.w);
    DotAdd(Scale(a.x, b.u), Scale(a.y, b.v), b.w);
    DotScaleLeft(a.x, b.u, b.w);
    DotScaleLeft(a.y, b.v, b.w);
    DotScaleLeft(a.z, b.w, b.w);
  }

  lemma DotAdd(a: Vec3, b: Vec3, c: Vec3)
    ensures Dot(Add(a, b), c) == Dot(a, c) + Dot(b, c)
  {}

  // -----------------------------------------------------------------------
  // build_from_w

  lemma AbsSquare(x: real)
    ensures Abs(x) * Abs(x) == x * x
  {}

  /** A unit `w` is never parallel to its helper axis: their cross product has squared length at least 0.19. */
  lemma HelperNotParallel(w: Vec3)
    requires LengthSquared(w) == 1.0
    ensures LengthSquared(Cross(w, HelperAxis(w))) >= 0.19
  {
    var ax := Abs(w.x);
    AbsSquare(w.x);
    LengthSquaredNonNegative(w);
    if ax > 0.9 {
      assert Cross(w, HelperAxis(w)) == Vec3(-w.z, 0.0, w.x);
      MulStrict(0.9, ax, 0.9);
      MulStrict(0.9, ax, ax);
      assert LengthSquared(Vec3(-w.z, 0.0, w.x)) == w.z * w.z + w.x * w.x;
    } else {
      assert Cross(w, HelperAxis(w)) == Vec3(0.0, w.z, -w.y);
      MulLe(ax, 0.9, ax);
      MulLe(ax, 0.9, 0.9);
      assert LengthSquared(Vec3(0.0, w.z, -w.y)) == w.z * w.z + w.y * w.y;
    }
  }

  /** `v`, taken across `w` and the helper axis, and `u = w x v` are pairwise orthogonal with `w`, whatever the square root. */
  lemma FrameOrthogonal(w: Vec3, v: Vec3, u: Vec3, sqrt: real -> real)
    requires v == UnitVector(Cross(w, HelperAxis(w)), sqrt) && u == Cross(w, v)
    ensures Dot(v, w) == 0.0 && Dot(u, w) == 0.0 && Dot(u, v) == 0.0
  {
    var c := Cross(w, HelperAxis(w));
    UnitVectorIsMultiple(c, sqrt);
    var k :| v == Scale(k, c);
    CrossOrthogonal(w, HelperAxis(w));
    DotScaleLeft(k, c, w);
    CrossOrthogonal(w, v);
    DotSymmetric(u, w);
    DotSymmetric(u, v);
  }

  /** With the square root exact where `build_from_w` takes it, the three axes it makes from a non-zero `n` are unit vectors. */
  lemma FrameUnit(n: Vec3, w: Vec3, v: Vec3, u: Vec3, sqrt: real -> real)
    requires w == UnitVector(n, sqrt) && v == UnitVector(Cross(w, HelperAxis(w)), sqrt) && u == Cross(w, v)
    ensures LengthSquared(n) > 0.0 && IsSqrtAt(sqrt, LengthSquared(n)) && IsSqrtAt(sqrt, LengthSquared(Cross(w, HelperAxis(w)))) ==>
              LengthSquared(w) == 1.0 && LengthSquared(v) == 1.0 && LengthSquared(u) == 1.0
  {
    if LengthSquared(n) > 0.0 && IsSqrtAt(sqrt, LengthSquared(n)) && IsSqrtAt(sqrt, LengthSquared(Cross(w, HelperAxis(w)))) {
      UnitVectorIsUnit(n, sqrt);
      HelperNotParallel(w);
      UnitVectorIsUnit(Cross(w, HelperAxis(w)), sqrt);
      FrameOrthogonal(w, v, u, sqrt);
      DotSymmetric(v, w);
      ThirdAxis(w, v);
    }
  }

  /** `|a x b|^2 = |a|^2 |b|^2 - (a . b)^2` */
  lemma Lagrange(a: Vec3, b: Vec3)
    ensures LengthSquared(Cross(a, b)) == LengthSquared(a) * LengthSquared(b) - Dot(a, b) * Dot(a, b)
  {
    var c := Cross(a, b);
    assert LengthSquared(c) == c.x * c.x + c.y * c.y + c.z * c.z;
    assert c.x * c.x == a.y * a.y * b.z * b.z - 2.0 * a.y * b.z * a.z * b.y + a.z * a.z * b.y * b.y;
    assert c.y * c.y == a.z * a.z * b.x * b.x - 2.0 * a.z * b.x * a.x * b.z + a.x * a.x * b.z * b.z;
    assert c.z * c.z == a.x * a.x * b.y * b.y - 2.0 * a.x * b.y * a.y * b.x + a.y * a.y * b.x * b.x;
    var d := Dot(a, b);
    assert d * d == a.x * a.x * b.x * b.x + a.y * a.y * b.y * b.y + a.z * a.z * b.z * b.z
      + 2.0 * a.x * b.x * a.y * b.y + 2.0 * a.x * b.x * a.z * b.z + 2.0 * a.y * b.y * a.z * b.z;
    var la, lb := LengthSquared(a), LengthSquared(b);
    assert la * lb == a.x * a.x * b.x * b.x + a.x * a.x * b.y * b.y + a.x * a.x * b.z * b.z
      + a.y * a.y * b.x * b.x + a.y * a.y * b.y * b.y + a.y * a.y * b.z * b.z
      + a.z * a.z * b.x * b.x + a.z * a.z * b.y * b.y + a.z * a.z * b.z * b.z;
  }

  /** `(a x b) x c = (a . c) b - (b . c) a` */
  lemma CrossCross(a: Vec3, b: Vec3, c: Vec3)
    ensures Cross(Cross(a, b), c) == Sub(Scale(Dot(a, c), b), Scale(Dot(b, c), a))
  {
    CrossCrossX(a, b, c);
    CrossCrossY(a, b, c);
    CrossCrossZ(a, b, c);
    ComponentsEqual(Cross(Cross(a, b), c), Sub(Scale(Dot(a, c), b), Scale(Dot(b, c), a)));
  }

  lemma CrossCrossX(a: Vec3, b: Vec3, c: Vec3)
    ensures Cross(Cross(a, b), c).x == Sub(Scale(Dot(a, c), b), Scale(Dot(b, c), a)).x
  {
    var ab := Cross(a, b);
    CrossCrossRow(a.x, a.y, a.z, b.x, b.y, b.z, c.x, c.y, c.z, ab.y, ab.z, Dot(a, c), Dot(b, c),
                  Cross(ab, c).x, Sub(Scale(Dot(a, c), b), Scale(Dot(b, c), a)).x);
  }

  lemma CrossCrossY(a: Vec3, b: Vec3, c: Vec3)
    ensures Cross(Cross(a, b), c).y == Sub(Scale(Dot(a, c), b), Scale(Dot(b, c), a)).y
  {
    var ab := Cross(a, b);
    CrossCrossRow(a.y, a.z, a.x, b.y, b.z, b.x, c.y, c.z, c.x, ab.z, ab.x, Dot(a, c), Dot(b, c),
                  Cross(ab, c).y, Sub(Scale(Dot(a, c), b), Scale(Dot(b, c), a)).y);
  }

  lemma CrossCrossZ(a: Vec3, b: Vec3, c: Vec3)
    ensures Cross(Cross(a, b), c).z == Sub(Scale(Dot(a, c), b), Scale(Dot(b, c), a)).z
  {
    var ab := Cross(a, b);
    CrossCrossRow(a.z, a.x, a.y, b.z, b.x, b.y, c.z, c.x, c.y, ab.x, ab.y, Dot(a, c), Dot(b, c),
                  Cross(ab, c).z, Sub(Scale(Dot(a, c), b), Scale(Dot(b, c), a)).z);
  }

  lemma ComponentsEqual(l: Vec3, r: Vec3)
    requires l.x == r.x && l.y == r.y && l.z == r.z
    ensures l == r
  {}

  /** The first component of `(a x b) x c = (a . c) b - (b . c) a`, for any cyclic order of the axes. */
  lemma CrossCrossRow(a1: real, a2: real, a3: real, b1: real, b2: real, b3: real, c1: real, c2: real, c3: real,
                      ab2: real, ab3: real, ac: real, bc: real, l: real, r: real)
    requires ab2 == a3 * b1 - a1 * b3 && ab3 == a1 * b2 - a2 * b1
    requires ac == a1 * c1 + a2 * c2 + a3 * c3 && bc == b1 * c1 + b2 * c2 + b3 * c3
    requires l == ab2 * c3 - ab3 * c2 && r == ac * b1 - bc * a1
    ensures l == r
  {
    assert ac * b1 == a1 * c1 * b1 + a2 * c2 * b1 + a3 * c3 * b1;
    assert bc * a1 == b1 * c1 * a1 + b2 * c2 * a1 + b3 * c3 * a1;
  }

  /**
   * With unit, orthogonal `w` and `v`, the third axis `u = w x v` is a unit
   * vector, and `u x v = -w`: the basis `(u, v, w)` is left-handed.
   */
  lemma ThirdAxis(w: Vec3, v: Vec3)
    requires LengthSquared(w) == 1.0 && LengthSquared(v) == 1.0 && Dot(w, v) == 0.0
    ensures LengthSquared(Cross(w, v)) == 1.0
    ensures Cross(Cross(w, v), v) == Neg(w)
  {
    Lagrange(w, v);
    CrossCross(w, v, v);
  }

  /**
   * With a square root exact at `|n|^2` and at the squared length of the
   * cross product with the helper axis, `build_from_w` of a non-zero `n`
   * gives three unit axes, `w` along `n`, and `u x v = -w`.
   */
  lemma BuildOrthonormal(n: Vec3, sqrt: real -> real)
    requires LengthSquared(n) > 0.0 && IsSqrtAt(sqrt, LengthSquared(n))
    requires IsSqrtAt(sqrt, LengthSquared(Cross(UnitVector(n, sqrt), HelperAxis(UnitVector(n, sqrt)))))
    ensures LengthSquared(BuildFromW(n, sqrt).w) == 1.0
    ensures LengthSquared(BuildFromW(n, sqrt).v) == 1.0
    ensures LengthSquared(BuildFromW(n, sqrt).u) == 1.0
    ensures Cross(BuildFromW(n, sqrt).u, BuildFromW(n, sqrt).v) == Neg(BuildFromW(n, sqrt).w)
  {
    var b := BuildFromW(n, sqrt);
    DotSymmetric(b.v, b.w);
    ThirdAxis(b.w, b.v);
  }
}
