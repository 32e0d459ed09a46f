/**
 * The triangle of triangle.h: its ray intersection by Cramer's rule, its
 * padded bounding box, its `pdf_value` and its `random` direction.
 *
 * The source keeps `t`, `u`, `v` and the box bounds in `float`; the model
 * computes them over the reals.
 */
module Triangle {
  import opened Vec
  import opened Aabb
  import opened Hittable
  import opened RtWeekend

  /**
   * A triangle with its vertices, its material and the unit normal the
   * constructor stores; the edges `e1`, `e2` are functions of the
   * vertices.
   */
  datatype Triangle = Triangle(v0: Point3, v1: Point3, v2: Point3, mat: nat, normal: Vec3)

  function E1(tri: Triangle): Vec3 { Sub(tri.v1, tri.v0) }
  function E2(tri: Triangle): Vec3 { Sub(tri.v2, tri.v0) }

  /**
   * The constructor (triangle.h:18-24). The normal is a multiple of
   * `e1 x e2`; for a non-degenerate triangle and an exact square root it is
   * the unit vector on the side of `e1 x e2`, so the winding order of the
   * vertices decides which face is the front.
   */
  function MakeTriangle(v0: Point3, v1: Point3, v2: Point3, mat: nat, sqrt: real -> real): (tri: Triangle)
    ensures E1(tri) == Sub(v1, v0) && E2(tri) == Sub(v2, v0)
    ensures exists k: real {:trigger Scale(k, Cross(E1(tri), E2(tri)))} :: tri.normal == Scale(k, Cross(E1(tri), E2(tri)))
    ensures LengthSquared(Cross(E1(tri), E2(tri))) > 0.0 && IsSqrtAt(sqrt, LengthSquared(Cross(E1(tri), E2(tri)))) ==>
              LengthSquared(tri.normal) == 1.0 && Dot(tri.normal, Cross(E1(tri), E2(tri))) > 0.0
  {
    UnitVectorIsMultiple(Cross(Sub(v1, v0), Sub(v2, v0)), sqrt);
    UnitVectorAlong(Cross(Sub(v1, v0), Sub(v2, v0)), sqrt);
    Triangle(v0, v1, v2, mat, UnitVector(Cross(Sub(v1, v0), Sub(v2, v0)), sqrt))
  }

  /** The scalar triple product `(a x b) . c`. */
  function Det(a: Vec3, b: Vec3, c: Vec3): real {
    Dot(Cross(a, b), c)
  }

  /** The point `v0 + u e1 + v e2` of the triangle's plane. */
  function PlanePoint(tri: Triangle, u: real, v: real): Point3 {
    Add(tri.v0, Add(Scale(u, E1(tri)), Scale(v, E2(tri))))
  }

  // -----------------------------------------------------------------------
  // Cramer's rule (triangle.h:37-51)

  /** `dot(s1, e1)` with `s1 = cross(d, e2)`: the determinant of the system. */
  function Den(tri: Triangle, r: Ray): real {
    Det(r.direction, E2(tri), E1(tri))
  }

  /** The solution `(t, u, v)` the source computes. */
  datatype Solution = Solution(t: real, u: real, v: real)

  /**
   * The computed `(t, u, v)` solve `origin + t direction = v0 + u e1 + v e2`:
   * the point of the ray at `t` is the plane point at `(u, v)`.
   */
  function Solve(tri: Triangle, r: Ray): (sol: Solution)
    requires Den(tri, r) != 0.0
    ensures At(r, sol.t) == PlanePoint(tri, sol.u, sol.v)
  {
    var s := Sub(r.origin, tri.v0);
    var s1 := Cross(r.direction, E2(tri));
    var s2 := Cross(s, E1(tri));
    var den := Dot(s1, E1(tri));
    var inv := 1.0 / den;
    var tN, uN, vN := Dot(s2, E2(tri)), Dot(s1, s), Dot(s2, r.direction);
    CramerSolves(r.origin, tri.v0, r.direction, E1(tri), E2(tri), s, s1, s2, den, inv, tN, uN, vN);
    Solution(tN * inv, uN * inv, vN * inv)
  }

  /**
   * The steps of `triangle::hit` up to the division, on plain vectors: the
   * quotients put `o + t d` on `v0 + u a + v b`.
   */
  lemma CramerSolves(o: Point3, v0: Point3, d: Vec3, a: Vec3, b: Vec3, s: Vec3, s1: Vec3, s2: Vec3,
                     den: real, inv: real, tN: real, uN: real, vN: real)
    requires s == Sub(o, v0) && s1 == Cross(d, b) && s2 == Cross(s, a)
    requires den == Dot(s1, a) && den != 0.0 && inv == 1.0 / den
    requires tN == Dot(s2, b) && uN == Dot(s1, s) && vN == Dot(s2, d)
    ensures Add(o, Scale(tN * inv, d)) == Add(v0, Add(Scale(uN * inv, a), Scale(vN * inv, b)))
  {
    assert CramerQuotients(s, d, a, b, den, tN, uN, vN, tN * inv, uN * inv, vN * inv);
    Solved(s, d, a, b, den, tN, uN, vN, tN * inv, uN * inv, vN * inv);
    OnPlane(o, v0, s, d, a, b, tN * inv, uN * inv, vN * inv);
  }

  /**
   * The identity behind Cramer's rule for the columns `-d`, `a`, `b`:
   * `det * s = det(s, a, b) (-d) + det(-d, s, b) a + det(-d, a, s) b`,
   * one component at a time.
   */
  lemma CramerX(s: Vec3, d: Vec3, a: Vec3, b: Vec3, den: real, tN: real, uN: real, vN: real)
    requires den == Det(d, b, a) && tN == Det(s, a, b) && uN == Det(d, b, s) && vN == Det(s, a, d)
    ensures den * s.x == -(tN * d.x) + uN * a.x + vN * b.x
  {}

  lemma CramerY(s: Vec3, d: Vec3, a: Vec3, b: Vec3, den: real, tN: real, uN: real, vN: real)
    requires den == Det(d, b, a) && tN == Det(s, a, b) && uN == Det(d, b, s) && vN == Det(s, a, d)
    ensures den * s.y == -(tN * d.y) + uN * a.y + vN * b.y
  {}

  lemma CramerZ(s: Vec3, d: Vec3, a: Vec3, b: Vec3, den: real, tN: real, uN: real, vN: real)
    requires den == Det(d, b, a) && tN == Det(s, a, b) && uN == Det(d, b, s) && vN == Det(s, a, d)
    ensures den * s.z == -(tN * d.z) + uN * a.z + vN * b.z
  {}

  /** Dividing the identity by the determinant, on one component. */
  lemma CancelComponent(den: real, tN: real, uN: real, vN: real, sx: real, dx: real, ax: real, bx: real)
    requires den != 0.0
    requires den * sx == -(tN * dx) + uN * ax + vN * bx
    ensures sx + (tN * (1.0 / den)) * dx == (uN * (1.0 / den)) * ax + (vN * (1.0 / den)) * bx
  {
    var i := 1.0 / den;
    Recip(den);
    MulOne(den * i, sx);
    calc {
      sx;
      (den * i) * sx;
      i * (den * sx);
      i * (-(tN * dx) + uN * ax + vN * bx);
      -((tN * i) * dx) + (uN * i) * ax + (vN * i) * bx;
    }
  }

  /** Cramer's quotients solve `s + t d = u a + v b`, component by component. */
  lemma Solved(s: Vec3, d: Vec3, a: Vec3, b: Vec3, den: real, tN: real, uN: real, vN: real, t: real, u: real, v: real)
    requires CramerQuotients(s, d, a, b, den, tN, uN, vN, t, u, v)
    ensures s.x + t * d.x == u * a.x + v * b.x
    ensures s.y + t * d.y == u * a.y + v * b.y
    ensures s.z + t * d.z == u * a.z + v * b.z
  {
    SolvedX(s, d, a, b, den, tN, uN, vN, t, u, v);
    SolvedY(s, d, a, b, den, tN, uN, vN, t, u, v);
    SolvedZ(s, d, a, b, den, tN, uN, vN, t, u, v);
  }

  /** Where the three component equations hold, the point `o + t d` is the point `v0 + u a + v b`. */
  lemma OnPlane(o: Point3, v0: Point3, s: Vec3, d: Vec3, a: Vec3, b: Vec3, t: real, u: real, v: real)
    requires s == Sub(o, v0)
    requires s.x + t * d.x == u * a.x + v * b.x
    requires s.y + t * d.y == u * a.y + v * b.y
    requires s.z + t * d.z == u * a.z + v * b.z
    ensures Add(o, Scale(t, d)) == Add(v0, Add(Scale(u, a), Scale(v, b)))
  {
    var p, q := Add(o, Scale(t, d)), Add(v0, Add(Scale(u, a), Scale(v, b)));
    Shift(o.x, v0.x, s.x, t, d.x, u, a.x, v, b.x, p.x, q.x);
    Shift(o.y, v0.y, s.y, t, d.y, u, a.y, v, b.y, p.y, q.y);
    Shift(o.z, v0.z, s.z, t, d.z, u, a.z, v, b.z, p.z, q.z);
  }

  /** One component of moving `s = o - base` back to `o`. */
  lemma Shift(o: real, base: real, s: real, t: real, d: real, u: real, a: real, v: real, b: real, p: real, q: real)
    requires s == o - base && s + t * d == u * a + v * b
    requires p == o + t * d && q == base + (u * a + v * b)
    ensures p == q
  {}


  /** The numerators and the determinant of Cramer's rule, and the quotients taken from them. */
  predicate CramerQuotients(s: Vec3, d: Vec3, a: Vec3, b: Vec3, den: real, tN: real, uN: real, vN: real, t: real, u: real, v: real) {
    && den == Det(d, b, a) && den != 0.0
    && tN == Det(s, a, b) && uN == Det(d, b, s) && vN == Det(s, a, d)
    && t == tN * (1.0 / den) && u == uN * (1.0 / den) && v == vN * (1.0 / den)
  }

  lemma SolvedX(s: Vec3, d: Vec3, a: Vec3, b: Vec3, den: real, tN: real, uN: real, vN: real, t: real, u: real, v: real)
    requires CramerQuotients(s, d, a, b, den, tN, uN, vN, t, u, v)
    ensures s.x + t * d.x == u * a.x + v * b.x
  {
    CramerX(s, d, a, b, den, tN, uN, vN);
    SolvedComponent(den, tN, uN, vN, s.x, d.x, a.x, b.x, t, u, v);
  }

  lemma SolvedY(s: Vec3, d: Vec3, a: Vec3, b: Vec3, den: real, tN: real, uN: real, vN: real, t: real, u: real, v: real)
    requires CramerQuotients(s, d, a, b, den, tN, uN, vN, t, u, v)
    ensures s.y + t * d.y == u * a.y + v * b.y
  {
    CramerY(s, d, a, b, den, tN, uN, vN);
    SolvedComponent(den, tN, uN, vN, s.y, d.y, a.y, b.y, t, u, v);
  }

  lemma SolvedZ(s: Vec3, d: Vec3, a: Vec3, b: Vec3, den: real, tN: real, uN: real, vN: real, t: real, u: real, v: real)
    requires CramerQuotients(s, d, a, b, den, tN, uN, vN, t, u, v)
    ensures s.z + t * d.z == u * a.z + v * b.z
  {
    CramerZ(s, d, a, b, den, tN, uN, vN);
    SolvedComponent(den, tN, uN, vN, s.z, d.z, a.z, b.z, t, u, v);
  }

  /** Cramer's rule on one component, with the numerators and quotients as plain numbers. */
  lemma SolvedComponent(den: real, tN: real, uN: real, vN: real, sx: real, dx: real, ax: real, bx: real, t: real, u: real, v: real)
    requires den != 0.0
    requires den * sx == -(tN * dx) + uN * ax + vN * bx
    requires t == tN * (1.0 / den) && u == uN * (1.0 / den) && v == vN * (1.0 / den)
    ensures sx + t * dx == u * ax + v * bx
  {
    CancelComponent(den, tN, uN, vN, sx, dx, ax, bx);
  }

  /** The combination `-t d + u a + v b`. */
  function Combination(d: Vec3, a: Vec3, b: Vec3, t: real, u: real, v: real): Vec3 {
    Add(Scale(-t, d), Add(Scale(u, a), Scale(v, b)))
  }

  /** The triple products of a combination `-t d + u a + v b` pick out its coefficients. */
  lemma DetOfCombination(d: Vec3, a: Vec3, b: Vec3, t: real, u: real, v: real)
    ensures Det(Combination(d, a, b, t, u, v), a, b) == t * Det(d, b, a)
    ensures Det(d, b, Combination(d, a, b, t, u, v)) == u * Det(d, b, a)
    ensures Det(Combination(d, a, b, t, u, v), a, d) == v * Det(d, b, a)
  {
    DetCombinationT(d, a, b, t, u, v);
    DetCombinationU(d, a, b, t, u, v);
    DetCombinationV(d, a, b, t, u, v);
  }

  lemma DetCombinationT(d: Vec3, a: Vec3, b: Vec3, t: real, u: real, v: real)
    ensures Det(Combination(d, a, b, t, u, v), a, b) == t * Det(d, b, a)
  {
    var c := Combination(d, a, b, t, u, v);
    var x := Det(Scale(-t, d), a, b);
    var y := Det(Add(Scale(u, a), Scale(v, b)), a, b);
    assert Det(c, a, b) == x + y by {
      DetLinearFirst(Scale(-t, d), Add(Scale(u, a), Scale(v, b)), a, b);
    }
    assert y == 0.0 by {
      DetLinearFirst(Scale(u, a), Scale(v, b), a, b);
      DetScale(u, a, a, b);
      DetScale(v, b, a, b);
      DetFacts(d, a, b);
    }
    assert x == t * Det(d, b, a) by {
      DetScale(-t, d, a, b);
      DetFacts(d, a, b);
      NegNeg(t, Det(d, a, b), Det(d, b, a));
    }
  }

  lemma DetCombinationU(d: Vec3, a: Vec3, b: Vec3, t: real, u: real, v: real)
    ensures Det(d, b, Combination(d, a, b, t, u, v)) == u * Det(d, b, a)
  {
    var x := Det(d, b, Scale(-t, d));
    var y := Det(d, b, Scale(u, a));
    var z := Det(d, b, Scale(v, b));
    assert Det(d, b, Combination(d, a, b, t, u, v)) == x + (y + z) by {
      DetLinearLast(d, b, Scale(-t, d), Add(Scale(u, a), Scale(v, b)));
      DetLinearLast(d, b, Scale(u, a), Scale(v, b));
    }
    assert x == 0.0 && z == 0.0 by {
      DetScale(-t, d, d, b);
      DetScale(v, b, d, b);
      DetFacts(d, a, b);
    }
    assert y == u * Det(d, b, a) by {
      DetScale(u, a, d, b);
    }
  }

  lemma DetCombinationV(d: Vec3, a: Vec3, b: Vec3, t: real, u: real, v: real)
    ensures Det(Combination(d, a, b, t, u, v), a, d) == v * Det(d, b, a)
  {
    var x := Det(Scale(-t, d), a, d);
    var y := Det(Scale(u, a), a, d);
    var z := Det(Scale(v, b), a, d);
    assert Det(Combination(d, a, b, t, u, v), a, d) == x + (y + z) by {
      DetLinearFirst(Scale(-t, d), Add(Scale(u, a), Scale(v, b)), a, d);
      DetLinearFirst(Scale(u, a), Scale(v, b), a, d);
    }
    assert x == 0.0 && y == 0.0 by {
      DetScale(-t, d, a, d);
      DetScale(u, a, a, d);
      DetFacts(d, a, b);
    }
    assert z == v * Det(d, b, a) by {
      DetScale(v, b, a, d);
      DetFacts(d, a, b);
    }
  }

  /** `(-t) x = t y` when `x = -y`. */
  lemma NegNeg(t: real, x: real, y: real)
    requires x == -y
    ensures (-t) * x == t * y
  {}

  lemma DetLinearFirst(x: Vec3, y: Vec3, a: Vec3, b: Vec3)
    ensures Det(Add(x, y), a, b) == Det(x, a, b) + Det(y, a, b)
  {}

  lemma DetLinearLast(a: Vec3, b: Vec3, x: Vec3, y: Vec3)
    ensures Det(a, b, Add(x, y)) == Det(a, b, x) + Det(a, b, y)
  {
    var c := Cross(a, b);
    assert Det(a, b, Add(x, y)) == c.x * (x.x + y.x) + c.y * (x.y + y.y) + c.z * (x.z + y.z);
  }

  lemma DetScale(k: real, x: Vec3, a: Vec3, b: Vec3)
    ensures Det(Scale(k, x), a, b) == k * Det(x, a, b)
    ensures Det(a, b, Scale(k, x)) == k * Det(a, b, x)
  {
    DotSymmetric(Cross(a, b), Scale(k, x));
    DotScaleLeft(k, x, Cross(a, b));
    DotSymmetric(x, Cross(a, b));
    DetCyclic(Scale(k, x), a, b);
    DetCyclic(x, a, b);
  }

  /** `det(x, a, b) = det(a, b, x)` */
  lemma DetCyclic(x: Vec3, a: Vec3, b: Vec3)
    ensures Det(x, a, b) == Det(a, b, x)
  {
    assert Det(x, a, b) == x.y * a.z * b.x - x.z * a.y * b.x + x.z * a.x * b.y - x.x * a.z * b.y + x.x * a.y * b.z - x.y * a.x * b.z;
    assert Det(a, b, x) == a.y * b.z * x.x - a.z * b.y * x.x + a.z * b.x * x.y - a.x * b.z * x.y + a.x * b.y * x.z - a.y * b.x * x.z;
  }

  lemma MulOne(k: real, x: real)
    requires k == 1.0
    ensures k * x == x
  {}

  /** The triple product vanishes on a repeated vector, changes sign on a swap and is cyclic. */
  lemma DetFacts(d: Vec3, a: Vec3, b: Vec3)
    ensures Det(a, a, b) == 0.0 && Det(b, a, b) == 0.0
    ensures Det(d, b, d) == 0.0 && Det(d, b, b) == 0.0
    ensures Det(d, a, d) == 0.0 && Det(a, a, d) == 0.0
    ensures Det(d, a, b) == -Det(d, b, a)
    ensures Det(b, a, d) == Det(d, b, a)
  {
    assert Cross(a, a) == Zero;
    CrossOrthogonal(b, a);
    CrossOrthogonal(d, b);
    CrossOrthogonal(d, a);
    DetCyclic(b, a, d);
    DetCyclic(a, d, b);
  }

  /**
   * The system has only one solution: a parameter and coordinates that put
   * the ray on the plane point are the ones the source computes.
   */
  lemma SolveUnique(tri: Triangle, r: Ray, t: real, u: real, v: real)
    requires Den(tri, r) != 0.0
    requires At(r, t) == PlanePoint(tri, u, v)
    ensures Solve(tri, r) == Solution(t, u, v)
  {
    var s, d, a, b := Sub(r.origin, tri.v0), r.direction, E1(tri), E2(tri);
    CombinationFromPlane(r.origin, tri.v0, d, a, b, t, u, v);
    CramerUnique(s, d, a, b, t, u, v);
    SolveValue(tri, r, s, d, a, b);
  }

  /** For a combination `s = -t d + u a + v b`, Cramer's quotients give back `t`, `u` and `v`. */
  lemma CramerUnique(s: Vec3, d: Vec3, a: Vec3, b: Vec3, t: real, u: real, v: real)
    requires Det(d, b, a) != 0.0 && s == Combination(d, a, b, t, u, v)
    ensures Det(s, a, b) * (1.0 / Det(d, b, a)) == t
    ensures Det(d, b, s) * (1.0 / Det(d, b, a)) == u
    ensures Det(s, a, d) * (1.0 / Det(d, b, a)) == v
  {
    var den := Det(d, b, a);
    DetOfCombination(d, a, b, t, u, v);
    DivideBack(t, den, Det(s, a, b));
    DivideBack(u, den, Det(d, b, s));
    DivideBack(v, den, Det(s, a, d));
  }

  /** `Solve` divides the three determinants of Cramer's rule by the system's. */
  lemma SolveValue(tri: Triangle, r: Ray, s: Vec3, d: Vec3, a: Vec3, b: Vec3)
    requires s == Sub(r.origin, tri.v0) && d == r.direction && a == E1(tri) && b == E2(tri)
    requires Det(d, b, a) != 0.0
    ensures Solve(tri, r) == Solution(Det(s, a, b) * (1.0 / Det(d, b, a)), Det(d, b, s) * (1.0 / Det(d, b, a)),
                                      Det(s, a, d) * (1.0 / Det(d, b, a)))
  {}

  /** A point of the ray that is a plane point makes `origin - v0` the combination `-t d + u a + v b`. */
  lemma CombinationFromPlane(o: Point3, v0: Point3, d: Vec3, a: Vec3, b: Vec3, t: real, u: real, v: real)
    requires Add(o, Scale(t, d)) == Add(v0, Add(Scale(u, a), Scale(v, b)))
    ensures Sub(o, v0) == Combination(d, a, b, t, u, v)
  {}

  /** A numerator that is `x` times the determinant gives back `x` when divided by it. */
  lemma DivideBack(x: real, den: real, n: real)
    requires den != 0.0 && n == x * den
    ensures n * (1.0 / den) == x
  {
    Recip(den);
    assert x * den * (1.0 / den) == x * (den * (1.0 / den));
  }

  // -----------------------------------------------------------------------
  // triangle::hit (triangle.h:35-63)

  /** Barycentric coordinates inside the triangle, as the range checks accept them. */
  predicate InTriangle(u: real, v: real) {
    0.0 <= u <= 1.0 && 0.0 <= v && u + v <= 1.0
  }

  /**
   * `triangle::hit`. A zero determinant makes the source divide by zero;
   * the model reports a miss there.
   */
  function TriangleHit(tri: Triangle, r: Ray, tMin: real, tMax: Limit, rec: HitRecord): (o: Outcome)
    ensures !o.hit ==> o.rec == rec
  {
    if Den(tri, r) == 0.0 then Outcome(false, rec)
    else
      var sol := Solve(tri, r);
      if sol.t < tMin || !AtMost(sol.t, tMax) then Outcome(false, rec)
      else if sol.u < 0.0 || sol.u > 1.0 then Outcome(false, rec)
      else if sol.v < 0.0 || sol.u + sol.v > 1.0 then Outcome(false, rec)
      else
        var withTuv := rec.(t := sol.t, u := sol.u, v := sol.v);
        Outcome(true, SetFaceNormal(withTuv, r, tri.normal).(mat := tri.mat, p := At(r, sol.t)))
  }

  /** A triangle as the `HitFn` the wrappers take. */
  function TriangleHitFn(tri: Triangle): HitFn {
    (r, tMin, tMax, rec) => TriangleHit(tri, r, tMin, tMax, rec)
  }

  /**
   * A reported hit is at a parameter in `[t_min, t_max]`, with barycentric
   * coordinates inside the triangle, at the point of the ray with that
   * parameter, which is the point `v0 + u e1 + v e2`; its normal is the
   * triangle's, oriented against the ray.
   */
  lemma TriangleHitSound(tri: Triangle, r: Ray, tMin: real, tMax: Limit, rec: HitRecord)
    requires TriangleHit(tri, r, tMin, tMax, rec).hit
    ensures tMin <= TriangleHit(tri, r, tMin, tMax, rec).rec.t
    ensures AtMost(TriangleHit(tri, r, tMin, tMax, rec).rec.t, tMax)
    ensures InTriangle(TriangleHit(tri, r, tMin, tMax, rec).rec.u, TriangleHit(tri, r, tMin, tMax, rec).rec.v)
    ensures TriangleHit(tri, r, tMin, tMax, rec).rec.p == At(r, TriangleHit(tri, r, tMin, tMax, rec).rec.t)
    ensures TriangleHit(tri, r, tMin, tMax, rec).rec.p
         == PlanePoint(tri, TriangleHit(tri, r, tMin, tMax, rec).rec.u, TriangleHit(tri, r, tMin, tMax, rec).rec.v)
    ensures TriangleHit(tri, r, tMin, tMax, rec).rec.mat == tri.mat
    ensures TriangleHit(tri, r, tMin, tMax, rec).rec.frontFace <==> Dot(r.direction, tri.normal) < 0.0
    ensures Dot(r.direction, TriangleHit(tri, r, tMin, tMax, rec).rec.normal) <= 0.0
  {}

  /**
   * Conversely, for a ray not parallel to a non-degenerate triangle, every
   * point `v0 + u e1 + v e2` of the triangle the ray reaches at a
   * parameter in `[t_min, t_max]` is reported, with that parameter and
   * those coordinates.
   */
  lemma TriangleHitComplete(tri: Triangle, r: Ray, tMin: real, tMax: Limit, rec: HitRecord, t: real, u: real, v: real)
    requires Den(tri, r) != 0.0
    requires tMin <= t && AtMost(t, tMax) && InTriangle(u, v)
    requires At(r, t) == PlanePoint(tri, u, v)
    ensures TriangleHit(tri, r, tMin, tMax, rec).hit
    ensures TriangleHit(tri, r, tMin, tMax, rec).rec.t == t
    ensures TriangleHit(tri, r, tMin, tMax, rec).rec.u == u
    ensures TriangleHit(tri, r, tMin, tMax, rec).rec.v == v
  {
    SolveUnique(tri, r, t, u, v);
  }

  // -----------------------------------------------------------------------
  // triangle::bounding_box (triangle.h:65-92)

  function Min3(a: real, b: real, c: real): real { Min(a, Min(b, c)) }
  function Max3(a: real, b: real, c: real): real { Max(a, Max(b, c)) }

  /** One axis of the box: widened by 0.0001 on both sides when thinner than 0.0001. */
  function Pad(lo: real, hi: real): (b: (real, real))
    ensures b.0 <= lo && hi <= b.1
    ensures lo <= hi ==> b.1 - b.0 >= 0.0001
    ensures hi - lo >= 0.0001 ==> b == (lo, hi)
  {
    if hi - lo < 0.0001 then (lo - 0.0001, hi + 0.0001) else (lo, hi)
  }

  function TriangleBox(tri: Triangle): (b: Box)
    ensures var lo, hi := Min3(tri.v0.x, tri.v1.x, tri.v2.x), Max3(tri.v0.x, tri.v1.x, tri.v2.x);
      b.minimum.x <= lo && hi <= b.maximum.x && (hi - lo >= 0.0001 ==> b.minimum.x == lo && b.maximum.x == hi)
    ensures var lo, hi := Min3(tri.v0.y, tri.v1.y, tri.v2.y), Max3(tri.v0.y, tri.v1.y, tri.v2.y);
      b.minimum.y <= lo && hi <= b.maximum.y && (hi - lo >= 0.0001 ==> b.minimum.y == lo && b.maximum.y == hi)
    ensures var lo, hi := Min3(tri.v0.z, tri.v1.z, tri.v2.z), Max3(tri.v0.z, tri.v1.z, tri.v2.z);
      b.minimum.z <= lo && hi <= b.maximum.z && (hi - lo >= 0.0001 ==> b.minimum.z == lo && b.maximum.z == hi)
  {
    var x := Pad(Min3(tri.v0.x, tri.v1.x, tri.v2.x), Max3(tri.v0.x, tri.v1.x, tri.v2.x));
    var y := Pad(Min3(tri.v0.y, tri.v1.y, tri.v2.y), Max3(tri.v0.y, tri.v1.y, tri.v2.y));
    var z := Pad(Min3(tri.v0.z, tri.v1.z, tri.v2.z), Max3(tri.v0.z, tri.v1.z, tri.v2.z));
    Box(Vec3(x.0, y.0, z.0), Vec3(x.1, y.1, z.1))
  }

  /** After padding, no axis of the box is thinner than 0.0001. */
  lemma TriangleBoxThick(tri: Triangle)
    ensures forall a: nat :: a < 3 ==> Get(TriangleBox(tri).maximum, a) - Get(TriangleBox(tri).minimum, a) >= 0.0001
  {}

  /** A convex combination of three numbers in `[m, n]` lies in `[m, n]`. */
  lemma ConvexBetween(a: real, b: real, c: real, u: real, v: real, m: real, n: real, q: real)
    requires InTriangle(u, v)
    requires m <= a <= n && m <= b <= n && m <= c <= n
    requires q == a + (u * (b - a) + v * (c - a))
    ensures m <= q <= n
  {
    ConvexAbove(a - m, b - m, c - m, u, v);
    ConvexAbove(n - a, n - b, n - c, u, v);
    assert a + (u * (b - a) + v * (c - a)) - m == (a - m) + (u * ((b - m) - (a - m)) + v * ((c - m) - (a - m)));
    assert n - (a + (u * (b - a) + v * (c - a))) == (n - a) + (u * ((n - b) - (n - a)) + v * ((n - c) - (n - a)));
  }

  /** A convex combination of three non-negative numbers is non-negative. */
  lemma ConvexAbove(a: real, b: real, c: real, u: real, v: real)
    requires InTriangle(u, v)
    requires 0.0 <= a && 0.0 <= b && 0.0 <= c
    ensures 0.0 <= a + (u * (b - a) + v * (c - a))
  {
    var w := 1.0 - u - v;
    assert a + (u * (b - a) + v * (c - a)) == a * w + b * u + c * v;
    MulLe(0.0, a, w);
    MulLe(0.0, b, u);
    MulLe(0.0, c, v);
    assert 0.0 <= a * w && 0.0 <= b * u && 0.0 <= c * v;
  }

  /** Each axis of the box spans the vertices' coordinates on that axis. */
  lemma TriangleBoxBounds(tri: Triangle)
    ensures TriangleBox(tri).minimum.x <= tri.v0.x <= TriangleBox(tri).maximum.x
    ensures TriangleBox(tri).minimum.x <= tri.v1.x <= TriangleBox(tri).maximum.x
    ensures TriangleBox(tri).minimum.x <= tri.v2.x <= TriangleBox(tri).maximum.x
    ensures TriangleBox(tri).minimum.y <= tri.v0.y <= TriangleBox(tri).maximum.y
    ensures TriangleBox(tri).minimum.y <= tri.v1.y <= TriangleBox(tri).maximum.y
    ensures TriangleBox(tri).minimum.y <= tri.v2.y <= TriangleBox(tri).maximum.y
    ensures TriangleBox(tri).minimum.z <= tri.v0.z <= TriangleBox(tri).maximum.z
    ensures TriangleBox(tri).minimum.z <= tri.v1.z <= TriangleBox(tri).maximum.z
    ensures TriangleBox(tri).minimum.z <= tri.v2.z <= TriangleBox(tri).maximum.z
  {}

  /** Along `x`, a convex combination of three points between `m` and `n` stays between them. */
  lemma ConvexX(a: Point3, b: Point3, c: Point3, u: real, v: real, m: real, n: real)
    requires InTriangle(u, v)
    requires m <= a.x <= n && m <= b.x <= n && m <= c.x <= n
    ensures m <= Add(a, Add(Scale(u, Sub(b, a)), Scale(v, Sub(c, a)))).x <= n
  {
    var p := Add(a, Add(Scale(u, Sub(b, a)), Scale(v, Sub(c, a))));
    ConvexBetween(a.x, b.x, c.x, u, v, m, n, p.x);
  }

  /** Along `y`, likewise. */
  lemma ConvexY(a: Point3, b: Point3, c: Point3, u: real, v: real, m: real, n: real)
    requires InTriangle(u, v)
    requires m <= a.y <= n && m <= b.y <= n && m <= c.y <= n
    ensures m <= Add(a, Add(Scale(u, Sub(b, a)), Scale(v, Sub(c, a)))).y <= n
  {
    var p := Add(a, Add(Scale(u, Sub(b, a)), Scale(v, Sub(c, a))));
    ConvexBetween(a.y, b.y, c.y, u, v, m, n, p.y);
  }

  /** Along `z`, likewise. */
  lemma ConvexZ(a: Point3, b: Point3, c: Point3, u: real, v: real, m: real, n: real)
    requires InTriangle(u, v)
    requires m <= a.z <= n && m <= b.z <= n && m <= c.z <= n
    ensures m <= Add(a, Add(Scale(u, Sub(b, a)), Scale(v, Sub(c, a)))).z <= n
  {
    var p := Add(a, Add(Scale(u, Sub(b, a)), Scale(v, Sub(c, a))));
    ConvexBetween(a.z, b.z, c.z, u, v, m, n, p.z);
  }

  /** A box holding three points holds every convex combination of them. */
  lemma BoxConvex(bx: Box, a: Point3, b: Point3, c: Point3, u: real, v: real)
    requires InBox(bx, a) && InBox(bx, b) && InBox(bx, c)
    requires InTriangle(u, v)
    ensures InBox(bx, Add(a, Add(Scale(u, Sub(b, a)), Scale(v, Sub(c, a)))))
  {
    InBoxCoordinates(bx, a);
    InBoxCoordinates(bx, b);
    InBoxCoordinates(bx, c);
    ConvexX(a, b, c, u, v, bx.minimum.x, bx.maximum.x);
    ConvexY(a, b, c, u, v, bx.minimum.y, bx.maximum.y);
    ConvexZ(a, b, c, u, v, bx.minimum.z, bx.maximum.z);
    CoordinatesInBox(bx, Add(a, Add(Scale(u, Sub(b, a)), Scale(v, Sub(c, a)))));
  }

  /** The box contains the three vertices. */
  lemma TriangleBoxContainsVertices(tri: Triangle)
    ensures InBox(TriangleBox(tri), tri.v0)
    ensures InBox(TriangleBox(tri), tri.v1)
    ensures InBox(TriangleBox(tri), tri.v2)
  {
    TriangleBoxBounds(tri);
    CoordinatesInBox(TriangleBox(tri), tri.v0);
    CoordinatesInBox(TriangleBox(tri), tri.v1);
    CoordinatesInBox(TriangleBox(tri), tri.v2);
  }

  /** The box contains every point of the triangle. */
  lemma TriangleBoxContains(tri: Triangle, u: real, v: real)
    requires InTriangle(u, v)
    ensures InBox(TriangleBox(tri), PlanePoint(tri, u, v))
  {
    TriangleBoxContainsVertices(tri);
    BoxConvex(TriangleBox(tri), tri.v0, tri.v1, tri.v2, u, v);
  }

  /** So every hit point lies in the box. */
  lemma TriangleHitInBox(tri: Triangle, r: Ray, tMin: real, tMax: Limit, rec: HitRecord)
    requires TriangleHit(tri, r, tMin, tMax, rec).hit
    ensures InBox(TriangleBox(tri), TriangleHit(tri, r, tMin, tMax, rec).rec.p)
  {
    TriangleHitSound(tri, r, tMin, tMax, rec);
    TriangleBoxContains(tri, TriangleHit(tri, r, tMin, tMax, rec).rec.u, TriangleHit(tri, r, tMin, tMax, rec).rec.v);
  }

  // -----------------------------------------------------------------------
  // triangle::pdf_value and triangle::random (triangle.h:94-114)

  /**
   * `triangle::pdf_value`: zero when `ray(origin, direction)` misses the
   * triangle, else the solid-angle density `distance^2 / (cosine * area)`
   * of the hit. A zero `direction` length or a zero `cosine * area`
   * divides by zero in the source; `Ratio` gives 0 there.
   */
  function PdfValue(tri: Triangle, origin: Point3, direction: Vec3, sqrt: real -> real): (p: real)
    ensures !TriangleHit(tri, Ray(origin, direction, 0.0), 0.001, Infinity, Blank).hit ==> p == 0.0
  {
    var o := TriangleHit(tri, Ray(origin, direction, 0.0), 0.001, Infinity, Blank);
    if !o.hit then 0.0
    else
      var area := 0.5 * Length(Cross(E1(tri), E2(tri)), sqrt);
      var distanceSquared := o.rec.t * o.rec.t * LengthSquared(direction);
      var cosine := Abs(Ratio(Dot(direction, o.rec.normal), Length(direction, sqrt)));
      Ratio(distanceSquared, cosine * area)
  }

  /** With a non-negative square root for the area, the density is never negative. */
  lemma PdfValueNonNegative(tri: Triangle, origin: Point3, direction: Vec3, sqrt: real -> real)
    requires sqrt(LengthSquared(Cross(E1(tri), E2(tri)))) >= 0.0
    ensures PdfValue(tri, origin, direction, sqrt) >= 0.0
  {
    var o := TriangleHit(tri, Ray(origin, direction, 0.0), 0.001, Infinity, Blank);
    if o.hit {
      var area := 0.5 * Length(Cross(E1(tri), E2(tri)), sqrt);
      var distanceSquared := o.rec.t * o.rec.t * LengthSquared(direction);
      var cosine := Abs(Ratio(Dot(direction, o.rec.normal), Length(direction, sqrt)));
      SquareNonNegative(o.rec.t);
      LengthSquaredNonNegative(direction);
      MulLe(0.0, o.rec.t * o.rec.t, LengthSquared(direction));
      MulLe(0.0, cosine, area);
      assert distanceSquared >= 0.0 && cosine * area >= 0.0;
    }
  }

  /**
   * The two draws of `triangle::random` from the unit draws `d1`, `d2`:
   * `random_u` in `[0, 1)`, then `random_v` in `[0, 1 - random_u)`.
   */
  function RandomWeights(d1: real, d2: real): (w: (real, real))
    ensures IsUnitDraw(d1) && IsUnitDraw(d2) ==> InTriangle(w.0, w.1) && w.0 + w.1 < 1.0
  {
    var ru := RandomDouble(0.0, 1.0, d1);
    (ru, RandomDouble(0.0, 1.0 - ru, d2))
  }

  /** `triangle::random` as written: `e1 * random_u + e2 * random_v`, whatever the origin. */
  function RandomAsWritten(tri: Triangle, origin: Point3, d1: real, d2: real): (d: Vec3)
    ensures Add(tri.v0, d) == PlanePoint(tri, RandomWeights(d1, d2).0, RandomWeights(d1, d2).1)
  {
    var w := RandomWeights(d1, d2);
    Add(Scale(w.0, E1(tri)), Scale(w.1, E2(tri)))
  }

  /**
   * The direction as written lies in the plane of the triangle's edges, so
   * the ray along it is parallel to the triangle: the determinant of the
   * hit vanishes, the ray misses and the density of the sampled direction
   * is zero, for every triangle, origin and pair of draws.
   */
  lemma RandomAsWrittenParallel(tri: Triangle, origin: Point3, d1: real, d2: real, sqrt: real -> real)
    ensures Den(tri, Ray(origin, RandomAsWritten(tri, origin, d1, d2), 0.0)) == 0.0
    ensures !TriangleHit(tri, Ray(origin, RandomAsWritten(tri, origin, d1, d2), 0.0), 0.001, Infinity, Blank).hit
    ensures PdfValue(tri, origin, RandomAsWritten(tri, origin, d1, d2), sqrt) == 0.0
  {
    var w := RandomWeights(d1, d2);
    var a, b := E1(tri), E2(tri);
    DetLinearFirst(Scale(w.0, a), Scale(w.1, b), b, a);
    DetScale(w.0, a, b, a);
    DetScale(w.1, b, b, a);
    DetFacts(a, b, b);
  }

  /**
   * The evidently intended `random`: the direction from `origin` to the
   * sampled point `v0 + random_u e1 + random_v e2` of the triangle.
   */
  function RandomToward(tri: Triangle, origin: Point3, d1: real, d2: real): (d: Vec3)
    ensures Add(origin, d) == PlanePoint(tri, RandomWeights(d1, d2).0, RandomWeights(d1, d2).1)
  {
    var w := RandomWeights(d1, d2);
    Sub(PlanePoint(tri, w.0, w.1), origin)
  }

  /** The determinant along the corrected direction does not depend on the draws. */
  lemma RandomTowardDen(tri: Triangle, origin: Point3, d1: real, d2: real)
    ensures Den(tri, Ray(origin, RandomToward(tri, origin, d1, d2), 0.0)) == Det(Sub(tri.v0, origin), E2(tri), E1(tri))
  {
    var w := RandomWeights(d1, d2);
    var a, b := E1(tri), E2(tri);
    var q := Sub(tri.v0, origin);
    assert RandomToward(tri, origin, d1, d2) == Add(q, Add(Scale(w.0, a), Scale(w.1, b)));
    DetLinearFirst(q, Add(Scale(w.0, a), Scale(w.1, b)), b, a);
    DetLinearFirst(Scale(w.0, a), Scale(w.1, b), b, a);
    DetScale(w.0, a, b, a);
    DetScale(w.1, b, b, a);
    DetFacts(a, b, b);
  }

  /**
   * For an origin off the plane of a non-degenerate triangle, the ray
   * along the corrected direction hits the triangle at parameter 1, at the
   * sampled coordinates.
   */
  lemma RandomTowardHits(tri: Triangle, origin: Point3, d1: real, d2: real)
    requires IsUnitDraw(d1) && IsUnitDraw(d2)
    requires Det(Sub(tri.v0, origin), E2(tri), E1(tri)) != 0.0
    ensures TriangleHit(tri, Ray(origin, RandomToward(tri, origin, d1, d2), 0.0), 0.001, Infinity, Blank).hit
    ensures TriangleHit(tri, Ray(origin, RandomToward(tri, origin, d1, d2), 0.0), 0.001, Infinity, Blank).rec.t == 1.0
    ensures TriangleHit(tri, Ray(origin, RandomToward(tri, origin, d1, d2), 0.0), 0.001, Infinity, Blank).rec.u == RandomWeights(d1, d2).0
    ensures TriangleHit(tri, Ray(origin, RandomToward(tri, origin, d1, d2), 0.0), 0.001, Infinity, Blank).rec.v == RandomWeights(d1, d2).1
  {
    var w := RandomWeights(d1, d2);
    var r := Ray(origin, RandomToward(tri, origin, d1, d2), 0.0);
    RandomTowardDen(tri, origin, d1, d2);
    assert At(r, 1.0) == PlanePoint(tri, w.0, w.1);
    TriangleHitComplete(tri, r, 0.001, Infinity, Blank, 1.0, w.0, w.1);
  }
}
