/**
 * The moving sphere of moving_sphere.h: a sphere whose centre travels in a
 * straight line from `center0` at `time0` to `center1` at `time1`, hit by
 * solving the quadratic `a t^2 + 2 half_b t + c = 0` for the ray's time.
 *
 * The source's `float` interpolation parameter is a real here, and the
 * square root is a parameter of the hit function.
 */
module MovingSphere {
  import opened Vec
  import opened Hittable

  datatype MovingSphere = MovingSphere(center0: Point3, center1: Point3, time0: real, time1: real, radius: real, mat: nat)

  /**
   * `moving_sphere::center`. Equal `time0` and `time1` divide by zero in
   * the source; `Ratio` gives 0 there, so the centre stays at `center0`.
   */
  function Center(ms: MovingSphere, time: real): (c: Point3)
    ensures ms.time0 != ms.time1 && time == ms.time0 ==> c == ms.center0
    ensures ms.time0 != ms.time1 && time == ms.time1 ==> c == ms.center1
  {
    var span := ms.time1 - ms.time0;
    RatioOfSelf(span);
    Add(ms.center0, Scale(Ratio(time - ms.time0, span), Sub(ms.center1, ms.center0)))
  }

  lemma RatioOfSelf(d: real)
    ensures d != 0.0 ==> Ratio(d, d) == 1.0
    ensures Ratio(0.0, d) == 0.0
  {
    if d != 0.0 {
      var q := Ratio(d, d);
      assert (q - 1.0) * d == 0.0;
    }
  }

  /** Between the two key times the centre moves by equal steps for equal times. */
  lemma CenterAffine(ms: MovingSphere, s: real, t: real)
    requires ms.time0 != ms.time1
    ensures Sub(Center(ms, t), Center(ms, s))
         == Scale((t - s) / (ms.time1 - ms.time0), Sub(ms.center1, ms.center0))
  {
    var span := ms.time1 - ms.time0;
    var d := Sub(ms.center1, ms.center0);
    var qs, qt := Ratio(s - ms.time0, span), Ratio(t - ms.time0, span);
    assert qt - qs == (t - s) / span by {
      assert qs == (s - ms.time0) / span && qt == (t - ms.time0) / span;
      QuotientDifference(s - ms.time0, t - ms.time0, span);
    }
    LineStep(ms.center0, d, qt, qs);
  }

  /** Two points `c0 + qt d` and `c0 + qs d` of a line differ by `(qt - qs) d`. */
  lemma LineStep(c0: Vec3, d: Vec3, qt: real, qs: real)
    ensures Sub(Add(c0, Scale(qt, d)), Add(c0, Scale(qs, d))) == Scale(qt - qs, d)
  {
    var ct, cs := Add(c0, Scale(qt, d)), Add(c0, Scale(qs, d));
    StepComponent(c0.x, d.x, qt, qs, ct.x, cs.x);
    StepComponent(c0.y, d.y, qt, qs, ct.y, cs.y);
    StepComponent(c0.z, d.z, qt, qs, ct.z, cs.z);
  }

  lemma QuotientDifference(a: real, b: real, d: real)
    requires d != 0.0
    ensures b / d - a / d == (b - a) / d
  {}

  /** One component of `LineStep`. */
  lemma StepComponent(c0: real, d: real, qt: real, qs: real, ct: real, cs: real)
    requires ct == c0 + qt * d && cs == c0 + qs * d
    ensures ct - cs == (qt - qs) * d
  {}

  /** The coefficients `a`, `half_b` and `c` of the hit test. */
  datatype Quadratic = Quadratic(a: real, halfB: real, c: real)

  /** The coefficients for the ray `r`, against the centre at the ray's time. */
  function Coefficients(ms: MovingSphere, r: Ray): Quadratic {
    var oc := Sub(r.origin, Center(ms, r.time));
    Quadratic(LengthSquared(r.direction), Dot(oc, r.direction), LengthSquared(oc) - ms.radius * ms.radius)
  }

  function Discriminant(q: Quadratic): real {
    q.halfB * q.halfB - q.a * q.c
  }

  /** The value of the quadratic at `t`. */
  function Eval(q: Quadratic, t: real): real {
    q.a * t * t + 2.0 * q.halfB * t + q.c
  }

  /** The smaller root `(-half_b - sqrtd) / a`. */
  function NearRoot(q: Quadratic, sqrtd: real): real
    requires q.a != 0.0
  {
    (-q.halfB - sqrtd) / q.a
  }

  /** The larger root `(-half_b + sqrtd) / a`. */
  function FarRoot(q: Quadratic, sqrtd: real): real
    requires q.a != 0.0
  {
    (-q.halfB + sqrtd) / q.a
  }

  /** `root` survives the rejection `root < t_min || t_max < root`. */
  predicate InRange(root: real, tMin: real, tMax: Limit) {
    tMin <= root && AtMost(root, tMax)
  }

  /** The outward normal `(p - center) / radius`, 0 for a zero radius. */
  function OutwardNormal(ms: MovingSphere, r: Ray, p: Point3): Vec3 {
    Scale(Ratio(1.0, ms.radius), Sub(p, Center(ms, r.time)))
  }

  /** The record the source fills for an accepted root. */
  function HitAt(ms: MovingSphere, r: Ray, root: real, rec: HitRecord): HitRecord {
    var p := At(r, root);
    SetFaceNormal(rec.(t := root, p := p), r, OutwardNormal(ms, r, p)).(mat := ms.mat)
  }

  /**
   * `moving_sphere::hit`. A zero direction makes the source divide by
   * zero; the model reports a miss there.
   */
  function SphereHit(ms: MovingSphere, r: Ray, tMin: real, tMax: Limit, rec: HitRecord, sqrt: real -> real): (o: Outcome)
    ensures !o.hit ==> o.rec == rec
  {
    var q := Coefficients(ms, r);
    var disc := Discriminant(q);
    if disc < 0.0 || q.a == 0.0 then Outcome(false, rec)
    else
      var sqrtd := sqrt(disc);
      if InRange(NearRoot(q, sqrtd), tMin, tMax) then Outcome(true, HitAt(ms, r, NearRoot(q, sqrtd), rec))
      else if InRange(FarRoot(q, sqrtd), tMin, tMax) then Outcome(true, HitAt(ms, r, FarRoot(q, sqrtd), rec))
      else Outcome(false, rec)
  }

  /** A negative discriminant is a miss. */
  lemma NegativeDiscriminantMisses(ms: MovingSphere, r: Ray, tMin: real, tMax: Limit, rec: HitRecord, sqrt: real -> real)
    requires Discriminant(Coefficients(ms, r)) < 0.0
    ensures !SphereHit(ms, r, tMin, tMax, rec, sqrt).hit
    ensures SphereHit(ms, r, tMin, tMax, rec, sqrt).rec == rec
  {}

  /**
   * A reported hit is at a parameter in `[t_min, t_max]` at the point of
   * the ray with that parameter, carries the sphere's material, and its
   * normal is the outward normal turned against the ray.
   */
  lemma SphereHitSound(ms: MovingSphere, r: Ray, tMin: real, tMax: Limit, rec: HitRecord, sqrt: real -> real)
    requires SphereHit(ms, r, tMin, tMax, rec, sqrt).hit
    ensures InRange(SphereHit(ms, r, tMin, tMax, rec, sqrt).rec.t, tMin, tMax)
    ensures SphereHit(ms, r, tMin, tMax, rec, sqrt).rec.p == At(r, SphereHit(ms, r, tMin, tMax, rec, sqrt).rec.t)
    ensures SphereHit(ms, r, tMin, tMax, rec, sqrt).rec.mat == ms.mat
    ensures SphereHit(ms, r, tMin, tMax, rec, sqrt).rec.frontFace
        <==> Dot(r.direction, OutwardNormal(ms, r, SphereHit(ms, r, tMin, tMax, rec, sqrt).rec.p)) < 0.0
    ensures Dot(r.direction, SphereHit(ms, r, tMin, tMax, rec, sqrt).rec.normal) <= 0.0
  {}

  /** The nearer root is taken whenever it is in range; the farther one only otherwise. */
  lemma SphereRootChoice(ms: MovingSphere, r: Ray, tMin: real, tMax: Limit, rec: HitRecord, sqrt: real -> real)
    requires SphereHit(ms, r, tMin, tMax, rec, sqrt).hit
    ensures Coefficients(ms, r).a != 0.0
    ensures InRange(NearRoot(Coefficients(ms, r), sqrt(Discriminant(Coefficients(ms, r)))), tMin, tMax)
        ==> SphereHit(ms, r, tMin, tMax, rec, sqrt).rec.t == NearRoot(Coefficients(ms, r), sqrt(Discriminant(Coefficients(ms, r))))
    ensures !InRange(NearRoot(Coefficients(ms, r), sqrt(Discriminant(Coefficients(ms, r)))), tMin, tMax)
        ==> SphereHit(ms, r, tMin, tMax, rec, sqrt).rec.t == FarRoot(Coefficients(ms, r), sqrt(Discriminant(Coefficients(ms, r))))
  {}

  // -----------------------------------------------------------------------
  // The algebra of the quadratic

  /** `|oc + t d|^2 - R^2` is the quadratic of the hit test at `t`. */
  lemma DistanceIsQuadratic(oc: Vec3, d: Vec3, radius: real, t: real)
    ensures LengthSquared(Add(oc, Scale(t, d))) - radius * radius
         == Eval(Quadratic(LengthSquared(d), Dot(oc, d), LengthSquared(oc) - radius * radius), t)
  {
    assert LengthSquared(Add(oc, Scale(t, d)))
        == (oc.x + t * d.x) * (oc.x + t * d.x) + (oc.y + t * d.y) * (oc.y + t * d.y) + (oc.z + t * d.z) * (oc.z + t * d.z);
    assert (oc.x + t * d.x) * (oc.x + t * d.x) == oc.x * oc.x + 2.0 * (oc.x * d.x) * t + (d.x * d.x) * t * t;
    assert (oc.y + t * d.y) * (oc.y + t * d.y) == oc.y * oc.y + 2.0 * (oc.y * d.y) * t + (d.y * d.y) * t * t;
    assert (oc.z + t * d.z) * (oc.z + t * d.z) == oc.z * oc.z + 2.0 * (oc.z * d.z) * t + (d.z * d.z) * t * t;
  }

  /** `a * q(t) = (a t + half_b)^2 - discriminant` */
  lemma CompleteSquare(q: Quadratic, t: real)
    ensures q.a * Eval(q, t) == (q.a * t + q.halfB) * (q.a * t + q.halfB) - Discriminant(q)
  {}

  /** Both roots the source computes are zeros of the quadratic when `sqrtd^2` is the discriminant. */
  lemma RootsAreZeros(q: Quadratic, s: real)
    requires q.a != 0.0 && s * s == Discriminant(q)
    ensures Eval(q, NearRoot(q, s)) == 0.0 && Eval(q, FarRoot(q, s)) == 0.0
  {
    var n, f := NearRoot(q, s), FarRoot(q, s);
    assert Eval(q, n) == 0.0 by {
      RootLinear(q.a, q.halfB, -s, n);
      ZeroAt(q, n, s);
    }
    assert Eval(q, f) == 0.0 by {
      RootLinear(q.a, q.halfB, s, f);
      ZeroAt(q, f, s);
    }
  }

  /** `x = (-h + e) / a` solves `a x + h = e`. */
  lemma RootLinear(a: real, h: real, e: real, x: real)
    requires a != 0.0 && x == (-h + e) / a
    ensures a * x + h == e
  {
    RatioBounds(-h + e, a);
  }

  /** Where `a x + half_b` is plus or minus a square root of the discriminant, the quadratic vanishes. */
  lemma ZeroAt(q: Quadratic, x: real, s: real)
    requires q.a != 0.0 && s * s == Discriminant(q)
    requires q.a * x + q.halfB == s || q.a * x + q.halfB == -s
    ensures Eval(q, x) == 0.0
  {
    var e := q.a * x + q.halfB;
    assert e * e == s * s by {
      if e == -s {
        NegSquare(s);
      }
    }
    CompleteSquare(q, x);
    ZeroProduct(q.a, Eval(q, x));
  }

  lemma NegSquare(s: real)
    ensures (-s) * (-s) == s * s
  {}

  lemma ZeroProduct(a: real, b: real)
    requires a != 0.0 && a * b == 0.0
    ensures b == 0.0
  {}

  /** Two numbers with the same square are equal up to sign. */
  lemma EqualSquares(x: real, s: real)
    requires x * x == s * s
    ensures x == s || x == -s
  {
    assert (x - s) * (x + s) == 0.0;
    if x != s {
      ZeroProduct(x - s, x + s);
    }
  }

  /** `a t = n` has the single solution `n / a`. */
  lemma DivideOut(a: real, n: real, t: real)
    requires a != 0.0 && a * t == n
    ensures t == n / a
  {
    RatioBounds(n, a);
    assert a * (t - n / a) == 0.0;
    ZeroProduct(a, t - n / a);
  }

  /** For `a > 0` and `sqrtd >= 0` the near root is not above the far one. */
  lemma NearBelowFar(q: Quadratic, s: real)
    requires q.a > 0.0 && s >= 0.0
    ensures NearRoot(q, s) <= FarRoot(q, s)
  {
    Recip(q.a);
    MulLe(-q.halfB - s, -q.halfB + s, 1.0 / q.a);
  }

  /** Conversely every zero is one of the two roots. */
  lemma ZerosAreRoots(q: Quadratic, s: real, t: real)
    requires q.a != 0.0 && s * s == Discriminant(q)
    requires Eval(q, t) == 0.0
    ensures t == NearRoot(q, s) || t == FarRoot(q, s)
  {
    var x := q.a * t + q.halfB;
    assert x == s || x == -s by {
      CompleteSquare(q, t);
      EqualSquares(x, s);
    }
    if x == s {
      DivideOut(q.a, -q.halfB + s, t);
    } else {
      DivideOut(q.a, -q.halfB - s, t);
    }
  }

  /** The point of the ray at `t`, less the centre, is `oc + t d`. */
  lemma OffsetFromCenter(ms: MovingSphere, r: Ray, t: real)
    ensures Sub(At(r, t), Center(ms, r.time)) == Add(Sub(r.origin, Center(ms, r.time)), Scale(t, r.direction))
  {}

  /** A point of the ray is on the sphere exactly where the quadratic vanishes. */
  lemma OnSphereIffZero(ms: MovingSphere, r: Ray, t: real)
    ensures LengthSquared(Sub(At(r, t), Center(ms, r.time))) == ms.radius * ms.radius
        <==> Eval(Coefficients(ms, r), t) == 0.0
  {
    var oc, rr := Sub(r.origin, Center(ms, r.time)), ms.radius * ms.radius;
    var d := LengthSquared(Sub(At(r, t), Center(ms, r.time)));
    var e := Eval(Coefficients(ms, r), t);
    assert d - rr == e by {
      OffsetFromCenter(ms, r, t);
      DistanceIsQuadratic(oc, r.direction, ms.radius, t);
    }
  }

  /** With an exact square root, a reported hit point lies on the sphere at the ray's time. */
  lemma SphereHitOnSurface(ms: MovingSphere, r: Ray, tMin: real, tMax: Limit, rec: HitRecord, sqrt: real -> real)
    requires SphereHit(ms, r, tMin, tMax, rec, sqrt).hit
    requires IsSqrtAt(sqrt, Discriminant(Coefficients(ms, r)))
    ensures LengthSquared(Sub(SphereHit(ms, r, tMin, tMax, rec, sqrt).rec.p, Center(ms, r.time))) == ms.radius * ms.radius
  {
    var q := Coefficients(ms, r);
    var o := SphereHit(ms, r, tMin, tMax, rec, sqrt);
    RootsAreZeros(q, sqrt(Discriminant(q)));
    SphereRootChoice(ms, r, tMin, tMax, rec, sqrt);
    OnSphereIffZero(ms, r, o.rec.t);
  }

  /**
   * With an exact square root, a ray with a non-zero direction that meets
   * the sphere at some `t` in `[t_min, t_max]` is reported as a hit, at a
   * parameter no greater than `t`: the nearest hit in range.
   */
  lemma SphereHitNearest(ms: MovingSphere, r: Ray, tMin: real, tMax: Limit, rec: HitRecord, sqrt: real -> real, t: real)
    requires LengthSquared(r.direction) > 0.0
    requires IsSqrtAt(sqrt, Discriminant(Coefficients(ms, r)))
    requires InRange(t, tMin, tMax)
    requires LengthSquared(Sub(At(r, t), Center(ms, r.time))) == ms.radius * ms.radius
    ensures SphereHit(ms, r, tMin, tMax, rec, sqrt).hit
    ensures SphereHit(ms, r, tMin, tMax, rec, sqrt).rec.t <= t
  {
    var q := Coefficients(ms, r);
    var s := sqrt(Discriminant(q));
    assert q.a > 0.0 && s >= 0.0 && s * s == Discriminant(q);
    assert t == NearRoot(q, s) || t == FarRoot(q, s) by {
      OnSphereIffZero(ms, r, t);
      ZerosAreRoots(q, s, t);
    }
    assert NearRoot(q, s) <= FarRoot(q, s) by {
      NearBelowFar(q, s);
    }
    FirstRootInRange(ms, r, tMin, tMax, rec, sqrt, t);
  }

  /**
   * When `t` is one of the two roots and lies in range, the test reports a
   * hit no later than `t`.
   */
  lemma FirstRootInRange(ms: MovingSphere, r: Ray, tMin: real, tMax: Limit, rec: HitRecord, sqrt: real -> real, t: real)
    requires var q := Coefficients(ms, r);
      && q.a != 0.0 && Discriminant(q) >= 0.0
      && NearRoot(q, sqrt(Discriminant(q))) <= FarRoot(q, sqrt(Discriminant(q)))
      && (t == NearRoot(q, sqrt(Discriminant(q))) || t == FarRoot(q, sqrt(Discriminant(q))))
    requires InRange(t, tMin, tMax)
    ensures SphereHit(ms, r, tMin, tMax, rec, sqrt).hit
    ensures SphereHit(ms, r, tMin, tMax, rec, sqrt).rec.t <= t
  {}
}
