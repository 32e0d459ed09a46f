/**
 * The axis-aligned rectangles of aa_rect.h: `xy_rect`, `xz_rect` and
 * `yz_rect`.
 *
 * The three classes differ only in which axis they are perpendicular to,
 * so the model has one `Rect` carrying its `Plane`: the rectangle spans
 * `[a0, a1]` along the plane's first axis and `[b0, b1]` along its second,
 * and sits at `k` on the fixed axis (`xy_rect(x0, x1, y0, y1, z)`,
 * `xz_rect(x0, x1, z0, z1, y)`, `yz_rect(y0, y1, z0, z1, k)`).
 */
module AaRect {
  import opened Vec
  import opened Aabb
  import opened Hittable

  datatype Plane = XY | XZ | YZ

  /** The axis the rectangle is perpendicular to: z, y and x respectively. */
  function Fixed(pl: Plane): (f: nat)
    ensures f < 3
  {
    match pl
    case XY => 2
    case XZ => 1
    case YZ => 0
  }

  /** The axis of the first range (`u`). */
  function First(pl: Plane): (a: nat)
    ensures a < 3 && a != Fixed(pl)
  {
    match pl
    case XY => 0
    case XZ => 0
    case YZ => 1
  }

  /** The axis of the second range (`v`). */
  function Second(pl: Plane): (b: nat)
    ensures b < 3 && b != Fixed(pl) && b != First(pl)
  {
    match pl
    case XY => 1
    case XZ => 2
    case YZ => 2
  }

  datatype Rect = Rect(plane: Plane, a0: real, a1: real, b0: real, b1: real, k: real, mat: nat)

  /** The unit vector along the fixed axis: (0,0,1), (0,1,0) and (1,0,0). */
  function OutwardNormal(pl: Plane): (n: Vec3)
    ensures Get(n, Fixed(pl)) == 1.0 && Get(n, First(pl)) == 0.0 && Get(n, Second(pl)) == 0.0
  {
    match pl
    case XY => Vec3(0.0, 0.0, 1.0)
    case XZ => Vec3(0.0, 1.0, 0.0)
    case YZ => Vec3(1.0, 0.0, 0.0)
  }

  /** The dot product with the outward normal picks out the fixed component. */
  lemma DotOutwardNormal(pl: Plane, d: Vec3)
    ensures Dot(d, OutwardNormal(pl)) == Get(d, Fixed(pl))
  {}

  /** The in-plane coordinates of the point lie within both ranges. */
  predicate InRanges(rc: Rect, p: Point3) {
    rc.a0 <= Get(p, First(rc.plane)) <= rc.a1
    && rc.b0 <= Get(p, Second(rc.plane)) <= rc.b1
  }

  /** The point lies on the rectangle: on its plane and within both ranges. */
  predicate OnRect(rc: Rect, p: Point3) {
    Get(p, Fixed(rc.plane)) == rc.k && InRanges(rc, p)
  }

  /** The parameter where the ray meets the rectangle's plane. */
  function Crossing(rc: Rect, r: Ray): real
    requires Get(r.direction, Fixed(rc.plane)) != 0.0
  {
    (rc.k - Get(r.origin, Fixed(rc.plane))) / Get(r.direction, Fixed(rc.plane))
  }

  /**
   * `xy_rect::hit`, `xz_rect::hit` and `yz_rect::hit`. A ray parallel to
   * the plane divides by zero in the source; the model reports a miss.
   */
  function RectHit(rc: Rect, r: Ray, tMin: real, tMax: Limit, rec: HitRecord): (o: Outcome)
    ensures !o.hit ==> o.rec == rec
  {
    if Get(r.direction, Fixed(rc.plane)) == 0.0 then Outcome(false, rec)
    else
      var t := Crossing(rc, r);
      if t < tMin || !AtMost(t, tMax) then Outcome(false, rec)
      else
        // The source's `x` and `y` are the in-plane coordinates of `r.at(t)`.
        var p := At(r, t);
        if !InRanges(rc, p) then Outcome(false, rec)
        else
          // A degenerate rectangle divides by zero in the source; `Ratio` gives 0 there.
          var u := Ratio(Get(p, First(rc.plane)) - rc.a0, rc.a1 - rc.a0);
          var v := Ratio(Get(p, Second(rc.plane)) - rc.b0, rc.b1 - rc.b0);
          Outcome(true, SetFaceNormal(rec.(u := u, v := v, t := t), r, OutwardNormal(rc.plane)).(mat := rc.mat, p := p))
  }

  /** A rectangle as the `HitFn` the wrappers take. */
  function AsHitFn(rc: Rect): HitFn {
    (r, tMin, tMax, rec) => RectHit(rc, r, tMin, tMax, rec)
  }

  lemma GetAt(r: Ray, t: real, i: nat)
    requires i < 3
    ensures Get(At(r, t), i) == Get(r.origin, i) + t * Get(r.direction, i)
  {}

  /** `o + t d = k` has the single solution `t = (k - o) / d` for non-zero `d`. */
  lemma SolveLinear(k: real, o: real, d: real, t: real)
    requires d != 0.0
    ensures o + t * d == k <==> t == (k - o) / d
  {
    var q := (k - o) / d;
    RatioBounds(k - o, d);
    if o + t * d == k {
      assert (t - q) * d == 0.0;
    }
  }

  /** The ray is on the plane exactly at the crossing parameter. */
  lemma CrossingOnPlane(rc: Rect, r: Ray, t: real)
    requires Get(r.direction, Fixed(rc.plane)) != 0.0
    ensures Get(At(r, t), Fixed(rc.plane)) == rc.k <==> t == Crossing(rc, r)
  {
    var f := Fixed(rc.plane);
    GetAt(r, t, f);
    SolveLinear(rc.k, Get(r.origin, f), Get(r.direction, f), t);
  }

  /**
   * A reported hit is at a parameter in `[t_min, t_max]`, at the point of
   * the ray with that parameter, on the rectangle, with the rectangle's
   * material and, for a rectangle of positive extent, with texture
   * coordinates in `[0, 1]`.
   */
  lemma RectHitSound(rc: Rect, r: Ray, tMin: real, tMax: Limit, rec: HitRecord)
    requires RectHit(rc, r, tMin, tMax, rec).hit
    ensures tMin <= RectHit(rc, r, tMin, tMax, rec).rec.t
    ensures AtMost(RectHit(rc, r, tMin, tMax, rec).rec.t, tMax)
    ensures RectHit(rc, r, tMin, tMax, rec).rec.p == At(r, RectHit(rc, r, tMin, tMax, rec).rec.t)
    ensures OnRect(rc, RectHit(rc, r, tMin, tMax, rec).rec.p)
    ensures RectHit(rc, r, tMin, tMax, rec).rec.mat == rc.mat
    ensures rc.a0 < rc.a1 ==> 0.0 <= RectHit(rc, r, tMin, tMax, rec).rec.u <= 1.0
    ensures rc.b0 < rc.b1 ==> 0.0 <= RectHit(rc, r, tMin, tMax, rec).rec.v <= 1.0
  {
    var t := Crossing(rc, r);
    var o := RectHit(rc, r, tMin, tMax, rec);
    assert o.rec.t == t && o.rec.p == At(r, t);
    CrossingOnPlane(rc, r, t);
  }

  /**
   * On a hit the normal is the axis vector or its negation, it faces the
   * incoming ray, and the front face is the side the axis vector points
   * to.
   */
  lemma RectHitNormal(rc: Rect, r: Ray, tMin: real, tMax: Limit, rec: HitRecord)
    requires RectHit(rc, r, tMin, tMax, rec).hit
    ensures RectHit(rc, r, tMin, tMax, rec).rec.frontFace ==> RectHit(rc, r, tMin, tMax, rec).rec.normal == OutwardNormal(rc.plane)
    ensures !RectHit(rc, r, tMin, tMax, rec).rec.frontFace ==> RectHit(rc, r, tMin, tMax, rec).rec.normal == Neg(OutwardNormal(rc.plane))
    ensures Dot(r.direction, RectHit(rc, r, tMin, tMax, rec).rec.normal) <= 0.0
    ensures RectHit(rc, r, tMin, tMax, rec).rec.frontFace <==> Get(r.direction, Fixed(rc.plane)) < 0.0
  {
    DotOutwardNormal(rc.plane, r.direction);
  }

  /**
   * Every point of the rectangle reached at a parameter in
   * `[t_min, t_max]` by a ray not parallel to the plane is reported as a
   * hit at that parameter.
   */
  lemma RectHitComplete(rc: Rect, r: Ray, tMin: real, tMax: Limit, rec: HitRecord, t: real)
    requires Get(r.direction, Fixed(rc.plane)) != 0.0
    requires tMin <= t && AtMost(t, tMax)
    requires OnRect(rc, At(r, t))
    ensures RectHit(rc, r, tMin, tMax, rec).hit
    ensures RectHit(rc, r, tMin, tMax, rec).rec.t == t
  {
    CrossingOnPlane(rc, r, t);
  }

  /** A ray parallel to the plane never hits. */
  lemma RectHitParallel(rc: Rect, r: Ray, tMin: real, tMax: Limit, rec: HitRecord)
    requires Get(r.direction, Fixed(rc.plane)) == 0.0
    ensures !RectHit(rc, r, tMin, tMax, rec).hit
  {}

  /** The padded `bounding_box` of each rectangle (aa_rect.h:26-31, 45-51, 69-75). */
  function RectBox(rc: Rect): (b: Box)
    ensures Get(b.minimum, First(rc.plane)) == rc.a0 && Get(b.maximum, First(rc.plane)) == rc.a1
    ensures Get(b.minimum, Second(rc.plane)) == rc.b0 && Get(b.maximum, Second(rc.plane)) == rc.b1
    ensures Get(b.minimum, Fixed(rc.plane)) == rc.k - 0.0001 && Get(b.maximum, Fixed(rc.plane)) == rc.k + 0.0001
  {
    match rc.plane
    case XY => Box(Vec3(rc.a0, rc.b0, rc.k - 0.0001), Vec3(rc.a1, rc.b1, rc.k + 0.0001))
    case XZ => Box(Vec3(rc.a0, rc.k - 0.0001, rc.b0), Vec3(rc.a1, rc.k + 0.0001, rc.b1))
    case YZ => Box(Vec3(rc.k - 0.0001, rc.a0, rc.b0), Vec3(rc.k + 0.0001, rc.a1, rc.b1))
  }

  /** The box has positive thickness along the fixed axis, whatever the rectangle. */
  lemma RectBoxThick(rc: Rect)
    ensures Get(RectBox(rc).maximum, Fixed(rc.plane)) - Get(RectBox(rc).minimum, Fixed(rc.plane)) == 0.0002
  {}

  /** A point lies in the padded box exactly when it lies within both ranges and within the padding of the plane. */
  lemma RectBoxContains(rc: Rect, p: Point3)
    ensures InBox(RectBox(rc), p)
        <==> (rc.a0 <= Get(p, First(rc.plane)) <= rc.a1
              && rc.b0 <= Get(p, Second(rc.plane)) <= rc.b1
              && rc.k - 0.0001 <= Get(p, Fixed(rc.plane)) <= rc.k + 0.0001)
  {
    var bx := RectBox(rc);
    var f, a, b := Fixed(rc.plane), First(rc.plane), Second(rc.plane);
    if InBox(bx, p) {
      assert Between(bx, p, f) && Between(bx, p, a) && Between(bx, p, b);
    } else {
      var i: nat :| i < 3 && !Between(bx, p, i);
      assert i == f || i == a || i == b;
    }
  }

  /** The box contains the whole rectangle, so every hit point lies in it. */
  lemma RectHitInBox(rc: Rect, r: Ray, tMin: real, tMax: Limit, rec: HitRecord)
    requires RectHit(rc, r, tMin, tMax, rec).hit
    ensures InBox(RectBox(rc), RectHit(rc, r, tMin, tMax, rec).rec.p)
  {
    RectHitSound(rc, r, tMin, tMax, rec);
    RectBoxContains(rc, RectHit(rc, r, tMin, tMax, rec).rec.p);
  }
}
