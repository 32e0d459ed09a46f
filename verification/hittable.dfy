/**
 * Hit records and the three wrapper objects of hittable.h: `translate`,
 * `rotate_y` and `flip_face`.
 *
 * A `hit` function of the source fills an in/out `hit_record` and returns
 * whether the ray hit. The model passes the record in and returns an
 * `Outcome` holding the flag and the record as the function left it, so
 * that "a miss leaves the record alone" can be stated. The wrapped object
 * of a wrapper is any such function (`HitFn`); its bounding box is an
 * `Option<Box>` (`None` for the source's `false`).
 *
 * The material pointer of a record is modelled by a material number.
 */
module Hittable {
  import opened Vec
  import opened Wrappers
  import opened Aabb
  import RtWeekend

  datatype HitRecord = HitRecord(p: Point3, normal: Vec3, t: real, u: real, v: real, frontFace: bool, mat: nat)

  datatype Outcome = Outcome(hit: bool, rec: HitRecord)

  /** A fresh record, for the callers that declare one before a `hit`. */
  const Blank: HitRecord := HitRecord(Zero, Zero, 0.0, 0.0, 0.0, false, 0)

  /** `hittable::hit(r, t_min, t_max, rec)` */
  type HitFn = (Ray, real, Limit, HitRecord) -> Outcome

  /** `hit_record::set_face_normal` (hittable.h:31-35) */
  function SetFaceNormal(rec: HitRecord, r: Ray, outward: Vec3): (res: HitRecord)
    ensures res.frontFace <==> Dot(r.direction, outward) < 0.0
    ensures res.frontFace ==> res.normal == outward
    ensures !res.frontFace ==> res.normal == Neg(outward)
    ensures Dot(r.direction, res.normal) <= 0.0
    ensures res == rec.(frontFace := res.frontFace, normal := res.normal)
  {
    var front := Dot(r.direction, outward) < 0.0;
    DotNeg(r.direction, outward);
    rec.(frontFace := front, normal := if front then outward else Neg(outward))
  }

  /**
   * Orienting an already oriented normal a second time against the same
   * ray keeps the normal and reports a front face, whichever side the
   * first call found, unless the ray grazes the surface.
   */
  lemma SetFaceNormalTwice(rec: HitRecord, r: Ray, outward: Vec3)
    requires Dot(r.direction, outward) != 0.0
    ensures SetFaceNormal(SetFaceNormal(rec, r, outward), r, SetFaceNormal(rec, r, outward).normal).frontFace
    ensures SetFaceNormal(SetFaceNormal(rec, r, outward), r, SetFaceNormal(rec, r, outward).normal).normal
         == SetFaceNormal(rec, r, outward).normal
  {
    DotNeg(r.direction, outward);
  }

  // -----------------------------------------------------------------------
  // translate (hittable.h:86-112)

  /** The ray seen from the object's own frame: its origin moved back by `offset`. */
  function MovedRay(r: Ray, offset: Vec3): (m: Ray)
    ensures m.direction == r.direction && m.time == r.time
    ensures Add(m.origin, offset) == r.origin
  {
    Ray(Sub(r.origin, offset), r.direction, r.time)
  }

  /**
   * `translate::hit` as written: the child's point is moved by `offset`
   * and its (already oriented) normal is passed through
   * `set_face_normal` a second time.
   */
  function TranslateHitAsWritten(child: HitFn, offset: Vec3, r: Ray, tMin: real, tMax: Limit, rec: HitRecord): (o: Outcome)
    ensures var c := child(MovedRay(r, offset), tMin, tMax, rec);
      && o.hit == c.hit
      && (!o.hit ==> o.rec == c.rec)
      && (o.hit ==> o.rec.p == Add(c.rec.p, offset)
                    && (o.rec.frontFace <==> Dot(r.direction, c.rec.normal) < 0.0)
                    && Dot(r.direction, o.rec.normal) <= 0.0
                    && o.rec.(p := c.rec.p, normal := c.rec.normal, frontFace := c.rec.frontFace) == c.rec)
  {
    var moved := MovedRay(r, offset);
    var o := child(moved, tMin, tMax, rec);
    if !o.hit then o
    else Outcome(true, SetFaceNormal(o.rec.(p := Add(o.rec.p, offset)), moved, o.rec.normal))
  }

  /** `translate::hit` with the child's orientation kept: only the point moves. */
  function TranslateHit(child: HitFn, offset: Vec3, r: Ray, tMin: real, tMax: Limit, rec: HitRecord): (o: Outcome)
    ensures o.hit == child(MovedRay(r, offset), tMin, tMax, rec).hit
    ensures !o.hit ==> o.rec == child(MovedRay(r, offset), tMin, tMax, rec).rec
    ensures o.hit ==> (o.rec.(p := child(MovedRay(r, offset), tMin, tMax, rec).rec.p)
                       == child(MovedRay(r, offset), tMin, tMax, rec).rec)
    ensures o.hit ==> o.rec.p == Add(child(MovedRay(r, offset), tMin, tMax, rec).rec.p, offset)
  {
    var o := child(MovedRay(r, offset), tMin, tMax, rec);
    if !o.hit then o else Outcome(true, o.rec.(p := Add(o.rec.p, offset)))
  }

  /** A child hit point on the moved ray becomes a point on the original ray at the same parameter. */
  lemma TranslateHitOnRay(child: HitFn, offset: Vec3, r: Ray, tMin: real, tMax: Limit, rec: HitRecord)
    requires child(MovedRay(r, offset), tMin, tMax, rec).hit
    requires child(MovedRay(r, offset), tMin, tMax, rec).rec.p
          == At(MovedRay(r, offset), child(MovedRay(r, offset), tMin, tMax, rec).rec.t)
    ensures TranslateHit(child, offset, r, tMin, tMax, rec).rec.p == At(r, TranslateHit(child, offset, r, tMin, tMax, rec).rec.t)
    ensures TranslateHitAsWritten(child, offset, r, tMin, tMax, rec).rec.p
         == At(r, TranslateHitAsWritten(child, offset, r, tMin, tMax, rec).rec.t)
  {}

  /**
   * As written, `translate::hit` reports a front face for every hit whose
   * child normal is oriented against the ray and not grazing, so a back
   * face seen through a translation is reported as a front face.
   */
  lemma TranslateAsWrittenForcesFront(child: HitFn, offset: Vec3, r: Ray, tMin: real, tMax: Limit, rec: HitRecord)
    requires child(MovedRay(r, offset), tMin, tMax, rec).hit
    requires Dot(r.direction, child(MovedRay(r, offset), tMin, tMax, rec).rec.normal) < 0.0
    ensures TranslateHitAsWritten(child, offset, r, tMin, tMax, rec).rec.frontFace
  {}

  /** `translate::bounding_box` */
  function TranslateBox(childBox: Option<Box>, offset: Vec3): (b: Option<Box>)
    ensures b.Some? == childBox.Some?
  {
    match childBox
      case None => None
      case Some(c) => Some(Box(Add(c.minimum, offset), Add(c.maximum, offset)))
  }

  /** A point lies in the moved box exactly when the point moved back lies in the child's box. */
  lemma TranslateBoxContains(c: Box, offset: Vec3, p: Point3)
    ensures InBox(TranslateBox(Some(c), offset).value, p) <==> InBox(c, Sub(p, offset))
  {
    var b := TranslateBox(Some(c), offset).value;
    assert Between(b, p, 0) <==> Between(c, Sub(p, offset), 0);
    assert Between(b, p, 1) <==> Between(c, Sub(p, offset), 1);
    assert Between(b, p, 2) <==> Between(c, Sub(p, offset), 2);
  }

  // -----------------------------------------------------------------------
  // rotate_y (hittable.h:117-191)

  /** The rotation about the y axis, as its sine and cosine. */
  predicate IsRotation(s: real, c: real) {
    s * s + c * c == 1.0
  }

  /** World to object frame: `x' = c x - s z`, `z' = s x + c z` (hittable.h:161-165). */
  function ToObject(s: real, c: real, v: Vec3): Vec3 {
    Vec3(c * v.x - s * v.z, v.y, s * v.x + c * v.z)
  }

  /** Object to world frame: `x = c x' + s z'`, `z = -s x' + c z'` (hittable.h:175-179). */
  function ToWorld(s: real, c: real, v: Vec3): Vec3 {
    Vec3(c * v.x + s * v.z, v.y, (-s) * v.x + c * v.z)
  }

  /** For a rotation the two maps are inverse to each other. */
  lemma RotationInverse(s: real, c: real, v: Vec3)
    requires IsRotation(s, c)
    ensures ToWorld(s, c, ToObject(s, c, v)) == v
    ensures ToObject(s, c, ToWorld(s, c, v)) == v
  {
    var o, w := ToObject(s, c, v), ToWorld(s, c, v);
    var wo, ow := ToWorld(s, c, o), ToObject(s, c, w);
    PlaneTurnTwice(s, c, v.x, v.z, o.x, o.z, wo.x, wo.z);
    PlaneTurnTwice(-s, c, v.x, v.z, w.x, w.z, ow.x, ow.z);
  }

  /**
   * Turning the plane by `(c, e)` and then back by `(c, -e)` is the
   * identity when `e^2 + c^2 = 1`; the coordinates come in as plain numbers.
   */
  lemma PlaneTurnTwice(e: real, c: real, x: real, z: real, px: real, pz: real, qx: real, qz: real)
    requires e * e + c * c == 1.0
    requires px == c * x - e * z && pz == e * x + c * z
    requires qx == c * px + e * pz && qz == (-e) * px + c * pz
    ensures qx == x && qz == z
  {
    assert qx == (c * c + e * e) * x;
    assert qz == (e * e + c * c) * z;
  }

  /** Carrying vectors to the world frame preserves dot products, so it preserves angles and lengths. */
  lemma WorldKeepsDot(s: real, c: real, a: Vec3, b: Vec3)
    requires IsRotation(s, c)
    ensures Dot(ToWorld(s, c, a), ToWorld(s, c, b)) == Dot(a, b)
  {
    var w1, w2 := ToWorld(s, c, a), ToWorld(s, c, b);
    PlaneTurnDot(s, c, a.x, a.z, b.x, b.z, w1.x, w1.z, w2.x, w2.z);
    DotSplit(w1, w2, a, b);
  }

  /** So does carrying them to the object frame. */
  lemma ObjectKeepsDot(s: real, c: real, a: Vec3, b: Vec3)
    requires IsRotation(s, c)
    ensures Dot(ToObject(s, c, a), ToObject(s, c, b)) == Dot(a, b)
  {
    var o1, o2 := ToObject(s, c, a), ToObject(s, c, b);
    PlaneTurnBackDot(s, c, a.x, a.z, b.x, b.z, o1.x, o1.z, o2.x, o2.z);
    DotSplit(o1, o2, a, b);
  }

  /** Vectors that agree in `y` and in the `x`-`z` part of their dot product have the same dot product. */
  lemma DotSplit(p: Vec3, q: Vec3, a: Vec3, b: Vec3)
    requires p.y == a.y && q.y == b.y
    requires p.x * q.x + p.z * q.z == a.x * b.x + a.z * b.z
    ensures Dot(p, q) == Dot(a, b)
  {}

  /**
   * A turn `(x, z) -> (c x + e z, -e x + c z)` of the plane with
   * `e^2 + c^2 = 1` keeps dot products; the turned coordinates come in as
   * plain numbers.
   */
  lemma PlaneTurnDot(e: real, c: real, ax: real, az: real, bx: real, bz: real,
                     px: real, pz: real, qx: real, qz: real)
    requires e * e + c * c == 1.0
    requires px == c * ax + e * az && pz == (-e) * ax + c * az
    requires qx == c * bx + e * bz && qz == (-e) * bx + c * bz
    ensures px * qx + pz * qz == ax * bx + az * bz
  {
    assert px * qx + pz * qz == (e * e + c * c) * (ax * bx + az * bz);
  }

  /** The same for the inverse turn `(x, z) -> (c x - e z, e x + c z)`. */
  lemma PlaneTurnBackDot(e: real, c: real, ax: real, az: real, bx: real, bz: real,
                         px: real, pz: real, qx: real, qz: real)
    requires e * e + c * c == 1.0
    requires px == c * ax - e * az && pz == e * ax + c * az
    requires qx == c * bx - e * bz && qz == e * bx + c * bz
    ensures px * qx + pz * qz == ax * bx + az * bz
  {
    assert px * qx + pz * qz == (e * e + c * c) * (ax * bx + az * bz);
  }

  /** Both maps are linear, so they carry rays to rays. */
  lemma ToWorldAt(s: real, c: real, r: Ray, t: real)
    ensures ToWorld(s, c, At(r, t)) == Add(ToWorld(s, c, r.origin), Scale(t, ToWorld(s, c, r.direction)))
  {
    TurnAdd(s, c, r.origin, Scale(t, r.direction));
    TurnScale(s, c, t, r.direction);
  }

  /** `ToWorld` is additive. */
  lemma TurnAdd(s: real, c: real, a: Vec3, b: Vec3)
    ensures ToWorld(s, c, Add(a, b)) == Add(ToWorld(s, c, a), ToWorld(s, c, b))
  {
    var v := Add(a, b);
    TurnSum(c, s, a.x, a.z, b.x, b.z, v.x, v.z);
    TurnSum(-s, c, a.x, a.z, b.x, b.z, v.x, v.z);
  }

  /** `ToWorld` commutes with scaling. */
  lemma TurnScale(s: real, c: real, t: real, v: Vec3)
    ensures ToWorld(s, c, Scale(t, v)) == Scale(t, ToWorld(s, c, v))
  {
    var w := Scale(t, v);
    TurnProduct(c, s, t, v.x, v.z, w.x, w.z);
    TurnProduct(-s, c, t, v.x, v.z, w.x, w.z);
  }

  /** `p (ax + bx) + q (az + bz) = (p ax + q az) + (p bx + q bz)`, on plain numbers. */
  lemma TurnSum(p: real, q: real, ax: real, az: real, bx: real, bz: real, vx: real, vz: real)
    requires vx == ax + bx && vz == az + bz
    ensures p * vx + q * vz == (p * ax + q * az) + (p * bx + q * bz)
  {}

  /** `p (t x) + q (t z) = t (p x + q z)`, on plain numbers. */
  lemma TurnProduct(p: real, q: real, t: real, x: real, z: real, wx: real, wz: real)
    requires wx == t * x && wz == t * z
    ensures p * wx + q * wz == t * (p * x + q * z)
  {}

  /** The ray seen from the object's frame. */
  function RotatedRay(s: real, c: real, r: Ray): Ray {
    Ray(ToObject(s, c, r.origin), ToObject(s, c, r.direction), r.time)
  }

  /** Carrying the object-frame ray back gives the world ray. */
  lemma RotatedRayBack(s: real, c: real, r: Ray)
    requires IsRotation(s, c)
    ensures ToWorld(s, c, RotatedRay(s, c, r).origin) == r.origin
    ensures ToWorld(s, c, RotatedRay(s, c, r).direction) == r.direction
  {
    RotationInverse(s, c, r.origin);
    RotationInverse(s, c, r.direction);
  }

  /**
   * `rotate_y::hit` as written: the point and the normal are carried back
   * to the world frame, then the world normal is oriented against the
   * object-frame ray.
   */
  function RotateYHitAsWritten(child: HitFn, s: real, c: real, r: Ray, tMin: real, tMax: Limit, rec: HitRecord): (o: Outcome)
    ensures var q := RotatedRay(s, c, r);
      var k := child(q, tMin, tMax, rec);
      && o.hit == k.hit
      && (!o.hit ==> o.rec == k.rec)
      && (o.hit ==> o.rec.p == ToWorld(s, c, k.rec.p)
                    && (o.rec.frontFace <==> Dot(q.direction, ToWorld(s, c, k.rec.normal)) < 0.0)
                    && (o.rec.normal == ToWorld(s, c, k.rec.normal) || o.rec.normal == Neg(ToWorld(s, c, k.rec.normal)))
                    && Dot(q.direction, o.rec.normal) <= 0.0
                    && o.rec.t == k.rec.t
                    && o.rec.(p := k.rec.p, normal := k.rec.normal, frontFace := k.rec.frontFace) == k.rec)
  {
    var rotated := RotatedRay(s, c, r);
    var o := child(rotated, tMin, tMax, rec);
    if !o.hit then o
    else Outcome(true, SetFaceNormal(o.rec.(p := ToWorld(s, c, o.rec.p)), rotated, ToWorld(s, c, o.rec.normal)))
  }

  /**
   * `rotate_y::hit` with the child's orientation kept: the point and the
   * normal are carried back to the world frame and the face flag is the
   * child's.
   */
  function RotateYHit(child: HitFn, s: real, c: real, r: Ray, tMin: real, tMax: Limit, rec: HitRecord): (o: Outcome)
    ensures o.hit == child(RotatedRay(s, c, r), tMin, tMax, rec).hit
    ensures !o.hit ==> o.rec == child(RotatedRay(s, c, r), tMin, tMax, rec).rec
    ensures o.hit ==> (o.rec.frontFace == child(RotatedRay(s, c, r), tMin, tMax, rec).rec.frontFace
                       && o.rec.t == child(RotatedRay(s, c, r), tMin, tMax, rec).rec.t)
    ensures o.hit ==> (o.rec.p == ToWorld(s, c, child(RotatedRay(s, c, r), tMin, tMax, rec).rec.p)
                       && o.rec.normal == ToWorld(s, c, child(RotatedRay(s, c, r), tMin, tMax, rec).rec.normal))
    ensures o.hit ==> (o.rec.(p := child(RotatedRay(s, c, r), tMin, tMax, rec).rec.p,
                              normal := child(RotatedRay(s, c, r), tMin, tMax, rec).rec.normal)
                       == child(RotatedRay(s, c, r), tMin, tMax, rec).rec)
  {
    var o := child(RotatedRay(s, c, r), tMin, tMax, rec);
    if !o.hit then o
    else Outcome(true, o.rec.(p := ToWorld(s, c, o.rec.p), normal := ToWorld(s, c, o.rec.normal)))
  }

  /**
   * With the child's orientation kept, a child normal oriented against
   * the object-frame ray is oriented against the world ray by the same
   * amount, and a child point on the object-frame ray is a point on the
   * world ray at the same parameter.
   */
  lemma RotateYHitOriented(child: HitFn, s: real, c: real, r: Ray, tMin: real, tMax: Limit, rec: HitRecord)
    requires IsRotation(s, c)
    requires child(RotatedRay(s, c, r), tMin, tMax, rec).hit
    requires child(RotatedRay(s, c, r), tMin, tMax, rec).rec.p
          == At(RotatedRay(s, c, r), child(RotatedRay(s, c, r), tMin, tMax, rec).rec.t)
    ensures Dot(r.direction, RotateYHit(child, s, c, r, tMin, tMax, rec).rec.normal)
         == Dot(RotatedRay(s, c, r).direction, child(RotatedRay(s, c, r), tMin, tMax, rec).rec.normal)
    ensures RotateYHit(child, s, c, r, tMin, tMax, rec).rec.p == At(r, RotateYHit(child, s, c, r, tMin, tMax, rec).rec.t)
  {
    var q := RotatedRay(s, c, r);
    var o := child(q, tMin, tMax, rec);
    RotatedRayBack(s, c, r);
    WorldKeepsDot(s, c, q.direction, o.rec.normal);
    ToWorldAt(s, c, q, o.rec.t);
  }

  /**
   * As written, `rotate_y::hit` orients the world normal against the
   * object-frame ray, so whenever the carried-back child normal points
   * along the object-frame ray the reported normal is its negation.
   */
  lemma RotateYAsWrittenFlips(child: HitFn, s: real, c: real, r: Ray, tMin: real, tMax: Limit, rec: HitRecord, w: Vec3)
    requires child(RotatedRay(s, c, r), tMin, tMax, rec).hit
    requires ToWorld(s, c, child(RotatedRay(s, c, r), tMin, tMax, rec).rec.normal) == w
    requires Dot(RotatedRay(s, c, r).direction, w) > 0.0
    ensures RotateYHitAsWritten(child, s, c, r, tMin, tMax, rec).hit
    ensures RotateYHitAsWritten(child, s, c, r, tMin, tMax, rec).rec.normal == Neg(w)
  {}

  /** `i * hi + (1 - i) * lo`: the low end for `i = 0`, the high end for `i = 1`. */
  function Pick(i: int, lo: real, hi: real): real {
    i as real * hi + (1 - i) as real * lo
  }

  /** The corner `(i, j, k)` of the box (hittable.h:135-137). */
  function Corner(b: Box, i: int, j: int, k: int): Point3 {
    Vec3(Pick(i, b.minimum.x, b.maximum.x), Pick(j, b.minimum.y, b.maximum.y), Pick(k, b.minimum.z, b.maximum.z))
  }

  /** The rotated corners in the order of the constructor's three nested loops. */
  function RotatedCorners(b: Box, s: real, c: real): (pts: seq<Point3>)
    ensures |pts| == 8
  {
    seq(8, n requires 0 <= n < 8 => ToWorld(s, c, Corner(b, n / 4, (n / 2) % 2, n % 2)))
  }

  /** Every point of `pts` lies in `e`. */
  predicate BoundsAll(e: Box, pts: seq<Point3>) {
    forall q :: q in pts ==> InBox(e, q)
  }

  /** The running `min`/`max` over the points, as the innermost loop updates them. */
  function Envelope(pts: seq<Point3>): (e: Box)
    requires |pts| > 0
    ensures forall q :: q in pts ==> InBox(e, q)
  {
    if |pts| == 1 then
      SurroundingBoxContains(Box(pts[0], pts[0]), Box(pts[0], pts[0]), pts[0]);
      SurroundingBox(Box(pts[0], pts[0]), Box(pts[0], pts[0]))
    else
      var rest := Envelope(pts[..|pts| - 1]);
      var last := pts[|pts| - 1];
      var e := SurroundingBox(rest, Box(last, last));
      forall q | q in pts
        ensures InBox(e, q)
      {
        if q in pts[..|pts| - 1] {
          SurroundingBoxContains(rest, Box(last, last), q);
        } else {
          assert q == last;
          assert InBox(Box(last, last), q);
          SurroundingBoxContains(rest, Box(last, last), q);
        }
      }
      e
  }

  /** The state the `rotate_y` constructor leaves: the sine, cosine, `hasBox` and `bounds`. */
  datatype RotateY = RotateY(s: real, c: real, hasBox: bool, bounds: Box)

  /**
   * The `rotate_y` constructor for a child whose `bounding_box(0, 1)` gave
   * `childBox`. A child without a box leaves the default box at the origin.
   */
  function MakeRotateY(childBox: Option<Box>, angle: real, sin: real -> real, cos: real -> real): (rot: RotateY)
    ensures rot.hasBox == childBox.Some?
  {
    var radians := RtWeekend.DegreesToRadians(angle);
    var b := if childBox.Some? then childBox.value else Box(Zero, Zero);
    RotateY(sin(radians), cos(radians), childBox.Some?, Envelope(RotatedCorners(b, sin(radians), cos(radians))))
  }

  /** `rotate_y::bounding_box` */
  function RotateYBox(rot: RotateY): (b: Option<Box>)
    ensures b.Some? <==> rot.hasBox
  {
    if rot.hasBox then Some(rot.bounds) else None
  }

  /** `Pick` gives the low end for 0 and the high end for 1. */
  lemma PickEnds(lo: real, hi: real)
    ensures Pick(0, lo, hi) == lo && Pick(1, lo, hi) == hi
  {}

  /** For `x` between `x0` and `x1`, `a x` lies between `a x0` and `a x1`, whatever the sign of `a`. */
  lemma ScaledBetween(a: real, x0: real, x1: real, x: real, p0: real, p1: real, p: real)
    requires x0 <= x <= x1
    requires p0 == a * x0 && p1 == a * x1 && p == a * x
    ensures (p0 <= p <= p1) || (p1 <= p <= p0)
  {
    if a >= 0.0 {
      MulLe(x0, x, a);
      MulLe(x, x1, a);
    } else {
      MulLeNeg(x0, x, a);
      MulLeNeg(x, x1, a);
    }
  }

  lemma InBoxCoordinates(b: Box, q: Point3)
    requires InBox(b, q)
    ensures b.minimum.x <= q.x <= b.maximum.x
    ensures b.minimum.y <= q.y <= b.maximum.y
    ensures b.minimum.z <= q.z <= b.maximum.z
  {
    assert Between(b, q, 0) && Between(b, q, 1) && Between(b, q, 2);
  }

  lemma CoordinatesInBox(b: Box, q: Point3)
    requires b.minimum.x <= q.x <= b.maximum.x
    requires b.minimum.y <= q.y <= b.maximum.y
    requires b.minimum.z <= q.z <= b.maximum.z
    ensures InBox(b, q)
  {
    assert Between(b, q, 0) && Between(b, q, 1) && Between(b, q, 2);
  }

  /** A linear function bounded at the four corners of a rectangle is bounded on all of it. */
  lemma LinearWithin(a: real, b: real, x0: real, x1: real, z0: real, z1: real, x: real, z: real, lo: real, hi: real)
    requires x0 <= x <= x1 && z0 <= z <= z1
    requires lo <= a * x0 + b * z0 <= hi && lo <= a * x0 + b * z1 <= hi
    requires lo <= a * x1 + b * z0 <= hi && lo <= a * x1 + b * z1 <= hi
    ensures lo <= a * x + b * z <= hi
  {
    ScaledBetween(a, x0, x1, x, a * x0, a * x1, a * x);
    ScaledBetween(b, z0, z1, z, b * z0, b * z1, b * z);
  }

  /** The world `x` and `z` of the corner `(i, 0, k)`, whose object-frame `x` is `xi` and `z` is `zk`, lie within `e`. */
  lemma CornerWithin(b: Box, s: real, c: real, e: Box, i: int, k: int, xi: real, zk: real)
    requires 0 <= i <= 1 && 0 <= k <= 1
    requires xi == Pick(i, b.minimum.x, b.maximum.x) && zk == Pick(k, b.minimum.z, b.maximum.z)
    requires BoundsAll(e, RotatedCorners(b, s, c))
    ensures e.minimum.x <= c * xi + s * zk <= e.maximum.x
    ensures e.minimum.z <= (-s) * xi + c * zk <= e.maximum.z
  {
    CornerIn(b, s, c, i, 0, k);
    var q := ToWorld(s, c, Corner(b, i, 0, k));
    InBoxCoordinates(e, q);
    assert q.x == c * xi + s * zk && q.z == (-s) * xi + c * zk;
  }

  /** The world `x` of all four corners `(i, 0, k)` lies within `e`. */
  lemma CornersWithinX(b: Box, s: real, c: real, e: Box)
    requires BoundsAll(e, RotatedCorners(b, s, c))
    ensures var x0, x1, z0, z1 := b.minimum.x, b.maximum.x, b.minimum.z, b.maximum.z;
      && e.minimum.x <= c * x0 + s * z0 <= e.maximum.x && e.minimum.x <= c * x0 + s * z1 <= e.maximum.x
      && e.minimum.x <= c * x1 + s * z0 <= e.maximum.x && e.minimum.x <= c * x1 + s * z1 <= e.maximum.x
  {
    var x0, x1, z0, z1 := b.minimum.x, b.maximum.x, b.minimum.z, b.maximum.z;
    assert e.minimum.x <= c * x0 + s * z0 <= e.maximum.x by {
      PickEnds(x0, x1);
      PickEnds(z0, z1);
      CornerWithin(b, s, c, e, 0, 0, x0, z0);
    }
    assert e.minimum.x <= c * x0 + s * z1 <= e.maximum.x by {
      PickEnds(x0, x1);
      PickEnds(z0, z1);
      CornerWithin(b, s, c, e, 0, 1, x0, z1);
    }
    assert e.minimum.x <= c * x1 + s * z0 <= e.maximum.x by {
      PickEnds(x0, x1);
      PickEnds(z0, z1);
      CornerWithin(b, s, c, e, 1, 0, x1, z0);
    }
    assert e.minimum.x <= c * x1 + s * z1 <= e.maximum.x by {
      PickEnds(x0, x1);
      PickEnds(z0, z1);
      CornerWithin(b, s, c, e, 1, 1, x1, z1);
    }
  }

  /** The world `z` of all four corners `(i, 0, k)` lies within `e`. */
  lemma CornersWithinZ(b: Box, s: real, c: real, e: Box)
    requires BoundsAll(e, RotatedCorners(b, s, c))
    ensures var x0, x1, z0, z1 := b.minimum.x, b.maximum.x, b.minimum.z, b.maximum.z;
      && e.minimum.z <= (-s) * x0 + c * z0 <= e.maximum.z && e.minimum.z <= (-s) * x0 + c * z1 <= e.maximum.z
      && e.minimum.z <= (-s) * x1 + c * z0 <= e.maximum.z && e.minimum.z <= (-s) * x1 + c * z1 <= e.maximum.z
  {
    var x0, x1, z0, z1 := b.minimum.x, b.maximum.x, b.minimum.z, b.maximum.z;
    assert e.minimum.z <= (-s) * x0 + c * z0 <= e.maximum.z by {
      PickEnds(x0, x1);
      PickEnds(z0, z1);
      CornerWithin(b, s, c, e, 0, 0, x0, z0);
    }
    assert e.minimum.z <= (-s) * x0 + c * z1 <= e.maximum.z by {
      PickEnds(x0, x1);
      PickEnds(z0, z1);
      CornerWithin(b, s, c, e, 0, 1, x0, z1);
    }
    assert e.minimum.z <= (-s) * x1 + c * z0 <= e.maximum.z by {
      PickEnds(x0, x1);
      PickEnds(z0, z1);
      CornerWithin(b, s, c, e, 1, 0, x1, z0);
    }
    assert e.minimum.z <= (-s) * x1 + c * z1 <= e.maximum.z by {
      PickEnds(x0, x1);
      PickEnds(z0, z1);
      CornerWithin(b, s, c, e, 1, 1, x1, z1);
    }
  }

  lemma RotatedXWithin(b: Box, s: real, c: real, p: Point3, e: Box)
    requires InBox(b, p)
    requires BoundsAll(e, RotatedCorners(b, s, c))
    ensures e.minimum.x <= ToWorld(s, c, p).x <= e.maximum.x
  {
    InBoxCoordinates(b, p);
    CornersWithinX(b, s, c, e);
    LinearWithin(c, s, b.minimum.x, b.maximum.x, b.minimum.z, b.maximum.z, p.x, p.z, e.minimum.x, e.maximum.x);
  }

  lemma RotatedZWithin(b: Box, s: real, c: real, p: Point3, e: Box)
    requires InBox(b, p)
    requires BoundsAll(e, RotatedCorners(b, s, c))
    ensures e.minimum.z <= ToWorld(s, c, p).z <= e.maximum.z
  {
    InBoxCoordinates(b, p);
    CornersWithinZ(b, s, c, e);
    LinearWithin(-s, c, b.minimum.x, b.maximum.x, b.minimum.z, b.maximum.z, p.x, p.z, e.minimum.z, e.maximum.z);
  }

  lemma RotatedYWithin(b: Box, s: real, c: real, p: Point3, e: Box)
    requires InBox(b, p)
    requires BoundsAll(e, RotatedCorners(b, s, c))
    ensures e.minimum.y <= ToWorld(s, c, p).y <= e.maximum.y
  {
    InBoxCoordinates(b, p);
    CornerIn(b, s, c, 0, 0, 0);
    InBoxCoordinates(e, ToWorld(s, c, Corner(b, 0, 0, 0)));
    assert ToWorld(s, c, Corner(b, 0, 0, 0)).y == Pick(0, b.minimum.y, b.maximum.y) == b.minimum.y;
    CornerIn(b, s, c, 0, 1, 0);
    InBoxCoordinates(e, ToWorld(s, c, Corner(b, 0, 1, 0)));
    assert ToWorld(s, c, Corner(b, 0, 1, 0)).y == Pick(1, b.minimum.y, b.maximum.y) == b.maximum.y;
  }

  /**
   * The bounds the constructor computes contain every point of the
   * child's box carried to the world frame, so a rotated child is inside
   * the reported box.
   */
  lemma RotateYBoundsContain(childBox: Box, angle: real, sin: real -> real, cos: real -> real, p: Point3)
    requires InBox(childBox, p)
    ensures InBox(MakeRotateY(Some(childBox), angle, sin, cos).bounds,
                  ToWorld(MakeRotateY(Some(childBox), angle, sin, cos).s, MakeRotateY(Some(childBox), angle, sin, cos).c, p))
  {
    var rot := MakeRotateY(Some(childBox), angle, sin, cos);
    RotatedXWithin(childBox, rot.s, rot.c, p, rot.bounds);
    RotatedYWithin(childBox, rot.s, rot.c, p, rot.bounds);
    RotatedZWithin(childBox, rot.s, rot.c, p, rot.bounds);
    CoordinatesInBox(rot.bounds, ToWorld(rot.s, rot.c, p));
  }

  /** Every rotated corner is one of the constructor's points. */
  lemma CornerIn(b: Box, s: real, c: real, i: int, j: int, k: int)
    requires 0 <= i <= 1 && 0 <= j <= 1 && 0 <= k <= 1
    ensures ToWorld(s, c, Corner(b, i, j, k)) in RotatedCorners(b, s, c)
  {
    var n := 4 * i + 2 * j + k;
    assert n / 4 == i && (n / 2) % 2 == j && n % 2 == k;
    assert RotatedCorners(b, s, c)[n] == ToWorld(s, c, Corner(b, i, j, k));
  }

  // -----------------------------------------------------------------------
  // flip_face (hittable.h:211-225)

  function Flip(o: Outcome): (f: Outcome)
    ensures f.hit == o.hit
    ensures f.hit ==> f.rec.frontFace == !o.rec.frontFace && f.rec.(frontFace := o.rec.frontFace) == o.rec
    ensures !f.hit ==> f == o
  {
    if !o.hit then o else Outcome(true, o.rec.(frontFace := !o.rec.frontFace))
  }

  /** `flip_face::hit` */
  function FlipFaceHit(child: HitFn, r: Ray, tMin: real, tMax: Limit, rec: HitRecord): (o: Outcome)
    ensures var c := child(r, tMin, tMax, rec);
      && o.hit == c.hit
      && (!o.hit ==> o == c)
      && (o.hit ==> o.rec.frontFace == !c.rec.frontFace && o.rec.(frontFace := c.rec.frontFace) == c.rec)
  {
    Flip(child(r, tMin, tMax, rec))
  }

  /** Flipping twice gives back the child's outcome. */
  lemma FlipFaceInvolution(child: HitFn, r: Ray, tMin: real, tMax: Limit, rec: HitRecord)
    ensures FlipFaceHit((r', a, b, rec') => FlipFaceHit(child, r', a, b, rec'), r, tMin, tMax, rec) == child(r, tMin, tMax, rec)
  {}

  /** `flip_face::bounding_box` forwards to the child. */
  function FlipFaceBox(childBox: Option<Box>): (b: Option<Box>)
    ensures b == childBox
  {
    childBox
  }
}
