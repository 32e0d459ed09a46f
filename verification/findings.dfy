/**
 * Concrete inputs on which the `translate` and `rotate_y` wrappers of
 * hittable.h, as written, report a hit whose orientation disagrees with
 * the wrapped object's, next to the corrected wrappers the rest of the
 * model uses.
 */
module TransformFindings {
  import opened Vec
  import opened Hittable
  import opened AaRect

  /** The square `[-1, 1] x [-1, 1]` of the plane `z = k`. */
  function Square(k: real): Rect {
    Rect(XY, -1.0, 1.0, -1.0, 1.0, k, 0)
  }

  /** A ray travelling along +z that meets the square from below hits its back face. */
  lemma BackOfSquare(k: real, r: Ray, t: real)
    requires r.direction.z > 0.0 && 0.001 <= t
    requires OnRect(Square(k), At(r, t))
    ensures RectHit(Square(k), r, 0.001, Infinity, Blank).hit
    ensures RectHit(Square(k), r, 0.001, Infinity, Blank).rec.t == t
    ensures !RectHit(Square(k), r, 0.001, Infinity, Blank).rec.frontFace
    ensures RectHit(Square(k), r, 0.001, Infinity, Blank).rec.normal == Vec3(0.0, 0.0, -1.0)
  {
    RectHitComplete(Square(k), r, 0.001, Infinity, Blank, t);
    RectHitNormal(Square(k), r, 0.001, Infinity, Blank);
  }

  /** The ray `r` along +z from (0, 0, -1) meets the back of the square at the origin. */
  lemma SquareBackHitAlongZ(r: Ray)
    requires r == Ray(Vec3(0.0, 0.0, -1.0), Vec3(0.0, 0.0, 1.0), 0.0)
    ensures MovedRay(r, Zero) == r
    ensures AsHitFn(Square(0.0))(r, 0.001, Infinity, Blank).hit
    ensures !AsHitFn(Square(0.0))(r, 0.001, Infinity, Blank).rec.frontFace
    ensures Dot(r.direction, AsHitFn(Square(0.0))(r, 0.001, Infinity, Blank).rec.normal) < 0.0
  {
    assert At(r, 1.0) == Zero;
    BackOfSquare(0.0, r, 1.0);
    assert AsHitFn(Square(0.0))(r, 0.001, Infinity, Blank) == RectHit(Square(0.0), r, 0.001, Infinity, Blank);
  }

  /**
   * The square reports a back face for `r`, and `translate` as written
   * (here by the zero offset) reports a front face.
   */
  lemma TranslateReportsBackFaceAsFront(r: Ray)
    requires r == Ray(Vec3(0.0, 0.0, -1.0), Vec3(0.0, 0.0, 1.0), 0.0)
    ensures !AsHitFn(Square(0.0))(r, 0.001, Infinity, Blank).rec.frontFace
    ensures TranslateHitAsWritten(AsHitFn(Square(0.0)), Zero, r, 0.001, Infinity, Blank).hit
    ensures TranslateHitAsWritten(AsHitFn(Square(0.0)), Zero, r, 0.001, Infinity, Blank).rec.frontFace
  {
    SquareBackHitAlongZ(r);
    TranslateAsWrittenForcesFront(AsHitFn(Square(0.0)), Zero, r, 0.001, Infinity, Blank);
  }

  /** The corrected `translate` keeps the back face for the same ray. */
  lemma TranslateKeepsBackFace(r: Ray)
    requires r == Ray(Vec3(0.0, 0.0, -1.0), Vec3(0.0, 0.0, 1.0), 0.0)
    ensures TranslateHit(AsHitFn(Square(0.0)), Zero, r, 0.001, Infinity, Blank).hit
    ensures !TranslateHit(AsHitFn(Square(0.0)), Zero, r, 0.001, Infinity, Blank).rec.frontFace
  {
    SquareBackHitAlongZ(r);
  }

  /** The sine 0.8 and cosine -0.6 describe a rotation. */
  lemma RotationOfX()
    ensures IsRotation(0.8, -0.6)
  {}

  /** The ray `r` along +x from the origin, seen through that rotation. */
  lemma RotatedAlongX(r: Ray)
    requires r == Ray(Zero, Vec3(1.0, 0.0, 0.0), 0.0)
    ensures RotatedRay(0.8, -0.6, r) == Ray(Zero, Vec3(-0.6, 0.0, 0.8), 0.0)
  {}

  /** The normal (0, 0, -1) carried back to the world frame points along the object-frame ray. */
  lemma BackNormalInWorld()
    ensures ToWorld(0.8, -0.6, Vec3(0.0, 0.0, -1.0)) == Vec3(-0.8, 0.0, 0.6)
    ensures Dot(Vec3(-0.6, 0.0, 0.8), Vec3(-0.8, 0.0, 0.6)) > 0.0
  {}

  /**
   * Whatever the wrapped object, a hit with normal (0, 0, -1) on the
   * object-frame ray of `r` comes out of `rotate_y` as written with the
   * normal (0.8, 0, -0.6), which faces away from `r`.
   */
  lemma RotateYAsWrittenOnX(child: HitFn, r: Ray)
    requires r == Ray(Zero, Vec3(1.0, 0.0, 0.0), 0.0)
    requires child(RotatedRay(0.8, -0.6, r), 0.001, Infinity, Blank).hit
    requires child(RotatedRay(0.8, -0.6, r), 0.001, Infinity, Blank).rec.normal == Vec3(0.0, 0.0, -1.0)
    ensures RotateYHitAsWritten(child, 0.8, -0.6, r, 0.001, Infinity, Blank).hit
    ensures RotateYHitAsWritten(child, 0.8, -0.6, r, 0.001, Infinity, Blank).rec.normal == Vec3(0.8, 0.0, -0.6)
    ensures Dot(r.direction, RotateYHitAsWritten(child, 0.8, -0.6, r, 0.001, Infinity, Blank).rec.normal) > 0.0
  {
    RotatedAlongX(r);
    AsWrittenNormalOnX(child, r);
    AlongXDot(r.direction, RotateYHitAsWritten(child, 0.8, -0.6, r, 0.001, Infinity, Blank).rec.normal);
  }

  /** The ray along +x meets the normal (0.8, 0, -0.6) from behind. */
  lemma AlongXDot(d: Vec3, n: Vec3)
    requires d == Vec3(1.0, 0.0, 0.0) && n == Vec3(0.8, 0.0, -0.6)
    ensures Dot(d, n) > 0.0
  {}

  /** The normal `rotate_y` as written reports for that hit. */
  lemma AsWrittenNormalOnX(child: HitFn, r: Ray)
    requires RotatedRay(0.8, -0.6, r).direction == Vec3(-0.6, 0.0, 0.8)
    requires child(RotatedRay(0.8, -0.6, r), 0.001, Infinity, Blank).hit
    requires child(RotatedRay(0.8, -0.6, r), 0.001, Infinity, Blank).rec.normal == Vec3(0.0, 0.0, -1.0)
    ensures RotateYHitAsWritten(child, 0.8, -0.6, r, 0.001, Infinity, Blank).hit
    ensures RotateYHitAsWritten(child, 0.8, -0.6, r, 0.001, Infinity, Blank).rec.normal == Vec3(0.8, 0.0, -0.6)
  {
    BackNormalInWorld();
    RotateYAsWrittenFlips(child, 0.8, -0.6, r, 0.001, Infinity, Blank, Vec3(-0.8, 0.0, 0.6));
  }

  /** ... and out of the corrected wrapper with the normal (-0.8, 0, 0.6), which faces `r`. */
  lemma RotateYCorrectedOnX(child: HitFn, r: Ray)
    requires r == Ray(Zero, Vec3(1.0, 0.0, 0.0), 0.0)
    requires child(RotatedRay(0.8, -0.6, r), 0.001, Infinity, Blank).hit
    requires child(RotatedRay(0.8, -0.6, r), 0.001, Infinity, Blank).rec.normal == Vec3(0.0, 0.0, -1.0)
    ensures RotateYHit(child, 0.8, -0.6, r, 0.001, Infinity, Blank).rec.normal == Vec3(-0.8, 0.0, 0.6)
    ensures Dot(r.direction, RotateYHit(child, 0.8, -0.6, r, 0.001, Infinity, Blank).rec.normal) < 0.0
  {
    BackNormalInWorld();
    assert Dot(Vec3(1.0, 0.0, 0.0), Vec3(-0.8, 0.0, 0.6)) == -0.8;
  }

  /**
   * A rotation with sine 0.8 and cosine -0.6 carries the world ray `r`
   * along +x to the object-frame direction (-0.6, 0, 0.8), which meets the
   * back of the square at `z = 0.8`. The world normal should be
   * (-0.8, 0, 0.6), facing the world ray; `rotate_y` as written orients it
   * against the object-frame ray instead and returns (0.8, 0, -0.6), which
   * faces away from the world ray.
   */
  lemma RotateYNormalFacesAway(r: Ray)
    requires r == Ray(Zero, Vec3(1.0, 0.0, 0.0), 0.0)
    ensures IsRotation(0.8, -0.6)
    ensures RotateYHitAsWritten(AsHitFn(Square(0.8)), 0.8, -0.6, r, 0.001, Infinity, Blank).hit
    ensures Dot(r.direction, RotateYHitAsWritten(AsHitFn(Square(0.8)), 0.8, -0.6, r, 0.001, Infinity, Blank).rec.normal) > 0.0
    ensures Dot(r.direction, RotateYHit(AsHitFn(Square(0.8)), 0.8, -0.6, r, 0.001, Infinity, Blank).rec.normal) < 0.0
  {
    var q := RotatedRay(0.8, -0.6, r);
    RotationOfX();
    RotatedAlongX(r);
    assert At(q, 1.0) == Vec3(-0.6, 0.0, 0.8);
    BackOfSquare(0.8, q, 1.0);
    assert AsHitFn(Square(0.8))(q, 0.001, Infinity, Blank) == RectHit(Square(0.8), q, 0.001, Infinity, Blank);
    RotateYAsWrittenOnX(AsHitFn(Square(0.8)), r);
    RotateYCorrectedOnX(AsHitFn(Square(0.8)), r);
  }
}
