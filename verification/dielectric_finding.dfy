/**
 * `dielectric::scatter` names the incoming direction `unit_direction` but
 * takes `r.direction()` without normalising it, so its `cos_theta` is the
 * cosine scaled by the direction's length (then capped at 1). Two rays in
 * the same direction with different lengths can then be sent different
 * ways. With the direction normalised, as the name says, the outcome
 * depends on the direction only.
 */
module DielectricFinding {
  import opened Vec
  import opened Hittable
  import opened Material
  import MS = MovingSphere

  /** A front-face hit at the origin of the plane `z = 0`, normal (0, 0, 1). */
  function FrontHit(): HitRecord {
    HitRecord(Zero, Vec3(0.0, 0.0, 1.0), 1.0, 0.0, 0.0, true, 0)
  }

  /** The glass of index 1.5 entered from the front: ratio 2/3, normal reflectance 1/25. */
  lemma GlassNumbers()
    ensures RefractionRatio(1.5, true) == 2.0 / 3.0
    ensures NormalReflectance(2.0 / 3.0) == 0.04
    ensures Reflectance(1.0, 2.0 / 3.0) == 0.04
    ensures Reflectance(0.5, 2.0 / 3.0) == 0.07
  {
    assert Ratio(1.0, 1.5) == 2.0 / 3.0;
    assert Ratio(1.0 - 2.0 / 3.0, 1.0 + 2.0 / 3.0) == 0.2;
    assert Pow5(0.5) == 0.03125;
  }

  /** Both versions of `dielectric::scatter` choose with the same rule; they differ only in the direction they feed it. */
  lemma AsWrittenDirection(ir: real, r: Ray, rec: HitRecord, prior: ScatterOut, draws: Draws, env: Env)
    ensures DielectricAsWritten(ir, r, rec, prior, draws, env).out.scattered.direction
         == DielectricDirection(RefractionRatio(ir, rec.frontFace), r.direction, rec.normal, draws.uniform, env)
  {}

  /** The same, with the ratio, the normal and the draw given as plain values. */
  lemma AsWrittenDirectionWith(ir: real, r: Ray, rec: HitRecord, prior: ScatterOut, draws: Draws, env: Env,
                               ratio: real, n: Vec3, draw: real, dir: Vec3)
    requires ratio == RefractionRatio(ir, rec.frontFace) && n == rec.normal && draw == draws.uniform
    requires dir == DielectricDirection(ratio, r.direction, n, draw, env)
    ensures DielectricAsWritten(ir, r, rec, prior, draws, env).out.scattered.direction == dir
  {
    AsWrittenDirection(ir, r, rec, prior, draws, env);
  }

  /** The long ray meets the normal (0, 0, 1) with a scaled "cosine" that the cap brings down to 1. */
  lemma LongRayCosine(d: Vec3)
    requires d == Vec3(1.0, 0.0, -1.0)
    ensures CosTheta(d, Vec3(0.0, 0.0, 1.0)) == 1.0
  {}

  /** The short ray's scaled "cosine" is 0.5, below the cap. */
  lemma ShortRayCosine(d: Vec3)
    requires d == Vec3(0.5, 0.0, -0.5)
    ensures CosTheta(d, Vec3(0.0, 0.0, 1.0)) == 0.5
  {}

  /** Head-on, Snell's law always has a solution. */
  lemma HeadOnRefracts(ratio: real, sqrt: real -> real)
    requires sqrt(0.0) == 0.0
    ensures !CannotRefract(ratio, 1.0, sqrt)
  {}

  /** With the reflectance at or below the draw and Snell's law solvable, the dielectric refracts. */
  lemma RefractsWhen(ratio: real, d: Vec3, n: Vec3, draw: real, env: Env, c: real)
    requires c == CosTheta(d, n)
    requires !CannotRefract(ratio, c, env.sqrt)
    requires Reflectance(c, ratio) <= draw
    ensures DielectricDirection(ratio, d, n, draw, env) == env.refract(d, n, ratio)
  {}

  /** With the reflectance above the draw, the dielectric reflects. */
  lemma ReflectsWhen(ratio: real, d: Vec3, n: Vec3, draw: real, env: Env, c: real)
    requires c == CosTheta(d, n)
    requires Reflectance(c, ratio) > draw
    ensures DielectricDirection(ratio, d, n, draw, env) == env.reflect(d, n)
  {}

  /** Glass entered head-on (`cos_theta` 1) with the draw 0.05 refracts. */
  lemma LongRayDirection(d: Vec3, n: Vec3, env: Env)
    requires CosTheta(d, n) == 1.0 && env.sqrt(0.0) == 0.0
    ensures DielectricDirection(2.0 / 3.0, d, n, 0.05, env) == env.refract(d, n, 2.0 / 3.0)
  {
    HeadOnRefracts(2.0 / 3.0, env.sqrt);
    assert Reflectance(1.0, 2.0 / 3.0) == 0.04 by { GlassNumbers(); }
    RefractsWhen(2.0 / 3.0, d, n, 0.05, env, 1.0);
  }

  /** Glass met with `cos_theta` 0.5 and the draw 0.05 reflects. */
  lemma ShortRayDirection(d: Vec3, n: Vec3, env: Env)
    requires CosTheta(d, n) == 0.5
    ensures DielectricDirection(2.0 / 3.0, d, n, 0.05, env) == env.reflect(d, n)
  {
    assert Reflectance(0.5, 2.0 / 3.0) == 0.07 by { GlassNumbers(); }
    ReflectsWhen(2.0 / 3.0, d, n, 0.05, env, 0.5);
  }

  /**
   * As written, the ray along (1, 0, -1), at 45 degrees to the normal, gets
   * `cos_theta` 1, as if it arrived head-on, and with the draw 0.05 it
   * refracts.
   */
  lemma AsWrittenLongRayRefracts(r: Ray, prior: ScatterOut, draws: Draws, env: Env)
    requires r.direction == Vec3(1.0, 0.0, -1.0) && draws.uniform == 0.05
    requires env.sqrt(0.0) == 0.0
    ensures CosTheta(r.direction, FrontHit().normal) == 1.0
    ensures DielectricAsWritten(1.5, r, FrontHit(), prior, draws, env).out.scattered.direction
         == env.refract(r.direction, FrontHit().normal, 2.0 / 3.0)
  {
    LongRayCosine(r.direction);
    LongRayScatter(r, prior, draws, env);
  }

  lemma LongRayScatter(r: Ray, prior: ScatterOut, draws: Draws, env: Env)
    requires CosTheta(r.direction, FrontHit().normal) == 1.0 && draws.uniform == 0.05
    requires env.sqrt(0.0) == 0.0
    ensures DielectricAsWritten(1.5, r, FrontHit(), prior, draws, env).out.scattered.direction
         == env.refract(r.direction, FrontHit().normal, 2.0 / 3.0)
  {
    var n := FrontHit().normal;
    LongRayDirection(r.direction, n, env);
    GlassNumbers();
    AsWrittenDirectionWith(1.5, r, FrontHit(), prior, draws, env, 2.0 / 3.0, n, 0.05, env.refract(r.direction, n, 2.0 / 3.0));
  }

  lemma ShortRayScatter(r: Ray, prior: ScatterOut, draws: Draws, env: Env)
    requires CosTheta(r.direction, FrontHit().normal) == 0.5 && draws.uniform == 0.05
    ensures DielectricAsWritten(1.5, r, FrontHit(), prior, draws, env).out.scattered.direction
         == env.reflect(r.direction, FrontHit().normal)
  {
    var n := FrontHit().normal;
    ShortRayDirection(r.direction, n, env);
    GlassNumbers();
    AsWrittenDirectionWith(1.5, r, FrontHit(), prior, draws, env, 2.0 / 3.0, n, 0.05, env.reflect(r.direction, n));
  }

  /**
   * ... while the ray along (0.5, 0, -0.5), the same direction at half the
   * length, gets `cos_theta` 0.5, and with the same draw it reflects.
   */
  lemma AsWrittenShortRayReflects(r: Ray, prior: ScatterOut, draws: Draws, env: Env)
    requires r.direction == Vec3(0.5, 0.0, -0.5) && draws.uniform == 0.05
    ensures CosTheta(r.direction, FrontHit().normal) == 0.5
    ensures DielectricAsWritten(1.5, r, FrontHit(), prior, draws, env).out.scattered.direction
         == env.reflect(r.direction, FrontHit().normal)
  {
    ShortRayScatter(r, prior, draws, env);
    ShortRayCosine(r.direction);
  }

  lemma LengthSquaredScale(k: real, d: Vec3)
    ensures LengthSquared(Scale(k, d)) == (k * k) * LengthSquared(d)
  {}

  lemma SquareOfProduct(k: real, l: real)
    ensures (k * l) * (k * l) == (k * k) * (l * l)
  {}

  /** `(k x) / (k l) = x / l`, with `k x` and the left side as plain numbers. */
  lemma CancelFactor(k: real, l: real, x: real, kx: real, q: real)
    requires k != 0.0 && l != 0.0
    requires kx == k * x && q == (1.0 / (k * l)) * kx
    ensures q == (1.0 / l) * x
  {}

  /** With an exact square root, stretching a non-zero vector by `k > 0` stretches its length by `k`. */
  lemma LengthScales(d: Vec3, k: real, sqrt: real -> real)
    requires k > 0.0 && LengthSquared(d) > 0.0
    requires IsSqrtAt(sqrt, LengthSquared(d)) && IsSqrtAt(sqrt, LengthSquared(Scale(k, d)))
    ensures Length(d, sqrt) > 0.0
    ensures Length(Scale(k, d), sqrt) == k * Length(d, sqrt)
  {
    var l := Length(d, sqrt);
    var m := Length(Scale(k, d), sqrt);
    assert l * l == LengthSquared(d);
    assert l > 0.0;
    assert m * m == (k * l) * (k * l) by {
      LengthSquaredScale(k, d);
      SquareOfProduct(k, l);
    }
    assert k * l > 0.0 by { MulStrict(0.0, k, l); }
    MS.EqualSquares(m, k * l);
  }

  /** The unit vector of `v` whose length `l` is not zero is `v / l`. */
  lemma UnitVectorWith(v: Vec3, sqrt: real -> real, l: real)
    requires Length(v, sqrt) == l && l != 0.0
    ensures UnitVector(v, sqrt) == Scale(1.0 / l, v)
  {}

  /** The unit vector does not change when its argument is stretched by a positive factor. */
  lemma UnitVectorScaleInvariant(d: Vec3, k: real, sqrt: real -> real)
    requires k > 0.0 && LengthSquared(d) > 0.0
    requires IsSqrtAt(sqrt, LengthSquared(d)) && IsSqrtAt(sqrt, LengthSquared(Scale(k, d)))
    ensures UnitVector(Scale(k, d), sqrt) == UnitVector(d, sqrt)
  {
    LengthScales(d, k, sqrt);
    var l := Length(d, sqrt);
    var kd := Scale(k, d);
    var kl := k * l;
    assert kl > 0.0 by { MulStrict(0.0, k, l); }
    UnitVectorWith(kd, sqrt, kl);
    UnitVectorWith(d, sqrt, l);
    ScaleCancel(k, l, d);
  }

  /** `(k d) / (k l) = d / l` */
  lemma ScaleCancel(k: real, l: real, d: Vec3)
    requires k != 0.0 && l != 0.0
    ensures Scale(1.0 / (k * l), Scale(k, d)) == Scale(1.0 / l, d)
  {
    var kd := Scale(k, d);
    var u := Scale(1.0 / (k * l), kd);
    CancelFactor(k, l, d.x, kd.x, u.x);
    CancelFactor(k, l, d.y, kd.y, u.y);
    CancelFactor(k, l, d.z, kd.z, u.z);
  }

  /**
   * Corrected: stretching the ray's direction by any positive factor does
   * not change what the dielectric does.
   */
  lemma CorrectedIgnoresLength(ir: real, r: Ray, k: real, rec: HitRecord, prior: ScatterOut, draws: Draws, env: Env)
    requires k > 0.0 && LengthSquared(r.direction) > 0.0
    requires IsSqrtAt(env.sqrt, LengthSquared(r.direction))
    requires IsSqrtAt(env.sqrt, LengthSquared(Scale(k, r.direction)))
    ensures DielectricScatter(ir, r.(direction := Scale(k, r.direction)), rec, prior, draws, env)
         == DielectricScatter(ir, r, rec, prior, draws, env)
  {
    UnitVectorScaleInvariant(r.direction, k, env.sqrt);
  }
}
