/**
 * The materials of material.h: the inert base `material`, `lambertian`,
 * `metal`, `dielectric`, `diffuse_light` and `isotropic`.
 *
 * `scatter` fills three out-parameters (`albedo`, `scattered`, `pdf`) and
 * returns a flag; a material that returns early leaves them as they were,
 * so the model takes their prior values and returns the flag together
 * with the values as `scatter` left them.
 *
 * The vector routines of vec3.h (`reflect`, `refract`) and the square root
 * and sine are parameters bundled in `Env`; the random draws of one call
 * are parameters bundled in `Draws`.
 */
module Material {
  import opened Vec
  import opened RtWeekend
  import opened Hittable
  import opened Texture
  import opened Onb
  import P = Pdf

  datatype Material =
    | Base
    | Lambertian(albedo: Texture)
    | Metal(color: Color, fuzz: real)
    | Dielectric(ir: real)
    | DiffuseLight(emit: Texture)
    | Isotropic(albedo: Texture)

  /** The routines of vec3.h and the maths library the materials call. */
  datatype Env = Env(
    sqrt: real -> real,
    sin: real -> real,
    reflect: (Vec3, Vec3) -> Vec3,
    refract: (Vec3, Vec3, real) -> Vec3)

  /** The random values one `scatter` call may use. */
  datatype Draws = Draws(hemisphere: Vec3, unitSphere: Vec3, uniform: real)

  /** The out-parameters of `scatter`. */
  datatype ScatterOut = ScatterOut(albedo: Color, scattered: Ray, pdf: real)

  datatype Scattered = Scattered(ok: bool, out: ScatterOut)

  /** `lambertian(color)`, `diffuse_light(color)` and `isotropic(color)` wrap the colour in a solid texture. */
  function LambertianColor(c: Color): (m: Material)
    ensures m.Lambertian? && m.albedo == Solid(c)
  {
    Lambertian(Solid(c))
  }

  // -----------------------------------------------------------------------
  // dielectric helpers (material.h:96-130)

  /** `refraction_ratio`: `1 / ir` entering through the front face, `ir` leaving. */
  function RefractionRatio(ir: real, frontFace: bool): (ratio: real)
    ensures ir != 0.0 && frontFace ==> ratio * ir == 1.0
    ensures !frontFace ==> ratio == ir
    ensures ir > 0.0 ==> ratio > 0.0
  {
    if frontFace then Ratio(1.0, ir) else ir
  }

  /** `fmin` */
  function Min(a: real, b: real): (m: real)
    ensures m <= a && m <= b && (m == a || m == b)
  {
    if a < b then a else b
  }

  /** `pow(x, 5)`: the exponent is the literal 5, so over the reals it is a product. */
  function Pow5(x: real): real {
    x * x * x * x * x
  }

  /** The fifth power maps `[0, 1]` into `[0, 1]`. */
  lemma Pow5Unit(x: real)
    requires 0.0 <= x <= 1.0
    ensures 0.0 <= Pow5(x) <= 1.0
  {
    var p2 := x * x;
    assert 0.0 <= p2 <= 1.0 by { PowerStep(x, x); }
    var p3 := p2 * x;
    assert 0.0 <= p3 <= 1.0 by { PowerStep(x, p2); }
    var p4 := p3 * x;
    assert 0.0 <= p4 <= 1.0 by { PowerStep(x, p3); }
    var p5 := p4 * x;
    assert 0.0 <= p5 <= 1.0 by { PowerStep(x, p4); }
    assert Pow5(x) == p5;
  }

  /** One more factor from `[0, 1]` keeps a power in `[0, 1]`. */
  lemma PowerStep(x: real, p: real)
    requires 0.0 <= x <= 1.0 && 0.0 <= p <= 1.0
    ensures 0.0 <= p * x <= 1.0
  {
    assert p * x <= 1.0 * x by { MulLe(p, 1.0, x); }
    assert 0.0 * x <= p * x by { MulLe(0.0, p, x); }
  }

  /** `r0 = ((1 - n) / (1 + n))^2`, the reflectance at normal incidence. */
  function NormalReflectance(n: real): real {
    var q := Ratio(1.0 - n, 1.0 + n);
    q * q
  }

  /** For a positive index `r0` lies in `[0, 1)`. */
  lemma NormalReflectanceBounds(n: real)
    requires n > 0.0
    ensures 0.0 <= NormalReflectance(n) < 1.0
  {
    var q := Ratio(1.0 - n, 1.0 + n);
    assert q * (1.0 + n) == 1.0 - n;
    assert -1.0 < q < 1.0 by {
      if q >= 1.0 { MulLe(1.0, q, 1.0 + n); }
      if q <= -1.0 { MulLe(q, -1.0, 1.0 + n); }
    }
    var a := Abs(q);
    assert a * a == q * q;
    MulLe(a, 1.0, a);
    SquareNonNegative(q);
  }

  /** `reflectance(cosine, ref_idx)`: Schlick's approximation. */
  function Reflectance(cosine: real, refIdx: real): (r: real)
    ensures refIdx > 0.0 && 0.0 <= cosine <= 1.0 ==> NormalReflectance(refIdx) <= r <= 1.0
    ensures cosine == 1.0 ==> r == NormalReflectance(refIdx)
  {
    var r0 := NormalReflectance(refIdx);
    ReflectanceBounds(cosine, refIdx);
    r0 + (1.0 - r0) * Pow5(1.0 - cosine)
  }

  lemma ReflectanceBounds(cosine: real, refIdx: real)
    ensures var r0 := NormalReflectance(refIdx);
      refIdx > 0.0 && 0.0 <= cosine <= 1.0 ==> r0 <= r0 + (1.0 - r0) * Pow5(1.0 - cosine) <= 1.0
  {
    if refIdx > 0.0 && 0.0 <= cosine <= 1.0 {
      var r0 := NormalReflectance(refIdx);
      NormalReflectanceBounds(refIdx);
      Pow5Unit(1.0 - cosine);
      Blend(r0, Pow5(1.0 - cosine));
    }
  }

  /** Moving `r0` toward 1 by a fraction `p` of the gap stays in `[r0, 1]`. */
  lemma Blend(r0: real, p: real)
    requires r0 < 1.0 && 0.0 <= p <= 1.0
    ensures r0 <= r0 + (1.0 - r0) * p <= 1.0
  {
    MulLe(0.0, p, 1.0 - r0);
    MulLe(p, 1.0, 1.0 - r0);
    assert p * (1.0 - r0) == (1.0 - r0) * p;
  }

  /** `cos_theta`: the cosine of incidence against the normal, capped at 1. */
  function CosTheta(d: Vec3, normal: Vec3): (c: real)
    ensures c <= 1.0
  {
    Min(Dot(Neg(d), normal), 1.0)
  }

  /** `cannot_refract`: Snell's law gives a sine above 1. */
  predicate CannotRefract(ratio: real, cosTheta: real, sqrt: real -> real) {
    ratio * sqrt(1.0 - cosTheta * cosTheta) > 1.0
  }

  /**
   * The dielectric's direction, from the direction `d` it treats as the
   * unit incoming direction: reflect when Snell's law has no solution or
   * when the draw falls below the reflectance, refract otherwise.
   */
  function DielectricDirection(ratio: real, d: Vec3, normal: Vec3, draw: real, env: Env): (dir: Vec3)
    ensures CannotRefract(ratio, CosTheta(d, normal), env.sqrt) ==> dir == env.reflect(d, normal)
    ensures Reflectance(CosTheta(d, normal), ratio) > draw ==> dir == env.reflect(d, normal)
    ensures !CannotRefract(ratio, CosTheta(d, normal), env.sqrt) && Reflectance(CosTheta(d, normal), ratio) <= draw
      ==> dir == env.refract(d, normal, ratio)
  {
    var cosTheta := CosTheta(d, normal);
    if CannotRefract(ratio, cosTheta, env.sqrt) || Reflectance(cosTheta, ratio) > draw then env.reflect(d, normal)
    else env.refract(d, normal, ratio)
  }

  /** `dielectric::scatter` from the direction `d` it treats as the unit incoming direction. */
  function DielectricFrom(ir: real, d: Vec3, r: Ray, rec: HitRecord, prior: ScatterOut, draws: Draws, env: Env): (s: Scattered)
    ensures s.ok && s.out.albedo == Vec3(1.0, 1.0, 1.0) && s.out.pdf == prior.pdf
    ensures s.out.scattered.origin == rec.p && s.out.scattered.time == r.time
  {
    var direction := DielectricDirection(RefractionRatio(ir, rec.frontFace), d, rec.normal, draws.uniform, env);
    Scattered(true, ScatterOut(Vec3(1.0, 1.0, 1.0), Ray(rec.p, direction, r.time), prior.pdf))
  }

  /**
   * `dielectric::scatter` as material.h writes it: the "unit" direction is
   * the ray's direction as given, not normalised.
   */
  function DielectricAsWritten(ir: real, r: Ray, rec: HitRecord, prior: ScatterOut, draws: Draws, env: Env): (s: Scattered)
    ensures s.ok && s.out.albedo == Vec3(1.0, 1.0, 1.0) && s.out.scattered.origin == rec.p
    ensures var ratio, c := RefractionRatio(ir, rec.frontFace), CosTheta(r.direction, rec.normal);
      CannotRefract(ratio, c, env.sqrt) || Reflectance(c, ratio) > draws.uniform ==>
        s.out.scattered.direction == env.reflect(r.direction, rec.normal)
    ensures var ratio, c := RefractionRatio(ir, rec.frontFace), CosTheta(r.direction, rec.normal);
      !CannotRefract(ratio, c, env.sqrt) && Reflectance(c, ratio) <= draws.uniform ==>
        s.out.scattered.direction == env.refract(r.direction, rec.normal, ratio)
  {
    DielectricFrom(ir, r.direction, r, rec, prior, draws, env)
  }

  /** `dielectric::scatter` with the direction normalised, as its variable name says. */
  function DielectricScatter(ir: real, r: Ray, rec: HitRecord, prior: ScatterOut, draws: Draws, env: Env): (s: Scattered)
    ensures s.ok && s.out.albedo == Vec3(1.0, 1.0, 1.0) && s.out.scattered.origin == rec.p
    ensures var d := UnitVector(r.direction, env.sqrt);
      var ratio, c := RefractionRatio(ir, rec.frontFace), CosTheta(d, rec.normal);
      CannotRefract(ratio, c, env.sqrt) || Reflectance(c, ratio) > draws.uniform ==>
        s.out.scattered.direction == env.reflect(d, rec.normal)
    ensures var d := UnitVector(r.direction, env.sqrt);
      var ratio, c := RefractionRatio(ir, rec.frontFace), CosTheta(d, rec.normal);
      !CannotRefract(ratio, c, env.sqrt) && Reflectance(c, ratio) <= draws.uniform ==>
        s.out.scattered.direction == env.refract(d, rec.normal, ratio)
  {
    DielectricFrom(ir, UnitVector(r.direction, env.sqrt), r, rec, prior, draws, env)
  }

  // -----------------------------------------------------------------------
  // scatter, scattering_pdf, emitted

  /** `material::scatter` */
  function Scatter(m: Material, r: Ray, rec: HitRecord, prior: ScatterOut, draws: Draws, env: Env): (s: Scattered)
    ensures !s.ok && (m.Base? || m.DiffuseLight?) ==> s.out == prior
    ensures m.Lambertian? || m.Isotropic? || m.Dielectric? ==> s.ok
    ensures m.Base? || m.DiffuseLight? ==> !s.ok
  {
    match m
    case Base => Scattered(false, prior)
    case Lambertian(albedo) =>
      var uvw := BuildFromW(rec.normal, env.sqrt);
      var direction := LocalVec(uvw, draws.hemisphere);
      var scattered := Ray(rec.p, UnitVector(direction, env.sqrt), r.time);
      var alb := Sample(albedo, rec.u, rec.v, rec.p, env.sin);
      Scattered(true, ScatterOut(alb, scattered, Dot(uvw.w, scattered.direction) / Pi))
    case Metal(albedo, fuzz) =>
      var reflected := env.reflect(UnitVector(r.direction, env.sqrt), rec.normal);
      var scattered := Ray(rec.p, Add(reflected, Scale(fuzz, draws.unitSphere)), r.time);
      Scattered(Dot(scattered.direction, rec.normal) > 0.0, ScatterOut(albedo, scattered, prior.pdf))
    case Dielectric(ir) => DielectricScatter(ir, r, rec, prior, draws, env)
    case DiffuseLight(_) => Scattered(false, prior)
    case Isotropic(albedo) =>
      var alb := Sample(albedo, rec.u, rec.v, rec.p, env.sin);
      Scattered(true, ScatterOut(alb, Ray(rec.p, draws.unitSphere, r.time), prior.pdf))
  }

  /** `material::scattering_pdf`: only the lambertian overrides the base's 0. */
  function ScatteringPdf(m: Material, r: Ray, rec: HitRecord, scattered: Ray, sqrt: real -> real): (p: real)
    ensures p >= 0.0
    ensures !m.Lambertian? ==> p == 0.0
    ensures m.Lambertian? ==> (p > 0.0 <==> Dot(rec.normal, UnitVector(scattered.direction, sqrt)) > 0.0)
  {
    match m
    case Lambertian(_) =>
      var cosine := Dot(rec.normal, UnitVector(scattered.direction, sqrt));
      if cosine < 0.0 then 0.0 else cosine / Pi
    case _ => 0.0
  }

  /** `material::emitted`: only a diffuse light emits, and only from its front face. */
  function Emitted(m: Material, r: Ray, rec: HitRecord, u: real, v: real, p: Point3, sin: real -> real): (c: Color)
    ensures !m.DiffuseLight? || !rec.frontFace ==> c == Black
  {
    match m
    case DiffuseLight(emit) => if rec.frontFace then Sample(emit, u, v, p, sin) else Black
    case _ => Black
  }

  // -----------------------------------------------------------------------
  // Properties

  /** Every material that writes a scattered ray starts it at the hit point, at the incoming ray's time. */
  lemma ScatteredFromHitPoint(m: Material, r: Ray, rec: HitRecord, prior: ScatterOut, draws: Draws, env: Env)
    requires !m.Base? && !m.DiffuseLight?
    ensures Scatter(m, r, rec, prior, draws, env).out.scattered.origin == rec.p
    ensures Scatter(m, r, rec, prior, draws, env).out.scattered.time == r.time
  {}

  /** A diffuse light emits its texture's sample from the front and black from behind. */
  lemma DiffuseLightEmits(emit: Texture, r: Ray, rec: HitRecord, u: real, v: real, p: Point3, sin: real -> real)
    ensures rec.frontFace ==> Emitted(DiffuseLight(emit), r, rec, u, v, p, sin) == Sample(emit, u, v, p, sin)
    ensures !rec.frontFace ==> Emitted(DiffuseLight(emit), r, rec, u, v, p, sin) == Black
  {}

  /** A lambertian surface takes its attenuation from its texture at the hit's coordinates. */
  lemma LambertianAlbedo(albedo: Texture, r: Ray, rec: HitRecord, prior: ScatterOut, draws: Draws, env: Env)
    ensures Scatter(Lambertian(albedo), r, rec, prior, draws, env).out.albedo == Sample(albedo, rec.u, rec.v, rec.p, env.sin)
  {}

  /**
   * The density `lambertian::scatter` reports for its scattered direction is
   * the cosine density about the normal (`cosine_pdf(rec.normal)`) of that
   * direction, wherever it is positive; given a square root exact at the
   * squared length of the local direction and at 1.
   */
  lemma LambertianPdfIsCosineDensity(albedo: Texture, r: Ray, rec: HitRecord, prior: ScatterOut, draws: Draws, env: Env)
    requires IsSqrtAt(env.sqrt, LengthSquared(LocalVec(BuildFromW(rec.normal, env.sqrt), draws.hemisphere)))
    requires env.sqrt(1.0) == 1.0
    ensures var out := Scatter(Lambertian(albedo), r, rec, prior, draws, env).out;
      out.pdf > 0.0 ==> out.pdf == P.Sample(P.CosinePdf(rec.normal, env.sqrt), out.scattered.direction, env.sqrt)
  {
    var uvw := BuildFromW(rec.normal, env.sqrt);
    var d := LocalVec(uvw, draws.hemisphere);
    var e := UnitVector(d, env.sqrt);
    UnitVectorTwice(d, env.sqrt);
    DotSymmetric(uvw.w, e);
    assert P.CosineOf(uvw, e, env.sqrt) == Dot(uvw.w, e);
  }

  /** With a square root exact where needed, `unit_vector` changes nothing the second time. */
  lemma UnitVectorTwice(d: Vec3, sqrt: real -> real)
    requires IsSqrtAt(sqrt, LengthSquared(d))
    requires sqrt(1.0) == 1.0
    ensures UnitVector(UnitVector(d, sqrt), sqrt) == UnitVector(d, sqrt)
  {
    var l := Length(d, sqrt);
    if l != 0.0 {
      UnitVectorOfNonZeroLength(d, sqrt);
      var e := UnitVector(d, sqrt);
      assert Length(e, sqrt) == 1.0;
      assert Scale(1.0 / 1.0, e) == e;
    }
  }

  /** The lambertian density agrees with `cosine_pdf` about a unit normal, given `sqrt(1) = 1`. */
  lemma LambertianMatchesCosinePdf(r: Ray, rec: HitRecord, scattered: Ray, albedo: Texture, sqrt: real -> real)
    requires LengthSquared(rec.normal) == 1.0 && sqrt(1.0) == 1.0
    ensures ScatteringPdf(Lambertian(albedo), r, rec, scattered, sqrt)
         == P.Sample(P.CosinePdf(rec.normal, sqrt), scattered.direction, sqrt)
  {
    assert UnitVector(rec.normal, sqrt) == rec.normal by {
      assert Scale(1.0 / 1.0, rec.normal) == rec.normal;
    }
    DotSymmetric(rec.normal, UnitVector(scattered.direction, sqrt));
  }

  /** A metal keeps its albedo and absorbs exactly the rays it would send below the surface. */
  lemma MetalAbsorbsBelow(albedo: Color, fuzz: real, r: Ray, rec: HitRecord, prior: ScatterOut, draws: Draws, env: Env)
    ensures var s := Scatter(Metal(albedo, fuzz), r, rec, prior, draws, env);
      s.out.albedo == albedo && (s.ok <==> Dot(s.out.scattered.direction, rec.normal) > 0.0)
  {}

  /**
   * A polished metal (`fuzz == 0`) always scatters a ray arriving against a
   * unit normal, when `reflect(v, n)` is the mirror image `v - 2 (v . n) n`.
   */
  lemma PolishedMetalScatters(albedo: Color, r: Ray, rec: HitRecord, prior: ScatterOut, draws: Draws, env: Env)
    requires LengthSquared(rec.normal) == 1.0
    requires Dot(UnitVector(r.direction, env.sqrt), rec.normal) < 0.0
    requires var v := UnitVector(r.direction, env.sqrt);
      env.reflect(v, rec.normal) == Sub(v, Scale(2.0 * Dot(v, rec.normal), rec.normal))
    ensures Scatter(Metal(albedo, 0.0), r, rec, prior, draws, env).ok
  {
    var v := UnitVector(r.direction, env.sqrt);
    var n := rec.normal;
    var k := 2.0 * Dot(v, n);
    assert Scale(0.0, draws.unitSphere) == Zero;
    DotSub(v, Scale(k, n), n);
    DotScaleLeft(k, n, n);
    assert Dot(n, n) == 1.0;
  }

  lemma DotSub(a: Vec3, b: Vec3, c: Vec3)
    ensures Dot(Sub(a, b), c) == Dot(a, c) - Dot(b, c)
  {}

  /** A dielectric always scatters, with white attenuation, from the hit point. */
  lemma DielectricAlwaysScatters(ir: real, r: Ray, rec: HitRecord, prior: ScatterOut, draws: Draws, env: Env)
    ensures var s := Scatter(Dielectric(ir), r, rec, prior, draws, env);
      s.ok && s.out.albedo == Vec3(1.0, 1.0, 1.0) && s.out.scattered.origin == rec.p
  {}

  /**
   * Past the critical angle (`ratio * sin_theta > 1`) the dielectric
   * reflects, whatever the draw: as written, with the cosine taken against
   * the ray's direction as given, and in `Scatter`, with the cosine taken
   * against the normalised direction.
   */
  lemma TotalInternalReflection(ir: real, r: Ray, rec: HitRecord, prior: ScatterOut, draws: Draws, env: Env)
    ensures var ratio := RefractionRatio(ir, rec.frontFace);
      CannotRefract(ratio, CosTheta(r.direction, rec.normal), env.sqrt)
      ==> DielectricAsWritten(ir, r, rec, prior, draws, env).out.scattered.direction == env.reflect(r.direction, rec.normal)
    ensures var ratio, d := RefractionRatio(ir, rec.frontFace), UnitVector(r.direction, env.sqrt);
      CannotRefract(ratio, CosTheta(d, rec.normal), env.sqrt)
      ==> Scatter(Dielectric(ir), r, rec, prior, draws, env).out.scattered.direction == env.reflect(d, rec.normal)
  {}

  /**
   * A dielectric that can refract refracts when the draw is at least the
   * reflectance, and reflects when it is below: as written, from the ray's
   * direction as given, and in `Scatter`, from the normalised direction.
   */
  lemma DielectricDrawDecides(ir: real, r: Ray, rec: HitRecord, prior: ScatterOut, draws: Draws, env: Env)
    ensures var ratio, d := RefractionRatio(ir, rec.frontFace), r.direction;
      var c := CosTheta(d, rec.normal);
      var dir := DielectricAsWritten(ir, r, rec, prior, draws, env).out.scattered.direction;
      (!CannotRefract(ratio, c, env.sqrt) && Reflectance(c, ratio) <= draws.uniform ==> dir == env.refract(d, rec.normal, ratio)) &&
      (Reflectance(c, ratio) > draws.uniform ==> dir == env.reflect(d, rec.normal))
    ensures var ratio, d := RefractionRatio(ir, rec.frontFace), UnitVector(r.direction, env.sqrt);
      var c := CosTheta(d, rec.normal);
      var dir := Scatter(Dielectric(ir), r, rec, prior, draws, env).out.scattered.direction;
      (!CannotRefract(ratio, c, env.sqrt) && Reflectance(c, ratio) <= draws.uniform ==> dir == env.refract(d, rec.normal, ratio)) &&
      (Reflectance(c, ratio) > draws.uniform ==> dir == env.reflect(d, rec.normal))
  {}

  /**
   * Index 1 (no change of medium) still reflects: the reflectance is
   * `(1 - cos)^5`, which is 1 at grazing incidence, where every draw
   * falls below it.
   */
  lemma UnitIndexReflects(cosine: real)
    ensures Reflectance(cosine, 1.0) == Pow5(1.0 - cosine)
    ensures Reflectance(0.0, 1.0) == 1.0
  {
    assert NormalReflectance(1.0) == 0.0;
  }
}
