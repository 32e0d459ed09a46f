/**
 * The probability densities of pdf.h: the cosine density about a normal,
 * the density of directions toward an object (`hittable_pdf`), and the
 * even mixture of two densities.
 *
 * A density is a finite tree: `mixture_pdf` holds its two parts by value.
 * An object enters `hittable_pdf` through its `pdf_value` and `random`,
 * which hittable.h does not declare; the model takes them as functions,
 * and `TrianglePdf` plugs in the triangle's.
 *
 * `generate` draws from the program's one generator. The model reads the
 * generator as two sequences indexed by a position: the `random_double()`
 * draws and the `random_in_hemisphere()` vectors (vec3.h, which defines the
 * latter, is not part of this model). `Generate` returns the direction and
 * the next unused position.
 */
module Pdf {
  import opened Vec
  import opened RtWeekend
  import opened Onb
  import opened Hittable
  import Tri = Triangle

  datatype Random = Random(draw: nat -> real, hemisphere: nat -> Vec3)

  datatype Pdf =
    | Cosine(uvw: Onb)
    | Object(o: Point3, value: (Point3, Vec3) -> real, random: (Point3, Random, nat) -> (Vec3, nat))
    | Mixture(p0: Pdf, p1: Pdf)

  /** `cosine_pdf(w)`: the basis is built from `w`. */
  function CosinePdf(w: Vec3, sqrt: real -> real): (p: Pdf)
    ensures p.Cosine? && p.uvw.w == UnitVector(w, sqrt)
  {
    Cosine(BuildFromW(w, sqrt))
  }

  /** The cosine of `direction` with the basis' `w` axis, as `cosine_pdf::sample` computes it. */
  function CosineOf(b: Onb, direction: Vec3, sqrt: real -> real): real {
    Dot(UnitVector(direction, sqrt), b.w)
  }

  /** `pdf::sample(direction)` */
  function Sample(p: Pdf, direction: Vec3, sqrt: real -> real): (s: real)
    ensures p.Cosine? ==> s >= 0.0 && (s > 0.0 <==> CosineOf(p.uvw, direction, sqrt) > 0.0)
    ensures p.Cosine? && CosineOf(p.uvw, direction, sqrt) > 0.0 ==> s * Pi == CosineOf(p.uvw, direction, sqrt)
  {
    match p
    case Cosine(uvw) =>
      var cosine := CosineOf(uvw, direction, sqrt);
      if cosine <= 0.0 then 0.0 else cosine / Pi
    case Object(o, value, _) => value(o, direction)
    case Mixture(p0, p1) => 0.5 * Sample(p0, direction, sqrt) + 0.5 * Sample(p1, direction, sqrt)
  }

  /** `pdf::generate()`, from position `n` of the generator. */
  function Generate(p: Pdf, rnd: Random, n: nat): (g: (Vec3, nat))
    ensures p.Cosine? ==> g.1 == n + 1
    ensures p.Object? ==> g == p.random(p.o, rnd, n)
    ensures p.Mixture? ==> g == Generate(p.p0, rnd, n + 1) || g == Generate(p.p1, rnd, n + 1)
  {
    match p
    case Cosine(uvw) => (LocalVec(uvw, rnd.hemisphere(n)), n + 1)
    case Object(o, _, random) => random(o, rnd, n)
    case Mixture(p0, p1) => if rnd.draw(n) < 0.5 then Generate(p0, rnd, n + 1) else Generate(p1, rnd, n + 1)
  }

  // -----------------------------------------------------------------------
  // Non-negativity

  /** Every object leaf of the tree has a density that is never negative. */
  ghost predicate NonNegative(p: Pdf) {
    match p
    case Cosine(_) => true
    case Object(o, value, _) => forall d: Vec3 :: value(o, d) >= 0.0
    case Mixture(p0, p1) => NonNegative(p0) && NonNegative(p1)
  }

  /** A density built from non-negative parts is non-negative in every direction. */
  lemma {:induction false} SampleNonNegative(p: Pdf, direction: Vec3, sqrt: real -> real)
    requires NonNegative(p)
    ensures Sample(p, direction, sqrt) >= 0.0
  {
    match p
    case Cosine(_) =>
    case Object(_, _, _) =>
    case Mixture(p0, p1) =>
      SampleNonNegative(p0, direction, sqrt);
      SampleNonNegative(p1, direction, sqrt);
  }

  // -----------------------------------------------------------------------
  // mixture_pdf

  /** The mixture's density lies between its two parts' densities. */
  lemma MixtureBetween(p0: Pdf, p1: Pdf, direction: Vec3, sqrt: real -> real)
    ensures var s0, s1 := Sample(p0, direction, sqrt), Sample(p1, direction, sqrt);
      (s0 <= s1 ==> s0 <= Sample(Mixture(p0, p1), direction, sqrt) <= s1) &&
      (s1 <= s0 ==> s1 <= Sample(Mixture(p0, p1), direction, sqrt) <= s0)
  {}

  /** The order of the two parts does not change the density. */
  lemma MixtureSymmetric(p0: Pdf, p1: Pdf, direction: Vec3, sqrt: real -> real)
    ensures Sample(Mixture(p0, p1), direction, sqrt) == Sample(Mixture(p1, p0), direction, sqrt)
  {}

  /** A density mixed with itself is unchanged. */
  lemma MixtureOfSelf(p: Pdf, direction: Vec3, sqrt: real -> real)
    ensures Sample(Mixture(p, p), direction, sqrt) == Sample(p, direction, sqrt)
  {}

  /**
   * `mixture_pdf::generate` spends one draw, then continues with the first
   * part when the draw is below one half and with the second otherwise.
   */
  lemma MixtureGeneratePicks(p0: Pdf, p1: Pdf, rnd: Random, n: nat)
    ensures rnd.draw(n) < 0.5 ==> Generate(Mixture(p0, p1), rnd, n) == Generate(p0, rnd, n + 1)
    ensures rnd.draw(n) >= 0.5 ==> Generate(Mixture(p0, p1), rnd, n) == Generate(p1, rnd, n + 1)
  {}

  /** So a mixture of a density with itself generates what the density does, one draw later. */
  lemma MixtureGenerateOfSelf(p: Pdf, rnd: Random, n: nat)
    ensures Generate(Mixture(p, p), rnd, n) == Generate(p, rnd, n + 1)
  {}

  // -----------------------------------------------------------------------
  // cosine_pdf

  /** The axes of a basis that make `local` keep the `w` coordinate. */
  predicate Orthonormal(b: Onb) {
    Dot(b.u, b.w) == 0.0 && Dot(b.v, b.w) == 0.0 && LengthSquared(b.w) == 1.0
  }

  /** A cosine density generates a direction whose `w` coordinate is the hemisphere vector's `z`. */
  lemma CosineGenerateAlongW(b: Onb, rnd: Random, n: nat)
    requires Orthonormal(b)
    ensures Dot(Generate(Cosine(b), rnd, n).0, b.w) == rnd.hemisphere(n).z
    ensures Generate(Cosine(b), rnd, n).1 == n + 1
  {
    LocalAlongW(b, rnd.hemisphere(n));
  }

  /**
   * A hemisphere vector strictly above the tangent plane gives a direction
   * the cosine density weights positively: `generate` and `sample` agree
   * on the hemisphere.
   */
  lemma CosineGeneratePositive(b: Onb, rnd: Random, n: nat, sqrt: real -> real)
    requires Orthonormal(b)
    requires rnd.hemisphere(n).z > 0.0
    requires IsSqrtAt(sqrt, LengthSquared(Generate(Cosine(b), rnd, n).0))
    ensures Sample(Cosine(b), Generate(Cosine(b), rnd, n).0, sqrt) > 0.0
  {
    var d := Generate(Cosine(b), rnd, n).0;
    CosineGenerateAlongW(b, rnd, n);
    var l := Length(d, sqrt);
    if l != 0.0 {
      Recip(l);
      DotScaleLeft(1.0 / l, d, b.w);
      MulStrict(0.0, 1.0 / l, Dot(d, b.w));
      assert (1.0 / l) * Dot(d, b.w) > 0.0;
    }
    assert CosineOf(b, d, sqrt) > 0.0;
  }

  /** The same for the density `cosine_pdf(n)` builds from a non-zero normal. */
  lemma CosinePdfGeneratePositive(normal: Vec3, rnd: Random, n: nat, sqrt: real -> real)
    requires LengthSquared(normal) > 0.0 && IsSqrtAt(sqrt, LengthSquared(normal))
    requires IsSqrtAt(sqrt, LengthSquared(Cross(UnitVector(normal, sqrt), HelperAxis(UnitVector(normal, sqrt)))))
    requires rnd.hemisphere(n).z > 0.0
    requires IsSqrtAt(sqrt, LengthSquared(Generate(CosinePdf(normal, sqrt), rnd, n).0))
    ensures Sample(CosinePdf(normal, sqrt), Generate(CosinePdf(normal, sqrt), rnd, n).0, sqrt) > 0.0
  {
    BuildOrthonormal(normal, sqrt);
    DotSymmetric(BuildFromW(normal, sqrt).u, BuildFromW(normal, sqrt).w);
    CosineGeneratePositive(BuildFromW(normal, sqrt), rnd, n, sqrt);
  }

  // -----------------------------------------------------------------------
  // hittable_pdf over a triangle

  /**
   * `hittable_pdf(triangle, origin)`: `sample` is the triangle's
   * `pdf_value` from the stored origin, and `generate` its `random`,
   * which spends two draws. The direction is the one toward the sampled
   * point (`Triangle.RandomToward`), not the one triangle.h computes; see
   * `Triangle.RandomAsWrittenParallel`.
   */
  function TrianglePdf(tri: Tri.Triangle, origin: Point3, sqrt: real -> real): (p: Pdf)
    ensures p.Object? && p.o == origin
  {
    Object(origin,
      (o: Point3, d: Vec3) => Tri.PdfValue(tri, o, d, sqrt),
      (o: Point3, rnd: Random, n: nat) => TriangleRandom(tri, o, rnd, n))
  }

  /** The triangle's `random` from position `n`: two draws, then the direction toward the point they select. */
  function TriangleRandom(tri: Tri.Triangle, origin: Point3, rnd: Random, n: nat): (g: (Vec3, nat))
    ensures g.1 == n + 2
    ensures Add(origin, g.0) == Tri.PlanePoint(tri, Tri.RandomWeights(rnd.draw(n), rnd.draw(n + 1)).0, Tri.RandomWeights(rnd.draw(n), rnd.draw(n + 1)).1)
  {
    (Tri.RandomToward(tri, origin, rnd.draw(n), rnd.draw(n + 1)), n + 2)
  }

  /**
   * The triangle's `random` from position `n` as triangle.h writes it: the
   * direction ignores the origin, lies in the triangle's plane, and so has
   * density 0 under the triangle's own `pdf_value`.
   */
  function TriangleRandomAsWritten(tri: Tri.Triangle, origin: Point3, rnd: Random, n: nat, sqrt: real -> real): (g: (Vec3, nat))
    ensures g.1 == n + 2
    ensures Add(tri.v0, g.0) == Tri.PlanePoint(tri, Tri.RandomWeights(rnd.draw(n), rnd.draw(n + 1)).0, Tri.RandomWeights(rnd.draw(n), rnd.draw(n + 1)).1)
    ensures Tri.PdfValue(tri, origin, g.0, sqrt) == 0.0
  {
    Tri.RandomAsWrittenParallel(tri, origin, rnd.draw(n), rnd.draw(n + 1), sqrt);
    (Tri.RandomAsWritten(tri, origin, rnd.draw(n), rnd.draw(n + 1)), n + 2)
  }

  /** A direction that misses the triangle from the stored origin has density 0. */
  lemma TrianglePdfMiss(tri: Tri.Triangle, origin: Point3, direction: Vec3, sqrt: real -> real)
    requires !Tri.TriangleHit(tri, Ray(origin, direction, 0.0), 0.001, Infinity, Blank).hit
    ensures Sample(TrianglePdf(tri, origin, sqrt), direction, sqrt) == 0.0
  {}

  /** With a non-negative area, the triangle density is a non-negative leaf. */
  lemma TrianglePdfNonNegative(tri: Tri.Triangle, origin: Point3, sqrt: real -> real)
    requires sqrt(LengthSquared(Cross(Tri.E1(tri), Tri.E2(tri)))) >= 0.0
    ensures NonNegative(TrianglePdf(tri, origin, sqrt))
  {
    forall d: Vec3 ensures Tri.PdfValue(tri, origin, d, sqrt) >= 0.0 {
      Tri.PdfValueNonNegative(tri, origin, d, sqrt);
    }
  }

  /**
   * From an origin off the triangle's plane, every generated direction hits
   * the triangle at the point the two draws select.
   */
  lemma TrianglePdfGenerateHits(tri: Tri.Triangle, origin: Point3, rnd: Random, n: nat, sqrt: real -> real)
    requires IsUnitDraw(rnd.draw(n)) && IsUnitDraw(rnd.draw(n + 1))
    requires Tri.Det(Sub(tri.v0, origin), Tri.E2(tri), Tri.E1(tri)) != 0.0
    ensures Generate(TrianglePdf(tri, origin, sqrt), rnd, n).1 == n + 2
    ensures Tri.TriangleHit(tri, Ray(origin, Generate(TrianglePdf(tri, origin, sqrt), rnd, n).0, 0.0), 0.001, Infinity, Blank).hit
    ensures Add(origin, Generate(TrianglePdf(tri, origin, sqrt), rnd, n).0)
         == Tri.PlanePoint(tri, Tri.RandomWeights(rnd.draw(n), rnd.draw(n + 1)).0, Tri.RandomWeights(rnd.draw(n), rnd.draw(n + 1)).1)
  {
    assert Generate(TrianglePdf(tri, origin, sqrt), rnd, n) == TriangleRandom(tri, origin, rnd, n);
    Tri.RandomTowardHits(tri, origin, rnd.draw(n), rnd.draw(n + 1));
  }
}
