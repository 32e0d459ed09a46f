/**
 * The two `ray_color` integrators: the renderer's (renderer.h:26-44), which
 * adds each surface's emission and returns a constant background colour on
 * a miss, and the one in main.cpp (24-48), which has no emission and
 * returns a sky gradient on a miss.
 *
 * The world and its materials are a parameter `world(r, depth)` that
 * answers, for the ray `r` cast with `depth` bounces left, whether the ray
 * hits in `(0.001, infinity)` and, if so, what the hit material emits,
 * whether it scatters, its attenuation and the scattered ray. The random
 * draws a material makes at a bounce are folded into that answer, indexed
 * by the remaining depth, so one call stands for one sample path.
 */
module Integrator {
  import opened Vec

  /** What the world answers for one ray at one bounce. */
  datatype Interaction =
    | Miss
    | Hit(emitted: Color, scatters: bool, attenuation: Color, scattered: Ray)

  type World = (Ray, int) -> Interaction

  const White: Color := Vec3(1.0, 1.0, 1.0)
  const SkyBlue: Color := Vec3(0.5, 0.7, 1.0)

  /** Every component of `c` lies in `[lo, hi]`. */
  predicate Within(c: Color, lo: real, hi: real) {
    lo <= c.x <= hi && lo <= c.y <= hi && lo <= c.z <= hi
  }

  // -----------------------------------------------------------------------
  // renderer::ray_color (renderer.h:26-44)

  /** The renderer's `ray_color(r, background_color, world, depth)`. */
  function RayColor(r: Ray, background: Color, world: World, depth: int): (c: Color)
    decreases depth
    ensures depth <= 0 ==> c == Black
    ensures depth > 0 && world(r, depth).Miss? ==> c == background
    ensures depth > 0 && world(r, depth).Hit? && !world(r, depth).scatters ==> c == world(r, depth).emitted
  {
    if depth <= 0 then Black
    else
      match world(r, depth)
      case Miss => background
      case Hit(emitted, scatters, attenuation, scattered) =>
        if !scatters then emitted
        else Add(emitted, Mul(attenuation, RayColor(scattered, background, world, depth - 1)))
  }

  /** The number of times `ray_color` asks the world for a hit before it returns. */
  function Queries(r: Ray, world: World, depth: int): nat
    decreases depth
  {
    if depth <= 0 then 0
    else
      match world(r, depth)
      case Miss => 1
      case Hit(_, scatters, _, scattered) => if !scatters then 1 else 1 + Queries(scattered, world, depth - 1)
  }

  /** Each recursive call lowers the depth by one, so at most `depth` hits are traced. */
  lemma {:induction false} QueriesAtMostDepth(r: Ray, world: World, depth: int)
    ensures depth <= 0 ==> Queries(r, world, depth) == 0
    ensures depth > 0 ==> 1 <= Queries(r, world, depth) <= depth
    decreases depth
  {
    if depth > 0 {
      match world(r, depth)
      case Miss =>
      case Hit(_, scatters, _, scattered) =>
        if scatters {
          QueriesAtMostDepth(scattered, world, depth - 1);
        }
    }
  }

  /**
   * Every material answer lies in the given ranges: emission in `[0, e]`
   * and attenuation in `[0, 1]`.
   */
  ghost predicate Bounded(world: World, e: real) {
    forall r: Ray, d: int {:trigger world(r, d)} :: world(r, d).Hit? ==>
      Within(world(r, d).emitted, 0.0, e) && Within(world(r, d).attenuation, 0.0, 1.0)
  }

  /**
   * With attenuations at most 1, each bounce adds at most the largest
   * emission, so a path with `depth` bounces left is at most
   * `depth * e + background`, and never negative.
   */
  lemma {:induction false} RayColorBounded(r: Ray, background: Color, world: World, depth: int, e: real, b: real)
    requires e >= 0.0 && b >= 0.0
    requires Bounded(world, e) && Within(background, 0.0, b)
    ensures depth <= 0 ==> RayColor(r, background, world, depth) == Black
    ensures depth > 0 ==> Within(RayColor(r, background, world, depth), 0.0, Bound(depth, e, b))
    decreases depth
  {
    if depth > 0 {
      DepthBound(depth, e, b);
      var i := world(r, depth);
      if i.Hit? && i.scatters {
        RayColorBounded(i.scattered, background, world, depth - 1, e, b);
      }
      BoundStep(r, background, world, depth, e, Bound(depth - 1, e, b));
    }
  }

  /** `depth * e + b` */
  function Bound(depth: int, e: real, b: real): real {
    (depth as real) * e + b
  }

  /** One level of `RayColorBounded`: a bounce adds at most `e` to the bound `m` one level down. */
  lemma BoundStep(r: Ray, background: Color, world: World, depth: int, e: real, m: real)
    requires depth >= 1 && e >= 0.0 && m >= 0.0
    requires Bounded(world, e) && Within(background, 0.0, m)
    requires world(r, depth).Hit? && world(r, depth).scatters ==>
      Within(RayColor(world(r, depth).scattered, background, world, depth - 1), 0.0, m)
    ensures Within(RayColor(r, background, world, depth), 0.0, e + m)
  {
    var i := world(r, depth);
    if i.Hit? {
      assert Within(i.emitted, 0.0, e) && Within(i.attenuation, 0.0, 1.0);
      if i.scatters {
        var rest := RayColor(i.scattered, background, world, depth - 1);
        BouncedWithin(i.emitted, i.attenuation, rest, e, m);
      }
    }
  }

  /** The bound grows by `e` per level and starts at `b`. */
  lemma DepthBound(depth: int, e: real, b: real)
    requires depth >= 1 && e >= 0.0 && b >= 0.0
    ensures b <= Bound(depth - 1, e, b)
    ensures e + Bound(depth - 1, e, b) == Bound(depth, e, b)
  {
    var n := depth as real;
    assert ((depth - 1) as real) == n - 1.0;
    MulLe(0.0, n - 1.0, e);
  }

  /** One bounce in all three channels. */
  lemma BouncedWithin(em: Color, a: Color, rest: Color, e: real, m: real)
    requires Within(em, 0.0, e) && Within(a, 0.0, 1.0) && Within(rest, 0.0, m)
    ensures Within(Add(em, Mul(a, rest)), 0.0, e + m)
  {
    AttenuatedStep(em.x, a.x, rest.x, e, m);
    AttenuatedStep(em.y, a.y, rest.y, e, m);
    AttenuatedStep(em.z, a.z, rest.z, e, m);
  }

  /** One bounce in one colour channel: `0 <= e + a * x <= emax + m`. */
  lemma AttenuatedStep(em: real, a: real, x: real, emax: real, m: real)
    requires 0.0 <= em <= emax && 0.0 <= a <= 1.0 && 0.0 <= x <= m
    ensures 0.0 <= em + a * x <= emax + m
  {
    MulLe(a, 1.0, x);
    MulLe(0.0, a, x);
  }

  /**
   * The same integrator as a loop: the path is followed forward, carrying
   * the product of the attenuations met so far (`throughput`) and the
   * light gathered so far (`c`). It computes what the recursion computes.
   */
  method Trace(r: Ray, background: Color, world: World, depth: int) returns (c: Color)
    ensures c == RayColor(r, background, world, depth)
  {
    c := Black;
    var throughput := White;
    var cur := r;
    var d := depth;
    while d > 0
      invariant RayColor(r, background, world, depth) == Add(c, Mul(throughput, RayColor(cur, background, world, d)))
      decreases d
    {
      match world(cur, d)
      case Miss =>
        c := Add(c, Mul(throughput, background));
        return;
      case Hit(emitted, scatters, a, scattered) =>
        if !scatters {
          c := Add(c, Mul(throughput, emitted));
          return;
        }
        var rest := RayColor(scattered, background, world, d - 1);
        Gather(c, throughput, emitted, a, rest);
        c := Add(c, Mul(throughput, emitted));
        throughput := Mul(throughput, a);
        cur := scattered;
        d := d - 1;
    }
    AddBlack(c, throughput);
  }

  /** One forward step: the gathered light takes the emission, the throughput the attenuation. */
  lemma Gather(c: Color, k: Color, em: Color, a: Color, x: Color)
    ensures Add(c, Mul(k, Add(em, Mul(a, x)))) == Add(Add(c, Mul(k, em)), Mul(Mul(k, a), x))
  {
    GatherChannel(c.x, k.x, em.x, a.x, x.x);
    GatherChannel(c.y, k.y, em.y, a.y, x.y);
    GatherChannel(c.z, k.z, em.z, a.z, x.z);
  }

  lemma GatherChannel(c: real, k: real, em: real, a: real, x: real)
    ensures c + k * (em + a * x) == (c + k * em) + (k * a) * x
  {}

  lemma AddBlack(c: Color, k: Color)
    ensures Add(c, Mul(k, Black)) == c
  {}

  // -----------------------------------------------------------------------
  // ray_color of main.cpp (main.cpp:24-48)

  /** The sky parameter `t = 0.5 * (unit_direction.y() + 1)`. */
  function SkyParameter(r: Ray, sqrt: real -> real): real {
    0.5 * (UnitVector(r.direction, sqrt).y + 1.0)
  }

  /** `(1 - t) * white + t * sky blue` */
  function Gradient(t: real): Color {
    Add(Scale(1.0 - t, White), Scale(t, SkyBlue))
  }

  /** The miss colour: white blended towards sky blue by the sky parameter. */
  function Sky(r: Ray, sqrt: real -> real): Color {
    Gradient(SkyParameter(r, sqrt))
  }

  /** With an exact square root, the unit direction's `y` lies in `[-1, 1]`. */
  lemma UnitY(v: Vec3, sqrt: real -> real)
    requires IsSqrtAt(sqrt, LengthSquared(v))
    ensures -1.0 <= UnitVector(v, sqrt).y <= 1.0
  {
    var u := UnitVector(v, sqrt);
    SquareNonNegative(u.x);
    SquareNonNegative(u.z);
    if Length(v, sqrt) == 0.0 {
      SquareNonNegative(v.y);
      assert v.y * v.y <= LengthSquared(v) == 0.0;
      SquareAtMostOne(v.y);
    } else {
      UnitVectorOfNonZeroLength(v, sqrt);
      assert u.y * u.y <= 1.0;
      SquareAtMostOne(u.y);
    }
  }

  lemma SquareAtMostOne(y: real)
    requires y * y <= 1.0
    ensures -1.0 <= y <= 1.0
  {
    if y > 1.0 { MulStrict(1.0, y, y); }
    if y < -1.0 { MulStrict(y, -1.0, -y); }
  }

  /**
   * The sky parameter lies in `[0, 1]`, so the sky is a blend between
   * white and sky blue: red in `[0.5, 1]`, green in `[0.7, 1]`, blue 1.
   * Looking straight up gives sky blue, straight down white.
   */
  lemma SkyBlend(r: Ray, sqrt: real -> real)
    requires IsSqrtAt(sqrt, LengthSquared(r.direction))
    ensures 0.0 <= SkyParameter(r, sqrt) <= 1.0
    ensures 0.5 <= Sky(r, sqrt).x <= 1.0 && 0.7 <= Sky(r, sqrt).y <= 1.0 && Sky(r, sqrt).z == 1.0
    ensures UnitVector(r.direction, sqrt).y == 1.0 ==> Sky(r, sqrt) == SkyBlue
    ensures UnitVector(r.direction, sqrt).y == -1.0 ==> Sky(r, sqrt) == White
  {
    UnitY(r.direction, sqrt);
    GradientBlend(SkyParameter(r, sqrt));
  }

  /** For `t` in `[0, 1]` the gradient runs from white at 0 to sky blue at 1. */
  lemma GradientBlend(t: real)
    requires 0.0 <= t <= 1.0
    ensures 0.5 <= Gradient(t).x <= 1.0 && 0.7 <= Gradient(t).y <= 1.0 && Gradient(t).z == 1.0
    ensures t == 1.0 ==> Gradient(t) == SkyBlue
    ensures t == 0.0 ==> Gradient(t) == White
  {
    var g := Gradient(t);
    BlendChannel(t, 1.0, 0.5, g.x);
    BlendChannel(t, 1.0, 0.7, g.y);
    BlendChannel(t, 1.0, 1.0, g.z);
  }

  /** `c = (1 - t) * p + t * q` lies between `q` and `p` for `q <= p` and `t` in `[0, 1]`. */
  lemma BlendChannel(t: real, p: real, q: real, c: real)
    requires 0.0 <= t <= 1.0 && q <= p
    requires c == (1.0 - t) * p + t * q
    ensures q <= c <= p
    ensures t == 1.0 ==> c == q
    ensures t == 0.0 ==> c == p
  {
    var s := t * (p - q);
    assert c == p - s;
    FractionOf(t, p - q, s);
  }

  /** A fraction `t` in `[0, 1]` of a non-negative `d` lies in `[0, d]`. */
  lemma FractionOf(t: real, d: real, s: real)
    requires 0.0 <= t <= 1.0 && d >= 0.0 && s == t * d
    ensures 0.0 <= s <= d
    ensures t == 0.0 ==> s == 0.0
    ensures t == 1.0 ==> s == d
  {
    MulLe(0.0, t, d);
    MulLe(t, 1.0, d);
    assert 0.0 * d == 0.0 && 1.0 * d == d;
  }

  /** `ray_color(r, world, depth)` of main.cpp. */
  function SkyRayColor(r: Ray, world: World, depth: int, sqrt: real -> real): (c: Color)
    decreases depth
    ensures depth <= 0 ==> c == Black
    ensures depth > 0 && world(r, depth).Miss? ==> c == Sky(r, sqrt)
    ensures depth > 0 && world(r, depth).Hit? && !world(r, depth).scatters ==> c == Black
  {
    if depth <= 0 then Black
    else
      match world(r, depth)
      case Miss => Sky(r, sqrt)
      case Hit(_, scatters, attenuation, scattered) =>
        if !scatters then Black
        else Mul(attenuation, SkyRayColor(scattered, world, depth - 1, sqrt))
  }

  /** `sqrt` is the exact square root on all non-negative reals. */
  ghost predicate ExactSqrt(sqrt: real -> real) {
    forall x: real {:trigger sqrt(x)} :: 0.0 <= x ==> IsSqrtAt(sqrt, x)
  }

  /** Attenuations lie in `[0, 1]`; emission plays no part in main.cpp. */
  ghost predicate Attenuating(world: World) {
    forall r: Ray, d: int {:trigger world(r, d)} :: world(r, d).Hit? ==> Within(world(r, d).attenuation, 0.0, 1.0)
  }

  /**
   * With attenuations in `[0, 1]` every colour main.cpp's `ray_color`
   * returns lies in `[0, 1]`: attenuation only darkens the sky.
   */
  lemma {:induction false} SkyRayColorInUnitCube(r: Ray, world: World, depth: int, sqrt: real -> real)
    requires ExactSqrt(sqrt) && Attenuating(world)
    ensures Within(SkyRayColor(r, world, depth, sqrt), 0.0, 1.0)
    decreases depth
  {
    if depth > 0 {
      match world(r, depth)
      case Miss =>
        SkyInUnitCube(r, sqrt);
      case Hit(_, scatters, a, scattered) =>
        if scatters {
          SkyRayColorInUnitCube(scattered, world, depth - 1, sqrt);
          DarkenInUnitCube(a, SkyRayColor(scattered, world, depth - 1, sqrt));
        }
    }
  }

  /** With an exact square root the sky colour lies in `[0, 1]`. */
  lemma SkyInUnitCube(r: Ray, sqrt: real -> real)
    requires ExactSqrt(sqrt)
    ensures Within(Sky(r, sqrt), 0.0, 1.0)
  {
    LengthSquaredNonNegative(r.direction);
    assert IsSqrtAt(sqrt, LengthSquared(r.direction));
    SkyBlend(r, sqrt);
  }

  /** An attenuation in `[0, 1]` keeps a colour in `[0, 1]`. */
  lemma DarkenInUnitCube(a: Color, c: Color)
    requires Within(a, 0.0, 1.0) && Within(c, 0.0, 1.0)
    ensures Within(Mul(a, c), 0.0, 1.0)
  {
    AttenuatedStep(0.0, a.x, c.x, 0.0, 1.0);
    AttenuatedStep(0.0, a.y, c.y, 0.0, 1.0);
    AttenuatedStep(0.0, a.z, c.z, 0.0, 1.0);
  }

  /**
   * main.cpp's integrator as a loop: the product of the attenuations along
   * the path, times the sky where the path escapes, or black where it is
   * absorbed or runs out of depth.
   */
  method TraceSky(r: Ray, world: World, depth: int, sqrt: real -> real) returns (c: Color)
    ensures c == SkyRayColor(r, world, depth, sqrt)
  {
    var throughput := White;
    var cur := r;
    var d := depth;
    while d > 0
      invariant SkyRayColor(r, world, depth, sqrt) == Mul(throughput, SkyRayColor(cur, world, d, sqrt))
      decreases d
    {
      match world(cur, d)
      case Miss =>
        c := Mul(throughput, Sky(cur, sqrt));
        return;
      case Hit(_, scatters, a, scattered) =>
        if !scatters {
          c := Black;
          MulBlack(throughput);
          return;
        }
        MulAssoc(throughput, a, SkyRayColor(scattered, world, d - 1, sqrt));
        throughput := Mul(throughput, a);
        cur := scattered;
        d := d - 1;
    }
    c := Black;
    MulBlack(throughput);
  }

  lemma MulBlack(k: Color)
    ensures Mul(k, Black) == Black
  {}

  lemma MulAssoc(k: Color, a: Color, x: Color)
    ensures Mul(k, Mul(a, x)) == Mul(Mul(k, a), x)
  {
    MulAssocChannel(k.x, a.x, x.x);
    MulAssocChannel(k.y, a.y, x.y);
    MulAssocChannel(k.z, a.z, x.z);
  }

  lemma MulAssocChannel(k: real, a: real, x: real)
    ensures k * (a * x) == (k * a) * x
  {}

  /**
   * Without emission and with a black background, the renderer's
   * integrator returns black whatever the scene: all light in the
   * renderer comes from emitters or the background.
   */
  lemma {:induction false} DarkSceneIsBlack(r: Ray, world: World, depth: int)
    requires forall q: Ray, d: int {:trigger world(q, d)} :: world(q, d).Hit? ==> world(q, d).emitted == Black
    ensures RayColor(r, Black, world, depth) == Black
    decreases depth
  {
    if depth > 0 {
      match world(r, depth)
      case Miss =>
      case Hit(emitted, scatters, a, scattered) =>
        if scatters {
          DarkSceneIsBlack(scattered, world, depth - 1);
          MulBlack(a);
        }
    }
  }
}
