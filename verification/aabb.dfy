/**
 * Axis-aligned bounding boxes (aabb.h): the slab test and the box that
 * surrounds two boxes.
 *
 * The slab test is modelled over the reals. A zero direction component,
 * where the source divides by zero and relies on IEEE infinities and NaN,
 * is modelled by the outcome those produce: the axis is passed exactly
 * when the origin lies between the two planes, and the window is left as
 * it was.
 */
module Aabb {
  import opened Vec
  import opened Wrappers

  datatype Box = Box(minimum: Point3, maximum: Point3)

  /** The open parameter interval `(t_min, t_max)` still in play. */
  datatype Window = Window(lo: real, hi: Limit)

  /** The source's `t_max <= t_min` rejection. */
  predicate Empty(w: Window) {
    w.hi.Finite? && w.hi.value <= w.lo
  }

  /** `t` lies strictly inside the window. */
  predicate InWindow(t: real, w: Window) {
    w.lo < t && Below(t, w.hi)
  }

  /** `w` is contained in `v`. */
  predicate Within(w: Window, v: Window) {
    v.lo <= w.lo && LimitLe(w.hi, v.hi)
  }

  /** The point lies in the closed box. */
  predicate InBox(b: Box, p: Point3) {
    forall a: nat :: a < 3 ==> Between(b, p, a)
  }

  /** The point lies in the interior of the box. */
  predicate InInterior(b: Box, p: Point3) {
    forall a: nat :: a < 3 ==> Get(b.minimum, a) < Get(p, a) < Get(b.maximum, a)
  }

  /** Along axis `a` the point lies between the box's two planes. */
  predicate Between(b: Box, p: Point3, a: nat)
    requires a < 3
  {
    Get(b.minimum, a) <= Get(p, a) <= Get(b.maximum, a)
  }

  /** `c` contains `b`, bound by bound. */
  predicate Encloses(c: Box, b: Box) {
    forall a: nat :: a < 3 ==> Get(c.minimum, a) <= Get(b.minimum, a) && Get(b.maximum, a) <= Get(c.maximum, a)
  }

  // -----------------------------------------------------------------------
  // The slab test (aabb.h:34-53)

  /**
   * One iteration of the loop in `aabb::hit`, for the planes `lo` and `hi`
   * of one axis and the ray's origin `o` and direction `d` along it:
   * narrow the window to the parameters where the ray is between the
   * planes, or `None` when the window has become empty.
   */
  function Slab(lo: real, hi: real, o: real, d: real, w: Window): Option<Window> {
    if d == 0.0 then
      if lo <= o <= hi && !Empty(w) then Some(w) else None
    else
      var next := Clip(w, Near(lo, hi, o, d), Far(lo, hi, o, d));
      if Empty(next) then None else Some(next)
  }

  /** The parameter where the ray enters the slab: `t0`, or `t1` after the swap for a negative `invD`. */
  function Near(lo: real, hi: real, o: real, d: real): real
    requires d != 0.0
  {
    var invD := 1.0 / d;
    if invD < 0.0 then (hi - o) * invD else (lo - o) * invD
  }

  /** The parameter where the ray leaves the slab. */
  function Far(lo: real, hi: real, o: real, d: real): real
    requires d != 0.0
  {
    var invD := 1.0 / d;
    if invD < 0.0 then (lo - o) * invD else (hi - o) * invD
  }

  /** `t_min = t0 > t_min ? t0 : t_min; t_max = t1 < t_max ? t1 : t_max;` */
  function Clip(w: Window, near: real, far: real): Window {
    Window(if near > w.lo then near else w.lo, if Below(far, w.hi) then Finite(far) else w.hi)
  }

  function Narrow(b: Box, r: Ray, a: nat, w: Window): Option<Window>
    requires a < 3
  {
    Slab(Get(b.minimum, a), Get(b.maximum, a), Get(r.origin, a), Get(r.direction, a), w)
  }

  /** The loop from axis `a` on. */
  function HitFrom(b: Box, r: Ray, a: nat, w: Window): bool
    requires a <= 3
    decreases 3 - a
  {
    if a == 3 then true
    else match Narrow(b, r, a, w)
      case None => false
      case Some(next) => HitFrom(b, r, a + 1, next)
  }

  /** `aabb::hit(r, t_min, t_max)`: an interval with `t_max <= t_min` never hits. */
  function Hit(b: Box, r: Ray, tMin: real, tMax: Limit): (h: bool)
    ensures Empty(Window(tMin, tMax)) ==> !h
  {
    HitFrom(b, r, 0, Window(tMin, tMax))
  }

  // -----------------------------------------------------------------------
  // One slab

  /** The ray is strictly between the planes exactly at the parameters strictly between its entry and exit. */
  lemma CrossingsBetween(lo: real, hi: real, o: real, d: real, t: real)
    requires d != 0.0
    ensures Near(lo, hi, o, d) < t < Far(lo, hi, o, d) <==> lo < o + t * d < hi
  {
    var n, f := Near(lo, hi, o, d), Far(lo, hi, o, d);
    if d > 0.0 {
      Recip(d);
      Crossings(lo - o, hi - o, t, d, n, f, t * d);
    } else {
      Recip(d);
      Crossings(o - hi, o - lo, t, -d, n, f, -(t * d));
    }
  }

  /**
   * For a positive step `d`: `a / d < t` exactly when `a < t d`, and
   * `t < b / d` exactly when `t d < b`. The quotients and the product
   * come in as plain numbers.
   */
  lemma Crossings(a: real, b: real, t: real, d: real, n: real, f: real, td: real)
    requires d > 0.0 && n == a * (1.0 / d) && f == b * (1.0 / d) && td == t * d
    ensures n < t <==> a < td
    ensures t < f <==> td < b
  {
    QuotPos(a, t, d);
    QuotPos(b, t, d);
  }

  /** Narrowing only shrinks the window, and never leaves it empty. */
  lemma SlabShrinks(lo: real, hi: real, o: real, d: real, w: Window)
    requires Slab(lo, hi, o, d, w).Some?
    ensures Within(Slab(lo, hi, o, d, w).value, w)
    ensures !Empty(Slab(lo, hi, o, d, w).value)
  {}

  /** For `t` strictly inside the narrowed window the ray lies between the planes. */
  lemma SlabSound(lo: real, hi: real, o: real, d: real, w: Window, t: real)
    requires Slab(lo, hi, o, d, w).Some? && InWindow(t, Slab(lo, hi, o, d, w).value)
    ensures lo <= o + t * d <= hi
  {
    if d != 0.0 {
      CrossingsBetween(lo, hi, o, d, t);
    }
  }

  /** A parameter strictly inside the window where the ray is strictly between the planes survives the narrowing. */
  lemma SlabComplete(lo: real, hi: real, o: real, d: real, w: Window, t: real)
    requires InWindow(t, w)
    requires lo < o + t * d < hi
    ensures Slab(lo, hi, o, d, w).Some?
    ensures InWindow(t, Slab(lo, hi, o, d, w).value)
  {
    if d != 0.0 {
      CrossingsBetween(lo, hi, o, d, t);
    }
  }

  /** Wider planes give an earlier entry and a later exit. */
  lemma CrossingsMonotone(lc: real, hc: real, lb: real, hb: real, o: real, d: real)
    requires lc <= lb && hb <= hc && d != 0.0
    ensures Near(lc, hc, o, d) <= Near(lb, hb, o, d)
    ensures Far(lb, hb, o, d) <= Far(lc, hc, o, d)
  {
    var invD := 1.0 / d;
    Recip(d);
    if d > 0.0 {
      MulLe(lc - o, lb - o, invD);
      MulLe(hb - o, hc - o, invD);
    } else {
      MulLeNeg(lc - o, lb - o, invD);
      MulLeNeg(hb - o, hc - o, invD);
    }
  }

  /** Narrowing with wider planes and a wider window leaves a wider window. */
  lemma SlabMonotone(lc: real, hc: real, lb: real, hb: real, o: real, d: real, wc: Window, wb: Window)
    requires lc <= lb && hb <= hc && Within(wb, wc)
    requires Slab(lb, hb, o, d, wb).Some?
    ensures Slab(lc, hc, o, d, wc).Some?
    ensures Within(Slab(lb, hb, o, d, wb).value, Slab(lc, hc, o, d, wc).value)
  {
    if d != 0.0 {
      CrossingsMonotone(lc, hc, lb, hb, o, d);
    }
  }

  // -----------------------------------------------------------------------
  // The three slabs

  lemma AtComponent(r: Ray, t: real, a: nat)
    requires a < 3
    ensures Get(At(r, t), a) == Get(r.origin, a) + t * Get(r.direction, a)
  {}

  /** A parameter of the remaining window at which the ray is between the planes of every axis from `a` on. */
  lemma {:induction false} HitFromSound(b: Box, r: Ray, a: nat, w: Window) returns (t: real)
    requires a < 3
    requires HitFrom(b, r, a, w)
    ensures InWindow(t, w)
    ensures a == 0 ==> Between(b, At(r, t), 0)
    ensures a <= 1 ==> Between(b, At(r, t), 1)
    ensures Between(b, At(r, t), 2)
    decreases 3 - a
  {
    var next := Narrow(b, r, a, w).value;
    NarrowShrinks(b, r, a, w);
    if a == 2 {
      t := PickInside(next);
    } else {
      t := HitFromSound(b, r, a + 1, next);
    }
    NarrowSound(b, r, a, w, t);
  }

  lemma NarrowShrinks(b: Box, r: Ray, a: nat, w: Window)
    requires a < 3 && Narrow(b, r, a, w).Some?
    ensures Within(Narrow(b, r, a, w).value, w)
    ensures !Empty(Narrow(b, r, a, w).value)
  {
    SlabShrinks(Get(b.minimum, a), Get(b.maximum, a), Get(r.origin, a), Get(r.direction, a), w);
  }

  lemma NarrowSound(b: Box, r: Ray, a: nat, w: Window, t: real)
    requires a < 3 && Narrow(b, r, a, w).Some?
    requires InWindow(t, Narrow(b, r, a, w).value)
    ensures Between(b, At(r, t), a)
  {
    SlabSound(Get(b.minimum, a), Get(b.maximum, a), Get(r.origin, a), Get(r.direction, a), w, t);
    AtComponent(r, t, a);
    assert Get(b.minimum, a) <= Get(At(r, t), a) <= Get(b.maximum, a);
  }

  /** A non-empty window has a parameter strictly inside it. */
  lemma PickInside(w: Window) returns (t: real)
    requires !Empty(w)
    ensures InWindow(t, w)
  {
    t := match w.hi
      case Infinity => w.lo + 1.0
      case Finite(h) => (w.lo + h) / 2.0;
  }

  /**
   * Soundness of the slab test: when it reports a hit, some parameter in
   * `(t_min, t_max)` puts the ray inside the closed box.
   */
  lemma HitSound(b: Box, r: Ray, tMin: real, tMax: Limit) returns (t: real)
    requires Hit(b, r, tMin, tMax)
    ensures tMin < t && Below(t, tMax)
    ensures InBox(b, At(r, t))
  {
    t := HitFromSound(b, r, 0, Window(tMin, tMax));
  }

  lemma {:induction false} HitFromComplete(b: Box, r: Ray, a: nat, w: Window, t: real)
    requires a <= 3
    requires InWindow(t, w)
    requires forall k: nat :: a <= k < 3 ==> Get(b.minimum, k) < Get(At(r, t), k) < Get(b.maximum, k)
    ensures HitFrom(b, r, a, w)
    decreases 3 - a
  {
    if a < 3 {
      AtComponent(r, t, a);
      SlabComplete(Get(b.minimum, a), Get(b.maximum, a), Get(r.origin, a), Get(r.direction, a), w, t);
      HitFromComplete(b, r, a + 1, Narrow(b, r, a, w).value, t);
    }
  }

  /**
   * Completeness of the slab test: a ray that passes through the interior
   * of the box at some parameter strictly between `t_min` and `t_max` hits it.
   */
  lemma HitComplete(b: Box, r: Ray, tMin: real, tMax: Limit, t: real)
    requires tMin < t && Below(t, tMax)
    requires InInterior(b, At(r, t))
    ensures Hit(b, r, tMin, tMax)
  {
    HitFromComplete(b, r, 0, Window(tMin, tMax), t);
  }

  lemma {:induction false} HitFromMonotone(c: Box, b: Box, r: Ray, a: nat, wc: Window, wb: Window)
    requires a <= 3
    requires Encloses(c, b) && Within(wb, wc)
    requires HitFrom(b, r, a, wb)
    ensures HitFrom(c, r, a, wc)
    decreases 3 - a
  {
    if a < 3 {
      SlabMonotone(Get(c.minimum, a), Get(c.maximum, a), Get(b.minimum, a), Get(b.maximum, a),
                   Get(r.origin, a), Get(r.direction, a), wc, wb);
      HitFromMonotone(c, b, r, a + 1, Narrow(c, r, a, wc).value, Narrow(b, r, a, wb).value);
    }
  }

  /** A ray that hits a box hits every box enclosing it, over every wider interval. */
  lemma HitMonotone(c: Box, b: Box, r: Ray, tMin: real, tMax: Limit, tMin': real, tMax': Limit)
    requires Encloses(c, b)
    requires tMin' <= tMin && LimitLe(tMax, tMax')
    requires Hit(b, r, tMin, tMax)
    ensures Hit(c, r, tMin', tMax')
  {
    HitFromMonotone(c, b, r, 0, Window(tMin', tMax'), Window(tMin, tMax));
  }

  /** A slab of zero thickness crossed by the ray leaves no window. */
  lemma FlatSlabEmpty(lo: real, o: real, d: real, w: Window)
    requires d != 0.0
    ensures Slab(lo, lo, o, d, w).None?
  {
    assert Near(lo, lo, o, d) == Far(lo, lo, o, d);
  }

  /** From any axis up to a flat one the ray crosses, the loop rejects. */
  lemma {:induction false} FlatFromMisses(b: Box, r: Ray, a: nat, k: nat, w: Window)
    requires k <= a < 3
    requires Get(b.minimum, a) == Get(b.maximum, a) && Get(r.direction, a) != 0.0
    ensures !HitFrom(b, r, k, w)
    decreases a - k
  {
    if k == a {
      FlatSlabEmpty(Get(b.minimum, a), Get(r.origin, a), Get(r.direction, a), w);
    } else if Narrow(b, r, k, w).Some? {
      FlatFromMisses(b, r, a, k + 1, Narrow(b, r, k, w).value);
    }
  }

  /**
   * A box of zero thickness along an axis the ray is not parallel to is
   * never hit: the entry and exit parameters coincide, so the window
   * closes whatever the interval.
   */
  lemma FlatBoxMisses(b: Box, r: Ray, tMin: real, tMax: Limit, a: nat)
    requires a < 3
    requires Get(b.minimum, a) == Get(b.maximum, a) && Get(r.direction, a) != 0.0
    ensures !Hit(b, r, tMin, tMax)
  {
    FlatFromMisses(b, r, a, 0, Window(tMin, tMax));
  }

  // -----------------------------------------------------------------------
  // surrounding_box (aabb.h:63-74)

  function Min(a: real, b: real): real { if a < b then a else b }
  function Max(a: real, b: real): real { if a > b then a else b }

  function SurroundingBox(b0: Box, b1: Box): (s: Box)
    ensures Encloses(s, b0) && Encloses(s, b1)
  {
    Box(Vec3(Min(b0.minimum.x, b1.minimum.x), Min(b0.minimum.y, b1.minimum.y), Min(b0.minimum.z, b1.minimum.z)),
        Vec3(Max(b0.maximum.x, b1.maximum.x), Max(b0.maximum.y, b1.maximum.y), Max(b0.maximum.z, b1.maximum.z)))
  }

  /** The surrounding box is the least box enclosing both: a box encloses it exactly when it encloses both. */
  lemma SurroundingBoxLeast(c: Box, b0: Box, b1: Box)
    ensures Encloses(c, SurroundingBox(b0, b1)) <==> Encloses(c, b0) && Encloses(c, b1)
  {
    var s := SurroundingBox(b0, b1);
    if Encloses(c, b0) && Encloses(c, b1) {
      forall a: nat | a < 3
        ensures Get(c.minimum, a) <= Get(s.minimum, a) && Get(s.maximum, a) <= Get(c.maximum, a)
      {
        assert Get(c.minimum, a) <= Get(b0.minimum, a) && Get(c.minimum, a) <= Get(b1.minimum, a);
        assert Get(b0.maximum, a) <= Get(c.maximum, a) && Get(b1.maximum, a) <= Get(c.maximum, a);
      }
    }
    if Encloses(c, s) {
      forall a: nat | a < 3
        ensures Get(c.minimum, a) <= Get(b0.minimum, a) && Get(b0.maximum, a) <= Get(c.maximum, a)
        ensures Get(c.minimum, a) <= Get(b1.minimum, a) && Get(b1.maximum, a) <= Get(c.maximum, a)
      {
        assert Get(c.minimum, a) <= Get(s.minimum, a) && Get(s.maximum, a) <= Get(c.maximum, a);
      }
    }
  }

  /** Every point of either box lies in the surrounding box. */
  lemma SurroundingBoxContains(b0: Box, b1: Box, p: Point3)
    requires InBox(b0, p) || InBox(b1, p)
    ensures InBox(SurroundingBox(b0, b1), p)
  {
    var s := SurroundingBox(b0, b1);
    forall a: nat | a < 3
      ensures Get(s.minimum, a) <= Get(p, a) <= Get(s.maximum, a)
    {
      if InBox(b0, p) {
        assert Between(b0, p, a);
      } else {
        assert Between(b1, p, a);
      }
    }
  }

  lemma SurroundingBoxCommutative(b0: Box, b1: Box)
    ensures SurroundingBox(b0, b1) == SurroundingBox(b1, b0)
  {}

  lemma SurroundingBoxAssociative(b0: Box, b1: Box, b2: Box)
    ensures SurroundingBox(SurroundingBox(b0, b1), b2) == SurroundingBox(b0, SurroundingBox(b1, b2))
  {}

  lemma SurroundingBoxIdempotent(b: Box)
    ensures SurroundingBox(b, b) == b
  {}
}
