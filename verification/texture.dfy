/**
 * The textures of texture.h: a solid colour, and a 3-D checker pattern
 * that picks one of two sub-textures by the sign of
 * `sin(10 x) sin(10 y) sin(10 z)`.
 *
 * Sub-textures are shared pointers in the source; the model holds them
 * by value, so a texture is a finite tree. The sine is a parameter.
 */
module Texture {
  import opened Vec

  datatype Texture =
    | Solid(c: Color)
    | Checker(odd: Texture, even: Texture)

  /** `solid_color(r, g, b)`, which delegates to `solid_color(color(r, g, b))`. */
  function SolidRgb(r: real, g: real, b: real): (t: Texture)
    ensures t.Solid? && t.c.x == r && t.c.y == g && t.c.z == b
  {
    Solid(Vec3(r, g, b))
  }

  /** `checker_texture(c1, c2)`: `c1` fills the even cells and `c2` the odd ones. */
  function CheckerColors(c1: Color, c2: Color): (t: Texture)
    ensures t.Checker? && t.even == Solid(c1) && t.odd == Solid(c2)
  {
    Checker(Solid(c2), Solid(c1))
  }

  /** The product of sines that decides the cell of `p`. */
  function Sines(p: Point3, sin: real -> real): real {
    sin(10.0 * p.x) * sin(10.0 * p.y) * sin(10.0 * p.z)
  }

  /** `texture::sample(u, v, p)`: always one of the texture's solid colours. */
  function Sample(t: Texture, u: real, v: real, p: Point3, sin: real -> real): (c: Color)
    ensures c in Palette(t)
  {
    match t
    case Solid(c) => c
    case Checker(odd, even) =>
      if Sines(p, sin) < 0.0 then Sample(odd, u, v, p, sin) else Sample(even, u, v, p, sin)
  }

  /** A solid colour samples the same everywhere, whatever the coordinates. */
  lemma SolidIsConstant(c: Color, u: real, v: real, p: Point3, u': real, v': real, p': Point3, sin: real -> real)
    ensures Sample(Solid(c), u, v, p, sin) == Sample(Solid(c), u', v', p', sin) == c
  {}

  /** The checker samples the odd sub-texture exactly where the sine product is negative. */
  lemma CheckerPicks(odd: Texture, even: Texture, u: real, v: real, p: Point3, sin: real -> real)
    ensures Sines(p, sin) < 0.0 ==> Sample(Checker(odd, even), u, v, p, sin) == Sample(odd, u, v, p, sin)
    ensures Sines(p, sin) >= 0.0 ==> Sample(Checker(odd, even), u, v, p, sin) == Sample(even, u, v, p, sin)
  {}

  /** A checker always returns one of its two sub-textures' samples. */
  lemma CheckerIsOneOf(odd: Texture, even: Texture, u: real, v: real, p: Point3, sin: real -> real)
    ensures Sample(Checker(odd, even), u, v, p, sin) in {Sample(odd, u, v, p, sin), Sample(even, u, v, p, sin)}
  {}

  /** A checker of two equal sub-textures cannot be told from that sub-texture. */
  lemma CheckerOfEqualHalves(t: Texture, u: real, v: real, p: Point3, sin: real -> real)
    ensures Sample(Checker(t, t), u, v, p, sin) == Sample(t, u, v, p, sin)
  {}

  /** A checker of two colours shows `c2` on the odd cells and `c1` elsewhere. */
  lemma CheckerColorsSample(c1: Color, c2: Color, u: real, v: real, p: Point3, sin: real -> real)
    ensures Sample(CheckerColors(c1, c2), u, v, p, sin) == (if Sines(p, sin) < 0.0 then c2 else c1)
  {}

  /** The colours a texture can show: the leaves of its tree. */
  function Palette(t: Texture): (s: set<Color>)
    ensures s != {}
  {
    match t
    case Solid(c) => {c}
    case Checker(odd, even) => Palette(odd) + Palette(even)
  }
}
