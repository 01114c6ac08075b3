/**
 * Pixel-level vocabulary shared by every part of the model: 8-bit channels,
 * RGBA colours, integer points, rectangles with pygame's hit test, and the
 * immutable value view (a `Grid`) of a mutable pixel surface.
 *
 * A surface is an `array2<Color>` indexed `[x, y]`, so `Length0` is the width
 * and `Length1` the height, as in `pygame.PixelArray`. A `Grid` is the same
 * raster as a sequence of columns: `g[x][y]`.
 */
module Pixels {

  newtype Byte = n: int | 0 <= n < 256

  /** An RGBA pixel. pygame compares colours on all four channels. */
  datatype Color = Color(r: Byte, g: Byte, b: Byte, a: Byte)

  /** A colour written as a 3-tuple in the source: pygame gives it alpha 255. */
  function Opaque(r: Byte, g: Byte, b: Byte): (c: Color)
    ensures c.a == 255 && c.r == r && c.g == g && c.b == b
  {
    Color(r, g, b, 255)
  }

  /** The contents of a fresh `pygame.Surface(size, SRCALPHA)`: transparent black. */
  const Transparent := Color(0, 0, 0, 0)

  /** The three bytes per pixel that `pygame.image.tostring(surface, "RGB")` keeps. */
  datatype Rgb = Rgb(r: Byte, g: Byte, b: Byte)

  function RgbOf(c: Color): Rgb
  {
    Rgb(c.r, c.g, c.b)
  }

  datatype Point = Point(x: int, y: int)

  /** The four-neighbourhood: the points differ by one in exactly one coordinate. */
  predicate Adjacent(p: Point, q: Point)
  {
    (p.x == q.x && (p.y - q.y == 1 || q.y - p.y == 1)) ||
    (p.y == q.y && (p.x - q.x == 1 || q.x - p.x == 1))
  }

  type Grid = seq<seq<Color>>

  /** `g` is a `w` by `h` raster. */
  predicate IsGrid(g: Grid, w: int, h: int)
  {
    |g| == w && forall x :: 0 <= x < |g| ==> |g[x]| == h
  }

  predicate Inside(g: Grid, p: Point)
  {
    0 <= p.x < |g| && 0 <= p.y < |g[p.x]|
  }

  function At(g: Grid, p: Point): Color
    requires Inside(g, p)
  {
    g[p.x][p.y]
  }

  /** A grid of the given size with every pixel `c` (what `Surface.fill` leaves). */
  function Uniform(w: nat, h: nat, c: Color): (g: Grid)
    ensures IsGrid(g, w, h)
    ensures forall x, y :: 0 <= x < w && 0 <= y < h ==> g[x][y] == c
  {
    seq(w, x => seq(h, y => c))
  }

  /** The value of a surface at this instant: what `Surface.copy()` returns. */
  function Contents(a: array2<Color>): (g: Grid)
    reads a
    ensures IsGrid(g, a.Length0, a.Length1)
    ensures forall x, y :: 0 <= x < a.Length0 && 0 <= y < a.Length1 ==> g[x][y] == a[x, y]
  {
    seq(a.Length0, x requires 0 <= x < a.Length0 reads a =>
      seq(a.Length1, y requires 0 <= y < a.Length1 reads a => a[x, y]))
  }

  /** Two rasters of the same shape are equal when they agree pixel by pixel. */
  lemma GridExt(g: Grid, k: Grid, w: int, h: int)
    requires IsGrid(g, w, h) && IsGrid(k, w, h)
    requires forall x, y :: 0 <= x < w && 0 <= y < h ==> g[x][y] == k[x][y]
    ensures g == k
  {
    forall x | 0 <= x < w
      ensures g[x] == k[x]
    {
      assert |g[x]| == |k[x]| == h;
    }
  }

  /** `Surface.fill(c)`: every pixel becomes `c`. */
  method FillSurface(a: array2<Color>, c: Color)
    modifies a
    ensures Contents(a) == Uniform(a.Length0, a.Length1, c)
  {
    forall x, y | 0 <= x < a.Length0 && 0 <= y < a.Length1 {
      a[x, y] := c;
    }
    GridExt(Contents(a), Uniform(a.Length0, a.Length1, c), a.Length0, a.Length1);
  }

  /** `Surface.blit(copy, (0, 0))` of a copy of the same size: the surface becomes the copy. */
  method BlitSurface(a: array2<Color>, g: Grid)
    requires IsGrid(g, a.Length0, a.Length1)
    modifies a
    ensures Contents(a) == g
  {
    forall x, y | 0 <= x < a.Length0 && 0 <= y < a.Length1 {
      a[x, y] := g[x][y];
    }
    GridExt(Contents(a), g, a.Length0, a.Length1);
  }

  /** A `pygame.Rect`: left, top, width, height. */
  datatype Rect = Rect(left: int, top: int, width: int, height: int)

  /** `Rect.collidepoint`: the right and bottom edges are excluded. */
  predicate Collides(r: Rect, p: Point)
  {
    r.left <= p.x < r.left + r.width && r.top <= p.y < r.top + r.height
  }

  /** `Rect.inflate(dx, dy)`: grows about the centre, the left edge moving by `dx // 2`. */
  function Inflate(r: Rect, dx: int, dy: int): (s: Rect)
    ensures s.width == r.width + dx && s.height == r.height + dy
  {
    Rect(r.left - dx / 2, r.top - dy / 2, r.width + dx, r.height + dy)
  }
}
