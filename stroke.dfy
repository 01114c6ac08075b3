/**
 * The integer arithmetic of the event handlers (core/event_handlers.py):
 * mapping a window position inside the canvas area to a canvas pixel, and
 * the circle centres a brush stroke stamps between the previous and the
 * current mouse position.
 *
 * The source computes with Python floats and truncates with `int()`. The
 * model computes the exact rational value and truncates it toward zero.
 */
module Stroke {
  import opened Pixels
  import opened Settings

  /** `int(a / b)` for a positive `b`: the exact quotient truncated toward zero. */
  function TruncDiv(a: int, b: int): int
    requires b > 0
  {
    if a >= 0 then a / b else -((-a) / b)
  }

  /** A quotient of a value between two multiples of `b` lies between the factors. */
  lemma DivBetween(m: int, b: int, lo: int, hi: int)
    requires b > 0 && lo * b <= m <= hi * b
    ensures lo <= m / b <= hi
  {
    var q, r := m / b, m % b;
    assert m == q * b + r && 0 <= r < b;
    if q < lo {
      MulLe(q, lo - 1, b);
      Distrib(lo, -1, b);
      assert false;
    }
    if q > hi {
      MulLe(hi + 1, q, b);
      Distrib(hi, 1, b);
      assert false;
    }
  }

  lemma MulLe(a: int, c: int, b: int)
    requires a <= c && b >= 0
    ensures a * b <= c * b
  {
    assert c * b - a * b == (c - a) * b;
  }

  /** Truncation of a quotient between two multiples of `b` lies between the factors. */
  lemma TruncDivBetween(m: int, b: int, lo: int, hi: int)
    requires b > 0 && lo * b <= m <= hi * b
    ensures lo <= TruncDiv(m, b) <= hi
  {
    if m >= 0 {
      DivBetween(m, b, lo, hi);
    } else {
      DivBetween(-m, b, -hi, -lo);
    }
  }

  lemma TruncDivExact(a: int, b: int)
    requires b > 0
    ensures TruncDiv(a * b, b) == a
  {
    TruncDivBetween(a * b, b, a, a);
  }

  // ---------------------------------------------------------------- coordinate mapping

  /** One axis of the window-to-canvas mapping: `int((m - origin) * size / extent)`. */
  function MapAxis(m: int, origin: int, extent: int, size: int): int
    requires extent > 0
  {
    TruncDiv((m - origin) * size, extent)
  }

  /** The canvas pixel under window position `m` when the canvas area is `area`. */
  function ToCanvas(m: Point, area: Rect): Point
    requires area.width > 0 && area.height > 0
  {
    Point(MapAxis(m.x, area.left, area.width, CanvasWidth), MapAxis(m.y, area.top, area.height, CanvasHeight))
  }

  /** A position in `[origin, origin + extent)` maps into `[0, size)`, the origin to 0. */
  lemma MapAxisInRange(m: int, origin: int, extent: int, size: int)
    requires extent > 0 && size > 0 && origin <= m < origin + extent
    ensures 0 <= MapAxis(m, origin, extent, size) < size
    ensures m == origin ==> MapAxis(m, origin, extent, size) == 0
  {
    var d := m - origin;
    MulLe(0, d, size);
    MulLe(d, extent - 1, size);
    assert (extent - 1) * size == extent * size - size;
    var q := (d * size) / extent;
    DivBetween(d * size, extent, 0, size);
    assert q * extent <= d * size;
    if q >= size {
      MulLe(size, q, extent);
    }
  }

  /** Moving right (or down) in the window never moves left (or up) on the canvas. */
  lemma MapAxisMonotone(m: int, m': int, origin: int, extent: int, size: int)
    requires extent > 0 && size >= 0 && origin <= m <= m'
    ensures MapAxis(m, origin, extent, size) <= MapAxis(m', origin, extent, size)
  {
    var a, b := (m - origin) * size, (m' - origin) * size;
    MulLe(m - origin, m' - origin, size);
    MulLe(0, m - origin, size);
    DivMonotone(a, b, extent);
  }

  lemma DivMonotone(a: int, b: int, e: int)
    requires 0 <= a <= b && e > 0
    ensures a / e <= b / e
  {
    var qa, qb := a / e, b / e;
    assert qa * e <= a;
    assert b < (qb + 1) * e;
    if qa > qb {
      MulLe(qb + 1, qa, e);
    }
  }

  /** A mouse position inside the canvas area maps to a pixel of the canvas. */
  lemma ToCanvasInside(m: Point, area: Rect)
    requires Collides(area, m)
    ensures area.width > 0 && area.height > 0
    ensures 0 <= ToCanvas(m, area).x < CanvasWidth && 0 <= ToCanvas(m, area).y < CanvasHeight
  {
    MapAxisInRange(m.x, area.left, area.width, CanvasWidth);
    MapAxisInRange(m.y, area.top, area.height, CanvasHeight);
  }

  // ---------------------------------------------------------------- interpolation

  /** `brush_size // 2`. */
  function RadiusOf(size: int): int
  {
    size / 2
  }

  /** `max(1, radius // 2)`: the spacing aimed for between stamps. */
  function Step(radius: int): (s: int)
    ensures s >= 1 && (radius >= 2 ==> 2 * s <= radius)
  {
    if radius / 2 > 1 then radius / 2 else 1
  }

  function Abs(n: int): nat
  {
    if n < 0 then -n else n
  }

  /** `max(abs(dx), abs(dy))`. */
  function Chebyshev(p: Point, q: Point): (d: nat)
    ensures d >= Abs(q.x - p.x) && d >= Abs(q.y - p.y)
    ensures d == Abs(q.x - p.x) || d == Abs(q.y - p.y)
  {
    var dx, dy := Abs(q.x - p.x), Abs(q.y - p.y);
    if dx >= dy then dx else dy
  }

  /** `max(1, int(distance / step))`: the number of intervals of the stroke. */
  function Steps(distance: nat, step: int): (n: int)
    requires step >= 1
    ensures n >= 1 && (distance >= step ==> n * step <= distance)
  {
    var q := distance / step;
    assert q * step <= distance;
    if q > 1 then q else 1
  }

  /** Stamp `i` of `steps`: `int(from + d * i / steps)` on each axis. */
  function Centre(from: Point, to: Point, i: int, steps: int): Point
    requires steps > 0
  {
    Point(TruncDiv(from.x * steps + (to.x - from.x) * i, steps),
          TruncDiv(from.y * steps + (to.y - from.y) * i, steps))
  }

  /** The number of intervals of a stroke from `from` to `to` with brush radius `radius`. */
  function StrokeSteps(from: Point, to: Point, radius: int): (n: int)
    ensures n >= 1
  {
    Steps(Chebyshev(from, to), Step(radius))
  }

  /** The centres `handle_mouse_motion` stamps, in order. */
  function Centres(from: Point, to: Point, radius: int): (cs: seq<Point>)
  {
    var n := StrokeSteps(from, to, radius);
    seq(n + 1, i requires 0 <= i <= n => Centre(from, to, i, n))
  }

  /** A value between `a` and `b`, in either order. */
  predicate Between(a: int, v: int, b: int)
  {
    (a <= v <= b) || (b <= v <= a)
  }

  /** `0 <= d * i <= d * n` for a non-negative `d` and `0 <= i <= n`. */
  lemma ScaleBetween(d: int, i: int, n: int)
    requires d >= 0 && 0 <= i <= n
    ensures 0 <= d * i <= d * n
  {
    MulLe(0, i, d);
    MulLe(i, n, d);
  }

  /** `f * n + d * n == (f + d) * n`. */
  lemma Distrib(f: int, d: int, n: int)
    ensures f * n + d * n == (f + d) * n
  {
  }

  /** One axis of stamp `i`: at most `n` steps from `f` toward `t` stays between them. */
  lemma AxisBetween(f: int, t: int, i: int, n: int)
    requires n > 0 && 0 <= i <= n
    ensures Between(f, TruncDiv(f * n + (t - f) * i, n), t)
  {
    var m := f * n + (t - f) * i;
    if f <= t {
      ScaleBetween(t - f, i, n);
      Distrib(f, t - f, n);
      assert f * n <= m <= t * n;
      TruncDivBetween(m, n, f, t);
    } else {
      ScaleBetween(f - t, i, n);
      assert (t - f) * i == -((f - t) * i);
      Distrib(t, f - t, n);
      assert t * n <= m <= f * n;
      TruncDivBetween(m, n, t, f);
    }
  }

  /** One axis of the first and the last stamp. */
  lemma AxisEnds(f: int, t: int, n: int)
    requires n > 0
    ensures TruncDiv(f * n + (t - f) * 0, n) == f
    ensures TruncDiv(f * n + (t - f) * n, n) == t
  {
    TruncDivExact(f, n);
    Distrib(f, t - f, n);
    TruncDivExact(t, n);
  }

  lemma CentreEnds(from: Point, to: Point, n: int)
    requires n > 0
    ensures Centre(from, to, 0, n) == from && Centre(from, to, n, n) == to
  {
    AxisEnds(from.x, to.x, n);
    AxisEnds(from.y, to.y, n);
  }

  /** A stroke starts at the previous mouse position and ends at the current one. */
  lemma CentresEnds(from: Point, to: Point, radius: int)
    ensures |Centres(from, to, radius)| == StrokeSteps(from, to, radius) + 1
    ensures Centres(from, to, radius)[0] == from
    ensures Centres(from, to, radius)[|Centres(from, to, radius)| - 1] == to
  {
    var n := StrokeSteps(from, to, radius);
    CentreEnds(from, to, n);
  }

  /** Every centre of a stroke lies in the bounding box of its two end points. */
  lemma CentresInBox(from: Point, to: Point, radius: int)
    ensures forall i :: 0 <= i < |Centres(from, to, radius)| ==>
      Between(from.x, Centres(from, to, radius)[i].x, to.x) &&
      Between(from.y, Centres(from, to, radius)[i].y, to.y)
  {
    var n := StrokeSteps(from, to, radius);
    var cs := Centres(from, to, radius);
    forall i | 0 <= i < |cs|
      ensures Between(from.x, cs[i].x, to.x) && Between(from.y, cs[i].y, to.y)
    {
      AxisBetween(from.x, to.x, i, n);
      AxisBetween(from.y, to.y, i, n);
    }
  }

  /** A stroke between two canvas pixels stamps only centres on the canvas. */
  lemma CentresOnCanvas(from: Point, to: Point, radius: int)
    requires 0 <= from.x < CanvasWidth && 0 <= from.y < CanvasHeight
    requires 0 <= to.x < CanvasWidth && 0 <= to.y < CanvasHeight
    ensures forall i :: 0 <= i < |Centres(from, to, radius)| ==>
      0 <= Centres(from, to, radius)[i].x < CanvasWidth && 0 <= Centres(from, to, radius)[i].y < CanvasHeight
  {
    CentresInBox(from, to, radius);
  }

  // ---------------------------------------------------------------- spacing of the stamps

  /** Division with remainder determines the quotient. */
  lemma DivUnique(a: int, n: int, q: int, r: int)
    requires n > 0 && a == q * n + r && 0 <= r < n
    ensures a / n == q
  {
    var q', r' := a / n, a % n;
    assert (q - q') * n == r' - r;
    if q > q' {
      MulLe(1, q - q', n);
    }
    if q < q' {
      MulLe(1, q' - q, n);
    }
  }

  /** Adding less than `g * n` to a non-negative value raises its quotient by `n` by at most `g`. */
  lemma QuotientGap(m: int, d: int, n: int, g: int)
    requires n > 0 && m >= 0 && 0 <= d < g * n
    ensures 0 <= (m + d) / n - m / n <= g
  {
    var q, r := m / n, m % n;
    var e := r + d;
    var qe, re := e / n, e % n;
    assert m + d == (q + qe) * n + re;
    DivUnique(m + d, n, q + qe, re);
    assert e < (g + 1) * n;
    if qe > g {
      MulLe(g + 1, qe, n);
    }
    if qe < 0 {
      MulLe(qe, -1, n);
    }
  }

  /** Neighbouring stamps on one non-negative axis are at most `g` apart when `|t - f| < g * n`. */
  lemma AxisGap(f: int, t: int, i: int, n: int, g: int)
    requires n > 0 && 0 <= i < n && f >= 0 && t >= 0 && Abs(t - f) < g * n
    ensures Abs(TruncDiv(f * n + (t - f) * (i + 1), n) - TruncDiv(f * n + (t - f) * i, n)) <= g
  {
    var a, b := f * n + (t - f) * i, f * n + (t - f) * (i + 1);
    assert b == a + (t - f);
    MulLe(0, f, n);
    MulLe(0, t, n);
    if f <= t {
      ScaleBetween(t - f, i, n);
      QuotientGap(a, t - f, n, g);
    } else {
      ScaleBetween(f - t, i + 1, n);
      assert (t - f) * (i + 1) == -((f - t) * (i + 1));
      Distrib(t, f - t, n);
      QuotientGap(b, f - t, n, g);
    }
  }

  /** The stroke's length is less than twice the step times the number of intervals. */
  lemma StepsSpan(distance: nat, step: int)
    requires step >= 1
    ensures distance < 2 * step * Steps(distance, step)
  {
    var q := distance / step;
    assert distance < (q + 1) * step;
    if q > 1 {
      MulLe(q + 1, 2 * q, step);
    }
  }

  /**
   * No gaps along a stroke: neighbouring centres between two points with
   * non-negative coordinates (every canvas pixel) are at most twice the step
   * apart on each axis, which is at most the brush radius once it is 2 or more.
   */
  lemma CentresGap(from: Point, to: Point, radius: int, i: int)
    requires from.x >= 0 && from.y >= 0 && to.x >= 0 && to.y >= 0
    requires 0 <= i < |Centres(from, to, radius)| - 1
    ensures Chebyshev(Centres(from, to, radius)[i], Centres(from, to, radius)[i + 1]) <= 2 * Step(radius)
    ensures radius >= 2 ==> Chebyshev(Centres(from, to, radius)[i], Centres(from, to, radius)[i + 1]) <= radius
  {
    var n := StrokeSteps(from, to, radius);
    var g := 2 * Step(radius);
    StepsSpan(Chebyshev(from, to), Step(radius));
    assert Chebyshev(from, to) < g * n;
    AxisGap(from.x, to.x, i, n, g);
    AxisGap(from.y, to.y, i, n, g);
  }
}
