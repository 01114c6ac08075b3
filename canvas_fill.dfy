/**
 * The queue loop of `CanvasManager.flood_fill` (core/canvas.py): a FIFO
 * scanline fill over a `PixelArray`. A point taken from the queue that lies
 * outside the surface or no longer shows the old colour is skipped; otherwise
 * the maximal run of old-coloured pixels through it is found by a west and an
 * east scan, painted in one slice assignment, and every old-coloured pixel
 * directly above or below the run is queued.
 *
 * The loop invariants are stated on `Contents(pixels)`, the value of the
 * surface, and are preserved by the small lemmas below.
 */
module CanvasFill {
  import opened Pixels
  import opened Region

  /** Every pixel either still has its original colour or has become `c` and lies in the seed's region. */
  ghost predicate OnlyRegion(g: Grid, orig: Grid, seed: Point, c: Color)
    requires SameShape(orig, g)
  {
    forall p :: Inside(orig, p) ==> At(g, p) == At(orig, p) || (At(g, p) == c && InRegion(orig, seed, p))
  }

  /** Every queued point that is inside and still shows `oc` lies in the seed's region. */
  ghost predicate Queued(g: Grid, orig: Grid, seed: Point, oc: Color, q: seq<Point>)
  {
    forall i :: 0 <= i < |q| && Inside(g, q[i]) && At(g, q[i]) == oc ==> InRegion(orig, seed, q[i])
  }

  /**
   * Every 4-neighbour still showing `oc` of a recoloured pixel waits in `q`,
   * except for the neighbours of the pixels `lo <= x < hi` of row `y`, whose
   * rows above and below are still being inspected.
   */
  ghost predicate FrontierQueued(g: Grid, orig: Grid, oc: Color, q: seq<Point>, y: int, lo: int, hi: int)
    requires SameShape(orig, g)
  {
    forall p, n ::
      Inside(orig, p) && Inside(orig, n) && Adjacent(p, n) && At(g, p) != At(orig, p) &&
      At(g, n) == oc && !(p.y == y && lo <= p.x < hi)
      ==> n in q
  }

  /** Every pixel still showing `oc` is in `todo`, the termination measure. */
  ghost predicate Tracked(g: Grid, oc: Color, todo: set<Point>)
  {
    forall p :: Inside(g, p) && At(g, p) == oc ==> p in todo
  }

  /** `g'` is `g` with the pixels `lo <= x < hi` of row `y` set to `c`. */
  ghost predicate RunPainted(g: Grid, g': Grid, y: int, lo: int, hi: int, c: Color)
  {
    SameShape(g, g') &&
    forall p :: Inside(g, p) ==> At(g', p) == if p.y == y && lo <= p.x < hi then c else At(g, p)
  }

  function RunSet(y: int, lo: int, hi: int): set<Point>
  {
    set i | lo <= i < hi :: Point(i, y)
  }

  /** The invariant of the queue loop, on the current value of the surface. */
  ghost predicate FillInv(a: array2<Color>, orig: Grid, seed: Point, oc: Color, nc: Color,
                          q: seq<Point>, todo: set<Point>)
    reads a
  {
    && IsGrid(orig, a.Length0, a.Length1) && Inside(orig, seed) && At(orig, seed) == oc && oc != nc
    && var g := Contents(a);
    && SameShape(orig, g)
    && OnlyRegion(g, orig, seed, nc)
    && Queued(g, orig, seed, oc, q)
    && FrontierQueued(g, orig, oc, q, 0, 0, 0)
    && Tracked(g, oc, todo)
    && (At(g, seed) == oc ==> seed in q)
  }

  /**
   * Recolours exactly the 4-connected region of `oldC` that contains `pos`
   * and leaves every other pixel as it was. The caller has read `oldC` at
   * `pos` and found it different from `newC`, as `flood_fill` does.
   */
  method ScanlineFill(pixels: array2<Color>, pos: Point, oldC: Color, newC: Color)
    requires 0 <= pos.x < pixels.Length0 && 0 <= pos.y < pixels.Length1
    requires pixels[pos.x, pos.y] == oldC && oldC != newC
    modifies pixels
    ensures forall x, y :: 0 <= x < pixels.Length0 && 0 <= y < pixels.Length1 ==>
      pixels[x, y] == (if InRegion(old(Contents(pixels)), pos, Point(x, y)) then newC else old(pixels[x, y]))
  {
    ghost var orig := Contents(pixels);
    ghost var todo := set x, y | 0 <= x < pixels.Length0 && 0 <= y < pixels.Length1 :: Point(x, y);
    var q := [pos];
    assert Tracked(orig, oldC, todo) by {
      forall p | Inside(orig, p) && At(orig, p) == oldC
        ensures p in todo
      {
        assert p == Point(p.x, p.y);
      }
    }
    SeedInRegion(orig, pos);
    while |q| > 0
      invariant FillInv(pixels, orig, pos, oldC, newC, q, todo)
      decreases todo, |q|
    {
      q, todo := Visit(pixels, orig, pos, oldC, newC, q, todo);
    }
    ghost var fin := Contents(pixels);
    RegionFilled(orig, fin, pos, newC);
  }

  /** One turn of the queue loop: take the oldest point and, unless it is skipped, paint its run. */
  method Visit(pixels: array2<Color>, ghost orig: Grid, ghost pos: Point, oldC: Color, newC: Color,
               q: seq<Point>, ghost todo: set<Point>)
    returns (q': seq<Point>, ghost todo': set<Point>)
    requires FillInv(pixels, orig, pos, oldC, newC, q, todo) && |q| > 0
    modifies pixels
    ensures FillInv(pixels, orig, pos, oldC, newC, q', todo')
    ensures todo' < todo || (todo' == todo && |q'| < |q|)
  {
    var p := q[0];
    var rest := q[1..];
    assert q == [p] + rest;
    if p.x < 0 || p.x >= pixels.Length0 || p.y < 0 || p.y >= pixels.Length1 {
      SkipKeeps(Contents(pixels), orig, pos, oldC, p, rest);
      q', todo' := rest, todo;
    } else if pixels[p.x, p.y] != oldC {
      SkipKeeps(Contents(pixels), orig, pos, oldC, p, rest);
      q', todo' := rest, todo;
    } else {
      q', todo' := VisitRun(pixels, orig, pos, oldC, newC, p, rest, todo);
    }
  }

  /** The body of the loop for a point that is inside and still shows the old colour. */
  method VisitRun(pixels: array2<Color>, ghost orig: Grid, ghost pos: Point, oldC: Color, newC: Color,
                  p: Point, rest: seq<Point>, ghost todo: set<Point>)
    returns (q': seq<Point>, ghost todo': set<Point>)
    requires FillInv(pixels, orig, pos, oldC, newC, [p] + rest, todo)
    requires 0 <= p.x < pixels.Length0 && 0 <= p.y < pixels.Length1 && pixels[p.x, p.y] == oldC
    modifies pixels
    ensures FillInv(pixels, orig, pos, oldC, newC, q', todo')
    ensures todo' < todo
  {
    var x, y := p.x, p.y;
    ghost var g := Contents(pixels);
    assert InRegion(orig, pos, p) by {
      assert ([p] + rest)[0] == p;
    }
    var west, east := ScanRun(pixels, orig, pos, oldC, newC, x, y);
    PaintSpan(pixels, y, west + 1, east, newC);
    ghost var g' := Contents(pixels);
    AfterPaint(g, g', orig, pos, oldC, newC, p, rest, west, east, todo);
    todo' := todo - RunSet(y, west + 1, east);
    q' := QueueRows(pixels, orig, pos, oldC, newC, rest, y, west, east);
  }

  /** `pixels[lo:hi, y] = c`: the slice assignment that paints one run. */
  method PaintSpan(pixels: array2<Color>, y: int, lo: int, hi: int, c: Color)
    requires 0 <= lo <= hi <= pixels.Length0 && 0 <= y < pixels.Length1
    modifies pixels
    ensures RunPainted(old(Contents(pixels)), Contents(pixels), y, lo, hi, c)
    ensures forall i, j :: 0 <= i < pixels.Length0 && 0 <= j < pixels.Length1 ==>
      pixels[i, j] == if j == y && lo <= i < hi then c else old(pixels[i, j])
  {
    forall i | lo <= i < hi {
      pixels[i, y] := c;
    }
  }

  /** The `for dx in range(west + 1, east)` loop: queue the old-coloured pixels above and below the run. */
  method QueueRows(pixels: array2<Color>, ghost orig: Grid, ghost pos: Point, oldC: Color, newC: Color,
                   q: seq<Point>, y: int, west: int, east: int)
    returns (q': seq<Point>)
    requires IsGrid(orig, pixels.Length0, pixels.Length1) && oldC != newC
    requires Inside(orig, pos) && At(orig, pos) == oldC
    requires -1 <= west < east <= pixels.Length0 && 0 <= y < pixels.Length1
    requires forall i :: west < i < east ==> pixels[i, y] == newC && InRegion(orig, pos, Point(i, y))
    requires west >= 0 ==> pixels[west, y] != oldC
    requires east < pixels.Length0 ==> pixels[east, y] != oldC
    requires OnlyRegion(Contents(pixels), orig, pos, newC)
    requires Queued(Contents(pixels), orig, pos, oldC, q)
    requires FrontierQueued(Contents(pixels), orig, oldC, q, y, west + 1, east)
    ensures Queued(Contents(pixels), orig, pos, oldC, q')
    ensures FrontierQueued(Contents(pixels), orig, oldC, q', 0, 0, 0)
    ensures forall n :: n in q ==> n in q'
  {
    ghost var g := Contents(pixels);
    q' := q;
    for dx := west + 1 to east
      invariant Queued(g, orig, pos, oldC, q')
      invariant FrontierQueued(g, orig, oldC, q', y, dx, east)
      invariant forall n :: n in q ==> n in q'
    {
      ghost var before := q';
      q' := QueueColumn(pixels, orig, pos, oldC, newC, q', dx, y);
      Advance(g, orig, oldC, newC, before, q', y, dx, west, east);
    }
  }

  /** One step of the queueing loop: the old-coloured pixels above and below `(dx, y)` are appended, in that order. */
  method QueueColumn(pixels: array2<Color>, ghost orig: Grid, ghost pos: Point, oldC: Color, newC: Color,
                     q: seq<Point>, dx: int, y: int)
    returns (q': seq<Point>)
    requires IsGrid(orig, pixels.Length0, pixels.Length1) && oldC != newC
    requires Inside(orig, pos) && At(orig, pos) == oldC
    requires 0 <= dx < pixels.Length0 && 0 <= y < pixels.Length1 && InRegion(orig, pos, Point(dx, y))
    requires OnlyRegion(Contents(pixels), orig, pos, newC)
    requires Queued(Contents(pixels), orig, pos, oldC, q)
    ensures Queued(Contents(pixels), orig, pos, oldC, q')
    ensures forall n :: n in q ==> n in q'
    ensures Inside(Contents(pixels), Point(dx, y - 1)) && At(Contents(pixels), Point(dx, y - 1)) == oldC ==> Point(dx, y - 1) in q'
    ensures Inside(Contents(pixels), Point(dx, y + 1)) && At(Contents(pixels), Point(dx, y + 1)) == oldC ==> Point(dx, y + 1) in q'
  {
    ghost var g := Contents(pixels);
    q' := q;
    if y > 0 && pixels[dx, y - 1] == oldC {
      assert At(g, Point(dx, y - 1)) == oldC;
      RegionStep(orig, pos, Point(dx, y), Point(dx, y - 1));
      q' := q' + [Point(dx, y - 1)];
    }
    ghost var mid := q';
    if y < pixels.Length1 - 1 && pixels[dx, y + 1] == oldC {
      assert At(g, Point(dx, y + 1)) == oldC;
      RegionStep(orig, pos, Point(dx, y), Point(dx, y + 1));
      q' := q' + [Point(dx, y + 1)];
    }
    assert Point(dx, y - 1) in mid ==> Point(dx, y - 1) in q';
  }

  /** The west and east scans: the maximal run of `oc` through `(x, y)`, as `(west, east)` exclusive. */
  method ScanRun(pixels: array2<Color>, ghost orig: Grid, ghost seed: Point, oc: Color, nc: Color, x: int, y: int)
    returns (west: int, east: int)
    requires SameShape(orig, Contents(pixels)) && oc != nc
    requires OnlyRegion(Contents(pixels), orig, seed, nc)
    requires 0 <= x < pixels.Length0 && 0 <= y < pixels.Length1 && pixels[x, y] == oc
    requires InRegion(orig, seed, Point(x, y))
    ensures -1 <= west < x < east <= pixels.Length0
    ensures forall i :: west < i < east ==> pixels[i, y] == oc && InRegion(orig, seed, Point(i, y))
    ensures west >= 0 ==> pixels[west, y] != oc
    ensures east < pixels.Length0 ==> pixels[east, y] != oc
  {
    RegionColor(orig, seed, Point(x, y));
    assert At(orig, seed) == oc by { assert At(Contents(pixels), Point(x, y)) == oc; }
    west := ScanWest(pixels, orig, seed, oc, nc, x, y);
    east := ScanEast(pixels, orig, seed, oc, nc, x, y);
  }

  /** The west scan from `x`: the first column west of the run of `oc`, or -1. */
  method ScanWest(pixels: array2<Color>, ghost orig: Grid, ghost seed: Point, oc: Color, nc: Color, x: int, y: int)
    returns (west: int)
    requires SameShape(orig, Contents(pixels)) && oc != nc && Inside(orig, seed) && At(orig, seed) == oc
    requires OnlyRegion(Contents(pixels), orig, seed, nc)
    requires 0 <= x < pixels.Length0 && 0 <= y < pixels.Length1 && pixels[x, y] == oc
    requires InRegion(orig, seed, Point(x, y))
    ensures -1 <= west < x
    ensures forall i :: west < i <= x ==> pixels[i, y] == oc && InRegion(orig, seed, Point(i, y))
    ensures west >= 0 ==> pixels[west, y] != oc
  {
    ghost var g := Contents(pixels);
    west := x;
    while west >= 0 && pixels[west, y] == oc
      invariant -1 <= west <= x
      invariant forall i :: west < i <= x ==> pixels[i, y] == oc && InRegion(orig, seed, Point(i, y))
    {
      assert At(g, Point(west, y)) == oc && At(orig, Point(west, y)) == oc;
      if west < x {
        RegionStep(orig, seed, Point(west + 1, y), Point(west, y));
      }
      west := west - 1;
    }
  }

  /** The east scan from `x`: the first column past the run of `oc`. */
  method ScanEast(pixels: array2<Color>, ghost orig: Grid, ghost seed: Point, oc: Color, nc: Color, x: int, y: int)
    returns (east: int)
    requires SameShape(orig, Contents(pixels)) && oc != nc && Inside(orig, seed) && At(orig, seed) == oc
    requires OnlyRegion(Contents(pixels), orig, seed, nc)
    requires 0 <= x < pixels.Length0 && 0 <= y < pixels.Length1 && pixels[x, y] == oc
    requires InRegion(orig, seed, Point(x, y))
    ensures x < east <= pixels.Length0
    ensures forall i :: x <= i < east ==> pixels[i, y] == oc && InRegion(orig, seed, Point(i, y))
    ensures east < pixels.Length0 ==> pixels[east, y] != oc
  {
    ghost var g := Contents(pixels);
    east := x;
    while east < pixels.Length0 && pixels[east, y] == oc
      invariant x <= east <= pixels.Length0
      invariant forall i :: x <= i < east ==> pixels[i, y] == oc && InRegion(orig, seed, Point(i, y))
    {
      assert At(g, Point(east, y)) == oc && At(orig, Point(east, y)) == oc;
      if x < east {
        RegionStep(orig, seed, Point(east - 1, y), Point(east, y));
      }
      east := east + 1;
    }
  }


  /** Dropping a queued point that is outside or no longer `oc` keeps the queue invariants. */
  lemma SkipKeeps(g: Grid, orig: Grid, seed: Point, oc: Color, p: Point, rest: seq<Point>)
    requires SameShape(orig, g)
    requires Queued(g, orig, seed, oc, [p] + rest)
    requires FrontierQueued(g, orig, oc, [p] + rest, 0, 0, 0)
    requires !Inside(g, p) || At(g, p) != oc
    ensures Queued(g, orig, seed, oc, rest)
    ensures FrontierQueued(g, orig, oc, rest, 0, 0, 0)
  {
    forall i | 0 <= i < |rest| && Inside(g, rest[i]) && At(g, rest[i]) == oc
      ensures InRegion(orig, seed, rest[i])
    {
      assert ([p] + rest)[i + 1] == rest[i];
    }
  }

  /** Painting the run keeps the invariants, leaving the run's rows above and below to inspect. */
  lemma AfterPaint(g: Grid, g': Grid, orig: Grid, seed: Point, oc: Color, nc: Color,
                   p: Point, rest: seq<Point>, west: int, east: int, todo: set<Point>)
    requires SameShape(orig, g) && oc != nc && Inside(g, p)
    requires OnlyRegion(g, orig, seed, nc)
    requires Queued(g, orig, seed, oc, [p] + rest)
    requires FrontierQueued(g, orig, oc, [p] + rest, 0, 0, 0)
    requires Tracked(g, oc, todo)
    requires Inside(g, seed) && (At(g, seed) == oc ==> seed in [p] + rest)
    requires west < p.x < east
    requires forall i :: west < i < east ==> Inside(g, Point(i, p.y)) && At(g, Point(i, p.y)) == oc &&
                                             InRegion(orig, seed, Point(i, p.y))
    requires Inside(g, Point(west, p.y)) ==> At(g, Point(west, p.y)) != oc
    requires Inside(g, Point(east, p.y)) ==> At(g, Point(east, p.y)) != oc
    requires RunPainted(g, g', p.y, west + 1, east, nc)
    ensures SameShape(orig, g')
    ensures OnlyRegion(g', orig, seed, nc)
    ensures Queued(g', orig, seed, oc, rest)
    ensures FrontierQueued(g', orig, oc, rest, p.y, west + 1, east)
    ensures Tracked(g', oc, todo - RunSet(p.y, west + 1, east))
    ensures p in todo && p in RunSet(p.y, west + 1, east)
    ensures At(g', seed) == oc ==> seed in rest
  {
    assert p == Point(p.x, p.y);
    forall i | 0 <= i < |rest| && Inside(g', rest[i]) && At(g', rest[i]) == oc
      ensures InRegion(orig, seed, rest[i])
    {
      assert ([p] + rest)[i + 1] == rest[i];
    }
    forall r, n | Inside(orig, r) && Inside(orig, n) && Adjacent(r, n) && At(g', r) != At(orig, r) &&
                  At(g', n) == oc && !(r.y == p.y && west + 1 <= r.x < east)
      ensures n in rest
    {
      assert At(g, n) == oc;
      assert n in [p] + rest;
    }
  }

  /** Inspecting the pixels above and below `(dx, y)` moves the pending part of the frontier one step east. */
  lemma Advance(g: Grid, orig: Grid, oc: Color, nc: Color, q: seq<Point>, q': seq<Point>,
                y: int, dx: int, west: int, east: int)
    requires SameShape(orig, g) && oc != nc
    requires FrontierQueued(g, orig, oc, q, y, dx, east)
    requires forall n :: n in q ==> n in q'
    requires west < dx < east
    requires forall i :: west < i < east ==> Inside(g, Point(i, y)) && At(g, Point(i, y)) == nc
    requires Inside(g, Point(west, y)) ==> At(g, Point(west, y)) != oc
    requires Inside(g, Point(east, y)) ==> At(g, Point(east, y)) != oc
    requires Inside(g, Point(dx, y - 1)) && At(g, Point(dx, y - 1)) == oc ==> Point(dx, y - 1) in q'
    requires Inside(g, Point(dx, y + 1)) && At(g, Point(dx, y + 1)) == oc ==> Point(dx, y + 1) in q'
    ensures FrontierQueued(g, orig, oc, q', y, dx + 1, east)
  {
    forall r, n | Inside(orig, r) && Inside(orig, n) && Adjacent(r, n) && At(g, r) != At(orig, r) &&
                  At(g, n) == oc && !(r.y == y && dx + 1 <= r.x < east)
      ensures n in q'
    {
      if r == Point(dx, y) {
        assert n.y != y;
      } else {
        assert n in q;
      }
    }
  }
}
