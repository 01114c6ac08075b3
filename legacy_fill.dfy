/**
 * `scanline_fill` of the single-file program (scrible.py): a LIFO scanline
 * fill. A popped point first walks west while the pixel shows the old
 * colour, then paints east pixel by pixel; two flags, `span_above` and
 * `span_below`, make it push one point per stretch of old-coloured pixels
 * directly above and below the run, instead of one point per pixel.
 *
 * The proof tracks, for the current surface `g`, which old-coloured pixels
 * are "covered": some stacked point, or the east-moving cursor of the run
 * being painted, lies west of the pixel in its row with only old-coloured
 * pixels between. Every old-coloured 4-neighbour of a recoloured pixel is
 * covered, so when the stack runs empty no such neighbour remains.
 */
module LegacyFill {
  import opened Pixels
  import opened Region
  import opened CanvasFill

  /** From `e` east to `n` along one row every pixel shows `oc`. */
  ghost predicate Reaches(g: Grid, oc: Color, e: Point, n: Point)
  {
    e.y == n.y && e.x <= n.x &&
    forall k :: e.x <= k <= n.x ==> Inside(g, Point(k, n.y)) && At(g, Point(k, n.y)) == oc
  }

  /** `n` is covered by a stacked point. */
  ghost predicate StackCov(g: Grid, oc: Color, st: seq<Point>, n: Point)
  {
    exists i :: 0 <= i < |st| && Reaches(g, oc, st[i], n)
  }

  /** `n` is covered by the cursor `cur` or by a stacked point. */
  ghost predicate Cov(g: Grid, oc: Color, st: seq<Point>, cur: Point, n: Point)
  {
    Reaches(g, oc, cur, n) || StackCov(g, oc, st, n)
  }

  /** Every old-coloured 4-neighbour of a recoloured pixel, apart from those in `skip`, is covered. */
  ghost predicate FrontierBut(g: Grid, orig: Grid, oc: Color, st: seq<Point>, cur: Point, skip: set<Point>)
    requires SameShape(orig, g)
  {
    forall p, n ::
      Inside(orig, p) && Inside(orig, n) && Adjacent(p, n) && At(g, p) != At(orig, p) &&
      At(g, n) == oc && n !in skip
      ==> Cov(g, oc, st, cur, n)
  }

  /** Every stacked point is a pixel of the seed's region. */
  ghost predicate InStack(orig: Grid, seed: Point, st: seq<Point>)
  {
    forall i :: 0 <= i < |st| ==> Inside(orig, st[i]) && InRegion(orig, seed, st[i])
  }

  /** A set span flag: the pixel in column `col` of row `cur.y + dy` shows `oc` and a stacked point covers it. */
  ghost predicate Flag(g: Grid, oc: Color, st: seq<Point>, cur: Point, col: int, dy: int, f: bool)
  {
    f ==> Inside(g, Point(col, cur.y + dy)) && At(g, Point(col, cur.y + dy)) == oc &&
          StackCov(g, oc, st, Point(col, cur.y + dy))
  }

  /** A cursor east of the surface, which covers nothing. */
  function NoCursor(w: int): Point
  {
    Point(w, 0)
  }

  /** What holds of the surface, the stack and the measure between two pops. */
  ghost predicate OuterInv(g: Grid, w: int, h: int, orig: Grid, seed: Point, oc: Color, nc: Color,
                           st: seq<Point>, todo: set<Point>)
  {
    && IsGrid(orig, w, h) && IsGrid(g, w, h) && Inside(orig, seed) && At(orig, seed) == oc && oc != nc
    && SameShape(orig, g)
    && OnlyRegion(g, orig, seed, nc)
    && InStack(orig, seed, st)
    && Tracked(g, oc, todo)
    && FrontierBut(g, orig, oc, st, NoCursor(w), {})
    && (At(g, seed) == oc ==> Cov(g, oc, st, NoCursor(w), seed))
  }

  /**
   * What holds while a run of row `y` is painted with the cursor at column
   * `cx`: the flags speak of columns `colA` (above) and `colB` (below), and
   * the neighbours in `skip` are still to be inspected.
   */
  ghost predicate RunInv(g: Grid, w: int, h: int, orig: Grid, seed: Point, oc: Color, nc: Color,
                         st: seq<Point>, todo: set<Point>, cx: int, y: int,
                         above: bool, colA: int, below: bool, colB: int, skip: set<Point>)
  {
    && RunBase(g, w, h, orig, seed, oc, nc, todo, cx, y)
    && RunCov(g, orig, seed, oc, st, Point(cx, y), skip)
    && Flag(g, oc, st, Point(cx, y), colA, -1, above)
    && Flag(g, oc, st, Point(cx, y), colB, 1, below)
  }

  /** The part of `RunInv` that the stack does not affect. */
  ghost predicate RunBase(g: Grid, w: int, h: int, orig: Grid, seed: Point, oc: Color, nc: Color,
                          todo: set<Point>, cx: int, y: int)
  {
    && IsGrid(orig, w, h) && IsGrid(g, w, h) && Inside(orig, seed) && At(orig, seed) == oc && oc != nc
    && 0 <= y < h && 0 <= cx <= w
    && SameShape(orig, g)
    && OnlyRegion(g, orig, seed, nc)
    && Tracked(g, oc, todo)
    && (cx < w && At(g, Point(cx, y)) == oc ==> InRegion(orig, seed, Point(cx, y)))
    && (cx > 0 ==> At(g, Point(cx - 1, y)) != oc)
  }

  /** The stack's part of `RunInv`: its points lie in the region and cover the frontier and the seed. */
  ghost predicate RunCov(g: Grid, orig: Grid, seed: Point, oc: Color, st: seq<Point>, cur: Point, skip: set<Point>)
  {
    && SameShape(orig, g) && Inside(orig, seed)
    && InStack(orig, seed, st)
    && FrontierBut(g, orig, oc, st, cur, skip)
    && (At(g, seed) == oc ==> Cov(g, oc, st, cur, seed))
  }

  /**
   * Recolours exactly the 4-connected region of the seed's colour that
   * contains `start`; when the seed already shows `newC` nothing changes.
   * The seed must be a pixel of the surface.
   */
  method LegacyScanlineFill(surface: array2<Color>, start: Point, newC: Color)
    requires 0 <= start.x < surface.Length0 && 0 <= start.y < surface.Length1
    modifies surface
    ensures forall x, y :: 0 <= x < surface.Length0 && 0 <= y < surface.Length1 ==>
      surface[x, y] == (if InRegion(old(Contents(surface)), start, Point(x, y)) then newC else old(surface[x, y]))
    ensures old(surface[start.x, start.y]) == newC ==> Contents(surface) == old(Contents(surface))
  {
    ghost var orig := Contents(surface);
    var oldC := surface[start.x, start.y];
    if oldC == newC {
      forall x, y | 0 <= x < surface.Length0 && 0 <= y < surface.Length1 && InRegion(orig, start, Point(x, y))
        ensures surface[x, y] == newC
      {
        RegionColor(orig, start, Point(x, y));
      }
      return;
    }
    ghost var w, h := surface.Length0, surface.Length1;
    ghost var todo := set x, y | 0 <= x < w && 0 <= y < h :: Point(x, y);
    var stack := [start];
    assert Tracked(orig, oldC, todo) by {
      forall p | Inside(orig, p) && At(orig, p) == oldC
        ensures p in todo
      {
        assert p == Point(p.x, p.y);
      }
    }
    SeedInRegion(orig, start);
    assert Reaches(orig, oldC, stack[0], start);
    while |stack| > 0
      invariant OuterInv(Contents(surface), w, h, orig, start, oldC, newC, stack, todo)
      decreases todo, |stack|
    {
      stack, todo := Visit(surface, orig, start, oldC, newC, stack, todo);
    }
    Completed(Contents(surface), w, h, orig, start, oldC, newC, todo);
  }

  /** One iteration of the stack loop: pop a point, walk west, paint east. */
  method Visit(a: array2<Color>, ghost orig: Grid, ghost seed: Point, oc: Color, nc: Color,
               st: seq<Point>, ghost todo: set<Point>)
    returns (st': seq<Point>, ghost todo': set<Point>)
    requires OuterInv(Contents(a), a.Length0, a.Length1, orig, seed, oc, nc, st, todo) && |st| > 0
    modifies a
    ensures OuterInv(Contents(a), a.Length0, a.Length1, orig, seed, oc, nc, st', todo')
    ensures todo' < todo || (todo' == todo && |st'| < |st|)
  {
    var e := st[|st| - 1];
    var rest := st[..|st| - 1];
    var x := LeftScan(a, orig, seed, oc, nc, e);
    StartRun(Contents(a), a.Length0, a.Length1, orig, seed, oc, nc, st, todo, x);
    st', todo' := PaintRun(a, orig, seed, oc, nc, rest, todo, x, e.y);
  }

  /** The west walk and the step back east: `x` is where the run starts. */
  method LeftScan(a: array2<Color>, ghost orig: Grid, ghost seed: Point, oc: Color, nc: Color, e: Point)
    returns (x: int)
    requires IsGrid(orig, a.Length0, a.Length1) && SameShape(orig, Contents(a)) && oc != nc
    requires OnlyRegion(Contents(a), orig, seed, nc)
    requires Inside(orig, e) && InRegion(orig, seed, e)
    ensures 0 <= x <= e.x + 1 && x <= a.Length0
    ensures x > 0 ==> a[x - 1, e.y] != oc
    ensures forall i :: x <= i <= e.x ==> a[i, e.y] == oc && InRegion(orig, seed, Point(i, e.y))
    ensures a[e.x, e.y] == oc ==> x <= e.x
  {
    ghost var g := Contents(a);
    x := e.x;
    while x >= 0 && a[x, e.y] == oc
      invariant -1 <= x <= e.x
      invariant forall i :: x < i <= e.x ==> a[i, e.y] == oc && InRegion(orig, seed, Point(i, e.y))
    {
      assert At(g, Point(x, e.y)) == oc;
      if x < e.x {
        RegionStep(orig, seed, Point(x + 1, e.y), Point(x, e.y));
      } else {
        assert Point(x, e.y) == e;
      }
      x := x - 1;
    }
    x := x + 1;
  }

  /** The east loop: paint while the pixel shows the old colour, inspecting the rows above and below. */
  method PaintRun(a: array2<Color>, ghost orig: Grid, ghost seed: Point, oc: Color, nc: Color,
                  st0: seq<Point>, ghost todo0: set<Point>, x0: int, y: int)
    returns (st: seq<Point>, ghost todo: set<Point>)
    requires RunInv(Contents(a), a.Length0, a.Length1, orig, seed, oc, nc, st0, todo0, x0, y,
                    false, x0 - 1, false, x0 - 1, {})
    modifies a
    ensures OuterInv(Contents(a), a.Length0, a.Length1, orig, seed, oc, nc, st, todo)
    ensures todo < todo0 || (todo == todo0 && st == st0)
  {
    var x := x0;
    var above, below := false, false;
    st, todo := st0, todo0;
    while x < a.Length0 && a[x, y] == oc
      invariant x0 <= x
      invariant RunInv(Contents(a), a.Length0, a.Length1, orig, seed, oc, nc, st, todo, x, y,
                       above, x - 1, below, x - 1, {})
      invariant x == x0 ==> st == st0 && todo == todo0
      invariant x > x0 ==> todo < todo0
      decreases a.Length0 - x
    {
      st, todo, above, below, x := PaintStep(a, orig, seed, oc, nc, st, todo, x, y, above, below);
    }
    EndRun(Contents(a), a.Length0, a.Length1, orig, seed, oc, nc, st, todo, x, y, above, below);
  }

  /** One pass of the east loop: `set_at`, the two span checks and the step east. */
  method PaintStep(a: array2<Color>, ghost orig: Grid, ghost seed: Point, oc: Color, nc: Color,
                   st: seq<Point>, ghost todo: set<Point>, x: int, y: int, above: bool, below: bool)
    returns (st': seq<Point>, ghost todo': set<Point>, above': bool, below': bool, x': int)
    requires RunInv(Contents(a), a.Length0, a.Length1, orig, seed, oc, nc, st, todo, x, y,
                    above, x - 1, below, x - 1, {})
    requires x < a.Length0 && a[x, y] == oc
    modifies a
    ensures x' == x + 1
    ensures RunInv(Contents(a), a.Length0, a.Length1, orig, seed, oc, nc, st', todo', x', y,
                   above', x' - 1, below', x' - 1, {})
    ensures todo' < todo
  {
    ghost var g := Contents(a);
    a[x, y] := nc;
    ghost var g' := Contents(a);
    assert RunPainted(g, g', y, x, x + 1, nc);
    todo' := todo - {Point(x, y)};
    PaintCell(g, g', a.Length0, a.Length1, orig, seed, oc, nc, st, todo, x, y, above, below);
    var st1;
    st1, above' := CheckAbove(a, orig, seed, oc, nc, st, todo', x, y, above, below);
    st', below' := CheckBelow(a, orig, seed, oc, nc, st1, todo', x, y, above', below);
    x' := x + 1;
  }

  /** The `span_above` check for column `x`. */
  method CheckAbove(a: array2<Color>, ghost orig: Grid, ghost seed: Point, oc: Color, nc: Color,
                    st: seq<Point>, ghost todo: set<Point>, x: int, y: int, above: bool, below: bool)
    returns (st': seq<Point>, above': bool)
    requires 0 <= x < a.Length0
    requires RunInv(Contents(a), a.Length0, a.Length1, orig, seed, oc, nc, st, todo, x + 1, y,
                    above, x - 1, below, x - 1, {Point(x, y - 1), Point(x, y + 1)})
    requires a[x, y] == nc && InRegion(orig, seed, Point(x, y))
    ensures RunInv(Contents(a), a.Length0, a.Length1, orig, seed, oc, nc, st', todo, x + 1, y,
                   above', x, below, x - 1, {Point(x, y + 1)})
  {
    ghost var g := Contents(a);
    assert y > 0 ==> Inside(g, Point(x, y - 1)) && At(g, Point(x, y - 1)) == a[x, y - 1];
    st', above' := st, above;
    if !above && y > 0 && a[x, y - 1] == oc {
      st' := st + [Point(x, y - 1)];
      above' := true;
    } else if above && y > 0 && a[x, y - 1] != oc {
      above' := false;
    }
    assert {Point(x, y + 1)} + {Point(x, y + -1)} == {Point(x, y - 1), Point(x, y + 1)};
    RowChecked(g, orig, seed, oc, nc, st, st', Point(x + 1, y), x, y, -1,
               above, above', below, x - 1, {Point(x, y + 1)});
  }

  /** The `span_below` check for column `x`. */
  method CheckBelow(a: array2<Color>, ghost orig: Grid, ghost seed: Point, oc: Color, nc: Color,
                    st: seq<Point>, ghost todo: set<Point>, x: int, y: int, above: bool, below: bool)
    returns (st': seq<Point>, below': bool)
    requires 0 <= x < a.Length0
    requires RunInv(Contents(a), a.Length0, a.Length1, orig, seed, oc, nc, st, todo, x + 1, y,
                    above, x, below, x - 1, {Point(x, y + 1)})
    requires a[x, y] == nc && InRegion(orig, seed, Point(x, y))
    ensures RunInv(Contents(a), a.Length0, a.Length1, orig, seed, oc, nc, st', todo, x + 1, y,
                   above, x, below', x, {})
  {
    ghost var g := Contents(a);
    assert y < a.Length1 - 1 ==> Inside(g, Point(x, y + 1)) && At(g, Point(x, y + 1)) == a[x, y + 1];
    st', below' := st, below;
    if !below && y < a.Length1 - 1 && a[x, y + 1] == oc {
      st' := st + [Point(x, y + 1)];
      below' := true;
    } else if below && y < a.Length1 - 1 && a[x, y + 1] != oc {
      below' := false;
    }
    RowChecked(g, orig, seed, oc, nc, st, st', Point(x + 1, y), x, y, 1,
               below, below', above, x, {});
  }

  // ---------------------------------------------------------------- lemmas

  /** A covered pixel stays covered when the cursor paints its pixel and moves one east. */
  lemma CovPaint(g: Grid, g': Grid, oc: Color, nc: Color, st: seq<Point>, x: int, y: int, n: Point)
    requires oc != nc && Inside(g, Point(x, y)) && At(g, Point(x, y)) == oc
    requires RunPainted(g, g', y, x, x + 1, nc)
    requires Inside(g', n) && At(g', n) == oc
    requires Cov(g, oc, st, Point(x, y), n)
    ensures Cov(g', oc, st, Point(x + 1, y), n)
  {
    assert n != Point(x, y);
    if Reaches(g, oc, Point(x, y), n) {
      assert n.x != x;
      assert Reaches(g', oc, Point(x + 1, y), n);
    } else {
      var i :| 0 <= i < |st| && Reaches(g, oc, st[i], n);
      var e := st[i];
      assert !(e.y == y && e.x <= x <= n.x);
      assert Reaches(g', oc, e, n);
    }
  }

  /** A stacked point of another row keeps covering its pixel when `(x, y)` is painted. */
  lemma StackCovPaint(g: Grid, g': Grid, oc: Color, nc: Color, st: seq<Point>, x: int, y: int, n: Point)
    requires RunPainted(g, g', y, x, x + 1, nc)
    requires n.y != y && StackCov(g, oc, st, n)
    ensures StackCov(g', oc, st, n)
  {
    var i :| 0 <= i < |st| && Reaches(g, oc, st[i], n);
    assert Reaches(g', oc, st[i], n);
  }

  /** Painting `(x, y)` keeps the shape, the region bound and the measure. */
  lemma PaintShape(g: Grid, g': Grid, w: int, h: int, orig: Grid, seed: Point, oc: Color, nc: Color,
                   todo: set<Point>, x: int, y: int)
    requires IsGrid(orig, w, h) && IsGrid(g, w, h) && SameShape(orig, g) && oc != nc
    requires OnlyRegion(g, orig, seed, nc) && Tracked(g, oc, todo)
    requires 0 <= x < w && 0 <= y < h && At(g, Point(x, y)) == oc && InRegion(orig, seed, Point(x, y))
    requires RunPainted(g, g', y, x, x + 1, nc)
    ensures IsGrid(g', w, h) && SameShape(orig, g')
    ensures OnlyRegion(g', orig, seed, nc) && Tracked(g', oc, todo - {Point(x, y)})
    ensures Point(x, y) in todo
  {
    forall i | 0 <= i < w
      ensures |g'[i]| == h
    {
      assert |g'[i]| == |g[i]|;
    }
  }

  /** One pair of the frontier after painting `(x, y)`: the old-coloured neighbour `n` of a recoloured `p` is covered. */
  lemma PaintPair(g: Grid, g': Grid, orig: Grid, oc: Color, nc: Color, st: seq<Point>, x: int, y: int,
                  p: Point, n: Point)
    requires SameShape(orig, g) && SameShape(orig, g') && oc != nc
    requires Inside(g, Point(x, y)) && At(g, Point(x, y)) == oc
    requires RunPainted(g, g', y, x, x + 1, nc)
    requires FrontierBut(g, orig, oc, st, Point(x, y), {})
    requires x > 0 ==> Inside(g, Point(x - 1, y)) && At(g, Point(x - 1, y)) != oc
    requires Inside(orig, p) && Inside(orig, n) && Adjacent(p, n) && At(g', p) != At(orig, p)
    requires At(g', n) == oc && n != Point(x, y - 1) && n != Point(x, y + 1)
    ensures Cov(g', oc, st, Point(x + 1, y), n)
  {
    assert At(g, n) == oc;
    if p == Point(x, y) {
      if n == Point(x + 1, y) {
        assert Reaches(g', oc, Point(x + 1, y), n);
      } else {
        assert false;
      }
    } else {
      assert At(g, p) != At(orig, p);
      CovPaint(g, g', oc, nc, st, x, y, n);
    }
  }

  /** Painting `(x, y)` keeps the frontier covered, except for the pixels above and below it. */
  lemma PaintFrontier(g: Grid, g': Grid, orig: Grid, oc: Color, nc: Color, st: seq<Point>, x: int, y: int)
    requires SameShape(orig, g) && SameShape(orig, g') && oc != nc
    requires Inside(g, Point(x, y)) && At(g, Point(x, y)) == oc
    requires RunPainted(g, g', y, x, x + 1, nc)
    requires FrontierBut(g, orig, oc, st, Point(x, y), {})
    requires x > 0 ==> Inside(g, Point(x - 1, y)) && At(g, Point(x - 1, y)) != oc
    ensures FrontierBut(g', orig, oc, st, Point(x + 1, y), {Point(x, y - 1), Point(x, y + 1)})
  {
    forall p, n | Inside(orig, p) && Inside(orig, n) && Adjacent(p, n) && At(g', p) != At(orig, p) &&
                  At(g', n) == oc && n !in {Point(x, y - 1), Point(x, y + 1)}
      ensures Cov(g', oc, st, Point(x + 1, y), n)
    {
      PaintPair(g, g', orig, oc, nc, st, x, y, p, n);
    }
  }

  /** Setting `(x, y)` to the new colour keeps the run invariant, with the rows above and below pending. */
  lemma PaintCell(g: Grid, g': Grid, w: int, h: int, orig: Grid, seed: Point, oc: Color, nc: Color,
                  st: seq<Point>, todo: set<Point>, x: int, y: int, above: bool, below: bool)
    requires RunInv(g, w, h, orig, seed, oc, nc, st, todo, x, y, above, x - 1, below, x - 1, {})
    requires x < w && At(g, Point(x, y)) == oc
    requires RunPainted(g, g', y, x, x + 1, nc)
    ensures RunInv(g', w, h, orig, seed, oc, nc, st, todo - {Point(x, y)}, x + 1, y,
                   above, x - 1, below, x - 1, {Point(x, y - 1), Point(x, y + 1)})
    ensures Point(x, y) in todo
  {
    PaintShape(g, g', w, h, orig, seed, oc, nc, todo, x, y);
    PaintFrontier(g, g', orig, oc, nc, st, x, y);
    PaintMarks(g, g', w, h, orig, seed, oc, nc, st, x, y, above, below);
    assert RunBase(g', w, h, orig, seed, oc, nc, todo - {Point(x, y)}, x + 1, y);
    assert RunCov(g', orig, seed, oc, st, Point(x + 1, y), {Point(x, y - 1), Point(x, y + 1)});
  }

  /** Painting `(x, y)` keeps the seed covered, the next cursor pixel in the region and the two flags. */
  lemma PaintMarks(g: Grid, g': Grid, w: int, h: int, orig: Grid, seed: Point, oc: Color, nc: Color,
                   st: seq<Point>, x: int, y: int, above: bool, below: bool)
    requires IsGrid(orig, w, h) && IsGrid(g, w, h) && IsGrid(g', w, h) && SameShape(orig, g) && oc != nc
    requires Inside(orig, seed) && 0 <= x < w && 0 <= y < h && At(g, Point(x, y)) == oc
    requires InRegion(orig, seed, Point(x, y)) && OnlyRegion(g', orig, seed, nc) && At(orig, seed) == oc
    requires RunPainted(g, g', y, x, x + 1, nc)
    requires At(g, seed) == oc ==> Cov(g, oc, st, Point(x, y), seed)
    requires Flag(g, oc, st, Point(x, y), x - 1, -1, above) && Flag(g, oc, st, Point(x, y), x - 1, 1, below)
    ensures At(g', seed) == oc ==> Cov(g', oc, st, Point(x + 1, y), seed)
    ensures x + 1 < w && At(g', Point(x + 1, y)) == oc ==> InRegion(orig, seed, Point(x + 1, y))
    ensures Flag(g', oc, st, Point(x + 1, y), x - 1, -1, above) && Flag(g', oc, st, Point(x + 1, y), x - 1, 1, below)
  {
    assert Inside(g, Point(x, y)) && Inside(g, seed);
    PaintSeed(g, g', oc, nc, st, x, y, seed);
    PaintNext(g', w, h, orig, seed, oc, nc, x, y);
    PaintFlag(g, g', oc, nc, st, x, y, x - 1, -1, above);
    PaintFlag(g, g', oc, nc, st, x, y, x - 1, 1, below);
  }

  /** The seed, when still old-coloured, stays covered when `(x, y)` is painted and the cursor moves east. */
  lemma PaintSeed(g: Grid, g': Grid, oc: Color, nc: Color, st: seq<Point>, x: int, y: int, seed: Point)
    requires oc != nc && Inside(g, Point(x, y)) && At(g, Point(x, y)) == oc && Inside(g, seed)
    requires RunPainted(g, g', y, x, x + 1, nc)
    requires At(g, seed) == oc ==> Cov(g, oc, st, Point(x, y), seed)
    ensures Inside(g', seed) && (At(g', seed) == oc ==> Cov(g', oc, st, Point(x + 1, y), seed))
  {
    if At(g', seed) == oc {
      CovPaint(g, g', oc, nc, st, x, y, seed);
    }
  }

  /** The pixel east of a painted pixel of the region, when still old-coloured, is in the region too. */
  lemma PaintNext(g': Grid, w: int, h: int, orig: Grid, seed: Point, oc: Color, nc: Color, x: int, y: int)
    requires IsGrid(orig, w, h) && IsGrid(g', w, h) && oc != nc && Inside(orig, seed) && At(orig, seed) == oc
    requires 0 <= x < w && 0 <= y < h && InRegion(orig, seed, Point(x, y)) && OnlyRegion(g', orig, seed, nc)
    ensures x + 1 < w && At(g', Point(x + 1, y)) == oc ==> InRegion(orig, seed, Point(x + 1, y))
  {
    if x + 1 < w && At(g', Point(x + 1, y)) == oc {
      assert At(orig, Point(x + 1, y)) == oc;
      RegionStep(orig, seed, Point(x, y), Point(x + 1, y));
    }
  }

  /** A flag for another row stays true of the surface when `(x, y)` is painted and the cursor moves east. */
  lemma PaintFlag(g: Grid, g': Grid, oc: Color, nc: Color, st: seq<Point>, x: int, y: int, col: int, dy: int, f: bool)
    requires dy != 0 && RunPainted(g, g', y, x, x + 1, nc)
    requires Flag(g, oc, st, Point(x, y), col, dy, f)
    ensures Flag(g', oc, st, Point(x + 1, y), col, dy, f)
  {
    if f {
      StackCovPaint(g, g', oc, nc, st, x, y, Point(col, y + dy));
    }
  }

  /** Pushing more points never uncovers a pixel. */
  lemma StackCovGrow(g: Grid, oc: Color, st: seq<Point>, st': seq<Point>, n: Point)
    requires |st| <= |st'| && st'[..|st|] == st
    requires StackCov(g, oc, st, n)
    ensures StackCov(g, oc, st', n)
  {
    var i :| 0 <= i < |st| && Reaches(g, oc, st[i], n);
    assert st'[i] == st[i];
  }

  /** The frontier, the seed and a flag stay covered when points are pushed. */
  lemma PushKeeps(g: Grid, orig: Grid, oc: Color, st: seq<Point>, st': seq<Point>, cur: Point,
                  skip: set<Point>, col: int, dy: int, f: bool, seed: Point)
    requires SameShape(orig, g) && |st| <= |st'| && st'[..|st|] == st && Inside(orig, seed)
    requires FrontierBut(g, orig, oc, st, cur, skip)
    requires At(g, seed) == oc ==> Cov(g, oc, st, cur, seed)
    requires Flag(g, oc, st, cur, col, dy, f)
    ensures FrontierBut(g, orig, oc, st', cur, skip)
    ensures At(g, seed) == oc ==> Cov(g, oc, st', cur, seed)
    ensures Flag(g, oc, st', cur, col, dy, f)
  {
    forall n | StackCov(g, oc, st, n)
      ensures StackCov(g, oc, st', n)
    {
      StackCovGrow(g, oc, st, st', n);
    }
  }

  /** Pushing a pixel of the region keeps every stacked point in the region. */
  lemma InStackPush(orig: Grid, seed: Point, st: seq<Point>, n: Point)
    requires InStack(orig, seed, st) && Inside(orig, n) && InRegion(orig, seed, n)
    ensures InStack(orig, seed, st + [n])
  {
    var st' := st + [n];
    forall i | 0 <= i < |st'|
      ensures Inside(orig, st'[i]) && InRegion(orig, seed, st'[i])
    {
      if i < |st| {
        assert st'[i] == st[i];
      }
    }
  }

  /**
   * After the span check at column `x` of row `y + dy`, the checked pixel,
   * when old-coloured, is covered by a stacked point: it was just pushed, or
   * the flag's stretch reaches it from the west.
   */
  lemma CheckedCovered(g: Grid, oc: Color, st: seq<Point>, st': seq<Point>, cur: Point,
                       x: int, y: int, dy: int, f: bool, f': bool)
    requires cur.y == y && Flag(g, oc, st, cur, x - 1, dy, f)
    requires var n := Point(x, y + dy);
      && (st' == st || (st' == st + [n] && !f && f' && Inside(g, n) && At(g, n) == oc))
      && (Inside(g, n) && At(g, n) == oc ==> st' == st + [n] || (f && f'))
      && (f' ==> Inside(g, n) && At(g, n) == oc)
    ensures Flag(g, oc, st', cur, x, dy, f')
    ensures Inside(g, Point(x, y + dy)) && At(g, Point(x, y + dy)) == oc ==> StackCov(g, oc, st', Point(x, y + dy))
  {
    var n := Point(x, y + dy);
    if Inside(g, n) && At(g, n) == oc {
      if st' != st {
        assert st'[|st|] == n;
        assert Reaches(g, oc, n, n);
      } else {
        var prev := Point(x - 1, y + dy);
        var i :| 0 <= i < |st| && Reaches(g, oc, st[i], prev);
        assert Reaches(g, oc, st[i], n);
      }
    }
  }

  /** A frontier pixel that is covered, or no longer old-coloured, need not be skipped. */
  lemma FrontierDrop(g: Grid, orig: Grid, oc: Color, st: seq<Point>, cur: Point, skip: set<Point>, n: Point)
    requires SameShape(orig, g) && FrontierBut(g, orig, oc, st, cur, skip + {n})
    requires Inside(g, n) && At(g, n) == oc ==> StackCov(g, oc, st, n)
    ensures FrontierBut(g, orig, oc, st, cur, skip)
  {
  }

  /**
   * One span check, for the row `y + dy`, at column `x`: afterwards the pixel
   * there is either not old-coloured, or has just been pushed, or extends the
   * stretch the flag is tracking.
   */
  lemma RowChecked(g: Grid, orig: Grid, seed: Point, oc: Color, nc: Color,
                   st: seq<Point>, st': seq<Point>, cur: Point, x: int, y: int, dy: int,
                   f: bool, f': bool, other: bool, colO: int, skip': set<Point>)
    requires dy == -1 || dy == 1
    requires SameShape(orig, g) && Inside(orig, seed) && At(orig, seed) == oc && oc != nc
    requires OnlyRegion(g, orig, seed, nc)
    requires Inside(g, Point(x, y)) && InRegion(orig, seed, Point(x, y)) && cur.y == y
    requires RunCov(g, orig, seed, oc, st, cur, skip' + {Point(x, y + dy)})
    requires Flag(g, oc, st, cur, x - 1, dy, f) && Flag(g, oc, st, cur, colO, -dy, other)
    requires var n := Point(x, y + dy);
      && (st' == st || (st' == st + [n] && !f && f' && Inside(g, n) && At(g, n) == oc))
      && (Inside(g, n) && At(g, n) == oc ==> st' == st + [n] || (f && f'))
      && (f' ==> Inside(g, n) && At(g, n) == oc)
    ensures RunCov(g, orig, seed, oc, st', cur, skip')
    ensures Flag(g, oc, st', cur, x, dy, f') && Flag(g, oc, st', cur, colO, -dy, other)
  {
    var n := Point(x, y + dy);
    assert st'[..|st|] == st;
    PushKeeps(g, orig, oc, st, st', cur, skip' + {n}, colO, -dy, other, seed);
    if st' != st {
      assert At(orig, n) == oc;
      RegionStep(orig, seed, Point(x, y), n);
      InStackPush(orig, seed, st, n);
    }
    CheckedCovered(g, oc, st, st', cur, x, y, dy, f, f');
    FrontierDrop(g, orig, oc, st', cur, skip', n);
  }


  /** When the east loop stops, the cursor covers nothing any more. */
  lemma EndRun(g: Grid, w: int, h: int, orig: Grid, seed: Point, oc: Color, nc: Color,
               st: seq<Point>, todo: set<Point>, x: int, y: int, above: bool, below: bool)
    requires RunInv(g, w, h, orig, seed, oc, nc, st, todo, x, y, above, x - 1, below, x - 1, {})
    requires x >= w || At(g, Point(x, y)) != oc
    ensures OuterInv(g, w, h, orig, seed, oc, nc, st, todo)
  {
    forall n | Cov(g, oc, st, Point(x, y), n)
      ensures Cov(g, oc, st, NoCursor(w), n)
    {
      assert !Reaches(g, oc, Point(x, y), n);
      assert !Reaches(g, oc, NoCursor(w), n);
    }
  }

  /** After a pop and the west walk, the run starts with the popped point's coverage handed to the cursor. */
  lemma StartRun(g: Grid, w: int, h: int, orig: Grid, seed: Point, oc: Color, nc: Color,
                 st: seq<Point>, todo: set<Point>, x0: int)
    requires OuterInv(g, w, h, orig, seed, oc, nc, st, todo) && |st| > 0
    requires var e := st[|st| - 1];
      && 0 <= x0 <= e.x + 1 && x0 <= w
      && (x0 > 0 ==> At(g, Point(x0 - 1, e.y)) != oc)
      && (forall i :: x0 <= i <= e.x ==> At(g, Point(i, e.y)) == oc && InRegion(orig, seed, Point(i, e.y)))
      && (At(g, e) == oc ==> x0 <= e.x)
    ensures RunInv(g, w, h, orig, seed, oc, nc, st[..|st| - 1], todo, x0, st[|st| - 1].y,
                   false, x0 - 1, false, x0 - 1, {})
  {
    var e := st[|st| - 1];
    var rest := st[..|st| - 1];
    var cur := Point(x0, e.y);
    assert Inside(orig, e) && InRegion(orig, seed, e);
    forall i | 0 <= i < |rest|
      ensures Inside(orig, rest[i]) && InRegion(orig, seed, rest[i])
    {
      assert rest[i] == st[i];
    }
    forall n | Cov(g, oc, st, NoCursor(w), n)
      ensures Cov(g, oc, rest, cur, n)
    {
      assert !Reaches(g, oc, NoCursor(w), n);
      var i :| 0 <= i < |st| && Reaches(g, oc, st[i], n);
      if i == |st| - 1 {
        assert At(g, e) == oc;
        assert Reaches(g, oc, cur, n);
      } else {
        assert rest[i] == st[i];
      }
    }
    if x0 < w && At(g, cur) == oc && x0 > e.x {
      RegionStep(orig, seed, e, cur);
    }
  }

  /** With the stack empty, the region is filled. */
  lemma Completed(g: Grid, w: int, h: int, orig: Grid, seed: Point, oc: Color, nc: Color, todo: set<Point>)
    requires OuterInv(g, w, h, orig, seed, oc, nc, [], todo)
    ensures forall x, y :: 0 <= x < w && 0 <= y < h ==>
      g[x][y] == (if InRegion(orig, seed, Point(x, y)) then nc else orig[x][y])
  {
    assert !Cov(g, oc, [], NoCursor(w), seed);
    forall p, q | Inside(orig, p) && Inside(orig, q) && Adjacent(p, q) && At(g, p) == nc && At(orig, p) == At(orig, seed)
      ensures At(g, q) != At(orig, seed)
    {
      assert !Cov(g, oc, [], NoCursor(w), q);
    }
    RegionFilled(orig, g, seed, nc);
    forall x, y | 0 <= x < w && 0 <= y < h
      ensures g[x][y] == (if InRegion(orig, seed, Point(x, y)) then nc else orig[x][y])
    {
      assert Inside(orig, Point(x, y));
    }
  }
}
