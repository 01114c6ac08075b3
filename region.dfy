/**
 * The region a flood fill is meant to recolour: every pixel joined to the
 * seed by a 4-connected path of pixels that all have the seed's colour.
 * Both fills of the model (the FIFO one of the canvas manager and the LIFO
 * span-flag one of the legacy program) are proved against this definition.
 */
module Region {
  import opened Pixels

  /** Every point of `path` is a pixel of colour `c`, and consecutive points are 4-neighbours. */
  ghost predicate IsPath(g: Grid, c: Color, path: seq<Point>)
  {
    && (forall i :: 0 <= i < |path| ==> Inside(g, path[i]) && At(g, path[i]) == c)
    && (forall i :: 0 < i < |path| ==> Adjacent(path[i - 1], path[i]))
  }

  ghost predicate Joins(g: Grid, c: Color, path: seq<Point>, p: Point, q: Point)
  {
    |path| > 0 && path[0] == p && path[|path| - 1] == q && IsPath(g, c, path)
  }

  /** `p` belongs to the 4-connected region of `seed`'s colour that contains `seed`. */
  ghost predicate InRegion(g: Grid, seed: Point, p: Point)
  {
    Inside(g, seed) && exists path :: Joins(g, At(g, seed), path, seed, p)
  }

  predicate SameShape(g: Grid, k: Grid)
  {
    |g| == |k| && forall x :: 0 <= x < |g| ==> |g[x]| == |k[x]|
  }

  lemma SeedInRegion(g: Grid, seed: Point)
    requires Inside(g, seed)
    ensures InRegion(g, seed, seed)
  {
    assert Joins(g, At(g, seed), [seed], seed, seed);
  }

  /** The region holds only pixels of the seed's colour. */
  lemma RegionColor(g: Grid, seed: Point, p: Point)
    requires InRegion(g, seed, p)
    ensures Inside(g, p) && At(g, p) == At(g, seed)
  {
    var path :| Joins(g, At(g, seed), path, seed, p);
    assert path[|path| - 1] == p;
  }

  /** The region is closed under stepping to a 4-neighbour of the seed's colour. */
  lemma RegionStep(g: Grid, seed: Point, p: Point, q: Point)
    requires InRegion(g, seed, p)
    requires Adjacent(p, q) && Inside(g, q) && At(g, q) == At(g, seed)
    ensures InRegion(g, seed, q)
  {
    var path :| Joins(g, At(g, seed), path, seed, p);
    var longer := path + [q];
    assert longer[|longer| - 2] == p;
    assert Joins(g, At(g, seed), longer, seed, q);
  }

  /**
   * The region is the least closed set: if a final raster `fin` holds `c` at
   * the seed, changed only pixels to `c`, and no recoloured pixel of the seed's
   * colour has a 4-neighbour that still shows that colour, then the whole
   * region shows `c`.
   */
  lemma RegionFilled(g: Grid, fin: Grid, seed: Point, c: Color)
    requires SameShape(g, fin) && Inside(g, seed) && c != At(g, seed)
    requires At(fin, seed) == c
    requires forall p :: Inside(g, p) ==> At(fin, p) == At(g, p) || At(fin, p) == c
    requires forall p, q ::
      Inside(g, p) && Inside(g, q) && Adjacent(p, q) && At(fin, p) == c && At(g, p) == At(g, seed)
      ==> At(fin, q) != At(g, seed)
    ensures forall p :: InRegion(g, seed, p) ==> At(fin, p) == c
  {
    forall p | InRegion(g, seed, p)
      ensures At(fin, p) == c
    {
      var path :| Joins(g, At(g, seed), path, seed, p);
      PathFilled(g, fin, seed, c, path, |path| - 1);
    }
  }

  lemma {:induction false} PathFilled(g: Grid, fin: Grid, seed: Point, c: Color, path: seq<Point>, k: nat)
    requires SameShape(g, fin) && Inside(g, seed) && c != At(g, seed)
    requires At(fin, seed) == c
    requires forall p :: Inside(g, p) ==> At(fin, p) == At(g, p) || At(fin, p) == c
    requires forall p, q ::
      Inside(g, p) && Inside(g, q) && Adjacent(p, q) && At(fin, p) == c && At(g, p) == At(g, seed)
      ==> At(fin, q) != At(g, seed)
    requires |path| > 0 && path[0] == seed && IsPath(g, At(g, seed), path) && k < |path|
    ensures At(fin, path[k]) == c
  {
    if k > 0 {
      PathFilled(g, fin, seed, c, path, k - 1);
      var p, q := path[k - 1], path[k];
      assert Adjacent(p, q) && Inside(g, p) && Inside(g, q);
      assert At(g, p) == At(g, seed) && At(g, q) == At(g, seed);
    }
  }

  /** The raster a flood fill from `seed` with colour `c` is meant to leave. */
  ghost function Filled(g: Grid, seed: Point, c: Color): (r: Grid)
    ensures SameShape(g, r)
    ensures forall x, y :: 0 <= x < |g| && 0 <= y < |g[x]| ==>
      r[x][y] == if InRegion(g, seed, Point(x, y)) then c else g[x][y]
  {
    seq(|g|, x requires 0 <= x < |g| =>
      seq(|g[x]|, y requires 0 <= y < |g[x]| => if InRegion(g, seed, Point(x, y)) then c else g[x][y]))
  }

  /**
   * A fill changes a pixel exactly when the pixel is in the seed's region and
   * the new colour differs from the seed's: pixels of another colour, and
   * pixels of the seed's colour cut off from the seed, keep their colour.
   */
  lemma FilledChangesExactlyRegion(g: Grid, seed: Point, c: Color, p: Point)
    requires Inside(g, p)
    ensures At(Filled(g, seed, c), p) != At(g, p) <==> InRegion(g, seed, p) && At(g, seed) != c
  {
    if InRegion(g, seed, p) {
      RegionColor(g, seed, p);
    }
  }

  /** Filling with the colour the seed has leaves the raster as it is. */
  lemma FilledSameColor(g: Grid, seed: Point, c: Color)
    requires Inside(g, seed) && At(g, seed) == c
    ensures Filled(g, seed, c) == g
  {
    var r := Filled(g, seed, c);
    forall x | 0 <= x < |g|
      ensures r[x] == g[x]
    {
      forall y | 0 <= y < |g[x]|
        ensures r[x][y] == g[x][y]
      {
        if InRegion(g, seed, Point(x, y)) {
          RegionColor(g, seed, Point(x, y));
        }
      }
    }
  }

  /** Every pixel of the raster has colour `c`. */
  predicate IsUniform(g: Grid, c: Color)
  {
    forall x, y :: 0 <= x < |g| && 0 <= y < |g[x]| ==> g[x][y] == c
  }

  /** On a single-coloured raster the region of any seed is the whole raster. */
  lemma UniformRegion(g: Grid, w: int, h: int, c: Color, seed: Point, p: Point)
    requires IsGrid(g, w, h) && IsUniform(g, c) && Inside(g, seed) && Inside(g, p)
    ensures InRegion(g, seed, p)
  {
    WalkRow(g, w, h, c, seed, p.x);
    WalkColumn(g, w, h, c, seed, p.x, p.y);
  }

  lemma {:induction false} WalkRow(g: Grid, w: int, h: int, c: Color, seed: Point, x: int)
    requires IsGrid(g, w, h) && IsUniform(g, c) && Inside(g, seed) && 0 <= x < w
    ensures InRegion(g, seed, Point(x, seed.y))
    decreases if x < seed.x then seed.x - x else x - seed.x
  {
    if x == seed.x {
      SeedInRegion(g, seed);
    } else {
      var x' := if x < seed.x then x + 1 else x - 1;
      WalkRow(g, w, h, c, seed, x');
      RegionStep(g, seed, Point(x', seed.y), Point(x, seed.y));
    }
  }

  lemma {:induction false} WalkColumn(g: Grid, w: int, h: int, c: Color, seed: Point, x: int, y: int)
    requires IsGrid(g, w, h) && IsUniform(g, c) && Inside(g, seed) && 0 <= x < w && 0 <= y < h
    requires InRegion(g, seed, Point(x, seed.y))
    ensures InRegion(g, seed, Point(x, y))
    decreases if y < seed.y then seed.y - y else y - seed.y
  {
    if y != seed.y {
      var y' := if y < seed.y then y + 1 else y - 1;
      WalkColumn(g, w, h, c, seed, x, y');
      RegionStep(g, seed, Point(x, y'), Point(x, y));
    }
  }
}
