/**
 * Brush stamps on the canvas surface. pygame's circle rasteriser is not
 * part of this model: one stamp paints the pixels of the surface whose
 * distance from the centre is at most the radius.
 */
module Paint {
  import opened Pixels
  import opened Stroke

  /** `p` lies in the closed disk of radius `r` about `c`. */
  predicate InDisk(c: Point, r: int, p: Point)
  {
    (p.x - c.x) * (p.x - c.x) + (p.y - c.y) * (p.y - c.y) <= r * r
  }

  /** Some stamp of `cs` covers `p`. */
  predicate Covered(cs: seq<Point>, r: int, p: Point)
  {
    exists i :: 0 <= i < |cs| && InDisk(cs[i], r, p)
  }

  /** Each centre's disk contains the centre, so a stroke covers every centre it stamps. */
  lemma CoversCentres(cs: seq<Point>, r: int, i: int)
    requires 0 <= i < |cs|
    ensures Covered(cs, r, cs[i])
  {
    assert InDisk(cs[i], r, cs[i]);
  }

  /** `pygame.draw.circle(surface, colour, c, r)`, clipped to the surface. */
  method Stamp(surface: array2<Color>, c: Point, r: int, colour: Color)
    modifies surface
    ensures forall x, y :: 0 <= x < surface.Length0 && 0 <= y < surface.Length1 ==>
      surface[x, y] == if InDisk(c, r, Point(x, y)) then colour else old(surface[x, y])
  {
    forall x, y | 0 <= x < surface.Length0 && 0 <= y < surface.Length1 && InDisk(c, r, Point(x, y)) {
      surface[x, y] := colour;
    }
  }

  /**
   * The stamping loop of `handle_mouse_motion`: one stamp at each centre of
   * the stroke from `from` to `to`. Afterwards a pixel has the brush colour
   * exactly when some stamp covers it; every other pixel is unchanged.
   */
  method DrawStroke(surface: array2<Color>, from: Point, to: Point, r: int, colour: Color)
    modifies surface
    ensures forall x, y :: 0 <= x < surface.Length0 && 0 <= y < surface.Length1 ==>
      surface[x, y] == if Covered(Centres(from, to, r), r, Point(x, y)) then colour else old(surface[x, y])
  {
    var steps := StrokeSteps(from, to, r);
    ghost var cs := Centres(from, to, r);
    for i := 0 to steps + 1
      invariant forall x, y :: 0 <= x < surface.Length0 && 0 <= y < surface.Length1 ==>
        surface[x, y] == if Covered(cs[..i], r, Point(x, y)) then colour else old(surface[x, y])
    {
      var c := Centre(from, to, i, steps);
      assert c == cs[i];
      Stamp(surface, c, r, colour);
      forall x, y | 0 <= x < surface.Length0 && 0 <= y < surface.Length1
        ensures Covered(cs[..i + 1], r, Point(x, y)) <==> Covered(cs[..i], r, Point(x, y)) || InDisk(c, r, Point(x, y))
      {
        CoveredSnoc(cs, i, r, Point(x, y));
      }
    }
    assert cs[..steps + 1] == cs;
  }

  lemma CoveredSnoc(cs: seq<Point>, i: int, r: int, p: Point)
    requires 0 <= i < |cs|
    ensures Covered(cs[..i + 1], r, p) <==> Covered(cs[..i], r, p) || InDisk(cs[i], r, p)
  {
    var pre, pre' := cs[..i], cs[..i + 1];
    if Covered(pre', r, p) {
      var j :| 0 <= j < |pre'| && InDisk(pre'[j], r, p);
      if j < i {
        assert pre[j] == pre'[j];
      }
    }
    if Covered(pre, r, p) {
      var j :| 0 <= j < |pre| && InDisk(pre[j], r, p);
      assert pre'[j] == pre[j];
    }
    if InDisk(cs[i], r, p) {
      assert pre'[i] == cs[i];
    }
  }

  /** A point on the row of the stamps, within `r` of one of them, is in its disk. */
  lemma InDiskOnRow(c: Point, r: int, p: Point)
    requires p.y == c.y && Abs(p.x - c.x) <= r
    ensures InDisk(c, r, p)
  {
    var d := Abs(p.x - c.x);
    assert (p.x - c.x) * (p.x - c.x) == d * d;
    MulLe(d, r, d);
    MulLe(d, r, r);
  }

  /**
   * Walking the stamps from `k` on: a point of their row lying between stamp
   * `k` and the last stamp, where neighbouring stamps are at most `r` apart,
   * is covered.
   */
  lemma {:induction false} CoveredOnRow(cs: seq<Point>, r: int, p: Point, k: int)
    requires 0 <= k < |cs| && r >= 0
    requires forall j :: 0 <= j < |cs| ==> cs[j].y == p.y
    requires forall j :: 0 <= j < |cs| - 1 ==> Abs(cs[j + 1].x - cs[j].x) <= r
    requires Between(cs[k].x, p.x, cs[|cs| - 1].x)
    ensures Covered(cs, r, p)
    decreases |cs| - k
  {
    if k == |cs| - 1 {
      InDiskOnRow(cs[k], r, p);
    } else if Between(cs[k + 1].x, p.x, cs[|cs| - 1].x) {
      CoveredOnRow(cs, r, p, k + 1);
    } else {
      assert Abs(cs[k + 1].x - cs[k].x) <= r;
      InDiskOnRow(cs[k], r, p);
    }
  }

  /**
   * A horizontal stroke leaves no gap: with a radius of 2 or more, every
   * pixel of the row between the two ends is painted by some stamp.
   */
  lemma HorizontalStrokeCovered(a: int, b: int, y: int, radius: int, x: int)
    requires a >= 0 && b >= 0 && y >= 0 && radius >= 2 && Between(a, x, b)
    ensures Covered(Centres(Point(a, y), Point(b, y), radius), radius, Point(x, y))
  {
    var from, to := Point(a, y), Point(b, y);
    var cs := Centres(from, to, radius);
    CentresEnds(from, to, radius);
    CentresInBox(from, to, radius);
    forall j | 0 <= j < |cs| - 1
      ensures Abs(cs[j + 1].x - cs[j].x) <= radius
    {
      CentresGap(from, to, radius, j);
    }
    CoveredOnRow(cs, radius, Point(x, y), 0);
  }

  /** The stroke from (0, 0) to (100, 0) at radius 10 paints every pixel (x, 0) with 0 <= x <= 100. */
  lemma NoGap(x: int)
    requires 0 <= x <= 100
    ensures Covered(Centres(Point(0, 0), Point(100, 0), 10), 10, Point(x, 0))
  {
    HorizontalStrokeCovered(0, 100, 0, 10, x);
  }
}
