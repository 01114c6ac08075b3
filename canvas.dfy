/**
 * `CanvasManager` (core/canvas.py): the drawing surface with its bounded
 * undo and redo stacks. Every method is proved to move the abstract value
 * `Model()` exactly as the corresponding function of module `History` does,
 * and to keep `Valid()`, so the history properties proved there hold for the
 * object.
 */
module Canvas {
  import opened Pixels
  import opened Settings
  import opened BoundedStack
  import opened Region
  import opened History
  import CanvasFill

  /** What `flood_fill` does to the abstract state. */
  ghost function FloodFillSpec(st: State, pos: Point, color: Color): State
    requires |st.undo| <= Capacity
  {
    if !Inside(st.surface, pos) || At(st.surface, pos) == color then st
    else Save(st.(surface := Filled(st.surface, pos, color)))
  }

  class CanvasManager {
    var surface: array2<Color>
    var undoStack: seq<Snapshot>
    var redoStack: seq<Snapshot>

    /** The surface and the two stacks as a value. */
    function Model(): State
      reads this, surface
    {
      State(Contents(surface), undoStack, redoStack)
    }

    ghost predicate Valid()
      reads this, surface
    {
      surface.Length0 == CanvasWidth && surface.Length1 == CanvasHeight && HistoryInv(Model())
    }

    /** A blank canvas whose undo stack holds one snapshot of it. */
    constructor()
      ensures Valid() && fresh(surface)
      ensures Contents(surface) == Uniform(CanvasWidth, CanvasHeight, Blank)
      ensures undoStack == [Snapshot(Contents(surface), Hash(Contents(surface)))] && redoStack == []
    {
      surface := new Color[CanvasWidth, CanvasHeight]((x, y) => Transparent);
      undoStack := [];
      redoStack := [];
      new;
      FillSurface(surface, Blank);
      SaveState();
    }

    method SaveState()
      requires surface.Length0 == CanvasWidth && surface.Length1 == CanvasHeight
      requires WellFormed(Model())
      modifies this
      ensures surface == old(surface) && Valid()
      ensures Model() == Save(old(Model()))
    {
      ghost var before := Model();
      var current := Hash(Contents(surface));
      if |undoStack| == 0 || current != Top(undoStack).fingerprint {
        undoStack := Push(undoStack, Snapshot(Contents(surface), current), Capacity);
        redoStack := [];
      }
      SaveKeepsInv(before);
    }

    method HandleUndo()
      requires Valid()
      modifies this, surface
      ensures surface == old(surface) && Valid()
      ensures Model() == Undo(old(Model()))
    {
      ghost var before := Model();
      if |undoStack| > 1 {
        var current := Top(undoStack);
        undoStack := Pop(undoStack);
        redoStack := Push(redoStack, current, Capacity);
        assert GoodSnapshot(before.undo[|undoStack| - 1]);
        BlitSurface(surface, Top(undoStack).pixels);
      }
      UndoKeepsInv(before);
    }

    method HandleRedo()
      requires Valid()
      modifies this, surface
      ensures surface == old(surface) && Valid()
      ensures Model() == Redo(old(Model()))
    {
      ghost var before := Model();
      if |redoStack| > 0 {
        var next := Top(redoStack);
        redoStack := Pop(redoStack);
        undoStack := Push(undoStack, next, Capacity);
        assert GoodSnapshot(before.redo[|redoStack|]);
        BlitSurface(surface, next.pixels);
      }
      RedoKeepsInv(before);
    }

    method Clear()
      requires Valid()
      modifies this, surface
      ensures surface == old(surface) && Valid()
      ensures Model() == History.Clear(old(Model()))
    {
      ghost var before := Model();
      SaveState();
      FillSurface(surface, Blank);
      ClearKeepsInv(before);
    }

    /**
     * A click outside the surface (where `get_at` raises) and a click on a
     * pixel that already has `color` do nothing; otherwise the seed's
     * 4-connected region is recoloured and the result saved.
     */
    method FloodFill(pos: Point, color: Color)
      requires Valid()
      modifies this, surface
      ensures surface == old(surface) && Valid()
      ensures Model() == FloodFillSpec(old(Model()), pos, color)
    {
      if !(0 <= pos.x < CanvasWidth && 0 <= pos.y < CanvasHeight) {
        return;
      }
      var oldColor := surface[pos.x, pos.y];
      if oldColor == color {
        return;
      }
      ghost var before := Model();
      CanvasFill.ScanlineFill(surface, pos, oldColor, color);
      GridExt(Contents(surface), Filled(before.surface, pos, color), CanvasWidth, CanvasHeight);
      SaveState();
    }
  }

  // ---------------------------------------------------------------- fill and history

  /**
   * Drawing on the surface between saves keeps the invariant: the stacks
   * hold values, so painting the surface cannot disturb a snapshot.
   */
  lemma SurfaceEditKeepsInv(st: State, g: Grid)
    requires HistoryInv(st) && IsGrid(g, CanvasWidth, CanvasHeight)
    ensures HistoryInv(st.(surface := g)) && st.(surface := g).undo == st.undo
  {
  }

  /** A second identical fill changes nothing: the seed already has the new colour. */
  lemma FloodFillIdempotent(st: State, pos: Point, color: Color)
    requires HistoryInv(st)
    ensures |FloodFillSpec(st, pos, color).undo| <= Capacity
    ensures FloodFillSpec(FloodFillSpec(st, pos, color), pos, color) == FloodFillSpec(st, pos, color)
  {
    if Inside(st.surface, pos) && At(st.surface, pos) != color {
      SeedInRegion(st.surface, pos);
      var filled := st.(surface := Filled(st.surface, pos, color));
      assert IsGrid(filled.surface, CanvasWidth, CanvasHeight);
      SaveKeepsInv(filled);
    }
  }

  /**
   * A fill that changes the seed's red, green or blue is one undo step: undo
   * brings back the surface from before the fill.
   */
  lemma UndoFloodFill(st: State, pos: Point, color: Color)
    requires HistoryInv(st) && Settled(st)
    requires Inside(st.surface, pos) && RgbOf(At(st.surface, pos)) != RgbOf(color)
    ensures |FloodFillSpec(st, pos, color).redo| <= Capacity
    ensures Undo(FloodFillSpec(st, pos, color)).surface == st.surface
  {
    var filled := st.(surface := Filled(st.surface, pos, color));
    SeedInRegion(st.surface, pos);
    assert IsGrid(filled.surface, CanvasWidth, CanvasHeight);
    assert GoodSnapshot(Top(st.undo));
    assert Hash(filled.surface)[pos.x][pos.y] != Hash(st.surface)[pos.x][pos.y];
    SaveKeepsInv(filled);
    var saved := Save(filled);
    assert |saved.undo| > 1;
    assert Top(Pop(saved.undo)) == Top(st.undo);
  }

  /** Filling a blank canvas with another colour recolours every pixel. */
  lemma FloodFillBlankCanvas(st: State, pos: Point, color: Color)
    requires HistoryInv(st) && st.surface == Uniform(CanvasWidth, CanvasHeight, Blank)
    requires Inside(st.surface, pos) && color != Blank
    ensures FloodFillSpec(st, pos, color).surface == Uniform(CanvasWidth, CanvasHeight, color)
  {
    var g := st.surface;
    forall x, y | 0 <= x < CanvasWidth && 0 <= y < CanvasHeight
      ensures Filled(g, pos, color)[x][y] == color
    {
      UniformRegion(g, CanvasWidth, CanvasHeight, Blank, pos, Point(x, y));
    }
    GridExt(Filled(g, pos, color), Uniform(CanvasWidth, CanvasHeight, color), CanvasWidth, CanvasHeight);
  }
}
