/**
 * The undo and redo history of the single-file program (scrible.py): two
 * `deque(maxlen=20)` of plain canvas copies, with no fingerprint and no
 * deduplication. The functions here are the abstract values the program's
 * globals move through; the class in module `Scrible` is proved to follow
 * them.
 */
module LegacyHistory {
  import opened Pixels
  import opened BoundedStack

  /** `maxlen` of both deques (scrible.py:54-55). */
  const Capacity: nat := 20

  /** The size of the drawing surface (scrible.py:58). */
  const Width: int := 1600
  const Height: int := 900

  /** The canvas and the two stacks, oldest entry first, top last. */
  datatype Sketch = Sketch(canvas: Grid, undo: seq<Grid>, redo: seq<Grid>)

  /** Every grid has the canvas size and neither stack is over capacity. */
  predicate Sized(st: Sketch)
  {
    && IsGrid(st.canvas, Width, Height)
    && |st.undo| <= Capacity && |st.redo| <= Capacity
    && (forall i :: 0 <= i < |st.undo| ==> IsGrid(st.undo[i], Width, Height))
    && (forall i :: 0 <= i < |st.redo| ==> IsGrid(st.redo[i], Width, Height))
  }

  /** What holds between events: sized, and the undo stack is never empty. */
  predicate Good(st: Sketch)
  {
    Sized(st) && |st.undo| >= 1
  }

  /** The top of the undo stack is a copy of the canvas. */
  predicate Settled(st: Sketch)
  {
    |st.undo| > 0 && Top(st.undo) == st.canvas
  }

  /** `save_state` (scrible.py:251-253): push a copy of the canvas, whatever is on top, and forget the redo stack. */
  function Save(st: Sketch): (r: Sketch)
    requires |st.undo| <= Capacity
    ensures r.canvas == st.canvas && r.redo == [] && |r.undo| > 0 && Top(r.undo) == st.canvas
    ensures |r.undo| == if |st.undo| < Capacity then |st.undo| + 1 else Capacity
  {
    Sketch(st.canvas, Push(st.undo, st.canvas, Capacity), [])
  }

  /** The Undo branch of `handle_tool_click` (scrible.py:233-236). */
  function Undo(st: Sketch): Sketch
    requires |st.redo| <= Capacity
  {
    if |st.undo| > 1 then
      Sketch(Top(Pop(st.undo)), Pop(st.undo), Push(st.redo, Top(st.undo), Capacity))
    else st
  }

  /** The Redo branch of `handle_tool_click` (scrible.py:237-240). */
  function Redo(st: Sketch): Sketch
    requires |st.undo| <= Capacity
  {
    if |st.redo| > 0 then
      Sketch(Top(st.redo), Push(st.undo, Top(st.redo), Capacity), Pop(st.redo))
    else st
  }

  /**
   * An edit in the order `handle_drawing` has it (scrible.py:195-201): the
   * canvas is saved, then `edited` replaces it.
   */
  function EditAsWritten(st: Sketch, edited: Grid): (r: Sketch)
    requires |st.undo| <= Capacity
    ensures r.canvas == edited && |r.undo| > 0 && Top(r.undo) == st.canvas && r.redo == []
  {
    Save(st).(canvas := edited)
  }

  /** An edit followed by the save, the order under which undo steps back one edit. */
  function Edit(st: Sketch, edited: Grid): (r: Sketch)
    requires |st.undo| <= Capacity
    ensures r.canvas == edited && Settled(r) && r.redo == []
  {
    Save(st.(canvas := edited))
  }

  // ---------------------------------------------------------------- invariants

  lemma SaveKeepsGood(st: Sketch)
    requires Sized(st)
    ensures Good(Save(st)) && Settled(Save(st))
  {
  }

  lemma UndoKeepsGood(st: Sketch)
    requires Good(st)
    ensures Good(Undo(st))
    ensures |st.undo| > 1 ==> Settled(Undo(st)) && |Undo(st).undo| == |st.undo| - 1
    ensures |st.undo| <= 1 ==> Undo(st) == st
  {
    if |st.undo| > 1 {
      assert IsGrid(st.undo[|st.undo| - 2], Width, Height);
    }
  }

  lemma RedoKeepsGood(st: Sketch)
    requires Good(st)
    ensures Good(Redo(st))
    ensures |st.redo| > 0 ==> Settled(Redo(st)) && |Redo(st).redo| == |st.redo| - 1
    ensures |st.redo| == 0 ==> Redo(st) == st
  {
    if |st.redo| > 0 {
      assert IsGrid(st.redo[|st.redo| - 1], Width, Height);
    }
  }

  lemma EditKeepsGood(st: Sketch, edited: Grid)
    requires Sized(st) && IsGrid(edited, Width, Height)
    ensures Good(Edit(st, edited)) && Good(EditAsWritten(st, edited))
  {
  }

  /** The undo stack never runs empty, however many undos are asked for. */
  lemma UndoNeverEmpties(st: Sketch)
    requires Good(st)
    ensures |Undo(st).undo| >= 1 && |Undo(st).undo| >= |st.undo| - 1
  {
  }

  /** An effective undo followed by a redo gives back the settled state. */
  lemma RedoAfterUndo(st: Sketch)
    requires Good(st) && Settled(st) && |st.undo| > 1 && |st.redo| < Capacity
    ensures Redo(Undo(st)) == st
  {
    var u := Undo(st);
    PopPush(st.redo, Top(st.undo), Capacity);
    assert u.redo == st.redo + [Top(st.undo)];
    assert Pop(u.redo) == st.redo;
    PushPop(st.undo, Capacity);
  }

  /** An effective redo followed by an undo gives back the settled state. */
  lemma UndoAfterRedo(st: Sketch)
    requires Good(st) && Settled(st) && |st.redo| > 0 && |st.undo| < Capacity
    ensures Undo(Redo(st)) == st
  {
    var r := Redo(st);
    PopPush(st.undo, Top(st.redo), Capacity);
    PushPop(st.redo, Capacity);
  }

  // ---------------------------------------------------------------- edits and undo

  /**
   * With the save made before each edit, undo after two edits jumps back
   * past the first one: it shows `blank` again instead of `first`, and redo
   * then brings back `first` without `second`.
   */
  lemma AsWrittenUndoSkipsEdit(blank: Grid, first: Grid, second: Grid)
    requires first != blank && second != first
    ensures var st := EditAsWritten(EditAsWritten(Sketch(blank, [blank], []), first), second);
      && Undo(st).canvas == blank && Undo(st).canvas != first
      && Redo(Undo(st)).canvas == first && Redo(Undo(st)).canvas != second
  {
    var s1 := EditAsWritten(Sketch(blank, [blank], []), first);
    assert s1.undo == [blank, blank];
    var s2 := EditAsWritten(s1, second);
    assert s2.undo == [blank, blank, first];
    assert Pop(s2.undo) == [blank, blank];
  }

  /**
   * With the save made after each edit, undo reverts exactly the last edit
   * (even when the oldest entry falls off a full stack), and redo reapplies it.
   */
  lemma UndoRevertsEdit(st: Sketch, edited: Grid)
    requires Good(st) && Settled(st)
    ensures Undo(Edit(st, edited)).canvas == st.canvas
    ensures Settled(Undo(Edit(st, edited)))
    ensures Redo(Undo(Edit(st, edited))).canvas == edited
  {
    var e := Edit(st, edited);
    if |st.undo| < Capacity {
      assert e.undo == st.undo + [edited];
      assert Pop(e.undo) == st.undo;
    } else {
      assert e.undo == st.undo[1..] + [edited];
      assert Pop(e.undo) == st.undo[1..];
      assert Top(st.undo[1..]) == Top(st.undo);
    }
  }

  /** Below capacity, undo after an edit restores the undo stack too. */
  lemma UndoRestoresStack(st: Sketch, edited: Grid)
    requires Good(st) && Settled(st) && |st.undo| < Capacity
    ensures Undo(Edit(st, edited)).undo == st.undo
    ensures Undo(Edit(st, edited)).redo == [edited]
  {
    var e := Edit(st, edited);
    assert e.undo == st.undo + [edited];
    assert Pop(e.undo) == st.undo;
  }

  /** `save_state` never deduplicates: saving an unchanged canvas still takes an undo slot and clears redo. */
  lemma SaveTakesSlot(st: Sketch)
    requires Good(st) && Settled(st) && |st.undo| < Capacity
    ensures |Save(st).undo| == |st.undo| + 1 && Save(st).canvas == st.canvas
    ensures Undo(Save(st)).canvas == st.canvas
  {
    assert Save(st).undo == st.undo + [st.canvas];
    assert Pop(Save(st).undo) == st.undo;
  }
}
