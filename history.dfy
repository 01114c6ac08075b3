/**
 * The history discipline of the canvas manager (core/canvas.py) as pure
 * functions on a value `State`: the current raster and the two bounded
 * stacks of snapshots. The `CanvasManager` class of module `Canvas` is
 * proved to follow these functions; every property of the history is
 * proved here, about the functions.
 *
 * A snapshot is a copy of the raster paired with its fingerprint. The
 * source fingerprints a raster by the MD5 digest of its RGB bytes; the model
 * uses the RGB bytes themselves, so two rasters have the same fingerprint
 * exactly when they agree on every red, green and blue channel.
 */
module History {
  import opened Pixels
  import opened Settings
  import opened BoundedStack

  /** `maxlen` of both deques. */
  const Capacity: nat := 20

  type Fingerprint = seq<seq<Rgb>>

  /** `get_surface_hash`: the raster with its alpha channel dropped. */
  function Hash(g: Grid): (h: Fingerprint)
    ensures |h| == |g| && forall x :: 0 <= x < |g| ==> |h[x]| == |g[x]|
    ensures forall x, y :: 0 <= x < |g| && 0 <= y < |g[x]| ==> h[x][y] == RgbOf(g[x][y])
  {
    seq(|g|, x requires 0 <= x < |g| => seq(|g[x]|, y requires 0 <= y < |g[x]| => RgbOf(g[x][y])))
  }

  /** An entry of either stack: `(surface.copy(), hash)`. */
  datatype Snapshot = Snapshot(pixels: Grid, fingerprint: Fingerprint)

  datatype State = State(surface: Grid, undo: seq<Snapshot>, redo: seq<Snapshot>)

  ghost predicate GoodSnapshot(s: Snapshot)
  {
    IsGrid(s.pixels, CanvasWidth, CanvasHeight) && s.fingerprint == Hash(s.pixels)
  }

  /**
   * What holds before the first save: a canvas-sized raster, snapshots that
   * are canvas-sized and carry their own fingerprint, and room in the two
   * stacks together for no more than `Capacity` snapshots.
   */
  ghost predicate WellFormed(st: State)
  {
    && IsGrid(st.surface, CanvasWidth, CanvasHeight)
    && |st.undo| + |st.redo| <= Capacity
    && (forall i :: 0 <= i < |st.undo| ==> GoodSnapshot(st.undo[i]))
    && (forall i :: 0 <= i < |st.redo| ==> GoodSnapshot(st.redo[i]))
  }

  /** The invariant of a constructed canvas manager: there is always a state to undo to. */
  ghost predicate HistoryInv(st: State)
  {
    WellFormed(st) && |st.undo| >= 1
  }

  /** `save_state`: push a snapshot unless the top of the undo stack already has this fingerprint. */
  function Save(st: State): State
    requires |st.undo| <= Capacity
  {
    var h := Hash(st.surface);
    if |st.undo| == 0 || h != Top(st.undo).fingerprint then
      State(st.surface, Push(st.undo, Snapshot(st.surface, h), Capacity), [])
    else
      st
  }

  /** `handle_undo`: move the top snapshot to the redo stack and show the one below it. */
  function Undo(st: State): State
    requires |st.redo| <= Capacity
  {
    if |st.undo| > 1 then
      var rest := Pop(st.undo);
      State(Top(rest).pixels, rest, Push(st.redo, Top(st.undo), Capacity))
    else
      st
  }

  /** `handle_redo`: move the top redo snapshot back to the undo stack and show it. */
  function Redo(st: State): State
    requires |st.undo| <= Capacity
  {
    if |st.redo| > 0 then
      State(Top(st.redo).pixels, Push(st.undo, Top(st.redo), Capacity), Pop(st.redo))
    else
      st
  }

  /** `clear`: save, then fill the surface with the blank colour. */
  function Clear(st: State): State
    requires |st.undo| <= Capacity
  {
    Save(st).(surface := Uniform(CanvasWidth, CanvasHeight, Blank))
  }

  /** The surface shows exactly the snapshot on top of the undo stack. */
  predicate Settled(st: State)
  {
    |st.undo| > 0 && st.surface == Top(st.undo).pixels
  }

  /** `k` successive undos. */
  function Undos(st: State, k: nat): State
    requires |st.redo| + k <= Capacity
    decreases k
  {
    if k == 0 then st else Undos(Undo(st), k - 1)
  }

  /** `k` successive redos. */
  function Redos(st: State, k: nat): (r: State)
    requires |st.undo| + k <= Capacity
    ensures |r.undo| <= |st.undo| + k
    decreases k
  {
    if k == 0 then st else Redo(Redos(st, k - 1))
  }

  // ---------------------------------------------------------------- invariant

  lemma SaveKeepsInv(st: State)
    requires WellFormed(st)
    ensures WellFormed(Save(st)) && HistoryInv(Save(st))
    ensures Settled(Save(st)) || Hash(st.surface) == Top(st.undo).fingerprint
  {
    var h := Hash(st.surface);
    if |st.undo| == 0 || h != Top(st.undo).fingerprint {
      var snap := Snapshot(st.surface, h);
      var u := Push(st.undo, snap, Capacity);
      assert GoodSnapshot(snap);
      forall i | 0 <= i < |u|
        ensures GoodSnapshot(u[i])
      {
        if i < |u| - 1 {
          if |st.undo| == Capacity {
            assert u[i] == st.undo[i + 1];
          } else {
            assert u[i] == st.undo[i];
          }
        }
      }
    }
  }

  lemma UndoKeepsInv(st: State)
    requires HistoryInv(st)
    ensures HistoryInv(Undo(st)) && (|st.undo| > 1 ==> Settled(Undo(st)))
  {
    if |st.undo| > 1 {
      var rest := Pop(st.undo);
      var r := Push(st.redo, Top(st.undo), Capacity);
      assert |r| == |st.redo| + 1;
      assert GoodSnapshot(Top(rest)) by { assert Top(rest) == st.undo[|st.undo| - 2]; }
      forall i | 0 <= i < |rest|
        ensures GoodSnapshot(rest[i])
      {
        assert rest[i] == st.undo[i];
      }
      forall i | 0 <= i < |r|
        ensures GoodSnapshot(r[i])
      {
        if i < |st.redo| {
          assert r[i] == st.redo[i];
        }
      }
    }
  }

  lemma RedoKeepsInv(st: State)
    requires HistoryInv(st)
    ensures HistoryInv(Redo(st)) && (|st.redo| > 0 ==> Settled(Redo(st)))
  {
    if |st.redo| > 0 {
      var u := Push(st.undo, Top(st.redo), Capacity);
      var r := Pop(st.redo);
      assert |u| == |st.undo| + 1;
      assert GoodSnapshot(Top(st.redo));
      forall i | 0 <= i < |u|
        ensures GoodSnapshot(u[i])
      {
        if i < |st.undo| {
          assert u[i] == st.undo[i];
        }
      }
      forall i | 0 <= i < |r|
        ensures GoodSnapshot(r[i])
      {
        assert r[i] == st.redo[i];
      }
    }
  }

  lemma ClearKeepsInv(st: State)
    requires WellFormed(st)
    ensures HistoryInv(Clear(st))
  {
    SaveKeepsInv(st);
  }

  // ---------------------------------------------------------------- save

  /**
   * Saving twice in a row stores one snapshot: the second save sees its own
   * fingerprint on top and changes nothing.
   */
  lemma SaveIdempotent(st: State)
    requires WellFormed(st)
    ensures Save(Save(st)) == Save(st)
  {
    SaveKeepsInv(st);
  }

  /**
   * The deduplication compares only red, green and blue: a surface that
   * differs from the top snapshot in nothing but alpha is not saved.
   */
  lemma AlphaOnlyChangeNotSaved(st: State)
    requires HistoryInv(st)
    requires forall x, y :: 0 <= x < CanvasWidth && 0 <= y < CanvasHeight ==>
      RgbOf(st.surface[x][y]) == RgbOf(Top(st.undo).pixels[x][y])
    ensures Save(st) == st
  {
    var top := Top(st.undo);
    assert GoodSnapshot(top);
    var h, k := Hash(st.surface), top.fingerprint;
    forall x | 0 <= x < CanvasWidth
      ensures h[x] == k[x]
    {
      assert |h[x]| == |k[x]| == CanvasHeight;
    }
  }

  /**
   * A save that records the surface empties the redo stack, and when the
   * undo stack was full its oldest snapshot is gone.
   */
  lemma SaveInvalidatesRedo(st: State)
    requires HistoryInv(st) && Hash(st.surface) != Top(st.undo).fingerprint
    ensures Save(st).redo == [] && Top(Save(st).undo).pixels == st.surface
    ensures |st.undo| == Capacity ==> Save(st).undo == st.undo[1..] + [Snapshot(st.surface, Hash(st.surface))]
    ensures |st.undo| < Capacity ==> Save(st).undo == st.undo + [Snapshot(st.surface, Hash(st.surface))]
  {
  }

  // ---------------------------------------------------------------- undo / redo

  /** Redo undoes an undo: a settled state with something to undo comes back unchanged. */
  lemma RedoAfterUndo(st: State)
    requires Settled(st) && |st.undo| > 1 && |st.undo| + |st.redo| <= Capacity
    ensures Redo(Undo(st)) == st
  {
    var rest := Pop(st.undo);
    var r := Push(st.redo, Top(st.undo), Capacity);
    assert |r| == |st.redo| + 1;
    PopPush(st.redo, Top(st.undo), Capacity);
    PushPop(st.undo, Capacity);
  }

  /** Undo undoes a redo: a settled state with something to redo comes back unchanged. */
  lemma UndoAfterRedo(st: State)
    requires HistoryInv(st) && Settled(st) && |st.redo| > 0
    ensures Undo(Redo(st)) == st
  {
    var u := Push(st.undo, Top(st.redo), Capacity);
    assert |u| == |st.undo| + 1;
    PopPush(st.undo, Top(st.redo), Capacity);
    PushPop(st.redo, Capacity);
    assert Top(Pop(u)) == Top(st.undo);
  }

  lemma {:induction false} UndosKeepInv(st: State, k: nat)
    requires HistoryInv(st) && |st.redo| + k <= Capacity
    ensures HistoryInv(Undos(st, k))
    decreases k
  {
    if k > 0 {
      UndoKeepsInv(st);
      assert |Undo(st).redo| <= |st.redo| + 1;
      UndosKeepInv(Undo(st), k - 1);
    }
  }

  /** One effective undo on a settled state: the lengths, and the redo that takes it back. */
  lemma UndoStep(st: State)
    requires Settled(st) && |st.undo| > 1 && |st.undo| + |st.redo| <= Capacity
    ensures Settled(Undo(st)) && |Undo(st).undo| + |Undo(st).redo| <= Capacity
    ensures |Undo(st).undo| == |st.undo| - 1 && |Undo(st).redo| == |st.redo| + 1
    ensures Redo(Undo(st)) == st
  {
    assert |Push(st.redo, Top(st.undo), Capacity)| == |st.redo| + 1;
    RedoAfterUndo(st);
  }

  /**
   * `k` undos followed by `k` redos restore a settled state, as long as the
   * undos do not run into the bottom of the undo stack.
   */
  lemma {:induction false} RedosAfterUndos(st: State, k: nat)
    requires Settled(st) && k < |st.undo| && |st.undo| + |st.redo| <= Capacity
    ensures |Undos(st, k).undo| == |st.undo| - k
    ensures Redos(Undos(st, k), k) == st
    decreases k
  {
    if k > 0 {
      var u := Undo(st);
      UndoStep(st);
      RedosAfterUndos(u, k - 1);
      assert Redos(Undos(st, k), k) == Redo(Redos(Undos(u, k - 1), k - 1));
    }
  }

  /**
   * Undoing never goes below the oldest retained snapshot: after at least
   * `|undo| - 1` undos the surface shows the bottom of the undo stack, and
   * further undos change nothing.
   */
  lemma {:induction false} UndoFloor(st: State, k: nat)
    requires HistoryInv(st) && |st.undo| - 1 <= k && |st.redo| + k <= Capacity
    ensures |st.undo| > 1 ==> Undos(st, k).surface == st.undo[0].pixels
    ensures Undos(st, k).undo == [st.undo[0]]
    decreases k
  {
    if |st.undo| > 1 {
      UndoKeepsInv(st);
      var u := Undo(st);
      assert u.undo == st.undo[..|st.undo| - 1] && u.undo[0] == st.undo[0];
      UndoFloor(u, k - 1);
      if |u.undo| == 1 {
        UndosAtBottom(u, k - 1);
      }
    } else {
      UndosAtBottom(st, k);
    }
  }

  lemma {:induction false} UndosAtBottom(st: State, k: nat)
    requires |st.undo| == 1 && |st.redo| + k <= Capacity
    ensures Undos(st, k) == st
    decreases k
  {
    if k > 0 {
      UndosAtBottom(Undo(st), k - 1);
    }
  }

  // ---------------------------------------------------------------- clear

  /**
   * Clearing keeps the history: after clear, a save and an undo, the surface
   * has the fingerprint it had before the clear (when the clear changed it).
   */
  lemma UndoRestoresCleared(st: State)
    requires HistoryInv(st)
    requires Hash(st.surface) != Hash(Uniform(CanvasWidth, CanvasHeight, Blank))
    ensures Hash(Undo(Save(Clear(st))).surface) == Hash(st.surface)
  {
    var s1 := Clear(st);
    ClearKeepsInv(st);
    var top := Top(Save(st).undo);
    SaveKeepsInv(st);
    assert GoodSnapshot(top);
    assert Hash(s1.surface) != Top(s1.undo).fingerprint;
    var s2 := Save(s1);
    SaveKeepsInv(s1);
    assert Top(Pop(s2.undo)) == top;
    if Settled(Save(st)) {
      assert top.pixels == st.surface;
    }
  }
}
