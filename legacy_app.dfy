/**
 * The globals and event handling of the single-file program (scrible.py):
 * the canvas with its two history deques, the tool settings, the toolbar
 * buttons, `handle_tool_click` and the three branches of `handle_drawing`.
 *
 * Two places differ from the code as written, both logged with a witness
 * under Findings in README.md and modelled as written in `CanvasHitAsWritten`
 * and `LegacyHistory.EditAsWritten`: the canvas hit test is the canvas's
 * on-screen rectangle, and an edit is saved after it is made (a fill at once,
 * a stroke at mouse-up), so that undo steps back exactly one edit.
 */
module Scrible {
  import opened Pixels
  import opened BoundedStack
  import opened Region
  import opened Tools
  import opened LegacyHistory
  import opened LegacyFill

  const Black: Color := Opaque(0, 0, 0)
  const White: Color := Opaque(255, 255, 255)
  const Red: Color := Opaque(255, 0, 0)
  /** The colour of the toolbar, of the tool, size and Undo/Redo buttons. */
  const BgColor: Color := Opaque(240, 240, 240)
  /** The palette (scrible.py:33-42). */
  const Colors: seq<Color> := [Black, Red, Opaque(0, 255, 0), Opaque(0, 0, 255), Opaque(255, 255, 0),
                               Opaque(255, 165, 0), Opaque(128, 0, 128), Opaque(255, 192, 203)]
  const BrushSizes: seq<int> := [2, 5, 10, 15, 20]
  /** Where the canvas is drawn in the window (scrible.py:264-265). */
  const CanvasLeft: int := 20
  const CanvasTop: int := 20

  datatype ToolKind = BrushTool | EraserTool | FillTool

  // ---------------------------------------------------------------- button labels

  /** `str.isdigit` on ASCII text: non-empty and all decimal digits. */
  predicate IsDigits(s: string)
  {
    |s| > 0 && forall i :: 0 <= i < |s| ==> '0' <= s[i] <= '9'
  }

  /** The decimal digit of `d`. */
  function DigitChar(d: nat): (c: char)
    requires d < 10
    ensures '0' <= c <= '9' && (c as int) - ('0' as int) == d
  {
    ('0' as int + d) as char
  }

  /** `int(s)` on a string of decimal digits. */
  function ParseDigits(s: string): (n: nat)
    requires forall i :: 0 <= i < |s| ==> '0' <= s[i] <= '9'
    decreases |s|
  {
    if |s| == 0 then 0
    else ParseDigits(s[..|s| - 1]) * 10 + ((s[|s| - 1] as int) - ('0' as int))
  }

  /** `str(n)`: the decimal digits of `n`, without leading zeros. */
  function ShowNat(n: nat): (s: string)
    ensures IsDigits(s)
    ensures n > 0 ==> s[0] != '0'
    decreases n
  {
    if n < 10 then [DigitChar(n)] else ShowNat(n / 10) + [DigitChar(n % 10)]
  }

  /** The size buttons are labelled `str(size)`, and `int` of the label gives the size back. */
  lemma {:induction false} ParseShow(n: nat)
    ensures ParseDigits(ShowNat(n)) == n
    decreases n
  {
    if n >= 10 {
      var s := ShowNat(n);
      assert s[..|s| - 1] == ShowNat(n / 10);
      ParseShow(n / 10);
    }
  }

  // ---------------------------------------------------------------- hit tests

  /**
   * The canvas hit test as written (scrible.py:194): the surface's own
   * rectangle moved to (20, 20), checked against the already shifted point.
   */
  predicate CanvasHitAsWritten(pos: Point)
    ensures CanvasHitAsWritten(pos) <==>
      2 * CanvasLeft <= pos.x < 2 * CanvasLeft + Width && 2 * CanvasTop <= pos.y < 2 * CanvasTop + Height
  {
    Collides(Rect(CanvasLeft, CanvasTop, Width, Height), Point(pos.x - CanvasLeft, pos.y - CanvasTop))
  }

  /** A click at window (1630, 520) passes, and hands `scanline_fill` the point (1610, 500) off the 1600-wide surface. */
  lemma AsWrittenHitLeavesCanvas()
    ensures CanvasHitAsWritten(Point(1630, 520))
    ensures !(0 <= 1630 - CanvasLeft < Width)
  {
  }

  /** A click at window (30, 30), over canvas pixel (10, 10), is ignored. */
  lemma AsWrittenHitMissesBand()
    ensures !CanvasHitAsWritten(Point(30, 30))
    ensures 0 <= 30 - CanvasLeft < Width && 0 <= 30 - CanvasTop < Height
  {
  }

  /** The canvas's on-screen rectangle: a hit is exactly a click over a pixel of the surface. */
  predicate CanvasHit(pos: Point)
    ensures CanvasHit(pos) <==> 0 <= pos.x - CanvasLeft < Width && 0 <= pos.y - CanvasTop < Height
  {
    Collides(Rect(CanvasLeft, CanvasTop, Width, Height), pos)
  }

  /**
   * The window point `pos` on the canvas, shifted back by the canvas offset.
   * A press hits the canvas exactly when its shifted point is a canvas pixel.
   */
  function Unshift(pos: Point): (p: Point)
    ensures Point(p.x + CanvasLeft, p.y + CanvasTop) == pos
    ensures CanvasHit(pos) <==> 0 <= p.x < Width && 0 <= p.y < Height
  {
    Point(pos.x - CanvasLeft, pos.y - CanvasTop)
  }

  // ---------------------------------------------------------------- tool settings

  /** The globals `tool`, `brush_color`, `fill_color` and `current_brush_size`. */
  datatype Prefs = Prefs(tool: ToolKind, brushColor: Color, fillColor: Color, brushSize: int)

  /** What a click on a button labelled `text`, of colour `color`, does to the settings (scrible.py:224-249). */
  function ClickPrefs(p: Prefs, text: string, color: Color): (q: Prefs)
    ensures q.tool != p.tool ==> text == "brush" || text == "eraser" || text == "fill"
    ensures q.brushSize != p.brushSize ==> IsDigits(text) && q.brushSize == ParseDigits(text)
    ensures q.brushColor != p.brushColor ==> color in Colors && p.tool != FillTool && q.brushColor == color
    ensures q.fillColor != p.fillColor ==> color in Colors && p.tool == FillTool && q.fillColor == color
    ensures text == "Undo" || text == "Redo" ==> q == p
  {
    if text == "brush" then p.(tool := BrushTool)
    else if text == "eraser" then p.(tool := EraserTool)
    else if text == "fill" then p.(tool := FillTool)
    else if text == "Undo" || text == "Redo" then p
    else if IsDigits(text) then p.(brushSize := ParseDigits(text))
    else if color in Colors then
      (if p.tool == FillTool then p.(fillColor := color) else p.(brushColor := color))
    else p
  }

  /** What a click on a button labelled `text` does to the history. */
  function ClickHistory(st: Sketch, text: string): (st': Sketch)
    requires |st.undo| <= Capacity && |st.redo| <= Capacity
  {
    if text == "Undo" then Undo(st) else if text == "Redo" then Redo(st) else st
  }

  /** The clicked button ends up active exactly for a tool, size or palette button. */
  predicate Selects(text: string, color: Color)
  {
    text == "brush" || text == "eraser" || text == "fill" ||
    (text != "Undo" && text != "Redo" && (IsDigits(text) || color in Colors))
  }

  /** A click changes at most one setting, and only a tool button changes the tool. */
  lemma ClickChangesOne(p: Prefs, text: string, color: Color)
    ensures var q := ClickPrefs(p, text, color);
      && (q.tool != p.tool ==> q.brushColor == p.brushColor && q.fillColor == p.fillColor && q.brushSize == p.brushSize)
      && (q.brushColor != p.brushColor ==> q.tool == p.tool && q.fillColor == p.fillColor && q.brushSize == p.brushSize)
      && (q.fillColor != p.fillColor ==> q.tool == p.tool == FillTool && q.brushColor == p.brushColor && q.brushSize == p.brushSize)
      && (q.brushSize != p.brushSize ==> q.tool == p.tool && q.brushColor == p.brushColor && q.fillColor == p.fillColor)
      && (q.tool != p.tool ==> text in {"brush", "eraser", "fill"})
  {
  }

  /** A size button labelled `str(n)` sets the brush size to `n` and leaves the rest. */
  lemma SizeButtonSetsSize(p: Prefs, n: nat, color: Color)
    ensures ClickPrefs(p, ShowNat(n), color) == p.(brushSize := n)
  {
    var s := ShowNat(n);
    ParseShow(n);
    assert s != "brush" && s != "eraser" && s != "fill" && s != "Undo" && s != "Redo" by {
      assert '0' <= s[0] <= '9';
    }
  }

  /** A palette button (empty label) recolours the fill when the fill tool is selected, and the brush otherwise. */
  lemma PaletteClick(p: Prefs, k: nat)
    requires k < |Colors|
    ensures var q := ClickPrefs(p, "", Colors[k]);
      && (p.tool == FillTool ==> q.fillColor == Colors[k] && q.brushColor == p.brushColor)
      && (p.tool != FillTool ==> q.brushColor == Colors[k] && q.fillColor == p.fillColor)
      && q.tool == p.tool && q.brushSize == p.brushSize
  {
    assert !IsDigits("");
  }

  /** The first button whose rectangle contains `p`. */
  function FirstPressed(tools: seq<Button>, p: Point): (r: Option<nat>)
    ensures r.Some? ==> r.value < |tools| && Collides(tools[r.value].rect, p)
    ensures r.Some? ==> forall j :: 0 <= j < r.value ==> !Collides(tools[j].rect, p)
    ensures r.None? ==> forall j :: 0 <= j < |tools| ==> !Collides(tools[j].rect, p)
    decreases |tools|
  {
    if |tools| == 0 then None
    else if Collides(tools[0].rect, p) then Some(0)
    else match FirstPressed(tools[1..], p)
      case None => None
      case Some(k) => Some(k + 1)
  }

  // ---------------------------------------------------------------- state

  /** A toolbar button; only `active` ever changes. */
  class Button {
    const rect: Rect
    const text: string
    const color: Color
    const isTool: bool
    var active: bool

    constructor(rect: Rect, text: string, color: Color, isTool: bool)
      ensures this.rect == rect && this.text == text && this.color == color && this.isTool == isTool
      ensures !active
    {
      this.rect := rect;
      this.text := text;
      this.color := color;
      this.isTool := isTool;
      active := false;
    }
  }

  /** The program's globals. */
  class App {
    var canvas: array2<Color>
    var undoStack: seq<Grid>
    var redoStack: seq<Grid>
    var tool: ToolKind
    var brushColor: Color
    var fillColor: Color
    var brushSize: int
    var drawing: bool
    var lastPos: Option<Point>
    /** The list built by `create_tools`; its buttons' `active` flags change, the list does not. */
    const tools: seq<Button>

    function Model(): Sketch
      reads this, canvas
    {
      Sketch(Contents(canvas), undoStack, redoStack)
    }

    function Settings(): Prefs
      reads this
    {
      Prefs(tool, brushColor, fillColor, brushSize)
    }

    /** Between events: a 1600×900 canvas, a good history, and, outside a stroke, the canvas on top of the undo stack. */
    ghost predicate Valid()
      reads this, canvas
    {
      canvas.Length0 == Width && canvas.Length1 == Height && Good(Model()) &&
      (!drawing ==> Settled(Model()))
    }

    /** The module-level start-up state (scrible.py:45-60): a white canvas, saved once. */
    constructor(tools: seq<Button>)
      ensures this.tools == tools && Valid() && fresh(canvas)
      ensures Contents(canvas) == Uniform(Width, Height, White)
      ensures undoStack == [Contents(canvas)] && redoStack == []
      ensures tool == BrushTool && brushColor == Colors[0] && fillColor == Colors[1]
      ensures brushSize == BrushSizes[2] == 10 && !drawing && lastPos == None
    {
      this.tools := tools;
      canvas := new Color[Width, Height]((x, y) => Black);
      undoStack := [];
      redoStack := [];
      tool := BrushTool;
      brushColor := Colors[0];
      fillColor := Colors[1];
      brushSize := BrushSizes[2];
      drawing := false;
      lastPos := None;
      new;
      FillSurface(canvas, White);
      undoStack := [Contents(canvas)];
    }

    /** `save_state`: always pushes a copy of the canvas and clears the redo stack. */
    method SaveState()
      requires canvas.Length0 == Width && canvas.Length1 == Height && Sized(Model())
      modifies this
      ensures canvas == old(canvas) && Model() == Save(old(Model()))
      ensures Good(Model()) && Settled(Model())
      ensures Settings() == old(Settings()) && drawing == old(drawing) && lastPos == old(lastPos)
    {
      undoStack := Push(undoStack, Contents(canvas), Capacity);
      redoStack := [];
      SaveKeepsGood(old(Model()));
    }

    /** The state `handle_tool_click(btn)` leaves, relative to the state before the click. */
    twostate predicate ToolClicked(btn: Button)
      reads this, canvas, btn, tools
    {
      && canvas == old(canvas)
      && old(|undoStack|) <= Capacity && old(|redoStack|) <= Capacity
      && Model() == ClickHistory(old(Model()), btn.text)
      && Settings() == ClickPrefs(old(Settings()), btn.text, btn.color)
      && drawing == old(drawing) && lastPos == old(lastPos)
      && (forall t :: t in tools && t != btn ==> t.active == (!t.isTool && old(t.active)))
      && btn.active == (if Selects(btn.text, btn.color) then true
                        else if btn.isTool && btn in tools then false
                        else old(btn.active))
    }

    /**
     * `handle_tool_click`: every tool button is switched off, then the
     * button's label or colour decides what happens, so at most the clicked
     * button is left active among the tool buttons.
     */
    method HandleToolClick(btn: Button)
      requires Valid()
      modifies this, canvas, btn, tools
      ensures Valid() && ToolClicked(btn)
      ensures forall t :: t in tools && t.isTool && t.active ==> t == btn
    {
      DeactivateTools();
      if btn.text == "Undo" {
        UndoClick();
      } else if btn.text == "Redo" {
        RedoClick();
      } else {
        SelectClick(btn);
      }
    }

    /** The tool, size and palette branches: the setting the label or colour names is changed and the button switched on. */
    method SelectClick(btn: Button)
      requires btn.text != "Undo" && btn.text != "Redo"
      modifies this, btn
      ensures Settings() == ClickPrefs(old(Settings()), btn.text, btn.color)
      ensures btn.active == (if Selects(btn.text, btn.color) then true else old(btn.active))
      ensures canvas == old(canvas) && undoStack == old(undoStack) && redoStack == old(redoStack)
      ensures drawing == old(drawing) && lastPos == old(lastPos)
    {
      if btn.text == "brush" {
        tool := BrushTool;
        btn.active := true;
      } else if btn.text == "eraser" {
        tool := EraserTool;
        btn.active := true;
      } else if btn.text == "fill" {
        tool := FillTool;
        btn.active := true;
      } else if IsDigits(btn.text) {
        brushSize := ParseDigits(btn.text);
        btn.active := true;
      } else if btn.color in Colors {
        if tool == FillTool {
          fillColor := btn.color;
        } else {
          brushColor := btn.color;
        }
        btn.active := true;
      }
    }

    /** The loop that switches off every tool button. */
    method DeactivateTools()
      modifies tools
      ensures forall t :: t in tools ==> t.active == (!t.isTool && old(t.active))
    {
      var i := 0;
      while i < |tools|
        invariant 0 <= i <= |tools|
        invariant forall t :: t in tools[..i] ==> t.active == (!t.isTool && old(t.active))
        invariant forall t :: t in tools && t !in tools[..i] ==> t.active == old(t.active)
      {
        assert tools[..i + 1] == tools[..i] + [tools[i]];
        if tools[i].isTool {
          tools[i].active := false;
        }
        i := i + 1;
      }
      assert tools[..i] == tools;
    }

    /** The Undo branch: with more than one entry, the top moves to the redo stack and the new top is shown. */
    method UndoClick()
      requires Valid()
      modifies this, canvas
      ensures Valid() && canvas == old(canvas) && Model() == Undo(old(Model()))
      ensures Settings() == old(Settings()) && drawing == old(drawing) && lastPos == old(lastPos)
    {
      UndoKeepsGood(Model());
      if |undoStack| > 1 {
        var top := Top(undoStack);
        undoStack := Pop(undoStack);
        redoStack := Push(redoStack, top, Capacity);
        BlitSurface(canvas, Top(undoStack));
      }
    }

    /** The Redo branch: a non-empty redo stack gives its top back to the undo stack, and it is shown. */
    method RedoClick()
      requires Valid()
      modifies this, canvas
      ensures Valid() && canvas == old(canvas) && Model() == Redo(old(Model()))
      ensures Settings() == old(Settings()) && drawing == old(drawing) && lastPos == old(lastPos)
    {
      RedoKeepsGood(Model());
      if |redoStack| > 0 {
        var next := Top(redoStack);
        redoStack := Pop(redoStack);
        undoStack := Push(undoStack, next, Capacity);
        BlitSurface(canvas, Top(undoStack));
      }
    }

    /**
     * The mouse-button-down branch of `handle_drawing`: the first button
     * under the mouse takes the click; otherwise a click over the canvas
     * fills (and then saves) with the fill tool, or starts a stroke.
     */
    method MouseDown(button: int, pos: Point)
      requires Valid()
      modifies this, canvas, tools
      ensures Valid()
      ensures button != 1 ==>
        Model() == old(Model()) && Settings() == old(Settings()) && drawing == old(drawing) &&
        lastPos == old(lastPos) && forall t :: t in tools ==> t.active == old(t.active)
      ensures button == 1 && FirstPressed(tools, pos).Some? ==> ToolClicked(tools[FirstPressed(tools, pos).value])
      ensures button == 1 && FirstPressed(tools, pos).None? ==>
        && Settings() == old(Settings())
        && (forall t :: t in tools ==> t.active == old(t.active))
        && (!CanvasHit(pos) ==> Model() == old(Model()) && drawing == old(drawing) && lastPos == old(lastPos))
        && (CanvasHit(pos) && old(tool) == FillTool ==>
              Model() == Edit(old(Model()), Filled(old(Model()).canvas, Unshift(pos), old(fillColor))) &&
              drawing == old(drawing) && lastPos == old(lastPos))
        && (CanvasHit(pos) && old(tool) != FillTool ==>
              Model() == old(Model()) && drawing && lastPos == Some(Unshift(pos)))
    {
      if button != 1 {
        return;
      }
      var k := 0;
      while k < |tools| && !Collides(tools[k].rect, pos)
        invariant 0 <= k <= |tools|
        invariant forall j :: 0 <= j < k ==> !Collides(tools[j].rect, pos)
      {
        k := k + 1;
      }
      if k < |tools| {
        HandleToolClick(tools[k]);
        return;
      }
      if CanvasHit(pos) {
        CanvasClick(pos);
      }
    }

    /** A click over the canvas: the fill tool fills the region under the mouse and saves; the other tools start a stroke. */
    method CanvasClick(pos: Point)
      requires Valid() && CanvasHit(pos)
      modifies this, canvas
      ensures Valid() && canvas == old(canvas) && Settings() == old(Settings())
      ensures old(tool) == FillTool ==>
        Model() == Edit(old(Model()), Filled(old(Model()).canvas, Unshift(pos), old(fillColor))) &&
        drawing == old(drawing) && lastPos == old(lastPos)
      ensures old(tool) != FillTool ==> Model() == old(Model()) && drawing && lastPos == Some(Unshift(pos))
    {
      var p := Unshift(pos);
      if tool == FillTool {
        ghost var before := Model();
        LegacyScanlineFill(canvas, p, fillColor);
        GridExt(Contents(canvas), Filled(before.canvas, p, fillColor), Width, Height);
        SaveState();
      } else {
        drawing := true;
        lastPos := Some(p);
      }
    }

    /** The mouse-button-up branch: a stroke in progress is saved, then drawing stops. */
    method MouseUp(button: int)
      requires Valid()
      modifies this
      ensures Valid() && canvas == old(canvas) && Settings() == old(Settings())
      ensures button != 1 ==> Model() == old(Model()) && drawing == old(drawing) && lastPos == old(lastPos)
      ensures button == 1 ==>
        !drawing && lastPos == None &&
        Model() == (if old(drawing) then Save(old(Model())) else old(Model()))
    {
      if button == 1 {
        if drawing {
          SaveState();
        }
        drawing := false;
        lastPos := None;
      }
    }

    /**
     * The motion branch: while drawing, the segment from the last point to
     * the mouse is painted with the brush colour (brush) or white (eraser),
     * and the mouse position becomes the last point. `line` is the set of canvas
     * pixels `pygame.draw.line` covers for that segment at the brush width.
     */
    method MouseMotion(pos: Point, line: set<Point>)
      requires Valid()
      modifies this, canvas
      ensures Valid() && canvas == old(canvas) && Settings() == old(Settings()) && drawing == old(drawing)
      ensures undoStack == old(undoStack) && redoStack == old(redoStack)
      ensures !(old(drawing) && old(lastPos).Some?) ==> Model() == old(Model()) && lastPos == old(lastPos)
      ensures old(drawing) && old(lastPos).Some? ==>
        && lastPos == Some(Unshift(pos))
        && forall x, y :: 0 <= x < Width && 0 <= y < Height ==>
             canvas[x, y] == (if Point(x, y) in line && tool == BrushTool then brushColor
                              else if Point(x, y) in line && tool == EraserTool then White
                              else old(canvas[x, y]))
    {
      if drawing {
        var current := Unshift(pos);
        if lastPos.Some? {
          if tool == BrushTool {
            PaintLine(line, brushColor);
          } else if tool == EraserTool {
            PaintLine(line, White);
          }
          lastPos := Some(current);
        }
      }
    }

    /** `pygame.draw.line`, given the pixels it covers, clipped to the canvas. */
    method PaintLine(line: set<Point>, c: Color)
      modifies canvas
      ensures forall x, y :: 0 <= x < canvas.Length0 && 0 <= y < canvas.Length1 ==>
        canvas[x, y] == if Point(x, y) in line then c else old(canvas[x, y])
    {
      forall x, y | 0 <= x < canvas.Length0 && 0 <= y < canvas.Length1 && Point(x, y) in line {
        canvas[x, y] := c;
      }
    }
  }
}
