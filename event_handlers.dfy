/**
 * The mouse handlers of core/event_handlers.py: which toolbar item takes a
 * click, the brush-size dropdown, tool/colour/action dispatch, canvas clicks
 * (fill or start of a stroke) and mouse motion while drawing.
 *
 * A toolbar item is a value holding a reference to its `Button`; two items
 * are equal exactly when their kinds and buttons are, as the source's item
 * dictionaries are.
 */
module EventHandlers {
  import opened Pixels
  import opened Settings
  import opened Tools
  import opened History
  import opened Canvas
  import opened Stroke
  import opened Paint

  /** The fields of a toolbar button that the handlers read or write. */
  class Button {
    var rect: Rect
    var active: bool
    var dropdownOpen: bool
    /** The hitboxes of the size menu, one per brush size, laid out when the menu is drawn. */
    var dropdownRects: seq<Rect>
    var currentSize: int

    constructor(r: Rect)
      ensures rect == r && !active && !dropdownOpen && dropdownRects == [] && currentSize == BrushSizes[0]
    {
      rect := r;
      active := false;
      dropdownOpen := false;
      dropdownRects := [];
      currentSize := BrushSizes[0];
    }
  }

  datatype Action = UndoAction | RedoAction | ClearAction

  /** The `'type'` of a toolbar item together with its `'color'` or `'name'`. */
  datatype ItemKind = ColorItem(color: Color) | BrushSizeItem | ToolItem(name: ToolName) | ActionItem(action: Action)

  datatype Item = Item(kind: ItemKind, button: Button)

  function Buttons(tools: seq<Item>): set<Button>
  {
    set k | 0 <= k < |tools| :: tools[k].button
  }

  /** Each item has a button of its own, as the toolbar layout builds them. */
  predicate DistinctButtons(tools: seq<Item>)
  {
    forall j, k :: 0 <= j < k < |tools| ==> tools[j].button != tools[k].button
  }

  /** The 10-pixel-inflated hitbox of a size-menu entry. */
  function Hitbox(r: Rect): Rect
  {
    Inflate(r, 10, 10)
  }

  /** The first entry of the size menu whose hitbox contains `p`. */
  function FirstHit(rects: seq<Rect>, p: Point): (r: Option<nat>)
    ensures r.Some? ==> r.value < |rects| && Collides(Hitbox(rects[r.value]), p)
    ensures r.Some? ==> forall j :: 0 <= j < r.value ==> !Collides(Hitbox(rects[j]), p)
    ensures r.None? ==> forall j :: 0 <= j < |rects| ==> !Collides(Hitbox(rects[j]), p)
    decreases |rects|
  {
    if |rects| == 0 then None
    else if Collides(Hitbox(rects[0]), p) then Some(0)
    else match FirstHit(rects[1..], p)
      case None => None
      case Some(k) => Some(k + 1)
  }

  /** An item takes a click on its button, and any click while its dropdown is open. */
  predicate Captures(it: Item, p: Point)
    reads it.button
  {
    Collides(it.button.rect, p) || it.button.dropdownOpen
  }

  /** The first toolbar item that takes a click at `p`. */
  function FirstCaptured(tools: seq<Item>, p: Point): (r: Option<nat>)
    reads Buttons(tools)
    ensures r.Some? ==> r.value < |tools| && Captures(tools[r.value], p)
    ensures r.Some? ==> forall j :: 0 <= j < r.value ==> !Captures(tools[j], p)
    ensures r.None? ==> forall j :: 0 <= j < |tools| ==> !Captures(tools[j], p)
    decreases |tools|
  {
    if |tools| == 0 then None
    else if Captures(tools[0], p) then Some(0)
    else
      assert Buttons(tools[1..]) <= Buttons(tools) by {
        forall b | b in Buttons(tools[1..]) ensures b in Buttons(tools) {
          var k :| 0 <= k < |tools[1..]| && tools[1..][k].button == b;
          assert tools[k + 1].button == b;
        }
      }
      match FirstCaptured(tools[1..], p)
      case None => None
      case Some(k) => Some(k + 1)
  }

  /**
   * What `handle_brush_size_click` leaves, relative to the state before the
   * click. With the menu open, a click in an entry's hitbox picks the first
   * such entry's size and closes the menu; otherwise a click on the button
   * toggles the menu; any other click closes it. Nothing else of the button
   * and nothing else of the tool state changes.
   */
  twostate predicate SizeClicked(item: Item, mousePos: Point, ts: ToolState)
    reads item.button, ts
  {
    var hit := if old(item.button.dropdownOpen) then FirstHit(old(item.button.dropdownRects), mousePos) else None;
    && (hit.Some? ==>
          hit.value < |BrushSizes| && !item.button.dropdownOpen &&
          ts.brushSize == BrushSizes[hit.value] && item.button.currentSize == BrushSizes[hit.value])
    && (hit.None? && Collides(item.button.rect, mousePos) ==> item.button.dropdownOpen == !old(item.button.dropdownOpen))
    && (hit.None? && !Collides(item.button.rect, mousePos) ==> !item.button.dropdownOpen)
    && (hit.None? ==> ts.brushSize == old(ts.brushSize) && item.button.currentSize == old(item.button.currentSize))
    && item.button.rect == old(item.button.rect) && item.button.active == old(item.button.active)
    && item.button.dropdownRects == old(item.button.dropdownRects)
    && ts.activeTool == old(ts.activeTool) && ts.brushColor == old(ts.brushColor) && ts.lastPos == old(ts.lastPos)
  }

  /**
   * `handle_brush_size_click`: moves as `SizeClicked`, and the result tells
   * whether the click was used: it picked a size or hit the button.
   */
  method HandleBrushSizeClick(item: Item, mousePos: Point, ts: ToolState) returns (handled: bool)
    requires |item.button.dropdownRects| <= |BrushSizes|
    modifies item.button, ts
    ensures SizeClicked(item, mousePos, ts)
    ensures handled <==>
      (old(item.button.dropdownOpen) && FirstHit(old(item.button.dropdownRects), mousePos).Some?) ||
      Collides(item.button.rect, mousePos)
  {
    var btn := item.button;
    if btn.dropdownOpen {
      var i := 0;
      while i < |btn.dropdownRects|
        invariant 0 <= i <= |btn.dropdownRects|
        invariant forall j :: 0 <= j < i ==> !Collides(Hitbox(btn.dropdownRects[j]), mousePos)
      {
        if Collides(Hitbox(btn.dropdownRects[i]), mousePos) {
          ts.brushSize := BrushSizes[i];
          btn.currentSize := BrushSizes[i];
          btn.dropdownOpen := false;
          return true;
        }
        i := i + 1;
      }
    }
    if Collides(btn.rect, mousePos) {
      btn.dropdownOpen := !btn.dropdownOpen;
      return true;
    }
    btn.dropdownOpen := false;
    return false;
  }

  /** No toolbar button changes anything but its `active` flag. */
  twostate predicate OnlyActiveChanges(tools: seq<Item>)
    reads Buttons(tools)
  {
    forall k :: 0 <= k < |tools| ==>
      && tools[k].button.rect == old(tools[k].button.rect)
      && tools[k].button.dropdownOpen == old(tools[k].button.dropdownOpen)
      && tools[k].button.dropdownRects == old(tools[k].button.dropdownRects)
      && tools[k].button.currentSize == old(tools[k].button.currentSize)
  }

  /**
   * The `active` flags after a click on `item`: for a tool item exactly the
   * clicked one is active among the tool buttons, and when it is in the bar
   * there is exactly one active tool button; no other flag changes.
   */
  twostate predicate ActiveAfter(item: Item, tools: seq<Item>)
    reads Buttons(tools)
  {
    && (item.kind.ToolItem? ==>
      && (forall k :: 0 <= k < |tools| && tools[k].kind.ToolItem? ==> tools[k].button.active == (tools[k] == item))
      && (forall k :: 0 <= k < |tools| && !tools[k].kind.ToolItem? ==> tools[k].button.active == old(tools[k].button.active)))
    && (item.kind.ToolItem? && item in tools ==>
      exists k :: 0 <= k < |tools| && tools[k].button.active && tools[k].kind.ToolItem? &&
        forall j :: 0 <= j < |tools| && tools[j].kind.ToolItem? && tools[j].button.active ==> j == k)
    && (!item.kind.ToolItem? ==>
      forall k :: 0 <= k < |tools| ==> tools[k].button.active == old(tools[k].button.active))
  }

  /** The history after a click on an item of kind `kind`: only actions move it, as undo, redo or clear. */
  twostate predicate HistoryAfter(kind: ItemKind, cm: CanvasManager)
    reads cm, cm.surface
  {
    && cm.surface == old(cm.surface)
    && old(|cm.undoStack|) <= Capacity && old(|cm.redoStack|) <= Capacity
    && (!kind.ActionItem? ==> cm.Model() == old(cm.Model()))
    && (kind == ActionItem(UndoAction) ==> cm.Model() == Undo(old(cm.Model())))
    && (kind == ActionItem(RedoAction) ==> cm.Model() == Redo(old(cm.Model())))
    && (kind == ActionItem(ClearAction) ==> cm.Model() == History.Clear(old(cm.Model())))
  }

  /**
   * What `handle_ui_click` leaves, relative to the state before the click. A
   * tool item selects its tool and leaves exactly its own button active
   * among the tool buttons; a colour item sets the colour all tools share;
   * an action item runs undo, redo or clear. A brush-size item does nothing
   * here.
   */
  twostate predicate UiClicked(item: Item, ts: ToolState, tools: seq<Item>, cm: CanvasManager)
    reads ts, Buttons(tools), cm, cm.surface
  {
    && OnlyActiveChanges(tools) && ActiveAfter(item, tools) && HistoryAfter(item.kind, cm)
    && ts.brushSize == old(ts.brushSize) && ts.lastPos == old(ts.lastPos)
    && ts.activeTool == (if item.kind.ToolItem? then item.kind.name else old(ts.activeTool))
    && ts.brushColor == (if item.kind.ColorItem? then item.kind.color else old(ts.brushColor))
  }

  /** `handle_ui_click`: moves as `UiClicked`, keeping the canvas manager valid. */
  method HandleUiClick(item: Item, ts: ToolState, tools: seq<Item>, cm: CanvasManager)
    requires cm.Valid() && DistinctButtons(tools)
    modifies ts, Buttons(tools), cm, cm.surface
    ensures cm.Valid() && UiClicked(item, ts, tools, cm)
  {
    if item.kind.ToolItem? {
      ClickTool(item, ts, tools, cm);
    } else {
      ClickOther(item, ts, tools, cm);
    }
  }

  /** A tool item: `active_tool` and the tool buttons' flags change. */
  method ClickTool(item: Item, ts: ToolState, tools: seq<Item>, cm: CanvasManager)
    requires cm.Valid() && DistinctButtons(tools) && item.kind.ToolItem?
    modifies ts, Buttons(tools)
    ensures UiClicked(item, ts, tools, cm)
  {
    SelectToolButton(tools, item);
    ts.activeTool := item.kind.name;
  }

  /** A colour, size or action item: no button changes. */
  method ClickOther(item: Item, ts: ToolState, tools: seq<Item>, cm: CanvasManager)
    requires cm.Valid() && !item.kind.ToolItem?
    modifies ts, cm, cm.surface
    ensures cm.Valid() && UiClicked(item, ts, tools, cm)
  {
    match item.kind {
      case ColorItem(c) =>
        ts.brushColor := c;
      case ActionItem(a) =>
        RunAction(a, cm);
      case BrushSizeItem =>
    }
  }

  /** The tool branch of `handle_ui_click` on the buttons: the clicked tool's button becomes the one active tool button. */
  method SelectToolButton(tools: seq<Item>, item: Item)
    requires DistinctButtons(tools) && item.kind.ToolItem?
    modifies Buttons(tools)
    ensures OnlyActiveChanges(tools) && ActiveAfter(item, tools)
  {
    SetToolButtons(tools, item);
    if item in tools {
      var k :| 0 <= k < |tools| && tools[k] == item;
      assert tools[k].button.active;
    }
  }

  /** The action branch of `handle_ui_click`: `action_handlers[name]()`. */
  method RunAction(a: Action, cm: CanvasManager)
    requires cm.Valid()
    modifies cm, cm.surface
    ensures cm.Valid() && HistoryAfter(ActionItem(a), cm)
  {
    match a {
      case UndoAction => cm.HandleUndo();
      case RedoAction => cm.HandleRedo();
      case ClearAction => cm.Clear();
    }
  }

  /** The loop of `handle_ui_click` that sets each tool button's `active` flag. */
  method SetToolButtons(tools: seq<Item>, item: Item)
    requires DistinctButtons(tools)
    modifies Buttons(tools)
    ensures forall k :: 0 <= k < |tools| ==>
      && tools[k].button.active == (if tools[k].kind.ToolItem? then tools[k] == item else old(tools[k].button.active))
      && tools[k].button.rect == old(tools[k].button.rect)
      && tools[k].button.dropdownOpen == old(tools[k].button.dropdownOpen)
      && tools[k].button.dropdownRects == old(tools[k].button.dropdownRects)
      && tools[k].button.currentSize == old(tools[k].button.currentSize)
  {
    for i := 0 to |tools|
      invariant forall k :: 0 <= k < |tools| ==>
        tools[k].button.active == (if k < i && tools[k].kind.ToolItem? then tools[k] == item else old(tools[k].button.active))
      invariant forall k :: 0 <= k < |tools| ==>
        && tools[k].button.rect == old(tools[k].button.rect)
        && tools[k].button.dropdownOpen == old(tools[k].button.dropdownOpen)
        && tools[k].button.dropdownRects == old(tools[k].button.dropdownRects)
        && tools[k].button.currentSize == old(tools[k].button.currentSize)
    {
      if tools[i].kind.ToolItem? {
        tools[i].button.active := tools[i] == item;
      }
    }
  }

  /**
   * `handle_canvas_click`: with the fill tool, flood-fill from the mapped
   * pixel with the shared colour; with any other tool, remember the mapped
   * pixel as the start of a stroke.
   */
  method HandleCanvasClick(mousePos: Point, ts: ToolState, cm: CanvasManager, area: Rect)
    requires area.width > 0 && area.height > 0 && cm.Valid()
    modifies ts, cm, cm.surface
    ensures cm.Valid() && cm.surface == old(cm.surface)
    ensures ts.activeTool == old(ts.activeTool) && ts.brushColor == old(ts.brushColor) && ts.brushSize == old(ts.brushSize)
    ensures ts.activeTool == Fill ==>
      ts.lastPos == old(ts.lastPos) && cm.Model() == FloodFillSpec(old(cm.Model()), ToCanvas(mousePos, area), ts.brushColor)
    ensures ts.activeTool != Fill ==>
      ts.lastPos == Some(ToCanvas(mousePos, area)) && cm.Model() == old(cm.Model())
  {
    var p := ToCanvas(mousePos, area);
    if ts.activeTool == Fill {
      cm.FloodFill(p, ts.brushColor);
    } else {
      ts.lastPos := Some(p);
    }
  }

  /** The colour a stroke of the selected tool paints: the shared colour, or grey for the eraser. */
  function StrokeColor(tool: ToolName, brushColor: Color): Color
  {
    if tool == Brush then brushColor else EraserColor
  }

  predicate Draws(tool: ToolName)
  {
    tool == Brush || tool == Eraser
  }

  /**
   * What a click taken by the toolbar item `tools[k]` leaves: a brush-size
   * item moves as `SizeClicked` and no other button and nothing of the canvas
   * manager changes; any other item moves as `UiClicked`. The stroke's last
   * position is kept either way.
   */
  twostate predicate ToolbarClicked(k: nat, mousePos: Point, tools: seq<Item>, ts: ToolState, cm: CanvasManager)
    reads ts, Buttons(tools), cm, cm.surface
  {
    && k < |tools|
    && ts.lastPos == old(ts.lastPos)
    && (tools[k].kind == BrushSizeItem ==>
          && SizeClicked(tools[k], mousePos, ts)
          && cm.surface == old(cm.surface) && cm.Model() == old(cm.Model())
          && forall j :: 0 <= j < |tools| && j != k ==> unchanged(tools[j].button))
    && (tools[k].kind != BrushSizeItem ==> UiClicked(tools[k], ts, tools, cm))
  }

  /**
   * `handle_mouse_down`. The first toolbar item that takes the click handles
   * it. Otherwise a click inside the canvas area goes to the canvas; with the
   * brush or the eraser it also stamps a dot at the mapped pixel, which
   * becomes the stroke's last position, and a stroke starts (`true`). No
   * snapshot is taken here.
   */
  method HandleMouseDown(mousePos: Point, tools: seq<Item>, ts: ToolState, cm: CanvasManager, area: Rect)
    returns (drawing: bool)
    requires cm.Valid() && DistinctButtons(tools)
    requires forall k :: 0 <= k < |tools| ==> |tools[k].button.dropdownRects| <= |BrushSizes|
    modifies ts, Buttons(tools), cm, cm.surface
    ensures cm.Valid() && cm.surface == old(cm.surface)
    ensures drawing <==>
      old(FirstCaptured(tools, mousePos)).None? && Collides(area, mousePos) && Draws(old(ts.activeTool))
    ensures old(FirstCaptured(tools, mousePos)).Some? ==> ToolbarClicked(old(FirstCaptured(tools, mousePos)).value, mousePos, tools, ts, cm)
    ensures old(FirstCaptured(tools, mousePos)).None? ==>
      && ts.activeTool == old(ts.activeTool) && ts.brushColor == old(ts.brushColor) && ts.brushSize == old(ts.brushSize)
      && (forall k :: 0 <= k < |tools| ==> unchanged(tools[k].button))
    ensures old(FirstCaptured(tools, mousePos)).None? && !Collides(area, mousePos) ==>
      cm.Model() == old(cm.Model()) && ts.lastPos == old(ts.lastPos)
    ensures old(FirstCaptured(tools, mousePos)).None? && Collides(area, mousePos) && ts.activeTool == Fill ==>
      ts.lastPos == old(ts.lastPos) && cm.Model() == FloodFillSpec(old(cm.Model()), ToCanvas(mousePos, area), ts.brushColor)
    ensures drawing ==>
      && ts.lastPos == Some(ToCanvas(mousePos, area))
      && cm.undoStack == old(cm.undoStack) && cm.redoStack == old(cm.redoStack)
      && forall x, y :: 0 <= x < CanvasWidth && 0 <= y < CanvasHeight ==>
        cm.surface[x, y] ==
          if InDisk(ToCanvas(mousePos, area), RadiusOf(ts.brushSize), Point(x, y))
          then StrokeColor(ts.activeTool, ts.brushColor) else old(cm.surface[x, y])
  {
    var i := 0;
    while i < |tools| && !Captures(tools[i], mousePos)
      invariant 0 <= i <= |tools|
      invariant forall k :: 0 <= k < i ==> !Captures(tools[k], mousePos)
    {
      i := i + 1;
    }
    assert i < |tools| <==> FirstCaptured(tools, mousePos).Some?;
    assert i < |tools| ==> FirstCaptured(tools, mousePos) == Some(i);
    if i < |tools| {
      if tools[i].kind == BrushSizeItem {
        var _ := HandleBrushSizeClick(tools[i], mousePos, ts);
      } else {
        HandleUiClick(tools[i], ts, tools, cm);
      }
      return false;
    }
    if !Collides(area, mousePos) {
      return false;
    }
    drawing := PressCanvas(mousePos, ts, cm, area);
  }

  /**
   * A press inside the canvas area that no toolbar item took: the canvas
   * handles the click, and the brush or the eraser then stamps a dot at the
   * mapped pixel and starts a stroke (`true`).
   */
  method PressCanvas(mousePos: Point, ts: ToolState, cm: CanvasManager, area: Rect)
    returns (drawing: bool)
    requires cm.Valid() && Collides(area, mousePos)
    modifies ts, cm, cm.surface
    ensures cm.Valid() && cm.surface == old(cm.surface)
    ensures drawing <==> Draws(old(ts.activeTool))
    ensures ts.activeTool == old(ts.activeTool) && ts.brushColor == old(ts.brushColor) && ts.brushSize == old(ts.brushSize)
    ensures ts.activeTool == Fill ==>
      ts.lastPos == old(ts.lastPos) && cm.Model() == FloodFillSpec(old(cm.Model()), ToCanvas(mousePos, area), ts.brushColor)
    ensures drawing ==>
      && ts.lastPos == Some(ToCanvas(mousePos, area))
      && cm.undoStack == old(cm.undoStack) && cm.redoStack == old(cm.redoStack)
      && forall x, y :: 0 <= x < CanvasWidth && 0 <= y < CanvasHeight ==>
        cm.surface[x, y] ==
          if InDisk(ToCanvas(mousePos, area), RadiusOf(ts.brushSize), Point(x, y))
          then StrokeColor(ts.activeTool, ts.brushColor) else old(cm.surface[x, y])
  {
    ToCanvasInside(mousePos, area);
    HandleCanvasClick(mousePos, ts, cm, area);
    if !Draws(ts.activeTool) {
      return false;
    }
    var p := ToCanvas(mousePos, area);
    ghost var before := cm.Model();
    Stamp(cm.surface, p, RadiusOf(ts.brushSize), StrokeColor(ts.activeTool, ts.brushColor));
    SurfaceEditKeepsInv(before, Contents(cm.surface));
    ts.lastPos := Some(p);
    return true;
  }

  /**
   * `handle_mouse_motion`. Nothing changes unless a stroke is in progress with
   * the brush or the eraser and the mouse is inside the canvas area. Then,
   * if the stroke has a last position, the interpolated centres from it to
   * the mapped pixel are stamped at radius `brush_size // 2`, and the mapped
   * pixel becomes the last position.
   */
  method HandleMouseMotion(drawing: bool, mousePos: Point, ts: ToolState, cm: CanvasManager, area: Rect)
    requires cm.Valid()
    modifies ts, cm.surface
    ensures cm.Valid()
    ensures ts.activeTool == old(ts.activeTool) && ts.brushColor == old(ts.brushColor) && ts.brushSize == old(ts.brushSize)
    ensures !(drawing && Draws(ts.activeTool) && Collides(area, mousePos)) ==>
      ts.lastPos == old(ts.lastPos) && Contents(cm.surface) == old(Contents(cm.surface))
    ensures drawing && Draws(ts.activeTool) && Collides(area, mousePos) ==>
      && ts.lastPos == Some(ToCanvas(mousePos, area))
      && (old(ts.lastPos).None? ==> Contents(cm.surface) == old(Contents(cm.surface)))
      && (old(ts.lastPos).Some? ==>
        forall x, y :: 0 <= x < CanvasWidth && 0 <= y < CanvasHeight ==>
          cm.surface[x, y] ==
            if Covered(Centres(old(ts.lastPos).value, ToCanvas(mousePos, area), RadiusOf(ts.brushSize)),
                       RadiusOf(ts.brushSize), Point(x, y))
            then StrokeColor(ts.activeTool, ts.brushColor) else old(cm.surface[x, y]))
  {
    if !drawing || !Draws(ts.activeTool) {
      return;
    }
    if !Collides(area, mousePos) {
      return;
    }
    ToCanvasInside(mousePos, area);
    var p := ToCanvas(mousePos, area);
    if ts.lastPos.Some? {
      ghost var before := cm.Model();
      var r := RadiusOf(ts.brushSize);
      DrawStroke(cm.surface, ts.lastPos.value, p, r, StrokeColor(ts.activeTool, ts.brushColor));
      SurfaceEditKeepsInv(before, Contents(cm.surface));
    }
    ts.lastPos := Some(p);
  }
}
