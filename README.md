# scrible — a verified model of the paint program's canvas, history and input handling

scrible is a small pygame paint program. It exists in two generations, and
this project models the core of both:

- **The package** (`core/`):
  - `CanvasManager` owns an RGBA drawing surface of 1700 × 900 pixels. It has two `deque(maxlen=20)` history stacks. Each entry pairs a copy of the surface with a fingerprint of its RGB bytes.
    - `save_state` pushes a snapshot only when the fingerprint differs from the top entry.
    - Undo, redo and clear move snapshots between the stacks.
    - `flood_fill` is a queue-based scanline fill, followed by a save.
  - The event handlers route mouse presses and motion:
    - presses go to toolbar items first (tools, colours, actions and the brush-size dropdown), then to the canvas;
    - motion draws an interpolated chain of dots between the last and the current canvas position;
    - `ToolState` holds the active tool, colour, size and last position.
- **The single-file program** (`scrible.py`):
  - It has global state: the canvas is 1600 × 900 and drawn at window offset (20, 20).
  - It uses plain-copy undo and redo deques with no deduplication.
  - `scanline_fill` is a stack-based span fill.
  - `handle_tool_click` selects tools, sizes and colours and performs undo and redo.
  - `handle_drawing` handles presses, releases and motion.

Modules:

| file | module | models |
|---|---|---|
| pixels.dfy | `Pixels` | bytes, RGBA colours, points, `Rect.collidepoint`/`inflate`, the value view `Grid` of an `array2<Color>` surface, `fill` and `blit` |
| bounded_stack.dfy | `BoundedStack` | `deque(maxlen=n)` used as a stack |
| region.dfy | `Region` | the 4-connected region a fill must recolour, and the reference result `Filled` |
| settings.dfy | `Settings` | `config/settings.py` constants |
| history.dfy | `History` | `CanvasManager`'s history on values, with its proved properties |
| canvas_fill.dfy | `CanvasFill` | the PixelArray queue loop of `flood_fill` |
| canvas.dfy | `Canvas` | the `CanvasManager` class, proved to follow `History` |
| tools.dfy | `Tools` | `ToolState` |
| stroke.dfy | `Stroke` | window-to-canvas mapping and the stroke interpolation arithmetic |
| paint.dfy | `Paint` | circle stamps and the dot chain of a stroke |
| event_handlers.dfy | `EventHandlers` | `core/event_handlers.py` |
| legacy_history.dfy | `LegacyHistory` | `scrible.py`'s undo/redo deques on values |
| legacy_fill.dfy | `LegacyFill` | `scanline_fill` on an `array2` |
| legacy_app.dfy | `Scrible` | `scrible.py`'s buttons, globals and event handling |

How the model is built:

- Every in-place operation is a method on an `array2<Color>` or a class. Each is proved against a pure function of the old state: `Model() == Undo(old(Model()))` and the like.
- The history properties are lemmas about those functions.
- Both fills are proved to produce exactly `Region.Filled`: every pixel of the seed's 4-connected region of equal colour takes the new colour, and every other pixel keeps its colour.

## Model

| member | source | states |
|---|---|---|
| BoundedStack.Push | core/canvas.py:10-11 | appending to a full bounded deque drops the oldest entry; the length never exceeds the bound and the new entry is on top |
| BoundedStack.PopPush | core/canvas.py:21-33 | below the bound, popping what was just pushed gives back the entry and the original deque |
| BoundedStack.PushPop | core/canvas.py:21-33 | pushing back the entry just popped restores the deque |
| History.Hash | core/canvas.py:35-37 | the fingerprint has the raster's shape and records exactly the red, green and blue of every pixel, ignoring alpha |
| History.SaveKeepsInv | core/canvas.py:14-19 | a save from any well-formed state leaves a non-empty undo stack of well-formed snapshots within capacity, whose top either is the current surface or already had its fingerprint |
| History.SaveIdempotent | core/canvas.py:16-17 | saving twice in a row stores the snapshot once |
| History.AlphaOnlyChangeNotSaved | core/canvas.py:16-17 | a surface that differs from the top snapshot only in alpha is not saved: the state is unchanged |
| History.SaveInvalidatesRedo | core/canvas.py:17-19 | a save of a changed surface empties the redo stack and pushes the surface, dropping the oldest snapshot when the stack is full |
| History.UndoKeepsInv | core/canvas.py:21-26 | undo keeps the invariant, and an effective undo leaves the surface equal to the new top snapshot |
| History.RedoKeepsInv | core/canvas.py:28-33 | redo keeps the invariant, and an effective redo leaves the surface equal to the new top snapshot |
| History.ClearKeepsInv | core/canvas.py:39-42 | clear keeps the invariant |
| History.RedoAfterUndo | core/canvas.py:21-33 | from a settled state with something to undo, undo then redo gives back the same state |
| History.UndoAfterRedo | core/canvas.py:21-33 | from a settled state with something to redo, redo then undo gives back the same state |
| History.UndosKeepInv | core/canvas.py:21-26 | any number of undos keeps the invariant |
| History.RedosAfterUndos | core/canvas.py:21-33 | k undos followed by k redos return to the starting settled state, for every k below the undo depth |
| History.UndoFloor | core/canvas.py:23 | after enough undos only the oldest snapshot is left, and the surface shows it |
| History.UndosAtBottom | core/canvas.py:23 | with one snapshot left, further undos change nothing |
| History.UndoRestoresCleared | core/canvas.py:39-42 | clearing a drawn canvas and saving, then undoing, brings its RGB back: the surface's fingerprint equals the one before the clear |
| Canvas.CanvasManager.constructor | core/canvas.py:7-12 | a fresh blank canvas whose undo stack holds one snapshot of it and whose redo stack is empty |
| Canvas.CanvasManager.SaveState | core/canvas.py:14-19 | the object moves as `History.Save` and satisfies the history invariant |
| Canvas.CanvasManager.HandleUndo | core/canvas.py:21-26 | the object moves as `History.Undo`, and the surface is blitted from the new top snapshot |
| Canvas.CanvasManager.HandleRedo | core/canvas.py:28-33 | the object moves as `History.Redo` |
| Canvas.CanvasManager.Clear | core/canvas.py:39-42 | the object saves, then becomes blank, as `History.Clear` |
| Canvas.CanvasManager.FloodFill | core/canvas.py:48-95 | off-surface clicks and clicks on a pixel already of the colour do nothing; otherwise the surface becomes `Filled(surface, pos, color)` and is saved |
| Canvas.SurfaceEditKeepsInv | core/event_handlers.py:135-140 | painting the surface between saves leaves the stacks untouched and the invariant intact |
| Canvas.FloodFillIdempotent | core/canvas.py:55-56 | a second identical fill changes nothing |
| Canvas.UndoFloodFill | core/canvas.py:48-95 | on a settled canvas, a fill that changes the seed's RGB is undone by one undo |
| Canvas.FloodFillBlankCanvas | core/canvas.py:62-93 | filling a blank canvas with another colour recolours every pixel |
| CanvasFill.ScanlineFill | core/canvas.py:62-93 | the queue loop recolours exactly the seed's 4-connected region of the old colour and leaves every other pixel as it was |
| CanvasFill.Visit | core/canvas.py:67-93 | one dequeue keeps the loop invariant and shrinks the set of unpainted old-colour pixels or the queue |
| CanvasFill.VisitRun | core/canvas.py:79-93 | the west/east scan, span paint and row queueing around a queued old-colour pixel keep the invariant and strictly shrink the set of unpainted old-colour pixels |
| CanvasFill.ScanRun | core/canvas.py:79-83 | the bounds found are the maximal run of old-colour pixels through the point |
| CanvasFill.ScanWest | core/canvas.py:80-81 | the west walk stops one left of the run (or at -1), every pixel passed having the old colour |
| CanvasFill.ScanEast | core/canvas.py:82-83 | the east walk stops one right of the run (or at the width), every pixel passed having the old colour |
| CanvasFill.PaintSpan | core/canvas.py:86 | the slice assignment sets exactly the run's pixels to the new colour |
| CanvasFill.QueueRows | core/canvas.py:89-93 | the queue keeps its points and gains every old-colour pixel directly above or below the painted run, each of them in the seed's region |
| CanvasFill.QueueColumn | core/canvas.py:90-93 | one column's checks add the old-colour pixels above and below it, which lie in the region, and keep the rest of the queue |
| Region.SeedInRegion | core/canvas.py:63 | the seed belongs to its own region |
| Region.RegionColor | core/canvas.py:75-76 | every point of the region lies on the surface and has the seed's colour |
| Region.RegionStep | core/canvas.py:89-93 | a same-coloured 4-neighbour of a region point is in the region |
| Region.RegionFilled | core/canvas.py:62-93 | a result that only ever paints the new colour, has the seed painted and leaves no old-colour neighbour beside a painted pixel has painted the whole region |
| Region.FilledChangesExactlyRegion | core/canvas.py:62-93 | the reference fill changes a pixel exactly when it is in the seed's region and the colour differs |
| Region.FilledSameColor | core/canvas.py:55-56 | filling with the seed's own colour changes nothing |
| Region.UniformRegion | core/canvas.py:62-93 | on a uniform surface every pixel is in the region |
| Tools.ToolState.constructor | core/state.py:5-9 | brush tool, the first palette colour, the default brush size 7 and no last position |
| Tools.ToolState.UpdateTool | core/state.py:11-12 | only the active tool changes |
| Stroke.MapAxisInRange | core/event_handlers.py:98-99 | a window coordinate inside the canvas area maps to a canvas coordinate in range, and the area's edge to 0 |
| Stroke.MapAxisMonotone | core/event_handlers.py:115-116 | the window-to-canvas mapping preserves order |
| Stroke.ToCanvasInside | core/event_handlers.py:111-116 | a point that hits the canvas area maps to a pixel of the canvas |
| Stroke.Step | core/event_handlers.py:128 | the dot spacing is at least 1 and at most half the radius once the radius reaches 2 |
| Stroke.Chebyshev | core/event_handlers.py:123-125 | the distance is the larger of the absolute coordinate differences |
| Stroke.Steps | core/event_handlers.py:129 | at least one step, and the steps never overshoot the distance |
| Stroke.StrokeSteps | core/event_handlers.py:123-129 | a stroke always has at least one step |
| Stroke.AxisBetween | core/event_handlers.py:132-134 | every truncated interpolated coordinate lies between the two end coordinates |
| Stroke.CentreEnds | core/event_handlers.py:131-134 | the first centre is the last position and the final one the current position |
| Stroke.CentresEnds | core/event_handlers.py:131-134 | the centre list has steps+1 entries, starting at the last position and ending at the current one |
| Stroke.CentresInBox | core/event_handlers.py:131-134 | every centre lies in the bounding box of the two positions |
| Stroke.CentresOnCanvas | core/event_handlers.py:131-139 | with both positions on the canvas, every dot centre is on the canvas |
| Stroke.StepsSpan | core/event_handlers.py:125-129 | the distance is less than twice the step times the number of intervals, so the stamps are spread over the whole stroke |
| Stroke.CentresGap | core/event_handlers.py:128-134 | between canvas points, neighbouring dot centres are at most twice the step apart on each axis, and at most the radius once it is 2 or more |
| Paint.Stamp | core/event_handlers.py:66-71 | exactly the pixels of the disk around the centre take the colour; the rest keep theirs |
| Paint.DrawStroke | core/event_handlers.py:131-140 | exactly the pixels covered by some dot of the interpolated chain take the colour |
| Paint.CoversCentres | core/event_handlers.py:131-140 | every dot centre of a stroke is itself painted |
| Paint.CoveredOnRow | core/event_handlers.py:131-140 | on a row of stamps spaced at most the radius apart, every point between a stamp and the last one is painted |
| Paint.HorizontalStrokeCovered | core/event_handlers.py:118-140 | a horizontal stroke with radius 2 or more leaves no gap: every pixel of the row between its two ends is painted |
| Paint.NoGap | core/event_handlers.py:118-140 | the stroke from (0, 0) to (100, 0) at radius 10 paints every pixel (x, 0) with 0 <= x <= 100 |
| Pixels.FillSurface | core/canvas.py:42 | every pixel becomes the fill colour |
| Pixels.BlitSurface | core/canvas.py:26 | the surface becomes the snapshot copied onto it |
| EventHandlers.FirstHit | core/event_handlers.py:26-29 | the index returned is the first dropdown entry whose inflated hitbox contains the point, and none is returned when no hitbox does |
| EventHandlers.FirstCaptured | core/event_handlers.py:48-56 | the first toolbar item that is hit or has its dropdown open, and none when no item is |
| EventHandlers.HandleBrushSizeClick | core/event_handlers.py:21-42 | an open dropdown's hit entry sets the size and closes it; otherwise a hit on the button toggles the dropdown and anything else closes it; the result says whether the click was handled |
| EventHandlers.HandleUiClick | core/event_handlers.py:76-95 | a tool item selects the tool and makes exactly it the active tool button; a colour or brush-size item leaves every button's active flag alone; a colour item sets the shared colour; undo, redo and clear move the canvas as the history functions, and nothing else moves it; no button's rectangle, dropdown or size changes |
| EventHandlers.SetToolButtons | core/event_handlers.py:81-83 | among tool items exactly the clicked one is active; other items keep their state |
| EventHandlers.SelectToolButton | core/event_handlers.py:81-83 | exactly the clicked tool's button becomes active among tool items; only active flags change |
| EventHandlers.RunAction | core/event_handlers.py:89-95 | undo, redo and clear move the canvas model as `Undo`, `Redo` and `Clear`, with the surface object kept |
| EventHandlers.HandleCanvasClick | core/event_handlers.py:97-104 | with the fill tool the canvas is flood-filled at the mapped point; otherwise the mapped point becomes the last position |
| EventHandlers.HandleMouseDown | core/event_handlers.py:44-74 | the first item that captures the press takes the click with exactly the effects of `handle_brush_size_click` (for the brush-size button, every other button unchanged and the canvas untouched) or of `handle_ui_click` (for any other item); otherwise no button changes at all, and a click on the canvas area fills (keeping the last position) or starts a stroke with a dot; drawing starts exactly for brush or eraser on the canvas |
| EventHandlers.PressCanvas | core/event_handlers.py:58-73 | a canvas press fills with the fill tool, or stamps a dot of half the brush size in the stroke colour and starts drawing for brush and eraser |
| EventHandlers.HandleMouseMotion | core/event_handlers.py:106-142 | off-canvas, not drawing or not a drawing tool: nothing changes; otherwise the dot chain from the last position is painted and the current position is remembered |
| LegacyHistory.Save | scrible.py:251-253 | the canvas is pushed whatever the top is, and the redo stack is emptied |
| LegacyHistory.EditAsWritten | scrible.py:194-201 | the save comes before the edit, so the edited canvas is not on the stack |
| LegacyHistory.Edit | scrible.py:194-201 | the edited canvas is on top of the undo stack, and the redo stack is empty |
| LegacyHistory.SaveKeepsGood | scrible.py:251-253 | a save leaves a settled state within capacity |
| LegacyHistory.UndoKeepsGood | scrible.py:233-236 | undo keeps the invariant and settles on the previous copy, or changes nothing with one copy left |
| LegacyHistory.RedoKeepsGood | scrible.py:237-240 | redo keeps the invariant and settles on the redone copy, or changes nothing with an empty redo stack |
| LegacyHistory.EditKeepsGood | scrible.py:194-201 | both save orders keep the invariant |
| LegacyHistory.UndoNeverEmpties | scrible.py:234 | undo never empties the undo stack and removes at most one copy |
| LegacyHistory.RedoAfterUndo | scrible.py:233-240 | undo then redo gives back a settled state |
| LegacyHistory.UndoAfterRedo | scrible.py:233-240 | redo then undo gives back a settled state |
| LegacyHistory.AsWrittenUndoSkipsEdit | scrible.py:195 | with the save before the edit, undo after two edits shows the blank canvas instead of the first edit, and redo brings back the first edit without the second |
| LegacyHistory.UndoRevertsEdit | scrible.py:233-236 | with the save after the edit, undo reverts exactly the last edit, also on a full stack, and redo reapplies it |
| LegacyHistory.UndoRestoresStack | scrible.py:233-236 | below capacity, undo after an edit restores the undo stack and leaves only the edit to redo |
| LegacyHistory.SaveTakesSlot | scrible.py:251-253 | saving an unchanged canvas still takes a slot, and undoing it shows the same canvas |
| LegacyFill.LegacyScanlineFill | scrible.py:146-182 | the canvas becomes `Filled(canvas, start, newC)`: exactly the seed's region is recoloured, and nothing changes when the seed already has the new colour |
| LegacyFill.Visit | scrible.py:159-181 | one pop keeps the invariant and shrinks the unpainted old-colour set or the stack |
| LegacyFill.LeftScan | scrible.py:161-163 | the run starts just right of the first non-old-colour pixel west of the popped point, every pixel in between being in the region |
| LegacyFill.PaintRun | scrible.py:164-181 | the east loop paints the run, pushes the span starts above and below, and re-establishes the invariant |
| LegacyFill.PaintStep | scrible.py:167-181 | one pixel painted, the above and below span flags updated, and the invariant kept |
| LegacyFill.CheckAbove | scrible.py:169-173 | the pixel above is pushed when it starts a new old-colour span; afterwards every old-colour pixel above the painted part of the run is reachable from a stacked point, and the flag is set only over such a pixel |
| LegacyFill.CheckBelow | scrible.py:175-179 | the same for the pixel below and the row underneath the run |
| LegacyFill.Completed | scrible.py:159 | with the stack empty, the canvas is the reference fill |
| Scrible.ShowNat | scrible.py:128 | a size label is a non-empty string of digits with no leading zero |
| Scrible.ParseShow | scrible.py:241-242 | `int` of the label `str(n)` is `n` |
| Scrible.CanvasHitAsWritten | scrible.py:194 | the hit test as written accepts exactly the presses in [40, 1640) × [40, 940), the canvas rectangle shifted by twice the offset |
| Scrible.AsWrittenHitLeavesCanvas | scrible.py:194 | the press (1630, 520) passes the as-written hit test although its seed (1610, 500) is off the 1600-wide canvas |
| Scrible.AsWrittenHitMissesBand | scrible.py:194 | the press (30, 30), over canvas pixel (10, 10), fails the as-written hit test |
| Scrible.CanvasHit | scrible.py:194 | a press hits the canvas exactly when its offset pixel is on the canvas |
| Scrible.Unshift | scrible.py:197 | the press shifted back by the canvas offset (20, 20) recovers the press, and a press hits the canvas exactly when the shifted point is a canvas pixel |
| Scrible.ClickPrefs | scrible.py:224-249 | only a tool label changes the tool; only a digit label changes the size, to its value; a palette colour changes the fill colour under the fill tool and the brush colour otherwise; Undo and Redo leave the settings alone |
| Scrible.ClickChangesOne | scrible.py:224-249 | a button click changes at most one of tool, brush colour, fill colour and size, and only a tool button changes the tool |
| Scrible.SizeButtonSetsSize | scrible.py:241-243 | a size button labelled with a number sets exactly the brush size to it |
| Scrible.PaletteClick | scrible.py:244-249 | a palette button sets the fill colour under the fill tool, and the brush colour otherwise |
| Scrible.FirstPressed | scrible.py:189-192 | the first button whose rectangle contains the press, and none when no button does |
| Scrible.Button.constructor | scrible.py:68-75 | the button stores its rectangle, label, colour and tool flag, and starts inactive |
| Scrible.App.constructor | scrible.py:44-60 | a white 1600 × 900 canvas saved once, brush tool, black brush, red fill, size 10, not drawing |
| Scrible.App.SaveState | scrible.py:251-253 | the globals move as `LegacyHistory.Save`, and nothing else changes |
| Scrible.App.HandleToolClick | scrible.py:217-249 | every tool button is deactivated, then the click acts as the settings and history functions say; at most the clicked button stays active |
| Scrible.App.SelectClick | scrible.py:224-249 | the settings move as `ClickPrefs`, the button becomes active exactly when the click selects something, and the canvas and history are untouched |
| Scrible.App.DeactivateTools | scrible.py:220-222 | every button with the tool flag becomes inactive; the others keep their state |
| Scrible.App.UndoClick | scrible.py:233-236 | the canvas and stacks move as `LegacyHistory.Undo` |
| Scrible.App.RedoClick | scrible.py:237-240 | the canvas and stacks move as `LegacyHistory.Redo` |
| Scrible.App.MouseDown | scrible.py:187-201 | (corrected save order and hit test, see Findings) only the left button acts; a pressed button takes the click; otherwise a canvas press fills or starts drawing |
| Scrible.App.CanvasClick | scrible.py:194-201 | (corrected save order and hit test, see Findings) a canvas press with the fill tool is one `Edit` by the reference fill; otherwise drawing starts at the offset point and nothing is saved yet |
| Scrible.App.MouseUp | scrible.py:203-205 | a left-button release stops drawing and forgets the last position; a stroke in progress is saved |
| Scrible.App.MouseMotion | scrible.py:207-215 | while drawing with a last position, the line is painted in the brush colour or white and the position advances; otherwise nothing changes |
| Scrible.App.PaintLine | scrible.py:212-214 | exactly the line's pixels on the canvas take the colour |

## Left out

- Paint.HorizontalStrokeCovered: pixel-by-pixel coverage is stated for horizontal strokes only. For slanted strokes the model proves the spacing bound of Stroke.CentresGap, and not which pixels of the straight segment the disks cover, because that needs the rasterised line itself.
- Rasterisation: pygame's `draw.circle` is modelled as the clipped disk of the given radius. The pixels of `scrible.py`'s `draw.line` are a parameter of `MouseMotion` and `PaintLine`, because the line algorithm is pygame's.
- Hashing: MD5 is not modelled. The fingerprint is the RGB bytes themselves, so two surfaces collide exactly when their RGB agree; MD5 collisions are ignored.
- Floating point: `int(x * 1700 / w)` and `int(last + d * i / steps)` are computed exactly. `int` is truncation toward zero of the exact quotient, with no rounding error.
- Outside the core: `get_scaled` (smoothscale), `handle_resize_event`, the window, fonts, icons, hover states, `create_tools` and the main loops are not modelled. The toolbar's buttons are passed to the constructors and handlers.
- Structural equality: `Item` values stand for the handlers' dictionaries, and `other == item` in `handle_ui_click` is compared as value equality.
- Unknown actions: `action_handlers[item['name']]` raises `KeyError` for an unknown name. The model's action type has exactly undo, redo and clear, so that error path cannot arise.
- Digits: `str.isdigit` is modelled on ASCII digits only. Labels come from `str(size)`.
- Blitting: `blit` of a same-sized copy at (0, 0) is modelled as replacing the surface's contents. On the package's SRCALPHA surface this ignores alpha blending. Every pixel the program paints is opaque, and for opaque pixels the blend is a copy.
- Input: event objects, the clock and the pygame event queue become method parameters.
- Pixel comparison: `flood_fill` compares mapped pixel values (`map_rgb`); the model compares the RGBA colours they encode.
- The eraser colour follows the code: `COLORS[1]` (grey 193, 193, 193) in the package and `WHITE` in `scrible.py`. The canvas is filled with `COLORS[0]`; the eraser paints `COLORS[1]`.
- LegacyFill.LegacyScanlineFill: requires the seed to be on the canvas. `get_at` raises `IndexError` otherwise, and its only caller guarantees this by the corrected hit test.
- Scrible.App.MouseDown, Scrible.App.CanvasClick: save after the edit rather than before it (the corrected order of the second finding), so a fill is one `Edit` and starting a stroke saves nothing until the release, where scrible.py:195 saves before both. They also test the press with the corrected `CanvasHit` instead of scrible.py:194's test, so presses with 20 <= x < 40 (or 20 <= y < 40) act and presses with 1620 <= x < 1640 (or 920 <= y < 940) are ignored. `App.Valid()` (`!drawing ==> Settled(Model())`) therefore excludes states the program as written reaches.
- Scrible.App.MouseUp: saves a stroke in progress at the release, as the package does in main.py:105-107, where `scrible.py` does not save.

## Findings

| source | as written | input that shows it | evidently intended | confidence | as-written member | corrected member |
|---|---|---|---|---|---|---|
| scrible.py:194 | the canvas rectangle placed at (20, 20) is checked against the press already shifted by (-20, -20), so the offset is applied twice | the press (1630, 520) passes and seeds the fill at (1610, 500), off the 1600-wide canvas; the press (30, 30) over canvas pixel (10, 10) is rejected | check the shifted point against the canvas at (0, 0), so a press hits exactly when its canvas pixel exists | not executed | Scrible.AsWrittenHitLeavesCanvas | Scrible.CanvasHit |
| scrible.py:195 | `save_state()` runs before the edit, so the edited canvas itself is never on the undo stack | edits A then B from a blank canvas: undo shows the blank canvas instead of A, and redo brings back A without B | save after the edit, so each undo reverts exactly the last edit | not executed | LegacyHistory.AsWrittenUndoSkipsEdit | LegacyHistory.UndoRevertsEdit |
