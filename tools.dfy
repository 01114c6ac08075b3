/**
 * `ToolState` (core/state.py): the selected tool, the colour shared by all
 * tools, the brush size and the last mouse position of a stroke.
 */
module Tools {
  import opened Pixels
  import opened Settings

  /** The three tool names the toolbar offers. */
  datatype ToolName = Brush | Fill | Eraser

  datatype Option<T> = None | Some(value: T)

  class ToolState {
    var activeTool: ToolName
    var brushColor: Color
    var brushSize: int
    var lastPos: Option<Point>

    constructor()
      ensures activeTool == Brush && brushColor == Palette[0]
      ensures brushSize == BrushSizes[DefaultBrushIndex] == 7 && lastPos == None
    {
      activeTool := Brush;
      brushColor := Palette[0];
      brushSize := BrushSizes[DefaultBrushIndex];
      lastPos := None;
    }

    /** `update_tool`: selects `tool` and touches nothing else. */
    method UpdateTool(tool: ToolName)
      modifies this
      ensures activeTool == tool
      ensures brushColor == old(brushColor) && brushSize == old(brushSize) && lastPos == old(lastPos)
    {
      activeTool := tool;
    }
  }
}
