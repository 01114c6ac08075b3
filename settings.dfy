/**
 * The configuration constants the core reads (config/settings.py).
 */
module Settings {
  import opened Pixels

  /** `CANVAS_SIZE`: the internal drawing resolution. */
  const CanvasWidth: int := 1700
  const CanvasHeight: int := 900

  /** `COLORS`: the 26 palette entries, all opaque. Entry 0 is the blank canvas colour. */
  const Palette: seq<Color> := [
    Opaque(255, 255, 255), Opaque(193, 193, 193), Opaque(239, 19, 11), Opaque(255, 113, 0),
    Opaque(255, 228, 0), Opaque(0, 204, 0), Opaque(1, 255, 145), Opaque(0, 178, 255),
    Opaque(35, 31, 211), Opaque(163, 0, 186), Opaque(223, 105, 167), Opaque(255, 172, 142),
    Opaque(160, 82, 45), Opaque(0, 0, 0), Opaque(80, 80, 80), Opaque(116, 11, 7),
    Opaque(194, 56, 0), Opaque(232, 162, 0), Opaque(0, 70, 25), Opaque(0, 120, 93),
    Opaque(0, 86, 158), Opaque(14, 8, 101), Opaque(85, 0, 105), Opaque(135, 53, 84),
    Opaque(204, 119, 77), Opaque(99, 48, 13)
  ]

  /** `COLORS[0]`, the colour a new or cleared canvas is filled with. */
  const Blank: Color := Palette[0]

  /** `COLORS[1]`, the colour the eraser paints with. */
  const EraserColor: Color := Palette[1]

  /** `BRUSH_SIZES` and `DEFAULT_BRUSH_INDEX`. */
  const BrushSizes: seq<int> := [7, 14, 21, 28, 35]
  const DefaultBrushIndex: nat := 0
}
