/** The drawing window's tools and what each of them draws. */
module Tools {
  import opened Raster

  datatype Tool = Brush | Eraser | Fill | Line | Rectangle | Oval | Star | Heart

  /** The tools drawn from the press point to the release point. */
  predicate IsShapeTool(t: Tool) {
    t.Line? || t.Rectangle? || t.Oval? || t.Star? || t.Heart?
  }

  /** The outline a shape tool draws. */
  function ShapeOf(t: Tool): (s: Shape)
    requires IsShapeTool(t)
    ensures t.Line? <==> s.LineShape?
    ensures t.Rectangle? <==> s.RectangleShape?
    ensures t.Oval? <==> s.OvalShape?
    ensures t.Star? <==> s.StarShape?
    ensures t.Heart? <==> s.HeartShape?
  {
    match t
    case Line => LineShape
    case Rectangle => RectangleShape
    case Oval => OvalShape
    case Star => StarShape
    case Heart => HeartShape
  }

  /** The tools whose size the size control sets in `brush_width`. */
  predicate UsesBrushWidth(t: Tool) {
    t.Brush? || IsShapeTool(t)
  }
}
