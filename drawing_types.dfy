/** Values shared by the drawing screen: colours, points, strokes and the
    drawing instructions the canvas is given. */
module DrawingTypes {

  /** The colours the screen uses: five palette buttons plus the white
      the eraser draws with. */
  datatype Color = Black | Red | Blue | Green | Yellow | White

  /** The colours that have a palette button; white has none. */
  const PALETTE: seq<Color> := [Black, Red, Blue, Green, Yellow]

  /** A touch location. Points are only stored and replayed, never computed
      on, so an integer pair stands in for the platform's floating-point point. */
  datatype Point = Point(x: int, y: int)

  /** One stroke: the colour it is drawn in and the touch locations in the
      order they arrived. A stroke carries no width of its own. */
  datatype DrawingPath = DrawingPath(color: Color, points: seq<Point>)

  /** One step of a path under construction. */
  datatype PathOp = MoveTo(to: Point) | LineTo(to: Point)

  /** One call to the canvas's stroke operation: the path, its colour and
      the line width. */
  datatype StrokeInstruction = StrokeInstruction(ops: seq<PathOp>, color: Color, lineWidth: int)

  /** The lowest and highest value the brush-size slider offers. */
  const MIN_BRUSH_SIZE: int := 1
  const MAX_BRUSH_SIZE: int := 30
}
