/** What the canvas is asked to draw: one stroke instruction per committed
    stroke, in order, then one for the stroke being drawn. Each instruction's
    path starts with a move to the first point and draws a line to every
    later point; all of them use the current brush size. */
module Rendering {
  import opened DrawingTypes
  import opened DrawingState

  /** The path step for the point at position index of a stroke. */
  function OpAt(index: nat, p: Point): PathOp {
    if index == 0 then MoveTo(p) else LineTo(p)
  }

  /** The path built from a stroke's points, one step per point, in the
      order the drawing loop adds them. */
  function PathOps(points: seq<Point>): (r: seq<PathOp>)
    ensures |r| == |points|
    ensures points != [] ==> r[0] == MoveTo(points[0])
    decreases |points|
  {
    if points == [] then []
    else
      var n := |points| - 1;
      PathOps(points[..n]) + [OpAt(n, points[n])]
  }

  /** The instruction that draws one stroke with the given brush size. */
  function StrokeOf(path: DrawingPath, brushSize: int): StrokeInstruction {
    StrokeInstruction(PathOps(path.points), path.color, brushSize)
  }

  /** The instructions for the committed strokes, in order. */
  function CommittedStrokes(paths: seq<DrawingPath>, brushSize: int): (r: seq<StrokeInstruction>)
    ensures |r| == |paths|
    ensures forall i :: 0 <= i < |r| ==>
      r[i].color == paths[i].color && r[i].lineWidth == brushSize && |r[i].ops| == |paths[i].points|
    decreases |paths|
  {
    if paths == [] then []
    else
      var n := |paths| - 1;
      CommittedStrokes(paths[..n], brushSize) + [StrokeOf(paths[n], brushSize)]
  }

  /** Everything the canvas draws for a state: the committed strokes, then
      the stroke being drawn, all with the current brush size. */
  function Render(s: ViewState): (r: seq<StrokeInstruction>)
    ensures |r| == |s.paths| + 1
    ensures forall i :: 0 <= i < |r| ==> r[i].lineWidth == s.brushSize
    ensures forall i :: 0 <= i < |s.paths| ==> r[i].color == s.paths[i].color
    ensures r[|s.paths|].color == s.currentPath.color
    ensures |r[|s.paths|].ops| == |s.currentPath.points|
  {
    CommittedStrokes(s.paths, s.brushSize) + [StrokeOf(s.currentPath, s.brushSize)]
  }

  /** A path has one step per point: a move to the first point and a line to
      each later one. */
  lemma {:induction false} PathOpsShape(points: seq<Point>)
    ensures |PathOps(points)| == |points|
    ensures forall i :: 0 <= i < |points| ==>
      PathOps(points)[i] == if i == 0 then MoveTo(points[i]) else LineTo(points[i])
    decreases |points|
  {
    if points != [] {
      PathOpsShape(points[..|points| - 1]);
    }
  }

  /** One instruction per committed stroke, each for that stroke. */
  lemma {:induction false} CommittedStrokesShape(paths: seq<DrawingPath>, brushSize: int)
    ensures |CommittedStrokes(paths, brushSize)| == |paths|
    ensures forall i :: 0 <= i < |paths| ==>
      CommittedStrokes(paths, brushSize)[i] == StrokeOf(paths[i], brushSize)
    decreases |paths|
  {
    if paths != [] {
      CommittedStrokesShape(paths[..|paths| - 1], brushSize);
    }
  }

  /** The rendered instructions: one per committed stroke in order, then one
      for the stroke being drawn; each has its own stroke's colour, the
      current brush size, and a move to its first point followed by a line
      to each later point. */
  lemma RenderShape(s: ViewState)
    ensures |Render(s)| == |s.paths| + 1
    ensures forall i :: 0 <= i < |s.paths| ==> Render(s)[i] == StrokeOf(s.paths[i], s.brushSize)
    ensures Render(s)[|s.paths|] == StrokeOf(s.currentPath, s.brushSize)
    ensures forall i :: 0 <= i < |Render(s)| ==>
      var path := if i < |s.paths| then s.paths[i] else s.currentPath;
      var instruction := Render(s)[i];
      && instruction.color == path.color
      && instruction.lineWidth == s.brushSize
      && |instruction.ops| == |path.points|
      && (forall j :: 0 <= j < |path.points| ==>
            instruction.ops[j] == if j == 0 then MoveTo(path.points[j]) else LineTo(path.points[j]))
  {
    CommittedStrokesShape(s.paths, s.brushSize);
    forall i | 0 <= i < |Render(s)|
      ensures var path := if i < |s.paths| then s.paths[i] else s.currentPath;
        |Render(s)[i].ops| == |path.points|
        && (forall j :: 0 <= j < |path.points| ==>
              Render(s)[i].ops[j] == if j == 0 then MoveTo(path.points[j]) else LineTo(path.points[j]))
    {
      PathOpsShape(if i < |s.paths| then s.paths[i].points else s.currentPath.points);
    }
  }

  /** Ending a drag leaves the picture as it was: the finished stroke is drawn
      in the same place and colour as before, followed by the new empty
      stroke. */
  lemma RenderAfterEndStroke(s: ViewState)
    ensures Render(EndStroke(s)) == Render(s) + [StrokeOf(DrawingPath(s.currentColor, []), s.brushSize)]
  {
    var t := EndStroke(s);
    assert t.paths[..|t.paths| - 1] == s.paths;
  }

  /** A drag change extends only the last instruction, by one step to the new
      point: a move when it is the stroke's first point, a line otherwise. */
  lemma RenderAfterAppendPoint(s: ViewState, p: Point)
    ensures var before := Render(s);
      var after := Render(AppendPoint(s, p));
      var k := |s.currentPath.points|;
      && |after| == |before|
      && after[..|s.paths|] == before[..|s.paths|]
      && after[|s.paths|].ops == before[|s.paths|].ops + [if k == 0 then MoveTo(p) else LineTo(p)]
      && after[|s.paths|].color == before[|s.paths|].color
  {
    var pts := s.currentPath.points + [p];
    assert pts[..|pts| - 1] == s.currentPath.points;
    var committed := CommittedStrokes(s.paths, s.brushSize);
    assert Render(s)[..|s.paths|] == committed;
    assert Render(AppendPoint(s, p))[..|s.paths|] == committed;
  }

  /** Building a stroke's path the way the drawing loop does: walk the points
      with their positions, moving to the first and drawing a line to each
      later one. */
  method BuildPath(points: seq<Point>) returns (ops: seq<PathOp>)
    ensures ops == PathOps(points)
    ensures |ops| == |points|
    ensures forall i :: 0 <= i < |points| ==>
      ops[i] == if i == 0 then MoveTo(points[i]) else LineTo(points[i])
  {
    ops := [];
    for index := 0 to |points|
      invariant ops == PathOps(points[..index])
    {
      assert points[..index + 1][..index] == points[..index];
      if index == 0 {
        ops := ops + [MoveTo(points[index])];
      } else {
        ops := ops + [LineTo(points[index])];
      }
    }
    assert points[..|points|] == points;
    PathOpsShape(points);
  }
}
