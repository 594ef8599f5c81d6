/** The drawing screen as an object: the six state fields the buttons and
    gestures update in place, one method per handler closure, and the
    canvas's drawing pass. Each method says what it does to every field and
    that it takes the screen state exactly as the matching function of
    DrawingState does. */
module ContentViewModel {
  import opened DrawingTypes
  import opened DrawingState
  import opened Rendering

  class ContentView {
    var paths: seq<DrawingPath>
    var undonePaths: seq<DrawingPath>
    var currentColor: Color
    var brushSize: int
    var currentPath: DrawingPath
    var isEraserActive: bool

    /** The fields read together as one value. */
    function State(): ViewState
      reads this
    {
      ViewState(paths, undonePaths, currentColor, brushSize, currentPath, isEraserActive)
    }

    /** The reachability invariant of DrawingState.Valid, carried by every
        method: the brush size is in the slider's range and the colour is
        white exactly when the eraser is on. No method's effect depends on
        it; it is here so that each method shows it keeps what
        DrawingState.ReachableStatesValid proves of every reachable state. */
    ghost predicate Inv()
      reads this
    {
      Valid(State())
    }

    /** The screen as it first appears: nothing drawn, black selected, brush
        size 5, an empty black stroke ready, eraser off. */
    constructor ()
      ensures State() == INITIAL
      ensures Inv()
    {
      paths := [];
      undonePaths := [];
      currentColor := Black;
      brushSize := 5;
      currentPath := DrawingPath(Black, []);
      isEraserActive := false;
    }

    /** A palette button: selects its colour and switches the eraser off;
        the stroke already started keeps its colour. */
    method SelectColor(c: Color)
      requires Inv()
      requires c in PALETTE
      modifies this
      ensures Inv()
      ensures currentColor == c && !isEraserActive
      ensures paths == old(paths) && undonePaths == old(undonePaths)
      ensures currentPath == old(currentPath) && brushSize == old(brushSize)
      ensures State() == DrawingState.SelectColor(old(State()), c)
    {
      currentColor := c;
      isEraserActive := false;
    }

    /** The eraser button: flips the eraser; when it is now on the colour
        becomes white, when it is now off the colour becomes black. */
    method ToggleEraser()
      requires Inv()
      modifies this
      ensures Inv()
      ensures isEraserActive == !old(isEraserActive)
      ensures currentColor == if isEraserActive then White else Black
      ensures paths == old(paths) && undonePaths == old(undonePaths)
      ensures currentPath == old(currentPath) && brushSize == old(brushSize)
      ensures State() == DrawingState.ToggleEraser(old(State()))
    {
      isEraserActive := !isEraserActive;
      if isEraserActive {
        currentColor := White;
      } else {
        currentColor := Black;
      }
    }

    /** The brush-size slider, which only offers values in its range. */
    method SetBrushSize(size: int)
      requires Inv()
      requires MIN_BRUSH_SIZE <= size <= MAX_BRUSH_SIZE
      modifies this
      ensures Inv()
      ensures brushSize == size
      ensures State() == DrawingState.SetBrushSize(old(State()), size)
    {
      brushSize := size;
    }

    /** The drag gesture's change handler: appends the touch location to the
        end of the stroke being drawn and changes nothing else. */
    method DragChanged(location: Point)
      requires Inv()
      modifies this
      ensures Inv()
      ensures currentPath.points == old(currentPath.points) + [location]
      ensures currentPath.color == old(currentPath.color)
      ensures paths == old(paths) && undonePaths == old(undonePaths)
      ensures currentColor == old(currentColor) && brushSize == old(brushSize)
      ensures isEraserActive == old(isEraserActive)
      ensures State() == AppendPoint(old(State()), location)
    {
      currentPath := currentPath.(points := currentPath.points + [location]);
    }

    /** The drag gesture's end handler: commits the stroke being drawn, with
        no check that it has points, starts an empty stroke in the current
        colour and empties the redo stack. */
    method DragEnded()
      requires Inv()
      modifies this
      ensures Inv()
      ensures paths == old(paths) + [old(currentPath)]
      ensures undonePaths == []
      ensures currentPath == DrawingPath(currentColor, [])
      ensures currentColor == old(currentColor) && brushSize == old(brushSize)
      ensures isEraserActive == old(isEraserActive)
      ensures State() == EndStroke(old(State()))
    {
      paths := paths + [currentPath];
      currentPath := DrawingPath(currentColor, []);
      undonePaths := [];
    }

    /** The Clear button: empties both stacks from any state and leaves the
        stroke being drawn and the tools alone. */
    method Clear()
      requires Inv()
      modifies this
      ensures Inv()
      ensures paths == [] && undonePaths == []
      ensures currentPath == old(currentPath) && currentColor == old(currentColor)
      ensures brushSize == old(brushSize) && isEraserActive == old(isEraserActive)
      ensures State() == DrawingState.Clear(old(State()))
    {
      paths := [];
      undonePaths := [];
    }

    /** The Undo button: moves the last committed stroke to the top of the
        redo stack, keeping the earlier strokes as they were; with nothing
        committed it does nothing. */
    method Undo()
      requires Inv()
      modifies this
      ensures Inv()
      ensures old(paths) == [] ==> paths == [] && undonePaths == old(undonePaths)
      ensures old(paths) != [] ==>
        && paths == old(paths)[..|old(paths)| - 1]
        && undonePaths == old(undonePaths) + [old(paths)[|old(paths)| - 1]]
      ensures |paths| + |undonePaths| == |old(paths)| + |old(undonePaths)|
      ensures currentPath == old(currentPath) && currentColor == old(currentColor)
      ensures brushSize == old(brushSize) && isEraserActive == old(isEraserActive)
      ensures State() == DrawingState.Undo(old(State()))
    {
      if paths != [] {
        var lastPath := paths[|paths| - 1];
        undonePaths := undonePaths + [lastPath];
        paths := paths[..|paths| - 1];
      }
    }

    /** The Redo button: moves the top of the redo stack back to the end of
        the committed strokes; with nothing undone it does nothing. */
    method Redo()
      requires Inv()
      modifies this
      ensures Inv()
      ensures old(undonePaths) == [] ==> paths == old(paths) && undonePaths == []
      ensures old(undonePaths) != [] ==>
        && paths == old(paths) + [old(undonePaths)[|old(undonePaths)| - 1]]
        && undonePaths == old(undonePaths)[..|old(undonePaths)| - 1]
      ensures |paths| + |undonePaths| == |old(paths)| + |old(undonePaths)|
      ensures currentPath == old(currentPath) && currentColor == old(currentColor)
      ensures brushSize == old(brushSize) && isEraserActive == old(isEraserActive)
      ensures State() == DrawingState.Redo(old(State()))
    {
      if undonePaths != [] {
        var lastUndonePath := undonePaths[|undonePaths| - 1];
        paths := paths + [lastUndonePath];
        undonePaths := undonePaths[..|undonePaths| - 1];
      }
    }

    /** The canvas's drawing pass: one instruction per committed stroke, in
        order, then one for the stroke being drawn, each in its own stroke's
        colour and with the current brush size. */
    method Draw() returns (instructions: seq<StrokeInstruction>)
      ensures instructions == Render(State())
      ensures |instructions| == |paths| + 1
      ensures forall i :: 0 <= i < |paths| ==>
        instructions[i].color == paths[i].color && |instructions[i].ops| == |paths[i].points|
      ensures instructions[|paths|].color == currentPath.color
      ensures |instructions[|paths|].ops| == |currentPath.points|
      ensures forall i :: 0 <= i < |instructions| ==> instructions[i].lineWidth == brushSize
    {
      instructions := [];
      for k := 0 to |paths|
        invariant instructions == CommittedStrokes(paths[..k], brushSize)
      {
        var path := paths[k];
        var pathToDraw := BuildPath(path.points);
        assert paths[..k + 1][..k] == paths[..k];
        instructions := instructions + [StrokeInstruction(pathToDraw, path.color, brushSize)];
      }
      assert paths[..|paths|] == paths;
      var tempPath := BuildPath(currentPath.points);
      instructions := instructions + [StrokeInstruction(tempPath, currentPath.color, brushSize)];
      RenderShape(State());
    }
  }

  /** A user picks red and then draws from (0, 0) to (10, 10) on a fresh
      screen: the stroke is committed in black, because the stroke being
      drawn was created black when the screen appeared; undo and redo then
      bring the same single stroke back. */
  method RedPickedBeforeFirstStroke() returns (committed: seq<DrawingPath>, afterUndo: seq<DrawingPath>)
    ensures committed == [DrawingPath(Black, [Point(0, 0), Point(10, 10)])]
    ensures afterUndo == []
  {
    var view := new ContentView();
    view.SelectColor(Red);
    view.DragChanged(Point(0, 0));
    view.DragChanged(Point(10, 10));
    assert view.currentPath.points == [Point(0, 0), Point(10, 10)];
    view.DragEnded();
    assert view.currentPath == DrawingPath(Red, []);
    view.Undo();
    afterUndo := view.paths;
    assert view.undonePaths == [DrawingPath(Black, [Point(0, 0), Point(10, 10)])];
    view.Redo();
    committed := view.paths;
  }
}
