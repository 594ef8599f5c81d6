/** The drawing screen's state as a value, and what each button and gesture
    handler does to it. These functions are the specification the class in
    ContentViewModel is proved against; the lemmas here state what the
    handlers promise over one call and over sequences of calls. */
module DrawingState {
  import opened DrawingTypes

  /** The six pieces of screen state: committed strokes, the redo stack
      (most recently undone last), the colour and brush size of the tools,
      the stroke being drawn, and whether the eraser is on. */
  datatype ViewState = ViewState(
    paths: seq<DrawingPath>,
    undonePaths: seq<DrawingPath>,
    currentColor: Color,
    brushSize: int,
    currentPath: DrawingPath,
    isEraserActive: bool)

  /** The state the screen starts in. */
  const INITIAL: ViewState := ViewState([], [], Black, 5, DrawingPath(Black, []), false)

  /** What holds in every state the screen can reach: the brush size lies in
      the slider's range, and the colour is white exactly when the eraser is
      on (no palette button selects white). */
  predicate Valid(s: ViewState) {
    MIN_BRUSH_SIZE <= s.brushSize <= MAX_BRUSH_SIZE &&
    (s.currentColor == White <==> s.isEraserActive)
  }

  // ---------------------------------------------------------------------
  // Handlers, one per button or gesture closure
  // ---------------------------------------------------------------------

  /** A palette button: selects its colour and switches the eraser off. */
  function SelectColor(s: ViewState, c: Color): (r: ViewState)
    ensures r.currentColor == c && !r.isEraserActive
    ensures r.paths == s.paths && r.undonePaths == s.undonePaths
    ensures r.currentPath == s.currentPath && r.brushSize == s.brushSize
    ensures Valid(s) && c in PALETTE ==> Valid(r)
  {
    s.(currentColor := c, isEraserActive := false)
  }

  /** The eraser button: flips the eraser, then draws in white when it is on
      and in black when it is off (the earlier colour is not remembered). */
  function ToggleEraser(s: ViewState): (r: ViewState)
    ensures r.isEraserActive == !s.isEraserActive
    ensures r.currentColor == White <==> r.isEraserActive
    ensures r.currentColor in [White, Black]
    ensures r.paths == s.paths && r.undonePaths == s.undonePaths
    ensures r.currentPath == s.currentPath && r.brushSize == s.brushSize
  {
    var on := !s.isEraserActive;
    s.(isEraserActive := on, currentColor := if on then White else Black)
  }

  /** The brush-size slider writing its value. */
  function SetBrushSize(s: ViewState, size: int): (r: ViewState)
    ensures r.brushSize == size
    ensures r.paths == s.paths && r.undonePaths == s.undonePaths && r.currentPath == s.currentPath
    ensures Valid(s) && MIN_BRUSH_SIZE <= size <= MAX_BRUSH_SIZE ==> Valid(r)
  {
    s.(brushSize := size)
  }

  /** The drag gesture's change handler: appends the touch location to the
      stroke being drawn. */
  function AppendPoint(s: ViewState, p: Point): (r: ViewState)
    ensures |r.currentPath.points| == |s.currentPath.points| + 1
    ensures r.currentPath.points[..|s.currentPath.points|] == s.currentPath.points
    ensures r.currentPath.points[|s.currentPath.points|] == p
    ensures r.currentPath.color == s.currentPath.color
    ensures Timeline(r) == Timeline(s) && Valid(r) == Valid(s)
  {
    s.(currentPath := s.currentPath.(points := s.currentPath.points + [p]))
  }

  /** The drag gesture's end handler: commits the stroke being drawn (even one
      without points), starts a new empty stroke in the current colour, and
      empties the redo stack. */
  function EndStroke(s: ViewState): (r: ViewState)
    ensures Timeline(r) == s.paths + [s.currentPath]
    ensures r.undonePaths == [] && r.paths[|s.paths|] == s.currentPath
    ensures r.currentPath.points == [] && r.currentPath.color == s.currentColor
    ensures Valid(r) == Valid(s)
  {
    s.(paths := s.paths + [s.currentPath],
       currentPath := DrawingPath(s.currentColor, []),
       undonePaths := [])
  }

  /** The Clear button: empties both stacks. */
  function Clear(s: ViewState): (r: ViewState)
    ensures Timeline(r) == []
    ensures r.currentPath == s.currentPath && r.currentColor == s.currentColor
    ensures r.brushSize == s.brushSize && r.isEraserActive == s.isEraserActive
  {
    s.(paths := [], undonePaths := [])
  }

  /** The sequence read from its end: the last element first. */
  function Reversed<T>(xs: seq<T>): (r: seq<T>)
    ensures |r| == |xs|
  {
    if xs == [] then [] else [xs[|xs| - 1]] + Reversed(xs[..|xs| - 1])
  }

  /** The strokes in the order they were committed, whether they are now
      visible or on the redo stack: the committed strokes followed by the
      redo stack read from its top. Undo and Redo only move the boundary. */
  function Timeline(s: ViewState): seq<DrawingPath> {
    s.paths + Reversed(s.undonePaths)
  }

  /** The Undo button: when there is a committed stroke, moves the last one
      to the top of the redo stack; otherwise nothing changes. */
  function Undo(s: ViewState): (r: ViewState)
    ensures Timeline(r) == Timeline(s)
    ensures |r.paths| + |r.undonePaths| == |s.paths| + |s.undonePaths|
    ensures |r.paths| == if s.paths == [] then 0 else |s.paths| - 1
  {
    if s.paths == [] then s
    else
      var last := s.paths[|s.paths| - 1];
      var r := s.(paths := s.paths[..|s.paths| - 1], undonePaths := s.undonePaths + [last]);
      assert Reversed(r.undonePaths) == [last] + Reversed(s.undonePaths) by {
        assert r.undonePaths[..|r.undonePaths| - 1] == s.undonePaths;
      }
      assert s.paths == r.paths + [last];
      r
  }

  /** The Redo button: when the redo stack is not empty, moves its top back to
      the end of the committed strokes; otherwise nothing changes. */
  function Redo(s: ViewState): (r: ViewState)
    ensures Timeline(r) == Timeline(s)
    ensures |r.paths| + |r.undonePaths| == |s.paths| + |s.undonePaths|
    ensures |r.undonePaths| == if s.undonePaths == [] then 0 else |s.undonePaths| - 1
  {
    if s.undonePaths == [] then s
    else
      var last := s.undonePaths[|s.undonePaths| - 1];
      var r := s.(paths := s.paths + [last], undonePaths := s.undonePaths[..|s.undonePaths| - 1]);
      assert Reversed(s.undonePaths) == [last] + Reversed(r.undonePaths);
      assert Timeline(r) == s.paths + ([last] + Reversed(r.undonePaths));
      r
  }

  // ---------------------------------------------------------------------
  // Events and runs
  // ---------------------------------------------------------------------

  /** Everything the user can do on the screen. */
  datatype Event =
    | ColorTapped(color: Color)
    | EraserTapped
    | SliderMoved(size: int)
    | DragChanged(location: Point)
    | DragEnded
    | ClearTapped
    | UndoTapped
    | RedoTapped

  /** The events the screen can deliver: a palette button exists only for the
      palette colours, and the slider only offers values in its range. */
  predicate Deliverable(e: Event) {
    match e
    case ColorTapped(c) => c in PALETTE
    case SliderMoved(size) => MIN_BRUSH_SIZE <= size <= MAX_BRUSH_SIZE
    case _ => true
  }

  /** The handler each event runs. */
  function Step(s: ViewState, e: Event): ViewState {
    match e
    case ColorTapped(c) => SelectColor(s, c)
    case EraserTapped => ToggleEraser(s)
    case SliderMoved(size) => SetBrushSize(s, size)
    case DragChanged(p) => AppendPoint(s, p)
    case DragEnded => EndStroke(s)
    case ClearTapped => Clear(s)
    case UndoTapped => Undo(s)
    case RedoTapped => Redo(s)
  }

  /** The state after handling the events one after another. */
  function Run(s: ViewState, events: seq<Event>): ViewState
    decreases |events|
  {
    if events == [] then s else Run(Step(s, events[0]), events[1..])
  }

  /** The change events of one drag across the given locations. */
  function Drags(points: seq<Point>): (r: seq<Event>)
    ensures |r| == |points|
  {
    if points == [] then [] else [DragChanged(points[0])] + Drags(points[1..])
  }

  /** Undo pressed n times. */
  function UndoTimes(s: ViewState, n: nat): ViewState {
    if n == 0 then s else Undo(UndoTimes(s, n - 1))
  }

  /** Redo pressed n times. */
  function RedoTimes(s: ViewState, n: nat): ViewState
    decreases n
  {
    if n == 0 then s else RedoTimes(Redo(s), n - 1)
  }

  // ---------------------------------------------------------------------
  // Lemmas
  // ---------------------------------------------------------------------

  /** Every handler the screen can trigger keeps the state valid. */
  lemma StepPreservesValid(s: ViewState, e: Event)
    requires Valid(s) && Deliverable(e)
    ensures Valid(Step(s, e))
  {
  }

  /** Any run of deliverable events keeps the state valid. */
  lemma {:induction false} RunPreservesValid(s: ViewState, events: seq<Event>)
    requires Valid(s)
    requires forall i :: 0 <= i < |events| ==> Deliverable(events[i])
    ensures Valid(Run(s, events))
    decreases |events|
  {
    if events != [] {
      StepPreservesValid(s, events[0]);
      RunPreservesValid(Step(s, events[0]), events[1..]);
    }
  }

  /** Every state reachable from the start of the screen is valid; in
      particular the eraser is on exactly when the colour is white. */
  lemma ReachableStatesValid(events: seq<Event>)
    requires forall i :: 0 <= i < |events| ==> Deliverable(events[i])
    ensures Valid(Run(INITIAL, events))
  {
    RunPreservesValid(INITIAL, events);
  }

  /** Handling two runs of events one after the other. */
  lemma {:induction false} RunAppend(s: ViewState, a: seq<Event>, b: seq<Event>)
    ensures Run(s, a + b) == Run(Run(s, a), b)
    decreases |a|
  {
    if a != [] {
      assert (a + b)[0] == a[0];
      assert (a + b)[1..] == a[1..] + b;
      RunAppend(Step(s, a[0]), a[1..], b);
    } else {
      assert a + b == b;
    }
  }

  /** A drag across some locations appends exactly those locations, in order,
      to the stroke being drawn, and changes nothing else. */
  lemma {:induction false} DragAppendsPoints(s: ViewState, points: seq<Point>)
    ensures Run(s, Drags(points)) == s.(currentPath := s.currentPath.(points := s.currentPath.points + points))
    decreases |points|
  {
    if points != [] {
      var t := AppendPoint(s, points[0]);
      DragAppendsPoints(t, points[1..]);
      assert t.currentPath.points + points[1..] == s.currentPath.points + points;
    }
  }

  /** A whole drag followed by its end commits the stroke being drawn with
      the dragged locations appended, keeping the colour that stroke already
      had, and starts a fresh stroke in the current colour. */
  lemma StrokeCommitsDraggedPoints(s: ViewState, points: seq<Point>)
    ensures Run(s, Drags(points) + [DragEnded]).paths
         == s.paths + [DrawingPath(s.currentPath.color, s.currentPath.points + points)]
    ensures Run(s, Drags(points) + [DragEnded]).currentPath == DrawingPath(s.currentColor, [])
    ensures Run(s, Drags(points) + [DragEnded]).undonePaths == []
  {
    RunAppend(s, Drags(points), [DragEnded]);
    DragAppendsPoints(s, points);
  }

  /** Picking a colour does not recolour the stroke already started: the
      next stroke is committed in the colour that was current when the
      previous stroke ended, and only the stroke after it uses the pick. */
  lemma ColorPickAppliesToNextStroke(s: ViewState, c: Color, points: seq<Point>)
    ensures Run(s, [ColorTapped(c)] + Drags(points) + [DragEnded]).paths
         == s.paths + [DrawingPath(s.currentPath.color, s.currentPath.points + points)]
    ensures Run(s, [ColorTapped(c)] + Drags(points) + [DragEnded]).currentPath == DrawingPath(c, [])
  {
    var events := [ColorTapped(c)] + (Drags(points) + [DragEnded]);
    assert [ColorTapped(c)] + Drags(points) + [DragEnded] == events;
    assert events[0] == ColorTapped(c) && events[1..] == Drags(points) + [DragEnded];
    StrokeCommitsDraggedPoints(SelectColor(s, c), points);
  }

  /** Undo followed by Redo restores both stacks exactly when there was a
      committed stroke. */
  lemma UndoThenRedo(s: ViewState)
    requires s.paths != []
    ensures Redo(Undo(s)) == s
  {
  }

  /** Redo followed by Undo restores both stacks exactly when there was an
      undone stroke. */
  lemma RedoThenUndo(s: ViewState)
    requires s.undonePaths != []
    ensures Undo(Redo(s)) == s
  {
  }

  /** Pressing Undo n times removes exactly the last n committed strokes,
      as long as there are that many. */
  lemma {:induction false} UndoTimesCount(s: ViewState, n: nat)
    requires n <= |s.paths|
    ensures |UndoTimes(s, n).paths| == |s.paths| - n
    ensures UndoTimes(s, n).paths == s.paths[..|s.paths| - n]
    ensures Timeline(UndoTimes(s, n)) == Timeline(s)
  {
    if n > 0 {
      UndoTimesCount(s, n - 1);
      var t := UndoTimes(s, n - 1);
      assert t.paths[..|t.paths| - 1] == s.paths[..|s.paths| - n];
    }
  }

  /** Undo pressed n times and then Redo pressed n times restores the
      committed strokes, in their order, and the redo stack. */
  lemma {:induction false} UndoRedoRoundTrip(s: ViewState, n: nat)
    requires n <= |s.paths|
    ensures RedoTimes(UndoTimes(s, n), n) == s
  {
    if n > 0 {
      UndoTimesCount(s, n - 1);
      UndoThenRedo(UndoTimes(s, n - 1));
      UndoRedoRoundTrip(s, n - 1);
    }
  }

  /** Undoing every committed stroke leaves none committed and puts them on
      the redo stack, newest at the bottom of what was added, so that Redo
      brings them back oldest first. */
  lemma UndoAll(s: ViewState)
    ensures UndoTimes(s, |s.paths|).paths == []
    ensures UndoTimes(s, |s.paths|).undonePaths == s.undonePaths + Reversed(s.paths)
  {
    var t := UndoTimes(s, |s.paths|);
    UndoTimesCount(s, |s.paths|);
    ReversedAppend(s.undonePaths, s.paths);
    ReversedInvolutive(s.paths);
    ReversedInjective(t.undonePaths, s.undonePaths + Reversed(s.paths));
  }

  /** Reading a concatenation backwards. */
  lemma {:induction false} ReversedConcat<T>(a: seq<T>, b: seq<T>)
    ensures Reversed(a + b) == Reversed(b) + Reversed(a)
    decreases |b|
  {
    if b == [] {
      assert a + b == a;
    } else {
      var n := |b| - 1;
      assert (a + b)[..|a + b| - 1] == a + b[..n];
      ReversedConcat(a, b[..n]);
    }
  }

  /** Reading a sequence backwards twice gives it back. */
  lemma {:induction false} ReversedInvolutive<T>(xs: seq<T>)
    ensures Reversed(Reversed(xs)) == xs
    decreases |xs|
  {
    if xs != [] {
      var n := |xs| - 1;
      ReversedConcat([xs[n]], Reversed(xs[..n]));
      ReversedInvolutive(xs[..n]);
      assert Reversed([xs[n]]) == [xs[n]];
      assert xs[..n] + [xs[n]] == xs;
    }
  }

  /** Two sequences whose reversals agree are equal. */
  lemma ReversedInjective<T>(a: seq<T>, b: seq<T>)
    requires Reversed(a) == Reversed(b)
    ensures a == b
  {
    ReversedInvolutive(a);
    ReversedInvolutive(b);
  }

  /** Reading backwards a sequence followed by a reversed one. */
  lemma ReversedAppend(u: seq<DrawingPath>, p: seq<DrawingPath>)
    ensures Reversed(u + Reversed(p)) == p + Reversed(u)
  {
    ReversedConcat(u, Reversed(p));
    ReversedInvolutive(p);
  }

  /** Turning the eraser on and off again always leaves black selected,
      whatever colour was selected before. */
  lemma EraserRoundTripSelectsBlack(s: ViewState)
    requires !s.isEraserActive
    ensures ToggleEraser(ToggleEraser(s)) == s.(currentColor := Black)
  {
  }
}
