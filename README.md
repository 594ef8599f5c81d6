# Simple drawing app: the drawing-state model

This project models the state machine behind the app's single drawing screen,
`ContentView` in `simple-drawing-app/ContentView.swift`, and proves what its
handlers do.

The screen keeps six pieces of state:

- `paths`: the committed strokes;
- `undonePaths`: the redo stack, with the most recently undone stroke last;
- `currentPath`: the stroke being drawn;
- `currentColor`, `brushSize` and `isEraserActive`: the tool state.

The handlers are the five palette buttons, the eraser toggle, the brush-size
slider, the drag gesture's change and end handlers, and the Clear, Undo and
Redo buttons. The canvas draws the committed strokes in order, then the
stroke being drawn. Each stroke becomes a path that moves to its first point
and draws a line to each later point.

The project has four files:

- `drawing_types.dfy` (module `DrawingTypes`) defines the values. These are
  the six colours, a point, a stroke (`DrawingPath`: a colour and its points),
  one path step (`MoveTo`/`LineTo`) and one stroke instruction for the canvas.
- `drawing_state.dfy` (module `DrawingState`) specifies the screen state as
  a value `ViewState`. It gives one function per handler, plus `Step` and
  `Run` for sequences of user events. Its lemmas cover the invariant every
  reachable state keeps, undo/redo round trips and how drags build strokes.
- `rendering.dfy` (module `Rendering`) specifies the canvas's drawing pass as
  a list of stroke instructions. It proves the shape of that list and gives
  the path-building loop as a method.
- `content_view.dfy` (module `ContentViewModel`) defines the class
  `ContentView`. Its six fields are the six state variables, and it has one
  method per handler closure. Each method states its effect on every field
  and that it moves the state exactly as the matching `DrawingState` function
  does. `Draw` is the canvas's loop, proved to produce `Render` of the state.

The model follows the code, including these behaviours:

- A stroke carries no width. Every instruction uses the current brush size.
- Ending a drag commits the stroke being drawn even when it has no points.
- The next stroke is created, in the current colour, when a drag ends. A
  colour picked before drawing therefore does not recolour the stroke that
  was already created. On a fresh screen the first stroke is always black.
- Turning the eraser off selects black, not the colour used before the
  eraser was turned on.
- No palette button selects white. So in every reachable state the colour is
  white exactly when the eraser is on (`DrawingState.Valid`).

## Model

| member | source | states |
|---|---|---|
| ContentViewModel.ContentView.constructor | simple-drawing-app/ContentView.swift:5-10 | The screen starts with no strokes, black selected, brush size 5, an empty black stroke ready and the eraser off, which satisfies the invariant |
| ContentViewModel.ContentView.SelectColor | simple-drawing-app/ContentView.swift:16-55 | A palette button sets the colour to its own and the eraser off. The stroke already started, both stacks and the brush size are unchanged |
| ContentViewModel.ContentView.ToggleEraser | simple-drawing-app/ContentView.swift:57-63 | The eraser flag is flipped. The colour becomes white if the eraser is now on and black if it is now off. The stroke being drawn, both stacks and the brush size are unchanged |
| ContentViewModel.ContentView.SetBrushSize | simple-drawing-app/ContentView.swift:71 | The slider writes a size within 1...30 into the brush size and keeps the invariant |
| ContentViewModel.ContentView.DragChanged | simple-drawing-app/ContentView.swift:108-111 | The touch location is appended to the end of the stroke being drawn. That stroke's colour, both stacks and the tools are unchanged |
| ContentViewModel.ContentView.DragEnded | simple-drawing-app/ContentView.swift:112-117 | The old stroke being drawn is appended to the committed strokes, with no emptiness check. The redo stack becomes empty. The new stroke being drawn is empty and in the current colour. The tools are unchanged |
| ContentViewModel.ContentView.Clear | simple-drawing-app/ContentView.swift:123-126 | Both stacks are empty from any state. The stroke being drawn and the tools are unchanged |
| ContentViewModel.ContentView.Undo | simple-drawing-app/ContentView.swift:135-139 | With committed strokes, the last one moves to the end of the redo stack and the rest keep their order. With none, it is a no-op. The total number of strokes in both stacks is preserved |
| ContentViewModel.ContentView.Redo | simple-drawing-app/ContentView.swift:149-153 | With undone strokes, the last one moves to the end of the committed strokes. With none, it is a no-op. The total number of strokes in both stacks is preserved |
| ContentViewModel.ContentView.Draw | simple-drawing-app/ContentView.swift:79-102 | The drawing pass gives one instruction per committed stroke in order, then one for the stroke being drawn. Each has its stroke's colour, one step per point and the current brush size |
| ContentViewModel.RedPickedBeforeFirstStroke | simple-drawing-app/ContentView.swift:112-117 | Picking red on a fresh screen and drawing commits a black stroke with the dragged points. Undo empties the committed strokes and redo restores that one stroke |
| DrawingState.SelectColor | simple-drawing-app/ContentView.swift:16-55 | A palette button selects its colour and switches the eraser off. The stacks, the stroke being drawn and the brush size are unchanged, and a valid state stays valid for every palette colour |
| DrawingState.ToggleEraser | simple-drawing-app/ContentView.swift:57-63 | The eraser flag is flipped and the colour is white exactly when the eraser is now on, black otherwise, from any state. The stacks, the stroke being drawn and the brush size are unchanged |
| DrawingState.SetBrushSize | simple-drawing-app/ContentView.swift:71 | The slider's value becomes the brush size, the strokes are unchanged, and a value within 1...30 keeps a valid state valid |
| DrawingState.AppendPoint | simple-drawing-app/ContentView.swift:108-111 | The stroke being drawn gains exactly one point, the new location, at its end. Its earlier points and colour, the timeline and validity are unchanged |
| DrawingState.EndStroke | simple-drawing-app/ContentView.swift:112-117 | The timeline becomes the committed strokes followed by the stroke being drawn, so the redo history is discarded. The new stroke being drawn is empty and in the current colour, and validity is unchanged |
| DrawingState.Clear | simple-drawing-app/ContentView.swift:123-126 | The timeline becomes empty from any state. The stroke being drawn and the tools are unchanged |
| DrawingState.Undo | simple-drawing-app/ContentView.swift:135-139 | Undo keeps the timeline unchanged: the committed strokes followed by the redo stack read from its top. It also keeps the stroke total, and it removes one committed stroke when there is one |
| DrawingState.Redo | simple-drawing-app/ContentView.swift:149-153 | Redo keeps the timeline and the stroke total unchanged, and it removes one stroke from the redo stack when there is one |
| DrawingState.StepPreservesValid | simple-drawing-app/ContentView.swift:16-71 | Every handler the screen can trigger keeps the brush size in range and keeps the colour white exactly when the eraser is on |
| DrawingState.RunPreservesValid | simple-drawing-app/ContentView.swift:16-153 | Any sequence of deliverable user events keeps the state valid |
| DrawingState.ReachableStatesValid | simple-drawing-app/ContentView.swift:5-10 | Every state reachable from the initial one is valid |
| DrawingState.DragAppendsPoints | simple-drawing-app/ContentView.swift:108-111 | A drag over some locations appends exactly those locations, in order, to the stroke being drawn and changes nothing else |
| DrawingState.StrokeCommitsDraggedPoints | simple-drawing-app/ContentView.swift:108-117 | A drag and its end commit the stroke being drawn, with the dragged points appended, in that stroke's own colour. They leave an empty stroke in the current colour and an empty redo stack |
| DrawingState.ColorPickAppliesToNextStroke | simple-drawing-app/ContentView.swift:112-117 | A colour picked before a drag does not colour that drag's stroke. The stroke is committed in its earlier colour, and only the following stroke gets the picked colour |
| DrawingState.UndoThenRedo | simple-drawing-app/ContentView.swift:135-153 | Undo followed by redo, when a stroke is committed, restores the whole state exactly |
| DrawingState.RedoThenUndo | simple-drawing-app/ContentView.swift:135-153 | Redo followed by undo, when a stroke is undone, restores the whole state exactly |
| DrawingState.UndoTimesCount | simple-drawing-app/ContentView.swift:135-139 | n undos, with at least n committed strokes, remove exactly the last n of them and keep the timeline |
| DrawingState.UndoRedoRoundTrip | simple-drawing-app/ContentView.swift:135-153 | n undos followed by n redos, with at least n committed strokes, restore the committed strokes in order and the redo stack |
| DrawingState.UndoAll | simple-drawing-app/ContentView.swift:135-139 | Undoing every committed stroke leaves none committed. It pushes them onto the redo stack newest first, so that redo returns them oldest first |
| DrawingState.EraserRoundTripSelectsBlack | simple-drawing-app/ContentView.swift:57-63 | Turning the eraser on and off again leaves black selected, whatever colour was selected before |
| Rendering.PathOps | simple-drawing-app/ContentView.swift:83-89 | A stroke's path has one step per point and starts with a move to the first point |
| Rendering.CommittedStrokes | simple-drawing-app/ContentView.swift:81-91 | There is one instruction per committed stroke, each with that stroke's colour, one step per point and the current brush size |
| Rendering.Render | simple-drawing-app/ContentView.swift:79-102 | The canvas gets one instruction per committed stroke and then one for the stroke being drawn, each in its own stroke's colour and all with the current brush size |
| Rendering.PathOpsShape | simple-drawing-app/ContentView.swift:83-89 | A stroke's path has one step per point: a move to the first point and a line to each later point |
| Rendering.CommittedStrokesShape | simple-drawing-app/ContentView.swift:81-91 | There is one instruction per committed stroke, in order, each drawing that stroke |
| Rendering.RenderShape | simple-drawing-app/ContentView.swift:79-102 | The instructions are one per committed stroke, then one for the stroke being drawn. Each has its own stroke's colour, the current brush size and one move-then-lines step per point |
| Rendering.RenderAfterEndStroke | simple-drawing-app/ContentView.swift:112-117 | Ending a drag leaves the drawn picture as it was and adds only an empty stroke at the end |
| Rendering.RenderAfterAppendPoint | simple-drawing-app/ContentView.swift:108-111 | A drag change extends only the last instruction, by one step to the new point: a move for the first point and a line otherwise |
| Rendering.BuildPath | simple-drawing-app/ContentView.swift:94-101 | The path-building loop produces one step per point: a move to the first point and a line to each later point |

## Left out

- SwiftUI layout and styling: stacks, circles, icons, fonts, padding, borders, backgrounds, the navigation title and the preview provider. These have no behaviour to verify.
- The `Slider` widget itself. The widget keeps the brush size within 1...30 in steps of 1, and the app does not clamp it. The model has no clamping. `ContentView.SetBrushSize` requires a value in the range, and `brushSize` is a whole number.
- `Canvas`, `GraphicsContext.stroke` and `Path`. These are framework calls. Drawing is modelled as the list of stroke instructions the loop hands to the canvas.
- `DragGesture` recognition, event delivery and `minimumDistance`. Only the two handler bodies are modelled, as `DragChanged` and `DragEnded`.
- `CGPoint`/`CGFloat` floating-point coordinates. Points are only stored and replayed, so they are modelled as integer pairs.
- SwiftUI's re-rendering and `@State` storage. The six fields are plain fields of one object, and the drawing pass is a method that reads them.
