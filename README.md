# drawBox core in Dafny

drawBox is a small desktop editor. The user adds squares (and stub circles) to a scene, selects them by clicking, drags them, tunes their parameters and deletes them. The scene is drawn by a fragment shader that is generated from the shape list again on every frame. Each shape contributes a signed-distance term, and the terms are blended with a smooth minimum ("blob").

This project models the three deterministic parts of that program:

- **`Shapes`** (`shapes.dfy`): the shape data model. `Square` and `Circle` are geometry records. `Shape` is their tagged union, and each variant carries its geometry followed by exactly the blob factor, the colour spread and the subtract flag (src/shapes.rs:37-40). The module also holds the two factories with their fixed defaults. Coordinates and colours are `real`, because the code only compares and adds them.
- **`Scene`** (`scene.dfy`): the application state of `MyApp` as a class `App`, with a `seq<Shape>` and an `Option<nat>` selection. Its methods are the "Add Square"/"Add Circle" buttons, the side panel's edits and "delete" button, and the canvas's click hit-test and drag. Each method states its new state. The class invariant `Valid()` says the selection, if any, names an existing square, and every method keeps it. The hit-test loop is proved against `SelectionAfterClick`, and the lemmas characterise that function without the loop: the last eligible index wins, the guard compares against the selection taken before the loop, circles are never hit, and a click never clears a selection.
- **`Renderer`** (`renderer.dfy`): the loop in `PlaneRenderer::new` that pushes one GLSL fragment per shape, modelled as a small statement IR (`Stmt`), and the splice of that fragment into the fixed `main()`. `AssembleFragment` is the loop, proved against `Body` (the terms laid end to end). A circle anywhere in the list aborts construction (`todo!()`), which the model returns as `Err(CircleNotImplemented(i))` for the first circle. The lemmas establish the layout of the body, the number of `smin` calls, the colour contributions, that no statement reads `d2` or `w` before it is assigned, that the first shape's blob and subtract flag are ignored, and what an empty scene leaves in `d`. `smin` itself is defined over the reals.

`smin` is not idempotent: on equal arguments the shader's formula gives `d - k/4`, not `d` (`Renderer.SminOfEqualDistances`).

## Model

| member | source | states |
|---|---|---|
| `Shapes.DefaultSquareGeometry` | src/shapes.rs:10-18 | `Square::default()`, the geometry of a new square |
| `Shapes.DefaultCircleGeometry` | src/shapes.rs:27-35 | `Circle::default()`, the geometry of a new circle |
| `Shapes.DefaultSquare` | src/shapes.rs:43-45 | `Shape::default_square()`, the shape "Add Square" appends |
| `Shapes.DefaultCircle` | src/shapes.rs:47-49 | `Shape::default_circle()`, the shape "Add Circle" appends |
| `Shapes.DefaultSquareGeometryValues` | src/shapes.rs:10-18 | `Square::default` is centred at (50,50), 100 by 100, white, with corner radius 0.2 |
| `Shapes.DefaultSquareValues` | src/shapes.rs:43-45 | `default_square` is a square with the default geometry, blob 0.5, colour spread 0.5, not subtracting |
| `Shapes.DefaultCircleGeometryValues` | src/shapes.rs:27-35 | `Circle::default` is centred at (0,0) with radius 100 and white |
| `Shapes.DefaultCircleValues` | src/shapes.rs:47-49 | `default_circle` is a circle with the default geometry, blob 0, colour spread 0, not subtracting |
| `Scene.Hits` | src/ui.rs:119-122 | the hit test of one shape: a click strictly inside a square's box on both axes; a circle is never hit |
| `Scene.SelectionAfterClick` | src/ui.rs:106-131 | the selection the click scan leaves, every hit index other than the pre-click selection overwriting it in list order |
| `Scene.Dragged` | src/ui.rs:135-143 | the shape list after a drag: the selected square, if it exists, has the delta added to its centre |
| `Scene.Removed` | src/ui.rs:68 | `Vec::remove(i)` on the shape list |
| `Scene.ClickSelectsLastEligible` | src/ui.rs:95-131 | the selection after a click is unchanged iff no index is both hit and different from the pre-click selection; otherwise it is the largest such index, inside the list |
| `Scene.ClickNeverDeselects` | src/ui.rs:106-131 | a click never turns an existing selection into none |
| `Scene.ClickSelectsSquare` | src/ui.rs:106-129 | a changed selection is an index of the list, from `enumerate`, and names a square (circles are never hit) |
| `Scene.ClickTieBreakExamples` | src/ui.rs:119-127 | two overlapping squares and a click in both: with nothing selected the later one is chosen; with the later one selected the earlier one is chosen; a lone selected square stays selected |
| `Scene.DragChangesOnlySelectedPosition` | src/ui.rs:133-144 | a drag adds the delta to the selected square's centre only; size, colour, radius, blend fields, other shapes and the length are unchanged; a missing or stale selection or a circle means no change |
| `Scene.DragTwice` | src/ui.rs:139 | two successive drags equal one drag by the summed delta |
| `Scene.DraggedFramesIsOneDrag` | src/ui.rs:133-144 | dragging frame by frame ends in the same list as one drag by the sum of the frames' deltas |
| `Scene.RemovedDropsExactlyOne` | src/ui.rs:68 | `remove(i)` shortens the list by one, keeps the other shapes in order, and removes only `shapes[i]` from the multiset |
| `Scene.App.constructor` | src/ui.rs:17-29 | the application starts with no shapes and no selection, satisfying the invariant |
| `Scene.App.AddSquare` | src/ui.rs:35-37 | appends the default square; earlier shapes and the selection are unchanged; the invariant is kept |
| `Scene.App.AddCircle` | src/ui.rs:38-40 | appends the default circle; earlier shapes and the selection are unchanged; the invariant is kept |
| `Scene.App.EditSelected` | src/ui.rs:41-65 | needs a selection inside the list, since `get_mut(idx).unwrap()` panics otherwise; a selected square gets the new parameters and stays a square; a circle or no selection means no change |
| `Scene.App.Delete` | src/ui.rs:41-70 | needs a selection inside the list; a selected square is removed by index and the selection becomes none; otherwise nothing changes |
| `Scene.App.Click` | src/ui.rs:95-131 | the scan leaves the selection at `SelectionAfterClick` of the pre-click selection and the click taken relative to the canvas origin; shapes are untouched; the invariant is kept |
| `Scene.App.Drag` | src/ui.rs:133-144 | the shape list becomes `Dragged` of the old list by the selection; the selection is untouched; the invariant is kept |
| `Scene.App.CustomPainting` | src/ui.rs:91-144 | one canvas frame: the hit test if there was a click, then the drag using the selection the hit test produced |
| `Scene.AddClickDragDeleteScenario` | src/ui.rs:35-144 | on the operations' specifications: adding a square to the empty scene and clicking (50,50) selects index 0; dragging by (10,0) moves it to (60,50); removing it leaves an empty list |
| `Renderer.Term` | src/renderer.rs:43-86 | the text one square pushes: the seed template for index 0, the `smin` template for every later index |
| `Renderer.Body` | src/renderer.rs:26-89 | the fragment string: the terms of all shapes concatenated in list order |
| `Renderer.Splice` | src/renderer.rs:129-147 | the fixed `main()` with the fragment between `float d = 1;` and `dcol.xyz /= dcol.w;` |
| `Renderer.Smin` | src/renderer.rs:116-119 | the shader's `smin` over the reals: clamp, mix and the `k*h*(1-h)` correction |
| `Renderer.AssembleFragment` | src/renderer.rs:26-89 | succeeds iff every shape is a square, and then returns the terms concatenated in list order; otherwise fails at the first circle |
| `Renderer.NewFragmentShader` | src/renderer.rs:109-150 | the fragment shader is the fixed `main()` with the assembled fragment spliced in after `float d = 1;` and before the colour normalisation, plus the minimum dimension and canvas origin; it fails exactly when assembly fails |
| `Renderer.TermShape` | src/renderer.rs:43-86 | the seed term assigns `d` from `rectangle` and calls no `smin`; later terms assign `d2` and then `d = smin(d, sign*d2, blob)` with sign "-1.0" iff subtracting; the weight reads `d` for the seed and `d2` afterwards; half size is size/2, pos and radius are unchanged; the colour is accumulated last |
| `Renderer.BodyLayout` | src/renderer.rs:26-89 | the body is exactly the per-shape terms end to end: shape i's term occupies `[Offset(i), Offset(i+1))` and the length is `Offset(n)` |
| `Renderer.SminCountIsShapesMinusOne` | src/renderer.rs:43-72 | the body of n shapes calls `smin` n - 1 times (none for an empty or one-shape scene) |
| `Renderer.EveryShapeAddsItsColor` | src/renderer.rs:48-74 | the colours accumulated into `dcol` are exactly the shapes' colours, one per shape, in list order |
| `Renderer.BodyIsWellSequenced` | src/renderer.rs:44-85 | each `smin` directly follows the `rectangle` that set `d2`, each colour accumulation directly follows its weight, and each weight reads the distance its own term just set |
| `Renderer.SeedBlendIgnored` | src/renderer.rs:69-85 | changing the first shape's blob factor or subtract flag leaves the fragment unchanged |
| `Renderer.EmptySceneKeepsInitialDistance` | src/renderer.rs:134-140 | an empty scene gives an empty fragment, so `main()` only initialises `d` to 1 before normalising, and no colour is accumulated into `dcol` |
| `Renderer.SeedFollowsInitialDistance` | src/renderer.rs:129-147 | with shapes, the statement after `float d = 1;` overwrites `d` with the first square's rectangle distance, and the fragment sits between the declarations and the normalisation |
| `Renderer.SminOfEqualDistances` | src/renderer.rs:116-119 | `smin(a, a, k) = a - k/4`, not `a` |
| `Renderer.SminBelowBoth` | src/renderer.rs:116-119 | for a positive blob factor, `smin(a, b, k)` is at most `a` and at most `b` |

## Left out

- OpenGL work is not modelled: shader and program creation, the compile and link assertions, the vertex array, `draw_arrays`, `destroy`, and `paint`'s destroy-and-recreate of `*self` (src/renderer.rs:91-224). These are driver calls, so the renderer is not a class here and only the fragment source it would compile is modelled. The renderer that `MyApp::new` builds from an empty list is left out for the same reason.
- The fixed vertex shader text, the `rectangle` preamble and the `#version` header chosen by build target are not modelled. They are constant text or build configuration.
- Evaluation of the generated GLSL is not modelled: `rectangle`, the weight `max(...)`, `smoothstep` and the final mix run in floating point on the GPU. Only `smin` is defined over the reals. For a non-empty scene the weights accumulated into `dcol.w` are each at least 0.0001, and the model covers that only structurally: `EveryShapeAddsItsColor` gives one accumulation per shape and `BodyIsWellSequenced` puts each after its weight.
- With no shapes `dcol` keeps its zero start and `dcol.xyz /= dcol.w` (src/renderer.rs:134-140) divides by zero, on every frame until a shape is added and in the renderer `MyApp::new` builds; `EmptySceneKeepsInitialDistance` shows that no colour is accumulated, but the resulting GPU value is not modelled.
- The `todo!()` for a circle (src/renderer.rs:30) is modelled as `Err(CircleNotImplemented(i))`, and the per-frame rebuild of the renderer in `paint` (src/ui.rs:146-155, src/renderer.rs:218) is not composed with `App`. In the program the frame in which "Add Circle" is pressed ends in that panic while the shapes and renderer mutexes are held, poisoning both, so the states of `App` that contain a circle do not outlive one frame; the model lets click, drag, edit and delete run on them.
- Rust `{:?}` float formatting is not modelled. The IR carries the parameters' values, not their text.
- Renderer.Smin: requires a non-zero blob factor; with blob 0 the GLSL divides by zero, and that result is not modelled.
- Scene.DraggedFramesIsOneDrag: holds for the real-number model; `f32` addition rounds and is not associative, so for the program it holds only up to rounding.
- Coordinates, sizes and colours are `real` throughout; `f32` precision and NaN are not modelled.
- The `Arc<Mutex<...>>` sharing, the paint callback and `println!` are not modelled. The model owns the sequence directly.
- egui widgets are not modelled as widgets: panel layout, `allocate_exact_size`, and the slider and colour-picker ranges. `EditSelected` accepts any values, as the data model does.
- The order of the side-panel steps within one `update` call is not composed into a single frame method; each step is its own method.
- The selection passed to `paint` is unused by the renderer and is not modelled.
- src/main.rs, the eframe launcher, is not part of this model.
