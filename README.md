# Call-graph viewer: layout set-up, render mapping, drag and console

The viewer draws a code call graph. Nodes are functions, classes and methods; links are "call" or "contains" relations. The graph is drawn on an SVG canvas as a force-directed layout. The force simulation is a library and is not modelled. This project models, in Dafny, the logic the viewer itself adds around that library:

- **Layout set-up.** The node with id `"main"` is copied with its pin (`fx`, `fy`) at the canvas centre. Every other node is copied unchanged. The non-root ("peripheral") nodes are then selected. In input order, each is written in place onto a circle of radius 180 around the centre, at angle `i·2π/n`. The home page uses an 800 × 600 canvas and the graph view a 960 × 720 one.
- **Render mapping.** A link's stroke depends only on its type. A node's group transform and label offset depend on its type and current coordinates, and together they put the label on the simulated centre. A link line runs between the current centres of its two node objects.
- **Drag handlers.** Drag start pins the node where it stands and raises the alpha target to 0.3. Drag move re-pins the node at the pointer. Drag end drops the alpha target to 0 and leaves the pin in place.
- **The command console.** Enter on a field that is not blank appends the field to the history. It also loads the example graph and clears the field.

Modules:

- `Graph`: the node, link and graph records, and the `SimNode` objects that the set-up and the handlers update in place.
- `Ring`: directions standing in for `(cos, sin)`.
- `Layout`: pinning, filtering and ring placement, as pure specifications and as methods on node objects.
- `Render`: strokes, shapes, transforms, label offsets and link lines.
- `Drag`: the handlers and a `Simulation` object reduced to its alpha target.
- `Page`: the home page's canvas, its example graph and its key handler.
- `GraphView`: the 960 × 720 view.
- `PromptCli`: the console.

Cosines and sines are not computed. The ring directions are a parameter `dirs`, one per peripheral node. `EquallySpaced(dirs, step)` says they are spaced as the angles `i·2π/n` are: the first is `(1, 0)`, each next one is the previous one turned by one unit rotation `step`, and the ring first comes back to `(1, 0)` after exactly `n` steps (so the turn is never by angle 0 on a ring of two or more). From that the model proves the following without trigonometry:

- every direction is a unit vector;
- every peripheral node lies at distance 180 from the centre;
- consecutive nodes are all the same distance apart;
- no two peripheral nodes are placed at the same position.

Facts about the code that the model follows:

- **Ring centre.** The ring is placed around `(centerX, centerY)`, half the width and half the height (page.tsx:77-78).
- **Validation.** The viewer's own code validates nothing: a duplicate node id passes unnoticed, and a link naming an unknown id makes the force library throw during set-up (page.tsx:84-87), which is left out. `WellFormed` is only stated of the example graph.
- **Ring size.** The angle step divides by the number of peripheral nodes, not by the number of all nodes (page.tsx:75). A graph without `"main"` has every node on the ring, and `n` counts them all.
- **Drag end.** A dragged node stays pinned after the drag ends. The code that would unpin it is commented out.

## Model

| member | source | states |
|---|---|---|
| `Graph.SimNode.constructor` | mira_frontend/src/app/page.tsx:67-71 | a node object created from a record holds exactly that record (the `{ ...node }` copy) |
| `Graph.ViewAll` | mira_frontend/src/app/page.tsx:67-71 | the records held by a list of node objects, element by element and in order |
| `Layout.CanvasCentre` | mira_frontend/src/app/page.tsx:61-64 | the centre is half the width and half the height |
| `Layout.PinRootEach` | mira_frontend/src/app/page.tsx:67-71 | element `k` of the pinned list is node `k` with the root pin applied (the `map` is element-wise) |
| `Layout.PinRoot` | mira_frontend/src/app/page.tsx:67-71 | same length and order; a node with id "main" gets `fx, fy` at the centre and every other field stays; every other node is an unchanged copy |
| `Layout.Peripheral` | mira_frontend/src/app/page.tsx:74 | the filtered list is no longer than the input and every element has an id other than "main" |
| `Layout.PeripheralMembers` | mira_frontend/src/app/page.tsx:74 | the filter keeps exactly the non-root nodes: every element comes from the input, and every input node whose id is not "main" is kept |
| `Layout.PeripheralAppend` | mira_frontend/src/app/page.tsx:74 | the filter distributes over concatenation, so input order is kept |
| `Layout.PeripheralOfNonRoots` | mira_frontend/src/app/page.tsx:74 | a list with no "main" node is its own peripheral list |
| `Layout.RootFirstPeripheral` | mira_frontend/src/app/page.tsx:74 | a list whose only "main" node is its first has its tail as peripheral list |
| `Layout.PeripheralOfPinned` | mira_frontend/src/app/page.tsx:67-74 | pinning the root changes neither which nodes are peripheral nor the nodes themselves |
| `Layout.PlaceEach` | mira_frontend/src/app/page.tsx:76-79 | the peripheral list after the loop: element `i` is at `centre + 180·dirs[i]` |
| `Layout.Star` | mira_frontend/src/app/page.tsx:74-79 | the whole list after the loop through the filtered list: only `x, y` of peripheral nodes change, and root nodes are untouched |
| `Layout.PeripheralOfStar` | mira_frontend/src/app/page.tsx:74-79 | the peripheral nodes of the placed list are the input's peripheral nodes placed in order |
| `Layout.StarUnique` | mira_frontend/src/app/page.tsx:74-79 | any list that keeps ids and root nodes, and whose peripheral nodes are the placed ones, equals `Star` (the in-place writes through the filtered list have exactly this effect) |
| `Layout.PlaceEachCons` | mira_frontend/src/app/page.tsx:76-79 | placing a list with a head places the head in the first direction and the tail in the rest |
| `Layout.StarUniqueStep` | mira_frontend/src/app/page.tsx:74-79 | the head case of that uniqueness argument |
| `Layout.PlacedOnCircle` | mira_frontend/src/app/page.tsx:77-78 | a node placed in a unit direction is exactly 180 from the centre |
| `Layout.PlacedChord` | mira_frontend/src/app/page.tsx:77-78 | two nodes placed one rotation step apart are 180 times the step's chord apart |
| `Layout.RingDistinct` | mira_frontend/src/app/page.tsx:75-79 | nodes placed in pairwise different directions land at pairwise different positions |
| `Layout.RingEquidistant` | mira_frontend/src/app/page.tsx:75-79 | with directions turning by one step, every node is the same distance from the next one, and the last from the first |
| `Layout.LayoutKeepsNodes` | mira_frontend/src/app/page.tsx:67-79 | after set-up: same ids, labels, types and parents in the same order; roots pinned at the centre with `x, y` not touched; non-roots keep their pins |
| `Layout.LayoutRing` | mira_frontend/src/app/page.tsx:74-79 | after set-up the peripheral nodes are, in input order, the placed input nodes, each at distance 180 from the centre |
| `Layout.LayoutSpread` | mira_frontend/src/app/page.tsx:74-79 | with equally spaced directions no two peripheral nodes of the layout share a position |
| `Layout.RootFirstLayout` | mira_frontend/src/app/page.tsx:67-79 | when the first node is the only root: the laid-out list is that node pinned at the centre followed by the other nodes placed in order |
| `Layout.InitialLayout` | mira_frontend/src/app/page.tsx:67-79 | the whole set-up as a value: pin the root, then place the ring; same length as the input |
| `Layout.NoPeripheralNoPlacement` | mira_frontend/src/app/page.tsx:75-79 | with no peripheral node the placement step assigns nothing |
| `Layout.PeripheralRefs` | mira_frontend/src/app/page.tsx:74 | the filter on node objects keeps only objects of the list whose id is not "main" |
| `Layout.ViewPeripheralRefs` | mira_frontend/src/app/page.tsx:74 | filtering objects and then reading them gives the filtered records |
| `Layout.PeripheralRefsDistinct` | mira_frontend/src/app/page.tsx:74 | the filtered list of distinct objects has no duplicates (so the loop's writes do not interfere) |
| `Layout.CopyNodes` | mira_frontend/src/app/page.tsx:67-71 | the pinning map yields fresh, distinct node objects holding `PinRoot` of the input |
| `Layout.PlaceRing` | mira_frontend/src/app/page.tsx:76-79 | the `forEach` writes object `i` to direction `dirs[i]` and changes no other object |
| `Layout.SetUpLayout` | mira_frontend/src/app/page.tsx:61-79 | map, filter and in-place loop together leave the objects holding `InitialLayout` of the input |
| `Ring.RotateNorm` | mira_frontend/src/app/page.tsx:75-78 | turning a direction multiplies its squared length by that of the rotation |
| `Ring.EquallySpacedUnit` | mira_frontend/src/app/page.tsx:75-78 | each direction `i·2π/n`, obtained by repeated turning from `(1, 0)` by a unit step, is a unit vector |
| `Ring.AllUnit` | mira_frontend/src/app/page.tsx:75-78 | all ring directions are unit vectors |
| `Ring.RotateInjective` | mira_frontend/src/app/page.tsx:75-78 | turning by a unit direction can be undone, so two directions that turn into the same one are equal |
| `Ring.EquallySpacedDistinct` | mira_frontend/src/app/page.tsx:75-78 | a ring that first returns to `(1, 0)` after `n` steps visits no direction twice |
| `Ring.AllDistinct` | mira_frontend/src/app/page.tsx:75-78 | all directions of an equally spaced ring are pairwise different |
| `Ring.ChordLength` | mira_frontend/src/app/page.tsx:75-78 | turning a unit direction by one step moves it by a distance that depends only on the step |
| `Render.EdgeStroke` | mira_frontend/src/app/page.tsx:101-104 | "contains" gives `#aaa`, width 2, dash "6,4"; any other type, or none, gives `#999`, width 3, dash "0"; opacity always 0.7 |
| `Render.DashedIffContains` | mira_frontend/src/app/page.tsx:101-104 | a link is dashed exactly when it is a containment link, and a dashed stroke is thinner and of another colour than a solid one |
| `Render.ShapeOf` | mira_frontend/src/app/page.tsx:107-145 | class is a 100×60 rectangle, method a 90×60 rectangle, function a circle of radius 28 |
| `Render.Transform` | mira_frontend/src/app/page.tsx:185-194 | the group translation moves the shape's own centre onto the node's simulated centre |
| `Render.TransformCentresShape` | mira_frontend/src/app/page.tsx:185-194 | transform = centre minus the shape's own centre offset: class `(x-50, y-30)`, method `(x-45, y-30)`, function `(x, y)`, a missing coordinate read as 0 |
| `Render.LabelOffset` | mira_frontend/src/app/page.tsx:197-209 | the label offset is the centre of the node's shape |
| `Render.LabelAtCentre` | mira_frontend/src/app/page.tsx:197-209 | the label offset is the shape's centre (class (50,30), method (45,30), function (0,0)), so transform + label offset = node centre for every type |
| `Render.EndPoint` | mira_frontend/src/app/page.tsx:178-182 | a resolved end is drawn at its node object's current coordinates (0 when missing); an unresolved end at (0, 0) |
| `Render.LinkLine` | mira_frontend/src/app/page.tsx:178-182 | a link's line runs from its source end point to its target end point |
| `Render.LinesMeetLabels` | mira_frontend/src/app/page.tsx:178-209 | a resolved end of a line is exactly where that node's label is drawn: lines join centres, with no clipping |
| `Drag.Simulation.constructor` | mira_frontend/src/app/page.tsx:81-91 | a new simulation has alpha target 0 |
| `Drag.StartAlpha` | mira_frontend/src/app/page.tsx:151 | a drag start sets the alpha target to 0.3 when no other drag is active, and otherwise leaves it |
| `Drag.EndAlpha` | mira_frontend/src/app/page.tsx:160 | a drag end sets the alpha target to 0 when no other drag is active, and otherwise leaves it |
| `Drag.PinAt` | mira_frontend/src/app/page.tsx:152-157 | re-pinning changes `fx, fy` and no other field |
| `Drag.MoveAllPinsAtLast` | mira_frontend/src/app/page.tsx:155-158 | after any moves the pin is at the last pointer position and only the pin changed |
| `Drag.StartNode` | mira_frontend/src/app/page.tsx:152-153 | after a drag start the node is pinned at its own `x, y`, nothing else changed |
| `Drag.MoveNode` | mira_frontend/src/app/page.tsx:156-157 | after a drag move the node is pinned at the pointer, nothing else changed |
| `Drag.LoneGesture` | mira_frontend/src/app/page.tsx:150-165 | a lone gesture ends with alpha target 0 and the node still pinned: at the last pointer position, or at its start position when it never moved; the handlers never write `x, y` |
| `Drag.DragStarted` | mira_frontend/src/app/page.tsx:150-154 | `fx := x, fy := y` on the dragged node; alpha target by `StartAlpha`; nothing else is modified |
| `Drag.Dragged` | mira_frontend/src/app/page.tsx:155-158 | `fx, fy` := pointer on the dragged node; nothing else is modified |
| `Drag.DragEnded` | mira_frontend/src/app/page.tsx:159-165 | only the alpha target changes (by `EndAlpha`); the node, and so its pin, is untouched |
| `Page.Centre` | mira_frontend/src/app/page.tsx:61-64 | the page's centre is (400, 300) |
| `Page.ExampleIds` | mira_frontend/src/app/page.tsx:35-42 | the example's five node ids, in order |
| `Page.ExampleUniqueIds` | mira_frontend/src/app/page.tsx:35-42 | no two example nodes share an id |
| `Page.ExampleLinksResolve` | mira_frontend/src/app/page.tsx:35-50 | both ends of every example link name an example node |
| `Page.ExampleParentsResolve` | mira_frontend/src/app/page.tsx:35-42 | the parent of every example method is an example node |
| `Page.ExampleRootFirst` | mira_frontend/src/app/page.tsx:35-42 | the example's first node is "main" and no other node is |
| `Page.ExamplePinned` | mira_frontend/src/app/page.tsx:67-71 | the example's root, pinned, is `main` with `fx, fy` = (400, 300) |
| `Page.ExampleWellFormed` | mira_frontend/src/app/page.tsx:35-50 | the example graph has unique ids, and every link end and parent names one of its nodes |
| `Page.QuarterTurnsTurning` | mira_frontend/src/app/page.tsx:75-78 | turning `(1, 0)` by a quarter turn runs through the directions at 0, π/2, π, 3π/2 and back |
| `Page.QuarterTurnsReturn` | mira_frontend/src/app/page.tsx:75-78 | the quarter turns come back to `(1, 0)` only after the fourth |
| `Page.QuarterTurnsSpaced` | mira_frontend/src/app/page.tsx:75-78 | the directions at 0, π/2, π, 3π/2 are equally spaced by a quarter turn |
| `Page.ExamplePeripheral` | mira_frontend/src/app/page.tsx:35-50 | the example's peripheral nodes are its last four, in input order |
| `Page.ExamplePlaced` | mira_frontend/src/app/page.tsx:76-79 | the example's ring positions are (580,300), (400,480), (220,300), (400,120) |
| `Page.ExampleLayout` | mira_frontend/src/app/page.tsx:35-79 | the laid-out example: main pinned at (400, 300), foo, foo_methodA, bar, bar_methodB at angles 0, π/2, π, 3π/2 |
| `Page.ExampleSpread` | mira_frontend/src/app/page.tsx:67-79 | on the page the example's four ring nodes are at four different positions |
| `Page.ExampleStrokes` | mira_frontend/src/app/page.tsx:43-48 | in the example, call links are drawn solid and containment links dashed |
| `Page.PageLayout` | mira_frontend/src/app/page.tsx:61-79 | on the page: roots pinned at (400, 300) with `x, y` untouched, ids and order kept, and peripheral nodes in order at distance 180 from (400, 300) |
| `Page.SetUp` | mira_frontend/src/app/page.tsx:58-79 | the page's set-up leaves fresh distinct objects holding the layout around (400, 300) |
| `Page.HandleKeyDown` | mira_frontend/src/app/page.tsx:52-56 | the page's own field loads the example graph on Enter and ignores other keys |
| `Page.PageAndConsoleOnEnter` | mira_frontend/src/app/page.tsx:52-56 | the page's handler loads the graph on Enter even with a blank field; the console's only when the field is not blank |
| `GraphView.Centre` | mira_frontend/src/app/components/GraphView.tsx:11-20 | the view's centre is (480, 360), from 960 × 720 |
| `GraphView.ViewLayout` | mira_frontend/src/app/components/GraphView.tsx:23-35 | in the view: roots pinned at (480, 360) with `x, y` untouched, non-roots keep their pins, ids and order kept, and peripheral nodes in order at distance 180 from (480, 360) |
| `GraphView.SetUp` | mira_frontend/src/app/components/GraphView.tsx:14-35 | the view's set-up leaves fresh distinct objects holding the layout around (480, 360) |
| `GraphView.LabelOffset` | mira_frontend/src/app/components/GraphView.tsx:149-159 | the view's label offset, with its "every other type" branch, is the centre of the node's shape |
| `GraphView.LabelsAsOnPage` | mira_frontend/src/app/components/GraphView.tsx:149-159 | the view's label offsets (with their "every other type" branch) equal the page's, so labels land on node centres |
| `PromptCli.TrimStart` | mira_frontend/src/app/components/promptCLI.tsx:19 | removes exactly the leading white space: a suffix whose first character is not white space |
| `PromptCli.TrimEnd` | mira_frontend/src/app/components/promptCLI.tsx:19 | removes exactly the trailing white space: a prefix whose last character is not white space |
| `PromptCli.Trim` | mira_frontend/src/app/components/promptCLI.tsx:19 | `trim()` is no longer than the field and neither starts nor ends with white space |
| `PromptCli.TrimIsCut` | mira_frontend/src/app/components/promptCLI.tsx:19 | `trim()` keeps a contiguous part of the field and cuts off only white space before and after it |
| `PromptCli.CutOfTails` | mira_frontend/src/app/components/promptCLI.tsx:19 | trimming the front and then the back is a single cut of the field |
| `PromptCli.TrimEmptyIffBlank` | mira_frontend/src/app/components/promptCLI.tsx:19 | `trim()` is empty exactly when every character is white space |
| `PromptCli.InputChanged` | mira_frontend/src/app/components/promptCLI.tsx:14-16 | the field takes the new value; history and graph are unchanged |
| `PromptCli.KeyDown` | mira_frontend/src/app/components/promptCLI.tsx:18-29 | Enter on a non-blank field: field "", the untrimmed field appended to the history, graph := example, whatever the text; anything else changes nothing |
| `PromptCli.SubmitsIffNotBlank` | mira_frontend/src/app/components/promptCLI.tsx:19 | a key press submits exactly when it is Enter and the field has a character that is not white space |
| `PromptCli.RunHistory` | mira_frontend/src/app/components/promptCLI.tsx:14-29 | over any run of edits and key presses the history only grows at its end, old entries keep their order, no blank entry is recorded, and the graph is unchanged or the example |
| `PromptCli.Console.constructor` | mira_frontend/src/app/components/promptCLI.tsx:10-11 | the console starts with an empty field and an empty history |
| `PromptCli.Console.HandleInputChange` | mira_frontend/src/app/components/promptCLI.tsx:14-16 | the object's new state is `InputChanged` of its old state |
| `PromptCli.Console.HandleKeyDown` | mira_frontend/src/app/components/promptCLI.tsx:18-29 | the object's new state is `KeyDown` of its old state |

The graph view duplicates the page's set-up, stroke, drag and tick code: GraphView.tsx lines 23-35, 57-60, 104-118 and 130-146 match page.tsx lines 67-79, 101-104, 150-165 and 178-194. The model writes that code once, in `Layout`, `Render` and `Drag`. The two views differ only in the canvas size (`Page.Centre`, `GraphView.Centre`) and in how the label offsets are written (`GraphView.LabelsAsOnPage`). Both transforms also have a `return ''` branch for a type outside class, method and function; the three-valued `NodeType` leaves no such type.

## Left out

- The force simulation (link distance 180, charge -700, centring force, alpha 1, decay 0.03): this is iterative floating-point physics inside the library. Only the `alphaTarget` field the handlers write is modelled.
- `restart()` after raising the alpha target: it only reschedules the library's timer.
- Link resolution from ids to node objects, done inside the library (which also throws on an unknown id): `LinkEnd` holds either form, and `EndPoint` covers both.
- Trigonometry: `Math.cos` and `Math.sin` are replaced by the given directions `dirs`. `EquallySpaced` captures the spacing `i·2π/n` except for the rotation's angle: any turn by `2πk/n` that visits all `n` directions before closing is accepted, so the order in which the nodes go round the circle is not fixed.
- `Drag.Gesture` composes the three handlers with no simulation ticks between them. In the viewer each tick moves a pinned node's `x, y` to its pin, which is how the node follows the pointer; `LoneGesture` says only that the handlers themselves never write `x, y`.
- Floating point: coordinates are exact reals. Rounding, NaN and infinities (such as the unused `2π/0` angle step) are not modelled.
- `fx`/`fy` being `undefined` versus `null`: both are `None`.
- Strings for `transform` and label attributes: these are modelled as pairs of numbers.
- SVG and DOM plumbing: clearing, appending, fills, corner radii, the text anchor and font, node stroke styles, and the JSX layout.
- React scheduling: `useEffect` re-running on a new graph, `simulation.stop()` on clean-up, `useRef`, `scrollIntoView` and `console.log` in the console. State updates are taken as applied in order.
- The page's `onChange` for its own field (`setPrompt`): it only stores the text, which the page's key handler never reads.
- The console's commented-out test for one specific command: it is not active code.
