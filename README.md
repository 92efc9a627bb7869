# ASCII 3-D spinner: the character-grid rasterizer, in Dafny

`spinner.js` draws rotating 3-D shapes as text. Its class `Shape3D` holds a character
grid (`screen`) and a parallel depth buffer (`zBuffer`), both `height` rows of
`width` cells. Drawing is a strict "nearest wins" depth test per cell. Lines are
walked with Bresenham's integer error accumulator. Polygons are filled by scanning
their bounding box with the even-odd crossing test. The sphere adds a second
"detail" pass with its own overwrite rule. Mouse and wheel handlers change the
rotation angles and zoom, and two page-level functions cycle the shape and reset
the view. After each frame the grid is joined into one string, rows separated by
`'\n'`.

This project models that core and proves properties of it.

- `Spinner.Shape3D` (shape3d.dfy) is the class itself.
  - The grids are `array2<char>` and `array2<Depth>`, with `Depth = NegInf | D(real)`.
  - The view state is held in mutable fields.
  - `clear`, `drawPoint`, `drawLine`, `fillFace`, the sphere's two cell writes and the handlers are methods.
  - Each method states the whole new grid, cell by cell, or the new view state, in terms of the pure definitions below.
- `Screen`: the cell algebra. `Plot` is one depth-tested write and `PlotAll` a sequence of writes. It also holds the `' ░▒▓█'` shade ramp.
- `Bresenham`: the loop state of `drawLine` after k passes (`Walk`) and the points the loop visits (`LinePoints`). It proves the loop invariant that makes the walk terminate at the target.
- `Polygon`: the crossing test, the mean depth and the scan box. `PointInPolygon` is the loop of `pointInPolygon`.
- `SphereShading`: the sphere's ramp `'   ....::::ooooOOOO@@@@'`, the two lighting-to-bucket formulas and the two per-cell write rules.
- `View`: the handlers as functions of the view state, and `project`.
- `Text`: joining and splitting rows.

Integer screen coordinates are exact: `project` rounds them with `Math.round`. Depths,
angles and the zoom are modelled as exact reals.

The sphere's detail pass does not follow the "depth only increases" rule that holds
for every other write. A cell whose glyph is a blank is overwritten whatever its
stored depth, and the coarse pass writes blanks, since the ramp begins with three
blanks. A detail sample can therefore replace a nearer coarse sample and move the
stored depth backwards. The model follows the code (`SphereShading.DetailCanLowerDepth`
shows such a case).

## Model

| member | source | states |
|---|---|---|
| Spinner.Shape3D.constructor | spinner.js:2-28 | both grids are allocated at the given size with every cell blank at depth -Infinity; the view starts unrotated at zoom 0.8 on 'cube', not dragging |
| Spinner.Shape3D.Clear | spinner.js:69-76 | afterwards every cell is `' '` at depth -Infinity, and the serialised frame is `height` lines of `width` blanks |
| Spinner.Shape3D.BlankFrame | spinner.js:659 | a grid of blanks serialises to the blank text of its size |
| Spinner.Shape3D.Frame | spinner.js:659 | the rows of the grid joined with '\n': `height * (width + 1) - 1` characters for a non-empty grid, the empty string for none |
| Spinner.Shape3D.FrameRows | spinner.js:659 | with no newline glyph, the joined frame splits back into the grid's rows and has `height * (width + 1) - 1` characters |
| Text.SplitJoin | spinner.js:659 | splitting the joined rows on '\n' gives the rows back when no row holds '\n' |
| Text.JoinLength | spinner.js:659 | rows of equal width `w` join into `rows * (w + 1) - 1` characters |
| Text.BlankTextShape | spinner.js:69-76 | the cleared frame splits into `h` lines of `w` blanks and has `h * (w + 1) - 1` characters |
| Spinner.Shape3D.DrawPoint | spinner.js:130-139 | only the cell (x, y) can change, and only when it is on the grid; it takes the glyph and depth z exactly when z is strictly nearer than the stored depth |
| Screen.Plot | spinner.js:132-136 | the in-bounds write either keeps the cell or replaces it by the glyph at depth z, and never lowers the stored depth |
| Screen.PlotNeverLowers | spinner.js:132-136 | a write never lowers the stored depth and changes the cell only when the new depth is strictly nearer |
| Screen.PlotTieKeeps | spinner.js:132 | a write at a depth equal to the stored one keeps the old glyph |
| Screen.PlotCommutes | spinner.js:132-136 | two writes at different depths to one cell give the same result in either order, the nearer one's glyph |
| Screen.PlotAllNeverLowers | spinner.js:132-136 | any sequence of writes leaves the cell's depth at least where it was |
| Screen.PlotAllNearestWins | spinner.js:132-136 | after a sequence of writes the cell is untouched or holds the glyph at the depth of one write, and no write to it was strictly nearer |
| Screen.ShadeIndex | spinner.js:134 | an intensity in [0, 1] names an entry of the five-glyph ramp, the first one exactly below 0.25 and the last one exactly at 1 |
| Screen.ShadeIndexMonotone | spinner.js:134 | a brighter intensity never picks a darker ramp entry |
| Screen.ShadeGlyph | spinner.js:135 | the caller's glyph when one is given, else a ramp glyph, blank exactly below intensity 0.25 |
| Spinner.Shape3D.DrawLine | spinner.js:141-167 | every cell ends as the depth tests of the walk's points, in visiting order, leave it |
| Bresenham.Advance | spinner.js:157-166 | one pass moves at most one step toward the target along each axis and adds zStep to the depth |
| Bresenham.LinePoints | spinner.js:153-167 | the points the loop draws are its states after 0 to max(dx, dy) passes, max(dx, dy) + 1 of them |
| Bresenham.Step | spinner.js:157-166 | one pass of the loop body computes the next loop state |
| Bresenham.WalkOnTrack | spinner.js:153-167 | for the first Span passes the loop keeps its invariant and takes one step along the major axis per pass |
| Bresenham.AdvanceOnTrack | spinner.js:157-166 | a pass away from the target keeps the invariant and takes exactly one more step, never beyond Span |
| Bresenham.EndIffDone | spinner.js:156 | on track, the exit test holds exactly when Span steps are taken |
| Bresenham.LoopExit | spinner.js:153-156 | the exit test first holds after exactly max(dx, dy) passes, so the loop terminates |
| Bresenham.LinePointAt | spinner.js:153-154 | the k-th point drawn is the loop state after k passes |
| Bresenham.LineEnds | spinner.js:148-156 | the walk draws max(dx, dy) + 1 points, the first at (x1, y1, z1) and the last at (x2, y2) |
| Bresenham.LineReached | spinner.js:141-167 | the k-th point is k steps along the major axis, at most k along the minor one, never past the target, at the depth after k zSteps |
| Bresenham.LineStopsAtTarget | spinner.js:156 | no point before the last is the target |
| Bresenham.LineInBox | spinner.js:141-167 | every point lies in the bounding box of the endpoints |
| Bresenham.LineSteps | spinner.js:157-166 | consecutive points differ by 0 or one step toward the target in x and in y, and by zStep in depth |
| Bresenham.LineDepths | spinner.js:150-151 | the k-th point has depth z1 + k * zStep |
| Bresenham.DepthAtLinear | spinner.js:166 | adding zStep k times gives z1 + k * zStep |
| Bresenham.EndDepth | spinner.js:151 | with a non-zero span the last point is at depth z2 |
| Bresenham.ZeroLength | spinner.js:151 | a zero-length segment draws its one cell once, at depth z1 |
| Bresenham.Distinct | spinner.js:141-167 | no cell is visited twice |
| Bresenham.LineCell | spinner.js:153-154 | drawing a line leaves an unvisited cell alone and gives a visited cell one depth test at its point's depth |
| Bresenham.HorizontalExample | spinner.js:141-167 | (0,0,0)-(5,0,5) draws cells (k, 0) at depth k for k = 0..5 |
| Polygon.Inside | spinner.js:280-295 | the even-odd rule over the crossing count; a list of one or two vertices contains no point, its edges cancelling in pairs |
| Polygon.PointInPolygon | spinner.js:280-295 | the result is the parity of the number of edges (vertex i with the previous one, wrapping) that cross the ray to the right |
| Polygon.CrossesSymmetric | spinner.js:288-289 | the crossing test gives the same answer for an edge taken in either direction |
| Polygon.CrossXBetween | spinner.js:288-289 | a straddling edge meets the row between its two abscissae, and is never horizontal there |
| Polygon.FlatPolygonEmpty | spinner.js:288 | a polygon with all vertices on one row contains no point |
| Polygon.InsideWithinSpan | spinner.js:288 | a point inside lies strictly above some vertex and at or below another |
| Polygon.RotationInvariant | spinner.js:284 | starting the vertex list one vertex later changes neither the crossing count nor membership |
| Polygon.UnitSquare | spinner.js:280-295 | the square (0,0)-(1,0)-(1,1)-(0,1) contains exactly the point (0, 0) |
| Polygon.MeanDepth | spinner.js:297-299 | `interpolateZ`: the vertex depths summed left to right and divided by their number, one depth for the whole face (its bounds are `Polygon.MeanWithin`) |
| Polygon.MeanWithin | spinner.js:297-299 | the mean vertex depth lies between the least and the greatest vertex depth |
| Polygon.MeanOfLevel | spinner.js:297-299 | vertices all at one depth have that depth as mean |
| Polygon.MinX | spinner.js:265 | the least vertex column: attained by a vertex and below all others |
| Polygon.MaxX | spinner.js:266 | the greatest vertex column: attained and above all others |
| Polygon.MinY | spinner.js:267 | the least vertex row: attained and below all others |
| Polygon.MaxY | spinner.js:268 | the greatest vertex row: attained and above all others |
| Polygon.InsideRowsInBox | spinner.js:267-270 | every point inside the polygon lies on a scanned row |
| Polygon.InsideColumnsInBox | spinner.js:265-271 | every point inside the polygon lies in a scanned column: left of every vertex the crossings pair up |
| Polygon.FillExactlyInside | spinner.js:264-278 | the box filter loses nothing: the fill writes exactly the cells inside the polygon |
| Polygon.FillUnitSquare | spinner.js:264-278 | filling the unit square writes cell (0, 0) only, at depth 0 |
| Spinner.Shape3D.FillFace | spinner.js:264-278 | each cell in the scanned box that the crossing test puts inside gets one depth test at the mean vertex depth; every other cell is unchanged |
| SphereShading.Clamp01 | spinner.js:334 | the clamp lands in [0, 1] and is the identity there |
| SphereShading.BucketInRamp | spinner.js:337 | a lighting value in [0, 1] names a ramp entry, monotonically, the last exactly at 1 |
| SphereShading.CoarseIndex | spinner.js:326-338 | the coarse pass's index is inside the ramp for any inputs, because it clamps first |
| SphereShading.DetailIndex | spinner.js:367-370 | with Lambert and edge terms in [0, 1], the detail pass's unclamped index is inside the ramp |
| SphereShading.CoarseCell | spinner.js:342-345 | the coarse write keeps the cell or replaces it by the ramp glyph at depth z, and never lowers the stored depth |
| SphereShading.DetailCell | spinner.js:379-382 | the detail write keeps the cell or replaces it by the ramp glyph at depth z, and lowers the stored depth only of a blank cell |
| Spinner.Shape3D.CoarseWrite | spinner.js:341-346 | only cell (x, y) can change, by the ordinary strict depth test with the ramp glyph |
| Spinner.Shape3D.DetailWrite | spinner.js:374-383 | only cell (x, y) can change, and it does by the detail rule: blank, or within two buckets and strictly nearer |
| SphereShading.DetailFillsBlank | spinner.js:379 | a blank cell is overwritten whatever the depths |
| SphereShading.DetailCanLowerDepth | spinner.js:341-383 | a coarse blank at depth 5 is replaced by a detail sample at depth 1 |
| SphereShading.DetailOnInk | spinner.js:379 | on a non-blank cell the detail write never lowers the depth and keeps the cell unless strictly nearer |
| SphereShading.DetailKeepsDistantBucket | spinner.js:376-379 | a ramp glyph more than two buckets away is kept however near the sample |
| SphereShading.DetailOverForeignGlyph | spinner.js:376-379 | a glyph outside the ramp (bucket -1) is replaced only by the two blank buckets, and only from strictly nearer |
| Spinner.Shape3D.HandleWheel | spinner.js:692-701 | only the zoom changes, to the wheel step of the old zoom, and it lies in [0.1, 3.0] |
| View.WheelZoom | spinner.js:696-697 | whatever the old zoom and the wheel, the new zoom lies in [0.1, 3.0] |
| View.WheelStill | spinner.js:696-697 | deltaY = 0 leaves an in-range zoom unchanged |
| View.WheelDirection | spinner.js:696-697 | wheel up zooms in and wheel down zooms out, by at most one percent |
| View.WheelsInRange | spinner.js:692-701 | any burst of wheel events leaves the zoom in range |
| View.ClampZoom | spinner.js:697 | the clamp lands in [0.1, 3.0] and is the identity there |
| View.Sign | spinner.js:696 | `Math.sign`: -1, 0 or 1 with the sign of the argument |
| View.Wheel | spinner.js:692-701 | the wheel handler changes the zoom only |
| Spinner.Shape3D.HandleMouseDown | spinner.js:662-667 | a drag starts at the pointer; nothing else changes |
| View.MouseDown | spinner.js:662-665 | dragging is on and the pointer recorded; the rest is kept |
| Spinner.Shape3D.HandleMouseMove | spinner.js:669-685 | the angles turn by 0.005 per pixel of motion while dragging, and nothing changes when not dragging |
| View.MouseMove | spinner.js:669-681 | without a drag nothing changes; while dragging the pointer is recorded; only the X and Y angles and the pointer can change |
| View.MoveWhileIdle | spinner.js:670 | a move without a drag changes nothing |
| View.MoveKeepsRest | spinner.js:669-681 | a move never changes the Z angle, the zoom, the shape or the drag flag |
| View.DragTelescopes | spinner.js:672-681 | over a drag the angles change by the total pointer displacement, whatever the path |
| Spinner.Shape3D.HandleMouseUp | spinner.js:687-690 | the drag ends; nothing else changes |
| View.MouseUp | spinner.js:688 | dragging is off; the rest is kept |
| Spinner.ToggleShape | spinner.js:708-713 | the shape becomes the next one in the list of six, and is one of the six |
| View.NextShape | spinner.js:709-711 | the result is always one of the six names; an unknown name gives 'cube' |
| View.ShapePosition | spinner.js:710 | each of the six names is found at its own position |
| View.NextShapeStep | spinner.js:709-711 | each shape is followed by the next in the list, the last by the first |
| View.BearWrapsToCube | spinner.js:711 | 'bear' is followed by 'cube' |
| View.ToggleShape | spinner.js:708-713 | only the shape changes, to one of the six |
| Spinner.ResetControls | spinner.js:716-722 | the three angles become 0 and the zoom 1.0; nothing else changes |
| View.ResetControls | spinner.js:716-720 | angles to 0 and zoom to 1.0; the shape and the drag state are kept |
| View.ResetIdempotent | spinner.js:716-720 | resetting twice is resetting once, and the restored zoom is in range |
| View.Initial | spinner.js:4-26 | the starting state has an in-range zoom, one of the six shapes, and no drag |
| View.HandlersKeepSane | spinner.js:662-722 | every handler keeps the zoom in range and the shape one of the six |
| View.Round | spinner.js:87-88 | `Math.round` lies within one half of its argument |
| View.RoundWhole | spinner.js:87-88 | rounding a whole number gives it back |
| View.Project | spinner.js:78-91 | the projected cell is within half a cell of the exact zoomed, centred and raised position; the depth is z times zoom |
| Basics.IndexOf | spinner.js:710 | `indexOf`: the first position holding the value, or -1 exactly when it is absent |

## Left out

- `rotate` and `calculateShading` (spinner.js:93-128) compute with cos, sin and sqrt in floating point. The shading intensity is a parameter of `DrawPoint`, `DrawLine` and `FillFace`, required to lie in [0, 1] as a clamped dot product of unit vectors does.
- The shape generators `createCube`, `createSphere`, `createTorus`, `createHelix`, `createOctahedron` and `createBear` (spinner.js:170-634) are trig-driven float sampling loops. Only the sphere's two per-cell writes and its two lighting-to-bucket formulas are modelled. The lighting terms (Lambert term, edge term, position variation) are inputs.
- `update` (spinner.js:636-660): the dispatch to the generators and the `textContent` assignment are left out. The row join it performs is `Spinner.Shape3D.Frame`. The handlers' calls to `update` and the cursor-style changes are DOM effects and are left out too.
- `updateDimensions`, `initializeBuffers`, the resize listener and the event wiring in the constructor (spinner.js:30-67) read the window and the DOM. The grid size is a constructor parameter instead.
- The module-level singleton and the first render (spinner.js:705, 725): `Spinner.ToggleShape` and `Spinner.ResetControls` take the object as a parameter.
- Floating-point rounding: depths, angles, the zoom and the crossing abscissa of `pointInPolygon` are exact reals. `Math.round` of a point exactly halfway is modelled as rounding up, as `Math.round` does for positive and negative halves alike.
- NaN and Infinity: `interpolateZ` on an empty vertex list divides by zero. `Spinner.Shape3D.FillFace` never evaluates it, because with no vertices the scan box is empty. `Polygon.MeanDepth` requires a non-empty list.
- `drawLine` with non-integer endpoints is outside the model: coordinates are integers, as `project` makes them. In the source the loop ends only through the test `currentX === x2 && currentY === y2` (spinner.js:156), and `currentX - x1` and `currentY - y1` stay whole numbers. So the loop never ends when `x2 - x1` or `y2 - y1` is not a whole number (`drawLine(0, 0, 0, 0.5, 0, 0)` runs forever), while endpoints with whole-number differences, such as (0.5, 0) to (2.5, 0), still end at the target. This latent hang is reachable only by a caller that passes unrounded coordinates; every caller in the source passes the output of `project`. Typing the coordinates as integers excludes it, and that is what lets `Spinner.Shape3D.DrawLine` carry its termination measure.
- View.NextShape: the model proves each single step of the six-shape cycle (`View.NextShapeStep`), not the composed statement that six presses return to the starting shape.
