/** The view state the input handlers change: rotation angles, the wheel zoom with its
    clamp, the drag bookkeeping, and the shape selector. Each handler is a function
    from the old state to the new one; the DOM side (cursor style, re-render) is not
    part of it. */
module View {
  import opened Basics

  const MOUSE_SENSITIVITY: real := 0.005
  const ZOOM_SENSITIVITY: real := 0.001
  const MIN_ZOOM: real := 0.1
  const MAX_ZOOM: real := 3.0

  /** The six shapes in the order the selector cycles through them. */
  const SHAPES: seq<string> := ["cube", "sphere", "torus", "helix", "octahedron", "bear"]

  /** The fields of `Shape3D` that the handlers read and write. */
  datatype ViewState = ViewState(
    angleX: real, angleY: real, angleZ: real, zoom: real,
    currentShape: string,
    isDragging: bool, lastMouseX: int, lastMouseY: int)

  /** `Math.sign`. */
  function Sign(r: real): (s: int)
    ensures s == -1 || s == 0 || s == 1
    ensures (s == 0 <==> r == 0.0) && (s == 1 <==> r > 0.0)
  {
    if r > 0.0 then 1 else if r < 0.0 then -1 else 0
  }

  /** `Math.max(0.1, Math.min(3.0, v))`. */
  function ClampZoom(v: real): (r: real)
    ensures MIN_ZOOM <= r <= MAX_ZOOM
    ensures MIN_ZOOM <= v <= MAX_ZOOM ==> r == v
  {
    if v > MAX_ZOOM then MAX_ZOOM else if v < MIN_ZOOM then MIN_ZOOM else v
  }

  /** `handleWheel`: a step of one percent of the current zoom against the sign of
      `deltaY`, then the clamp; whatever the old zoom, the new one is in range. */
  function WheelZoom(zoom: real, deltaY: real): (z: real)
    ensures MIN_ZOOM <= z <= MAX_ZOOM
  {
    var delta := -(Sign(deltaY) as real) * ZOOM_SENSITIVITY * zoom;
    ClampZoom(zoom + delta * 10.0)
  }

  /** A wheel event without vertical motion leaves an in-range zoom as it is. */
  lemma WheelStill(zoom: real)
    requires MIN_ZOOM <= zoom <= MAX_ZOOM
    ensures WheelZoom(zoom, 0.0) == zoom
  {
  }

  /** Wheel up (negative deltaY) zooms in by at most one percent, wheel down zooms
      out by at most one percent, from any in-range zoom. */
  lemma WheelDirection(zoom: real, deltaY: real)
    requires MIN_ZOOM <= zoom <= MAX_ZOOM
    ensures deltaY < 0.0 ==> zoom <= WheelZoom(zoom, deltaY) <= zoom * 1.01
    ensures deltaY > 0.0 ==> zoom * 0.99 <= WheelZoom(zoom, deltaY) <= zoom
  {
  }

  /** A burst of wheel events, applied in order. */
  function Wheels(zoom: real, deltas: seq<real>): real
    decreases |deltas|
  {
    if |deltas| == 0 then zoom else Wheels(WheelZoom(zoom, deltas[0]), deltas[1..])
  }

  /** However many wheel events arrive, in whichever directions, the zoom stays in
      [0.1, 3.0] once any has arrived, and stays there if it started there. */
  lemma {:induction false} WheelsInRange(zoom: real, deltas: seq<real>)
    requires |deltas| > 0 || MIN_ZOOM <= zoom <= MAX_ZOOM
    ensures MIN_ZOOM <= Wheels(zoom, deltas) <= MAX_ZOOM
    decreases |deltas|
  {
    if |deltas| > 0 {
      WheelsInRange(WheelZoom(zoom, deltas[0]), deltas[1..]);
    }
  }

  /** `handleWheel` on the whole state: only the zoom changes. */
  function Wheel(v: ViewState, deltaY: real): (w: ViewState)
    ensures w.zoom == WheelZoom(v.zoom, deltaY) && w == v.(zoom := w.zoom)
  {
    v.(zoom := WheelZoom(v.zoom, deltaY))
  }

  /** `handleMouseDown`: a drag starts from the pointer position. */
  function MouseDown(v: ViewState, clientX: int, clientY: int): (w: ViewState)
    ensures w.isDragging && w.lastMouseX == clientX && w.lastMouseY == clientY
    ensures w.(isDragging := v.isDragging, lastMouseX := v.lastMouseX, lastMouseY := v.lastMouseY) == v
  {
    v.(isDragging := true, lastMouseX := clientX, lastMouseY := clientY)
  }

  /** `handleMouseMove`: while dragging, horizontal motion turns about Y and vertical
      motion about X, 0.005 radians per pixel, and the pointer position is recorded. */
  function MouseMove(v: ViewState, clientX: int, clientY: int): (w: ViewState)
    ensures !v.isDragging ==> w == v
    ensures v.isDragging ==> w.lastMouseX == clientX && w.lastMouseY == clientY
    ensures w.(angleX := v.angleX, angleY := v.angleY, lastMouseX := v.lastMouseX, lastMouseY := v.lastMouseY) == v
  {
    if !v.isDragging then v
    else
      var deltaX := clientX - v.lastMouseX;
      var deltaY := clientY - v.lastMouseY;
      v.(angleY := v.angleY + deltaX as real * MOUSE_SENSITIVITY,
         angleX := v.angleX + deltaY as real * MOUSE_SENSITIVITY,
         lastMouseX := clientX, lastMouseY := clientY)
  }

  /** `handleMouseUp`: the drag ends; nothing else changes. */
  function MouseUp(v: ViewState): (w: ViewState)
    ensures !w.isDragging && w.(isDragging := v.isDragging) == v
  {
    v.(isDragging := false)
  }

  /** Moving the pointer without a drag in progress changes nothing. */
  lemma MoveWhileIdle(v: ViewState, clientX: int, clientY: int)
    requires !v.isDragging
    ensures MouseMove(v, clientX, clientY) == v
  {
  }

  /** A drag never touches the Z angle, the zoom or the shape, and keeps dragging. */
  lemma MoveKeepsRest(v: ViewState, clientX: int, clientY: int)
    ensures var w := MouseMove(v, clientX, clientY);
      w.angleZ == v.angleZ && w.zoom == v.zoom && w.currentShape == v.currentShape && w.isDragging == v.isDragging
  {
  }

  /** A sequence of pointer moves, applied in order. */
  function Moves(v: ViewState, xs: seq<int>, ys: seq<int>): ViewState
    requires |xs| == |ys|
    decreases |xs|
  {
    if |xs| == 0 then v else Moves(MouseMove(v, xs[0], ys[0]), xs[1..], ys[1..])
  }

  /** During a drag the rotation depends only on where the pointer ends up: the
      angles change by the total displacement since the last recorded position,
      whatever path the pointer took. */
  lemma {:induction false} DragTelescopes(v: ViewState, xs: seq<int>, ys: seq<int>)
    requires v.isDragging && |xs| == |ys| && |xs| > 0
    ensures var w := Moves(v, xs, ys);
      && w.angleY == v.angleY + (xs[|xs| - 1] - v.lastMouseX) as real * MOUSE_SENSITIVITY
      && w.angleX == v.angleX + (ys[|ys| - 1] - v.lastMouseY) as real * MOUSE_SENSITIVITY
      && w.lastMouseX == xs[|xs| - 1] && w.lastMouseY == ys[|ys| - 1]
    decreases |xs|
  {
    var v' := MouseMove(v, xs[0], ys[0]);
    if |xs| > 1 {
      DragTelescopes(v', xs[1..], ys[1..]);
      assert xs[1..][|xs| - 2] == xs[|xs| - 1] && ys[1..][|ys| - 2] == ys[|ys| - 1];
    }
  }

  /** `toggleShape`: the shape after the current one in `SHAPES`, wrapping from the
      last to the first; a name not in the list counts as position -1 and so gives
      the first. */
  function NextShape(s: string): (t: string)
    ensures t in SHAPES
    ensures s !in SHAPES ==> t == SHAPES[0]
  {
    SHAPES[(IndexOf(SHAPES, s) + 1) % |SHAPES|]
  }

  /** The six names are distinct, so a name's position in `SHAPES` is the index
      that holds it. */
  lemma ShapePosition(i: int)
    requires 0 <= i < |SHAPES|
    ensures IndexOf(SHAPES, SHAPES[i]) == i
  {
  }

  /** Each shape is followed by the next one in the list, the last by the first. */
  lemma NextShapeStep(i: int)
    requires 0 <= i < |SHAPES|
    ensures NextShape(SHAPES[i]) == SHAPES[(i + 1) % |SHAPES|]
  {
    ShapePosition(i);
  }

  /** 'bear', the last shape, is followed by 'cube', the first. */
  lemma BearWrapsToCube()
    ensures NextShape("bear") == "cube"
  {
  }

  /** `toggleShape` on the whole state: only the shape changes. */
  function ToggleShape(v: ViewState): (w: ViewState)
    ensures w.currentShape in SHAPES && w == v.(currentShape := w.currentShape)
  {
    v.(currentShape := NextShape(v.currentShape))
  }

  /** `resetControls`: all three angles back to 0 and the zoom to 1.0; the shape and
      the drag state are kept. */
  function ResetControls(v: ViewState): (w: ViewState)
    ensures w.angleX == 0.0 && w.angleY == 0.0 && w.angleZ == 0.0 && w.zoom == 1.0
    ensures w.currentShape == v.currentShape && w.isDragging == v.isDragging
    ensures w.lastMouseX == v.lastMouseX && w.lastMouseY == v.lastMouseY
  {
    v.(angleX := 0.0, angleY := 0.0, angleZ := 0.0, zoom := 1.0)
  }

  /** Reset is idempotent, and the zoom it restores is in range. */
  lemma ResetIdempotent(v: ViewState)
    ensures ResetControls(ResetControls(v)) == ResetControls(v)
    ensures MIN_ZOOM <= ResetControls(v).zoom <= MAX_ZOOM
  {
  }

  /** The state the constructor starts from: no rotation, zoom 0.8, the cube, no drag. */
  function Initial(): (v: ViewState)
    ensures v.currentShape in SHAPES && MIN_ZOOM <= v.zoom <= MAX_ZOOM && !v.isDragging
  {
    ViewState(0.0, 0.0, 0.0, 0.8, "cube", false, 0, 0)
  }

  /** The state every handler keeps: the zoom in range and the shape one of the six. */
  predicate Sane(v: ViewState) {
    MIN_ZOOM <= v.zoom <= MAX_ZOOM && v.currentShape in SHAPES
  }

  /** Every handler preserves `Sane`, so no sequence of input events leaves it. */
  lemma HandlersKeepSane(v: ViewState, x: int, y: int, deltaY: real)
    requires Sane(v)
    ensures Sane(Wheel(v, deltaY)) && Sane(MouseDown(v, x, y)) && Sane(MouseMove(v, x, y))
    ensures Sane(MouseUp(v)) && Sane(ToggleShape(v)) && Sane(ResetControls(v))
  {
  }

  /** `Math.round`: the nearest integer, halves rounded up. */
  function Round(v: real): (r: int)
    ensures v - 0.5 < r as real <= v + 0.5
  {
    (v + 0.5).Floor
  }

  /** `project(point, scale)`: orthographic with zoom, centred horizontally and raised
      by a tenth of the height; the depth is scaled by the zoom only. */
  function Project(x: real, y: real, z: real, scale: real, zoom: real, width: nat, height: nat): (p: (int, int, real))
    ensures var ex, ey := x * scale * zoom + width as real / 2.0, y * scale * zoom + height as real / 2.0 - height as real * 0.1;
      ex - 0.5 < p.0 as real <= ex + 0.5 && ey - 0.5 < p.1 as real <= ey + 0.5
    ensures p.2 == z * zoom
  {
    var centerX := width as real / 2.0;
    var centerY := height as real / 2.0;
    var verticalOffset := -(height as real) * 0.1;
    (Round(x * scale * zoom + centerX), Round(y * scale * zoom + centerY + verticalOffset), z * zoom)
  }

  /** Rounding is exact on whole numbers, so a point that lands on a whole cell
      projects to that cell. */
  lemma RoundWhole(n: int)
    ensures Round(n as real) == n
  {
  }
}
