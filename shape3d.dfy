/** The renderer object `Shape3D`: a character grid and a parallel depth grid, both
    `height` rows of `width` cells, the view state the input handlers change, and
    the rasterizer operations that write into the grids. Every drawing method is
    specified cell by cell against the pure definitions in `Screen`, `Bresenham`,
    `Polygon` and `SphereShading`; every handler against the state functions in
    `View`. */
module Spinner {
  import opened Basics
  import opened Screen
  import opened Text
  import Bresenham
  import Polygon
  import SphereShading
  import View

  class Shape3D {
    const width: nat
    const height: nat
    /** `screen[y][x]` of the source, indexed [y, x]. */
    const screen: array2<char>
    /** `zBuffer[y][x]` of the source, indexed [y, x]. */
    const zBuffer: array2<Depth>

    var angleX: real
    var angleY: real
    var angleZ: real
    var zoom: real
    var currentShape: string
    var isDragging: bool
    var lastMouseX: int
    var lastMouseY: int

    /** Both grids have `height` rows of `width` cells. */
    predicate Valid() {
      && screen.Length0 == height && screen.Length1 == width
      && zBuffer.Length0 == height && zBuffer.Length1 == width
    }

    predicate InBounds(x: int, y: int) {
      0 <= x < width && 0 <= y < height
    }

    /** The glyph and stored depth of cell (x, y). */
    function At(x: int, y: int): Cell
      requires Valid() && InBounds(x, y)
      reads screen, zBuffer
    {
      Cell(screen[y, x], zBuffer[y, x])
    }

    /** The view-state fields as one value. */
    ghost function State(): View.ViewState
      reads this
    {
      View.ViewState(angleX, angleY, angleZ, zoom, currentShape, isDragging, lastMouseX, lastMouseY)
    }

    /** The buffers start blank and the view starts unrotated at zoom 0.8 on the cube.
        The grid size, which the source measures from the window, is a parameter. */
    constructor (w: nat, h: nat)
      ensures Valid() && width == w && height == h && fresh(screen) && fresh(zBuffer)
      ensures State() == View.Initial()
      ensures forall x, y :: InBounds(x, y) ==> At(x, y) == BLANK
    {
      width, height := w, h;
      angleX, angleY, angleZ := 0.0, 0.0, 0.0;
      zoom := 0.8;
      screen := new char[h, w]((_, _) => ' ');
      zBuffer := new Depth[h, w]((_, _) => NegInf);
      currentShape := "cube";
      isDragging := false;
      lastMouseX, lastMouseY := 0, 0;
    }

    /** `clear`: every cell back to a blank glyph at depth -Infinity; the serialised
        frame is then `height` lines of `width` blanks. */
    method Clear()
      requires Valid()
      modifies screen, zBuffer
      ensures forall x, y :: InBounds(x, y) ==> At(x, y) == BLANK
      ensures Frame() == BlankText(width, height)
    {
      var y := 0;
      while y < height
        invariant 0 <= y <= height
        invariant forall cx, cy :: 0 <= cy < y && 0 <= cx < width ==> screen[cy, cx] == ' ' && zBuffer[cy, cx] == NegInf
      {
        var x := 0;
        while x < width
          invariant 0 <= x <= width
          invariant forall cx, cy :: 0 <= cy < y && 0 <= cx < width ==> screen[cy, cx] == ' ' && zBuffer[cy, cx] == NegInf
          invariant forall cx :: 0 <= cx < x ==> screen[y, cx] == ' ' && zBuffer[y, cx] == NegInf
        {
          screen[y, x] := ' ';
          zBuffer[y, x] := NegInf;
          x := x + 1;
        }
        y := y + 1;
      }
      BlankFrame();
    }

    /** The first n glyphs of row y, joined into a string. */
    function RowText(y: int, n: nat): (r: string)
      requires Valid() && 0 <= y < height && n <= width
      reads screen
      ensures |r| == n && forall x :: 0 <= x < n ==> r[x] == screen[y, x]
    {
      if n == 0 then [] else RowText(y, n - 1) + [screen[y, n - 1]]
    }

    /** The first n rows, each joined into a string. */
    function Rows(n: nat): (r: seq<string>)
      requires Valid() && n <= height
      reads screen
      ensures |r| == n && forall y :: 0 <= y < n ==> r[y] == RowText(y, width)
    {
      if n == 0 then [] else Rows(n - 1) + [RowText(n - 1, width)]
    }

    /** `screen.map(row => row.join('')).join('\n')`: the text shown for the frame. */
    function Frame(): (r: string)
      requires Valid()
      reads screen
      ensures height >= 1 ==> |r| == height * (width + 1) - 1
      ensures height == 0 ==> r == ""
    {
      JoinLength(Rows(height), width);
      JoinLines(Rows(height))
    }

    /** With every glyph blank, the frame is the blank text of the grid's size. */
    lemma BlankFrame()
      requires Valid()
      requires forall x, y :: 0 <= y < height && 0 <= x < width ==> screen[y, x] == ' '
      ensures Frame() == BlankText(width, height)
    {
      var rows := Rows(height);
      forall y | 0 <= y < height ensures rows[y] == Spaces(width) {
        var r := RowText(y, width);
        assert forall x :: 0 <= x < width ==> r[x] == ' ';
      }
      assert rows == seq(height, _ => Spaces(width));
    }

    /** The frame splits back into the grid's rows, `width` glyphs each, and has one
        separator between neighbouring rows, provided no glyph is a newline. */
    lemma FrameRows()
      requires Valid() && height >= 1
      requires forall x, y :: 0 <= y < height && 0 <= x < width ==> screen[y, x] != '\n'
      ensures SplitLines(Frame()) == Rows(height)
      ensures |Frame()| == height * (width + 1) - 1
    {
      var rows := Rows(height);
      forall y | 0 <= y < height ensures NoNewline(rows[y]) {
        var r := RowText(y, width);
        assert forall x :: 0 <= x < width ==> r[x] != '\n';
      }
      SplitJoin(rows);
      JoinLength(rows, width);
    }

    /** `drawPoint(x, y, z, char, normal)`: off-grid points are dropped; otherwise the
        cell takes the glyph (the caller's, or the ramp entry for the intensity) and
        depth `z` exactly when `z` is strictly nearer than the stored depth. No other
        cell changes. */
    method DrawPoint(x: int, y: int, z: real, ch: Option<char>, intensity: real)
      requires Valid() && 0.0 <= intensity <= 1.0
      modifies screen, zBuffer
      ensures forall cx, cy :: InBounds(cx, cy) ==>
        At(cx, cy) == if cx == x && cy == y then Plot(old(At(cx, cy)), z, ShadeGlyph(ch, intensity)) else old(At(cx, cy))
    {
      if x >= 0 && x < width && y >= 0 && y < height {
        if Above(z, zBuffer[y, x]) {
          var shadeIndex := ShadeIndex(intensity);
          screen[y, x] := if ch.Some? then ch.value else SHADE_CHARS[shadeIndex];
          zBuffer[y, x] := D(z);
        }
      }
    }

    /** `drawLine`: the Bresenham walk from (x1, y1) to (x2, y2) with depth stepped
        from z1 by zStep, each point drawn with `drawPoint`; every cell ends as the
        depth tests of the walk's points, in order, leave it. */
    method DrawLine(x1: int, y1: int, z1: real, x2: int, y2: int, z2: real, ch: Option<char>, intensity: real)
      requires Valid() && 0.0 <= intensity <= 1.0
      modifies screen, zBuffer
      ensures forall cx, cy :: InBounds(cx, cy) ==>
        At(cx, cy) == PlotAll(old(At(cx, cy)), cx, cy,
          Bresenham.LinePoints(Bresenham.Segment(x1, y1, z1, x2, y2, z2)), ShadeGlyph(ch, intensity))
    {
      ghost var s := Bresenham.Segment(x1, y1, z1, x2, y2, z2);
      ghost var g := ShadeGlyph(ch, intensity);
      var dx: int := Abs(x2 - x1);
      var dy: int := Abs(y2 - y1);
      var sx := if x1 < x2 then 1 else -1;
      var sy := if y1 < y2 then 1 else -1;
      var span := Max(dx, dy);
      var zStep := (z2 - z1) / (if span == 0 then 1 else span) as real;
      var t := Bresenham.Tracer(x1, y1, z1, dx - dy);
      assert dx == Bresenham.Dx(s) && dy == Bresenham.Dy(s) && sx == Bresenham.Sx(s) && sy == Bresenham.Sy(s);
      assert zStep == Bresenham.ZStep(s);
      ghost var k := 0;
      while true
        invariant 0 <= k <= Bresenham.Span(s) && t == Bresenham.Walk(s, k)
        invariant forall cx, cy :: InBounds(cx, cy) ==>
          At(cx, cy) == PlotAll(old(At(cx, cy)), cx, cy, Bresenham.Points(s, k), g)
        decreases Bresenham.Span(s) - k
      {
        Bresenham.LoopExit(s, k);
        ghost var drawn := Bresenham.Points(s, k);
        ghost var p := Bresenham.PointOf(t);
        DrawPoint(t.x, t.y, t.z, ch, intensity);
        forall cx, cy | InBounds(cx, cy)
          ensures At(cx, cy) == PlotAll(old(At(cx, cy)), cx, cy, drawn + [p], g)
        {
          PlotAllSnoc(old(At(cx, cy)), cx, cy, drawn, p, g);
        }
        k := k + 1;
        assert Bresenham.Points(s, k) == drawn + [p];
        if t.x == x2 && t.y == y2 {
          break;
        }
        t := Bresenham.Step(s, dx, dy, sx, sy, zStep, t);
      }
    }

    /** `fillFace`: scans the integer bounding box of the vertices row by row and draws
        each cell the crossing test puts inside the polygon, at the mean vertex depth.
        With no vertices the box is empty (`Math.min()` is Infinity) and nothing is
        drawn. Projected vertices are whole, so the box's floor and ceiling are the
        extreme coordinates themselves. */
    method FillFace(points: seq<ScreenPoint>, ch: Option<char>, intensity: real)
      requires Valid() && 0.0 <= intensity <= 1.0
      modifies screen, zBuffer
      ensures forall cx, cy :: InBounds(cx, cy) ==>
        At(cx, cy) == Polygon.FillCell(old(At(cx, cy)), cx, cy, points, ShadeGlyph(ch, intensity))
    {
      if |points| == 0 {
        return;
      }
      ghost var g := ShadeGlyph(ch, intensity);
      var minX, maxX := Polygon.MinX(points), Polygon.MaxX(points);
      var minY, maxY := Polygon.MinY(points), Polygon.MaxY(points);
      var y := minY;
      while y <= maxY
        invariant minY <= y <= maxY + 1
        invariant forall cx, cy :: InBounds(cx, cy) ==>
          At(cx, cy) == if cy < y then Polygon.FillCell(old(At(cx, cy)), cx, cy, points, g) else old(At(cx, cy))
        decreases maxY - y
      {
        var x := minX;
        while x <= maxX
          invariant minX <= x <= maxX + 1
          invariant forall cx, cy :: InBounds(cx, cy) ==>
            At(cx, cy) == if cy < y || (cy == y && cx < x) then Polygon.FillCell(old(At(cx, cy)), cx, cy, points, g) else old(At(cx, cy))
          decreases maxX - x
        {
          var inside := Polygon.PointInPolygon(x, y, points);
          if inside {
            var z := Polygon.MeanDepth(points);
            DrawPoint(x, y, z, ch, intensity);
          }
          x := x + 1;
        }
        y := y + 1;
      }
    }

    /** One write of the sphere's coarse pass (the cell rule of `createSphere`'s first
        loop): the ordinary bounds check and strict depth test, writing ramp entry
        `idx`. No other cell changes. */
    method CoarseWrite(x: int, y: int, z: real, idx: int)
      requires Valid() && 0 <= idx < |SphereShading.SPHERE_CHARS|
      modifies screen, zBuffer
      ensures forall cx, cy :: InBounds(cx, cy) ==>
        At(cx, cy) == if cx == x && cy == y then SphereShading.CoarseCell(old(At(cx, cy)), idx, z) else old(At(cx, cy))
    {
      if x >= 0 && x < width && y >= 0 && y < height {
        if Above(z, zBuffer[y, x]) {
          screen[y, x] := SphereShading.SPHERE_CHARS[idx];
          zBuffer[y, x] := D(z);
        }
      }
    }

    /** One write of the sphere's detail pass (the cell rule of `createSphere`'s second
        loop): an on-grid cell takes ramp entry `idx` at depth `z` when it is blank, or
        when its glyph's ramp position is within two of `idx` and `z` is strictly
        nearer. No other cell changes. */
    method DetailWrite(x: int, y: int, z: real, idx: int)
      requires Valid() && 0 <= idx < |SphereShading.SPHERE_CHARS|
      modifies screen, zBuffer
      ensures forall cx, cy :: InBounds(cx, cy) ==>
        At(cx, cy) == if cx == x && cy == y then SphereShading.DetailCell(old(At(cx, cy)), idx, z) else old(At(cx, cy))
    {
      if x >= 0 && x < width && y >= 0 && y < height {
        var currentChar := screen[y, x];
        var currentIndex := IndexOf(SphereShading.SPHERE_CHARS, currentChar);
        if currentChar == ' ' || (Abs(idx - currentIndex) <= 2 && Above(z, zBuffer[y, x])) {
          screen[y, x] := SphereShading.SPHERE_CHARS[idx];
          zBuffer[y, x] := D(z);
        }
      }
    }

    /** `handleWheel`: the zoom steps against the wheel direction and is clamped. */
    method HandleWheel(deltaY: real)
      modifies this`zoom
      ensures State() == View.Wheel(old(State()), deltaY)
      ensures View.MIN_ZOOM <= zoom <= View.MAX_ZOOM
    {
      var delta := -(View.Sign(deltaY) as real) * View.ZOOM_SENSITIVITY * zoom;
      zoom := View.ClampZoom(zoom + delta * 10.0);
    }

    /** `handleMouseDown`: a drag starts at the pointer. */
    method HandleMouseDown(clientX: int, clientY: int)
      modifies this`isDragging, this`lastMouseX, this`lastMouseY
      ensures State() == View.MouseDown(old(State()), clientX, clientY)
    {
      isDragging := true;
      lastMouseX := clientX;
      lastMouseY := clientY;
    }

    /** `handleMouseMove`: ignored unless dragging; otherwise turns the view by the
        pointer's motion since the last event. */
    method HandleMouseMove(clientX: int, clientY: int)
      modifies this`angleX, this`angleY, this`lastMouseX, this`lastMouseY
      ensures State() == View.MouseMove(old(State()), clientX, clientY)
      ensures !old(isDragging) ==> State() == old(State())
    {
      if !isDragging {
        return;
      }
      var deltaX := clientX - lastMouseX;
      var deltaY := clientY - lastMouseY;
      angleY := angleY + deltaX as real * View.MOUSE_SENSITIVITY;
      angleX := angleX + deltaY as real * View.MOUSE_SENSITIVITY;
      lastMouseX := clientX;
      lastMouseY := clientY;
    }

    /** `handleMouseUp`: the drag ends. */
    method HandleMouseUp()
      modifies this`isDragging
      ensures State() == View.MouseUp(old(State()))
    {
      isDragging := false;
    }
  }

  /** `toggleShape`: the renderer moves on to the next of the six shapes. */
  method ToggleShape(shape: Shape3D)
    modifies shape`currentShape
    ensures shape.State() == View.ToggleShape(old(shape.State()))
    ensures shape.currentShape in View.SHAPES
  {
    var shapes := View.SHAPES;
    var currentIndex := IndexOf(shapes, shape.currentShape);
    shape.currentShape := shapes[(currentIndex + 1) % |shapes|];
  }

  /** `resetControls`: angles back to 0 and zoom to 1.0. */
  method ResetControls(shape: Shape3D)
    modifies shape`angleX, shape`angleY, shape`angleZ, shape`zoom
    ensures shape.State() == View.ResetControls(old(shape.State()))
    ensures shape.angleX == 0.0 && shape.angleY == 0.0 && shape.angleZ == 0.0 && shape.zoom == 1.0
  {
    shape.angleX := 0.0;
    shape.angleY := 0.0;
    shape.angleZ := 0.0;
    shape.zoom := 1.0;
  }
}
