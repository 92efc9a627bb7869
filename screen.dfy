/** The cell algebra of the frame buffer: stored depths, the strict
    nearest-wins depth test of `drawPoint`, and the shade ramp used when a
    caller passes no glyph. */
module Screen {
  import opened Basics

  /** A stored depth: -Infinity after a clear, otherwise a finite depth. */
  datatype Depth = NegInf | D(value: real)

  /** The test `z > zBuffer[y][x]`; every finite depth is above -Infinity. */
  predicate Above(z: real, d: Depth) {
    d.NegInf? || z > d.value
  }

  /** `d1 <= d2` in the order with -Infinity at the bottom. */
  predicate AtMost(d1: Depth, d2: Depth) {
    d1.NegInf? || (d2.D? && d1.value <= d2.value)
  }

  /** One cell of the character grid together with its depth-buffer entry. */
  datatype Cell = Cell(glyph: char, depth: Depth)

  /** The content of every cell after a clear. */
  const BLANK: Cell := Cell(' ', NegInf)

  /** A projected point: integer column and row, real depth. */
  datatype ScreenPoint = ScreenPoint(x: int, y: int, z: real)

  /** The write `drawPoint` performs on an in-bounds cell. */
  function Plot(c: Cell, z: real, g: char): (r: Cell)
    ensures AtMost(c.depth, r.depth)
    ensures r == c || r == Cell(g, D(z))
  {
    if Above(z, c.depth) then Cell(g, D(z)) else c
  }

  /** The cell at (cx, cy) after the points `pts` were drawn in order with glyph `g`;
      points elsewhere leave it alone. */
  function PlotAll(c: Cell, cx: int, cy: int, pts: seq<ScreenPoint>, g: char): Cell
    decreases |pts|
  {
    if |pts| == 0 then c
    else
      var before := PlotAll(c, cx, cy, pts[..|pts| - 1], g);
      var p := pts[|pts| - 1];
      if p.x == cx && p.y == cy then Plot(before, p.z, g) else before
  }

  /** A write never lowers the stored depth, and it replaces the cell exactly
      when the new depth is strictly above the stored one. */
  lemma PlotNeverLowers(c: Cell, z: real, g: char)
    ensures AtMost(c.depth, Plot(c, z, g).depth)
    ensures Plot(c, z, g) != c <==> Above(z, c.depth) && (c.glyph != g || c.depth != D(z))
  {
  }

  /** A write at a depth equal to the stored one keeps the old glyph. */
  lemma PlotTieKeeps(c: Cell, z: real, g: char)
    requires c.depth == D(z)
    ensures Plot(c, z, g) == c
  {
  }

  /** Two writes at different depths commute: the nearer one wins whichever comes first. */
  lemma PlotCommutes(c: Cell, z1: real, g1: char, z2: real, g2: char)
    requires z1 != z2
    ensures Plot(Plot(c, z1, g1), z2, g2) == Plot(Plot(c, z2, g2), z1, g1)
    ensures Above(z1, c.depth) && z2 < z1 ==> Plot(Plot(c, z2, g2), z1, g1) == Cell(g1, D(z1))
  {
  }

  /** Drawing a sequence of points never lowers a cell's depth. */
  lemma {:induction false} PlotAllNeverLowers(c: Cell, cx: int, cy: int, pts: seq<ScreenPoint>, g: char)
    ensures AtMost(c.depth, PlotAll(c, cx, cy, pts, g).depth)
    decreases |pts|
  {
    if |pts| > 0 {
      var before := PlotAll(c, cx, cy, pts[..|pts| - 1], g);
      PlotAllNeverLowers(c, cx, cy, pts[..|pts| - 1], g);
      PlotNeverLowers(before, pts[|pts| - 1].z, g);
    }
  }

  /** Nearest wins over a whole sequence: the final cell is either untouched or holds
      `g` at the depth of one of the points drawn there, and no point drawn there lies
      strictly in front of the final depth. */
  lemma {:induction false} PlotAllNearestWins(c: Cell, cx: int, cy: int, pts: seq<ScreenPoint>, g: char)
    ensures var r := PlotAll(c, cx, cy, pts, g);
      r == c || exists k :: 0 <= k < |pts| && pts[k].x == cx && pts[k].y == cy && r == Cell(g, D(pts[k].z))
    ensures var r := PlotAll(c, cx, cy, pts, g);
      forall k :: 0 <= k < |pts| && pts[k].x == cx && pts[k].y == cy ==> !Above(pts[k].z, r.depth)
    decreases |pts|
  {
    if |pts| > 0 {
      var init := pts[..|pts| - 1];
      var p := pts[|pts| - 1];
      var before := PlotAll(c, cx, cy, init, g);
      var r := PlotAll(c, cx, cy, pts, g);
      PlotAllNearestWins(c, cx, cy, init, g);
      assert forall k :: 0 <= k < |init| ==> init[k] == pts[k];
      if before != c {
        var k :| 0 <= k < |init| && init[k].x == cx && init[k].y == cy && before == Cell(g, D(init[k].z));
        if r == before {
          assert pts[k].x == cx && pts[k].y == cy && r == Cell(g, D(pts[k].z));
        }
      }
      if r != before {
        assert pts[|pts| - 1] == p && r == Cell(g, D(p.z));
      }
      forall k | 0 <= k < |pts| && pts[k].x == cx && pts[k].y == cy
        ensures !Above(pts[k].z, r.depth)
      {
        if k < |init| {
          assert !Above(init[k].z, before.depth);
          PlotNeverLowers(before, p.z, g);
        }
      }
    }
  }

  /** Drawing one more point extends the fold by one write. */
  lemma PlotAllSnoc(c: Cell, cx: int, cy: int, pts: seq<ScreenPoint>, p: ScreenPoint, g: char)
    ensures PlotAll(c, cx, cy, pts + [p], g)
         == if p.x == cx && p.y == cy then Plot(PlotAll(c, cx, cy, pts, g), p.z, g) else PlotAll(c, cx, cy, pts, g)
  {
  }

  /** Points that all lie elsewhere leave the cell as it was. */
  lemma {:induction false} PlotAllMiss(c: Cell, cx: int, cy: int, pts: seq<ScreenPoint>, g: char)
    requires forall j :: 0 <= j < |pts| ==> !(pts[j].x == cx && pts[j].y == cy)
    ensures PlotAll(c, cx, cy, pts, g) == c
    decreases |pts|
  {
    if |pts| > 0 {
      PlotAllMiss(c, cx, cy, pts[..|pts| - 1], g);
    }
  }

  /** When exactly one point lands on the cell, the cell sees a single depth test at
      that point's depth. */
  lemma {:induction false} PlotAllOnce(c: Cell, cx: int, cy: int, pts: seq<ScreenPoint>, g: char, k: int)
    requires 0 <= k < |pts| && pts[k].x == cx && pts[k].y == cy
    requires forall j :: 0 <= j < |pts| && j != k ==> !(pts[j].x == cx && pts[j].y == cy)
    ensures PlotAll(c, cx, cy, pts, g) == Plot(c, pts[k].z, g)
    decreases |pts|
  {
    var init := pts[..|pts| - 1];
    if k == |pts| - 1 {
      PlotAllMiss(c, cx, cy, init, g);
    } else {
      PlotAllOnce(c, cx, cy, init, g, k);
      assert PlotAll(c, cx, cy, pts, g) == PlotAll(c, cx, cy, init, g);
    }
  }

  /** The ramp `' ░▒▓█'` that `drawPoint` falls back on, darkest first. */
  const SHADE_CHARS: string := " \U{2591}\U{2592}\U{2593}\U{2588}"

  /** `Math.floor(shading * (shadeChars.length - 1))` for a Lambertian intensity in [0, 1]. */
  function ShadeIndex(intensity: real): (i: int)
    requires 0.0 <= intensity <= 1.0
    ensures 0 <= i < |SHADE_CHARS|
    ensures i == 0 <==> intensity < 0.25
    ensures i == |SHADE_CHARS| - 1 <==> intensity == 1.0
  {
    (intensity * (|SHADE_CHARS| - 1) as real).Floor
  }

  /** A brighter surface never gets a darker ramp entry. */
  lemma ShadeIndexMonotone(i1: real, i2: real)
    requires 0.0 <= i1 <= i2 <= 1.0
    ensures ShadeIndex(i1) <= ShadeIndex(i2)
  {
  }

  /** `char || shadeChars[shadeIndex]`: the caller's glyph when there is one. */
  function ShadeGlyph(ch: Option<char>, intensity: real): (g: char)
    requires 0.0 <= intensity <= 1.0
    ensures ch.Some? ==> g == ch.value
    ensures ch.None? ==> g in SHADE_CHARS && (g == ' ' <==> intensity < 0.25)
  {
    match ch
    case Some(c) => c
    case None => SHADE_CHARS[ShadeIndex(intensity)]
  }
}
