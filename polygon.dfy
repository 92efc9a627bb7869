/** Polygon membership and depth for `fillFace`: the even-odd crossing-number test of
    `pointInPolygon` (edge i joins vertex i with the previous vertex, the first one
    with the last), the flat mean depth of `interpolateZ`, and the integer bounding
    box the fill scans. Projected vertices have integer x and y (they come out of
    `Math.round`), so the crossing abscissa is an exact rational. */
module Polygon {
  import opened Basics
  import opened Screen

  /** The vertex edge i is paired with: `j` in `for (i = 0, j = n - 1; ...; j = i++)`. */
  function Prev(n: nat, i: nat): (j: nat)
    requires i < n
    ensures j < n && (i == 0 ==> j == n - 1) && (i > 0 ==> j == i - 1)
  {
    if i == 0 then n - 1 else i - 1
  }

  /** The abscissa where edge (vi, vj) meets the row `py`, for a non-horizontal edge. */
  function CrossX(py: int, vi: ScreenPoint, vj: ScreenPoint): real
    requires vi.y != vj.y
  {
    ((vj.x - vi.x) * (py - vi.y)) as real / (vj.y - vi.y) as real + vi.x as real
  }

  /** The edge straddles row `py` (one end strictly below it, the other not) and meets
      it strictly to the right of `px`. The division is only reached when the
      straddle test holds, so the edge is not horizontal there. */
  predicate Crosses(px: int, py: int, vi: ScreenPoint, vj: ScreenPoint) {
    (vi.y > py) != (vj.y > py) && (px as real) < CrossX(py, vi, vj)
  }

  /** Whether edge i of the polygon `vs` crosses the ray from (px, py). */
  predicate EdgeCrosses(px: int, py: int, vs: seq<ScreenPoint>, i: nat)
    requires i < |vs|
  {
    Crosses(px, py, vs[i], vs[Prev(|vs|, i)])
  }

  /** The number of edges among the first k that cross the ray. */
  function Crossings(px: int, py: int, vs: seq<ScreenPoint>, k: nat): nat
    requires k <= |vs|
  {
    if k == 0 then 0
    else Crossings(px, py, vs, k - 1) + (if EdgeCrosses(px, py, vs, k - 1) then 1 else 0)
  }

  /** Even-odd rule: the point is inside when an odd number of edges cross its ray.
      A list of one or two vertices encloses nothing: its edges cancel in pairs. */
  predicate Inside(px: int, py: int, vs: seq<ScreenPoint>): (b: bool)
    ensures b ==> |vs| >= 3
  {
    if |vs| == 1 then assert !EdgeCrosses(px, py, vs, 0); Crossings(px, py, vs, 1) % 2 == 1
    else if |vs| == 2 then CrossesSymmetric(px, py, vs[0], vs[1]);
      assert EdgeCrosses(px, py, vs, 0) == EdgeCrosses(px, py, vs, 1);
      assert Crossings(px, py, vs, 1) == if EdgeCrosses(px, py, vs, 0) then 1 else 0;
      Crossings(px, py, vs, 2) % 2 == 1
    else Crossings(px, py, vs, |vs|) % 2 == 1
  }

  /** `pointInPolygon([px, py], vs)`: toggles `inside` once per crossing edge. */
  method PointInPolygon(px: int, py: int, vs: seq<ScreenPoint>) returns (inside: bool)
    ensures inside == Inside(px, py, vs)
  {
    inside := false;
    var i, j := 0, |vs| - 1;
    while i < |vs|
      invariant 0 <= i <= |vs|
      invariant i < |vs| ==> j == Prev(|vs|, i)
      invariant inside == (Crossings(px, py, vs, i) % 2 == 1)
    {
      var xi, yi := vs[i].x, vs[i].y;
      var xj, yj := vs[j].x, vs[j].y;
      var intersect := (yi > py) != (yj > py)
        && (px as real) < ((xj - xi) * (py - yi)) as real / (yj - yi) as real + xi as real;
      if intersect {
        inside := !inside;
      }
      j, i := i, i + 1;
    }
  }

  /** The crossing test treats an edge the same in both directions. */
  lemma CrossesSymmetric(px: int, py: int, a: ScreenPoint, b: ScreenPoint)
    ensures Crosses(px, py, a, b) == Crosses(px, py, b, a)
  {
  }

  /** No edge crosses a row that lies below every vertex or at or above every vertex. */
  lemma {:induction false} CrossingsOutsideSpan(px: int, py: int, vs: seq<ScreenPoint>, k: nat)
    requires k <= |vs|
    requires (forall i :: 0 <= i < |vs| ==> vs[i].y > py) || (forall i :: 0 <= i < |vs| ==> vs[i].y <= py)
    ensures Crossings(px, py, vs, k) == 0
  {
    if k > 0 {
      CrossingsOutsideSpan(px, py, vs, k - 1);
      assert !EdgeCrosses(px, py, vs, k - 1) by {
        var j := Prev(|vs|, k - 1);
        assert (vs[k - 1].y > py) == (vs[j].y > py);
      }
    }
  }

  /** A point inside the polygon lies on a row strictly above some vertex and at or
      below some other one: rows outside the polygon's vertical span are never filled. */
  lemma InsideWithinSpan(px: int, py: int, vs: seq<ScreenPoint>)
    requires Inside(px, py, vs)
    ensures exists i :: 0 <= i < |vs| && vs[i].y > py
    ensures exists i :: 0 <= i < |vs| && vs[i].y <= py
  {
    if (forall i :: 0 <= i < |vs| ==> vs[i].y > py) || (forall i :: 0 <= i < |vs| ==> vs[i].y <= py) {
      CrossingsOutsideSpan(px, py, vs, |vs|);
    }
  }

  /** A polygon whose vertices all share one row contains no point at all. */
  lemma FlatPolygonEmpty(px: int, py: int, vs: seq<ScreenPoint>, row: int)
    requires forall i :: 0 <= i < |vs| ==> vs[i].y == row
    ensures !Inside(px, py, vs)
  {
    CrossingsOutsideSpan(px, py, vs, |vs|);
  }

  /** Starting the vertex list one vertex later shifts every edge by one index and
      moves edge 0 to the end. */
  lemma {:induction false} RotateCrossings(px: int, py: int, vs: seq<ScreenPoint>, k: nat)
    requires 1 <= |vs| && k < |vs|
    ensures var ws := vs[1..] + [vs[0]];
      Crossings(px, py, ws, k) + (if EdgeCrosses(px, py, vs, 0) then 1 else 0) == Crossings(px, py, vs, k + 1)
  {
    var ws := vs[1..] + [vs[0]];
    var n := |vs|;
    if k > 0 {
      RotateCrossings(px, py, vs, k - 1);
      assert ws[k - 1] == vs[k];
      assert ws[Prev(n, k - 1)] == vs[Prev(n, k)];
      assert EdgeCrosses(px, py, ws, k - 1) == EdgeCrosses(px, py, vs, k);
    }
  }

  /** The crossing count, hence membership, does not depend on which vertex the
      list starts from. */
  lemma RotationInvariant(px: int, py: int, vs: seq<ScreenPoint>)
    requires |vs| >= 1
    ensures Crossings(px, py, vs[1..] + [vs[0]], |vs|) == Crossings(px, py, vs, |vs|)
    ensures Inside(px, py, vs[1..] + [vs[0]]) == Inside(px, py, vs)
  {
    var ws := vs[1..] + [vs[0]];
    var n := |vs|;
    RotateCrossings(px, py, vs, n - 1);
    assert ws[n - 1] == vs[0];
    assert ws[Prev(n, n - 1)] == vs[Prev(n, 0)];
  }

  /** The unit square (0,0)-(1,0)-(1,1)-(0,1) contains exactly the cell (0, 0): its
      two vertical edges straddle only row 0, and only x = 0 lies left of the right
      edge and not left of the left one. */
  lemma UnitSquare(px: int, py: int)
    ensures var sq := [ScreenPoint(0, 0, 0.0), ScreenPoint(1, 0, 0.0), ScreenPoint(1, 1, 0.0), ScreenPoint(0, 1, 0.0)];
      Inside(px, py, sq) <==> px == 0 && py == 0
  {
    var sq := [ScreenPoint(0, 0, 0.0), ScreenPoint(1, 0, 0.0), ScreenPoint(1, 1, 0.0), ScreenPoint(0, 1, 0.0)];
    assert EdgeCrosses(px, py, sq, 0) <==> py == 0 && px < 0;
    assert !EdgeCrosses(px, py, sq, 1);
    assert EdgeCrosses(px, py, sq, 2) <==> py == 0 && px < 1;
    assert !EdgeCrosses(px, py, sq, 3);
    var e0 := if py == 0 && px < 0 then 1 else 0;
    var e2 := if py == 0 && px < 1 then 1 else 0;
    assert Crossings(px, py, sq, 1) == e0;
    assert Crossings(px, py, sq, 2) == e0;
    assert Crossings(px, py, sq, 3) == e0 + e2;
    assert Crossings(px, py, sq, 4) == e0 + e2;
  }

  /** `vertices.reduce((sum, v) => sum + v[2], 0)`: depths added left to right. */
  function SumZ(vs: seq<ScreenPoint>): real {
    if |vs| == 0 then 0.0 else SumZ(vs[..|vs| - 1]) + vs[|vs| - 1].z
  }

  /** `interpolateZ`: the arithmetic mean of the vertex depths, used for every cell of
      the face whatever its position. */
  function MeanDepth(vs: seq<ScreenPoint>): real
    requires |vs| > 0
  {
    SumZ(vs) / |vs| as real
  }

  lemma {:induction false} SumZBounds(vs: seq<ScreenPoint>, lo: real, hi: real)
    requires forall i :: 0 <= i < |vs| ==> lo <= vs[i].z <= hi
    ensures |vs| as real * lo <= SumZ(vs) <= |vs| as real * hi
  {
    if |vs| > 0 {
      SumZBounds(vs[..|vs| - 1], lo, hi);
    }
  }

  /** The mean depth lies between any bounds on the vertex depths. */
  lemma MeanWithin(vs: seq<ScreenPoint>, lo: real, hi: real)
    requires |vs| > 0
    requires forall i :: 0 <= i < |vs| ==> lo <= vs[i].z <= hi
    ensures lo <= MeanDepth(vs) <= hi
  {
    SumZBounds(vs, lo, hi);
    var n := |vs| as real;
    assert SumZ(vs) / n >= (n * lo) / n;
    assert SumZ(vs) / n <= (n * hi) / n;
  }

  /** A face whose vertices share one depth is drawn at exactly that depth. */
  lemma MeanOfLevel(vs: seq<ScreenPoint>, z: real)
    requires |vs| > 0
    requires forall i :: 0 <= i < |vs| ==> vs[i].z == z
    ensures MeanDepth(vs) == z
  {
    MeanWithin(vs, z, z);
  }

  /** `Math.min(...vs.map(p => p[0]))`: the least column of a non-empty vertex list. */
  function MinX(vs: seq<ScreenPoint>): (m: int)
    requires |vs| > 0
    ensures (exists i :: 0 <= i < |vs| && vs[i].x == m) && forall i :: 0 <= i < |vs| ==> m <= vs[i].x
  {
    if |vs| == 1 then vs[0].x
    else var m := MinX(vs[1..]); if vs[0].x < m then vs[0].x else m
  }

  /** `Math.max(...vs.map(p => p[0]))`. */
  function MaxX(vs: seq<ScreenPoint>): (m: int)
    requires |vs| > 0
    ensures (exists i :: 0 <= i < |vs| && vs[i].x == m) && forall i :: 0 <= i < |vs| ==> vs[i].x <= m
  {
    if |vs| == 1 then vs[0].x
    else var m := MaxX(vs[1..]); if vs[0].x > m then vs[0].x else m
  }

  /** `Math.min(...vs.map(p => p[1]))`. */
  function MinY(vs: seq<ScreenPoint>): (m: int)
    requires |vs| > 0
    ensures (exists i :: 0 <= i < |vs| && vs[i].y == m) && forall i :: 0 <= i < |vs| ==> m <= vs[i].y
  {
    if |vs| == 1 then vs[0].y
    else var m := MinY(vs[1..]); if vs[0].y < m then vs[0].y else m
  }

  /** `Math.max(...vs.map(p => p[1]))`. */
  function MaxY(vs: seq<ScreenPoint>): (m: int)
    requires |vs| > 0
    ensures (exists i :: 0 <= i < |vs| && vs[i].y == m) && forall i :: 0 <= i < |vs| ==> vs[i].y <= m
  {
    if |vs| == 1 then vs[0].y
    else var m := MaxY(vs[1..]); if vs[0].y > m then vs[0].y else m
  }

  /** The cell lies in the integer bounding box that `fillFace` scans. */
  predicate InBox(cx: int, cy: int, vs: seq<ScreenPoint>)
    requires |vs| > 0
  {
    MinX(vs) <= cx <= MaxX(vs) && MinY(vs) <= cy <= MaxY(vs)
  }

  /** The scan box is no loss: every point inside the polygon lies on a row of the box. */
  lemma InsideRowsInBox(px: int, py: int, vs: seq<ScreenPoint>)
    requires Inside(px, py, vs)
    ensures |vs| > 0 && MinY(vs) <= py < MaxY(vs)
  {
    InsideWithinSpan(px, py, vs);
  }

  /** p / d lies in [0, 1] when p lies between 0 and d. */
  lemma RatioUnit(p: real, d: real)
    requires (d < 0.0 && d <= p <= 0.0) || (0.0 < d && 0.0 <= p <= d)
    ensures 0.0 <= p / d <= 1.0
  {
  }

  /** Scaling by a factor in [0, 1] stays between 0 and the scaled value. */
  lemma ScaleBetween(u: real, t: real)
    requires 0.0 <= t <= 1.0
    ensures if u >= 0.0 then 0.0 <= u * t <= u else u <= u * t <= 0.0
  {
  }

  /** Where an edge meets a row it straddles, the crossing lies between the edge's
      two abscissae. */
  lemma CrossXBetween(py: int, a: ScreenPoint, b: ScreenPoint)
    requires (a.y > py) != (b.y > py)
    ensures a.y != b.y
    ensures Min(a.x, b.x) as real <= CrossX(py, a, b) <= Max(a.x, b.x) as real
  {
    var u, p, d := (b.x - a.x) as real, (py - a.y) as real, (b.y - a.y) as real;
    RatioUnit(p, d);
    var t := p / d;
    assert ((b.x - a.x) * (py - a.y)) as real / d == u * t;
    ScaleBetween(u, t);
  }

  /** For a point left of both ends, an edge crosses exactly when it straddles the row. */
  lemma LeftEdge(px: int, py: int, a: ScreenPoint, b: ScreenPoint)
    requires px < a.x && px < b.x
    ensures Crosses(px, py, a, b) <==> (a.y > py) != (b.y > py)
  {
    if (a.y > py) != (b.y > py) {
      CrossXBetween(py, a, b);
    }
  }

  /** Some edge among the first k crosses whenever the count is positive. */
  lemma {:induction false} CrossingWitness(px: int, py: int, vs: seq<ScreenPoint>, k: nat)
    requires k <= |vs| && Crossings(px, py, vs, k) > 0
    ensures exists i :: 0 <= i < k && EdgeCrosses(px, py, vs, i)
  {
    if !EdgeCrosses(px, py, vs, k - 1) {
      CrossingWitness(px, py, vs, k - 1);
    }
  }

  /** For a point left of every vertex each straddling edge crosses, and the straddles
      of edges 1 .. k-1 alternate the side of the row, so their parity is whether
      vertex k-1 lies on the other side from vertex 0. */
  lemma {:induction false} LeftCrossings(px: int, py: int, vs: seq<ScreenPoint>, k: nat)
    requires 1 <= k <= |vs|
    requires forall i :: 0 <= i < |vs| ==> px < vs[i].x
    ensures var e0 := if EdgeCrosses(px, py, vs, 0) then 1 else 0;
      var side := if (vs[0].y > py) != (vs[k - 1].y > py) then 1 else 0;
      Crossings(px, py, vs, k) % 2 == (e0 + side) % 2
  {
    if k > 1 {
      LeftCrossings(px, py, vs, k - 1);
      assert Prev(|vs|, k - 1) == k - 2;
      LeftEdge(px, py, vs[k - 1], vs[k - 2]);
    }
  }

  /** A point inside the polygon lies in the columns the fill scans: at or right of the
      leftmost vertex (left of every vertex the crossings pair up) and strictly left
      of the rightmost one (some crossing lies right of it). */
  lemma InsideColumnsInBox(px: int, py: int, vs: seq<ScreenPoint>)
    requires Inside(px, py, vs)
    ensures |vs| > 0 && MinX(vs) <= px < MaxX(vs)
  {
    var n := |vs|;
    CrossingWitness(px, py, vs, n);
    var i :| 0 <= i < n && EdgeCrosses(px, py, vs, i);
    CrossXBetween(py, vs[i], vs[Prev(n, i)]);
    if px < MinX(vs) {
      LeftCrossings(px, py, vs, n);
      LeftEdge(px, py, vs[0], vs[n - 1]);
      assert false;
    }
  }

  /** What `fillFace` leaves in cell (cx, cy): the glyph at the mean vertex depth, by
      the nearest-wins test, for a cell of the scanned box that the crossing test puts
      inside; any other cell is kept. */
  function FillCell(c: Cell, cx: int, cy: int, vs: seq<ScreenPoint>, g: char): Cell {
    if |vs| > 0 && InBox(cx, cy, vs) && Inside(cx, cy, vs) then Plot(c, MeanDepth(vs), g) else c
  }

  /** The box loses nothing: the fill draws exactly the cells inside the polygon. */
  lemma FillExactlyInside(c: Cell, cx: int, cy: int, vs: seq<ScreenPoint>, g: char)
    ensures FillCell(c, cx, cy, vs, g) == if Inside(cx, cy, vs) then Plot(c, MeanDepth(vs), g) else c
  {
    if Inside(cx, cy, vs) {
      InsideRowsInBox(cx, cy, vs);
      InsideColumnsInBox(cx, cy, vs);
    }
  }

  /** Filling the unit square at depth 0 draws cell (0, 0) only. */
  lemma FillUnitSquare(c: Cell, cx: int, cy: int, g: char)
    ensures var sq := [ScreenPoint(0, 0, 0.0), ScreenPoint(1, 0, 0.0), ScreenPoint(1, 1, 0.0), ScreenPoint(0, 1, 0.0)];
      FillCell(c, cx, cy, sq, g) == if cx == 0 && cy == 0 then Plot(c, 0.0, g) else c
  {
    var sq := [ScreenPoint(0, 0, 0.0), ScreenPoint(1, 0, 0.0), ScreenPoint(1, 1, 0.0), ScreenPoint(0, 1, 0.0)];
    UnitSquare(cx, cy);
    FillExactlyInside(c, cx, cy, sq, g);
    MeanOfLevel(sq, 0.0);
  }
}
