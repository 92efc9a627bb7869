/** The integer error-accumulator Bresenham walk of `drawLine`, as a pure
    function from a segment to the sequence of screen points it draws, with
    depth stepped by (z2 - z1) / (max(dx, dy) || 1) per step. */
module Bresenham {
  import opened Basics
  import opened Screen

  /** A segment between two projected points. */
  datatype Segment = Segment(x1: int, y1: int, z1: real, x2: int, y2: int, z2: real)

  function Dx(s: Segment): int { Abs(s.x2 - s.x1) }
  function Dy(s: Segment): int { Abs(s.y2 - s.y1) }
  function Sx(s: Segment): int { if s.x1 < s.x2 then 1 else -1 }
  function Sy(s: Segment): int { if s.y1 < s.y2 then 1 else -1 }

  /** The number of steps of the walk, max(dx, dy). */
  function Span(s: Segment): int { Max(Dx(s), Dy(s)) }

  /** `(z2 - z1) / (Math.max(dx, dy) || 1)`. */
  function ZStep(s: Segment): real {
    (s.z2 - s.z1) / (if Span(s) == 0 then 1 else Span(s)) as real
  }

  /** The loop variables `currentX`, `currentY`, `currentZ` and `err`. */
  datatype Tracer = Tracer(x: int, y: int, z: real, err: int)

  function Start(s: Segment): Tracer {
    Tracer(s.x1, s.y1, s.z1, Dx(s) - Dy(s))
  }

  /** The loop's exit test `currentX === x2 && currentY === y2`. */
  predicate AtEnd(s: Segment, t: Tracer) {
    t.x == s.x2 && t.y == s.y2
  }

  /** One pass of the loop body after the exit test. */
  function Advance(s: Segment, t: Tracer): (r: Tracer)
    ensures r.x == t.x || r.x == t.x + Sx(s)
    ensures r.y == t.y || r.y == t.y + Sy(s)
    ensures r.z == t.z + ZStep(s)
  {
    var e2 := 2 * t.err;
    var x := if e2 > -Dy(s) then t.x + Sx(s) else t.x;
    var err1 := if e2 > -Dy(s) then t.err - Dy(s) else t.err;
    var y := if e2 < Dx(s) then t.y + Sy(s) else t.y;
    var err2 := if e2 < Dx(s) then err1 + Dx(s) else err1;
    Tracer(x, y, t.z + ZStep(s), err2)
  }

  function PointOf(t: Tracer): ScreenPoint {
    ScreenPoint(t.x, t.y, t.z)
  }

  /** Steps taken along x (resp. y) from the start, counted toward the target. */
  function XWalked(s: Segment, x: int): int { if s.x1 < s.x2 then x - s.x1 else s.x1 - x }
  function YWalked(s: Segment, y: int): int { if s.y1 < s.y2 then y - s.y1 else s.y1 - y }

  /** Iterations performed so far: the larger of the two step counts. */
  function Walked(s: Segment, t: Tracer): int { Max(XWalked(s, t.x), YWalked(s, t.y)) }

  /** Where point `p` stands after `k` iterations: within the segment's box, `k`
      steps along the major axis, at depth z1 + k * zStep. */
  predicate Reached(s: Segment, p: ScreenPoint, k: int) {
    var a, b := XWalked(s, p.x), YWalked(s, p.y);
    && 0 <= a <= Dx(s) && 0 <= b <= Dy(s)
    && Max(a, b) == k
    && (Dy(s) <= Dx(s) ==> a == k)
    && (Dx(s) <= Dy(s) ==> b == k)
    && k >= 0 && p.z == DepthAt(s, k)
  }

  /** The linear part of the loop invariant over the step counts a, b and the
      deviation g = b * dx - a * dy of the walk from the ideal line: the counts stay
      within the segment, |2g| is at most the span, and the major axis is never
      behind the minor one. */
  predicate Balanced(a: int, b: int, dx: int, dy: int, g: int) {
    && 0 <= a <= dx && 0 <= b <= dy
    && -Max(dx, dy) <= 2 * g <= Max(dx, dy)
    && (dy <= dx ==> b <= a)
    && (dx <= dy ==> a <= b)
  }

  /** What the product g = b * dx - a * dy gives at the corners of the count box. */
  predicate Corners(a: int, b: int, dx: int, dy: int, g: int) {
    && (a == dx && b < dy ==> g <= -dx)
    && (b == dy && a < dx ==> g >= dy)
    && (a == b && dx == dy ==> g == 0)
  }

  /** The loop invariant: `err` is g + dx - dy for the deviation g, the counts are
      balanced, and the depth is z1 plus one zStep per iteration. */
  predicate OnTrack(s: Segment, t: Tracer) {
    var a, b := XWalked(s, t.x), YWalked(s, t.y);
    var dx, dy := Dx(s), Dy(s);
    var g := t.err - dx + dy;
    && Balanced(a, b, dx, dy, g)
    && g == Mul(b, dx) - Mul(a, dy)
    && t.z == DepthAt(s, Max(a, b))
  }

  lemma StartOnTrack(s: Segment)
    ensures OnTrack(s, Start(s)) && Walked(s, Start(s)) == 0
  {
  }

  /** m * n as repeated addition; the invariant uses it so that the solver meets
      no product of two unknowns. */
  function Mul(m: nat, n: int): int {
    if m == 0 then 0 else Mul(m - 1, n) + n
  }

  lemma {:induction false} MulZeroRight(m: nat)
    ensures Mul(m, 0) == 0
  {
    if m > 0 {
      MulZeroRight(m - 1);
    }
  }

  lemma {:induction false} MulSuccRight(m: nat, n: int)
    ensures Mul(m, n + 1) == Mul(m, n) + m
  {
    if m > 0 {
      MulSuccRight(m - 1, n);
    }
  }

  lemma {:induction false} MulCommutes(m: nat, n: nat)
    ensures Mul(m, n) == Mul(n, m)
    decreases n
  {
    if n == 0 {
      MulZeroRight(m);
    } else {
      MulCommutes(m, n - 1);
      MulSuccRight(m, n - 1);
    }
  }

  /** For a non-negative factor, more copies never give less. */
  lemma {:induction false} MulMonotone(m1: nat, m2: nat, n: nat)
    requires m1 <= m2
    ensures Mul(m1, n) <= Mul(m2, n)
    decreases m2
  {
    if m1 < m2 {
      MulMonotone(m1, m2 - 1, n);
    }
  }

  /** The depth after `k` iterations: z1 with `k` zSteps added one by one. */
  function DepthAt(s: Segment, k: nat): real {
    if k == 0 then s.z1 else DepthAt(s, k - 1) + ZStep(s)
  }

  /** The accumulated depth is z1 + k * zStep. */
  lemma {:induction false} DepthAtLinear(s: Segment, k: nat)
    ensures DepthAt(s, k) == s.z1 + k as real * ZStep(s)
  {
    if k > 0 {
      DepthAtLinear(s, k - 1);
    }
  }

  lemma CornersHold(a: nat, b: nat, dx: nat, dy: nat, g: int)
    requires Balanced(a, b, dx, dy, g) && g == Mul(b, dx) - Mul(a, dy)
    ensures Corners(a, b, dx, dy, g)
  {
    if a == dx && b < dy {
      MulMonotone(b + 1, dy, dx);
      MulCommutes(dx, dy);
      assert Mul(b + 1, dx) == Mul(b, dx) + dx;
    }
    if b == dy && a < dx {
      MulMonotone(a + 1, dx, dy);
      MulCommutes(dx, dy);
      assert Mul(a + 1, dy) == Mul(a, dy) + dy;
    }
  }

  /** A step on x subtracts dy from the deviation, a step on y adds dx. */
  lemma DeviationStep(a: nat, b: nat, dx: int, dy: int, g: int, stepX: bool, stepY: bool)
    requires g == Mul(b, dx) - Mul(a, dy)
    ensures g - (if stepX then dy else 0) + (if stepY then dx else 0)
         == Mul(if stepY then b + 1 else b, dx) - Mul(if stepX then a + 1 else a, dy)
  {
  }

  /** The walk is at the target exactly when the larger count reaches the span. */
  lemma EndArith(a: int, b: int, dx: int, dy: int, g: int)
    requires Balanced(a, b, dx, dy, g) && Corners(a, b, dx, dy, g)
    ensures (a == dx && b == dy) <==> Max(a, b) == Max(dx, dy)
  {
  }

  /** One iteration keeps the counts balanced and raises the larger count by one. */
  lemma StepArith(a: int, b: int, dx: int, dy: int, g: int)
    requires Balanced(a, b, dx, dy, g) && Corners(a, b, dx, dy, g)
    requires !(a == dx && b == dy)
    ensures var stepX, stepY := 2 * (g + dx - dy) > -dy, 2 * (g + dx - dy) < dx;
      var a', b' := if stepX then a + 1 else a, if stepY then b + 1 else b;
      var g' := g - (if stepX then dy else 0) + (if stepY then dx else 0);
      Balanced(a', b', dx, dy, g') && Max(a', b') == Max(a, b) + 1
  {
  }

  /** The whole integer part of one iteration: from counts (a, b) and deviation g
      that satisfy the invariant, the counts after the step satisfy it again. */
  lemma StepCounts(a: nat, b: nat, dx: int, dy: int, g: int)
    requires 0 <= dx && 0 <= dy
    requires Balanced(a, b, dx, dy, g) && g == Mul(b, dx) - Mul(a, dy)
    requires !(a == dx && b == dy)
    ensures var stepX, stepY := 2 * (g + dx - dy) > -dy, 2 * (g + dx - dy) < dx;
      var a', b' := if stepX then a + 1 else a, if stepY then b + 1 else b;
      var g' := g - (if stepX then dy else 0) + (if stepY then dx else 0);
      Balanced(a', b', dx, dy, g') && Max(a', b') == Max(a, b) + 1
      && g' == Mul(b', dx) - Mul(a', dy)
  {
    var stepX, stepY := 2 * (g + dx - dy) > -dy, 2 * (g + dx - dy) < dx;
    CornersHold(a, b, dx, dy, g);
    StepArith(a, b, dx, dy, g);
    DeviationStep(a, b, dx, dy, g, stepX, stepY);
  }

  /** On track, the walk is at the target exactly when it has taken Span steps. */
  lemma EndIffDone(s: Segment, t: Tracer)
    requires OnTrack(s, t)
    ensures AtEnd(s, t) <==> Walked(s, t) == Span(s)
  {
    var a, b := XWalked(s, t.x), YWalked(s, t.y);
    var g := t.err - Dx(s) + Dy(s);
    CornersHold(a, b, Dx(s), Dy(s), g);
    EndArith(a, b, Dx(s), Dy(s), g);
  }

  /** One iteration keeps the invariant and takes exactly one more step. */
  lemma AdvanceOnTrack(s: Segment, t: Tracer)
    requires OnTrack(s, t) && !AtEnd(s, t)
    ensures OnTrack(s, Advance(s, t))
    ensures Walked(s, Advance(s, t)) == Walked(s, t) + 1 <= Span(s)
  {
    EndIffDone(s, t);
    var t' := Advance(s, t);
    var a, b := XWalked(s, t.x), YWalked(s, t.y);
    var dx, dy := Dx(s), Dy(s);
    var g := t.err - dx + dy;
    assert !(a == dx && b == dy);
    StepCounts(a, b, dx, dy, g);
    var stepX, stepY := 2 * t.err > -dy, 2 * t.err < dx;
    var a', b' := if stepX then a + 1 else a, if stepY then b + 1 else b;
    assert XWalked(s, t'.x) == a';
    assert YWalked(s, t'.y) == b';
    assert t'.z == DepthAt(s, Max(a', b'));
  }

  /** One pass of `drawLine`'s loop body after the exit test, on its local variables:
      `e2 = 2 * err`, then the x step, then the y step, then the depth step. */
  method Step(ghost s: Segment, dx: int, dy: int, sx: int, sy: int, zStep: real, t: Tracer) returns (t': Tracer)
    requires dx == Dx(s) && dy == Dy(s) && sx == Sx(s) && sy == Sy(s) && zStep == ZStep(s)
    ensures t' == Advance(s, t)
  {
    var currentX, currentY, currentZ, err := t.x, t.y, t.z, t.err;
    var e2 := 2 * err;
    if e2 > -dy {
      err := err - dy;
      currentX := currentX + sx;
    }
    if e2 < dx {
      err := err + dx;
      currentY := currentY + sy;
    }
    currentZ := currentZ + zStep;
    t' := Tracer(currentX, currentY, currentZ, err);
  }

  /** The loop variables after k passes of the loop body. */
  function Walk(s: Segment, k: nat): Tracer {
    if k == 0 then Start(s) else Advance(s, Walk(s, k - 1))
  }

  /** The first Span passes keep the walk on track, one step per pass. */
  lemma {:induction false} WalkOnTrack(s: Segment, k: nat)
    requires k <= Span(s)
    ensures OnTrack(s, Walk(s, k)) && Walked(s, Walk(s, k)) == k
  {
    if k == 0 {
      StartOnTrack(s);
    } else {
      WalkOnTrack(s, k - 1);
      EndIffDone(s, Walk(s, k - 1));
      AdvanceOnTrack(s, Walk(s, k - 1));
    }
  }

  /** The loop's exit test first holds after exactly Span passes. */
  lemma LoopExit(s: Segment, k: nat)
    requires k <= Span(s)
    ensures AtEnd(s, Walk(s, k)) <==> k == Span(s)
  {
    WalkOnTrack(s, k);
    EndIffDone(s, Walk(s, k));
  }

  /** The loop's states before the first n exit tests, as points. */
  function Points(s: Segment, n: nat): (r: seq<ScreenPoint>)
    ensures |r| == n
  {
    if n == 0 then [] else Points(s, n - 1) + [PointOf(Walk(s, n - 1))]
  }

  /** Every point `drawLine` hands to `drawPoint`, in order: the loop's state before
      each exit test, from the start up to the pass that meets the target (see
      `LoopExit`). */
  function LinePoints(s: Segment): (r: seq<ScreenPoint>)
    ensures |r| == Span(s) + 1
  {
    Points(s, Span(s) + 1)
  }

  /** The k-th of the first n points is the state after k passes. */
  lemma {:induction false} PointsAt(s: Segment, n: nat, k: nat)
    requires k < n
    ensures |Points(s, n)| == n && Points(s, n)[k] == PointOf(Walk(s, k))
  {
    if k < n - 1 {
      PointsAt(s, n - 1, k);
    } else if n > 1 {
      PointsAt(s, n - 1, 0);
    }
  }

  /** The k-th point drawn is the state after k passes. */
  lemma LinePointAt(s: Segment, k: nat)
    requires k <= Span(s)
    ensures |LinePoints(s)| == Span(s) + 1 && LinePoints(s)[k] == PointOf(Walk(s, k))
  {
    PointsAt(s, Span(s) + 1, k);
  }

  /** One step moves each coordinate by nothing or by one toward the target. */
  predicate Adjacent(s: Segment, p: ScreenPoint, q: ScreenPoint) {
    && (q.x == p.x || q.x == p.x + Sx(s))
    && (q.y == p.y || q.y == p.y + Sy(s))
    && q.z == p.z + ZStep(s)
  }

  /** An on-track state stands where `Walked` iterations lead. */
  lemma OnTrackReached(s: Segment, t: Tracer)
    requires OnTrack(s, t)
    ensures Reached(s, PointOf(t), Walked(s, t))
  {
  }

  /** The walk draws Span + 1 points, starting at (x1, y1, z1) and ending at (x2, y2). */
  lemma LineEnds(s: Segment)
    ensures var r := LinePoints(s);
      && |r| == Span(s) + 1
      && r[0] == ScreenPoint(s.x1, s.y1, s.z1)
      && r[|r| - 1].x == s.x2 && r[|r| - 1].y == s.y2
  {
    LinePointAt(s, 0);
    LinePointAt(s, Span(s));
    LoopExit(s, Span(s));
  }

  /** The k-th point drawn is k steps along the major axis, at most k along the
      minor one, never beyond the target, and at the accumulated depth after k steps. */
  lemma LineReached(s: Segment)
    ensures var r := LinePoints(s);
      forall k :: 0 <= k < |r| ==> Reached(s, r[k], k)
  {
    var r := LinePoints(s);
    forall k | 0 <= k < |r| ensures Reached(s, r[k], k) {
      LinePointAt(s, k);
      WalkOnTrack(s, k);
      OnTrackReached(s, Walk(s, k));
    }
  }

  /** The target is met only at the last point: the loop never stops early. */
  lemma LineStopsAtTarget(s: Segment)
    ensures var r := LinePoints(s);
      forall k :: 0 <= k < |r| - 1 ==> !(r[k].x == s.x2 && r[k].y == s.y2)
  {
    var r := LinePoints(s);
    forall k | 0 <= k < |r| - 1 ensures !(r[k].x == s.x2 && r[k].y == s.y2) {
      LinePointAt(s, k);
      LoopExit(s, k);
    }
  }

  /** Every point drawn lies in the bounding box of the two endpoints. */
  lemma LineInBox(s: Segment)
    ensures var r := LinePoints(s);
      forall k :: 0 <= k < |r| ==>
        Min(s.x1, s.x2) <= r[k].x <= Max(s.x1, s.x2) && Min(s.y1, s.y2) <= r[k].y <= Max(s.y1, s.y2)
  {
    LineReached(s);
    var r := LinePoints(s);
    forall k | 0 <= k < |r|
      ensures Min(s.x1, s.x2) <= r[k].x <= Max(s.x1, s.x2) && Min(s.y1, s.y2) <= r[k].y <= Max(s.y1, s.y2)
    {
      assert Reached(s, r[k], k);
    }
  }

  /** The k-th point drawn has depth z1 + k * zStep. */
  lemma LineDepths(s: Segment)
    ensures var r := LinePoints(s);
      forall k :: 0 <= k < |r| ==> r[k].z == s.z1 + k as real * ZStep(s)
  {
    LineReached(s);
    var r := LinePoints(s);
    forall k | 0 <= k < |r| ensures r[k].z == s.z1 + k as real * ZStep(s) {
      assert Reached(s, r[k], k);
      DepthAtLinear(s, k);
    }
  }

  /** Each step moves x and y by at most one cell toward the target and adds zStep. */
  lemma LineSteps(s: Segment)
    ensures var r := LinePoints(s);
      forall k :: 0 <= k < |r| - 1 ==> Adjacent(s, r[k], r[k + 1])
  {
    var r := LinePoints(s);
    forall k | 0 <= k < |r| - 1 ensures Adjacent(s, r[k], r[k + 1]) {
      LinePointAt(s, k);
      LinePointAt(s, k + 1);
      assert Walk(s, k + 1) == Advance(s, Walk(s, k));
    }
  }

  /** With a non-zero span the last point lands exactly at depth z2. */
  lemma EndDepth(s: Segment)
    requires Span(s) > 0
    ensures LinePoints(s)[|LinePoints(s)| - 1].z == s.z2
  {
    LineEnds(s);
    LineDepths(s);
    var n := Span(s) as real;
    assert n * ((s.z2 - s.z1) / n) == s.z2 - s.z1;
  }

  /** A zero-length segment draws its single cell once, at depth z1 (the `|| 1` guard). */
  lemma ZeroLength(s: Segment)
    requires s.x1 == s.x2 && s.y1 == s.y2
    ensures LinePoints(s) == [ScreenPoint(s.x1, s.y1, s.z1)]
  {
  }

  /** No cell is drawn twice: the major-axis coordinate moves on every step. */
  lemma Distinct(s: Segment, j: int, k: int)
    requires 0 <= j < k < |LinePoints(s)|
    ensures LinePoints(s)[j].x != LinePoints(s)[k].x || LinePoints(s)[j].y != LinePoints(s)[k].y
  {
    LineReached(s);
    var r := LinePoints(s);
    assert Reached(s, r[j], j) && Reached(s, r[k], k);
  }

  /** Drawing the whole line depth-tests each cell at most once: a cell the walk
      passes gets one write at that point's depth, every other cell is left alone. */
  lemma LineCell(s: Segment, c: Cell, cx: int, cy: int, g: char)
    ensures var r := LinePoints(s);
      (forall k :: 0 <= k < |r| ==> !(r[k].x == cx && r[k].y == cy)) ==> PlotAll(c, cx, cy, r, g) == c
    ensures var r := LinePoints(s);
      forall k :: 0 <= k < |r| && r[k].x == cx && r[k].y == cy ==> PlotAll(c, cx, cy, r, g) == Plot(c, r[k].z, g)
  {
    var r := LinePoints(s);
    if forall k :: 0 <= k < |r| ==> !(r[k].x == cx && r[k].y == cy) {
      PlotAllMiss(c, cx, cy, r, g);
    }
    forall k | 0 <= k < |r| && r[k].x == cx && r[k].y == cy
      ensures PlotAll(c, cx, cy, r, g) == Plot(c, r[k].z, g)
    {
      forall j | 0 <= j < |r| && j != k ensures !(r[j].x == cx && r[j].y == cy) {
        if j < k { Distinct(s, j, k); } else { Distinct(s, k, j); }
      }
      PlotAllOnce(c, cx, cy, r, g, k);
    }
  }

  /** The horizontal segment (0,0,0)-(5,0,5) draws six cells at depths 0, 1, ..., 5. */
  lemma HorizontalExample()
    ensures var r := LinePoints(Segment(0, 0, 0.0, 5, 0, 5.0));
      |r| == 6 && forall k :: 0 <= k < 6 ==> r[k] == ScreenPoint(k, 0, k as real)
  {
    var s := Segment(0, 0, 0.0, 5, 0, 5.0);
    assert Span(s) == 5 && ZStep(s) == 1.0;
    LineEnds(s);
    LineReached(s);
    LineDepths(s);
    var r := LinePoints(s);
    forall k | 0 <= k < 6 ensures r[k] == ScreenPoint(k, 0, k as real) {
      assert Reached(s, r[k], k);
    }
  }
}
