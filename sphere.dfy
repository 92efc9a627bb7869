/** The sphere's two sampling passes reduced to what they do to one cell: the coarse
    pass buckets a clamped lighting value into `sphereChars` and writes with the
    ordinary nearest-wins test; the detail pass buckets an unclamped lighting value
    and overwrites a cell when it is blank, or when the buckets are within two
    levels and the new sample is nearer. Lighting itself (Lambert term, edge term,
    position variation) is an input here. */
module SphereShading {
  import opened Basics
  import opened Screen

  /** The sphere's ramp, darkest first; its first three entries are blanks. */
  const SPHERE_CHARS: string := "   ....::::ooooOOOO@@@@"

  /** `Math.max(0, Math.min(1, v))`. */
  function Clamp01(v: real): (r: real)
    ensures 0.0 <= r <= 1.0
    ensures 0.0 <= v <= 1.0 ==> r == v
    ensures v < 0.0 ==> r == 0.0
    ensures v > 1.0 ==> r == 1.0
  {
    if v < 0.0 then 0.0 else if v > 1.0 then 1.0 else v
  }

  /** `Math.floor(lighting * (sphereChars.length - 1))`. */
  function Bucket(lighting: real): int {
    (lighting * (|SPHERE_CHARS| - 1) as real).Floor
  }

  /** A lighting value in [0, 1] always names an entry of the ramp, and brighter never
      buckets darker. */
  lemma BucketInRamp(l1: real, l2: real)
    requires 0.0 <= l1 <= l2 <= 1.0
    ensures 0 <= Bucket(l1) <= Bucket(l2) < |SPHERE_CHARS|
    ensures Bucket(l2) == |SPHERE_CHARS| - 1 <==> l2 == 1.0
  {
  }

  /** Coarse pass: Lambert term `shade` weighted 0.8, edge term |n.z| weighted 0.2, plus
      the position variation, clamped to [0, 1] before bucketing; any inputs at all
      give an index inside the ramp. */
  function CoarseIndex(shade: real, edge: real, variation: real): (i: int)
    ensures 0 <= i < |SPHERE_CHARS|
  {
    BucketInRamp(Clamp01(shade * 0.8 + edge * 0.2 + variation), 1.0);
    Bucket(Clamp01(shade * 0.8 + edge * 0.2 + variation))
  }

  /** Detail pass: Lambert term weighted 0.9 and edge term 0.1, not clamped; with both
      terms in [0, 1], as `calculateShading` and a unit normal give them, the index
      stays inside the ramp. */
  function DetailIndex(shade: real, edge: real): (i: int)
    requires 0.0 <= shade <= 1.0 && 0.0 <= edge <= 1.0
    ensures 0 <= i < |SPHERE_CHARS|
  {
    BucketInRamp(shade * 0.9 + edge * 0.1, 1.0);
    Bucket(shade * 0.9 + edge * 0.1)
  }

  /** The coarse pass's write: the ordinary strict nearest-wins test. */
  function CoarseCell(c: Cell, idx: int, z: real): (r: Cell)
    requires 0 <= idx < |SPHERE_CHARS|
    ensures AtMost(c.depth, r.depth)
    ensures r == c || r == Cell(SPHERE_CHARS[idx], D(z))
  {
    Plot(c, z, SPHERE_CHARS[idx])
  }

  /** The detail pass's overwrite test for bucket `idx` at depth `z`: the cell is blank,
      or the bucket of its glyph (the glyph's first position in the ramp, -1 when it
      is not in the ramp) is within two of `idx` and `z` is strictly nearer. */
  predicate DetailWins(c: Cell, idx: int, z: real) {
    c.glyph == ' ' || (Abs(idx - IndexOf(SPHERE_CHARS, c.glyph)) <= 2 && Above(z, c.depth))
  }

  /** The detail pass's write on one in-bounds cell. */
  function DetailCell(c: Cell, idx: int, z: real): (r: Cell)
    requires 0 <= idx < |SPHERE_CHARS|
    ensures r == c || r == Cell(SPHERE_CHARS[idx], D(z))
    ensures c.glyph != ' ' ==> AtMost(c.depth, r.depth)
  {
    if DetailWins(c, idx, z) then Cell(SPHERE_CHARS[idx], D(z)) else c
  }

  /** A blank cell takes the detail sample whatever the depths. */
  lemma DetailFillsBlank(c: Cell, idx: int, z: real)
    requires 0 <= idx < |SPHERE_CHARS| && c.glyph == ' '
    ensures DetailCell(c, idx, z) == Cell(SPHERE_CHARS[idx], D(z))
  {
  }

  /** Unlike every other write, the detail pass can move a cell's depth backwards: a
      coarse sample dark enough to bucket to a blank, at depth 5, is replaced by a
      detail sample at depth 1. */
  lemma DetailCanLowerDepth()
    ensures var coarse := CoarseCell(BLANK, 0, 5.0);
      coarse == Cell(' ', D(5.0)) && DetailCell(coarse, 20, 1.0) == Cell('@', D(1.0))
  {
  }

  /** On a non-blank cell the detail pass is a depth test restricted to nearby buckets:
      it never lowers the stored depth and keeps the cell when the new sample is not
      strictly nearer. */
  lemma DetailOnInk(c: Cell, idx: int, z: real)
    requires 0 <= idx < |SPHERE_CHARS| && c.glyph != ' '
    ensures AtMost(c.depth, DetailCell(c, idx, z).depth)
    ensures !Above(z, c.depth) ==> DetailCell(c, idx, z) == c
  {
  }

  /** A ramp glyph whose first bucket is more than two away from `idx` is kept,
      however near the new sample is. */
  lemma DetailKeepsDistantBucket(c: Cell, idx: int, z: real, k: int)
    requires 0 <= idx < |SPHERE_CHARS| && 0 <= k < |SPHERE_CHARS|
    requires c.glyph == SPHERE_CHARS[k] && c.glyph != ' '
    requires forall m :: 0 <= m < k ==> SPHERE_CHARS[m] != c.glyph
    requires idx < k - 2 || idx > k + 2
    ensures DetailCell(c, idx, z) == c
  {
  }

  /** A glyph outside the ramp counts as bucket -1: only the two lowest buckets (both
      blanks) can replace it, and only from strictly nearer. */
  lemma DetailOverForeignGlyph(c: Cell, idx: int, z: real)
    requires 0 <= idx < |SPHERE_CHARS| && c.glyph !in SPHERE_CHARS
    ensures DetailCell(c, idx, z) != c <==> idx <= 1 && Above(z, c.depth)
    ensures DetailCell(c, idx, z) != c ==> DetailCell(c, idx, z).glyph == ' '
  {
  }
}
