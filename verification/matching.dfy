/** Template matching: a mask is slid over a raw image and every placement is
    scored, either by the sum of absolute differences (lower is better) or by
    the correlation coefficient (higher is better), and a row-major scan then
    picks the best placement. */
module Matching {
  import opened Grids
  import opened Images

  function Abs(v: real): real
  {
    if v < 0.0 then -v else v
  }

  /** The w x h block of `g` whose top-left corner is line `y`, sample `x`. */
  function Block(g: seq<seq<real>>, samples: nat, lines: nat, y: nat, x: nat, w: nat, h: nat): (b: seq<seq<real>>)
    requires Rect(g, samples, lines) && y + h <= lines && x + w <= samples
    ensures Rect(b, w, h)
    ensures forall my, mx :: 0 <= my < h && 0 <= mx < w ==> b[my][mx] == g[y + my][x + mx]
  {
    seq(h, my requires 0 <= my < h => g[y + my][x..x + w])
  }

  /** The block at the origin with the grid's own size is the grid. */
  lemma BlockWhole(g: seq<seq<real>>, samples: nat, lines: nat)
    requires Rect(g, samples, lines)
    ensures Block(g, samples, lines, 0, 0, samples, lines) == g
  {
    var b := Block(g, samples, lines, 0, 0, samples, lines);
    forall my | 0 <= my < lines
      ensures b[my] == g[my]
    {
      assert g[my][0..samples] == g[my];
    }
  }

  /** Number of placements scored along each axis: a placement is scored when
      its offset is strictly below the image size less the mask size, so the
      last placement that would still fit is never scored. */
  function ScoredLines(lines: nat, maskLines: nat): nat
  {
    if maskLines < lines then lines - maskLines else 0
  }

  /** Row-major order of the cells of a grid. */
  predicate Before(y1: nat, x1: nat, y2: nat, x2: nat)
  {
    y1 < y2 || (y1 == y2 && x1 < x2)
  }

  /** Cell (y, x) of the first `cols` columns has been visited by a row-major
      walk that is about to visit cell (vy, vx). */
  predicate Visited(y: nat, x: nat, vy: nat, vx: nat, cols: nat)
  {
    x < cols && Before(y, x, vy, vx)
  }

  lemma VisitedRowEnd(y: nat, x: nat, vy: nat, cols: nat)
    ensures Visited(y, x, vy, cols, cols) == Visited(y, x, vy + 1, 0, cols)
  {
  }

  // ---------------------------------------------------------------------------
  // Sum of absolute differences

  /** Left-to-right sum of |a[i] - b[i]|. */
  function SumAbsDiff(a: seq<real>, b: seq<real>): real
    requires |a| == |b|
  {
    if a == [] then 0.0 else SumAbsDiff(a[..|a| - 1], b[..|b| - 1]) + Abs(a[|a| - 1] - b[|b| - 1])
  }

  lemma SumAbsDiffSnoc(a: seq<real>, b: seq<real>, u: real, v: real)
    requires |a| == |b|
    ensures SumAbsDiff(a + [u], b + [v]) == SumAbsDiff(a, b) + Abs(u - v)
  {
    assert (a + [u])[..|a|] == a;
    assert (b + [v])[..|b|] == b;
  }

  /** The absolute differences add up to 0 exactly when the sequences are equal,
      and never to less. */
  lemma {:induction false} SumAbsDiffZero(a: seq<real>, b: seq<real>)
    requires |a| == |b|
    ensures SumAbsDiff(a, b) >= 0.0
    ensures SumAbsDiff(a, b) == 0.0 <==> a == b
  {
    if a != [] {
      var n := |a| - 1;
      SumAbsDiffZero(a[..n], b[..n]);
      if SumAbsDiff(a, b) == 0.0 {
        assert a[..n] == b[..n] && a[n] == b[n];
        assert a == a[..n] + [a[n]] && b == b[..n] + [b[n]];
      }
    }
  }

  /** The difference score of the placement at (y, x): the sum of absolute
      differences between the raw block there and the mask, in row-major order. */
  function Sad(raw: seq<seq<real>>, samples: nat, lines: nat, mask: seq<seq<real>>, w: nat, h: nat, y: nat, x: nat): real
    requires Rect(raw, samples, lines) && Rect(mask, w, h) && y + h <= lines && x + w <= samples
  {
    var b := Block(raw, samples, lines, y, x, w, h);
    FlattenLength(b, w, h);
    FlattenLength(mask, w, h);
    SumAbsDiff(Flatten(b), Flatten(mask))
  }

  /** A difference score is never negative, and it is 0 exactly when the mask
      equals the raw block under it. */
  lemma SadZeroIffMatch(raw: seq<seq<real>>, samples: nat, lines: nat, mask: seq<seq<real>>, w: nat, h: nat, y: nat, x: nat)
    requires Rect(raw, samples, lines) && Rect(mask, w, h) && y + h <= lines && x + w <= samples
    ensures Sad(raw, samples, lines, mask, w, h, y, x) >= 0.0
    ensures Sad(raw, samples, lines, mask, w, h, y, x) == 0.0 <==>
            forall my, mx :: 0 <= my < h && 0 <= mx < w ==> raw[y + my][x + mx] == mask[my][mx]
  {
    var b := Block(raw, samples, lines, y, x, w, h);
    FlattenLength(b, w, h);
    FlattenLength(mask, w, h);
    SumAbsDiffZero(Flatten(b), Flatten(mask));
    if Flatten(b) == Flatten(mask) {
      FlattenInjective(b, mask, w, h);
    }
    if forall my, mx :: 0 <= my < h && 0 <= mx < w ==> raw[y + my][x + mx] == mask[my][mx] {
      assert forall my :: 0 <= my < h ==> b[my] == mask[my];
      assert b == mask;
    }
  }

  /** Two grids of the same shape with the same row-major cells are equal. */
  lemma {:induction false} FlattenInjective(a: seq<seq<real>>, b: seq<seq<real>>, w: nat, h: nat)
    requires Rect(a, w, h) && Rect(b, w, h) && Flatten(a) == Flatten(b)
    ensures a == b
  {
    if h > 0 {
      var n := h - 1;
      FlattenLength(a[..n], w, n);
      FlattenLength(b[..n], w, n);
      var fa, fb := Flatten(a[..n]), Flatten(b[..n]);
      assert fa + a[n] == fb + b[n];
      assert fa == (fa + a[n])[..|fa|];
      assert a[n] == (fa + a[n])[|fa|..];
      FlattenInjective(a[..n], b[..n], w, n);
      assert a == a[..n] + [a[n]] && b == b[..n] + [b[n]];
    }
  }

  /** The block loops of `difference` for the placement at (y, x). */
  method BlockDifference(raw: FloatImage, mask: FloatImage, y: nat, x: nat) returns (blockDifference: real)
    requires raw.Valid() && mask.Valid()
    requires y + mask.lines <= raw.lines && x + mask.samples <= raw.samples
    ensures blockDifference == Sad(raw.Contents, raw.samples, raw.lines, mask.Contents, mask.samples, mask.lines, y, x)
  {
    ghost var b := Block(raw.Contents, raw.samples, raw.lines, y, x, mask.samples, mask.lines);
    ghost var m := mask.Contents;
    blockDifference := 0.0;
    var my := 0;
    while my < mask.lines
      invariant 0 <= my <= mask.lines
      invariant |Flatten(b[..my])| == |Flatten(m[..my])|
      invariant blockDifference == SumAbsDiff(Flatten(b[..my]), Flatten(m[..my]))
    {
      blockDifference := BlockLineDifference(raw, mask, y, x, my, blockDifference);
      my := my + 1;
    }
    assert b[..my] == b && m[..my] == m;
  }

  /** The inner loop of the block loops: mask line `my` against the raw line
      under it. */
  method BlockLineDifference(raw: FloatImage, mask: FloatImage, y: nat, x: nat, my: nat, acc: real) returns (blockDifference: real)
    requires raw.Valid() && mask.Valid()
    requires y + mask.lines <= raw.lines && x + mask.samples <= raw.samples && my < mask.lines
    requires |Flatten(Block(raw.Contents, raw.samples, raw.lines, y, x, mask.samples, mask.lines)[..my])| == |Flatten(mask.Contents[..my])|
    requires acc == SumAbsDiff(Flatten(Block(raw.Contents, raw.samples, raw.lines, y, x, mask.samples, mask.lines)[..my]), Flatten(mask.Contents[..my]))
    ensures |Flatten(Block(raw.Contents, raw.samples, raw.lines, y, x, mask.samples, mask.lines)[..my + 1])| == |Flatten(mask.Contents[..my + 1])|
    ensures blockDifference == SumAbsDiff(Flatten(Block(raw.Contents, raw.samples, raw.lines, y, x, mask.samples, mask.lines)[..my + 1]), Flatten(mask.Contents[..my + 1]))
  {
    ghost var b := Block(raw.Contents, raw.samples, raw.lines, y, x, mask.samples, mask.lines);
    ghost var m := mask.Contents;
    ghost var pb, pm := Flatten(b[..my]), Flatten(m[..my]);
    assert pb + b[my][..0] == pb && pm + m[my][..0] == pm;
    blockDifference := acc;
    var mx := 0;
    while mx < mask.samples
      invariant 0 <= mx <= mask.samples
      invariant |pb + b[my][..mx]| == |pm + m[my][..mx]|
      invariant blockDifference == SumAbsDiff(pb + b[my][..mx], pm + m[my][..mx])
    {
      var rawSample := raw.Sample(y + my, x + mx);
      var maskSample := mask.Sample(my, mx);
      assert pb + b[my][..mx + 1] == (pb + b[my][..mx]) + [rawSample] by { CellStep(b, my, mx); }
      assert pm + m[my][..mx + 1] == (pm + m[my][..mx]) + [maskSample] by { CellStep(m, my, mx); }
      blockDifference := DifferenceCell(rawSample, maskSample, pb + b[my][..mx], pm + m[my][..mx], blockDifference);
      mx := mx + 1;
    }
    RowEnd(b, my);
    RowEnd(m, my);
  }

  /** The innermost body of the block loops: one absolute difference added to
      the sum over the samples `a` and `c` before it. */
  method DifferenceCell(rawSample: real, maskSample: real, ghost a: seq<real>, ghost c: seq<real>, acc: real)
    returns (blockDifference: real)
    requires |a| == |c| && acc == SumAbsDiff(a, c)
    ensures blockDifference == SumAbsDiff(a + [rawSample], c + [maskSample])
  {
    SumAbsDiffSnoc(a, c, rawSample, maskSample);
    blockDifference := acc + Abs(rawSample - maskSample);
  }

  /** The result of the strict `<` row-major scan over the cells visited before
      (vy, vx): `m` is the least visited value, or FLT_MAX when none is lower,
      and (cy, cx) is the first visited cell holding `m`, or (0, 0) when no cell
      went below FLT_MAX. */
  predicate MinScan(g: seq<seq<real>>, cols: nat, vy: nat, vx: nat, m: real, cy: nat, cx: nat)
  {
    (forall y: nat, x: nat :: y < |g| && x < |g[y]| && Visited(y, x, vy, vx, cols) ==> m <= g[y][x])
    && m <= FltMax
    && (m == FltMax ==> cy == 0 && cx == 0)
    && (m < FltMax ==>
          && Visited(cy, cx, vy, vx, cols) && cy < |g| && cx < |g[cy]| && g[cy][cx] == m
          && (forall y: nat, x: nat :: y < |g| && x < |g[y]| && Visited(y, x, cy, cx, cols) ==> g[y][x] != m))
  }

  /** The result of the strict `>` scan: the greatest visited value, or FLT_MIN
      when none is greater. */
  predicate MaxScan(g: seq<seq<real>>, cols: nat, vy: nat, vx: nat, m: real)
  {
    (forall y: nat, x: nat :: y < |g| && x < |g[y]| && Visited(y, x, vy, vx, cols) ==> g[y][x] <= m)
    && FltMin <= m
    && (m == FltMin || exists y: nat, x: nat :: y < |g| && x < |g[y]| && Visited(y, x, vy, vx, cols) && g[y][x] == m)
  }

  /** One cell of the `<` scan keeps MinScan. */
  lemma MinScanStep(g: seq<seq<real>>, cols: nat, y: nat, x: nat, m: real, cy: nat, cx: nat)
    requires y < |g| && x < |g[y]| && x < cols
    requires MinScan(g, cols, y, x, m, cy, cx)
    ensures g[y][x] < m ==> MinScan(g, cols, y, x + 1, g[y][x], y, x)
    ensures !(g[y][x] < m) ==> MinScan(g, cols, y, x + 1, m, cy, cx)
  {
  }

  /** One cell of the `>` scan keeps MaxScan. */
  lemma MaxScanStep(g: seq<seq<real>>, cols: nat, y: nat, x: nat, m: real)
    requires y < |g| && x < |g[y]| && x < cols
    requires MaxScan(g, cols, y, x, m)
    ensures g[y][x] > m ==> MaxScan(g, cols, y, x + 1, g[y][x])
    ensures !(g[y][x] > m) ==> MaxScan(g, cols, y, x + 1, m)
  {
    if !(g[y][x] > m) && m != FltMin {
      var y': nat, x': nat :| y' < |g| && x' < |g[y']| && Visited(y', x', y, x, cols) && g[y'][x'] == m;
      assert Visited(y', x', y, x + 1, cols);
    }
  }

  /** Finishing a row of the scan is starting the next one. */
  lemma ScanRowEnd(g: seq<seq<real>>, cols: nat, y: nat, mn: real, cy: nat, cx: nat, mx: real)
    requires MinScan(g, cols, y, cols, mn, cy, cx) && MaxScan(g, cols, y, cols, mx)
    ensures MinScan(g, cols, y + 1, 0, mn, cy, cx) && MaxScan(g, cols, y + 1, 0, mx)
  {
    forall y', x' ensures Visited(y', x', y, cols, cols) == Visited(y', x', y + 1, 0, cols) {
      VisitedRowEnd(y', x', y, cols);
    }
  }

  /** The scan of `difference` over the scored placements. */
  method ScanDifferences(diffs: FloatImage, rows: nat, cols: nat)
    returns (candidateX: nat, candidateY: nat, minDiff: real, maxDiff: real)
    requires diffs.Valid() && rows <= diffs.lines && cols <= diffs.samples
    ensures MinScan(diffs.Contents, cols, rows, 0, minDiff, candidateY, candidateX)
    ensures MaxScan(diffs.Contents, cols, rows, 0, maxDiff)
  {
    minDiff, maxDiff := FltMax, FltMin;
    candidateX, candidateY := 0, 0;
    var y := 0;
    while y < rows
      invariant 0 <= y <= rows
      invariant MinScan(diffs.Contents, cols, y, 0, minDiff, candidateY, candidateX)
      invariant MaxScan(diffs.Contents, cols, y, 0, maxDiff)
    {
      candidateX, candidateY, minDiff, maxDiff := ScanLine(diffs, cols, y, candidateX, candidateY, minDiff, maxDiff);
      y := y + 1;
    }
  }

  /** One line of the scan of `difference`. */
  method ScanLine(diffs: FloatImage, cols: nat, y: nat, cx: nat, cy: nat, mn: real, mx: real)
    returns (candidateX: nat, candidateY: nat, minDiff: real, maxDiff: real)
    requires diffs.Valid() && y < diffs.lines && cols <= diffs.samples
    requires MinScan(diffs.Contents, cols, y, 0, mn, cy, cx) && MaxScan(diffs.Contents, cols, y, 0, mx)
    ensures MinScan(diffs.Contents, cols, y + 1, 0, minDiff, candidateY, candidateX)
    ensures MaxScan(diffs.Contents, cols, y + 1, 0, maxDiff)
  {
    ghost var g := diffs.Contents;
    candidateX, candidateY, minDiff, maxDiff := cx, cy, mn, mx;
    var x := 0;
    while x < cols
      invariant 0 <= x <= cols
      invariant MinScan(g, cols, y, x, minDiff, candidateY, candidateX)
      invariant MaxScan(g, cols, y, x, maxDiff)
    {
      candidateX, candidateY, minDiff, maxDiff := ScanCell(diffs, cols, y, x, candidateX, candidateY, minDiff, maxDiff);
      x := x + 1;
    }
    ScanRowEnd(g, cols, y, minDiff, candidateY, candidateX, maxDiff);
  }

  /** One cell of the scan of `difference`: a strictly lower score becomes the
      candidate, a strictly higher one the maximum. */
  method ScanCell(diffs: FloatImage, cols: nat, y: nat, x: nat, cx: nat, cy: nat, mn: real, mx: real)
    returns (candidateX: nat, candidateY: nat, minDiff: real, maxDiff: real)
    requires diffs.Valid() && y < diffs.lines && x < cols <= diffs.samples
    requires MinScan(diffs.Contents, cols, y, x, mn, cy, cx) && MaxScan(diffs.Contents, cols, y, x, mx)
    ensures MinScan(diffs.Contents, cols, y, x + 1, minDiff, candidateY, candidateX)
    ensures MaxScan(diffs.Contents, cols, y, x + 1, maxDiff)
  {
    var sample := diffs.Sample(y, x);
    MinScanStep(diffs.Contents, cols, y, x, mn, cy, cx);
    MaxScanStep(diffs.Contents, cols, y, x, mx);
    candidateX, candidateY, minDiff, maxDiff := cx, cy, mn, mx;
    if sample < minDiff {
      minDiff := sample;
      candidateX, candidateY := x, y;
    }
    if sample > maxDiff {
      maxDiff := sample;
    }
  }

  /** `difference`: a zeroed grid of the raw image's size whose scored cells hold
      the difference score of the placement there, and the scan of those cells
      for the least score. */
  method Difference(raw: FloatImage, mask: FloatImage)
    returns (diffs: FloatImage, candidateX: nat, candidateY: nat, minDiff: real, maxDiff: real)
    requires raw.Valid() && mask.Valid()
    requires mask.samples <= raw.samples
    ensures diffs.Valid() && fresh(diffs.Repr)
    ensures diffs.samples == raw.samples && diffs.lines == raw.lines && diffs.bands == 1
    ensures forall y, x :: 0 <= y < raw.lines && 0 <= x < raw.samples ==>
              diffs.Contents[y][x] == if y < ScoredLines(raw.lines, mask.lines) && x < raw.samples - mask.samples
                                      then Sad(raw.Contents, raw.samples, raw.lines, mask.Contents, mask.samples, mask.lines, y, x)
                                      else 0.0
    ensures MinScan(diffs.Contents, raw.samples - mask.samples, ScoredLines(raw.lines, mask.lines), 0, minDiff, candidateY, candidateX)
    ensures MaxScan(diffs.Contents, raw.samples - mask.samples, ScoredLines(raw.lines, mask.lines), 0, maxDiff)
  {
    var rows := ScoredLines(raw.lines, mask.lines);
    var cols := raw.samples - mask.samples;
    diffs := FillDifferences(raw, mask);
    candidateX, candidateY, minDiff, maxDiff := ScanDifferences(diffs, rows, cols);
  }

  /** The placement loops of `difference`: a zeroed grid of the raw image's
      size whose scored cells hold the difference score of the placement there. */
  method FillDifferences(raw: FloatImage, mask: FloatImage) returns (diffs: FloatImage)
    requires raw.Valid() && mask.Valid()
    requires mask.samples <= raw.samples
    ensures diffs.Valid() && fresh(diffs.Repr)
    ensures diffs.samples == raw.samples && diffs.lines == raw.lines && diffs.bands == 1
    ensures forall y, x :: 0 <= y < raw.lines && 0 <= x < raw.samples ==>
              diffs.Contents[y][x] == if y < ScoredLines(raw.lines, mask.lines) && x < raw.samples - mask.samples
                                      then Sad(raw.Contents, raw.samples, raw.lines, mask.Contents, mask.samples, mask.lines, y, x)
                                      else 0.0
  {
    diffs := FloatImage.Create(raw.samples, raw.lines, 1, true);
    var rows := ScoredLines(raw.lines, mask.lines);
    var cols := raw.samples - mask.samples;
    var y := 0;
    while y < rows
      invariant 0 <= y <= rows
      invariant diffs.Valid() && fresh(diffs.Repr)
      invariant diffs.samples == raw.samples && diffs.lines == raw.lines && diffs.bands == 1
      invariant forall i, c :: 0 <= i < raw.lines && 0 <= c < raw.samples ==>
        diffs.Contents[i][c] == if i < y && c < cols
                                then Sad(raw.Contents, raw.samples, raw.lines, mask.Contents, mask.samples, mask.lines, i, c)
                                else 0.0
    {
      DifferenceLine(raw, mask, diffs, rows, cols, y);
      y := y + 1;
    }
  }

  /** One line of the placement loops of `difference`. */
  method DifferenceLine(raw: FloatImage, mask: FloatImage, diffs: FloatImage, rows: nat, cols: nat, y: nat)
    requires raw.Valid() && mask.Valid() && diffs.Valid()
    requires diffs.samples == raw.samples && diffs.lines == raw.lines
    requires rows == ScoredLines(raw.lines, mask.lines) && cols == raw.samples - mask.samples && y < rows
    requires diffs.Repr !! raw.Repr && diffs.Repr !! mask.Repr
    modifies diffs, diffs.Repr
    ensures diffs.Valid()
    ensures unchanged(raw) && unchanged(mask)
    ensures forall i, c :: 0 <= i < raw.lines && 0 <= c < raw.samples ==>
      diffs.Contents[i][c] == if i == y && c < cols
                              then Sad(raw.Contents, raw.samples, raw.lines, mask.Contents, mask.samples, mask.lines, i, c)
                              else old(diffs.Contents[i][c])
  {
    var x := 0;
    while x < cols
      invariant 0 <= x <= cols
      invariant diffs.Valid()
      invariant unchanged(raw) && unchanged(mask)
      invariant forall i, c :: 0 <= i < raw.lines && 0 <= c < raw.samples ==>
        diffs.Contents[i][c] == if i == y && c < x
                                then Sad(raw.Contents, raw.samples, raw.lines, mask.Contents, mask.samples, mask.lines, i, c)
                                else old(diffs.Contents[i][c])
    {
      var blockDifference := BlockDifference(raw, mask, y, x);
      diffs.Set(x, y, blockDifference);
      x := x + 1;
    }
  }
}
