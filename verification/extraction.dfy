/** Integer-step subsampling (`scaleDownLinear`): the target has
    samples / scaleFactor columns and lines / scaleFactor rows, truncated, and
    its cell (ty, tx) is the source cell (ty * k, tx * k), where k is the scale
    factor truncated to an integer. */
module Extraction {
  import opened Grids

  /** A dimension divided by the scale factor, truncated:
      `n * (1 / scaleFactor)` converted to an unsigned count. */
  function NewSize(n: nat, scaleFactor: real): nat
    requires scaleFactor >= 1.0
  {
    var q := (n as real) * (1.0 / scaleFactor);
    PositiveScaled(n as real, 1.0 / scaleFactor);
    q.Floor
  }

  /** The step through the source: the scale factor truncated to an integer. */
  function Skip(scaleFactor: real): (k: nat)
    requires scaleFactor >= 1.0
    ensures k >= 1 && (k as real) <= scaleFactor < (k as real) + 1.0
  {
    scaleFactor.Floor
  }

  lemma PositiveScaled(a: real, b: real)
    requires a >= 0.0 && b > 0.0
    ensures a * b >= 0.0
  {
  }

  /** The last target row (column) reads a source row (column) inside the
      source: (NewSize(n) - 1) * k < n, because NewSize(n) * k <= n. */
  lemma SkipWithinSource(n: nat, scaleFactor: real)
    requires scaleFactor >= 1.0
    ensures NewSize(n, scaleFactor) * Skip(scaleFactor) <= n
  {
    var inv := 1.0 / scaleFactor;
    var q := (n as real) * inv;
    var f, k := NewSize(n, scaleFactor), Skip(scaleFactor);
    assert q * scaleFactor == n as real by {
      assert inv * scaleFactor == 1.0;
    }
    assert (f as real) <= q;
    assert (f * k) as real == (f as real) * (k as real);
    assert (f as real) * (k as real) <= (f as real) * scaleFactor by {
      MonotoneProduct(f as real, k as real, scaleFactor);
    }
    assert (f as real) * scaleFactor <= q * scaleFactor by {
      MonotoneProduct(scaleFactor, f as real, q);
    }
  }

  lemma MonotoneProduct(a: real, b: real, c: real)
    requires a >= 0.0 && b <= c
    ensures a * b <= a * c
  {
  }

  /** Row `ty * k` of the source exists for every target row `ty`. */
  lemma TargetReadsInside(n: nat, scaleFactor: real, t: nat)
    requires scaleFactor >= 1.0 && t < NewSize(n, scaleFactor)
    ensures Stride(t, Skip(scaleFactor)) < n
  {
    SkipWithinSource(n, scaleFactor);
    var k := Skip(scaleFactor);
    assert t * k + k <= NewSize(n, scaleFactor) * k by {
      assert t + 1 <= NewSize(n, scaleFactor);
      MonotoneNat(k, t + 1, NewSize(n, scaleFactor));
    }
  }

  lemma MonotoneNat(k: nat, a: nat, b: nat)
    requires a <= b
    ensures a * k <= b * k
  {
  }

  /** The source coordinate of target coordinate `i` at step `k`. */
  function Stride(i: nat, k: nat): nat
  {
    i * k
  }

  lemma StrideStep(i: nat, k: nat)
    ensures Stride(i + 1, k) == Stride(i, k) + k
  {
  }

  /** Every k-th entry of `row`, `count` of them. */
  function ScaledRow(row: seq<real>, count: nat, k: nat): (r: seq<real>)
    requires forall tx :: 0 <= tx < count ==> Stride(tx, k) < |row|
    ensures |r| == count && forall tx :: 0 <= tx < count ==> r[tx] == row[Stride(tx, k)]
  {
    seq(count, tx requires 0 <= tx < count => row[Stride(tx, k)])
  }

  /** The subsampled grid. */
  function ScaledDown(g: seq<seq<real>>, samples: nat, lines: nat, scaleFactor: real): (t: seq<seq<real>>)
    requires Rect(g, samples, lines) && scaleFactor >= 1.0
    ensures Rect(t, NewSize(samples, scaleFactor), NewSize(lines, scaleFactor))
    ensures forall ty, tx :: 0 <= ty < NewSize(lines, scaleFactor) && 0 <= tx < NewSize(samples, scaleFactor) ==>
              Stride(ty, Skip(scaleFactor)) < lines && Stride(tx, Skip(scaleFactor)) < samples &&
              t[ty][tx] == g[Stride(ty, Skip(scaleFactor))][Stride(tx, Skip(scaleFactor))]
  {
    var k := Skip(scaleFactor);
    var newSamples, newLines := NewSize(samples, scaleFactor), NewSize(lines, scaleFactor);
    assert forall tx :: 0 <= tx < newSamples ==> Stride(tx, k) < samples by {
      forall tx | 0 <= tx < newSamples ensures Stride(tx, k) < samples {
        TargetReadsInside(samples, scaleFactor, tx);
      }
    }
    assert forall ty :: 0 <= ty < newLines ==> Stride(ty, k) < lines by {
      forall ty | 0 <= ty < newLines ensures Stride(ty, k) < lines {
        TargetReadsInside(lines, scaleFactor, ty);
      }
    }
    seq(newLines, ty requires 0 <= ty < newLines => ScaledRow(g[Stride(ty, k)], newSamples, k))
  }

  /** A scale factor of 1 copies the grid. */
  lemma UnitScaleIdentity(g: seq<seq<real>>, samples: nat, lines: nat)
    requires Rect(g, samples, lines)
    ensures ScaledDown(g, samples, lines, 1.0) == g
  {
    var t := ScaledDown(g, samples, lines, 1.0);
    assert NewSize(samples, 1.0) == samples && NewSize(lines, 1.0) == lines;
    forall ty | 0 <= ty < lines
      ensures t[ty] == g[ty]
    {
      assert forall tx :: 0 <= tx < samples ==> t[ty][tx] == g[ty][tx];
    }
  }

  // ---------------------------------------------------------------------------
  // As written

  /** The source rows (or columns) the strided loop of `scaleDownLinear` visits:
      0, k, 2k, ... below n, one target row (column) each. */
  function VisitedAsWritten(n: nat, k: nat): (v: seq<nat>)
    requires k >= 1
    ensures forall i :: 0 <= i < |v| ==> v[i] < n && v[i] == Stride(i, k)
    decreases n
  {
    if n == 0 then []
    else if n <= k then [0]
    else
      var rest := VisitedAsWritten(n - k, k);
      var shifted := seq(|rest|, i requires 0 <= i < |rest| => rest[i] + k);
      ShiftedStrides(rest, shifted, n, k);
      [0] + shifted
  }

  /** Row 0 followed by the run below n - k moved down by one step is the run
      below n. */
  lemma ShiftedStrides(rest: seq<nat>, shifted: seq<nat>, n: nat, k: nat)
    requires n > k && |shifted| == |rest|
    requires forall i :: 0 <= i < |rest| ==> rest[i] < n - k && rest[i] == Stride(i, k) && shifted[i] == rest[i] + k
    ensures forall i :: 0 <= i < |[0] + shifted| ==> ([0] + shifted)[i] < n && ([0] + shifted)[i] == Stride(i, k)
  {
    var v := [0] + shifted;
    forall i | 0 <= i < |v|
      ensures v[i] < n && v[i] == Stride(i, k)
    {
      if i > 0 {
        StrideStep(i - 1, k);
      }
    }
  }

  /** With 5 lines and a scale factor of 2 the target has 2 rows, but the loop
      visits source rows 0, 2 and 4 and writes target rows 0, 1 and 2: one past
      the end. */
  lemma ScaleDownOverflows()
    ensures NewSize(5, 2.0) == 2 && Skip(2.0) == 2
    ensures VisitedAsWritten(5, 2) == [0, 2, 4]
    ensures |VisitedAsWritten(5, 2)| > NewSize(5, 2.0)
  {
    assert VisitedAsWritten(1, 2) == [0];
    assert VisitedAsWritten(3, 2) == [0] + [2];
  }

  /** Integer division is determined by a quotient and a remainder below k. */
  lemma DivisionUnique(a: nat, k: nat, q: nat, r: nat)
    requires k >= 1 && a == q * k + r && r < k
    ensures a / k == q
  {
    var q', r' := a / k, a % k;
    assert a == q' * k + r';
    assert (q - q') * k == r' - r by {
      assert (q - q') * k == q * k - q' * k;
    }
    if q > q' {
      MonotoneNat(k, 1, q - q');
    } else if q < q' {
      MonotoneNat(k, 1, q' - q);
    }
  }

  /** Shifting by one step adds one to the quotient. */
  lemma QuotientStep(a: nat, k: nat)
    requires k >= 1
    ensures (a + k) / k == a / k + 1
  {
    var q, r := a / k, a % k;
    assert a == q * k + r;
    assert a + k == (q + 1) * k + r;
    DivisionUnique(a + k, k, q + 1, r);
  }

  /** The strided loop visits ceil(n / k) rows (columns): one per step of k
      below n. */
  lemma {:induction false} VisitedCount(n: nat, k: nat)
    requires k >= 1
    ensures |VisitedAsWritten(n, k)| == (n + k - 1) / k
    decreases n
  {
    if n == 0 {
      DivisionUnique(k - 1, k, 0, k - 1);
    } else if n <= k {
      DivisionUnique(n - 1, k, 0, n - 1);
      QuotientStep(n - 1, k);
    } else {
      var rest := VisitedAsWritten(n - k, k);
      assert |VisitedAsWritten(n, k)| == 1 + |rest|;
      VisitedCount(n - k, k);
      assert n - k + k - 1 == n - 1;
      QuotientStep(n - 1, k);
    }
  }

  /** ceil(n / k) steps of k cover n. */
  lemma CeilingCovers(n: nat, k: nat)
    requires k >= 1
    ensures ((n + k - 1) / k) * k >= n
  {
    var a := n + k - 1;
    var q, r := a / k, a % k;
    assert a == q * k + r && 0 <= r < k;
  }

  /** The strided loop writes more target rows (columns) than the target has
      exactly when the dimension is not empty and it is not the case that the
      scale factor is a whole number dividing the dimension: a fractional scale
      factor overflows even when its integer part divides n. */
  lemma AsWrittenOverflowsExactly(n: nat, scaleFactor: real)
    requires scaleFactor >= 1.0
    ensures |VisitedAsWritten(n, Skip(scaleFactor))| >= NewSize(n, scaleFactor)
    ensures |VisitedAsWritten(n, Skip(scaleFactor))| > NewSize(n, scaleFactor) <==>
              n > 0 && !(scaleFactor == Skip(scaleFactor) as real && n % Skip(scaleFactor) == 0)
  {
    var k, f := Skip(scaleFactor), NewSize(n, scaleFactor);
    var c := (n + k - 1) / k;
    VisitedCount(n, k);
    CeilingCovers(n, k);
    SkipWithinSource(n, scaleFactor);
    FloorCovered(n, scaleFactor);
    CoverOrder(n, k, f, c);
    if n == 0 {
      assert c == 0 && f == 0;
    } else if scaleFactor == k as real && n % k == 0 {
      ExactDivision(n, k, scaleFactor);
    } else if c == f {
      WholeFactorDivides(n, k, c, scaleFactor);
    }
  }

  /** Fewer rows of k fit into n than cover it. */
  lemma CoverOrder(n: nat, k: nat, f: nat, c: nat)
    requires k >= 1 && f * k <= n <= c * k
    ensures f <= c
  {
    if f > c {
      MonotoneNat(k, c + 1, f);
    }
  }

  /** The new size times the scale factor stays within n. */
  lemma FloorCovered(n: nat, scaleFactor: real)
    requires scaleFactor >= 1.0
    ensures (NewSize(n, scaleFactor) as real) * scaleFactor <= n as real
  {
    var inv := 1.0 / scaleFactor;
    var q := (n as real) * inv;
    var f := NewSize(n, scaleFactor);
    assert q * scaleFactor == n as real by {
      assert inv * scaleFactor == 1.0;
    }
    assert (f as real) <= q;
    MonotoneProduct(scaleFactor, f as real, q);
  }

  /** A whole scale factor k dividing n gives both n / k rows. */
  lemma ExactDivision(n: nat, k: nat, scaleFactor: real)
    requires k >= 1 && scaleFactor == k as real && n % k == 0
    ensures (n + k - 1) / k == NewSize(n, scaleFactor)
  {
    var m := n / k;
    assert n == m * k + n % k;
    assert (n as real) * (1.0 / scaleFactor) == m as real by {
      assert (n as real) == (m as real) * (k as real);
    }
    DivisionUnique(n + k - 1, k, m, k - 1);
  }

  /** When c rows of k cover n and c rows of the scale factor fit into it, all
      three agree: k divides n and the scale factor is k. */
  lemma WholeFactorDivides(n: nat, k: nat, c: nat, scaleFactor: real)
    requires n > 0 && k >= 1 && (k as real) <= scaleFactor
    requires c * k >= n && (c as real) * scaleFactor <= n as real
    ensures scaleFactor == k as real && n % k == 0
  {
    var rc, rk := c as real, k as real;
    assert (c * k) as real == rc * rk;
    MonotoneProduct(rc, rk, scaleFactor);
    assert c * k == n;
    assert c > 0;
    if scaleFactor > rk {
      StrictProduct(rc, rk, scaleFactor);
    }
    DivisionUnique(n, k, c, 0);
    assert n % k == n - (n / k) * k;
  }

  lemma StrictProduct(a: real, b: real, c: real)
    requires a > 0.0 && b < c
    ensures a * b < a * c
  {
  }

  // ---------------------------------------------------------------------------
  // `scaleDownLinear`

  /** `scaleDownLinear`, with both strided loops also stopping at the last
      target row and column. */
  method ScaleDownLinear(image: seq<seq<real>>, samples: nat, lines: nat, bands: nat, scaleFactor: real)
    returns (target: array2<real>)
    requires Rect(image, samples, lines) && scaleFactor >= 1.0
    ensures fresh(target)
    ensures target.Length0 == NewSize(lines, scaleFactor) && target.Length1 == NewSize(samples, scaleFactor)
    ensures forall ty, tx :: 0 <= ty < target.Length0 && 0 <= tx < target.Length1 ==>
              target[ty, tx] == ScaledDown(image, samples, lines, scaleFactor)[ty][tx]
  {
    var invScaleFactor := 1.0 / scaleFactor;
    var newSamples := NewSize(samples, scaleFactor);
    var newLines := NewSize(lines, scaleFactor);
    target := new real[newLines, newSamples];
    var lineSkip := Skip(scaleFactor);
    ghost var t := ScaledDown(image, samples, lines, scaleFactor);
    var y := 0;
    var targetY := 0;
    while y < lines && targetY < newLines
      invariant 0 <= targetY <= newLines && y == Stride(targetY, lineSkip)
      invariant forall ty, tx :: 0 <= ty < targetY && 0 <= tx < newSamples ==> target[ty, tx] == t[ty][tx]
    {
      ScaleDownLine(image, samples, lines, scaleFactor, target, y, targetY);
      StrideStep(targetY, lineSkip);
      y := y + lineSkip;
      targetY := targetY + 1;
    }
  }

  /** One target row: source row y = targetY * k, every k-th sample. */
  method ScaleDownLine(image: seq<seq<real>>, samples: nat, lines: nat, scaleFactor: real, target: array2<real>,
                       y: nat, targetY: nat)
    requires Rect(image, samples, lines) && scaleFactor >= 1.0
    requires target.Length0 == NewSize(lines, scaleFactor) && target.Length1 == NewSize(samples, scaleFactor)
    requires targetY < target.Length0 && y == Stride(targetY, Skip(scaleFactor))
    modifies target
    ensures forall ty, tx :: 0 <= ty < target.Length0 && 0 <= tx < target.Length1 ==>
              target[ty, tx] == if ty == targetY then ScaledDown(image, samples, lines, scaleFactor)[ty][tx]
                                else old(target[ty, tx])
  {
    ghost var t := ScaledDown(image, samples, lines, scaleFactor);
    var sampleSkip := Skip(scaleFactor);
    TargetReadsInside(lines, scaleFactor, targetY);
    var sourceLine := image[y];
    var x := 0;
    var targetX := 0;
    while x < samples && targetX < target.Length1
      invariant 0 <= targetX <= target.Length1 && x == Stride(targetX, sampleSkip)
      invariant forall ty, tx :: 0 <= ty < target.Length0 && 0 <= tx < target.Length1 ==>
                  target[ty, tx] == if ty == targetY && tx < targetX then t[ty][tx] else old(target[ty, tx])
    {
      target[targetY, targetX] := sourceLine[x];
      StrideStep(targetX, sampleSkip);
      x := x + sampleSkip;
      targetX := targetX + 1;
    }
  }
}
