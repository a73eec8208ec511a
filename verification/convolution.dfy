/** What `FloatImage::convolve` computes at one output cell: the kernel is centred
    on the cell, every tap whose source row and column fall inside the grid
    contributes `weight * sample`, and the total is divided by the sum of the
    weights of exactly those taps. The taps are visited row by row, left to right,
    as the nested loops visit them. */
module Convolution {
  import opened Grids

  /** The source coordinate that kernel offset `m` of a kernel of extent `size`
      reaches when the kernel is centred on coordinate `c`. */
  function SourceIndex(c: int, m: int, size: nat): int
  {
    c + m - size / 2
  }

  /** Tap (my, mx) of a kw-by-kh kernel centred on (y, x) lands inside an
      S-by-L grid. */
  predicate TapInBounds(S: nat, L: nat, kw: nat, kh: nat, y: int, x: int, my: int, mx: int)
  {
    0 <= SourceIndex(y, my, kh) < L && 0 <= SourceIndex(x, mx, kw) < S
  }

  /** Weighted samples of the first `n` taps of kernel row `my`. */
  function RowSum(g: seq<seq<real>>, S: nat, L: nat, k: seq<seq<real>>, kw: nat, kh: nat,
                  y: nat, x: nat, my: nat, n: nat): real
    requires Rect(g, S, L) && Rect(k, kw, kh) && my < kh && n <= kw
  {
    if n == 0 then 0.0
    else
      RowSum(g, S, L, k, kw, kh, y, x, my, n - 1) +
      (if TapInBounds(S, L, kw, kh, y, x, my, n - 1)
       then k[my][n - 1] * g[SourceIndex(y, my, kh)][SourceIndex(x, n - 1, kw)]
       else 0.0)
  }

  /** Weights of the in-bounds taps among the first `n` taps of kernel row `my`. */
  function RowWeight(S: nat, L: nat, k: seq<seq<real>>, kw: nat, kh: nat,
                     y: nat, x: nat, my: nat, n: nat): real
    requires Rect(k, kw, kh) && my < kh && n <= kw
  {
    if n == 0 then 0.0
    else
      RowWeight(S, L, k, kw, kh, y, x, my, n - 1) +
      (if TapInBounds(S, L, kw, kh, y, x, my, n - 1) then k[my][n - 1] else 0.0)
  }

  /** Weighted samples of the first `m` kernel rows. */
  function WindowSum(g: seq<seq<real>>, S: nat, L: nat, k: seq<seq<real>>, kw: nat, kh: nat,
                     y: nat, x: nat, m: nat): real
    requires Rect(g, S, L) && Rect(k, kw, kh) && m <= kh
  {
    if m == 0 then 0.0
    else WindowSum(g, S, L, k, kw, kh, y, x, m - 1) + RowSum(g, S, L, k, kw, kh, y, x, m - 1, kw)
  }

  /** Effective kernel weight of the first `m` kernel rows. */
  function WindowWeight(S: nat, L: nat, k: seq<seq<real>>, kw: nat, kh: nat,
                        y: nat, x: nat, m: nat): real
    requires Rect(k, kw, kh) && m <= kh
  {
    if m == 0 then 0.0
    else WindowWeight(S, L, k, kw, kh, y, x, m - 1) + RowWeight(S, L, k, kw, kh, y, x, m - 1, kw)
  }

  /** Every output cell of an S-by-L grid has a nonzero effective weight, so the
      normalising division is defined everywhere. */
  predicate Normalisable(S: nat, L: nat, k: seq<seq<real>>, kw: nat, kh: nat)
    requires Rect(k, kw, kh)
  {
    forall y: nat, x: nat :: y < L && x < S ==> WindowWeight(S, L, k, kw, kh, y, x, kh) != 0.0
  }

  /** The convolved value of cell (y, x). */
  function ConvolveAt(g: seq<seq<real>>, S: nat, L: nat, k: seq<seq<real>>, kw: nat, kh: nat,
                      y: nat, x: nat): real
    requires Rect(g, S, L) && Rect(k, kw, kh)
    requires WindowWeight(S, L, k, kw, kh, y, x, kh) != 0.0
  {
    WindowSum(g, S, L, k, kw, kh, y, x, kh) / WindowWeight(S, L, k, kw, kh, y, x, kh)
  }

  /** A kernel row whose source row lies outside the grid contributes nothing,
      which is why the loop may skip it as a whole. */
  lemma {:induction false} RowOutside(g: seq<seq<real>>, S: nat, L: nat, k: seq<seq<real>>, kw: nat, kh: nat,
                                      y: nat, x: nat, my: nat, n: nat)
    requires Rect(g, S, L) && Rect(k, kw, kh) && my < kh && n <= kw
    requires !(0 <= SourceIndex(y, my, kh) < L)
    ensures RowSum(g, S, L, k, kw, kh, y, x, my, n) == 0.0
    ensures RowWeight(S, L, k, kw, kh, y, x, my, n) == 0.0
  {
    if n > 0 {
      RowOutside(g, S, L, k, kw, kh, y, x, my, n - 1);
    }
  }

  /** A kernel whose only nonzero weight is its centre `c` contributes `c` times
      the sample under the centre, which is always inside the grid. */
  lemma {:induction false} RowSingle(g: seq<seq<real>>, S: nat, L: nat, k: seq<seq<real>>, kw: nat, kh: nat,
                                     y: nat, x: nat, my: nat, n: nat)
    requires Rect(g, S, L) && Rect(k, kw, kh) && my < kh && n <= kw
    requires y < L && x < S
    requires forall i, j :: 0 <= i < kh && 0 <= j < kw && (i != kh / 2 || j != kw / 2) ==> k[i][j] == 0.0
    ensures RowSum(g, S, L, k, kw, kh, y, x, my, n)
            == (if my == kh / 2 && n > kw / 2 then k[kh / 2][kw / 2] * g[y][x] else 0.0)
    ensures RowWeight(S, L, k, kw, kh, y, x, my, n)
            == (if my == kh / 2 && n > kw / 2 then k[kh / 2][kw / 2] else 0.0)
  {
    if n > 0 {
      RowSingle(g, S, L, k, kw, kh, y, x, my, n - 1);
      if my != kh / 2 || n - 1 != kw / 2 {
        assert k[my][n - 1] == 0.0;
      }
    }
  }

  lemma {:induction false} WindowSingle(g: seq<seq<real>>, S: nat, L: nat, k: seq<seq<real>>, kw: nat, kh: nat,
                                        y: nat, x: nat, m: nat)
    requires Rect(g, S, L) && Rect(k, kw, kh) && m <= kh && kw > 0
    requires y < L && x < S
    requires forall i, j :: 0 <= i < kh && 0 <= j < kw && (i != kh / 2 || j != kw / 2) ==> k[i][j] == 0.0
    ensures WindowSum(g, S, L, k, kw, kh, y, x, m)
            == (if m > kh / 2 then k[kh / 2][kw / 2] * g[y][x] else 0.0)
    ensures WindowWeight(S, L, k, kw, kh, y, x, m)
            == (if m > kh / 2 then k[kh / 2][kw / 2] else 0.0)
  {
    if m > 0 {
      WindowSingle(g, S, L, k, kw, kh, y, x, m - 1);
      RowSingle(g, S, L, k, kw, kh, y, x, m - 1, kw);
    }
  }

  /** Convolving with a kernel whose only nonzero weight is its centre returns
      every sample unchanged: the Dirac kernel is the identity. */
  lemma CentreOnlyIdentity(g: seq<seq<real>>, S: nat, L: nat, k: seq<seq<real>>, kw: nat, kh: nat,
                           y: nat, x: nat)
    requires Rect(g, S, L) && Rect(k, kw, kh) && kw > 0 && kh > 0
    requires y < L && x < S
    requires forall i, j :: 0 <= i < kh && 0 <= j < kw && (i != kh / 2 || j != kw / 2) ==> k[i][j] == 0.0
    requires k[kh / 2][kw / 2] != 0.0
    ensures WindowWeight(S, L, k, kw, kh, y, x, kh) == k[kh / 2][kw / 2]
    ensures ConvolveAt(g, S, L, k, kw, kh, y, x) == g[y][x]
  {
    var s, w := WindowSum(g, S, L, k, kw, kh, y, x, kh), WindowWeight(S, L, k, kw, kh, y, x, kh);
    WindowSingle(g, S, L, k, kw, kh, y, x, kh);
    assert kh > kh / 2;
    QuotientOfScaled(s, w, k[kh / 2][kw / 2], g[y][x]);
  }

  lemma QuotientOfScaled(s: real, w: real, c: real, v: real)
    requires c != 0.0 && s == c * v && w == c
    ensures s / w == v
  {
  }

  /** With nonnegative weights, a row's weighted sum lies between `lo` and `hi`
      times its weight whenever its in-bounds samples do. */
  lemma {:induction false} RowBounds(g: seq<seq<real>>, S: nat, L: nat, k: seq<seq<real>>, kw: nat, kh: nat,
                                     y: nat, x: nat, my: nat, n: nat, lo: real, hi: real)
    requires Rect(g, S, L) && Rect(k, kw, kh) && my < kh && n <= kw
    requires forall j :: 0 <= j < kw ==> k[my][j] >= 0.0
    requires forall j :: 0 <= j < kw && TapInBounds(S, L, kw, kh, y, x, my, j) ==>
               lo <= g[SourceIndex(y, my, kh)][SourceIndex(x, j, kw)] <= hi
    ensures Between(lo, hi, RowWeight(S, L, k, kw, kh, y, x, my, n), RowSum(g, S, L, k, kw, kh, y, x, my, n))
  {
    if n > 0 {
      var w0, s0 := RowWeight(S, L, k, kw, kh, y, x, my, n - 1), RowSum(g, S, L, k, kw, kh, y, x, my, n - 1);
      assert Between(lo, hi, w0, s0) by {
        RowBounds(g, S, L, k, kw, kh, y, x, my, n - 1, lo, hi);
      }
      var w1, s1 := RowWeight(S, L, k, kw, kh, y, x, my, n), RowSum(g, S, L, k, kw, kh, y, x, my, n);
      if TapInBounds(S, L, kw, kh, y, x, my, n - 1) {
        var w, v := k[my][n - 1], g[SourceIndex(y, my, kh)][SourceIndex(x, n - 1, kw)];
        assert w1 == w0 + w && s1 == s0 + w * v;
        BoundsStep(lo, hi, w0, s0, w, v);
      } else {
        assert w1 == w0 && s1 == s0;
      }
    }
  }

  /** Adding one nonnegative weight `w` with a sample `v` between `lo` and `hi`
      keeps the weighted sum between `lo` and `hi` times the weight. */
  lemma BoundsStep(lo: real, hi: real, w0: real, s0: real, w: real, v: real)
    requires Between(lo, hi, w0, s0) && w >= 0.0 && lo <= v <= hi
    ensures Between(lo, hi, w0 + w, s0 + w * v)
  {
    assert w * v - w * lo == w * (v - lo);
    assert w * hi - w * v == w * (hi - v);
  }

  lemma BetweenAdd(lo: real, hi: real, w: real, s: real, w': real, s': real)
    requires Between(lo, hi, w, s) && Between(lo, hi, w', s')
    ensures Between(lo, hi, w + w', s + s')
  {
    assert lo * (w + w') == lo * w + lo * w';
    assert hi * (w + w') == hi * w + hi * w';
  }

  lemma {:induction false} WindowBounds(g: seq<seq<real>>, S: nat, L: nat, k: seq<seq<real>>, kw: nat, kh: nat,
                                        y: nat, x: nat, m: nat, lo: real, hi: real)
    requires Rect(g, S, L) && Rect(k, kw, kh) && m <= kh
    requires forall i, j :: 0 <= i < kh && 0 <= j < kw ==> k[i][j] >= 0.0
    requires forall i, j :: 0 <= i < kh && 0 <= j < kw && TapInBounds(S, L, kw, kh, y, x, i, j) ==>
               lo <= g[SourceIndex(y, i, kh)][SourceIndex(x, j, kw)] <= hi
    ensures Between(lo, hi, WindowWeight(S, L, k, kw, kh, y, x, m), WindowSum(g, S, L, k, kw, kh, y, x, m))
  {
    if m > 0 {
      var w, r := WindowWeight(S, L, k, kw, kh, y, x, m - 1), RowWeight(S, L, k, kw, kh, y, x, m - 1, kw);
      var ws, rs := WindowSum(g, S, L, k, kw, kh, y, x, m - 1), RowSum(g, S, L, k, kw, kh, y, x, m - 1, kw);
      assert Between(lo, hi, w, ws) by {
        WindowBounds(g, S, L, k, kw, kh, y, x, m - 1, lo, hi);
      }
      assert Between(lo, hi, r, rs) by {
        RowBounds(g, S, L, k, kw, kh, y, x, m - 1, kw, lo, hi);
      }
      BetweenAdd(lo, hi, w, ws, r, rs);
    }
  }

  /** With nonnegative weights the effective weight is at least the centre weight,
      since the centre tap is always in bounds. */
  lemma {:induction false} RowWeightAtLeastCentre(S: nat, L: nat, k: seq<seq<real>>, kw: nat, kh: nat,
                                                  y: nat, x: nat, my: nat, n: nat)
    requires Rect(k, kw, kh) && my < kh && n <= kw && y < L && x < S
    requires forall i, j :: 0 <= i < kh && 0 <= j < kw ==> k[i][j] >= 0.0
    ensures RowWeight(S, L, k, kw, kh, y, x, my, n) >= 0.0
    ensures my == kh / 2 && n > kw / 2 ==> RowWeight(S, L, k, kw, kh, y, x, my, n) >= k[kh / 2][kw / 2]
  {
    if n > 0 {
      RowWeightAtLeastCentre(S, L, k, kw, kh, y, x, my, n - 1);
    }
  }

  lemma {:induction false} WindowWeightAtLeastCentre(S: nat, L: nat, k: seq<seq<real>>, kw: nat, kh: nat,
                                                     y: nat, x: nat, m: nat)
    requires Rect(k, kw, kh) && m <= kh && kw > 0 && y < L && x < S
    requires forall i, j :: 0 <= i < kh && 0 <= j < kw ==> k[i][j] >= 0.0
    ensures WindowWeight(S, L, k, kw, kh, y, x, m) >= 0.0
    ensures m > kh / 2 ==> WindowWeight(S, L, k, kw, kh, y, x, m) >= k[kh / 2][kw / 2]
  {
    if m > 0 {
      WindowWeightAtLeastCentre(S, L, k, kw, kh, y, x, m - 1);
      RowWeightAtLeastCentre(S, L, k, kw, kh, y, x, m - 1, kw);
    }
  }

  /** A nonnegative kernel with a positive centre weight can be applied to any grid:
      every cell has a positive effective weight. */
  lemma PositiveCentreNormalisable(S: nat, L: nat, k: seq<seq<real>>, kw: nat, kh: nat)
    requires Rect(k, kw, kh) && kw > 0 && kh > 0
    requires forall i, j :: 0 <= i < kh && 0 <= j < kw ==> k[i][j] >= 0.0
    requires k[kh / 2][kw / 2] > 0.0
    ensures Normalisable(S, L, k, kw, kh)
  {
    forall y: nat, x: nat | y < L && x < S
      ensures WindowWeight(S, L, k, kw, kh, y, x, kh) != 0.0
    {
      WindowWeightAtLeastCentre(S, L, k, kw, kh, y, x, kh);
    }
  }

  /** With nonnegative weights and a positive centre, each output lies between any
      bounds of the in-bounds samples under the kernel: a box blur never leaves
      the range of its window. */
  lemma ConvolveWithinWindow(g: seq<seq<real>>, S: nat, L: nat, k: seq<seq<real>>, kw: nat, kh: nat,
                             y: nat, x: nat, lo: real, hi: real)
    requires Rect(g, S, L) && Rect(k, kw, kh) && kw > 0 && kh > 0 && y < L && x < S
    requires forall i, j :: 0 <= i < kh && 0 <= j < kw ==> k[i][j] >= 0.0
    requires k[kh / 2][kw / 2] > 0.0
    requires forall i, j :: 0 <= i < kh && 0 <= j < kw && TapInBounds(S, L, kw, kh, y, x, i, j) ==>
               lo <= g[SourceIndex(y, i, kh)][SourceIndex(x, j, kw)] <= hi
    ensures WindowWeight(S, L, k, kw, kh, y, x, kh) > 0.0
    ensures lo <= ConvolveAt(g, S, L, k, kw, kh, y, x) <= hi
  {
    var s, w := WindowSum(g, S, L, k, kw, kh, y, x, kh), WindowWeight(S, L, k, kw, kh, y, x, kh);
    assert w > 0.0 by {
      WindowWeightAtLeastCentre(S, L, k, kw, kh, y, x, kh);
    }
    assert Between(lo, hi, w, s) by {
      WindowBounds(g, S, L, k, kw, kh, y, x, kh, lo, hi);
    }
    BetweenQuotient(lo, hi, w, s);
  }

  /** Away from the border every tap is in bounds, so the effective weight is the
      plain total of the kernel. */
  lemma {:induction false} RowWeightInterior(S: nat, L: nat, k: seq<seq<real>>, kw: nat, kh: nat,
                                             y: nat, x: nat, my: nat, n: nat)
    requires Rect(k, kw, kh) && my < kh && n <= kw && kw % 2 == 1 && kh % 2 == 1
    requires kh / 2 <= y < L - kh / 2 && kw / 2 <= x < S - kw / 2
    ensures RowWeight(S, L, k, kw, kh, y, x, my, n) == Sum(k[my][..n])
  {
    if n > 0 {
      RowWeightInterior(S, L, k, kw, kh, y, x, my, n - 1);
      assert k[my][..n][..n - 1] == k[my][..n - 1];
    }
  }

  lemma {:induction false} WindowWeightInterior(S: nat, L: nat, k: seq<seq<real>>, kw: nat, kh: nat,
                                                y: nat, x: nat, m: nat)
    requires Rect(k, kw, kh) && m <= kh && kw % 2 == 1 && kh % 2 == 1
    requires kh / 2 <= y < L - kh / 2 && kw / 2 <= x < S - kw / 2
    ensures WindowWeight(S, L, k, kw, kh, y, x, m) == Total(k[..m])
  {
    if m > 0 {
      WindowWeightInterior(S, L, k, kw, kh, y, x, m - 1);
      RowWeightInterior(S, L, k, kw, kh, y, x, m - 1, kw);
      assert k[m - 1][..kw] == k[m - 1];
      FlattenPrefix(k, m - 1);
      SumAppend(Flatten(k[..m - 1]), k[m - 1]);
    }
  }

  /** The 3x3 Laplacian layout of `convolveLaplacian` (rows are kernel lines). */
  function LaplacianLayout(): (k: seq<seq<real>>)
    ensures Rect(k, 3, 3)
  {
    [[0.0, 1.0, 0.0],
     [1.0, -4.0, 1.0],
     [0.0, 1.0, 0.0]]
  }

  /** The 5x5 Laplacian-of-Gaussian layout of `convolveLoG`. */
  function LoGLayout(): (k: seq<seq<real>>)
    ensures Rect(k, 5, 5)
  {
    [[0.0, -1.0, -2.0, -1.0, 0.0],
     [-1.0, 0.0, 2.0, 0.0, -1.0],
     [-2.0, 2.0, 8.0, 2.0, -2.0],
     [-1.0, 0.0, 2.0, 0.0, -1.0],
     [0.0, -1.0, -2.0, -1.0, 0.0]]
  }

  /** The Laplacian weights sum to zero, so at every cell at least one sample away
      from the border the normalising division of `convolve` divides by zero:
      such a grid is not `Normalisable` and `Convolve` refuses the kernel. */
  lemma LaplacianZeroWeight(S: nat, L: nat, y: nat, x: nat)
    requires 1 <= y < L - 1 && 1 <= x < S - 1
    ensures WindowWeight(S, L, LaplacianLayout(), 3, 3, y, x, 3) == 0.0
    ensures !Normalisable(S, L, LaplacianLayout(), 3, 3)
  {
    var k := LaplacianLayout();
    WindowWeightInterior(S, L, k, 3, 3, y, x, 3);
    assert k[..3] == k;
    FlattenRows3(k);
    SumAppend(k[0] + k[1], k[2]);
    SumAppend(k[0], k[1]);
    SumOfThree(k[0]);
    SumOfThree(k[1]);
    SumOfThree(k[2]);
  }

  /** The same holds for the LoG weights two samples away from the border. */
  lemma LoGZeroWeight(S: nat, L: nat, y: nat, x: nat)
    requires 2 <= y < L - 2 && 2 <= x < S - 2
    ensures WindowWeight(S, L, LoGLayout(), 5, 5, y, x, 5) == 0.0
    ensures !Normalisable(S, L, LoGLayout(), 5, 5)
  {
    var k := LoGLayout();
    WindowWeightInterior(S, L, k, 5, 5, y, x, 5);
    assert k[..5] == k;
    FlattenRows5(k);
    SumAppend(k[0] + k[1] + k[2] + k[3], k[4]);
    SumAppend(k[0] + k[1] + k[2], k[3]);
    SumAppend(k[0] + k[1], k[2]);
    SumAppend(k[0], k[1]);
    SumOfFive(k[0]);
    SumOfFive(k[1]);
    SumOfFive(k[2]);
    SumOfFive(k[3]);
    SumOfFive(k[4]);
  }

  lemma SumOfThree(s: seq<real>)
    requires |s| == 3
    ensures Sum(s) == s[0] + s[1] + s[2]
  {
    assert s[..2][..1] == s[..1] && s[..1][..0] == [];
    assert Sum(s[..1]) == s[0];
    assert Sum(s[..2]) == s[0] + s[1];
  }

  lemma SumOfFive(s: seq<real>)
    requires |s| == 5
    ensures Sum(s) == s[0] + s[1] + s[2] + s[3] + s[4]
  {
    var t := s[..3];
    SumOfThree(t);
    assert t[0] == s[0] && t[1] == s[1] && t[2] == s[2];
    assert s[..4][..3] == t;
    assert Sum(s[..4]) == Sum(t) + s[3];
    assert s[..5] == s;
  }

  lemma FlattenRows3(k: seq<seq<real>>)
    requires |k| == 3
    ensures Flatten(k) == k[0] + k[1] + k[2]
  {
    FlattenPrefix(k, 2);
    FlattenPrefix(k, 1);
    FlattenPrefix(k, 0);
    assert k[..3] == k;
  }

  lemma FlattenRows5(k: seq<seq<real>>)
    requires |k| == 5
    ensures Flatten(k) == k[0] + k[1] + k[2] + k[3] + k[4]
  {
    FlattenPrefix(k, 4);
    FlattenPrefix(k, 3);
    FlattenRows3(k[..3]);
    assert k[..5] == k;
  }
}
