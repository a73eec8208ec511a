/** The kernels the application builds and convolves with: a 3x3 Dirac (unit)
    kernel, a 9x9 box blur, a 3x3 Laplacian and a 5x5 Laplacian of Gaussian (the last two are the
    layouts in the Convolution module). */
module Kernels {
  import opened Grids
  import opened Convolution
  import opened Images

  /** Centre 1, every other weight 0. */
  function DiracLayout(): (k: seq<seq<real>>)
    ensures Rect(k, 3, 3)
  {
    [[0.0, 0.0, 0.0],
     [0.0, 1.0, 0.0],
     [0.0, 0.0, 0.0]]
  }

  /** Every weight 1. */
  function BoxLayout(): (k: seq<seq<real>>)
    ensures Rect(k, 9, 9)
  {
    seq(9, _ => seq(9, _ => 1.0))
  }

  /** A zeroed 3x3 kernel whose centre is set to 1. */
  method DiracKernel() returns (kernel: FloatImage)
    ensures kernel.Valid() && fresh(kernel.Repr)
    ensures kernel.samples == 3 && kernel.lines == 3 && kernel.bands == 1
    ensures kernel.Contents == DiracLayout()
  {
    kernel := FloatImage.Create(3, 3, 1, true);
    kernel.Set(1, 1, 1.0);
    assert forall y :: 0 <= y < 3 ==> kernel.Contents[y] == DiracLayout()[y];
  }

  /** An uninitialised 9x9 kernel whose every weight is then set to 1. */
  method BoxKernel() returns (kernel: FloatImage)
    ensures kernel.Valid() && fresh(kernel.Repr)
    ensures kernel.samples == 9 && kernel.lines == 9 && kernel.bands == 1
    ensures kernel.Contents == BoxLayout()
  {
    kernel := FloatImage.Create(9, 9, 1, false);
    var l := 0;
    while l < kernel.lines
      invariant 0 <= l <= 9
      invariant kernel.Valid() && fresh(kernel.Repr)
      invariant forall y :: 0 <= y < l ==> kernel.Contents[y] == BoxLayout()[y]
    {
      var s := 0;
      while s < kernel.samples
        invariant 0 <= s <= 9
        invariant kernel.Valid() && fresh(kernel.Repr)
        invariant forall y :: 0 <= y < l ==> kernel.Contents[y] == BoxLayout()[y]
        invariant forall x :: 0 <= x < s ==> kernel.Contents[l][x] == 1.0
      {
        kernel.Set(s, l, 1.0);
        s := s + 1;
      }
      assert kernel.Contents[l] == BoxLayout()[l];
      l := l + 1;
    }
  }

  /** The Dirac kernel reproduces the image: every output sample equals the input
      sample at the same place, borders included. */
  method ConvolveDirac(raw: FloatImage) returns (convolved: FloatImage)
    requires raw.Valid() && raw.bands == 1
    ensures convolved.Valid() && fresh(convolved.Repr)
    ensures convolved.samples == raw.samples && convolved.lines == raw.lines
    ensures convolved.Contents == raw.Contents
  {
    var kernel := DiracKernel();
    PositiveCentreNormalisable(raw.samples, raw.lines, kernel.Contents, 3, 3);
    convolved := raw.Convolve(kernel);
    forall y, x | 0 <= y < raw.lines && 0 <= x < raw.samples
      ensures convolved.Contents[y][x] == raw.Contents[y][x]
    {
      CentreOnlyIdentity(raw.Contents, raw.samples, raw.lines, kernel.Contents, 3, 3, y, x);
    }
    assert forall y :: 0 <= y < raw.lines ==> convolved.Contents[y] == raw.Contents[y];
  }

  /** The box blur: each output is the plain mean of the in-bounds samples of the
      9x9 window around it, and lies between the least and the greatest sample of
      the image. */
  method ConvolveBox(raw: FloatImage) returns (convolved: FloatImage)
    requires raw.Valid() && raw.bands == 1
    ensures convolved.Valid() && fresh(convolved.Repr)
    ensures convolved.samples == raw.samples && convolved.lines == raw.lines
    ensures Normalisable(raw.samples, raw.lines, BoxLayout(), 9, 9)
    ensures forall y, x :: 0 <= y < raw.lines && 0 <= x < raw.samples ==>
              convolved.Contents[y][x] == ConvolveAt(raw.Contents, raw.samples, raw.lines, BoxLayout(), 9, 9, y, x)
    ensures forall y, x :: 0 <= y < raw.lines && 0 <= x < raw.samples ==>
              SeqMin(raw.Contents[y][x], Flatten(raw.Contents)) <= convolved.Contents[y][x]
                <= SeqMax(raw.Contents[y][x], Flatten(raw.Contents))
  {
    var kernel := BoxKernel();
    PositiveCentreNormalisable(raw.samples, raw.lines, kernel.Contents, 9, 9);
    convolved := raw.Convolve(kernel);
    forall y, x | 0 <= y < raw.lines && 0 <= x < raw.samples
      ensures SeqMin(raw.Contents[y][x], Flatten(raw.Contents)) <= convolved.Contents[y][x]
                <= SeqMax(raw.Contents[y][x], Flatten(raw.Contents))
    {
      BoxWithinImageRange(raw.Contents, raw.samples, raw.lines, y, x);
    }
  }

  /** A box-blurred sample never leaves the range of the image's samples. */
  lemma BoxWithinImageRange(g: seq<seq<real>>, S: nat, L: nat, y: nat, x: nat)
    requires Rect(g, S, L) && y < L && x < S
    ensures WindowWeight(S, L, BoxLayout(), 9, 9, y, x, 9) > 0.0
    ensures SeqMin(g[y][x], Flatten(g)) <= ConvolveAt(g, S, L, BoxLayout(), 9, 9, y, x)
              <= SeqMax(g[y][x], Flatten(g))
  {
    var f := Flatten(g);
    var lo, hi := SeqMin(g[y][x], f), SeqMax(g[y][x], f);
    forall i, j | 0 <= i < 9 && 0 <= j < 9 && TapInBounds(S, L, 9, 9, y, x, i, j)
      ensures lo <= g[SourceIndex(y, i, 9)][SourceIndex(x, j, 9)] <= hi
    {
      var a, b := SourceIndex(y, i, 9), SourceIndex(x, j, 9);
      FlattenMember(g, g[a][b]);
      assert g[a][b] in g[a];
      var n :| 0 <= n < |f| && f[n] == g[a][b];
    }
    ConvolveWithinWindow(g, S, L, BoxLayout(), 9, 9, y, x, lo, hi);
  }

  /** The Laplacian and LoG layouts are symmetric, so it does not matter that
      `set` takes the column before the row when they are written out. */
  lemma LayoutsSymmetric()
    ensures forall i, j :: 0 <= i < 3 && 0 <= j < 3 ==> LaplacianLayout()[i][j] == LaplacianLayout()[j][i]
    ensures forall i, j :: 0 <= i < 5 && 0 <= j < 5 ==> LoGLayout()[i][j] == LoGLayout()[j][i]
  {
  }
}
