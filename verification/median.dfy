/** The order-statistic median filter: every output sample is the middle element
    of the sorted in-bounds samples of the size-by-size square centred on it. The
    window is collected row by row, left to right, sorted in place by a bubble
    sort, and its element at index count / 2 is taken. */
module Median {
  import opened Grids
  import opened Convolution
  import opened Images

  // ---------------------------------------------------------------------------
  // `bubbleSort`

  /** The last `k` entries of `s` are each at least every entry before them
      (and so are sorted among themselves): what `k` bubble passes guarantee. */
  ghost predicate Bubbled(s: seq<real>, k: nat) {
    forall i, j :: 0 <= i < j < |s| && j >= |s| - k ==> s[i] <= s[j]
  }

  /** `bubbleSort`: passes over the whole vector swapping out-of-order
      neighbours, until a pass swaps nothing. */
  method BubbleSort(a: array<real>)
    requires a.Length > 0
    modifies a
    ensures Sorted(a[..]) && multiset(a[..]) == multiset(old(a[..]))
  {
    var count := a.Length;
    ghost var passes := 0;
    var valuesSwapped := true;
    while valuesSwapped
      invariant 0 <= passes <= count
      invariant multiset(a[..]) == multiset(old(a[..]))
      invariant Bubbled(a[..], passes)
      invariant valuesSwapped ==> passes < count
      invariant !valuesSwapped ==> Sorted(a[..])
      decreases count - passes
    {
      valuesSwapped := BubblePass(a, passes);
      passes := passes + 1;
    }
  }

  /** Where a bubble pass stands after comparing the first `c` neighbour pairs
      of a vector whose last `k` entries were in place: entry c is the largest
      so far, the entries after it are as the pass found them, the place of one
      more entry is settled, and if nothing was swapped the prefix is sorted. */
  ghost predicate PassInvariant(s: seq<real>, k: nat, c: nat, swapped: bool)
    requires c < |s|
  {
    && (forall i :: 0 <= i < c ==> s[i] <= s[c])
    && (forall i, j :: 0 <= i < j < |s| && j > c && j >= |s| - k ==> s[i] <= s[j])
    && (forall i, j :: 0 <= i < j <= c && j >= |s| - k - 1 ==> s[i] <= s[j])
    && (!swapped ==> forall i, j :: 0 <= i < j <= c ==> s[i] <= s[j])
    && (swapped ==> k + 1 < |s|)
  }

  /** Comparing (and perhaps swapping) neighbours c and c + 1 keeps the pass
      invariant. */
  lemma PassStep(s: seq<real>, k: nat, c: nat, swapped: bool)
    requires c + 1 < |s| && PassInvariant(s, k, c, swapped)
    ensures s[c] > s[c + 1] ==> PassInvariant(s[c := s[c + 1]][c + 1 := s[c]], k, c + 1, true)
    ensures !(s[c] > s[c + 1]) ==> PassInvariant(s, k, c + 1, swapped)
  {
    if s[c] > s[c + 1] {
      var t := s[c := s[c + 1]][c + 1 := s[c]];
      assert forall i :: 0 <= i < c + 1 ==> t[i] <= t[c + 1];
    }
  }

  /** One pass of `bubbleSort`. The largest entry not yet in place moves to its
      place, and a pass over an already sorted vector swaps nothing. */
  method BubblePass(a: array<real>, ghost k: nat) returns (valuesSwapped: bool)
    requires a.Length > 0 && k < a.Length && Bubbled(a[..], k)
    modifies a
    ensures multiset(a[..]) == multiset(old(a[..]))
    ensures Bubbled(a[..], k + 1)
    ensures valuesSwapped ==> k + 1 < a.Length
    ensures !valuesSwapped ==> Sorted(a[..])
  {
    var count := a.Length;
    valuesSwapped := false;
    var c := 0;
    while c < count - 1
      invariant 0 <= c <= count - 1
      invariant multiset(a[..]) == multiset(old(a[..]))
      invariant PassInvariant(a[..], k, c, valuesSwapped)
    {
      PassStep(a[..], k, c, valuesSwapped);
      if a[c] > a[c + 1] {
        a[c], a[c + 1] := a[c + 1], a[c];
        valuesSwapped := true;
      }
      c := c + 1;
    }
  }

  // ---------------------------------------------------------------------------
  // The window

  /** Tap (my, mx) of the size-by-size square centred on (y, x) lies inside the
      S-by-L grid and holds `v`. */
  predicate TapHolds(g: seq<seq<real>>, S: nat, L: nat, size: nat, y: nat, x: nat, my: int, mx: int, v: real)
    requires Rect(g, S, L)
  {
    0 <= my < size && 0 <= mx < size && TapInBounds(S, L, size, size, y, x, my, mx)
    && g[SourceIndex(y, my, size)][SourceIndex(x, mx, size)] == v
  }

  /** The in-bounds samples among the first `n` taps of square row `my`, left
      to right. */
  function RowTaps(g: seq<seq<real>>, S: nat, L: nat, size: nat, y: nat, x: nat, my: nat, n: nat): seq<real>
    requires Rect(g, S, L) && my < size && n <= size
  {
    if n == 0 then []
    else
      RowTaps(g, S, L, size, y, x, my, n - 1) +
      (if TapInBounds(S, L, size, size, y, x, my, n - 1)
       then [g[SourceIndex(y, my, size)][SourceIndex(x, n - 1, size)]]
       else [])
  }

  /** The in-bounds samples of the first `m` square rows, in collection order. */
  function WindowTaps(g: seq<seq<real>>, S: nat, L: nat, size: nat, y: nat, x: nat, m: nat): seq<real>
    requires Rect(g, S, L) && m <= size
  {
    if m == 0 then [] else WindowTaps(g, S, L, size, y, x, m - 1) + RowTaps(g, S, L, size, y, x, m - 1, size)
  }

  /** The samples the filter collects for output (y, x). */
  function Window(g: seq<seq<real>>, S: nat, L: nat, size: nat, y: nat, x: nat): seq<real>
    requires Rect(g, S, L)
  {
    WindowTaps(g, S, L, size, y, x, size)
  }

  /** A square row whose source row is outside the grid contributes nothing,
      which is why the loop may skip it as a whole. */
  lemma {:induction false} RowTapsOutside(g: seq<seq<real>>, S: nat, L: nat, size: nat, y: nat, x: nat, my: nat, n: nat)
    requires Rect(g, S, L) && my < size && n <= size
    requires !(0 <= SourceIndex(y, my, size) < L)
    ensures RowTaps(g, S, L, size, y, x, my, n) == []
  {
    if n > 0 {
      RowTapsOutside(g, S, L, size, y, x, my, n - 1);
    }
  }

  /** A sample is among the first `n` taps of row `my` exactly when one of those
      taps is in bounds and holds it. */
  lemma {:induction false} RowMembers(g: seq<seq<real>>, S: nat, L: nat, size: nat, y: nat, x: nat, my: nat, n: nat, v: real)
    requires Rect(g, S, L) && my < size && n <= size
    ensures v in RowTaps(g, S, L, size, y, x, my, n) <==> exists mx :: 0 <= mx < n && TapHolds(g, S, L, size, y, x, my, mx, v)
  {
    if n > 0 {
      RowMembers(g, S, L, size, y, x, my, n - 1, v);
      if TapHolds(g, S, L, size, y, x, my, n - 1, v) {
        assert v in RowTaps(g, S, L, size, y, x, my, n);
      }
    }
  }

  /** A sample is among the first `m` rows of the window exactly when some tap
      of those rows is in bounds and holds it. */
  lemma {:induction false} WindowMembers(g: seq<seq<real>>, S: nat, L: nat, size: nat, y: nat, x: nat, m: nat, v: real)
    requires Rect(g, S, L) && m <= size
    ensures v in WindowTaps(g, S, L, size, y, x, m) <==>
              exists my, mx :: 0 <= my < m && TapHolds(g, S, L, size, y, x, my, mx, v)
  {
    if m > 0 {
      var last := m - 1;
      var before, row := WindowTaps(g, S, L, size, y, x, last), RowTaps(g, S, L, size, y, x, last, size);
      assert WindowTaps(g, S, L, size, y, x, m) == before + row;
      WindowMembers(g, S, L, size, y, x, last, v);
      RowMembers(g, S, L, size, y, x, last, size, v);
      if v in before + row {
        if v in before {
          var my, mx :| 0 <= my < last && TapHolds(g, S, L, size, y, x, my, mx, v);
          assert 0 <= my < m;
        } else {
          var mx :| 0 <= mx < size && TapHolds(g, S, L, size, y, x, last, mx, v);
          assert 0 <= last < m;
        }
      }
      if exists my, mx :: 0 <= my < m && TapHolds(g, S, L, size, y, x, my, mx, v) {
        var my, mx :| 0 <= my < m && TapHolds(g, S, L, size, y, x, my, mx, v);
        if my < last {
          assert v in before;
        } else {
          assert 0 <= mx < size;
          assert v in row;
        }
      }
    }
  }

  /** The window of an output cell holds the sample at that cell, so it is never
      empty. */
  lemma CentreInWindow(g: seq<seq<real>>, S: nat, L: nat, size: nat, y: nat, x: nat)
    requires Rect(g, S, L) && 0 < size && y < L && x < S
    ensures g[y][x] in Window(g, S, L, size, y, x)
    ensures |Window(g, S, L, size, y, x)| > 0
  {
    assert TapHolds(g, S, L, size, y, x, size / 2, size / 2, g[y][x]);
    WindowMembers(g, S, L, size, y, x, size, g[y][x]);
  }

  /** Every collected sample is a sample of the grid, within `size / 2` rows and
      columns of the output cell. */
  lemma WindowWithinImage(g: seq<seq<real>>, S: nat, L: nat, size: nat, y: nat, x: nat, v: real)
    requires Rect(g, S, L) && v in Window(g, S, L, size, y, x)
    ensures exists a, b :: 0 <= a < L && 0 <= b < S && y - size / 2 <= a <= y + size / 2 &&
                           x - size / 2 <= b <= x + size / 2 && g[a][b] == v
    ensures v in Flatten(g)
  {
    WindowMembers(g, S, L, size, y, x, size, v);
    var my, mx :| 0 <= my < size && TapHolds(g, S, L, size, y, x, my, mx, v);
    var a, b := SourceIndex(y, my, size), SourceIndex(x, mx, size);
    assert 0 <= a < L && 0 <= b < S && g[a][b] == v;
    FlattenMember(g, v);
    assert v in g[a];
  }

  /** With size 1 the window of a cell is that cell's sample alone. */
  lemma SingleTapWindow(g: seq<seq<real>>, S: nat, L: nat, y: nat, x: nat)
    requires Rect(g, S, L) && y < L && x < S
    ensures Window(g, S, L, 1, y, x) == [g[y][x]]
  {
    assert SourceIndex(y, 0, 1) == y && SourceIndex(x, 0, 1) == x;
    assert RowTaps(g, S, L, 1, y, x, 0, 1) == RowTaps(g, S, L, 1, y, x, 0, 0) + [g[y][x]] == [g[y][x]];
    assert WindowTaps(g, S, L, 1, y, x, 1) == WindowTaps(g, S, L, 1, y, x, 0) + RowTaps(g, S, L, 1, y, x, 0, 1);
  }

  // ---------------------------------------------------------------------------
  // The filter

  /** The median the filter stores at (y, x): the element at index count / 2 of
      the sorted window. */
  function MedianAt(g: seq<seq<real>>, S: nat, L: nat, size: nat, y: nat, x: nat): (m: real)
    requires Rect(g, S, L) && 0 < size && y < L && x < S
    ensures m in Window(g, S, L, size, y, x)
  {
    var w := Window(g, S, L, size, y, x);
    CentreInWindow(g, S, L, size, y, x);
    var sorted := SortSpec(w);
    assert sorted[|w| / 2] in multiset(w);
    sorted[|w| / 2]
  }

  /** A median never leaves the image: it is one of its samples, so it lies
      between the least and the greatest of them. */
  lemma MedianWithinImage(g: seq<seq<real>>, S: nat, L: nat, size: nat, y: nat, x: nat)
    requires Rect(g, S, L) && 0 < size && y < L && x < S
    ensures MedianAt(g, S, L, size, y, x) in Flatten(g)
    ensures SeqMin(g[y][x], Flatten(g)) <= MedianAt(g, S, L, size, y, x) <= SeqMax(g[y][x], Flatten(g))
  {
    var m := MedianAt(g, S, L, size, y, x);
    WindowWithinImage(g, S, L, size, y, x, m);
    var n :| 0 <= n < |Flatten(g)| && Flatten(g)[n] == m;
  }

  /** A window of size 1 makes the filter the identity. */
  lemma SizeOneIdentity(g: seq<seq<real>>, S: nat, L: nat, y: nat, x: nat)
    requires Rect(g, S, L) && y < L && x < S
    ensures MedianAt(g, S, L, 1, y, x) == g[y][x]
  {
    SingleTapWindow(g, S, L, y, x);
  }

  /** The window loops of `applyMedianFilter` for output (y, x): `push_back` of
      every in-bounds sample, row by row. */
  method CollectWindow(raw: FloatImage, size: nat, y: nat, x: nat) returns (kernelSamples: seq<real>)
    requires raw.Valid()
    ensures kernelSamples == Window(raw.Contents, raw.samples, raw.lines, size, y, x)
  {
    ghost var g := raw.Contents;
    kernelSamples := [];
    var my := 0;
    while my < size
      invariant 0 <= my <= size
      invariant kernelSamples == WindowTaps(g, raw.samples, raw.lines, size, y, x, my)
    {
      var rawY := y + my - size / 2;
      if rawY < 0 || rawY >= raw.lines {
        RowTapsOutside(g, raw.samples, raw.lines, size, y, x, my, size);
      } else {
        var rawLine := raw.image[rawY];
        ghost var before := kernelSamples;
        var mx := 0;
        while mx < size
          invariant 0 <= mx <= size
          invariant kernelSamples == before + RowTaps(g, raw.samples, raw.lines, size, y, x, my, mx)
        {
          var rawX := x + mx - size / 2;
          if 0 <= rawX < raw.samples {
            assert rawLine.data[rawX] == g[rawY][rawX];
            kernelSamples := kernelSamples + [rawLine.data[rawX]];
          }
          mx := mx + 1;
        }
      }
      my := my + 1;
    }
  }

  /** Sorts the collected samples in place and takes the one at count / 2. */
  method PickMedian(kernelSamples: seq<real>) returns (median: real)
    requires |kernelSamples| > 0
    ensures median == SortSpec(kernelSamples)[|kernelSamples| / 2]
  {
    var sampleCount := |kernelSamples|;
    var buffer := new real[sampleCount](i requires 0 <= i < sampleCount => kernelSamples[i]);
    assert buffer[..] == kernelSamples;
    BubbleSort(buffer);
    SortedUnique(buffer[..], SortSpec(kernelSamples));
    median := buffer[sampleCount / 2];
  }

  /** `applyMedianFilter`: a new image of the same dimensions whose every sample
      is the median of the window around it; the input is not changed. */
  method MedianFilter(raw: FloatImage, size: byte) returns (target: FloatImage)
    requires raw.Valid() && raw.bands == 1 && size % 2 == 1
    ensures target.Valid() && fresh(target.Repr)
    ensures target.samples == raw.samples && target.lines == raw.lines && target.bands == raw.bands
    ensures forall y, x :: 0 <= y < raw.lines && 0 <= x < raw.samples ==>
              target.Contents[y][x] == MedianAt(raw.Contents, raw.samples, raw.lines, size, y, x)
  {
    target := new FloatImage(raw.samples, raw.lines, raw.bands, false);
    var y := 0;
    while y < raw.lines
      invariant 0 <= y <= raw.lines
      invariant target.Valid() && fresh(target.Repr)
      invariant target.samples == raw.samples && target.lines == raw.lines
      invariant forall i, c :: 0 <= i < y && 0 <= c < raw.samples ==>
        target.Contents[i][c] == MedianAt(raw.Contents, raw.samples, raw.lines, size, i, c)
    {
      MedianLine(raw, size, target, y);
      y := y + 1;
    }
  }

  /** One output line of `applyMedianFilter`; the window buffer is emptied after
      every output sample, so nothing carries over from one cell to the next. */
  method MedianLine(raw: FloatImage, size: byte, target: FloatImage, y: nat)
    requires raw.Valid() && target.Valid() && 0 < size && y < raw.lines
    requires target.samples == raw.samples && target.lines == raw.lines
    requires target.Repr !! raw.Repr
    modifies target, target.Repr
    ensures target.Valid() && unchanged(raw)
    ensures forall i, c :: 0 <= i < raw.lines && 0 <= c < raw.samples ==>
      target.Contents[i][c] == if i == y then MedianAt(raw.Contents, raw.samples, raw.lines, size, i, c)
                               else old(target.Contents[i][c])
  {
    var kernelSamples: seq<real> := [];
    var x := 0;
    while x < raw.samples
      invariant 0 <= x <= raw.samples
      invariant target.Valid() && unchanged(raw)
      invariant kernelSamples == []
      invariant forall i, c :: 0 <= i < raw.lines && 0 <= c < raw.samples ==>
        target.Contents[i][c] == if i == y && c < x then MedianAt(raw.Contents, raw.samples, raw.lines, size, i, c)
                                 else old(target.Contents[i][c])
    {
      kernelSamples := CollectWindow(raw, size, y, x);
      CentreInWindow(raw.Contents, raw.samples, raw.lines, size, y, x);
      var median := PickMedian(kernelSamples);
      target.Set(x, y, median);
      kernelSamples := [];
      x := x + 1;
    }
  }

  /** `convolve` and `applyMedianFilter` fetch the source row (and sample) of a
      tap before testing that it is inside the grid: at the top-left cell the
      first tap of any window of size 3 or more is row -size/2, outside the
      grid, and at the bottom-right cell the last one is past the last row. */
  lemma BorderFetchesOutsideGrid(S: nat, L: nat, size: nat)
    requires 3 <= size && 0 < S && 0 < L
    ensures SourceIndex(0, 0, size) < 0
    ensures !TapInBounds(S, L, size, size, 0, 0, 0, 0)
    ensures SourceIndex(L - 1, size - 1, size) >= L && SourceIndex(S - 1, size - 1, size) >= S
  {
  }

  /** Exactly the cells within size/2 of the first row, or within the window's
      reach below the centre of the last row, fetch a row outside the grid: row
      y of an L-row grid has a tap outside [0, L) exactly when y < size/2 or
      y + (size - 1 - size/2) >= L. The same holds for columns. */
  lemma FetchesOutsideExactly(L: nat, size: nat, y: nat)
    requires y < L && 0 < size
    ensures (exists m :: 0 <= m < size && !(0 <= SourceIndex(y, m, size) < L))
            <==> (y < size / 2 || y + (size - 1 - size / 2) >= L)
  {
    if y < size / 2 {
      assert SourceIndex(y, 0, size) < 0;
    } else if y + (size - 1 - size / 2) >= L {
      assert SourceIndex(y, size - 1, size) >= L;
    } else {
      forall m | 0 <= m < size
        ensures 0 <= SourceIndex(y, m, size) < L
      {
      }
    }
  }
}
