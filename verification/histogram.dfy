/** The normalised histogram of a single-band image over [low, high]: each
    sample is placed at t = (v - low) / (high - low), samples with t outside
    [0, 1] are skipped, the others are counted in bin floor(t * classCount),
    per row first and then added up row by row, and every bin is divided by the
    number of counted samples. */
module Histogram {
  import opened Grids

  /** Where `v` lies in [low, high], scaled to [0, 1] by the inverse width. */
  function Position(v: real, low: real, high: real): real
    requires low < high
  {
    (v - low) * (1.0 / (high - low))
  }

  /** Whether `v` is counted at all. */
  predicate InRange(v: real, low: real, high: real)
    requires low < high
  {
    0.0 <= Position(v, low, high) <= 1.0
  }

  /** The samples counted are exactly those inside [low, high]. */
  lemma InRangeBounds(v: real, low: real, high: real)
    requires low < high
    ensures InRange(v, low, high) <==> low <= v <= high
    ensures Position(v, low, high) == 0.0 <==> v == low
    ensures Position(v, low, high) == 1.0 <==> v == high
  {
    var w := high - low;
    assert Position(v, low, high) * w == v - low;
  }

  /** The bin index as `buildHistogram` computes it, floor(t * classCount). */
  function BinAsWritten(t: real, classCount: nat): int
  {
    (t * (classCount as real)).Floor
  }

  /** The bin of a counted position: bin c holds [c / classCount, (c + 1) /
      classCount), and the top position 1 goes into the last bin. */
  function Bin(t: real, classCount: nat): (c: nat)
    requires 0.0 <= t <= 1.0 && 0 < classCount
    ensures c < classCount
    ensures t < 1.0 ==> (c as real) <= t * (classCount as real) < (c + 1) as real
    ensures t == 1.0 ==> c == classCount - 1
  {
    ScaledBounds(t, classCount as real);
    var c := BinAsWritten(t, classCount);
    if c == classCount then classCount - 1 else c
  }

  lemma ScaledBounds(t: real, k: real)
    requires 0.0 <= t <= 1.0 && 0.0 < k
    ensures 0.0 <= t * k <= k
    ensures t < 1.0 ==> t * k < k
    ensures t == 1.0 ==> t * k == k
  {
  }

  /** A sample equal to `high` is counted (its position is 1) but gets bin index
      classCount, one past the last bin. */
  lemma TopSampleOverflows(low: real, high: real, classCount: nat)
    requires low < high && 0 < classCount
    ensures InRange(high, low, high)
    ensures BinAsWritten(Position(high, low, high), classCount) == classCount
  {
    InRangeBounds(high, low, high);
  }

  /** Below the top, the corrected bin is the bin as written. */
  lemma BinAgreesBelowTop(t: real, classCount: nat)
    requires 0.0 <= t < 1.0 && 0 < classCount
    ensures Bin(t, classCount) == BinAsWritten(t, classCount)
  {
  }

  // ---------------------------------------------------------------------------
  // Counts

  /** How many samples of `s` land in bin `c`. */
  function BinCount(s: seq<real>, low: real, high: real, classCount: nat, c: nat): nat
    requires low < high && 0 < classCount
  {
    if s == [] then 0
    else
      var v := s[|s| - 1];
      BinCount(s[..|s| - 1], low, high, classCount, c) +
      (if InRange(v, low, high) && Bin(Position(v, low, high), classCount) == c then 1 else 0)
  }

  /** The count of every bin after one more sample of `line`. */
  lemma BinCountSnoc(line: seq<real>, x: nat, low: real, high: real, classCount: nat)
    requires low < high && 0 < classCount && x < |line|
    ensures forall c :: (BinCount(line[..x + 1], low, high, classCount, c) ==
      BinCount(line[..x], low, high, classCount, c) +
      (if InRange(line[x], low, high) && Bin(Position(line[x], low, high), classCount) == c then 1 else 0))
  {
    assert line[..x + 1][..x] == line[..x];
  }

  /** How many samples of `s` are counted at all. */
  function InRangeCount(s: seq<real>, low: real, high: real): nat
    requires low < high
  {
    if s == [] then 0
    else InRangeCount(s[..|s| - 1], low, high) + (if InRange(s[|s| - 1], low, high) then 1 else 0)
  }

  /** The counts of the first `n` bins, added up. */
  function ClassTotal(s: seq<real>, low: real, high: real, classCount: nat, n: nat): nat
    requires low < high && 0 < classCount
  {
    if n == 0 then 0 else ClassTotal(s, low, high, classCount, n - 1) + BinCount(s, low, high, classCount, n - 1)
  }

  lemma {:induction false} BinCountAppend(a: seq<real>, b: seq<real>, low: real, high: real, classCount: nat, c: nat)
    requires low < high && 0 < classCount
    ensures BinCount(a + b, low, high, classCount, c) ==
            BinCount(a, low, high, classCount, c) + BinCount(b, low, high, classCount, c)
  {
    if b != [] {
      var n := |b| - 1;
      assert (a + b)[..|a + b| - 1] == a + b[..n];
      BinCountAppend(a, b[..n], low, high, classCount, c);
    } else {
      assert a + b == a;
    }
  }

  lemma {:induction false} InRangeCountAppend(a: seq<real>, b: seq<real>, low: real, high: real)
    requires low < high
    ensures InRangeCount(a + b, low, high) == InRangeCount(a, low, high) + InRangeCount(b, low, high)
  {
    if b != [] {
      var n := |b| - 1;
      assert (a + b)[..|a + b| - 1] == a + b[..n];
      InRangeCountAppend(a, b[..n], low, high);
    } else {
      assert a + b == a;
    }
  }

  /** One more sample adds one to the total of the first `n` bins exactly when
      it is counted in one of them. */
  lemma {:induction false} ClassTotalSnoc(s: seq<real>, v: real, low: real, high: real, classCount: nat, n: nat)
    requires low < high && 0 < classCount
    ensures ClassTotal(s + [v], low, high, classCount, n) ==
            ClassTotal(s, low, high, classCount, n) +
            (if InRange(v, low, high) && Bin(Position(v, low, high), classCount) < n then 1 else 0)
  {
    assert (s + [v])[..|s|] == s;
    if n > 0 {
      ClassTotalSnoc(s, v, low, high, classCount, n - 1);
    }
  }

  /** The bins partition the counted samples: every counted sample is in
      exactly one bin. */
  lemma {:induction false} BinsPartition(s: seq<real>, low: real, high: real, classCount: nat)
    requires low < high && 0 < classCount
    ensures ClassTotal(s, low, high, classCount, classCount) == InRangeCount(s, low, high)
  {
    if s == [] {
      EmptyClassTotal(low, high, classCount, classCount);
    } else {
      var n := |s| - 1;
      assert s == s[..n] + [s[n]];
      BinsPartition(s[..n], low, high, classCount);
      ClassTotalSnoc(s[..n], s[n], low, high, classCount, classCount);
    }
  }

  lemma {:induction false} EmptyClassTotal(low: real, high: real, classCount: nat, n: nat)
    requires low < high && 0 < classCount
    ensures ClassTotal([], low, high, classCount, n) == 0
  {
    if n > 0 {
      EmptyClassTotal(low, high, classCount, n - 1);
    }
  }

  /** A bin never holds more than all counted samples. */
  lemma {:induction false} BinWithinTotal(s: seq<real>, low: real, high: real, classCount: nat, n: nat, c: nat)
    requires low < high && 0 < classCount && c < n
    ensures BinCount(s, low, high, classCount, c) <= ClassTotal(s, low, high, classCount, n)
  {
    if c < n - 1 {
      BinWithinTotal(s, low, high, classCount, n - 1, c);
    }
  }

  // ---------------------------------------------------------------------------
  // Normalisation

  /** The normalised values of the first `n` bins, added up. */
  function NormalisedTotal(s: seq<real>, low: real, high: real, classCount: nat, n: nat, count: real): real
    requires low < high && 0 < classCount && count > 0.0
  {
    if n == 0 then 0.0
    else NormalisedTotal(s, low, high, classCount, n - 1, count) + (BinCount(s, low, high, classCount, n - 1) as real) / count
  }

  lemma {:induction false} NormalisedTotalIsQuotient(s: seq<real>, low: real, high: real, classCount: nat, n: nat, count: real)
    requires low < high && 0 < classCount && count > 0.0
    ensures NormalisedTotal(s, low, high, classCount, n, count) == (ClassTotal(s, low, high, classCount, n) as real) / count
  {
    if n > 0 {
      NormalisedTotalIsQuotient(s, low, high, classCount, n - 1, count);
      SumOfQuotients(ClassTotal(s, low, high, classCount, n - 1) as real,
                     BinCount(s, low, high, classCount, n - 1) as real, count);
    }
  }

  lemma SumOfQuotients(a: real, b: real, n: real)
    requires n > 0.0
    ensures a / n + b / n == (a + b) / n
  {
    var inv := 1.0 / n;
    assert a / n == a * inv;
    assert b / n == b * inv;
    assert (a + b) / n == (a + b) * inv;
  }

  /** When some sample is counted, every normalised bin lies in [0, 1] and the
      bins add up to 1. */
  lemma HistogramNormalised(s: seq<real>, low: real, high: real, classCount: nat)
    requires low < high && 0 < classCount && InRangeCount(s, low, high) > 0
    ensures forall c :: 0 <= c < classCount ==>
              0.0 <= (BinCount(s, low, high, classCount, c) as real) / (InRangeCount(s, low, high) as real) <= 1.0
    ensures NormalisedTotal(s, low, high, classCount, classCount, InRangeCount(s, low, high) as real) == 1.0
  {
    var total := InRangeCount(s, low, high);
    BinsPartition(s, low, high, classCount);
    forall c | 0 <= c < classCount
      ensures 0.0 <= (BinCount(s, low, high, classCount, c) as real) / (total as real) <= 1.0
    {
      BinWithinTotal(s, low, high, classCount, classCount, c);
      UnitFraction(BinCount(s, low, high, classCount, c) as real, total as real);
    }
    NormalisedTotalIsQuotient(s, low, high, classCount, classCount, total as real);
    SelfQuotient(total as real);
  }

  lemma SelfQuotient(n: real)
    requires n > 0.0
    ensures n / n == 1.0
  {
  }

  lemma UnitFraction(a: real, n: real)
    requires 0.0 <= a <= n && n > 0.0
    ensures 0.0 <= a / n <= 1.0
  {
  }

  // ---------------------------------------------------------------------------
  // `buildHistogram`

  /** `buildHistogram`: the per-row counts, their row-by-row sum and the
      division of every bin by the number of counted samples. Nothing counted
      means 0 / 0 in every bin. */
  method BuildHistogram(image: seq<seq<real>>, samples: nat, lines: nat, bands: nat, lowValue: real, highValue: real,
                        classCount: byte)
    returns (histogram: array<Score>)
    requires Rect(image, samples, lines) && bands == 1 && lowValue < highValue && 0 < classCount
    ensures fresh(histogram) && histogram.Length == classCount
    ensures forall c :: 0 <= c < classCount ==>
              histogram[c] == Quotient(BinCount(Flatten(image), lowValue, highValue, classCount, c) as real,
                                       InRangeCount(Flatten(image), lowValue, highValue) as real)
  {
    var lineHistograms := LineHistograms(image, samples, lines, lowValue, highValue, classCount);
    var composite, count := Composite(image, samples, lines, lowValue, highValue, classCount, lineHistograms);
    histogram := Normalise(composite, count);
  }

  /** The first loop of `buildHistogram`: the counts of every row, one row of
      the table per row of the image. */
  method LineHistograms(image: seq<seq<real>>, samples: nat, lines: nat, lowValue: real, highValue: real, classCount: byte)
    returns (lineHistograms: array2<real>)
    requires Rect(image, samples, lines) && lowValue < highValue && 0 < classCount
    ensures fresh(lineHistograms) && lineHistograms.Length0 == lines && lineHistograms.Length1 == classCount
    ensures forall i, c :: 0 <= i < lines && 0 <= c < classCount ==>
      lineHistograms[i, c] == BinCount(image[i], lowValue, highValue, classCount, c) as real
  {
    lineHistograms := new real[lines, classCount]((_, _) => 0.0);
    var y := 0;
    while y < lines
      invariant 0 <= y <= lines
      invariant forall i, c :: 0 <= i < lines && 0 <= c < classCount ==>
        lineHistograms[i, c] == if i < y then BinCount(image[i], lowValue, highValue, classCount, c) as real else 0.0
    {
      LineHistogram(image, samples, lines, lowValue, highValue, classCount, lineHistograms, y);
      y := y + 1;
    }
  }

  /** The second loop of `buildHistogram`: the per-row counts summed bin by bin,
      and the number of samples counted. */
  method Composite(image: seq<seq<real>>, samples: nat, lines: nat, lowValue: real, highValue: real, classCount: byte,
                   lineHistograms: array2<real>)
    returns (composite: array<real>, count: real)
    requires Rect(image, samples, lines) && lowValue < highValue && 0 < classCount
    requires lineHistograms.Length0 == lines && lineHistograms.Length1 == classCount
    requires forall i, c :: 0 <= i < lines && 0 <= c < classCount ==>
      lineHistograms[i, c] == BinCount(image[i], lowValue, highValue, classCount, c) as real
    ensures fresh(composite) && composite.Length == classCount
    ensures forall c :: 0 <= c < classCount ==>
      composite[c] == BinCount(Flatten(image), lowValue, highValue, classCount, c) as real
    ensures count == InRangeCount(Flatten(image), lowValue, highValue) as real
  {
    composite := new real[classCount](_ => 0.0);
    count := 0.0;
    var y := 0;
    while y < lines
      invariant 0 <= y <= lines
      invariant forall c :: 0 <= c < classCount ==>
        composite[c] == BinCount(Flatten(image[..y]), lowValue, highValue, classCount, c) as real
      invariant count == InRangeCount(Flatten(image[..y]), lowValue, highValue) as real
      invariant forall i, c :: 0 <= i < lines && 0 <= c < classCount ==>
        lineHistograms[i, c] == BinCount(image[i], lowValue, highValue, classCount, c) as real
    {
      count := AggregateLine(image, lines, lowValue, highValue, classCount, lineHistograms, composite, count, y);
      y := y + 1;
    }
    assert image[..y] == image;
  }

  /** The last loop of `buildHistogram`: every bin times 1 / count. In exact
      arithmetic that is the quotient bin / count, and 0 * (1 / 0), NaN, in
      every bin when nothing was counted. */
  method Normalise(composite: array<real>, count: real) returns (histogram: array<Score>)
    ensures fresh(histogram) && histogram.Length == composite.Length
    ensures forall c :: 0 <= c < composite.Length ==> histogram[c] == Quotient(composite[c], count)
  {
    histogram := new Score[composite.Length];
    var c := 0;
    while c < composite.Length
      invariant 0 <= c <= composite.Length
      invariant forall i :: 0 <= i < c ==> histogram[i] == Quotient(composite[i], count)
    {
      histogram[c] := Quotient(composite[c], count);
      c := c + 1;
    }
  }

  /** The counts of row `y`, into row `y` of the per-row table. */
  method LineHistogram(image: seq<seq<real>>, samples: nat, lines: nat, lowValue: real, highValue: real, classCount: byte,
                       lineHistograms: array2<real>, y: nat)
    requires Rect(image, samples, lines) && lowValue < highValue && 0 < classCount && y < lines
    requires lineHistograms.Length0 == lines && lineHistograms.Length1 == classCount
    requires forall c :: 0 <= c < classCount ==> lineHistograms[y, c] == 0.0
    modifies lineHistograms
    ensures forall i, c :: 0 <= i < lines && 0 <= c < classCount ==>
      lineHistograms[i, c] == if i == y then BinCount(image[i], lowValue, highValue, classCount, c) as real
                              else old(lineHistograms[i, c])
  {
    var width := highValue - lowValue;
    var invWidth := 1.0 / width;
    var fCount := classCount as real;
    var line := image[y];
    var x := 0;
    while x < samples
      invariant 0 <= x <= samples
      invariant forall i, c :: 0 <= i < lines && 0 <= c < classCount ==>
        lineHistograms[i, c] == if i == y then BinCount(line[..x], lowValue, highValue, classCount, c) as real
                                else old(lineHistograms[i, c])
    {
      var sample := line[x];
      sample := sample - lowValue;
      ghost var offset := sample;
      sample := sample * invWidth;
      assert sample == Position(line[x], lowValue, highValue) by {
        SameProduct(offset, invWidth, line[x] - lowValue, 1.0 / (highValue - lowValue));
      }
      BinCountSnoc(line, x, lowValue, highValue, classCount);
      if !(sample < 0.0 || sample > 1.0) {
        var c := Bin(sample, classCount);
        lineHistograms[y, c] := lineHistograms[y, c] + 1.0;
      }
      x := x + 1;
    }
    assert line[..x] == line;
  }

  /** Adds the counts of row `y` into the composite and into the total count. */
  method AggregateLine(image: seq<seq<real>>, lines: nat, lowValue: real, highValue: real, classCount: byte,
                       lineHistograms: array2<real>, composite: array<real>, count0: real, y: nat)
    returns (count: real)
    requires lowValue < highValue && 0 < classCount && y < lines == |image|
    requires lineHistograms.Length0 == lines && lineHistograms.Length1 == classCount && composite.Length == classCount
    requires forall c :: 0 <= c < classCount ==>
      lineHistograms[y, c] == BinCount(image[y], lowValue, highValue, classCount, c) as real
    requires forall c :: 0 <= c < classCount ==>
      composite[c] == BinCount(Flatten(image[..y]), lowValue, highValue, classCount, c) as real
    requires count0 == InRangeCount(Flatten(image[..y]), lowValue, highValue) as real
    modifies composite
    ensures forall c :: 0 <= c < classCount ==>
      composite[c] == BinCount(Flatten(image[..y + 1]), lowValue, highValue, classCount, c) as real
    ensures count == InRangeCount(Flatten(image[..y + 1]), lowValue, highValue) as real
  {
    ghost var before := Flatten(image[..y]);
    ghost var row := image[y];
    FlattenPrefix(image, y);
    count := count0;
    var c := 0;
    while c < classCount
      invariant 0 <= c <= classCount
      invariant forall i :: 0 <= i < classCount ==>
        composite[i] == (BinCount(before, lowValue, highValue, classCount, i) +
                         (if i < c then BinCount(row, lowValue, highValue, classCount, i) else 0)) as real
      invariant count == (InRangeCount(before, lowValue, highValue) + ClassTotal(row, lowValue, highValue, classCount, c)) as real
    {
      composite[c] := composite[c] + lineHistograms[y, c];
      count := count + lineHistograms[y, c];
      c := c + 1;
    }
    BinsPartition(row, lowValue, highValue, classCount);
    InRangeCountAppend(before, row, lowValue, highValue);
    forall i | 0 <= i < classCount
      ensures composite[i] == BinCount(before + row, lowValue, highValue, classCount, i) as real
    {
      BinCountAppend(before, row, lowValue, highValue, classCount, i);
    }
  }
}
