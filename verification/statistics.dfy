/** Image statistics: the least and greatest sample, the mean and the sample
    variance of a single-band image. Three variants compute them: a naive
    two-pass one, a divide-and-conquer one that first reduces every line on
    its own, and a forward one that gathers sums and sums of squares of a
    rectangular region in a single pass. The reported standard deviation is the
    square root of the variance; this model states the variance. */
module Statistics {
  import opened Grids

  /** The record the three variants return. */
  datatype Stats = Stats(min: real, max: real, mean: real, variance: real)

  /** Arithmetic mean of a `samples` x `lines` grid. */
  function Mean(g: seq<seq<real>>, samples: nat, lines: nat): real
    requires samples > 0 && lines > 0
  {
    Total(g) / ((samples * lines) as real)
  }

  /** The variance of the two-pass variants: squared deviations from the mean,
      scaled by 1/(samples - 1) per line and then by 1/lines, that is divided
      by (samples - 1) * lines rather than by (samples * lines) - 1. */
  function LineVariance(g: seq<seq<real>>, samples: nat, lines: nat): real
    requires samples >= 2 && lines >= 1
  {
    SqDev(Flatten(g), Mean(g, samples, lines)) / (((samples - 1) * lines) as real)
  }

  /** The variance of the forward variant: squared deviations from the mean
      divided by the number of samples less one. */
  function SampleVariance(g: seq<seq<real>>, samples: nat, lines: nat): real
    requires samples > 0 && lines > 0 && samples * lines >= 2
  {
    SqDev(Flatten(g), Mean(g, samples, lines)) / ((samples * lines - 1) as real)
  }

  /** The inclusive window of columns first..last and rows top..bottom. */
  function Region(g: seq<seq<real>>, samples: nat, first: nat, last: nat, top: nat, bottom: nat): (r: seq<seq<real>>)
    requires Rect(g, samples, |g|) && first <= last < samples && top <= bottom < |g|
    ensures Rect(r, last - first + 1, bottom - top + 1)
    ensures forall y, x :: 0 <= y <= bottom - top && 0 <= x <= last - first ==> r[y][x] == g[top + y][first + x]
  {
    seq(bottom - top + 1, y requires 0 <= y < bottom - top + 1 => g[top + y][first..last + 1])
  }

  /** Scaling by 1/a and then by 1/b is dividing by a * b. */
  lemma ScaleTwice(m: real, t: real, a: nat, b: nat, ia: real, ib: real)
    requires a > 0 && b > 0 && ia == 1.0 / a as real && ib == 1.0 / b as real && Scaled(m, t, ia)
    ensures m * ib == t / ((a * b) as real)
  {
    var ra, rb := a as real, b as real;
    assert (a * b) as real == ra * rb;
    assert (1.0 / ra) * (1.0 / rb) == 1.0 / (ra * rb);
  }

  /** Scaling by the product 1/b * 1/a is dividing by a * b. */
  lemma ScaleByProduct(t: real, a: nat, b: nat, ia: real, ib: real, scale: real, r: real)
    requires a > 0 && b > 0 && ia == 1.0 / a as real && ib == 1.0 / b as real
    requires scale == ib * ia && r == t * scale
    ensures r == t / ((a * b) as real)
  {
    var ra, rb := a as real, b as real;
    assert (a * b) as real == ra * rb;
    assert (1.0 / rb) * (1.0 / ra) == 1.0 / (ra * rb);
  }

  /** The inner loop over one line: the running sum, and the running minimum
      and maximum continued from `min0` and `max0`. */
  method ScanLine(line: seq<real>, min0: real, max0: real) returns (lineSum: real, min: real, max: real)
    ensures lineSum == Sum(line)
    ensures min == SeqMin(min0, line) && max == SeqMax(max0, line)
  {
    lineSum, min, max := 0.0, min0, max0;
    var x := 0;
    while x < |line|
      invariant 0 <= x <= |line|
      invariant lineSum == Sum(line[..x])
      invariant min == SeqMin(min0, line[..x]) && max == SeqMax(max0, line[..x])
    {
      var sample := line[x];
      SumPrefixStep(line, x);
      MinMaxPrefixStep(line, x, min0, max0);
      lineSum := lineSum + sample;
      if sample < min {
        min := sample;
      }
      if sample > max {
        max := sample;
      }
      x := x + 1;
    }
    assert line[..x] == line;
  }

  /** The inner loop of the second pass: the squared deviations of one line
      from the mean. */
  method LineSquaredDeviations(line: seq<real>, mean: real) returns (rowVariance: real)
    ensures rowVariance == SqDev(line, mean)
  {
    rowVariance := 0.0;
    var x := 0;
    while x < |line|
      invariant 0 <= x <= |line|
      invariant rowVariance == SqDev(line[..x], mean)
    {
      var sample := line[x];
      var diff := sample - mean;
      SqDevPrefixStep(line, x, mean);
      rowVariance := rowVariance + diff * diff;
      x := x + 1;
    }
    assert line[..x] == line;
  }

  /** First pass of the naive variant: the extremes over the whole image and
      the sum of the line totals, each scaled by `invSamples`. */
  method NaiveFirstPass(image: seq<seq<real>>, lines: nat, invSamples: real) returns (min: real, max: real, mean: real)
    requires |image| == lines
    ensures min == SeqMin(FltMax, Flatten(image)) && max == SeqMax(FltMin, Flatten(image))
    ensures Scaled(mean, Total(image), invSamples)
  {
    min, max, mean := FltMax, FltMin, 0.0;
    var y := 0;
    while y < lines
      invariant 0 <= y <= lines
      invariant min == SeqMin(FltMax, Flatten(image[..y]))
      invariant max == SeqMax(FltMin, Flatten(image[..y]))
      invariant Scaled(mean, Total(image[..y]), invSamples)
    {
      var lineSum;
      lineSum, min, max := ScanLine(image[y], min, max);
      assert min == SeqMin(FltMax, Flatten(image[..y + 1])) && max == SeqMax(FltMin, Flatten(image[..y + 1]))
          && Scaled(mean + lineSum * invSamples, Total(image[..y + 1]), invSamples) by {
        RowAppended(image, y, FltMax, FltMin, 0.0);
        ScaledStep(mean, Total(image[..y]), invSamples, lineSum, Total(image[..y + 1]));
      }
      mean := mean + lineSum * invSamples;
      y := y + 1;
    }
    assert image[..y] == image;
  }

  /** Second pass of the naive variant: the sum of the lines' squared
      deviations from `mean`, each scaled by `invSamplesA`. */
  method NaiveSecondPass(image: seq<seq<real>>, lines: nat, mean: real, invSamplesA: real) returns (variance: real)
    requires |image| == lines
    ensures Scaled(variance, SqDev(Flatten(image), mean), invSamplesA)
  {
    variance := 0.0;
    var y := 0;
    while y < lines
      invariant 0 <= y <= lines
      invariant Scaled(variance, SqDev(Flatten(image[..y]), mean), invSamplesA)
    {
      var rowVariance := LineSquaredDeviations(image[y], mean);
      assert Scaled(variance + rowVariance * invSamplesA, SqDev(Flatten(image[..y + 1]), mean), invSamplesA) by {
        RowAppended(image, y, FltMax, FltMin, mean);
        ScaledStep(variance, SqDev(Flatten(image[..y]), mean), invSamplesA, rowVariance, SqDev(Flatten(image[..y + 1]), mean));
      }
      variance := variance + rowVariance * invSamplesA;
      y := y + 1;
    }
    assert image[..y] == image;
  }

  /** Naive two-pass statistics: the first pass finds the extremes and the mean
      (each line's sum scaled by 1/samples, the total by 1/lines), the second
      the squared deviations (each line's scaled by 1/(samples - 1), the total
      by 1/lines). */
  method StatisticsNaive(image: seq<seq<real>>, samples: nat, lines: nat, bands: nat) returns (stats: Stats)
    requires Rect(image, samples, lines) && bands == 1
    requires samples >= 2 && lines >= 1
    ensures stats.min == SeqMin(FltMax, Flatten(image))
    ensures stats.max == SeqMax(FltMin, Flatten(image))
    ensures stats.mean == Mean(image, samples, lines)
    ensures stats.variance == LineVariance(image, samples, lines)
  {
    var invLines, invSamples, invSamplesA := 1.0 / lines as real, 1.0 / samples as real, 1.0 / (samples - 1) as real;
    var min, max, mean := NaiveFirstPass(image, lines, invSamples);
    assert mean * invLines == Mean(image, samples, lines) by {
      ScaleTwice(mean, Total(image), samples, lines, invSamples, invLines);
    }
    mean := mean * invLines;
    var variance := NaiveSecondPass(image, lines, mean, invSamplesA);
    assert variance * invLines == LineVariance(image, samples, lines) by {
      ScaleTwice(variance, SqDev(Flatten(image), mean), samples - 1, lines, invSamplesA, invLines);
    }
    variance := variance * invLines;
    stats := Stats(min, max, mean, variance);
  }

  /** The divide step: every line reduced on its own to its sum, least and
      greatest sample, kept in per-line buffers. */
  method DivideLines(image: seq<seq<real>>, lines: nat) returns (intermediate: array<real>, intermediateMin: array<real>, intermediateMax: array<real>)
    requires |image| == lines
    ensures fresh(intermediate) && fresh(intermediateMin) && fresh(intermediateMax)
    ensures intermediate.Length == intermediateMin.Length == intermediateMax.Length == lines
    ensures forall i :: 0 <= i < lines ==> intermediate[i] == Sum(image[i])
    ensures forall i :: 0 <= i < lines ==> intermediateMin[i] == SeqMin(FltMax, image[i])
    ensures forall i :: 0 <= i < lines ==> intermediateMax[i] == SeqMax(FltMin, image[i])
  {
    intermediate := new real[lines];
    intermediateMin := new real[lines];
    intermediateMax := new real[lines];
    var y := 0;
    while y < lines
      invariant 0 <= y <= lines
      invariant forall i :: 0 <= i < y ==> intermediate[i] == Sum(image[i])
      invariant forall i :: 0 <= i < y ==> intermediateMin[i] == SeqMin(FltMax, image[i])
      invariant forall i :: 0 <= i < y ==> intermediateMax[i] == SeqMax(FltMin, image[i])
    {
      var lineSum, lineMin, lineMax := ScanLine(image[y], FltMax, FltMin);
      intermediate[y] := lineSum;
      intermediateMin[y] := lineMin;
      intermediateMax[y] := lineMax;
      y := y + 1;
    }
  }

  /** The conquer step: the per-line results combined in line order into the
      extremes and the total of the image. */
  method ConquerLines(image: seq<seq<real>>, lines: nat, intermediate: array<real>, intermediateMin: array<real>, intermediateMax: array<real>)
    returns (min: real, max: real, sum: real)
    requires |image| == lines
    requires intermediate.Length == intermediateMin.Length == intermediateMax.Length == lines
    requires forall i :: 0 <= i < lines ==> intermediate[i] == Sum(image[i])
    requires forall i :: 0 <= i < lines ==> intermediateMin[i] == SeqMin(FltMax, image[i])
    requires forall i :: 0 <= i < lines ==> intermediateMax[i] == SeqMax(FltMin, image[i])
    ensures min == SeqMin(FltMax, Flatten(image)) && max == SeqMax(FltMin, Flatten(image))
    ensures sum == Total(image)
  {
    min, max, sum := FltMax, FltMin, 0.0;
    var y := 0;
    while y < lines
      invariant 0 <= y <= lines
      invariant min == SeqMin(FltMax, Flatten(image[..y]))
      invariant max == SeqMax(FltMin, Flatten(image[..y]))
      invariant sum == Total(image[..y])
    {
      var lineMin, lineMax := intermediateMin[y], intermediateMax[y];
      assert (if lineMin < min then lineMin else min) == SeqMin(FltMax, Flatten(image[..y + 1]))
          && (if lineMax > max then lineMax else max) == SeqMax(FltMin, Flatten(image[..y + 1]))
          && sum + intermediate[y] == Total(image[..y + 1]) by {
        RowAppended(image, y, FltMax, FltMin, 0.0);
        SeqMinRestart(min, FltMax, image[y]);
        SeqMaxRestart(max, FltMin, image[y]);
      }
      if lineMin < min {
        min := lineMin;
      }
      if lineMax > max {
        max := lineMax;
      }
      sum := sum + intermediate[y];
      y := y + 1;
    }
    assert image[..y] == image;
  }

  /** The second divide step: each line's squared deviations from `mean`,
      stored over the line sums in the same buffer. */
  method DivideDeviations(image: seq<seq<real>>, lines: nat, mean: real, intermediate: array<real>)
    requires |image| == lines && intermediate.Length == lines
    modifies intermediate
    ensures forall i :: 0 <= i < lines ==> intermediate[i] == SqDev(image[i], mean)
  {
    var y := 0;
    while y < lines
      invariant 0 <= y <= lines
      invariant forall i :: 0 <= i < y ==> intermediate[i] == SqDev(image[i], mean)
    {
      var rowVariance := LineSquaredDeviations(image[y], mean);
      intermediate[y] := rowVariance;
      y := y + 1;
    }
  }

  /** The second conquer step: the per-line squared deviations added up. */
  method ConquerDeviations(image: seq<seq<real>>, lines: nat, mean: real, intermediate: array<real>) returns (variance: real)
    requires |image| == lines && intermediate.Length == lines
    requires forall i :: 0 <= i < lines ==> intermediate[i] == SqDev(image[i], mean)
    ensures variance == SqDev(Flatten(image), mean)
  {
    variance := 0.0;
    var y := 0;
    while y < lines
      invariant 0 <= y <= lines
      invariant variance == SqDev(Flatten(image[..y]), mean)
    {
      assert variance + intermediate[y] == SqDev(Flatten(image[..y + 1]), mean) by {
        RowAppended(image, y, FltMax, FltMin, mean);
      }
      variance := variance + intermediate[y];
      y := y + 1;
    }
    assert image[..y] == image;
  }

  /** Divide-and-conquer statistics: the lines are reduced on their own and
      then combined; the mean is the total scaled by 1/lines * 1/samples and the
      variance the total squared deviation scaled by 1/lines * 1/(samples - 1). */
  method StatisticsDivideConquer(image: seq<seq<real>>, samples: nat, lines: nat, bands: nat) returns (stats: Stats)
    requires Rect(image, samples, lines) && bands == 1
    requires samples >= 2 && lines >= 1
    ensures stats.min == SeqMin(FltMax, Flatten(image))
    ensures stats.max == SeqMax(FltMin, Flatten(image))
    ensures stats.mean == Mean(image, samples, lines)
    ensures stats.variance == LineVariance(image, samples, lines)
  {
    var invLines, invSamples, invSamplesA := 1.0 / lines as real, 1.0 / samples as real, 1.0 / (samples - 1) as real;
    var intermediate, intermediateMin, intermediateMax := DivideLines(image, lines);
    var min, max, sum := ConquerLines(image, lines, intermediate, intermediateMin, intermediateMax);
    var meanScale := invLines * invSamples;
    var mean := sum * meanScale;
    ScaleByProduct(sum, samples, lines, invSamples, invLines, meanScale, mean);
    DivideDeviations(image, lines, mean, intermediate);
    var dev := ConquerDeviations(image, lines, mean, intermediate);
    var varianceScale := invLines * invSamplesA;
    var variance := dev * varianceScale;
    ScaleByProduct(dev, samples - 1, lines, invSamplesA, invLines, varianceScale, variance);
    stats := Stats(min, max, mean, variance);
  }

  /** The shortcut the forward variant takes: with m the mean of s, the sum of
      squared deviations is the sum of squares less m times the sum. */
  lemma ShortcutVariance(s: seq<real>, m: real, total: real, n: real)
    requires total == Sum(s) && n == |s| as real && n > 0.0 && m == total / n
    ensures SumSq(s) - m * total == SqDev(s, m)
  {
    SqDevExpand(s, m);
    assert n * m == total;
    assert n * m * m == m * total;
  }

  /** The inner loop of the forward variant over columns first..last of one
      line: sum, sum of squares and extremes, the extremes starting from
      FLT_MAX and FLT_MIN. */
  method ScanRange(line: seq<real>, first: nat, last: nat) returns (lineSum: real, lineSumSq: real, lineMin: real, lineMax: real)
    requires first <= last < |line|
    ensures lineSum == Sum(line[first..last + 1]) && lineSumSq == SumSq(line[first..last + 1])
    ensures lineMin == SeqMin(FltMax, line[first..last + 1]) && lineMax == SeqMax(FltMin, line[first..last + 1])
  {
    ghost var row := line[first..last + 1];
    lineSum, lineSumSq, lineMin, lineMax := 0.0, 0.0, FltMax, FltMin;
    var x := first;
    while x <= last
      invariant first <= x <= last + 1
      invariant lineSum == Sum(row[..x - first]) && lineSumSq == SumSq(row[..x - first])
      invariant lineMin == SeqMin(FltMax, row[..x - first]) && lineMax == SeqMax(FltMin, row[..x - first])
    {
      var sample := line[x];
      assert lineSum + sample == Sum(row[..x + 1 - first]) && lineSumSq + sample * sample == SumSq(row[..x + 1 - first])
          && (if sample < lineMin then sample else lineMin) == SeqMin(FltMax, row[..x + 1 - first])
          && (if sample > lineMax then sample else lineMax) == SeqMax(FltMin, row[..x + 1 - first]) by {
        SumValueStep(row, x - first, sample);
        MinMaxPrefixStep(row, x - first, FltMax, FltMin);
      }
      lineSum := lineSum + sample;
      lineSumSq := lineSumSq + sample * sample;
      if sample < lineMin {
        lineMin := sample;
      }
      if sample > lineMax {
        lineMax := sample;
      }
      x := x + 1;
    }
    assert row[..x - first] == row;
  }

  /** The single pass of the forward variant: every line of the region reduced
      on its own, into per-line buffers. */
  method DivideRegion(image: seq<seq<real>>, imageSamples: nat, sampleFirst: nat, sampleLast: nat, lineFirst: nat, lineLast: nat)
    returns (intermediateSum: array<real>, intermediateSsq: array<real>, intermediateMin: array<real>, intermediateMax: array<real>)
    requires Rect(image, imageSamples, |image|)
    requires sampleFirst <= sampleLast < imageSamples && lineFirst <= lineLast < |image|
    ensures fresh(intermediateSum) && fresh(intermediateSsq) && fresh(intermediateMin) && fresh(intermediateMax)
    ensures var r := Region(image, imageSamples, sampleFirst, sampleLast, lineFirst, lineLast);
            && intermediateSum.Length == intermediateSsq.Length == |r|
            && intermediateMin.Length == intermediateMax.Length == |r|
            && (forall i :: 0 <= i < |r| ==> intermediateSum[i] == Sum(r[i]) && intermediateSsq[i] == SumSq(r[i]))
            && (forall i :: 0 <= i < |r| ==> intermediateMin[i] == SeqMin(FltMax, r[i]) && intermediateMax[i] == SeqMax(FltMin, r[i]))
  {
    ghost var r := Region(image, imageSamples, sampleFirst, sampleLast, lineFirst, lineLast);
    var lines := lineLast - lineFirst + 1;
    intermediateSum := new real[lines];
    intermediateSsq := new real[lines];
    intermediateMin := new real[lines];
    intermediateMax := new real[lines];
    var y := 0;
    while y < lines
      invariant 0 <= y <= lines
      invariant forall i :: 0 <= i < y ==> intermediateSum[i] == Sum(r[i]) && intermediateSsq[i] == SumSq(r[i])
      invariant forall i :: 0 <= i < y ==> intermediateMin[i] == SeqMin(FltMax, r[i]) && intermediateMax[i] == SeqMax(FltMin, r[i])
    {
      DivideRegionLine(image, imageSamples, sampleFirst, sampleLast, lineFirst, lineLast, y,
                       intermediateSum, intermediateSsq, intermediateMin, intermediateMax);
      y := y + 1;
    }
  }

  /** One line of DivideRegion: slot y of each buffer takes that line's result. */
  method DivideRegionLine(image: seq<seq<real>>, imageSamples: nat, sampleFirst: nat, sampleLast: nat,
                          lineFirst: nat, lineLast: nat, y: nat,
                          intermediateSum: array<real>, intermediateSsq: array<real>, intermediateMin: array<real>,
                          intermediateMax: array<real>)
    requires Rect(image, imageSamples, |image|)
    requires sampleFirst <= sampleLast < imageSamples && lineFirst <= lineLast < |image| && y <= lineLast - lineFirst
    requires intermediateSum.Length == intermediateSsq.Length == intermediateMin.Length == intermediateMax.Length
             == lineLast - lineFirst + 1
    requires intermediateSum != intermediateSsq && intermediateSum != intermediateMin && intermediateSum != intermediateMax
    requires intermediateSsq != intermediateMin && intermediateSsq != intermediateMax && intermediateMin != intermediateMax
    modifies intermediateSum, intermediateSsq, intermediateMin, intermediateMax
    ensures var r := Region(image, imageSamples, sampleFirst, sampleLast, lineFirst, lineLast);
            && intermediateSum[..] == old(intermediateSum[..])[y := Sum(r[y])]
            && intermediateSsq[..] == old(intermediateSsq[..])[y := SumSq(r[y])]
            && intermediateMin[..] == old(intermediateMin[..])[y := SeqMin(FltMax, r[y])]
            && intermediateMax[..] == old(intermediateMax[..])[y := SeqMax(FltMin, r[y])]
  {
    ghost var r := Region(image, imageSamples, sampleFirst, sampleLast, lineFirst, lineLast);
    assert r[y] == image[y + lineFirst][sampleFirst..sampleLast + 1];
    var lineSum, lineSumSq, lineMin, lineMax := ScanRange(image[y + lineFirst], sampleFirst, sampleLast);
    intermediateSum[y] := lineSum;
    intermediateSsq[y] := lineSumSq;
    intermediateMin[y] := lineMin;
    intermediateMax[y] := lineMax;
  }

  /** The conquer step of the forward variant: extremes, sum and sum of squares
      of the region, from its per-line results. */
  method ConquerRegion(ghost r: seq<seq<real>>, lines: nat, intermediateSum: array<real>, intermediateSsq: array<real>,
                       intermediateMin: array<real>, intermediateMax: array<real>)
    returns (min: real, max: real, sum: real, squareSum: real)
    requires |r| == lines
    requires intermediateSum.Length == intermediateSsq.Length == |r|
    requires intermediateMin.Length == intermediateMax.Length == |r|
    requires forall i :: 0 <= i < |r| ==> intermediateSum[i] == Sum(r[i]) && intermediateSsq[i] == SumSq(r[i])
    requires forall i :: 0 <= i < |r| ==> intermediateMin[i] == SeqMin(FltMax, r[i]) && intermediateMax[i] == SeqMax(FltMin, r[i])
    ensures min == SeqMin(FltMax, Flatten(r)) && max == SeqMax(FltMin, Flatten(r))
    ensures sum == Total(r) && squareSum == SumSq(Flatten(r))
  {
    min, max, sum, squareSum := FltMax, FltMin, 0.0, 0.0;
    var y := 0;
    while y < lines
      invariant 0 <= y <= lines
      invariant min == SeqMin(FltMax, Flatten(r[..y]))
      invariant max == SeqMax(FltMin, Flatten(r[..y]))
      invariant sum == Total(r[..y]) && squareSum == SumSq(Flatten(r[..y]))
    {
      var lineMin, lineMax := intermediateMin[y], intermediateMax[y];
      assert (if lineMin < min then lineMin else min) == SeqMin(FltMax, Flatten(r[..y + 1]))
          && (if lineMax > max then lineMax else max) == SeqMax(FltMin, Flatten(r[..y + 1]))
          && sum + intermediateSum[y] == Total(r[..y + 1])
          && squareSum + intermediateSsq[y] == SumSq(Flatten(r[..y + 1])) by {
        RowAppended(r, y, FltMax, FltMin, 0.0);
        SeqMinRestart(min, FltMax, r[y]);
        SeqMaxRestart(max, FltMin, r[y]);
      }
      if lineMin < min {
        min := lineMin;
      }
      if lineMax > max {
        max := lineMax;
      }
      sum := sum + intermediateSum[y];
      squareSum := squareSum + intermediateSsq[y];
      y := y + 1;
    }
    assert r[..y] == r;
  }

  /** Forward statistics over the inclusive region of columns sampleFirst..
      sampleLast and rows lineFirst..lineLast: one pass gathers, per line, the
      sum, the sum of squares and the extremes; a second loop combines them, and
      the variance is (sum of squares - mean * sum) / (count - 1). */
  method StatisticsForward(image: seq<seq<real>>, imageSamples: nat, sampleFirst: nat, sampleLast: nat,
                           lineFirst: nat, lineLast: nat, bands: nat) returns (stats: Stats)
    requires Rect(image, imageSamples, |image|) && bands == 1
    requires sampleFirst <= sampleLast < imageSamples && lineFirst <= lineLast < |image|
    requires (sampleLast - sampleFirst + 1) * (lineLast - lineFirst + 1) >= 2
    ensures var r := Region(image, imageSamples, sampleFirst, sampleLast, lineFirst, lineLast);
            var samples, lines := sampleLast - sampleFirst + 1, lineLast - lineFirst + 1;
            && stats.min == SeqMin(FltMax, Flatten(r))
            && stats.max == SeqMax(FltMin, Flatten(r))
            && stats.mean == Mean(r, samples, lines)
            && stats.variance == SampleVariance(r, samples, lines)
  {
    ghost var r := Region(image, imageSamples, sampleFirst, sampleLast, lineFirst, lineLast);
    var samples := sampleLast - sampleFirst + 1;
    var lines := lineLast - lineFirst + 1;
    var n := samples * lines;
    assert n >= 2;
    var count := n as real;
    var intermediateSum, intermediateSsq, intermediateMin, intermediateMax :=
      DivideRegion(image, imageSamples, sampleFirst, sampleLast, lineFirst, lineLast);
    var min, max, sum, squareSum := ConquerRegion(r, lines, intermediateSum, intermediateSsq, intermediateMin, intermediateMax);
    var mean := sum / count;
    var dev := squareSum - mean * sum;
    assert dev == SqDev(Flatten(r), mean) by {
      FlattenLength(r, samples, lines);
      ShortcutVariance(Flatten(r), mean, sum, count);
    }
    var variance := dev / (count - 1.0);
    ForwardQuotients(r, samples, lines, n, count, sum, mean, dev, variance);
    stats := Stats(min, max, mean, variance);
  }

  /** The divisions of the forward variant, by count = samples * lines and by
      count - 1, are the mean and the sample variance. */
  lemma ForwardQuotients(r: seq<seq<real>>, samples: nat, lines: nat, n: nat, count: real, sum: real, mean: real,
                         dev: real, variance: real)
    requires samples > 0 && lines > 0 && n == samples * lines && n >= 2 && count == n as real
    requires sum == Total(r) && mean == sum / count
    requires dev == SqDev(Flatten(r), mean) && variance == dev / (count - 1.0)
    ensures mean == Mean(r, samples, lines) && variance == SampleVariance(r, samples, lines)
  {
  }

  /** The mean lies between the least and the greatest sample, and so between
      the reported minimum and maximum. */
  lemma MeanWithinExtremes(g: seq<seq<real>>, samples: nat, lines: nat)
    requires Rect(g, samples, lines) && samples > 0 && lines > 0
    ensures |Flatten(g)| == samples * lines > 0
    ensures SeqMin(Flatten(g)[0], Flatten(g)) <= Mean(g, samples, lines) <= SeqMax(Flatten(g)[0], Flatten(g))
    ensures SeqMin(FltMax, Flatten(g)) <= Mean(g, samples, lines) <= SeqMax(FltMin, Flatten(g))
  {
    var f := Flatten(g);
    var n := (samples * lines) as real;
    FlattenLength(g, samples, lines);
    assert samples * lines >= lines;
    var least, greatest := SeqMin(f[0], f), SeqMax(f[0], f);
    SumBounds(f, least, greatest);
    BetweenQuotient(least, greatest, n, Total(g));
    var reportedMin, reportedMax := SeqMin(FltMax, f), SeqMax(FltMin, f);
    SumBounds(f, reportedMin, reportedMax);
    BetweenQuotient(reportedMin, reportedMax, n, Total(g));
  }

  /** The maximum starts from FLT_MIN, the smallest positive float, rather than
      from the lowest float: on an image with no positive sample the reported
      maximum is FLT_MIN, a value that does not occur in the image. */
  lemma MaxFlooredAtFltMin(g: seq<seq<real>>)
    requires forall y, x :: 0 <= y < |g| && 0 <= x < |g[y]| ==> g[y][x] <= 0.0
    ensures SeqMax(FltMin, Flatten(g)) == FltMin
    ensures FltMin !in Flatten(g)
  {
    var f := Flatten(g);
    forall v | v in f
      ensures v <= 0.0
    {
      FlattenMember(g, v);
    }
  }

  /** Both variances are never negative. */
  lemma VariancesNonNegative(g: seq<seq<real>>, samples: nat, lines: nat)
    requires Rect(g, samples, lines) && samples >= 2 && lines >= 1
    ensures LineVariance(g, samples, lines) >= 0.0
    ensures SampleVariance(g, samples, lines) >= 0.0
  {
    SqDevNonNegative(Flatten(g), Mean(g, samples, lines));
  }

  /** The forward variance is never negative for any grid of two or more
      samples, one-column grids included. */
  lemma ForwardVarianceNonNegative(g: seq<seq<real>>, samples: nat, lines: nat)
    requires Rect(g, samples, lines) && samples > 0 && lines > 0 && samples * lines >= 2
    ensures SampleVariance(g, samples, lines) >= 0.0
  {
    SqDevNonNegative(Flatten(g), Mean(g, samples, lines));
  }

  /** Over the whole image the forward variant agrees with the two-pass ones on
      the mean, but its variance divides by samples * lines - 1 where theirs
      divides by lines * (samples - 1): the two agree exactly when the image has
      one line or no spread at all. */
  lemma ForwardVersusTwoPass(g: seq<seq<real>>, samples: nat, lines: nat)
    requires Rect(g, samples, lines) && samples >= 2 && lines >= 1
    ensures Region(g, samples, 0, samples - 1, 0, lines - 1) == g
    ensures SampleVariance(g, samples, lines) == LineVariance(g, samples, lines)
            <==> lines == 1 || SqDev(Flatten(g), Mean(g, samples, lines)) == 0.0
  {
    var r := Region(g, samples, 0, samples - 1, 0, lines - 1);
    assert forall y :: 0 <= y < lines ==> r[y] == g[y];
    var v := SqDev(Flatten(g), Mean(g, samples, lines));
    CountDifference(samples, lines);
    QuotientsEqual(v, (samples * lines - 1) as real, ((samples - 1) * lines) as real);
  }

  /** samples * lines - 1 exceeds (samples - 1) * lines by lines - 1. */
  lemma CountDifference(samples: nat, lines: nat)
    requires samples >= 2 && lines >= 1
    ensures (samples - 1) * lines > 0 && samples * lines - 1 > 0
    ensures (samples * lines - 1) - (samples - 1) * lines == lines - 1
  {
    assert (samples - 1) * lines == samples * lines - lines;
  }

  lemma QuotientsEqual(v: real, a: real, b: real)
    requires a > 0.0 && b > 0.0
    ensures v / a == v / b <==> v == 0.0 || a == b
  {
    if v / a == v / b && v != 0.0 {
      assert v * b == v * a;
    }
  }
}
