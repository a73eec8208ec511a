# bht-mas image engine, modelled in Dafny

This project models the numeric core of the `bht-mas` image-processing exercises:

- `FloatImage`, a grid of float samples held as an array of `FloatImageLine` rows;
- the algorithms that walk that grid:
  - image statistics in three variants (naive two-pass, divide-and-conquer per line, forward sum and sum of squares over a region);
  - template matching, by the sum of absolute differences and by the correlation coefficient, each followed by a row-major arg-min/arg-max scan;
  - convolution normalised by the weights of the in-bounds taps, with the Dirac and box kernels the application builds;
  - a median filter built on an in-place bubble sort;
  - additive and salt-and-pepper noise;
  - histogram binning;
  - integer-step subsampling;
  - the in-place region inversion of an 8-bit image buffer.

Samples are exact `real`s. Each imperative routine is a Dafny `method` with the source's loops, proved against a specification function. Each of those functions is characterised by lemmas.

The modules follow the source:

- `Grids`: shared reductions, the `byte` type, FLT_MIN/FLT_MAX, IEEE scores.
- `Images`: `FloatImage` and `FloatImageLine`.
- `Convolution`: the specification of `convolve`.
- `Kernels`: the kernel builders.
- `Statistics`.
- `Matching`: difference and the shared block definitions.
- `Correlation`.
- `Median`.
- `Noise`.
- `Histogram`.
- `Extraction`: `scaleDownLinear`.
- `Invert`: `invert_8u`.

Where IEEE behaviour matters to the result, it is written out with the `Score` datatype (a finite value, ±infinity, or NaN):

- a flat correlation window divides 0 by 0 and scores NaN, which the scans never select;
- a histogram with nothing counted gives NaN in every bin.

The library square root is a parameter `sqrt: real -> real`. The bounds on the coefficient hold when it is a true square root (`IsSqrt`).

In the following points the model follows the code:

- The code does not check that the mask fits into the image. `Correlate` and `Difference` require the mask to be no wider than the image, because the code's unsigned subtraction would wrap otherwise. A taller mask scores no placement in the placement loops (for `correlate`, see also "## Left out").
- In exact arithmetic the coefficient is always within [-1, 1] or NaN (`CoefficientBounded`), whatever means are used. It does not go unbounded.
- Region bounds are asserted, not reported as errors. The model states them as preconditions.

For the correlation's mask mean the model does not follow the code: `Correlate` takes the mean of the mask's own samples (`MaskMean`). The code's mean, taken over the raw image's top-left block, is modelled separately by `CoefficientAsWritten` (see Findings).

## Model

| member | source | states |
|---|---|---|
| Grids.LessOrder | mas03/Application.cpp:192-201 | the float `<` used by the scans is irreflexive and transitive, and total on non-NaN values; a NaN is never less or greater than anything |
| Grids.Quotient | mas03/Application.cpp:173 | float division: the exact quotient for a nonzero divisor, otherwise +inf, -inf or NaN (for 0/0) by the sign of the dividend |
| Grids.SortedUnique | mas04/Application.cpp:357-360 | two sorted sequences with the same elements are equal, so the median picked after sorting does not depend on how the window was sorted |
| Images.Lerp | mas03/FloatImage.h:87-90 | the stored value v * (1/255) lies in [0, 1], and is 0 exactly for byte 0 and 1 exactly for byte 255 |
| Images.LerpRoundTrip | mas03/FloatImage.h:87-90 | scaling the stored value back by 255 and truncating gives the byte again |
| Images.LerpInjective | mas03/FloatImage.h:87-90 | different bytes are stored as different values |
| Images.LerpRangeAsWrittenLeavesRange | mas03/FloatImage.h:99-102 | as written, the ranged lerp maps byte 0 into [1, 2] at -1 and byte 255 at 0, both outside the target range |
| Images.LerpRange | mas03/FloatImage.h:99-102 | the ranged lerp as intended: byte 0 lands on to_min, byte 255 on to_max, and every byte inside [to_min, to_max] |
| Images.FloatImageLine.constructor | mas03/FloatImage.cpp:9-22 | a fresh line of `samples` entries, all 0 when `zero` holds (the default), unspecified otherwise |
| Images.FloatImageLine.Sample | mas03/FloatImage.h:67-80 | `sample(i)` and `operator[](i)` return entry i of the line |
| Images.FloatImageLine.LerpSet | mas03/FloatImage.h:87-90 | entry `sample` becomes the lerped byte, in [0, 1]; no other entry changes |
| Images.FloatImageLine.LerpSetRange | mas03/FloatImage.h:99-102 | entry `sample` becomes the byte lerped into [to_min, to_max]; no other entry changes |
| Images.FlipTwice | mas04/FloatImage.cpp:219-230 | flipping vertically twice restores the image |
| Images.FlipRows | mas04/FloatImage.cpp:221-229 | after the flip, row i and row lines-1-i have traded places; with an odd line count the middle row stays |
| Images.Decoded | mas04/FloatImage.cpp:184-205 | decoding raw 8-bit data gives `lines` rows of `samples` samples |
| Images.DecodedRoundTrip | mas04/FloatImage.cpp:190-201 | cell (y, x) of the decoded image comes from byte y*samples+x, which is recovered from it |
| Images.FloatImage.Valid | mas03/FloatImage.h:108-135 | an image has `lines` distinct rows of `samples` entries, and size == samples * lines |
| Images.FloatImage.constructor | mas04/FloatImage.cpp:34-50 | exactly `lines` fresh rows of `samples` entries, dimensions as given, size = samples * lines, every entry 0 when `zero` holds |
| Images.FloatImage.NewLines | mas04/FloatImage.cpp:37-46 | `lines` fresh rows of `samples` entries each, no two sharing an array, every entry 0 when `zero` holds |
| Images.FloatImage.Create | mas04/FloatImage.cpp:211-214 | a new image built by the constructor with the given dimensions and zero flag |
| Images.FloatImage.Line | mas03/FloatImage.h:157-180 | `line(i)` and `operator[](i)` return row i |
| Images.FloatImage.Sample | mas03/FloatImage.h:167-170 | `sample(line, s)` reads row `line`, column `s` |
| Images.FloatImage.Set | mas03/FloatImage.h:188-191 | `set(sample, line, value)` takes the column first; afterwards that cell holds `value` and every other cell is unchanged |
| Images.FloatImage.LineLerpSet | mas04/FloatImage.cpp:192-200 | lerp-setting a byte through a row changes exactly one cell of the image |
| Images.FloatImage.CreateFromU8Raw | mas04/FloatImage.cpp:184-205 | the image decoded from `samples * lines` bytes: single band, row by row, each byte lerped into [0, 1] |
| Images.FloatImage.FlipVertical | mas04/FloatImage.cpp:219-230 | swapping row pointers for i < lines/2 leaves the image flipped upside down |
| Images.FloatImage.WeightedTaps | mas04/FloatImage.cpp:272-308 | the two accumulators of one output cell are the weighted sum and the weight of exactly the in-bounds taps |
| Images.FloatImage.Convolve | mas04/FloatImage.cpp:237-316 | a new image of the same dimensions whose every cell is the weighted sum over the in-bounds taps divided by their weight |
| Convolution.RowOutside | mas04/FloatImage.cpp:278-287 | a kernel row whose source row is outside the image contributes neither value nor weight |
| Convolution.CentreOnlyIdentity | mas04/FloatImage.cpp:264-311 | a kernel whose only nonzero weight is the centre returns every sample unchanged, borders included |
| Convolution.PositiveCentreNormalisable | mas04/FloatImage.cpp:306-311 | a nonnegative kernel with a positive centre never divides by a zero weight |
| Convolution.ConvolveWithinWindow | mas04/FloatImage.cpp:290-311 | with nonnegative weights each output lies between any bounds of the in-bounds samples under the kernel |
| Convolution.WindowWeightInterior | mas04/FloatImage.cpp:301-306 | away from the border the effective weight is the plain total of the kernel |
| Convolution.LaplacianZeroWeight | mas04/Application.cpp:134-137 | the Laplacian weights sum to 0, so every interior cell divides by zero |
| Convolution.LoGZeroWeight | mas04/Application.cpp:157-166 | the LoG weights sum to 0, so every cell two samples from the border divides by zero |
| Kernels.DiracKernel | mas04/Application.cpp:86-87 | a zeroed 3x3 kernel with centre 1 |
| Kernels.BoxKernel | mas04/Application.cpp:107-114 | a 9x9 kernel whose every weight is 1 |
| Kernels.ConvolveDirac | mas04/Application.cpp:82-96 | convolving with the Dirac kernel reproduces the image exactly |
| Kernels.ConvolveBox | mas04/Application.cpp:103-123 | each box-blurred sample is the mean of the in-bounds 9x9 window and stays within the image's range |
| Kernels.BoxWithinImageRange | mas04/Application.cpp:107-118 | a box-blurred sample lies between the least and the greatest sample of the image |
| Kernels.LayoutsSymmetric | mas04/Application.cpp:135-166 | the Laplacian and LoG layouts are symmetric, so `set` taking the column first does not change them |
| Statistics.Region | mas02/Application_Statistics.cpp:249-282 | the region is inclusive on both ends: cell (y, x) is image cell (line_first+y, sample_first+x) |
| Statistics.ScanLine | mas02/Application_Statistics.cpp:45-61 | the inner loop returns the line's sum and continues the running minimum and maximum over it |
| Statistics.LineSquaredDeviations | mas02/Application_Statistics.cpp:78-84 | the inner loop of the second pass sums the squared deviations of the line from the mean |
| Statistics.NaiveFirstPass | mas02/Application_Statistics.cpp:38-68 | the first pass gives the extremes over the image (from FLT_MAX and FLT_MIN) and the total scaled by 1/samples |
| Statistics.NaiveSecondPass | mas02/Application_Statistics.cpp:70-91 | the second pass gives the total squared deviation scaled by 1/(samples-1) |
| Statistics.StatisticsNaive | mas02/Application_Statistics.cpp:24-96 | naive statistics: extremes of the image, the exact mean, and squared deviations divided by lines*(samples-1) |
| Statistics.DivideLines | mas02/Application_Statistics.cpp:132-164 | every slot of the per-line buffers holds that line's sum, minimum and maximum |
| Statistics.ConquerLines | mas02/Application_Statistics.cpp:166-184 | combining the per-line slots in order gives the extremes and total of the whole image |
| Statistics.DivideDeviations | mas02/Application_Statistics.cpp:190-208 | every slot then holds that line's squared deviation from the mean |
| Statistics.ConquerDeviations | mas02/Application_Statistics.cpp:210-217 | the slots add up to the image's total squared deviation |
| Statistics.StatisticsDivideConquer | mas02/Application_Statistics.cpp:109-222 | divide-and-conquer gives the same minimum, maximum, mean and variance as the naive variant |
| Statistics.ShortcutVariance | mas02/Application_Statistics.cpp:326-327 | sum of squares minus mean times sum equals the sum of squared deviations from the mean |
| Statistics.ScanRange | mas02/Application_Statistics.cpp:280-296 | the forward inner loop over columns first..last gives sum, sum of squares and extremes of that range |
| Statistics.DivideRegion | mas02/Application_Statistics.cpp:269-303 | every per-line slot holds the sums and extremes of that line of the region |
| Statistics.DivideRegionLine | mas02/Application_Statistics.cpp:273-302 | slot y then holds the sum, the sum of squares and the extremes (from FLT_MAX and FLT_MIN) of line y of the region; the other slots are unchanged |
| Statistics.ConquerRegion | mas02/Application_Statistics.cpp:305-323 | combining the slots gives the region's extremes, sum and sum of squares |
| Statistics.StatisticsForward | mas02/Application_Statistics.cpp:236-334 | forward statistics of the inclusive region: its extremes, its mean, and its squared deviations divided by count-1 |
| Statistics.MeanWithinExtremes | mas02/Application_Statistics.cpp:29-68 | the mean lies between the least and the greatest sample of the image, and hence between the reported minimum and maximum |
| Statistics.MaxFlooredAtFltMin | mas02/Application_Statistics.cpp:30-60 | on an image without a positive sample the reported maximum is FLT_MIN, which is not a sample |
| Statistics.VariancesNonNegative | mas02/Application_Statistics.cpp:70-91 | both variance formulas are never negative |
| Statistics.ForwardVarianceNonNegative | mas02/Application_Statistics.cpp:325-326 | the forward variance (squared deviations over count-1) is never negative for any region of at least two samples, one-column regions included |
| Statistics.ForwardVersusTwoPass | mas02/Application_Statistics.cpp:326-327 | over the whole image the forward variance equals the two-pass one exactly when there is one line or no spread |
| Matching.Block | mas03/Application.cpp:249-257 | the block under a placement: its cell (my, mx) is raw cell (y+my, x+mx) |
| Matching.SumAbsDiffZero | mas03/Application.cpp:248-260 | a sum of absolute differences is never negative, and is 0 exactly for equal sequences |
| Matching.SadZeroIffMatch | mas03/Application.cpp:248-264 | a placement scores 0 exactly when the mask equals the block under it |
| Matching.BlockDifference | mas03/Application.cpp:248-261 | the block loops give the placement's sum of absolute differences |
| Matching.BlockLineDifference | mas03/Application.cpp:254-260 | one mask line adds its absolute differences to the running sum |
| Matching.DifferenceCell | mas03/Application.cpp:256-259 | one more pair of samples extends the sum of absolute differences by the absolute difference of that pair |
| Matching.MinScanStep | mas03/Application.cpp:277-289 | one cell of the strict `<` scan keeps the least value and its first position |
| Matching.MaxScanStep | mas03/Application.cpp:290-293 | one cell of the strict `>` scan keeps the greatest value |
| Matching.ScanDifferences | mas03/Application.cpp:268-295 | the scan gives the least score and its first row-major position, or FLT_MAX and (0, 0); and the greatest score or FLT_MIN |
| Matching.ScanLine | mas03/Application.cpp:277-294 | one line of the scan keeps both scan results |
| Matching.ScanCell | mas03/Application.cpp:279-293 | one cell of the scan keeps both scan results: a strictly lower score becomes the candidate, a strictly higher one the maximum |
| Matching.Difference | mas03/Application.cpp:222-298 | every scored cell holds its placement's score and every other cell 0; the candidate is the first least score |
| Matching.FillDifferences | mas03/Application.cpp:225-266 | a zeroed grid of the raw image's size in which every scored cell holds its placement's sum of absolute differences |
| Matching.DifferenceLine | mas03/Application.cpp:241-265 | one line of placements is scored; no other cell changes |
| Correlation.CauchySchwarz | mas03/Application.cpp:139-173 | the squared cross deviation never exceeds the product of the two squared-deviation sums |
| Correlation.CoefficientBounded | mas03/Application.cpp:168-173 | the coefficient is NaN exactly when the block or the mask is flat, and otherwise finite and within [-1, 1] |
| Correlation.CoefficientFromBounded | mas03/Application.cpp:168-173 | the same bound stated on the three sums the loops produce |
| Correlation.PerfectMatchScoresOne | mas03/Application.cpp:94-173 | a block identical to a non-flat mask scores exactly 1 |
| Correlation.MaskMeanFromRawMissesPerfectMatch | mas03/Application.cpp:97-106 | as written, a perfect match of mask [[1, 3]] in a 3x3 image scores 2/sqrt(20), not 1 |
| Correlation.InverseMean | mas03/Application.cpp:95-106 | a sum multiplied by 1/(lines*samples) is the mean |
| Correlation.BlockSum | mas03/Application.cpp:125-136 | the raw-mean loops sum exactly the block under the placement |
| Correlation.BlockLineSum | mas03/Application.cpp:128-134 | one mask line adds the block's row to the running sum |
| Correlation.DeviationStep | mas03/Application.cpp:152-164 | one cell adds its cross term and its two squared deviations to the three running sums |
| Correlation.BlockDeviations | mas03/Application.cpp:138-166 | the deviation loops give the cross deviation of block and mask and the squared deviations of each |
| Correlation.BlockLineDeviations | mas03/Application.cpp:144-165 | one mask line extends the three sums by its row |
| Correlation.DeviationCell | mas03/Application.cpp:149-164 | one raw and one mask sample extend the cross deviation and both squared deviations to the samples before plus that pair |
| Correlation.CorrelatePlacement | mas03/Application.cpp:123-176 | the body of the placement loops gives the placement's coefficient |
| Correlation.PlacementCoefficient | mas03/Application.cpp:168-173 | the three sums from the block's and the mask's means give the coefficient |
| Correlation.MaxScanStep | mas03/Application.cpp:196-205 | one cell of the `>` scan keeps the greatest coefficient and its first position; NaN never wins |
| Correlation.MinScanStep | mas03/Application.cpp:192-195 | one cell of the `<` scan keeps the least coefficient |
| Correlation.ScanCoefficients | mas03/Application.cpp:180-207 | the scan gives the greatest coefficient and its first row-major position, or FLT_MIN and (0, 0); and the least or FLT_MAX |
| Correlation.ScanCoefficientLine | mas03/Application.cpp:189-206 | one line of the scan keeps both scan results |
| Correlation.ScanCoefficientCell | mas03/Application.cpp:191-205 | one cell of the scan keeps both scan results: a strictly lower coefficient becomes the minimum, a strictly greater one the maximum and the candidate |
| Correlation.Correlate | mas03/Application.cpp:84-210 | every scored cell holds its placement's coefficient and every other cell 0; the candidate is the first greatest coefficient |
| Correlation.CorrelateLine | mas03/Application.cpp:117-177 | one line of placements gets its coefficients; no other cell changes |
| Correlation.MaskMean | mas03/Application.cpp:94-106 | the factor 1 / (mask lines * mask samples), and the mean of the mask's own samples (the corrected reading of these loops, see Findings) |
| Correlation.ScoreCoefficients | mas03/Application.cpp:86-178 | a grid of the raw image's size in which every scored cell holds its placement's coefficient and every other cell 0 |
| Median.BubbleSort | mas04/Application.cpp:265-283 | bubble sort leaves the vector sorted and a permutation of what it was |
| Median.PassStep | mas04/Application.cpp:276-280 | one compare-and-swap keeps the pass invariant |
| Median.BubblePass | mas04/Application.cpp:273-281 | a pass settles one more entry, keeps the elements, and swaps nothing only on a sorted vector |
| Median.RowTapsOutside | mas04/Application.cpp:325-333 | a window row outside the image contributes no sample |
| Median.RowMembers | mas04/Application.cpp:336-351 | a sample is collected from a window row exactly when an in-bounds tap of that row holds it |
| Median.WindowMembers | mas04/Application.cpp:322-352 | a sample is in the window exactly when an in-bounds tap of the square holds it |
| Median.CentreInWindow | mas04/Application.cpp:322-356 | the window holds the centre sample, so it is never empty |
| Median.WindowWithinImage | mas04/Application.cpp:322-352 | every collected sample is an image sample within size/2 rows and columns of the output cell |
| Median.SingleTapWindow | mas04/Application.cpp:322-352 | a window of size 1 is the centre sample alone |
| Median.MedianAt | mas04/Application.cpp:354-363 | the stored median is one of the window's samples |
| Median.MedianWithinImage | mas04/Application.cpp:354-363 | a median lies between the least and the greatest sample of the image |
| Median.SizeOneIdentity | mas04/Application.cpp:290-371 | a median filter of size 1 returns the image unchanged |
| Median.CollectWindow | mas04/Application.cpp:322-352 | the window loops collect exactly the in-bounds samples of the square, row by row |
| Median.PickMedian | mas04/Application.cpp:355-360 | the value taken is the element at count/2 of the sorted window |
| Median.MedianFilter | mas04/Application.cpp:290-371 | a new image of the same dimensions whose every sample is its window's median |
| Median.MedianLine | mas04/Application.cpp:313-367 | one output line is filled; the window buffer carries nothing over between cells |
| Median.BorderFetchesOutsideGrid | mas04/Application.cpp:325-342 | at the corners the first and last taps of any window of size 3 or more lie outside the image |
| Median.FetchesOutsideExactly | mas04/Application.cpp:325-342 | row y has a tap outside the image exactly when y < size/2 or y + (size - 1 - size/2) >= lines; likewise for columns |
| Noise.NoiseRoundTrip | mas04/Application.cpp:203-209 | adding the same draws with the opposite gain removes the noise |
| Noise.ApplyAWGN | mas04/Application.cpp:186-211 | every sample gains gain times its draw; nothing else changes |
| Noise.AWGNLine | mas04/Application.cpp:198-210 | one line gets its noise; other lines are unchanged |
| Noise.SnPOutcomes | mas04/Application.cpp:232-255 | each sample becomes the pepper value, the salt value or stays as it was, according to its draw and the two thresholds |
| Noise.SnPIdempotent | mas04/Application.cpp:243-256 | applying salt-and-pepper noise again with the same draws changes nothing |
| Noise.ApplySnP | mas04/Application.cpp:221-259 | every sample is overwritten according to its draw; nothing else changes |
| Noise.SnPLine | mas04/Application.cpp:238-258 | one line gets its salt and pepper; other lines are unchanged |
| Histogram.InRangeBounds | mas02/Application_Histogram.cpp:59-72 | a sample is counted exactly when it lies in [low, high]; its position is 0 only at low and 1 only at high |
| Histogram.Bin | mas02/Application_Histogram.cpp:66-74 | the corrected bin is a valid index: bin c holds positions [c/k, (c+1)/k), and position 1 goes to the last bin |
| Histogram.TopSampleOverflows | mas02/Application_Histogram.cpp:66-74 | as written, a sample equal to high_value is counted with bin index class_count, one past the last bin |
| Histogram.BinAgreesBelowTop | mas02/Application_Histogram.cpp:66 | below the top position the corrected bin equals the bin as written |
| Histogram.BinCountSnoc | mas02/Application_Histogram.cpp:55-75 | one more sample increments exactly the count of its bin, and only if it is counted |
| Histogram.BinCountAppend | mas02/Application_Histogram.cpp:85-99 | adding line histograms bin by bin gives the histogram of the concatenated lines |
| Histogram.InRangeCountAppend | mas02/Application_Histogram.cpp:86-95 | adding the line totals gives the number of counted samples of the whole image |
| Histogram.BinsPartition | mas02/Application_Histogram.cpp:86-95 | the bins add up to the number of counted samples: each counted sample is in exactly one bin |
| Histogram.BinWithinTotal | mas02/Application_Histogram.cpp:86-95 | no bin holds more than all counted samples |
| Histogram.NormalisedTotalIsQuotient | mas02/Application_Histogram.cpp:104-109 | the scaled bins add up to the bin total divided by the count |
| Histogram.HistogramNormalised | mas02/Application_Histogram.cpp:104-109 | when anything is counted, every scaled bin is in [0, 1] and the bins add up to 1 |
| Histogram.BuildHistogram | mas02/Application_Histogram.cpp:18-112 | every bin is its count divided by the number of counted samples (NaN in every bin when nothing is counted) |
| Histogram.LineHistogram | mas02/Application_Histogram.cpp:47-76 | row y of the per-line table holds the bin counts of line y; other rows are unchanged |
| Histogram.AggregateLine | mas02/Application_Histogram.cpp:87-99 | adding line y extends the composite and the count to the lines before it plus line y |
| Histogram.LineHistograms | mas02/Application_Histogram.cpp:33-76 | every row of the per-line table holds the bin counts of that image line |
| Histogram.Composite | mas02/Application_Histogram.cpp:78-99 | the composite holds the bin counts of the whole image, and the count is the number of samples counted in any bin |
| Histogram.Normalise | mas02/Application_Histogram.cpp:104-109 | every bin becomes its count divided by the total, NaN for 0 / 0 and an infinity for a non-zero count over 0 |
| Extraction.Skip | mas02/Application_ImageExtraction.cpp:111-114 | the step is the scale factor truncated: at least 1, at most the scale factor and more than the scale factor less 1 |
| Extraction.SkipWithinSource | mas02/Application_ImageExtraction.cpp:90-114 | new size times step never exceeds the source size |
| Extraction.TargetReadsInside | mas02/Application_ImageExtraction.cpp:119-128 | every target row or column reads a source row or column inside the image |
| Extraction.ScaledRow | mas02/Application_ImageExtraction.cpp:126-130 | target entry tx of a row is source entry tx*step |
| Extraction.ScaledDown | mas02/Application_ImageExtraction.cpp:86-136 | the subsampled image has the new dimensions, and its cell (ty, tx) is source cell (ty*step, tx*step) |
| Extraction.UnitScaleIdentity | mas02/Application_ImageExtraction.cpp:86-136 | a scale factor of 1 copies the image |
| Extraction.VisitedAsWritten | mas02/Application_ImageExtraction.cpp:119-133 | the strided loop visits rows 0, k, 2k, ... in that order, all inside the image |
| Extraction.VisitedCount | mas02/Application_ImageExtraction.cpp:116-133 | the strided loop writes ceil(n / k) target rows (columns) |
| Extraction.AsWrittenOverflowsExactly | mas02/Application_ImageExtraction.cpp:107-133 | the loop never writes fewer rows than the target has, and writes more exactly when the dimension is not empty and the scale factor is not a whole number dividing it |
| Extraction.ScaleDownOverflows | mas02/Application_ImageExtraction.cpp:116-133 | with 5 lines and factor 2 the loop writes 3 target rows into a target of 2 |
| Extraction.ScaleDownLinear | mas02/Application_ImageExtraction.cpp:86-136 | the target has the new dimensions and every cell is the subsampled source cell |
| Extraction.ScaleDownLine | mas02/Application_ImageExtraction.cpp:121-132 | one target row is filled from its source row; no other row changes |
| Invert.RegionBounds | mas01/mas01.cpp:85-91 | the region is centred: left = width/6, the right margin equals the left one, and it is empty only for an empty image |
| Invert.RegionMirror | mas02/mas02.cpp:154-160 | a column is in the region exactly when its mirror image is |
| Invert.InvertPixel | mas01/mas01.cpp:104-107 | the new byte min(255, 300-p) lies in [45, 255]; any p <= 45 becomes 255 |
| Invert.InvertPixelTwice | mas02/mas02.cpp:173-176 | on [45, 255] the pixel inversion is its own inverse |
| Invert.InvertPixelReversesOrder | mas01/mas01.cpp:107 | from 45 upwards, a darker byte comes out brighter |
| Invert.OffsetSplits | mas01/mas01.cpp:99-107 | offset y*widthStep+x of a column below widthStep gives back row y and column x |
| Invert.InvertedCells | mas02/mas02.cpp:166-178 | every byte (y, x) of the region is inverted in place, and every other byte keeps its value |
| Invert.InvertedIsLocal | mas02/mas02.cpp:173-176 | each new byte depends only on the old byte at the same offset |
| Invert.InvertedTwice | mas01/mas01.cpp:97-109 | inverting twice restores a buffer whose region bytes are all at least 45 |
| Invert.Invert8u | mas01/mas01.cpp:83-110 | the buffer afterwards is the region-inverted old buffer |
| Invert.InvertLine | mas02/mas02.cpp:168-177 | one row of the region is inverted; nothing else changes |

## Left out

- OpenCV windows, display and conversion are not modelled. This covers `createWindow`, `toOpenCv`, `toOpenCvBGR`, `enviToOpenCv` and `markCandidateInOpenCvBGR`. They are presentation only.
- The `run()` drivers and `main` are not modelled: they are hard-coded paths and window calls. `transform` is not modelled either.
- File I/O is not modelled: `loadRawU8` and the ENVI reader are left out. `createFromU8Raw` decodes an in-memory byte sequence instead of reading a stream.
- Floating point is modelled only in part:
  - samples are exact reals, so rounding, overflow and float cancellation are not modelled;
  - `1/x` followed by a multiplication is an exact division;
  - only the correlation coefficients and the histogram bins carry infinity and NaN.
- The square root is a parameter. `Statistics.StatisticsNaive`, `Statistics.StatisticsDivideConquer` and `Statistics.StatisticsForward` report the variance, not its square root, the standard deviation.
- Random draws are inputs: a grid of the image's size, one draw per sample in row-major order. The normal and uniform distributions and the generator are not modelled.
- OpenMP is not modelled: every `parallel for` runs its lines in order.
- Integer widths are not modelled:
  - `uint_fast16_t`/`uint_fast8_t`/`int_fast32_t` counters are unbounded;
  - `class_count` and the median size are bytes;
  - the buffer arithmetic of `invert_8u` does not wrap.
- Images.FloatImage.Convolve: requires a nonzero effective weight at every cell. The source divides by zero there and stores an infinity or NaN. The Laplacian and LoG kernels (`convolveLaplacian`, `convolveLoG`) are therefore modelled as layouts only; `LaplacianZeroWeight` and `LoGZeroWeight` show that they fail this requirement.
- Images.FloatImage.Convolve: in release builds its target is uninitialised before every cell is written. The model builds it with `zero` false.
- Statistics.StatisticsNaive: requires samples >= 2 and lines >= 1. With one sample per line the source multiplies by 1/0; with no lines it scales by 1/0 as well (mas02/Application_Statistics.cpp:34 and :68) and reports a NaN mean.
- Statistics.StatisticsDivideConquer: requires samples >= 2 and lines >= 1, for the same reasons (mas02/Application_Statistics.cpp:120 and :184).
- Statistics.StatisticsForward: requires a region of at least two samples. With one sample the source divides 0 by 0.
- Correlation.Correlate: requires a non-empty mask no wider than the image. An empty mask makes the source scale by 1/0, and a wider one makes its unsigned subtraction wrap.
- Correlation.Correlate: the coefficient grid is an `array2<Score>` rather than a `FloatImage`, so that NaN and infinity can be represented.
- Matching.Difference: requires a mask no wider than the image, like `Correlate`. An empty mask is accepted and gives every scored placement the score 0.
- Correlation.Correlate: accepts a mask taller than the image, which scores no placement. The code's mask-mean loop (mas03/Application.cpp:97-102) reads raw rows 0 to mask_lines - 1, so for such a mask it reads past the raw image's last row. The model's mean reads the mask itself, so this out-of-range read has no counterpart.
- Histogram.BuildHistogram: requires low_value < high_value and class_count > 0. The source also accepts equal bounds, where it multiplies by 1/0, and zero classes.
- Histogram.BuildHistogram: the scaled bins are returned as a separate `Score` array, not scaled in place. The unused `step` is not computed.
- Median.MedianFilter: the `kernel_samples` vector is a sequence, copied into an array for the bubble sort.
- Extraction.ScaleDownLinear: the target is an `array2`, not an array of line buffers. The allocation test on `image` instead of `target` (mas02/Application_ImageExtraction.cpp:98) has no counterpart.
- Invert.Invert8u: the `IplImage` is its byte buffer with `width`, `height` and `widthStep`. The method requires width <= widthStep and height * widthStep bytes in the buffer, which OpenCV guarantees for an 8-bit single-channel image.
- The mas03 `FloatImage` constructor takes no band count (mas03/FloatImage.cpp:31-47). The model follows the mas04 constructor, which does.

## Findings

| source | as written | input that shows it | evidently intended | confidence | as-written member | corrected member |
|---|---|---|---|---|---|---|
| mas02/Application_Histogram.cpp:66-74 | the bin index floor(t * class_count) is used for every counted sample, including t = 1 | a sample equal to high_value | the top value counted in the last bin | not executed | Histogram.BinAsWritten, Histogram.TopSampleOverflows | Histogram.Bin, Histogram.BuildHistogram |
| mas02/Application_ImageExtraction.cpp:116-133 | the strided loops run to `lines` and `samples`, not to the new size | lines = 5, scaleFactor = 2: target rows 0, 1, 2 are written into a target of 2 rows; in general ceil(n / k) rows are written into floor(n / scaleFactor) | stop at the last target row and column | not executed | Extraction.VisitedAsWritten, Extraction.ScaleDownOverflows, Extraction.VisitedCount, Extraction.AsWrittenOverflowsExactly | Extraction.ScaleDownLinear, Extraction.ScaledDown |
| mas03/Application.cpp:97-106 | the mask mean sums `raw->line(my)`, the raw image's top-left block | raw [[0,0,0],[1,3,0],[0,0,0]], mask [[1,3]], placement (line 1, sample 0) | the mean of the mask's own samples | not executed | Correlation.CoefficientAsWritten, Correlation.MaskMeanFromRawMissesPerfectMatch | Correlation.Coefficient, Correlation.Correlate |
| mas03/FloatImage.h:99-102 | the ranged lerp subtracts to_min | byte 0 into [1, 2] gives -1 | add to_min | not executed | Images.LerpRangeAsWritten, Images.LerpRangeAsWrittenLeavesRange | Images.LerpRange, Images.FloatImageLine.LerpSetRange |
| mas04/FloatImage.cpp:281-297 | the line array is indexed with `_image[raw_y]` and the sample reference is formed before the bounds test, so an out-of-range index is converted to the unsigned `size_t`; no value is read through it | any kernel of size 3 at cell (0, 0): row -1; in general every row y < size/2 or y + (size - 1 - size/2) >= lines | test the bounds before fetching | not executed | Convolution.SourceIndex, Median.BorderFetchesOutsideGrid, Median.FetchesOutsideExactly | Images.FloatImage.WeightedTaps, Images.FloatImage.Convolve |
| mas04/Application.cpp:328-342 | a reference to the image line and to the sample is formed before the bounds test, with an out-of-range index converted to the unsigned `lines_t`/`samples_t`; no value is read through it | any window of size 3 at cell (0, 0): row -1; in general every row y < size/2 or y + (size - 1 - size/2) >= lines | test the bounds before fetching | not executed | Convolution.SourceIndex, Median.BorderFetchesOutsideGrid, Median.FetchesOutsideExactly | Median.CollectWindow, Median.MedianFilter |
