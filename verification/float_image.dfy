/** The grid substrate: a `FloatImage` owns an array of `FloatImageLine`s, each of
    which owns one array of samples. The public view of an image is the ghost
    grid `Contents`, with `Contents[line][sample]` the sample at that position. */
module Images {
  import opened Grids
  import opened Convolution

  /** The constant `inverse255` by which a byte is scaled into [0, 1]. */
  const Inverse255: real := 1.0 / 255.0

  /** The value `lerpSet(x, v)` stores: the byte scaled into [0, 1]. */
  function Lerp(v: byte): (r: real)
    ensures 0.0 <= r <= 1.0
    ensures r == 0.0 <==> v == 0
    ensures r == 1.0 <==> v == 255
  {
    v as real * Inverse255
  }

  /** Scaling back by 255 recovers the byte, so `Lerp` loses nothing. */
  lemma LerpRoundTrip(v: byte)
    ensures (Lerp(v) * 255.0).Floor == v
  {
    assert Lerp(v) * 255.0 == v as real;
  }

  lemma LerpInjective(v: byte, w: byte)
    requires Lerp(v) == Lerp(w)
    ensures v == w
  {
    LerpRoundTrip(v);
    LerpRoundTrip(w);
  }

  /** The ranged `lerpSet` as written: the lower end is subtracted instead of added. */
  function LerpRangeAsWritten(v: byte, toMin: real, toMax: real): real
  {
    v as real * Inverse255 * (toMax - toMin) - toMin
  }

  /** Byte 0 lands on -toMin; with the range [1, 2] it lands on -1, outside the range. */
  lemma LerpRangeAsWrittenLeavesRange()
    ensures LerpRangeAsWritten(0, 1.0, 2.0) == -1.0
    ensures LerpRangeAsWritten(255, 1.0, 2.0) == 0.0
  {
  }

  /** The ranged lerp as intended: byte 0 lands on `toMin`, byte 255 on `toMax`,
      and every byte in between. */
  function LerpRange(v: byte, toMin: real, toMax: real): (r: real)
    ensures v == 0 ==> r == toMin
    ensures v == 255 ==> r == toMax
    ensures toMin <= toMax ==> toMin <= r <= toMax
  {
    var t, w := Lerp(v), toMax - toMin;
    if w >= 0.0 then
      FractionOf(t, w);
      t * w + toMin
    else
      t * w + toMin
  }

  /** A fraction t in [0, 1] of a nonnegative width lies within that width. */
  lemma FractionOf(t: real, w: real)
    requires 0.0 <= t <= 1.0 && w >= 0.0
    ensures 0.0 <= t * w <= w
  {
    assert w - t * w == (1.0 - t) * w;
  }

  /** One row of samples. */
  class FloatImageLine {
    const data: array<real>

    /** A row of `samples` entries; all 0 when `zero` holds, unspecified otherwise. */
    constructor (samples: nat, zero: bool := true)
      ensures data.Length == samples && fresh(data)
      ensures zero ==> forall i :: 0 <= i < samples ==> data[i] == 0.0
    {
      data := new real[samples];
      new;
      if zero {
        var i := 0;
        while i < samples
          invariant 0 <= i <= samples
          invariant forall j :: 0 <= j < i ==> data[j] == 0.0
        {
          data[i] := 0.0;
          i := i + 1;
        }
      }
    }

    /** The entry at `sample` (both `sample` and `operator[]`). */
    function Sample(sample: nat): (v: real)
      requires sample < data.Length
      reads data
      ensures v == data[..][sample] && v in data[..]
    {
      data[sample]
    }

    /** Stores the byte scaled into [0, 1] at `sample`; nothing else changes. */
    method LerpSet(sample: nat, value: byte)
      requires sample < data.Length
      modifies data
      ensures data[..] == old(data[..])[sample := Lerp(value)]
      ensures 0.0 <= data[sample] <= 1.0
    {
      data[sample] := value as real * Inverse255;
    }

    /** Stores the byte scaled into [toMin, toMax] at `sample`; nothing else changes. */
    method LerpSetRange(sample: nat, value: byte, toMin: real, toMax: real)
      requires sample < data.Length
      modifies data
      ensures data[..] == old(data[..])[sample := LerpRange(value, toMin, toMax)]
      ensures toMin <= toMax ==> toMin <= data[sample] <= toMax
    {
      data[sample] := LerpRange(value, toMin, toMax);
    }
  }

  /** The grid read upside down: row i is row |g| - 1 - i. */
  function Flipped(g: seq<seq<real>>): (f: seq<seq<real>>)
    ensures |f| == |g|
  {
    seq(|g|, i requires 0 <= i < |g| => g[|g| - 1 - i])
  }

  /** Flipping twice restores the grid. */
  lemma FlipTwice(g: seq<seq<real>>)
    ensures Flipped(Flipped(g)) == g
  {
  }

  /** With an odd number of rows the middle row stays where it is, and row i
      trades places with row |g| - 1 - i. */
  lemma FlipRows(g: seq<seq<real>>, i: nat)
    requires i < |g|
    ensures Flipped(g)[i] == g[|g| - 1 - i] && Flipped(g)[|g| - 1 - i] == g[i]
    ensures |g| % 2 == 1 ==> Flipped(g)[|g| / 2] == g[|g| / 2]
  {
  }

  /** 8-bit raw image data decoded row by row: cell (y, x) is byte y * samples + x. */
  function Decoded(bytes: seq<byte>, samples: nat, lines: nat): (g: seq<seq<real>>)
    requires |bytes| >= samples * lines
    ensures Rect(g, samples, lines)
  {
    seq(lines, y requires 0 <= y < lines =>
      seq(samples, x requires 0 <= x < samples => (RowMajor(y, x, samples, lines); Lerp(bytes[y * samples + x]))))
  }

  /** The row-major offset of an in-range cell is in range. */
  lemma RowMajor(y: nat, x: nat, samples: nat, lines: nat)
    requires y < lines && x < samples
    ensures y * samples + x < samples * lines
  {
    assert y * samples + x < y * samples + samples == (y + 1) * samples;
    assert (y + 1) * samples <= lines * samples;
  }

  /** Decoding then quantising each cell back by 255 gives the bytes again. */
  lemma DecodedRoundTrip(bytes: seq<byte>, samples: nat, lines: nat, y: nat, x: nat)
    requires |bytes| >= samples * lines && y < lines && x < samples
    ensures y * samples + x < |bytes|
    ensures (Decoded(bytes, samples, lines)[y][x] * 255.0).Floor == bytes[y * samples + x]
  {
    RowMajor(y, x, samples, lines);
    LerpRoundTrip(bytes[y * samples + x]);
  }

  class FloatImage {
    const samples: nat
    const lines: nat
    const bands: nat
    const size: nat
    const image: array<FloatImageLine>

    /** The samples, row by row. */
    ghost var Contents: seq<seq<real>>
    ghost const Repr: set<object>

    ghost predicate Valid()
      reads this, Repr
      ensures Valid() ==> this in Repr && Rect(Contents, samples, lines)
    {
      this in Repr && image in Repr &&
      image.Length == lines && size == samples * lines && |Contents| == lines &&
      (forall y :: 0 <= y < lines ==>
         image[y].data in Repr && image[y].data.Length == samples && image[y].data[..] == Contents[y]) &&
      (forall y, z :: 0 <= y < z < lines ==> image[y].data != image[z].data)
    }

    /** `lines` rows of `samples` entries each, `size` = samples * lines; every
        entry is 0 when `zero` holds. */
    constructor (samples: nat, lines: nat, bands: nat, zero: bool := true)
      ensures Valid() && fresh(Repr)
      ensures this.samples == samples && this.lines == lines && this.bands == bands
      ensures size == samples * lines
      ensures zero ==> forall y, x :: 0 <= y < lines && 0 <= x < samples ==> Contents[y][x] == 0.0
    {
      var rows: seq<FloatImageLine>;
      ghost var grid: seq<seq<real>>;
      rows, grid := NewLines(samples, lines, zero);
      this.samples, this.lines, this.bands, this.size := samples, lines, bands, samples * lines;
      image := new FloatImageLine[lines](i requires 0 <= i < lines => rows[i]);
      Contents := grid;
      Repr := {this, image} + set y | 0 <= y < lines :: rows[y].data;
    }

    /** The rows of a new image, each with its own fresh array. */
    static method NewLines(samples: nat, lines: nat, zero: bool) returns (rows: seq<FloatImageLine>, ghost grid: seq<seq<real>>)
      ensures |rows| == |grid| == lines
      ensures forall y :: 0 <= y < lines ==>
        fresh(rows[y].data) && rows[y].data.Length == samples && rows[y].data[..] == grid[y]
      ensures forall y, z :: 0 <= y < z < lines ==> rows[y].data != rows[z].data
      ensures zero ==> forall y, x :: 0 <= y < lines && 0 <= x < samples ==> grid[y][x] == 0.0
    {
      rows, grid := [], [];
      while |rows| < lines
        invariant |rows| == |grid| <= lines
        invariant forall y :: 0 <= y < |rows| ==>
          fresh(rows[y].data) && rows[y].data.Length == samples && rows[y].data[..] == grid[y]
        invariant forall y, z :: 0 <= y < z < |rows| ==> rows[y].data != rows[z].data
        invariant zero ==> forall y, x :: 0 <= y < |rows| && 0 <= x < samples ==> grid[y][x] == 0.0
      {
        var row := new FloatImageLine(samples, zero);
        rows, grid := rows + [row], grid + [row.data[..]];
      }
    }

    /** A new image, as the constructor builds it. */
    static method Create(samples: nat, lines: nat, bands: nat, zero: bool) returns (img: FloatImage)
      ensures img.Valid() && fresh(img.Repr)
      ensures img.samples == samples && img.lines == lines && img.bands == bands
      ensures zero ==> forall y, x :: 0 <= y < lines && 0 <= x < samples ==> img.Contents[y][x] == 0.0
    {
      img := new FloatImage(samples, lines, bands, zero);
    }

    /** Row `line` (both `line` and `operator[]`). */
    function Line(line: nat): (l: FloatImageLine)
      requires Valid() && line < lines
      reads this, Repr
      ensures l.data.Length == samples && l.data[..] == Contents[line]
    {
      image[line]
    }

    /** The sample at row `line`, column `sample`. */
    function Sample(line: nat, sample: nat): (v: real)
      requires Valid() && line < lines && sample < samples
      reads this, Repr
      ensures v == Contents[line][sample]
    {
      image[line].data[sample]
    }

    /** Writes `value` at column `sample` of row `line`; no other cell changes. */
    method Set(sample: nat, line: nat, value: real)
      requires Valid() && line < lines && sample < samples
      modifies this, image[line].data
      ensures Valid()
      ensures Contents == old(Contents)[line := old(Contents)[line][sample := value]]
      ensures Contents[line][sample] == value
      ensures forall y, x :: 0 <= y < lines && 0 <= x < samples && (y != line || x != sample) ==>
                Contents[y][x] == old(Contents)[y][x]
    {
      image[line].data[sample] := value;
      Contents := Contents[line := Contents[line][sample := value]];
    }

    /** `line(line)->lerpSet(sample, value)`: the byte scaled into [0, 1] is stored
        at column `sample` of row `line`; no other cell changes. */
    method LineLerpSet(line: nat, sample: nat, value: byte)
      requires Valid() && line < lines && sample < samples
      modifies this, image[line].data
      ensures Valid()
      ensures Contents == old(Contents)[line := old(Contents)[line][sample := Lerp(value)]]
    {
      image[line].LerpSet(sample, value);
      Contents := Contents[line := Contents[line][sample := Lerp(value)]];
    }

    /** Decodes `samples * lines` bytes of single-band 8-bit raw data, rows top to
        bottom, each byte scaled into [0, 1]. */
    static method CreateFromU8Raw(bytes: seq<byte>, samples: nat, lines: nat) returns (img: FloatImage)
      requires |bytes| >= samples * lines
      ensures img.Valid() && fresh(img.Repr)
      ensures img.samples == samples && img.lines == lines && img.bands == 1
      ensures img.Contents == Decoded(bytes, samples, lines)
    {
      img := new FloatImage(samples, lines, 1, false);
      ghost var d := Decoded(bytes, samples, lines);
      var y := 0;
      while y < lines
        invariant 0 <= y <= lines
        invariant img.Valid() && fresh(img.Repr)
        invariant forall i :: 0 <= i < y ==> img.Contents[i] == d[i]
      {
        var x := 0;
        while x < samples
          invariant 0 <= x <= samples
          invariant img.Valid() && fresh(img.Repr)
          invariant forall i :: 0 <= i < y ==> img.Contents[i] == d[i]
          invariant forall c :: 0 <= c < x ==> img.Contents[y][c] == d[y][c]
        {
          RowMajor(y, x, samples, lines);
          img.LineLerpSet(y, x, bytes[y * samples + x]);
          x := x + 1;
        }
        assert img.Contents[y] == d[y];
        y := y + 1;
      }
    }

    /** Swaps row i with row lines - 1 - i for every i < lines / 2, by exchanging
        the row pointers. */
    method FlipVertical()
      requires Valid()
      modifies this, image
      ensures Valid()
      ensures Contents == Flipped(old(Contents))
    {
      var halfLines := lines / 2;
      var i := 0;
      while i < halfLines
        invariant 0 <= i <= halfLines
        invariant Contents == old(Contents)
        invariant forall y :: 0 <= y < lines ==>
          image[y] == if y < i || y >= lines - i then old(image[lines - 1 - y]) else old(image[y])
      {
        image[i], image[lines - i - 1] := image[lines - i - 1], image[i];
        i := i + 1;
      }
      assert forall y :: 0 <= y < lines ==> image[y] == old(image[lines - 1 - y]);
      forall y, z | 0 <= y < z < lines
        ensures image[y].data != image[z].data
      {
        assert lines - 1 - z < lines - 1 - y;
      }
      Contents := Flipped(Contents);
    }

    /** The weighted sum and the effective weight of the kernel centred on
        (y, x), accumulated tap by tap as the inner loops of `convolve` do. */
    method WeightedTaps(kernel: FloatImage, y: nat, x: nat) returns (value: real, weight: real)
      requires Valid() && kernel.Valid()
      ensures value == WindowSum(Contents, samples, lines, kernel.Contents, kernel.samples, kernel.lines, y, x, kernel.lines)
      ensures weight == WindowWeight(samples, lines, kernel.Contents, kernel.samples, kernel.lines, y, x, kernel.lines)
    {
      var g, k, kw, kh := Contents, kernel.Contents, kernel.samples, kernel.lines;
      value, weight := 0.0, 0.0;
      var my := 0;
      while my < kh
        invariant 0 <= my <= kh
        invariant value == WindowSum(g, samples, lines, k, kw, kh, y, x, my)
        invariant weight == WindowWeight(samples, lines, k, kw, kh, y, x, my)
      {
        var rawY := y + my - kh / 2;
        if rawY < 0 || rawY >= lines {
          RowOutside(g, samples, lines, k, kw, kh, y, x, my, kw);
        } else {
          var kernelLine, rawLine := kernel.image[my], image[rawY];
          var mx := 0;
          while mx < kw
            invariant 0 <= mx <= kw
            invariant value == WindowSum(g, samples, lines, k, kw, kh, y, x, my) + RowSum(g, samples, lines, k, kw, kh, y, x, my, mx)
            invariant weight == WindowWeight(samples, lines, k, kw, kh, y, x, my) + RowWeight(samples, lines, k, kw, kh, y, x, my, mx)
          {
            var rawX := x + mx - kw / 2;
            if 0 <= rawX < samples {
              assert kernelLine.data[mx] == k[my][mx] && rawLine.data[rawX] == g[rawY][rawX];
              value := value + kernelLine.data[mx] * rawLine.data[rawX];
              weight := weight + kernelLine.data[mx];
            }
            mx := mx + 1;
          }
        }
        my := my + 1;
      }
    }

    /** A new image of the same dimensions whose every cell is the kernel-weighted
        average of the in-bounds samples around it; this image is not changed. */
    method Convolve(kernel: FloatImage) returns (target: FloatImage)
      requires Valid() && kernel.Valid()
      requires bands == 1 && kernel.samples % 2 == 1 && kernel.lines % 2 == 1
      requires Normalisable(samples, lines, kernel.Contents, kernel.samples, kernel.lines)
      ensures target.Valid() && fresh(target.Repr)
      ensures target.samples == samples && target.lines == lines && target.bands == bands
      ensures forall y, x :: 0 <= y < lines && 0 <= x < samples ==>
                target.Contents[y][x] == ConvolveAt(Contents, samples, lines, kernel.Contents, kernel.samples, kernel.lines, y, x)
    {
      target := new FloatImage(samples, lines, bands, false);
      var y := 0;
      while y < lines
        invariant 0 <= y <= lines
        invariant target.Valid() && fresh(target.Repr)
        invariant forall i, c :: 0 <= i < y && 0 <= c < samples ==>
          target.Contents[i][c] == ConvolveAt(Contents, samples, lines, kernel.Contents, kernel.samples, kernel.lines, i, c)
      {
        var x := 0;
        while x < samples
          invariant 0 <= x <= samples
          invariant target.Valid() && fresh(target.Repr)
          invariant forall i, c :: 0 <= i < y && 0 <= c < samples ==>
            target.Contents[i][c] == ConvolveAt(Contents, samples, lines, kernel.Contents, kernel.samples, kernel.lines, i, c)
          invariant forall c :: 0 <= c < x ==>
            target.Contents[y][c] == ConvolveAt(Contents, samples, lines, kernel.Contents, kernel.samples, kernel.lines, y, c)
        {
          var sampleValue, kernelSum := WeightedTaps(kernel, y, x);
          target.Set(x, y, sampleValue / kernelSum);
          x := x + 1;
        }
        y := y + 1;
      }
    }
  }
}
