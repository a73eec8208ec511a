/** `invert_8u`: in the central region of an 8-bit single-channel image, which
    leaves out a sixth of the width on the left and on the right and a sixth of
    the height at the top and at the bottom, every byte p becomes
    min(255, 300 - p): inverted and brightened. The image is a byte buffer whose
    rows start `widthStep` bytes apart; byte (y, x) sits at y * widthStep + x. */
module Invert {
  import opened Grids

  /** The first column of the region. */
  function Left(width: nat): nat { width / 6 }

  /** One past the last column of the region. */
  function Right(width: nat): nat { width - Left(width) }

  /** The first row of the region. */
  function Top(height: nat): nat { height / 6 }

  /** One past the last row of the region. */
  function Bottom(height: nat): nat { height - Top(height) }

  /** The region is centred: it starts and ends inside the image, the margin
      before it equals the margin after it, and it is empty only for an empty
      image. */
  lemma RegionBounds(n: nat)
    ensures Left(n) <= Right(n) <= n
    ensures n - Right(n) == Left(n)
    ensures (Left(n) < Right(n)) <==> n > 0
  {
  }

  /** The region is symmetric: column x lies in it exactly when its mirror
      image n - 1 - x does. */
  lemma RegionMirror(n: nat, x: nat)
    requires x < n
    ensures (Left(n) <= x < Right(n)) <==> (Left(n) <= n - 1 - x < Right(n))
  {
  }

  /** The new value of one byte. */
  function InvertPixel(p: byte): (q: byte)
    ensures 45 <= q <= 255
    ensures p <= 45 ==> q == 255
    ensures p >= 45 ==> q == 300 - p
  {
    if 300 - p < 255 then 300 - p else 255
  }

  /** A byte the inversion produces is turned back into the byte it came from:
      on [45, 255] the inversion is its own inverse. */
  lemma InvertPixelTwice(p: byte)
    requires p >= 45
    ensures InvertPixel(InvertPixel(p)) == p
  {
  }

  /** Darker bytes come out brighter: the inversion reverses the order of
      bytes from 45 up. */
  lemma InvertPixelReversesOrder(p: byte, p': byte)
    requires 45 <= p < p'
    ensures InvertPixel(p) > InvertPixel(p')
  {
  }

  // ---------------------------------------------------------------------------
  // Offsets in the buffer

  /** The offset of byte (y, x). */
  function Offset(y: nat, x: nat, widthStep: nat): nat {
    y * widthStep + x
  }

  /** The row of offset i. */
  function Row(i: nat, widthStep: nat): nat
    requires widthStep > 0
  {
    i / widthStep
  }

  /** The column of offset i. */
  function Column(i: nat, widthStep: nat): nat
    requires widthStep > 0
  {
    i % widthStep
  }

  /** Row and column of an offset are the coordinates it was built from. */
  lemma OffsetSplits(y: nat, x: nat, widthStep: nat)
    requires x < widthStep
    ensures Row(Offset(y, x, widthStep), widthStep) == y
    ensures Column(Offset(y, x, widthStep), widthStep) == x
  {
    var i := Offset(y, x, widthStep);
    var q, r := i / widthStep, i % widthStep;
    assert i == q * widthStep + r;
    assert (q - y) * widthStep == x - r by {
      assert (q - y) * widthStep == q * widthStep - y * widthStep;
    }
    if q > y {
      MonotoneMultiple(q - y, widthStep);
    } else if q < y {
      MonotoneMultiple(y - q, widthStep);
    }
  }

  lemma MonotoneMultiple(m: int, w: nat)
    requires m >= 1
    ensures m * w >= w
  {
  }

  /** An offset is rebuilt from its row and column. */
  lemma OffsetRecomposes(i: nat, widthStep: nat)
    requires widthStep > 0
    ensures Offset(Row(i, widthStep), Column(i, widthStep), widthStep) == i
  {
  }

  /** Offset i lies in the region of a width x height image with rows
      `widthStep` apart. */
  predicate InRegion(i: nat, width: nat, height: nat, widthStep: nat) {
    widthStep > 0 &&
    Top(height) <= Row(i, widthStep) < Bottom(height) &&
    Left(width) <= Column(i, widthStep) < Right(width)
  }

  /** The buffer after `invert_8u`: region bytes inverted, all others kept. */
  function Inverted(d: seq<byte>, width: nat, height: nat, widthStep: nat): (e: seq<byte>)
    ensures |e| == |d|
  {
    seq(|d|, i requires 0 <= i < |d| => if InRegion(i, width, height, widthStep) then InvertPixel(d[i]) else d[i])
  }

  /** Every byte (y, x) of the region is inverted in place, and every byte at an
      offset outside the region keeps its value. */
  lemma InvertedCells(d: seq<byte>, width: nat, height: nat, widthStep: nat)
    requires width <= widthStep && height * widthStep <= |d|
    ensures forall y, x :: Top(height) <= y < Bottom(height) && Left(width) <= x < Right(width) ==>
              Offset(y, x, widthStep) < |d| &&
              Inverted(d, width, height, widthStep)[Offset(y, x, widthStep)] == InvertPixel(d[Offset(y, x, widthStep)])
    ensures forall i :: 0 <= i < |d| && !InRegion(i, width, height, widthStep) ==>
              Inverted(d, width, height, widthStep)[i] == d[i]
  {
    forall y, x | Top(height) <= y < Bottom(height) && Left(width) <= x < Right(width)
      ensures Offset(y, x, widthStep) < |d|
      ensures InRegion(Offset(y, x, widthStep), width, height, widthStep)
    {
      OffsetInside(y, x, width, height, widthStep);
      OffsetSplits(y, x, widthStep);
    }
  }

  /** The offset of a region byte lies inside the buffer. */
  lemma OffsetInside(y: nat, x: nat, width: nat, height: nat, widthStep: nat)
    requires x < width <= widthStep && y < height
    ensures Offset(y, x, widthStep) < height * widthStep
  {
    assert y * widthStep + widthStep <= height * widthStep by {
      MonotoneRows(y + 1, height, widthStep);
    }
  }

  lemma MonotoneRows(a: nat, b: nat, w: nat)
    requires a <= b
    ensures a * w <= b * w
  {
  }

  /** Each new byte depends only on the old byte at the same offset. */
  lemma InvertedIsLocal(d: seq<byte>, d': seq<byte>, width: nat, height: nat, widthStep: nat, i: nat)
    requires |d| == |d'| && i < |d| && d[i] == d'[i]
    ensures Inverted(d, width, height, widthStep)[i] == Inverted(d', width, height, widthStep)[i]
  {
  }

  /** Inverting twice restores a buffer whose region bytes are all at least 45. */
  lemma InvertedTwice(d: seq<byte>, width: nat, height: nat, widthStep: nat)
    requires forall i :: 0 <= i < |d| && InRegion(i, width, height, widthStep) ==> d[i] >= 45
    ensures Inverted(Inverted(d, width, height, widthStep), width, height, widthStep) == d
  {
    var e := Inverted(Inverted(d, width, height, widthStep), width, height, widthStep);
    forall i | 0 <= i < |d|
      ensures e[i] == d[i]
    {
      if InRegion(i, width, height, widthStep) {
        InvertPixelTwice(d[i]);
      }
    }
  }

  // ---------------------------------------------------------------------------
  // `invert_8u`

  /** Region byte i has been visited by the row-major walk when its row is
      before row y, or it is row y and its column is before x. */
  predicate Visited(i: nat, widthStep: nat, y: nat, x: nat)
    requires widthStep > 0
  {
    Row(i, widthStep) < y || (Row(i, widthStep) == y && Column(i, widthStep) < x)
  }

  /** `invert_8u`: rows top to bottom, columns left to right, each byte of the
      region becomes min(255, 300 - p). */
  method Invert8u(imageData: array<byte>, width: nat, height: nat, widthStep: nat)
    requires width <= widthStep && height * widthStep <= imageData.Length
    modifies imageData
    ensures imageData[..] == Inverted(old(imageData[..]), width, height, widthStep)
  {
    ghost var d := imageData[..];
    var left := Left(width);
    var right := Right(width);
    var top := Top(height);
    var bottom := Bottom(height);
    if widthStep == 0 {
      assert forall i :: 0 <= i < |d| ==> !InRegion(i, width, height, widthStep);
      return;
    }
    var y := top;
    while y < bottom
      invariant top <= y <= bottom || bottom < top
      invariant forall i :: 0 <= i < imageData.Length ==>
                  imageData[i] == if InRegion(i, width, height, widthStep) && Row(i, widthStep) < y
                                  then InvertPixel(d[i]) else d[i]
    {
      InvertLine(imageData, width, height, widthStep, y, d);
      y := y + 1;
    }
    forall i | 0 <= i < imageData.Length
      ensures imageData[i] == Inverted(d, width, height, widthStep)[i]
    {
      if InRegion(i, width, height, widthStep) {
        assert Row(i, widthStep) < y;
      }
    }
  }

  /** One row of `invert_8u`. */
  method InvertLine(imageData: array<byte>, width: nat, height: nat, widthStep: nat, y: nat, ghost d: seq<byte>)
    requires width <= widthStep && height * widthStep <= imageData.Length && widthStep > 0
    requires Top(height) <= y < Bottom(height) && |d| == imageData.Length
    requires forall i :: 0 <= i < imageData.Length ==>
               imageData[i] == if InRegion(i, width, height, widthStep) && Row(i, widthStep) < y
                               then InvertPixel(d[i]) else d[i]
    modifies imageData
    ensures forall i :: 0 <= i < imageData.Length ==>
              imageData[i] == if InRegion(i, width, height, widthStep) && Row(i, widthStep) < y + 1
                              then InvertPixel(d[i]) else d[i]
  {
    var left := Left(width);
    var right := Right(width);
    var x := left;
    while x < right
      invariant left <= x <= right
      invariant forall i :: 0 <= i < imageData.Length ==>
                  imageData[i] == if InRegion(i, width, height, widthStep) && Visited(i, widthStep, y, x)
                                  then InvertPixel(d[i]) else d[i]
    {
      OffsetInside(y, x, width, height, widthStep);
      OffsetSplits(y, x, widthStep);
      var offset := y * widthStep + x;
      assert offset == Offset(y, x, widthStep);
      var pixel := imageData[offset];
      var brightened := 300 - pixel as int;
      imageData[offset] := if brightened < 255 then brightened else 255;
      forall i | 0 <= i < imageData.Length && i != offset
        ensures !(Row(i, widthStep) == y && Column(i, widthStep) == x)
      {
        OffsetRecomposes(i, widthStep);
      }
      x := x + 1;
    }
    forall i | 0 <= i < imageData.Length && InRegion(i, width, height, widthStep) && Row(i, widthStep) == y
      ensures Visited(i, widthStep, y, x)
    {
    }
  }
}
