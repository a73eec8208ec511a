/** Template matching by correlation: every placement of the mask over the raw
    image is scored with the correlation coefficient of the block under the mask
    and the mask, and a row-major scan picks the placement with the greatest
    coefficient. Coefficients are IEEE values: a flat block or a flat mask
    divides 0 by 0 and scores NaN, which no comparison of the scan selects. */
module Correlation {
  import opened Grids
  import opened Images
  import opened Statistics
  import opened Matching

  /** The library square root `sqrt` applied to `v`. */
  function Root(sqrt: real -> real, v: real): real
  {
    sqrt(v)
  }

  /** `sqrt` returns the non-negative square root of every non-negative value. */
  ghost predicate IsSqrt(sqrt: real -> real)
  {
    forall v :: v >= 0.0 ==> Root(sqrt, v) >= 0.0 && Root(sqrt, v) * Root(sqrt, v) == v
  }

  // ---------------------------------------------------------------------------
  // The coefficient

  /** The correlation coefficient of `a` against `b` given their means: the
      cross deviation divided by the square root of the product of the two
      squared-deviation sums. */
  function CoefficientOf(a: seq<real>, b: seq<real>, ma: real, mb: real, sqrt: real -> real): Score
    requires |a| == |b|
  {
    CoefficientFrom(CrossDev(a, b, ma, mb), SqDev(a, ma), SqDev(b, mb), sqrt)
  }

  /** The last two steps of `correlate` for one placement: the product of the
      two deviation sums goes under the square root, and the cross deviation is
      divided by that root. */
  function CoefficientFrom(cross: real, rawDev: real, maskDev: real, sqrt: real -> real): Score
  {
    Quotient(cross, Root(sqrt, rawDev * maskDev))
  }

  /** The coefficient of the placement at (y, x), with both means taken over
      the cells they describe: the raw block's over the block, the mask's over
      the mask. */
  function Coefficient(raw: seq<seq<real>>, samples: nat, lines: nat, mask: seq<seq<real>>, w: nat, h: nat,
                       y: nat, x: nat, sqrt: real -> real): Score
    requires Rect(raw, samples, lines) && Rect(mask, w, h) && 0 < w && 0 < h && y + h <= lines && x + w <= samples
  {
    var b := Block(raw, samples, lines, y, x, w, h);
    FlattenLength(b, w, h);
    FlattenLength(mask, w, h);
    CoefficientOf(Flatten(b), Flatten(mask), Mean(b, w, h), Mean(mask, w, h), sqrt)
  }

  /** The coefficient as `correlate` computes it: its mask mean sums the raw
      image's top-left w x h block instead of the mask. */
  function CoefficientAsWritten(raw: seq<seq<real>>, samples: nat, lines: nat, mask: seq<seq<real>>, w: nat, h: nat,
                                y: nat, x: nat, sqrt: real -> real): Score
    requires Rect(raw, samples, lines) && Rect(mask, w, h) && 0 < w && 0 < h && y + h <= lines && x + w <= samples
  {
    var b := Block(raw, samples, lines, y, x, w, h);
    FlattenLength(b, w, h);
    FlattenLength(mask, w, h);
    CoefficientOf(Flatten(b), Flatten(mask), Mean(b, w, h), Mean(Block(raw, samples, lines, 0, 0, w, h), w, h), sqrt)
  }

  // ---------------------------------------------------------------------------
  // Cauchy-Schwarz for the deviation sums

  /** Sum of the squares of (a[i] - ma) + t * (b[i] - mb). */
  function Mix(a: seq<real>, b: seq<real>, ma: real, mb: real, t: real): real
    requires |a| == |b|
  {
    if a == [] then 0.0
    else Mix(a[..|a| - 1], b[..|b| - 1], ma, mb, t) + Sq((a[|a| - 1] - ma) + Prod(t, b[|b| - 1] - mb))
  }

  lemma {:induction false} MixNonNegative(a: seq<real>, b: seq<real>, ma: real, mb: real, t: real)
    requires |a| == |b|
    ensures Mix(a, b, ma, mb, t) >= 0.0
  {
    if a != [] {
      var n := |a| - 1;
      MixNonNegative(a[..n], b[..n], ma, mb, t);
      var d := (a[n] - ma) + Prod(t, b[n] - mb);
      MixLast(a, b, ma, mb, t, a[n] - ma, b[n] - mb);
      Square(d);
      assert Sq(d) >= 0.0;
    }
  }

  function Sq(d: real): real
  {
    d * d
  }

  lemma Square(d: real)
    ensures d * d >= 0.0
  {
    if d < 0.0 { assert d * d == (-d) * (-d); }
  }

  /** The last terms of the three sums, with the deviations u and v named. */
  lemma {:induction false} MixLast(a: seq<real>, b: seq<real>, ma: real, mb: real, t: real, u: real, v: real)
    requires |a| == |b| > 0 && u == a[|a| - 1] - ma && v == b[|b| - 1] - mb
    ensures Mix(a, b, ma, mb, t) == Mix(a[..|a| - 1], b[..|b| - 1], ma, mb, t) + Sq(u + Prod(t, v))
  {
    assert a != [];
  }

  lemma {:induction false} CrossDevLast(a: seq<real>, b: seq<real>, ma: real, mb: real, u: real, v: real)
    requires |a| == |b| > 0 && u == a[|a| - 1] - ma && v == b[|b| - 1] - mb
    ensures CrossDev(a, b, ma, mb) == CrossDev(a[..|a| - 1], b[..|b| - 1], ma, mb) + u * v
  {
    assert a != [];
  }

  lemma {:induction false} SqDevLast(s: seq<real>, m: real, u: real)
    requires |s| > 0 && u == s[|s| - 1] - m
    ensures SqDev(s, m) == SqDev(s[..|s| - 1], m) + u * u
  {
    assert s != [];
  }

  /** `m` is the quadratic p + 2tc + t^2 q. */
  predicate Quadratic(m: real, p: real, c: real, q: real, t: real)
  {
    m == p + 2.0 * t * c + t * t * q
  }

  /** The mixed sum is a quadratic in t whose coefficients are the deviation sums. */
  lemma {:induction false} MixExpand(a: seq<real>, b: seq<real>, ma: real, mb: real, t: real)
    requires |a| == |b|
    ensures Quadratic(Mix(a, b, ma, mb, t), SqDev(a, ma), CrossDev(a, b, ma, mb), SqDev(b, mb), t)
  {
    if a != [] {
      var a', b' := a[..|a| - 1], b[..|b| - 1];
      var u, v := a[|a| - 1] - ma, b[|b| - 1] - mb;
      MixExpand(a', b', ma, mb, t);
      DeviationsLast(a, b, ma, mb, t, u, v);
      QuadraticStep(Mix(a, b, ma, mb, t), SqDev(a, ma), CrossDev(a, b, ma, mb), SqDev(b, mb),
                    Mix(a', b', ma, mb, t), SqDev(a', ma), CrossDev(a', b', ma, mb), SqDev(b', mb), u, v, t);
    }
  }

  function Prod(u: real, v: real): real
  {
    u * v
  }

  /** The last terms of the four sums, in the deviations u and v of the last pair. */
  lemma {:induction false} DeviationsLast(a: seq<real>, b: seq<real>, ma: real, mb: real, t: real, u: real, v: real)
    requires |a| == |b| > 0 && u == a[|a| - 1] - ma && v == b[|b| - 1] - mb
    ensures Mix(a, b, ma, mb, t) == Mix(a[..|a| - 1], b[..|b| - 1], ma, mb, t) + Sq(u + Prod(t, v))
    ensures SqDev(a, ma) == SqDev(a[..|a| - 1], ma) + Sq(u)
    ensures SqDev(b, mb) == SqDev(b[..|b| - 1], mb) + Sq(v)
    ensures CrossDev(a, b, ma, mb) == CrossDev(a[..|a| - 1], b[..|b| - 1], ma, mb) + Prod(u, v)
  {
    MixLast(a, b, ma, mb, t, u, v);
    SqDevLast(a, ma, u);
    SqDevLast(b, mb, v);
    CrossDevLast(a, b, ma, mb, u, v);
  }

  /** Adding one pair with deviations (u, v) to the sums keeps the mixed sum the
      same quadratic in t. */
  lemma QuadraticStep(m': real, p': real, c': real, q': real, m: real, p: real, c: real, q: real,
                      u: real, v: real, t: real)
    requires Quadratic(m, p, c, q, t)
    requires m' == m + Sq(u + Prod(t, v))
    requires p' == p + Sq(u) && c' == c + Prod(u, v) && q' == q + Sq(v)
    ensures Quadratic(m', p', c', q', t)
  {
    assert Sq(u + t * v) == u * u + 2.0 * t * (u * v) + t * t * (v * v);
  }

  /** When one side is flat (its squared deviations sum to 0) every cross term
      is 0. */
  lemma {:induction false} FlatCross(a: seq<real>, b: seq<real>, ma: real, mb: real)
    requires |a| == |b| && (SqDev(a, ma) == 0.0 || SqDev(b, mb) == 0.0)
    ensures CrossDev(a, b, ma, mb) == 0.0
  {
    if a != [] {
      var a', b' := a[..|a| - 1], b[..|b| - 1];
      var u, v := a[|a| - 1] - ma, b[|b| - 1] - mb;
      assert SqDev(a', ma) == 0.0 || SqDev(b', mb) == 0.0 by {
        SqDevNonNegative(a', ma);
        SqDevNonNegative(b', mb);
        Square(u);
        Square(v);
        SqDevLast(a, ma, u);
        SqDevLast(b, mb, v);
      }
      assert u * v == 0.0 by {
        SqDevNonNegative(a', ma);
        SqDevNonNegative(b', mb);
        Square(u);
        Square(v);
        SqDevLast(a, ma, u);
        SqDevLast(b, mb, v);
        if SqDev(a, ma) == 0.0 { ZeroSquare(u); } else { ZeroSquare(v); }
      }
      FlatCross(a', b', ma, mb);
      CrossDevLast(a, b, ma, mb, u, v);
    }
  }

  /** c * c <= r */
  predicate SquareBounded(c: real, r: real)
  {
    c * c <= r
  }

  /** The squared cross deviation c never exceeds the product of the two
      squared deviation sums p and q (the Cauchy-Schwarz inequality). */
  lemma CauchySchwarz(a: seq<real>, b: seq<real>, ma: real, mb: real, p: real, c: real, q: real)
    requires |a| == |b| && p == SqDev(a, ma) && c == CrossDev(a, b, ma, mb) && q == SqDev(b, mb)
    ensures SquareBounded(c, p * q)
  {
    assert q >= 0.0 by {
      SqDevNonNegative(b, mb);
    }
    if q > 0.0 {
      SteepCauchySchwarz(a, b, ma, mb, p, c, q);
    } else {
      assert c == 0.0 by {
        FlatCross(a, b, ma, mb);
      }
      ZeroTimes(p, q, c);
    }
  }

  lemma ZeroTimes(p: real, q: real, c: real)
    requires q == 0.0 && c == 0.0
    ensures SquareBounded(c, p * q)
  {
  }

  lemma SteepCauchySchwarz(a: seq<real>, b: seq<real>, ma: real, mb: real, p: real, c: real, q: real)
    requires |a| == |b| && p == SqDev(a, ma) && c == CrossDev(a, b, ma, mb) && q == SqDev(b, mb) && q > 0.0
    ensures SquareBounded(c, p * q)
  {
    var t := -c / q;
    assert Quadratic(Mix(a, b, ma, mb, t), p, c, q, t) by {
      MixExpand(a, b, ma, mb, t);
    }
    assert Mix(a, b, ma, mb, t) >= 0.0 by {
      MixNonNegative(a, b, ma, mb, t);
    }
    MinimumOfQuadratic(Mix(a, b, ma, mb, t), p, c, q, t);
  }

  /** A quadratic p + 2tc + t^2 q with q > 0 that is non-negative at its
      minimum t = -c/q has a non-positive discriminant. */
  lemma MinimumOfQuadratic(m: real, p: real, c: real, q: real, t: real)
    requires q > 0.0 && t == -c / q && Quadratic(m, p, c, q, t) && m >= 0.0
    ensures SquareBounded(c, p * q)
  {
    assert t * q == -c;
    assert t * t * q == -t * c;
    assert p + t * c >= 0.0;
    assert (p + t * c) * q >= 0.0;
    assert p * q + t * c * q >= 0.0;
    assert t * c * q == -c * c;
  }

  /** With a true square root, the coefficient is never infinite: it is NaN
      exactly when the raw block or the mask is flat, and otherwise a value in
      [-1, 1]. */
  lemma CoefficientBounded(a: seq<real>, b: seq<real>, ma: real, mb: real, sqrt: real -> real)
    requires |a| == |b| && IsSqrt(sqrt)
    ensures CoefficientOf(a, b, ma, mb, sqrt).NaN? <==> SqDev(a, ma) == 0.0 || SqDev(b, mb) == 0.0
    ensures !CoefficientOf(a, b, ma, mb, sqrt).NaN? ==>
              CoefficientOf(a, b, ma, mb, sqrt).Finite? && -1.0 <= CoefficientOf(a, b, ma, mb, sqrt).value <= 1.0
  {
    CoefficientBoundedOn(a, b, ma, mb, sqrt, SqDev(a, ma), CrossDev(a, b, ma, mb), SqDev(b, mb));
  }

  lemma CoefficientBoundedOn(a: seq<real>, b: seq<real>, ma: real, mb: real, sqrt: real -> real, p: real, c: real, q: real)
    requires |a| == |b| && IsSqrt(sqrt)
    requires p == SqDev(a, ma) && c == CrossDev(a, b, ma, mb) && q == SqDev(b, mb)
    ensures CoefficientFrom(c, p, q, sqrt).NaN? <==> p == 0.0 || q == 0.0
    ensures !CoefficientFrom(c, p, q, sqrt).NaN? ==>
              CoefficientFrom(c, p, q, sqrt).Finite? && -1.0 <= CoefficientFrom(c, p, q, sqrt).value <= 1.0
  {
    assert p >= 0.0 && q >= 0.0 by {
      SqDevNonNegative(a, ma);
      SqDevNonNegative(b, mb);
    }
    CauchySchwarz(a, b, ma, mb, p, c, q);
    assert p == 0.0 || q == 0.0 ==> c == 0.0 by {
      if p == 0.0 || q == 0.0 {
        FlatCross(a, b, ma, mb);
      }
    }
    CoefficientFromBounded(c, p, q, sqrt);
  }

  /** The same on the three sums: a cross deviation bounded as above, over the
      square root of the product of two non-negative deviation sums. */
  lemma CoefficientFromBounded(c: real, p: real, q: real, sqrt: real -> real)
    requires IsSqrt(sqrt) && p >= 0.0 && q >= 0.0 && SquareBounded(c, p * q)
    requires p == 0.0 || q == 0.0 ==> c == 0.0
    ensures CoefficientFrom(c, p, q, sqrt).NaN? <==> p == 0.0 || q == 0.0
    ensures !CoefficientFrom(c, p, q, sqrt).NaN? ==>
              CoefficientFrom(c, p, q, sqrt).Finite? && -1.0 <= CoefficientFrom(c, p, q, sqrt).value <= 1.0
  {
    var r := p * q;
    NonNegativeProduct(p, q);
    var s := Root(sqrt, r);
    assert s >= 0.0 && s * s == r;
    if r == 0.0 {
      ZeroProduct(p, q);
      ZeroSquare(s);
    } else {
      assert p != 0.0 && q != 0.0;
      assert s != 0.0;
      UnitQuotient(c, s);
    }
  }

  lemma NonNegativeProduct(p: real, q: real)
    requires p >= 0.0 && q >= 0.0
    ensures p * q >= 0.0
  {
  }

  lemma ZeroProduct(p: real, q: real)
    requires p * q == 0.0
    ensures p == 0.0 || q == 0.0
  {
  }

  lemma ZeroSquare(c: real)
    requires c * c == 0.0
    ensures c == 0.0
  {
    ZeroProduct(c, c);
  }

  /** Squaring is strictly increasing on the non-negative values. */
  lemma StrictSquare(x: real, y: real)
    requires y >= 0.0
    ensures x > y ==> x * x > y * y
  {
    if x > y {
      PositiveProduct(x, x - y);
      NonNegativeProduct(y, x - y);
      assert x * x - y * y == x * (x - y) + y * (x - y);
    }
  }

  lemma PositiveProduct(p: real, q: real)
    requires p > 0.0 && q > 0.0
    ensures p * q > 0.0
  {
  }

  lemma UnitQuotient(c: real, s: real)
    requires s > 0.0 && SquareBounded(c, s * s)
    ensures -1.0 <= c / s <= 1.0
  {
    StrictSquare(c, s);
    StrictSquare(-c, s);
    assert -s <= c <= s;
    assert c / s * s == c;
  }

  /** The cross deviation of a sequence with itself is its squared deviation. */
  lemma {:induction false} CrossDevSelf(s: seq<real>, m: real)
    ensures CrossDev(s, s, m, m) == SqDev(s, m)
  {
    if s != [] {
      CrossDevSelf(s[..|s| - 1], m);
    }
  }

  /** A block identical to the mask scores exactly 1 unless the mask is flat. */
  lemma PerfectMatchScoresOne(raw: seq<seq<real>>, samples: nat, lines: nat, mask: seq<seq<real>>, w: nat, h: nat,
                              y: nat, x: nat, sqrt: real -> real)
    requires Rect(raw, samples, lines) && Rect(mask, w, h) && 0 < w && 0 < h && y + h <= lines && x + w <= samples
    requires IsSqrt(sqrt)
    requires forall my, mx :: 0 <= my < h && 0 <= mx < w ==> raw[y + my][x + mx] == mask[my][mx]
    requires SqDev(Flatten(mask), Mean(mask, w, h)) != 0.0
    ensures Coefficient(raw, samples, lines, mask, w, h, y, x, sqrt) == Finite(1.0)
  {
    var b := Block(raw, samples, lines, y, x, w, h);
    assert b == mask by {
      forall my | 0 <= my < h
        ensures b[my] == mask[my]
      {
        assert forall mx :: 0 <= mx < w ==> b[my][mx] == mask[my][mx];
      }
    }
    FlattenLength(mask, w, h);
    var f, m := Flatten(mask), Mean(mask, w, h);
    assert Coefficient(raw, samples, lines, mask, w, h, y, x, sqrt) == CoefficientOf(f, f, m, m, sqrt);
    assert CrossDev(f, f, m, m) == SqDev(f, m) by {
      CrossDevSelf(f, m);
    }
    assert SqDev(f, m) >= 0.0 by {
      SqDevNonNegative(f, m);
    }
    SelfCoefficient(SqDev(f, m), sqrt);
  }

  /** A positive deviation sum correlated with itself gives 1. */
  lemma SelfCoefficient(p: real, sqrt: real -> real)
    requires IsSqrt(sqrt) && p > 0.0
    ensures CoefficientFrom(p, p, p, sqrt) == Finite(1.0)
  {
    NonNegativeProduct(p, p);
    var s := Root(sqrt, p * p);
    assert s >= 0.0 && s * s == p * p;
    SquareRootUnique(s, p);
    SelfDivision(p, s);
  }

  lemma SelfDivision(p: real, s: real)
    requires s == p && p != 0.0
    ensures p / s == 1.0
  {
  }

  lemma SquareRootUnique(s: real, p: real)
    requires s >= 0.0 && p >= 0.0 && s * s == p * p
    ensures s == p
  {
    StrictSquare(s, p);
    StrictSquare(p, s);
  }

  /** The mask mean of `correlate` breaks the promise above: the mask [[1, 3]]
      lies exactly on line 1 of the raw image [[0, 0, 0], [1, 3, 0], [0, 0, 0]],
      yet the coefficient computed there is 2 / sqrt(20), not 1, because the
      mask mean is taken over the raw cells 0, 0 at the top left. */
  lemma MaskMeanFromRawMissesPerfectMatch(sqrt: real -> real)
    requires IsSqrt(sqrt)
    ensures var raw := [[0.0, 0.0, 0.0], [1.0, 3.0, 0.0], [0.0, 0.0, 0.0]];
            var mask := [[1.0, 3.0]];
            Rect(raw, 3, 3) && Rect(mask, 2, 1)
            && Coefficient(raw, 3, 3, mask, 2, 1, 1, 0, sqrt) == Finite(1.0)
            && CoefficientAsWritten(raw, 3, 3, mask, 2, 1, 1, 0, sqrt) != Finite(1.0)
  {
    var raw := [[0.0, 0.0, 0.0], [1.0, 3.0, 0.0], [0.0, 0.0, 0.0]];
    var mask := [[1.0, 3.0]];
    assert Rect(raw, 3, 3) && Rect(mask, 2, 1);
    var f := [1.0, 3.0];
    assert f[..1] == [1.0] && [1.0][..0] == [];
    assert Block(raw, 3, 3, 1, 0, 2, 1) == mask by {
      assert Block(raw, 3, 3, 1, 0, 2, 1)[0] == raw[1][0..2] == f;
    }
    var top := Block(raw, 3, 3, 0, 0, 2, 1);
    assert top == [[0.0, 0.0]] by {
      assert top[0] == raw[0][0..2] == [0.0, 0.0];
    }
    assert Flatten(mask) == f by {
      assert mask[..0] == [];
    }
    assert Mean(top, 2, 1) == 0.0 by {
      assert top[..0] == [];
      assert Flatten(top[..0]) == [];
      assert Flatten(top) == [0.0, 0.0];
      assert [0.0, 0.0][..1] == [0.0] && [0.0][..0] == [];
      assert Sum([0.0]) == 0.0;
      assert Sum([0.0, 0.0]) == 0.0;
    }
    assert Mean(mask, 2, 1) == 2.0 by {
      assert Sum(f) == 4.0;
    }
    assert CrossDev(f, f, 2.0, 0.0) == 2.0;
    assert SqDev(f, 2.0) == 2.0;
    assert SqDev(f, 0.0) == 10.0;
    assert SqDev(Flatten(mask), Mean(mask, 2, 1)) != 0.0;
    PerfectMatchScoresOne(raw, 3, 3, mask, 2, 1, 1, 0, sqrt);
    assert CoefficientAsWritten(raw, 3, 3, mask, 2, 1, 1, 0, sqrt) == CoefficientFrom(2.0, 2.0, 10.0, sqrt);
    NotUnitCoefficient(sqrt);
  }

  /** 2 / sqrt(2 * 10) is not 1. */
  lemma NotUnitCoefficient(sqrt: real -> real)
    requires IsSqrt(sqrt)
    ensures CoefficientFrom(2.0, 2.0, 10.0, sqrt) != Finite(1.0)
  {
    var s := Root(sqrt, 2.0 * 10.0);
    assert s * s == 20.0;
  }

  // ---------------------------------------------------------------------------
  // `correlate`

  /** A mean computed as `sum *= 1 / (lines * samples)` is the mean. */
  lemma InverseMean(g: seq<seq<real>>, w: nat, h: nat, t: real, inv: real)
    requires 0 < w && 0 < h && t == Total(g) && inv == 1.0 / ((h * w) as real)
    ensures t * inv == Mean(g, w, h)
  {
    assert h * w == w * h;
  }

  /** The running sum over the w x h block at (y, x) of `img`. */
  method BlockSum(img: FloatImage, y: nat, x: nat, w: nat, h: nat) returns (total: real)
    requires img.Valid() && y + h <= img.lines && x + w <= img.samples
    ensures total == Total(Block(img.Contents, img.samples, img.lines, y, x, w, h))
  {
    ghost var b := Block(img.Contents, img.samples, img.lines, y, x, w, h);
    total := 0.0;
    var my := 0;
    while my < h
      invariant 0 <= my <= h
      invariant total == Sum(Flatten(b[..my]))
    {
      total := BlockLineSum(img, y, x, w, h, my, total);
      my := my + 1;
    }
    assert b[..my] == b;
  }

  /** One line of BlockSum. */
  method BlockLineSum(img: FloatImage, y: nat, x: nat, w: nat, h: nat, my: nat, acc: real) returns (total: real)
    requires img.Valid() && y + h <= img.lines && x + w <= img.samples && my < h
    requires acc == Sum(Flatten(Block(img.Contents, img.samples, img.lines, y, x, w, h)[..my]))
    ensures total == Sum(Flatten(Block(img.Contents, img.samples, img.lines, y, x, w, h)[..my + 1]))
  {
    ghost var b := Block(img.Contents, img.samples, img.lines, y, x, w, h);
    ghost var pb := Flatten(b[..my]);
    assert pb + b[my][..0] == pb;
    total := acc;
    var mx := 0;
    while mx < w
      invariant 0 <= mx <= w
      invariant total == Sum(pb + b[my][..mx])
    {
      var sample := img.Sample(y + my, x + mx);
      assert pb + b[my][..mx + 1] == (pb + b[my][..mx]) + [sample] by { CellStep(b, my, mx); }
      SumSnoc(pb + b[my][..mx], sample);
      total := total + sample;
      mx := mx + 1;
    }
    RowEnd(b, my);
  }

  /** One cell of the deviation loops: the three running sums each take one
      more term. */
  lemma DeviationStep(a: seq<real>, b: seq<real>, u: real, v: real, ma: real, mb: real, du: real, dv: real)
    requires |a| == |b| && du == u - ma && dv == v - mb
    ensures CrossDev(a + [u], b + [v], ma, mb) == CrossDev(a, b, ma, mb) + du * dv
    ensures SqDev(a + [u], ma) == SqDev(a, ma) + du * du
    ensures SqDev(b + [v], mb) == SqDev(b, mb) + dv * dv
  {
    assert CrossDev(a + [u], b + [v], ma, mb) == CrossDev(a, b, ma, mb) + du * dv by {
      CrossDevSnoc(a, b, u, v, ma, mb);
      SameProduct(u - ma, v - mb, du, dv);
    }
    assert SqDev(a + [u], ma) == SqDev(a, ma) + du * du by {
      SqDevSnoc(a, u, ma);
      SameProduct(u - ma, u - ma, du, du);
    }
    assert SqDev(b + [v], mb) == SqDev(b, mb) + dv * dv by {
      SqDevSnoc(b, v, mb);
      SameProduct(v - mb, v - mb, dv, dv);
    }
  }

  /** The deviation loops of `correlate` for the placement at (y, x): the cross
      deviation of block and mask and the squared deviations of each, from the
      given means. */
  method BlockDeviations(raw: FloatImage, mask: FloatImage, y: nat, x: nat, rawMean: real, maskMean: real)
    returns (cross: real, rawDev: real, maskDev: real)
    requires raw.Valid() && mask.Valid()
    requires y + mask.lines <= raw.lines && x + mask.samples <= raw.samples
    ensures |Flatten(Block(raw.Contents, raw.samples, raw.lines, y, x, mask.samples, mask.lines))| == |Flatten(mask.Contents)|
    ensures cross == CrossDev(Flatten(Block(raw.Contents, raw.samples, raw.lines, y, x, mask.samples, mask.lines)),
                              Flatten(mask.Contents), rawMean, maskMean)
    ensures rawDev == SqDev(Flatten(Block(raw.Contents, raw.samples, raw.lines, y, x, mask.samples, mask.lines)), rawMean)
    ensures maskDev == SqDev(Flatten(mask.Contents), maskMean)
  {
    ghost var b := Block(raw.Contents, raw.samples, raw.lines, y, x, mask.samples, mask.lines);
    ghost var m := mask.Contents;
    cross, rawDev, maskDev := 0.0, 0.0, 0.0;
    var my := 0;
    while my < mask.lines
      invariant 0 <= my <= mask.lines
      invariant |Flatten(b[..my])| == |Flatten(m[..my])|
      invariant cross == CrossDev(Flatten(b[..my]), Flatten(m[..my]), rawMean, maskMean)
      invariant rawDev == SqDev(Flatten(b[..my]), rawMean)
      invariant maskDev == SqDev(Flatten(m[..my]), maskMean)
    {
      cross, rawDev, maskDev := BlockLineDeviations(raw, mask, y, x, rawMean, maskMean, my, cross, rawDev, maskDev);
      my := my + 1;
    }
    assert b[..my] == b && m[..my] == m;
  }

  /** One line of BlockDeviations. */
  method BlockLineDeviations(raw: FloatImage, mask: FloatImage, y: nat, x: nat, rawMean: real, maskMean: real, my: nat,
                             cross0: real, rawDev0: real, maskDev0: real)
    returns (cross: real, rawDev: real, maskDev: real)
    requires raw.Valid() && mask.Valid()
    requires y + mask.lines <= raw.lines && x + mask.samples <= raw.samples && my < mask.lines
    requires |Flatten(Block(raw.Contents, raw.samples, raw.lines, y, x, mask.samples, mask.lines)[..my])| == |Flatten(mask.Contents[..my])|
    requires cross0 == CrossDev(Flatten(Block(raw.Contents, raw.samples, raw.lines, y, x, mask.samples, mask.lines)[..my]),
                                Flatten(mask.Contents[..my]), rawMean, maskMean)
    requires rawDev0 == SqDev(Flatten(Block(raw.Contents, raw.samples, raw.lines, y, x, mask.samples, mask.lines)[..my]), rawMean)
    requires maskDev0 == SqDev(Flatten(mask.Contents[..my]), maskMean)
    ensures |Flatten(Block(raw.Contents, raw.samples, raw.lines, y, x, mask.samples, mask.lines)[..my + 1])| == |Flatten(mask.Contents[..my + 1])|
    ensures cross == CrossDev(Flatten(Block(raw.Contents, raw.samples, raw.lines, y, x, mask.samples, mask.lines)[..my + 1]),
                              Flatten(mask.Contents[..my + 1]), rawMean, maskMean)
    ensures rawDev == SqDev(Flatten(Block(raw.Contents, raw.samples, raw.lines, y, x, mask.samples, mask.lines)[..my + 1]), rawMean)
    ensures maskDev == SqDev(Flatten(mask.Contents[..my + 1]), maskMean)
  {
    ghost var b := Block(raw.Contents, raw.samples, raw.lines, y, x, mask.samples, mask.lines);
    ghost var m := mask.Contents;
    ghost var pb, pm := Flatten(b[..my]), Flatten(m[..my]);
    assert pb + b[my][..0] == pb && pm + m[my][..0] == pm;
    cross, rawDev, maskDev := cross0, rawDev0, maskDev0;
    var mx := 0;
    while mx < mask.samples
      invariant 0 <= mx <= mask.samples
      invariant |pb + b[my][..mx]| == |pm + m[my][..mx]|
      invariant cross == CrossDev(pb + b[my][..mx], pm + m[my][..mx], rawMean, maskMean)
      invariant rawDev == SqDev(pb + b[my][..mx], rawMean)
      invariant maskDev == SqDev(pm + m[my][..mx], maskMean)
    {
      var rawSample := raw.Sample(y + my, x + mx);
      var maskSample := mask.Sample(my, mx);
      assert pb + b[my][..mx + 1] == (pb + b[my][..mx]) + [rawSample] by { CellStep(b, my, mx); }
      assert pm + m[my][..mx + 1] == (pm + m[my][..mx]) + [maskSample] by { CellStep(m, my, mx); }
      cross, rawDev, maskDev := DeviationCell(rawSample, maskSample, rawMean, maskMean, pb + b[my][..mx], pm + m[my][..mx],
                                              cross, rawDev, maskDev);
      mx := mx + 1;
    }
    RowEnd(b, my);
    RowEnd(m, my);
  }

  /** The innermost body of the deviation loops: one raw sample and one mask
      sample added to the three sums over the samples `a` and `c` before them. */
  method DeviationCell(rawSample: real, maskSample: real, rawMean: real, maskMean: real, ghost a: seq<real>, ghost c: seq<real>,
                       cross0: real, rawDev0: real, maskDev0: real)
    returns (cross: real, rawDev: real, maskDev: real)
    requires |a| == |c|
    requires cross0 == CrossDev(a, c, rawMean, maskMean) && rawDev0 == SqDev(a, rawMean) && maskDev0 == SqDev(c, maskMean)
    ensures cross == CrossDev(a + [rawSample], c + [maskSample], rawMean, maskMean)
    ensures rawDev == SqDev(a + [rawSample], rawMean)
    ensures maskDev == SqDev(c + [maskSample], maskMean)
  {
    var rawError := rawSample - rawMean;
    var maskError := maskSample - maskMean;
    DeviationStep(a, c, rawSample, maskSample, rawMean, maskMean, rawError, maskError);
    cross := cross0 + rawError * maskError;
    rawDev := rawDev0 + rawError * rawError;
    maskDev := maskDev0 + maskError * maskError;
  }

  /** The body of the placement loops of `correlate`: the raw block's mean, the
      three deviation sums, and their coefficient. */
  method CorrelatePlacement(raw: FloatImage, mask: FloatImage, y: nat, x: nat, invMaskCount: real, maskMean: real,
                            sqrt: real -> real)
    returns (coeff: Score)
    requires raw.Valid() && mask.Valid() && 0 < mask.samples && 0 < mask.lines
    requires y + mask.lines <= raw.lines && x + mask.samples <= raw.samples
    requires invMaskCount == 1.0 / ((mask.lines * mask.samples) as real)
    requires maskMean == Mean(mask.Contents, mask.samples, mask.lines)
    ensures coeff == Coefficient(raw.Contents, raw.samples, raw.lines, mask.Contents, mask.samples, mask.lines, y, x, sqrt)
  {
    ghost var b := Block(raw.Contents, raw.samples, raw.lines, y, x, mask.samples, mask.lines);
    var rawSum := BlockSum(raw, y, x, mask.samples, mask.lines);
    var rawMean := rawSum * invMaskCount;
    assert rawMean == Mean(b, mask.samples, mask.lines) by {
      InverseMean(b, mask.samples, mask.lines, rawSum, invMaskCount);
    }
    var cross, rawDev, maskDev := BlockDeviations(raw, mask, y, x, rawMean, maskMean);
    coeff := CoefficientFrom(cross, rawDev, maskDev, sqrt);
    PlacementCoefficient(raw.Contents, raw.samples, raw.lines, mask.Contents, mask.samples, mask.lines, y, x, sqrt,
                         rawMean, maskMean, cross, rawDev, maskDev);
  }

  /** The sums a placement computes, from the block's and the mask's means,
      give its coefficient. */
  lemma PlacementCoefficient(raw: seq<seq<real>>, S: nat, L: nat, mask: seq<seq<real>>, w: nat, h: nat, y: nat, x: nat,
                             sqrt: real -> real, rawMean: real, maskMean: real, cross: real, rawDev: real, maskDev: real)
    requires Rect(raw, S, L) && Rect(mask, w, h) && 0 < w && 0 < h && y + h <= L && x + w <= S
    requires rawMean == Mean(Block(raw, S, L, y, x, w, h), w, h) && maskMean == Mean(mask, w, h)
    requires |Flatten(Block(raw, S, L, y, x, w, h))| == |Flatten(mask)|
    requires cross == CrossDev(Flatten(Block(raw, S, L, y, x, w, h)), Flatten(mask), rawMean, maskMean)
    requires rawDev == SqDev(Flatten(Block(raw, S, L, y, x, w, h)), rawMean)
    requires maskDev == SqDev(Flatten(mask), maskMean)
    ensures Coefficient(raw, S, L, mask, w, h, y, x, sqrt) == CoefficientFrom(cross, rawDev, maskDev, sqrt)
  {
  }

  /** After the scan of `correlate` has visited every cell before (vy, vx) of
      the first `cols` columns: `m` is the greatest visited coefficient, or
      FLT_MIN when none is greater, NaN cells never being greater; (cy, cx) is
      the first visited cell holding `m`, or (0, 0) when nothing exceeded
      FLT_MIN. */
  ghost predicate MaxScan(c: array2<Score>, cols: nat, vy: nat, vx: nat, m: Score, cy: nat, cx: nat)
    reads c
  {
    (forall y: nat, x: nat :: y < c.Length0 && x < c.Length1 && Visited(y, x, vy, vx, cols) ==> !Less(m, c[y, x]))
    && !m.NaN? && !Less(m, Finite(FltMin))
    && (m == Finite(FltMin) ==> cy == 0 && cx == 0)
    && (m != Finite(FltMin) ==>
          && Visited(cy, cx, vy, vx, cols) && cy < c.Length0 && cx < c.Length1 && c[cy, cx] == m
          && (forall y: nat, x: nat :: y < c.Length0 && x < c.Length1 && Visited(y, x, cy, cx, cols) ==> c[y, x] != m))
  }

  /** After the same visit: `m` is the least visited coefficient, or FLT_MAX
      when none is less. */
  ghost predicate MinScan(c: array2<Score>, cols: nat, vy: nat, vx: nat, m: Score)
    reads c
  {
    (forall y: nat, x: nat :: y < c.Length0 && x < c.Length1 && Visited(y, x, vy, vx, cols) ==> !Less(c[y, x], m))
    && !m.NaN? && !Less(Finite(FltMax), m)
    && (m == Finite(FltMax) ||
        exists y: nat, x: nat :: y < c.Length0 && x < c.Length1 && Visited(y, x, vy, vx, cols) && c[y, x] == m)
  }

  /** One cell of the `>` scan keeps MaxScan. */
  lemma MaxScanStep(c: array2<Score>, cols: nat, y: nat, x: nat, m: Score, cy: nat, cx: nat)
    requires y < c.Length0 && x < c.Length1 && x < cols
    requires MaxScan(c, cols, y, x, m, cy, cx)
    ensures Less(m, c[y, x]) ==> MaxScan(c, cols, y, x + 1, c[y, x], y, x)
    ensures !Less(m, c[y, x]) ==> MaxScan(c, cols, y, x + 1, m, cy, cx)
  {
    var v := c[y, x];
    if Less(m, v) {
      forall y': nat, x': nat | y' < c.Length0 && x' < c.Length1 && Visited(y', x', y, x + 1, cols)
        ensures !Less(v, c[y', x'])
      {
        LessOrder(m, v, c[y', x']);
      }
      LessOrder(m, v, Finite(FltMin));
    }
  }

  /** One cell of the `<` scan keeps MinScan. */
  lemma MinScanStep(c: array2<Score>, cols: nat, y: nat, x: nat, m: Score)
    requires y < c.Length0 && x < c.Length1 && x < cols
    requires MinScan(c, cols, y, x, m)
    ensures Less(c[y, x], m) ==> MinScan(c, cols, y, x + 1, c[y, x])
    ensures !Less(c[y, x], m) ==> MinScan(c, cols, y, x + 1, m)
  {
    var v := c[y, x];
    if Less(v, m) {
      forall y': nat, x': nat | y' < c.Length0 && x' < c.Length1 && Visited(y', x', y, x + 1, cols)
        ensures !Less(c[y', x'], v)
      {
        LessOrder(c[y', x'], v, m);
      }
      LessOrder(Finite(FltMax), m, v);
      LessOrder(v, m, Finite(FltMax));
    } else if m != Finite(FltMax) {
      var y': nat, x': nat :| y' < c.Length0 && x' < c.Length1 && Visited(y', x', y, x, cols) && c[y', x'] == m;
      assert Visited(y', x', y, x + 1, cols);
    }
  }

  /** Finishing a line of the scan is starting the next one. */
  lemma ScanLineEnd(c: array2<Score>, cols: nat, y: nat, mn: Score, mx: Score, cy: nat, cx: nat)
    requires MinScan(c, cols, y, cols, mn) && MaxScan(c, cols, y, cols, mx, cy, cx)
    ensures MinScan(c, cols, y + 1, 0, mn) && MaxScan(c, cols, y + 1, 0, mx, cy, cx)
  {
    forall y', x' ensures Visited(y', x', y, cols, cols) == Visited(y', x', y + 1, 0, cols) {
      VisitedRowEnd(y', x', y, cols);
    }
  }

  /** The scan of `correlate` over the scored placements. */
  method ScanCoefficients(coeffs: array2<Score>, rows: nat, cols: nat)
    returns (candidateX: nat, candidateY: nat, minCoeff: Score, maxCoeff: Score)
    requires rows <= coeffs.Length0 && cols <= coeffs.Length1
    ensures MinScan(coeffs, cols, rows, 0, minCoeff)
    ensures MaxScan(coeffs, cols, rows, 0, maxCoeff, candidateY, candidateX)
  {
    minCoeff, maxCoeff := Finite(FltMax), Finite(FltMin);
    candidateX, candidateY := 0, 0;
    var y := 0;
    while y < rows
      invariant 0 <= y <= rows
      invariant MinScan(coeffs, cols, y, 0, minCoeff)
      invariant MaxScan(coeffs, cols, y, 0, maxCoeff, candidateY, candidateX)
    {
      candidateX, candidateY, minCoeff, maxCoeff := ScanCoefficientLine(coeffs, cols, y, candidateX, candidateY, minCoeff, maxCoeff);
      y := y + 1;
    }
  }

  /** One line of ScanCoefficients. */
  method ScanCoefficientLine(coeffs: array2<Score>, cols: nat, y: nat, cx: nat, cy: nat, mn: Score, mx: Score)
    returns (candidateX: nat, candidateY: nat, minCoeff: Score, maxCoeff: Score)
    requires y < coeffs.Length0 && cols <= coeffs.Length1
    requires MinScan(coeffs, cols, y, 0, mn) && MaxScan(coeffs, cols, y, 0, mx, cy, cx)
    ensures MinScan(coeffs, cols, y + 1, 0, minCoeff)
    ensures MaxScan(coeffs, cols, y + 1, 0, maxCoeff, candidateY, candidateX)
  {
    candidateX, candidateY, minCoeff, maxCoeff := cx, cy, mn, mx;
    var x := 0;
    while x < cols
      invariant 0 <= x <= cols
      invariant MinScan(coeffs, cols, y, x, minCoeff)
      invariant MaxScan(coeffs, cols, y, x, maxCoeff, candidateY, candidateX)
    {
      candidateX, candidateY, minCoeff, maxCoeff := ScanCoefficientCell(coeffs, cols, y, x, candidateX, candidateY, minCoeff, maxCoeff);
      x := x + 1;
    }
    ScanLineEnd(coeffs, cols, y, minCoeff, maxCoeff, candidateY, candidateX);
  }

  /** One cell of ScanCoefficients: a strictly lower coefficient becomes the
      minimum, a strictly greater one the maximum and the candidate. */
  method ScanCoefficientCell(coeffs: array2<Score>, cols: nat, y: nat, x: nat, cx: nat, cy: nat, mn: Score, mx: Score)
    returns (candidateX: nat, candidateY: nat, minCoeff: Score, maxCoeff: Score)
    requires y < coeffs.Length0 && x < cols <= coeffs.Length1
    requires MinScan(coeffs, cols, y, x, mn) && MaxScan(coeffs, cols, y, x, mx, cy, cx)
    ensures MinScan(coeffs, cols, y, x + 1, minCoeff)
    ensures MaxScan(coeffs, cols, y, x + 1, maxCoeff, candidateY, candidateX)
  {
    var sample := coeffs[y, x];
    MinScanStep(coeffs, cols, y, x, mn);
    MaxScanStep(coeffs, cols, y, x, mx, cy, cx);
    candidateX, candidateY, minCoeff, maxCoeff := cx, cy, mn, mx;
    if Less(sample, minCoeff) {
      minCoeff := sample;
    }
    if Less(maxCoeff, sample) {
      maxCoeff := sample;
      candidateX, candidateY := x, y;
    }
  }

  /** `correlate`: the placements scored, then the scan of those cells for the
      greatest coefficient. */
  method Correlate(raw: FloatImage, mask: FloatImage, sqrt: real -> real)
    returns (coeffs: array2<Score>, candidateX: nat, candidateY: nat, minCoeff: Score, maxCoeff: Score)
    requires raw.Valid() && mask.Valid()
    requires 0 < mask.samples <= raw.samples && 0 < mask.lines
    ensures fresh(coeffs) && coeffs.Length0 == raw.lines && coeffs.Length1 == raw.samples
    ensures forall y, x :: 0 <= y < raw.lines && 0 <= x < raw.samples ==>
              coeffs[y, x] == if y < ScoredLines(raw.lines, mask.lines) && x < raw.samples - mask.samples
                              then Coefficient(raw.Contents, raw.samples, raw.lines, mask.Contents, mask.samples, mask.lines, y, x, sqrt)
                              else Finite(0.0)
    ensures MinScan(coeffs, raw.samples - mask.samples, ScoredLines(raw.lines, mask.lines), 0, minCoeff)
    ensures MaxScan(coeffs, raw.samples - mask.samples, ScoredLines(raw.lines, mask.lines), 0, maxCoeff, candidateY, candidateX)
  {
    coeffs := ScoreCoefficients(raw, mask, sqrt);
    candidateX, candidateY, minCoeff, maxCoeff :=
      ScanCoefficients(coeffs, ScoredLines(raw.lines, mask.lines), raw.samples - mask.samples);
  }

  /** The placement loops of `correlate`: the mask mean, then a zeroed grid of
      the raw image's size whose scored cells hold the coefficient of the
      placement there. */
  method ScoreCoefficients(raw: FloatImage, mask: FloatImage, sqrt: real -> real) returns (coeffs: array2<Score>)
    requires raw.Valid() && mask.Valid()
    requires 0 < mask.samples <= raw.samples && 0 < mask.lines
    ensures fresh(coeffs) && coeffs.Length0 == raw.lines && coeffs.Length1 == raw.samples
    ensures forall y, x :: 0 <= y < raw.lines && 0 <= x < raw.samples ==>
              coeffs[y, x] == if y < ScoredLines(raw.lines, mask.lines) && x < raw.samples - mask.samples
                              then Coefficient(raw.Contents, raw.samples, raw.lines, mask.Contents, mask.samples, mask.lines, y, x, sqrt)
                              else Finite(0.0)
  {
    coeffs := new Score[raw.lines, raw.samples]((_, _) => Finite(0.0));
    var invMaskCount, maskMean := MaskMean(mask);
    var rows := ScoredLines(raw.lines, mask.lines);
    var cols := raw.samples - mask.samples;
    var y := 0;
    while y < rows
      invariant 0 <= y <= rows
      invariant forall i, c :: 0 <= i < raw.lines && 0 <= c < raw.samples ==>
        coeffs[i, c] == if i < y && c < cols
                        then Coefficient(raw.Contents, raw.samples, raw.lines, mask.Contents, mask.samples, mask.lines, i, c, sqrt)
                        else Finite(0.0)
    {
      CorrelateLine(raw, mask, coeffs, rows, cols, y, invMaskCount, maskMean, sqrt);
      y := y + 1;
    }
  }

  /** The mask mean of `correlate`, with the sum taken over the mask itself,
      and the factor 1 / (lines * samples) it was scaled by. */
  method MaskMean(mask: FloatImage) returns (invMaskCount: real, maskMean: real)
    requires mask.Valid() && 0 < mask.samples && 0 < mask.lines
    ensures invMaskCount == 1.0 / ((mask.lines * mask.samples) as real)
    ensures maskMean == Mean(mask.Contents, mask.samples, mask.lines)
  {
    invMaskCount := 1.0 / ((mask.lines * mask.samples) as real);
    var maskSum := BlockSum(mask, 0, 0, mask.samples, mask.lines);
    BlockWhole(mask.Contents, mask.samples, mask.lines);
    maskMean := maskSum * invMaskCount;
    InverseMean(mask.Contents, mask.samples, mask.lines, maskSum, invMaskCount);
  }

  /** One line of the placement loops of `correlate`. */
  method CorrelateLine(raw: FloatImage, mask: FloatImage, coeffs: array2<Score>, rows: nat, cols: nat, y: nat,
                       invMaskCount: real, maskMean: real, sqrt: real -> real)
    requires raw.Valid() && mask.Valid() && 0 < mask.samples <= raw.samples && 0 < mask.lines
    requires coeffs.Length0 == raw.lines && coeffs.Length1 == raw.samples
    requires coeffs !in raw.Repr && coeffs !in mask.Repr
    requires rows == ScoredLines(raw.lines, mask.lines) && cols == raw.samples - mask.samples && y < rows
    requires invMaskCount == 1.0 / ((mask.lines * mask.samples) as real)
    requires maskMean == Mean(mask.Contents, mask.samples, mask.lines)
    modifies coeffs
    ensures forall i, c :: 0 <= i < raw.lines && 0 <= c < raw.samples ==>
      coeffs[i, c] == if i == y && c < cols
                      then Coefficient(raw.Contents, raw.samples, raw.lines, mask.Contents, mask.samples, mask.lines, i, c, sqrt)
                      else old(coeffs[i, c])
  {
    var x := 0;
    while x < cols
      invariant 0 <= x <= cols
      invariant forall i, c :: 0 <= i < raw.lines && 0 <= c < raw.samples ==>
        coeffs[i, c] == if i == y && c < x
                        then Coefficient(raw.Contents, raw.samples, raw.lines, mask.Contents, mask.samples, mask.lines, i, c, sqrt)
                        else old(coeffs[i, c])
    {
      var coeff := CorrelatePlacement(raw, mask, y, x, invMaskCount, maskMean, sqrt);
      coeffs[y, x] := coeff;
      x := x + 1;
    }
  }
}
