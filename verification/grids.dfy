/** Shared vocabulary of the image engine: samples are exact reals, a grid is a
    sequence of rows, and the running reductions below are the ones the loops of
    the engine perform, element by element and in the same order. */
module Grids {

  /** One unsigned 8-bit value. */
  type byte = x: int | 0 <= x < 256

  /** FLT_MIN, the smallest positive normalised float, 2^-126. */
  const FltMin: real := 1.0 / 85070591730234615865843651857942052864.0

  /** FLT_MAX, the largest finite float, (2 - 2^-23) * 2^127. */
  const FltMax: real := 340282346638528859811704183484516925440.0

  /** `g` has `lines` rows of `samples` entries; cell (line y, sample x) is g[y][x]. */
  predicate Rect(g: seq<seq<real>>, samples: nat, lines: nat) {
    |g| == lines && forall y :: 0 <= y < lines ==> |g[y]| == samples
  }

  /** The rows of `g`, concatenated in row-major order. */
  function Flatten(g: seq<seq<real>>): (f: seq<real>)
  {
    if g == [] then [] else Flatten(g[..|g| - 1]) + g[|g| - 1]
  }

  lemma {:induction false} FlattenLength(g: seq<seq<real>>, samples: nat, lines: nat)
    requires Rect(g, samples, lines)
    ensures |Flatten(g)| == samples * lines
  {
    if lines > 0 {
      FlattenLength(g[..lines - 1], samples, lines - 1);
    }
  }

  lemma FlattenPrefix(g: seq<seq<real>>, y: nat)
    requires y < |g|
    ensures Flatten(g[..y + 1]) == Flatten(g[..y]) + g[y]
  {
    assert g[..y + 1][..y] == g[..y];
  }

  /** Membership in the flattened grid is membership in one of its rows. */
  lemma {:induction false} FlattenMember(g: seq<seq<real>>, v: real)
    ensures v in Flatten(g) <==> exists y :: 0 <= y < |g| && v in g[y]
  {
    if g != [] {
      var n := |g| - 1;
      FlattenMember(g[..n], v);
      assert forall y :: 0 <= y < n ==> g[..n][y] == g[y];
    }
  }

  /** Left-to-right sum, as an accumulator loop computes it. */
  function Sum(s: seq<real>): real
  {
    if s == [] then 0.0 else Sum(s[..|s| - 1]) + s[|s| - 1]
  }

  /** Left-to-right sum of squares. */
  function SumSq(s: seq<real>): real
  {
    if s == [] then 0.0 else SumSq(s[..|s| - 1]) + s[|s| - 1] * s[|s| - 1]
  }

  /** Left-to-right sum of squared deviations from `m`. */
  function SqDev(s: seq<real>, m: real): real
  {
    if s == [] then 0.0 else SqDev(s[..|s| - 1], m) + (s[|s| - 1] - m) * (s[|s| - 1] - m)
  }

  /** Left-to-right sum of the products of the deviations of `a` from `ma` and of `b` from `mb`. */
  function CrossDev(a: seq<real>, b: seq<real>, ma: real, mb: real): real
    requires |a| == |b|
  {
    if a == [] then 0.0
    else CrossDev(a[..|a| - 1], b[..|b| - 1], ma, mb) + (a[|a| - 1] - ma) * (b[|b| - 1] - mb)
  }

  /** The total of all cells of a grid. */
  function Total(g: seq<seq<real>>): real
  {
    Sum(Flatten(g))
  }

  lemma {:induction false} SumAppend(a: seq<real>, b: seq<real>)
    ensures Sum(a + b) == Sum(a) + Sum(b)
  {
    if b != [] {
      assert a + b != [] && (a + b)[|a + b| - 1] == b[|b| - 1];
      assert (a + b)[..|a + b| - 1] == a + b[..|b| - 1];
      SumAppend(a, b[..|b| - 1]);
    } else {
      assert a + b == a;
    }
  }

  lemma {:induction false} SumSqAppend(a: seq<real>, b: seq<real>)
    ensures SumSq(a + b) == SumSq(a) + SumSq(b)
  {
    if b != [] {
      assert a + b != [] && (a + b)[|a + b| - 1] == b[|b| - 1];
      assert (a + b)[..|a + b| - 1] == a + b[..|b| - 1];
      SumSqAppend(a, b[..|b| - 1]);
    } else {
      assert a + b == a;
    }
  }

  lemma {:induction false} SqDevAppend(a: seq<real>, b: seq<real>, m: real)
    ensures SqDev(a + b, m) == SqDev(a, m) + SqDev(b, m)
  {
    if b != [] {
      assert a + b != [] && (a + b)[|a + b| - 1] == b[|b| - 1];
      assert (a + b)[..|a + b| - 1] == a + b[..|b| - 1];
      SqDevAppend(a, b[..|b| - 1], m);
    } else {
      assert a + b == a;
    }
  }

  lemma {:induction false} CrossDevAppend(a: seq<real>, b: seq<real>, c: seq<real>, d: seq<real>, ma: real, mb: real)
    requires |a| == |c| && |b| == |d|
    ensures CrossDev(a + b, c + d, ma, mb) == CrossDev(a, c, ma, mb) + CrossDev(b, d, ma, mb)
  {
    if b != [] {
      var b', d' := b[..|b| - 1], d[..|d| - 1];
      var x, z := b[|b| - 1], d[|d| - 1];
      assert (a + b)[..|a + b| - 1] == a + b' && (a + b)[|a + b| - 1] == x;
      assert (c + d)[..|c + d| - 1] == c + d' && (c + d)[|c + d| - 1] == z;
      calc {
        CrossDev(a + b, c + d, ma, mb);
        CrossDev(a + b', c + d', ma, mb) + (x - ma) * (z - mb);
        { CrossDevAppend(a, b', c, d', ma, mb); }
        CrossDev(a, c, ma, mb) + CrossDev(b', d', ma, mb) + (x - ma) * (z - mb);
      }
    } else {
      assert a + b == a && c + d == c;
    }
  }

  /** A sum of squared deviations is never negative. */
  lemma {:induction false} SqDevNonNegative(s: seq<real>, m: real)
    ensures SqDev(s, m) >= 0.0
  {
    if s != [] {
      SqDevNonNegative(s[..|s| - 1], m);
      var d := s[|s| - 1] - m;
      assert d * d >= 0.0 by {
        if d < 0.0 { assert d * d == (-d) * (-d); }
      }
    }
  }

  /** The deviation sum expands into the raw moments. */
  lemma {:induction false} SqDevExpand(s: seq<real>, m: real)
    ensures SqDev(s, m) == SumSq(s) - 2.0 * m * Sum(s) + (|s| as real) * m * m
  {
    if s != [] {
      var p, v := s[..|s| - 1], s[|s| - 1];
      var d, q, t, n := SqDev(p, m), SumSq(p), Sum(p), |p| as real;
      assert d == q - 2.0 * m * t + n * m * m by {
        SqDevExpand(p, m);
      }
      ExpandStep(SqDev(s, m), SumSq(s), Sum(s), |s| as real, d, q, t, n, v, m);
    }
  }

  /** One step of the expansion, on plain numbers. */
  lemma ExpandStep(d': real, q': real, t': real, n': real, d: real, q: real, t: real, n: real, v: real, m: real)
    requires d == q - 2.0 * m * t + n * m * m
    requires d' == d + (v - m) * (v - m) && q' == q + v * v && t' == t + v && n' == n + 1.0
    ensures d' == q' - 2.0 * m * t' + n' * m * m
  {
  }

  /** Bounds on the elements bound the sum. */
  lemma {:induction false} SumBounds(s: seq<real>, lo: real, hi: real)
    requires forall i :: 0 <= i < |s| ==> lo <= s[i] <= hi
    ensures Between(lo, hi, |s| as real, Sum(s))
  {
    if s != [] {
      var n := |s| - 1;
      SumBounds(s[..n], lo, hi);
      BetweenStep(lo, hi, n as real, Sum(s[..n]), s[n]);
    }
  }

  lemma BetweenStep(lo: real, hi: real, w: real, t: real, v: real)
    requires Between(lo, hi, w, t) && lo <= v <= hi
    ensures Between(lo, hi, w + 1.0, t + v)
  {
  }

  /** Running minimum from `init`, as `if (v < m) m = v;` computes it: the least of
      `init` and every element, and either `init` itself or one of the elements. */
  function SeqMin(init: real, s: seq<real>): (m: real)
    ensures m <= init && forall i :: 0 <= i < |s| ==> m <= s[i]
    ensures m == init || m in s
  {
    if s == [] then init
    else
      var prev := SeqMin(init, s[..|s| - 1]);
      assert forall i :: 0 <= i < |s| - 1 ==> s[..|s| - 1][i] == s[i];
      if s[|s| - 1] < prev then s[|s| - 1] else prev
  }

  /** Running maximum from `init`, as `if (v > m) m = v;` computes it. */
  function SeqMax(init: real, s: seq<real>): (m: real)
    ensures m >= init && forall i :: 0 <= i < |s| ==> m >= s[i]
    ensures m == init || m in s
  {
    if s == [] then init
    else
      var prev := SeqMax(init, s[..|s| - 1]);
      assert forall i :: 0 <= i < |s| - 1 ==> s[..|s| - 1][i] == s[i];
      if s[|s| - 1] > prev then s[|s| - 1] else prev
  }

  /** Restarting the running minimum of `s` from a larger start and combining with
      `a` afterwards gives the running minimum from `a`. */
  lemma {:induction false} SeqMinRestart(a: real, b: real, s: seq<real>)
    requires a <= b
    ensures SeqMin(a, s) == (if SeqMin(b, s) < a then SeqMin(b, s) else a)
  {
    if s != [] {
      SeqMinRestart(a, b, s[..|s| - 1]);
    }
  }

  lemma {:induction false} SeqMaxRestart(a: real, b: real, s: seq<real>)
    requires a >= b
    ensures SeqMax(a, s) == (if SeqMax(b, s) > a then SeqMax(b, s) else a)
  {
    if s != [] {
      SeqMaxRestart(a, b, s[..|s| - 1]);
    }
  }

  lemma {:induction false} SeqMinAppend(init: real, a: seq<real>, b: seq<real>)
    ensures SeqMin(init, a + b) == SeqMin(SeqMin(init, a), b)
  {
    if b != [] {
      assert a + b != [] && (a + b)[|a + b| - 1] == b[|b| - 1];
      assert (a + b)[..|a + b| - 1] == a + b[..|b| - 1];
      SeqMinAppend(init, a, b[..|b| - 1]);
    } else {
      assert a + b == a;
    }
  }

  lemma {:induction false} SeqMaxAppend(init: real, a: seq<real>, b: seq<real>)
    ensures SeqMax(init, a + b) == SeqMax(SeqMax(init, a), b)
  {
    if b != [] {
      assert a + b != [] && (a + b)[|a + b| - 1] == b[|b| - 1];
      assert (a + b)[..|a + b| - 1] == a + b[..|b| - 1];
      SeqMaxAppend(init, a, b[..|b| - 1]);
    } else {
      assert a + b == a;
    }
  }

  /** `s` is a sum of weights totalling `w` times samples between `lo` and `hi`. */
  predicate Between(lo: real, hi: real, w: real, s: real)
  {
    lo * w <= s <= hi * w
  }

  /** Dividing by a positive weight turns the weighted bounds into plain ones. */
  lemma BetweenQuotient(lo: real, hi: real, w: real, s: real)
    requires Between(lo, hi, w, s) && w > 0.0
    ensures lo <= s / w <= hi
  {
    assert (s / w - lo) * w == s - lo * w;
    assert (hi - s / w) * w == hi * w - s;
  }

  /** `m` is `t` scaled by `c`; kept as a predicate so that the accumulator
      loops reason about the scaling one step at a time. */
  predicate Scaled(m: real, t: real, c: real)
  {
    m == t * c
  }

  /** Adding a scaled line total keeps the accumulator scaled. */
  lemma ScaledStep(m: real, t: real, c: real, s: real, t': real)
    requires Scaled(m, t, c) && t' == t + s
    ensures Scaled(m + s * c, t', c)
  {
  }

  /** Appending one element to the sequences the accumulators run over. */
  lemma SumSnoc(s: seq<real>, v: real)
    ensures Sum(s + [v]) == Sum(s) + v
  {
    assert (s + [v])[..|s|] == s;
  }

  lemma SqDevSnoc(s: seq<real>, v: real, m: real)
    ensures SqDev(s + [v], m) == SqDev(s, m) + (v - m) * (v - m)
  {
    assert (s + [v])[..|s|] == s;
  }

  lemma CrossDevSnoc(a: seq<real>, b: seq<real>, u: real, v: real, ma: real, mb: real)
    requires |a| == |b|
    ensures CrossDev(a + [u], b + [v], ma, mb) == CrossDev(a, b, ma, mb) + (u - ma) * (v - mb)
  {
    assert (a + [u])[..|a|] == a;
    assert (b + [v])[..|b|] == b;
  }

  /** The cells a row-major walk has visited before (my, mx), and one step of it. */
  lemma CellStep(g: seq<seq<real>>, my: nat, mx: nat)
    requires my < |g| && mx < |g[my]|
    ensures Flatten(g[..my]) + g[my][..mx + 1] == (Flatten(g[..my]) + g[my][..mx]) + [g[my][mx]]
  {
    assert g[my][..mx + 1] == g[my][..mx] + [g[my][mx]];
  }

  lemma RowEnd(g: seq<seq<real>>, my: nat)
    requires my < |g|
    ensures Flatten(g[..my]) + g[my][..|g[my]|] == Flatten(g[..my + 1])
  {
    assert g[my][..|g[my]|] == g[my];
    FlattenPrefix(g, my);
  }

  /** One more element of a prefix, for the accumulator loops. */
  lemma SumPrefixStep(s: seq<real>, x: nat)
    requires x < |s|
    ensures Sum(s[..x + 1]) == Sum(s[..x]) + s[x]
    ensures SumSq(s[..x + 1]) == SumSq(s[..x]) + s[x] * s[x]
  {
    assert s[..x + 1][..x] == s[..x];
  }

  /** The same step, with the element given by its value. */
  lemma SumValueStep(s: seq<real>, x: nat, v: real)
    requires x < |s| && s[x] == v
    ensures Sum(s[..x + 1]) == Sum(s[..x]) + v
    ensures SumSq(s[..x + 1]) == SumSq(s[..x]) + v * v
  {
    assert s[..x + 1][..x] == s[..x];
  }

  lemma SqDevPrefixStep(s: seq<real>, x: nat, m: real)
    requires x < |s|
    ensures SqDev(s[..x + 1], m) == SqDev(s[..x], m) + (s[x] - m) * (s[x] - m)
  {
    assert s[..x + 1][..x] == s[..x];
  }

  lemma MinMaxPrefixStep(s: seq<real>, x: nat, lo: real, hi: real)
    requires x < |s|
    ensures SeqMin(lo, s[..x + 1]) == if s[x] < SeqMin(lo, s[..x]) then s[x] else SeqMin(lo, s[..x])
    ensures SeqMax(hi, s[..x + 1]) == if s[x] > SeqMax(hi, s[..x]) then s[x] else SeqMax(hi, s[..x])
  {
    assert s[..x + 1][..x] == s[..x];
  }

  /** Appending row y to the rows before it, for the reductions over a grid. */
  lemma RowAppended(g: seq<seq<real>>, y: nat, lo: real, hi: real, m: real)
    requires y < |g|
    ensures Flatten(g[..y + 1]) == Flatten(g[..y]) + g[y]
    ensures SeqMin(lo, Flatten(g[..y + 1])) == SeqMin(SeqMin(lo, Flatten(g[..y])), g[y])
    ensures SeqMax(hi, Flatten(g[..y + 1])) == SeqMax(SeqMax(hi, Flatten(g[..y])), g[y])
    ensures Total(g[..y + 1]) == Total(g[..y]) + Sum(g[y])
    ensures SumSq(Flatten(g[..y + 1])) == SumSq(Flatten(g[..y])) + SumSq(g[y])
    ensures SqDev(Flatten(g[..y + 1]), m) == SqDev(Flatten(g[..y]), m) + SqDev(g[y], m)
  {
    FlattenPrefix(g, y);
    SeqMinAppend(lo, Flatten(g[..y]), g[y]);
    SeqMaxAppend(hi, Flatten(g[..y]), g[y]);
    SumAppend(Flatten(g[..y]), g[y]);
    SumSqAppend(Flatten(g[..y]), g[y]);
    SqDevAppend(Flatten(g[..y]), g[y], m);
  }

  /** All pairs in order. */
  predicate Sorted(s: seq<real>) {
    forall i, j :: 0 <= i < j < |s| ==> s[i] <= s[j]
  }

  /** A sorted sequence is determined by its multiset of elements. */
  lemma {:induction false} SortedUnique(a: seq<real>, b: seq<real>)
    requires Sorted(a) && Sorted(b) && multiset(a) == multiset(b)
    ensures a == b
  {
    if a != [] {
      assert |a| == |multiset(a)| == |multiset(b)| == |b|;
      SortedSameHead(a, b);
      SortedSameHead(b, a);
      assert multiset(a[1..]) == multiset(b[1..]) by {
        TailMultiset(a);
        TailMultiset(b);
      }
      SortedUnique(a[1..], b[1..]);
      assert a == [a[0]] + a[1..] && b == [b[0]] + b[1..];
    }
  }

  lemma SortedSameHead(a: seq<real>, b: seq<real>)
    requires Sorted(b) && a != [] && multiset(a) == multiset(b)
    ensures b != [] && b[0] <= a[0]
  {
    assert a[0] in multiset(b);
    var i :| 0 <= i < |b| && b[i] == a[0];
  }

  lemma TailMultiset(a: seq<real>)
    requires a != []
    ensures multiset(a[1..]) == multiset(a) - multiset{a[0]}
  {
    assert a == [a[0]] + a[1..];
  }

  /** Reference sort: insertion of each element into the sorted rest. */
  function Insert(v: real, s: seq<real>): (r: seq<real>)
    requires Sorted(s)
    ensures Sorted(r) && multiset(r) == multiset(s) + multiset{v}
    ensures |r| == |s| + 1 && forall i :: 0 <= i < |r| ==> r[i] == v || r[i] in s
  {
    if s == [] || v <= s[0] then [v] + s
    else
      assert s == [s[0]] + s[1..];
      var rest := Insert(v, s[1..]);
      assert forall i :: 0 <= i < |rest| ==> s[0] <= rest[i];
      [s[0]] + rest
  }

  function SortSpec(s: seq<real>): (r: seq<real>)
    ensures Sorted(r) && multiset(r) == multiset(s)
  {
    if s == [] then []
    else
      assert s == [s[0]] + s[1..];
      Insert(s[0], SortSpec(s[1..]))
  }

  // ---------------------------------------------------------------------------
  // IEEE scores

  /** A float result: a finite value, an infinity, or NaN. */
  datatype Score = Finite(value: real) | PosInf | NegInf | NaN

  /** The IEEE `<`: false whenever NaN is involved, otherwise the order of the
      extended reals. */
  predicate Less(a: Score, b: Score)
  {
    if a.NaN? || b.NaN? then false
    else if a.NegInf? then !b.NegInf?
    else if a.PosInf? then false
    else if b.PosInf? then true
    else if b.NegInf? then false
    else a.value < b.value
  }

  /** `<` is a strict total order on the values that are not NaN. */
  lemma LessOrder(a: Score, b: Score, c: Score)
    ensures !Less(a, a)
    ensures Less(a, b) && Less(b, c) ==> Less(a, c)
    ensures !a.NaN? && !b.NaN? ==> a == b || Less(a, b) || Less(b, a)
    ensures Less(a, b) ==> !a.NaN? && !b.NaN?
  {
  }

  /** The IEEE quotient of two finite values: an exact quotient when the divisor
      is not 0; otherwise an infinity with the dividend's sign, or NaN for 0/0. */
  function Quotient(a: real, b: real): (q: Score)
    ensures b != 0.0 ==> q.Finite? && q.value * b == a
    ensures b == 0.0 ==> (q == PosInf <==> a > 0.0) && (q == NegInf <==> a < 0.0) && (q == NaN <==> a == 0.0)
  {
    if b != 0.0 then Finite(a / b)
    else if a > 0.0 then PosInf
    else if a < 0.0 then NegInf
    else NaN
  }

  /** Equal factors give equal products. */
  lemma SameProduct(x: real, y: real, x': real, y': real)
    requires x == x' && y == y'
    ensures x * y == x' * y'
  {
  }
}
