/** Noise applied to an image in place. Each sample takes one draw from the
    random generator, row by row and left to right; the draws are given here as
    a grid of the image's size whose cell (y, x) is the draw taken for sample
    (y, x). */
module Noise {
  import opened Grids
  import opened Images

  // ---------------------------------------------------------------------------
  // `applyAWGN`

  /** Every sample plus `gain` times its draw. */
  function Noisy(g: seq<seq<real>>, S: nat, L: nat, gain: real, draws: seq<seq<real>>): (n: seq<seq<real>>)
    requires Rect(g, S, L) && Rect(draws, S, L)
    ensures Rect(n, S, L)
  {
    seq(L, y requires 0 <= y < L => seq(S, x requires 0 <= x < S => g[y][x] + gain * draws[y][x]))
  }

  /** Adding the same draws with the opposite gain removes the noise again. */
  lemma NoiseRoundTrip(g: seq<seq<real>>, S: nat, L: nat, gain: real, draws: seq<seq<real>>)
    requires Rect(g, S, L) && Rect(draws, S, L)
    ensures Noisy(Noisy(g, S, L, gain, draws), S, L, -gain, draws) == g
  {
    var n := Noisy(Noisy(g, S, L, gain, draws), S, L, -gain, draws);
    forall y | 0 <= y < L
      ensures n[y] == g[y]
    {
      forall x | 0 <= x < S
        ensures n[y][x] == g[y][x]
      {
        assert n[y][x] == (g[y][x] + gain * draws[y][x]) + (-gain) * draws[y][x];
      }
    }
  }

  /** `applyAWGN`: adds `gain` times its draw to every sample; nothing else
      changes. */
  method ApplyAWGN(image: FloatImage, gain: real, draws: seq<seq<real>>)
    requires image.Valid() && Rect(draws, image.samples, image.lines)
    modifies image, image.Repr
    ensures image.Valid()
    ensures image.Contents == Noisy(old(image.Contents), image.samples, image.lines, gain, draws)
  {
    ghost var g := image.Contents;
    var y := 0;
    while y < image.lines
      invariant 0 <= y <= image.lines
      invariant image.Valid()
      invariant forall i, c :: 0 <= i < image.lines && 0 <= c < image.samples ==>
        image.Contents[i][c] == if i < y then g[i][c] + gain * draws[i][c] else g[i][c]
    {
      AWGNLine(image, gain, draws, y);
      y := y + 1;
    }
    ghost var n := Noisy(g, image.samples, image.lines, gain, draws);
    forall i | 0 <= i < image.lines
      ensures image.Contents[i] == n[i]
    {
      assert forall c :: 0 <= c < image.samples ==> image.Contents[i][c] == g[i][c] + gain * draws[i][c] == n[i][c];
    }
  }

  /** One line of `applyAWGN`. */
  method AWGNLine(image: FloatImage, gain: real, draws: seq<seq<real>>, y: nat)
    requires image.Valid() && Rect(draws, image.samples, image.lines) && y < image.lines
    modifies image, image.Repr
    ensures image.Valid()
    ensures forall i, c :: 0 <= i < image.lines && 0 <= c < image.samples ==>
      image.Contents[i][c] == if i == y then old(image.Contents[i][c]) + gain * draws[i][c] else old(image.Contents[i][c])
  {
    var x := 0;
    while x < image.samples
      invariant 0 <= x <= image.samples
      invariant image.Valid()
      invariant forall i, c :: 0 <= i < image.lines && 0 <= c < image.samples ==>
        image.Contents[i][c] == if i == y && c < x then old(image.Contents[i][c]) + gain * draws[i][c] else old(image.Contents[i][c])
    {
      var sample := image.Sample(y, x);
      var noise := gain * draws[y][x];
      image.Set(x, y, sample + noise);
      x := x + 1;
    }
  }

  // ---------------------------------------------------------------------------
  // `applySnP`

  /** One sample under salt-and-pepper noise with draw `u`: pepper at or below
      the pepper threshold, otherwise salt at or above the salt threshold,
      otherwise unchanged. */
  function SnP(v: real, u: real, pepperThreshold: real, saltThreshold: real, pepperValue: real, saltValue: real): real
  {
    if u <= pepperThreshold then pepperValue
    else if u >= saltThreshold then saltValue
    else v
  }

  /** The whole image under salt-and-pepper noise; the pepper threshold is the
      pepper probability and the salt threshold is 1 minus the salt
      probability. */
  function SaltAndPepper(g: seq<seq<real>>, S: nat, L: nat, draws: seq<seq<real>>,
                         pepperProbability: real, saltProbability: real, pepperValue: real, saltValue: real)
    : (n: seq<seq<real>>)
    requires Rect(g, S, L) && Rect(draws, S, L)
    ensures Rect(n, S, L)
  {
    seq(L, y requires 0 <= y < L => seq(S, x requires 0 <= x < S =>
      SnP(g[y][x], draws[y][x], 0.0 + pepperProbability, 1.0 - saltProbability, pepperValue, saltValue)))
  }

  /** Every sample afterwards is the pepper value, the salt value or the sample
      it was; a draw strictly between the two thresholds leaves it as it was. */
  lemma SnPOutcomes(g: seq<seq<real>>, S: nat, L: nat, draws: seq<seq<real>>,
                    pepperProbability: real, saltProbability: real, pepperValue: real, saltValue: real, y: nat, x: nat)
    requires Rect(g, S, L) && Rect(draws, S, L) && y < L && x < S
    ensures var n := SaltAndPepper(g, S, L, draws, pepperProbability, saltProbability, pepperValue, saltValue);
            && (n[y][x] == pepperValue || n[y][x] == saltValue || n[y][x] == g[y][x])
            && (pepperProbability < draws[y][x] < 1.0 - saltProbability ==> n[y][x] == g[y][x])
            && (draws[y][x] <= pepperProbability ==> n[y][x] == pepperValue)
  {
  }

  /** Salt-and-pepper noise with the same draws is idempotent: applying it to
      its own result changes nothing, since where a sample changes depends only
      on its draw. */
  lemma {:induction false} SnPIdempotent(g: seq<seq<real>>, S: nat, L: nat, draws: seq<seq<real>>,
                                         pepperProbability: real, saltProbability: real, pepperValue: real, saltValue: real)
    requires Rect(g, S, L) && Rect(draws, S, L)
    ensures var n := SaltAndPepper(g, S, L, draws, pepperProbability, saltProbability, pepperValue, saltValue);
            SaltAndPepper(n, S, L, draws, pepperProbability, saltProbability, pepperValue, saltValue) == n
  {
    var n := SaltAndPepper(g, S, L, draws, pepperProbability, saltProbability, pepperValue, saltValue);
    var m := SaltAndPepper(n, S, L, draws, pepperProbability, saltProbability, pepperValue, saltValue);
    forall y | 0 <= y < L
      ensures m[y] == n[y]
    {
      assert forall x :: 0 <= x < S ==> m[y][x] == n[y][x];
    }
  }

  /** `applySnP`: overwrites each sample according to its draw; nothing else
      changes. */
  method ApplySnP(image: FloatImage, pepperProbability: real, saltProbability: real,
                  pepperValue: real, saltValue: real, draws: seq<seq<real>>)
    requires image.Valid() && Rect(draws, image.samples, image.lines)
    requires saltProbability + pepperProbability <= 1.0
    modifies image, image.Repr
    ensures image.Valid()
    ensures image.Contents == SaltAndPepper(old(image.Contents), image.samples, image.lines, draws,
                                            pepperProbability, saltProbability, pepperValue, saltValue)
  {
    var pepperThreshold := 0.0 + pepperProbability;
    var saltThreshold := 1.0 - saltProbability;
    ghost var g := image.Contents;
    var y := 0;
    while y < image.lines
      invariant 0 <= y <= image.lines
      invariant image.Valid()
      invariant forall i, c :: 0 <= i < image.lines && 0 <= c < image.samples ==>
        image.Contents[i][c] == if i < y then SnP(g[i][c], draws[i][c], pepperThreshold, saltThreshold, pepperValue, saltValue)
                                else g[i][c]
    {
      SnPLine(image, pepperThreshold, saltThreshold, pepperValue, saltValue, draws, y);
      y := y + 1;
    }
    ghost var n := SaltAndPepper(g, image.samples, image.lines, draws, pepperProbability, saltProbability, pepperValue, saltValue);
    assert forall i :: 0 <= i < image.lines ==> image.Contents[i] == n[i];
  }

  /** One line of `applySnP`. */
  method SnPLine(image: FloatImage, pepperThreshold: real, saltThreshold: real, pepperValue: real, saltValue: real,
                 draws: seq<seq<real>>, y: nat)
    requires image.Valid() && Rect(draws, image.samples, image.lines) && y < image.lines
    modifies image, image.Repr
    ensures image.Valid()
    ensures forall i, c :: 0 <= i < image.lines && 0 <= c < image.samples ==>
      image.Contents[i][c] == if i == y then SnP(old(image.Contents[i][c]), draws[i][c], pepperThreshold, saltThreshold, pepperValue, saltValue)
                              else old(image.Contents[i][c])
  {
    var x := 0;
    while x < image.samples
      invariant 0 <= x <= image.samples
      invariant image.Valid()
      invariant forall i, c :: 0 <= i < image.lines && 0 <= c < image.samples ==>
        image.Contents[i][c] == if i == y && c < x
                                then SnP(old(image.Contents[i][c]), draws[i][c], pepperThreshold, saltThreshold, pepperValue, saltValue)
                                else old(image.Contents[i][c])
    {
      var noisePercentage := draws[y][x];
      if noisePercentage <= pepperThreshold {
        image.Set(x, y, pepperValue);
      } else if noisePercentage >= saltThreshold {
        image.Set(x, y, saltValue);
      }
      x := x + 1;
    }
  }
}
