/** What histQuantile's interpolation computes, without naming it: observations spread evenly
    over their bucket are hit exactly, and between them the answer moves in proportion to q. */
module Interpolation {
  import opened Prelude
  import opened Quantile

  /** Bucket i is interpolated from lower to upper: its bounds; the first from a minimum below
      its bound, else from 0 or the bound, whichever is less; the last to a maximum above its
      bound, else not at all. */
  ghost predicate Ends(bounds: seq<real>, min: Option<real>, max: Option<real>, i: nat, lower: real, upper: real)
    requires 1 <= |bounds| && i <= |bounds|
  {
    && (i > 0 ==> lower == bounds[i - 1])
    && (i == 0 && min.Some? && min.value < bounds[0] ==> lower == min.value)
    && (i == 0 && (min.Some? ==> min.value >= bounds[0]) ==> lower <= 0.0 && lower <= bounds[0] && (lower == 0.0 || lower == bounds[0]))
    && (i < |bounds| ==> upper == bounds[i])
    && (i == |bounds| && max.Some? && max.value > bounds[i - 1] ==> upper == max.value)
    && (i == |bounds| && (max.Some? ==> max.value <= bounds[i - 1]) ==> upper == bounds[i - 1])
  }

  lemma {:induction false} EndsAre(bounds: seq<real>, min: Option<real>, max: Option<real>, i: nat, lower: real, upper: real)
    requires 1 <= |bounds| && i <= |bounds| && Ends(bounds, min, max, i, lower, upper)
    ensures lower == Lower(bounds, min, i) && upper == Upper(bounds, min, max, i)
  {}

  // ---- Evenly spread observations ----

  /** The j-th of c points spread evenly over (lower, upper]. */
  ghost function Spot(lower: real, upper: real, j: nat, c: nat): real
    requires c > 0
  {
    lower + (upper - lower) * (j as real / c as real)
  }

  lemma {:induction false} ShareAscends(j: nat, c: nat)
    requires c > 0
    ensures j as real / c as real < (j + 1) as real / c as real
  {
    assert (j + 1) as real / c as real == j as real / c as real + 1.0 / c as real;
  }

  lemma {:induction false} ScaledLess(w: real, a: real, b: real)
    requires w > 0.0 && a < b
    ensures w * a < w * b
  {
    assert w * (b - a) > 0.0;
  }

  lemma {:induction false} SpotsAscend(lower: real, upper: real, j: nat, c: nat)
    requires lower < upper && j < c
    ensures Spot(lower, upper, j, c) < Spot(lower, upper, j + 1, c)
  {
    var w, a, b := upper - lower, j as real / c as real, (j + 1) as real / c as real;
    ShareAscends(j, c);
    ScaledLess(w, a, b);
    assert Spot(lower, upper, j, c) == lower + w * a && Spot(lower, upper, j + 1, c) == lower + w * b;
  }

  lemma {:induction false} SpotEnds(lower: real, upper: real, c: nat)
    requires c > 0
    ensures Spot(lower, upper, 0, c) == lower && Spot(lower, upper, c, c) == upper
  {
    assert 0 as real / c as real == 0.0 && c as real / c as real == 1.0;
  }

  /** From one spot to a later one there are at least as many observations as spots. */
  lemma {:induction false} SpotsBetween(obs: seq<real>, lower: real, upper: real, c: nat, a: nat, b: nat)
    requires lower < upper && a <= b <= c && c > 0
    requires forall j :: 1 <= j <= c ==> Spot(lower, upper, j, c) in obs
    ensures CountUpTo(obs, Spot(lower, upper, a, c)) + (b - a) <= CountUpTo(obs, Spot(lower, upper, b, c))
  {
    hide Spot, CountUpTo;
    if a < b {
      SpotsBetween(obs, lower, upper, c, a, b - 1);
      SpotsAscend(lower, upper, b - 1, c);
      OneBetween(obs, Spot(lower, upper, b, c), Spot(lower, upper, b - 1, c), Spot(lower, upper, b, c));
    }
  }

  /** At most c observations lie between the ends of a bucket of c. */
  lemma {:induction false} EndsHold(obs: seq<real>, bounds: seq<real>, counts: seq<nat>, min: Option<real>, max: Option<real>, i: nat, lower: real, upper: real)
    requires Behind(obs, bounds, counts) && i < |counts| && Ends(bounds, min, max, i, lower, upper)
    ensures CountUpTo(obs, upper) <= Cum(counts, i) + counts[i]
    ensures i > 0 ==> CountUpTo(obs, lower) == Cum(counts, i)
  {
    hide CountIn;
    assert Cum(counts, i + 1) == Cum(counts, i) + counts[i];
    if i > 0 { CumIsUpTo(obs, bounds, counts, i - 1); }
    if i < |bounds| {
      CumIsUpTo(obs, bounds, counts, i);
    } else {
      TotalIsAll(obs, bounds, counts);
      UpToAll(obs, upper);
    }
  }

  lemma {:induction false} UpToAll(obs: seq<real>, t: real)
    ensures CountUpTo(obs, t) <= |obs|
  {
    if obs != [] { UpToAll(obs[1..], t); }
  }

  /** So each spot has exactly its rank. */
  lemma {:induction false} SpotRank(obs: seq<real>, bounds: seq<real>, counts: seq<nat>, min: Option<real>, max: Option<real>, i: nat, lower: real, upper: real, j: nat)
    requires Behind(obs, bounds, counts) && i < |counts| && Ends(bounds, min, max, i, lower, upper) && lower < upper
    requires 1 <= j <= counts[i] && forall j :: 1 <= j <= counts[i] ==> Spot(lower, upper, j, counts[i]) in obs
    ensures CountUpTo(obs, Spot(lower, upper, j, counts[i])) == Cum(counts, i) + j
  {
    hide Spot, CountUpTo, Behind, Ends;
    var c := counts[i];
    SpotEnds(lower, upper, c);
    SpotsBetween(obs, lower, upper, c, 0, j);
    SpotsBetween(obs, lower, upper, c, j, c);
    EndsHold(obs, bounds, counts, min, max, i, lower, upper);
  }

  lemma {:induction false} SpotIsKth(obs: seq<real>, spot: real, k: int, x: real)
    requires spot in obs && CountUpTo(obs, spot) == k && KthSmallest(obs, k, x)
    ensures x == spot
  {
    if x < spot { OneBetween(obs, spot, x, spot); }
    if spot < x { UpToMonotone(obs, spot, x); }
  }

  lemma {:induction false} InterpolatesSpot(lower: real, upper: real, j: nat, c: nat)
    requires c > 0
    ensures Interpolate(lower, upper, j as real, c as real) == Spot(lower, upper, j, c)
  {
    var w, a, d := upper - lower, j as real, c as real;
    assert w * a / d == w * (a / d);
  }

  lemma {:induction false} SpotEstimate(bounds: seq<real>, counts: seq<nat>, min: Option<real>, max: Option<real>, i: nat, lower: real, upper: real, j: nat)
    requires Shaped(bounds, counts) && i < |counts| && Ends(bounds, min, max, i, lower, upper) && 1 <= j <= counts[i]
    requires var x := Spot(lower, upper, j, counts[i]);
             (min.Some? ==> min.value <= x) && (max.Some? ==> x <= max.value)
    ensures var rank := (Cum(counts, i) + j) as real;
            Picked(counts, rank, i) && Estimate(bounds, counts, min, max, rank, i) == Spot(lower, upper, j, counts[i])
  {
    hide Spot, Lower, Upper, Interpolate, Ends;
    assert Cum(counts, i + 1) == Cum(counts, i) + counts[i];
    InterpolatesSpot(lower, upper, j, counts[i]);
    EndsAre(bounds, min, max, i, lower, upper);
    assert (Cum(counts, i) + j) as real - Cum(counts, i) as real == j as real;
  }

  /** Where the c observations of a bucket lie evenly over it, the estimate at every whole rank
      in the bucket is the observation of that rank, unless an extreme excludes it. */
  lemma {:induction false} EvenlySpread(obs: seq<real>, bounds: seq<real>, counts: seq<nat>, min: Option<real>, max: Option<real>, q: real,
                       i: nat, lower: real, upper: real, k: nat, x: real)
    requires Behind(obs, bounds, counts) && i < |counts| && Ends(bounds, min, max, i, lower, upper) && lower < upper
    requires Cum(counts, i) < k <= Cum(counts, i) + counts[i]
    requires forall j :: 1 <= j <= counts[i] ==> Spot(lower, upper, j, counts[i]) in obs
    requires q * |obs| as real == k as real && KthSmallest(obs, k, x)
    requires (min.Some? ==> min.value <= x) && (max.Some? ==> x <= max.value)
    ensures Picked(counts, q * Total(counts) as real, i)
    ensures Estimate(bounds, counts, min, max, q * Total(counts) as real, i) == x
  {
    hide Spot, KthSmallest, CountUpTo, Estimate, Picked, Behind, Ends;
    BehindShaped(obs, bounds, counts);
    TotalIsAll(obs, bounds, counts);
    var j := k - Cum(counts, i);
    SpotRank(obs, bounds, counts, min, max, i, lower, upper, j);
    SpotIsKth(obs, Spot(lower, upper, j, counts[i]), k, x);
    SpotEstimate(bounds, counts, min, max, i, lower, upper, j);
    assert q * Total(counts) as real == (Cum(counts, i) + j) as real;
  }

  // ---- In proportion to q ----

  lemma {:induction false} InterpolateDiffers(lower: real, upper: real, m: real, n: real, den: real)
    requires den > 0.0
    ensures Interpolate(lower, upper, n, den) - Interpolate(lower, upper, m, den) == (upper - lower) * ((n - m) / den)
  {
    var w := upper - lower;
    assert w * n / den == w * (n / den) && w * m / den == w * (m / den);
    assert (n - m) / den == n / den - m / den;
  }

  /** Neither extreme moved v. */
  ghost predicate Unclamped(v: real, min: Option<real>, max: Option<real>) {
    (min.Some? ==> min.value < v) && (max.Some? ==> v < max.value)
  }

  lemma {:induction false} EstimatesDiffer(bounds: seq<real>, counts: seq<nat>, min: Option<real>, max: Option<real>, r: real, s: real, i: nat, lower: real, upper: real)
    requires Shaped(bounds, counts) && i < |counts| && Ends(bounds, min, max, i, lower, upper)
    requires Picked(counts, r, i) && Picked(counts, s, i)
    requires Unclamped(Estimate(bounds, counts, min, max, r, i), min, max) && Unclamped(Estimate(bounds, counts, min, max, s, i), min, max)
    ensures counts[i] > 0
    ensures Estimate(bounds, counts, min, max, s, i) - Estimate(bounds, counts, min, max, r, i) == (upper - lower) * ((s - r) / counts[i] as real)
  {
    hide Interpolate, Lower, Upper, Ends;
    assert Cum(counts, i + 1) == Cum(counts, i) + counts[i];
    EndsAre(bounds, min, max, i, lower, upper);
    var cum := Cum(counts, i) as real;
    InterpolateDiffers(lower, upper, r - cum, s - cum, counts[i] as real);
    assert (s - cum) - (r - cum) == s - r;
  }

  /** Two answers from one bucket of c of the n observations, neither of them an extreme, differ
      by its width times (q - p)·n/c. */
  lemma {:induction false} QuantilesProportional(bounds: seq<real>, counts: seq<nat>, min: Option<real>, max: Option<real>, p: real, q: real,
                                i: nat, lower: real, upper: real)
    requires Shaped(bounds, counts) && i < |counts| && Ends(bounds, min, max, i, lower, upper)
    requires Picked(counts, p * Total(counts) as real, i) && Picked(counts, q * Total(counts) as real, i)
    requires Unclamped(Estimate(bounds, counts, min, max, p * Total(counts) as real, i), min, max)
    requires Unclamped(Estimate(bounds, counts, min, max, q * Total(counts) as real, i), min, max)
    ensures counts[i] > 0
    ensures Estimate(bounds, counts, min, max, q * Total(counts) as real, i) - Estimate(bounds, counts, min, max, p * Total(counts) as real, i)
            == (upper - lower) * (((q - p) * Total(counts) as real) / counts[i] as real)
  {
    hide Estimate, Picked, Ends, Unclamped;
    EstimatesDiffer(bounds, counts, min, max, p * Total(counts) as real, q * Total(counts) as real, i, lower, upper);
  }
}
