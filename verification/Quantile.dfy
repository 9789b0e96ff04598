/** The quantile estimate of a histogram (internal/storage/measure_percentiles.go), over
    the reals. */
module Quantile {
  import opened Prelude

  /** How many observations the first i buckets hold. */
  function Cum(counts: seq<nat>, i: nat): nat
    requires i <= |counts|
  {
    if i == 0 then 0 else Cum(counts, i - 1) + counts[i - 1]
  }

  function Total(counts: seq<nat>): nat { Cum(counts, |counts|) }

  lemma {:induction false} CumMonotone(counts: seq<nat>, i: nat, j: nat)
    requires i <= j <= |counts|
    ensures Cum(counts, i) <= Cum(counts, j)
  {
    if i < j { CumMonotone(counts, i, j - 1); }
  }

  /** A histogram's shape: one bucket per bound and one above the last. */
  predicate Shaped(bounds: seq<real>, counts: seq<nat>) {
    && |bounds| >= 1 && |counts| == |bounds| + 1
    && forall i, j :: 0 <= i < j < |bounds| ==> bounds[i] < bounds[j]
  }

  /** Where the bucket's interpolation starts and ends. */
  function Lower(bounds: seq<real>, min: Option<real>, i: nat): real
    requires 1 <= |bounds| && i <= |bounds|
  {
    if i > 0 then bounds[i - 1]
    else if min.Some? && min.value < bounds[0] then min.value
    else if bounds[0] <= 0.0 then bounds[0]
    else 0.0
  }

  function Upper(bounds: seq<real>, min: Option<real>, max: Option<real>, i: nat): real
    requires 1 <= |bounds| && i <= |bounds|
  {
    if i < |bounds| then bounds[i]
    else if max.Some? && max.value > Lower(bounds, min, i) then max.value
    else Lower(bounds, min, i)
  }

  function Clamp(v: real, min: Option<real>, max: Option<real>): real {
    var w := if min.Some? && v < min.value then min.value else v;
    if max.Some? && w > max.value then max.value else w
  }

  function Interpolate(lower: real, upper: real, num: real, den: real): real
    requires den > 0.0
  {
    lower + (upper - lower) * num / den
  }

  /** The bucket the rank falls in: the first that brings the running count up to it. */
  ghost predicate Picked(counts: seq<nat>, rank: real, i: nat) {
    i < |counts| && Cum(counts, i) as real < rank <= Cum(counts, i + 1) as real
  }

  ghost function Estimate(bounds: seq<real>, counts: seq<nat>, min: Option<real>, max: Option<real>, rank: real, i: nat): real
    requires Shaped(bounds, counts) && Picked(counts, rank, i)
  {
    var lower, upper := Lower(bounds, min, i), Upper(bounds, min, max, i);
    Clamp(Interpolate(lower, upper, rank - Cum(counts, i) as real, counts[i] as real), min, max)
  }

  /** The loop's last turn, in the bucket it stops at. */
  method EstimateIn(bounds: seq<real>, counts: seq<nat>, min: Option<real>, max: Option<real>, rank: real, cum: nat, k: nat) returns (v: real)
    requires Shaped(bounds, counts) && Picked(counts, rank, k) && cum == Cum(counts, k)
    ensures v == Estimate(bounds, counts, min, max, rank, k)
  {
    hide Interpolate;
    assert Cum(counts, k + 1) == Cum(counts, k) + counts[k];
    var lower := 0.0;
    if k > 0 { lower := bounds[k - 1]; }
    else if min.Some? && min.value < bounds[0] { lower := min.value; }
    else if bounds[0] <= 0.0 { lower := bounds[0]; }
    var upper;
    if k < |bounds| {
      upper := bounds[k];
    } else {
      upper := lower;
      if max.Some? && max.value > lower { upper := max.value; }
    }
    v := Interpolate(lower, upper, rank - cum as real, counts[k] as real);
    if min.Some? && v < min.value { v := min.value; }
    if max.Some? && v > max.value { v := max.value; }
  }

  /** The loop that finds the rank's bucket. */
  method EstimateAt(bounds: seq<real>, counts: seq<nat>, min: Option<real>, max: Option<real>, rank: real) returns (v: real, ghost i: nat)
    requires Shaped(bounds, counts) && 0.0 < rank <= Total(counts) as real
    ensures Picked(counts, rank, i) && v == Estimate(bounds, counts, min, max, rank, i)
  {
    hide Estimate;
    v, i := 0.0, 0;
    var cum := 0;
    for k := 0 to |counts|
      invariant cum == Cum(counts, k) && cum as real < rank
    {
      var c := counts[k];
      if c == 0 { continue; }
      if (cum + c) as real < rank && k < |counts| - 1 {
        cum := cum + c;
        continue;
      }
      v := EstimateIn(bounds, counts, min, max, rank, cum, k);
      return v, k;
    }
    assert false;
  }

  /** histQuantile: none exactly when there are no observations, else the interpolation in
      the bucket of rank q * total. */
  method HistQuantile(bounds: seq<real>, counts: seq<nat>, min: Option<real>, max: Option<real>, q: real)
    returns (r: Option<real>, ghost i: nat)
    requires Shaped(bounds, counts) && 0.0 < q <= 1.0
    ensures r.None? <==> Total(counts) == 0
    ensures r.Some? ==>
              var rank := q * Total(counts) as real;
              Picked(counts, rank, i) && r.value == Estimate(bounds, counts, min, max, rank, i)
  {
    hide Estimate, Picked;
    var total := 0;
    for k := 0 to |counts|
      invariant total == Cum(counts, k)
    {
      total := total + counts[k];
    }
    if total <= 0 { return None, 0; }
    RankInRange(q, total);
    var v;
    v, i := EstimateAt(bounds, counts, min, max, q * total as real);
    r := Some(v);
  }

  lemma {:induction false} RankInRange(q: real, total: nat)
    requires 0.0 < q <= 1.0 && total > 0
    ensures 0.0 < q * total as real <= total as real
  {}

  // ---- The estimate against the observations behind the counts ----

  /** Bucket i is (bounds[i-1], bounds[i]], open below at the first and above at the last. */
  predicate InBucket(bounds: seq<real>, i: nat, x: real) {
    i <= |bounds| && (i > 0 ==> bounds[i - 1] < x) && (i < |bounds| ==> x <= bounds[i])
  }

  function CountIn(obs: seq<real>, bounds: seq<real>, i: nat): nat {
    if obs == [] then 0 else CountIn(obs[1..], bounds, i) + if InBucket(bounds, i, obs[0]) then 1 else 0
  }

  function CountUpTo(obs: seq<real>, t: real): nat {
    if obs == [] then 0 else CountUpTo(obs[1..], t) + if obs[0] <= t then 1 else 0
  }

  function CountBelow(obs: seq<real>, t: real): nat {
    if obs == [] then 0 else CountBelow(obs[1..], t) + if obs[0] < t then 1 else 0
  }

  /** The observations, in any order, are what the histogram counts and bounds. */
  ghost predicate Behind(obs: seq<real>, bounds: seq<real>, counts: seq<nat>) {
    Shaped(bounds, counts) && forall i :: 0 <= i < |counts| ==> counts[i] == CountIn(obs, bounds, i)
  }

  /** The minimum and maximum, where known, are those of the observations. */
  ghost predicate Exact(obs: seq<real>, min: Option<real>, max: Option<real>) {
    && (min.Some? ==> min.value in obs && forall x :: x in obs ==> min.value <= x)
    && (max.Some? ==> max.value in obs && forall x :: x in obs ==> x <= max.value)
  }

  /** x is the k-th smallest observation. */
  ghost predicate KthSmallest(obs: seq<real>, k: int, x: real) {
    x in obs && CountBelow(obs, x) < k <= CountUpTo(obs, x)
  }

  lemma {:induction false} UpToFirst(obs: seq<real>, bounds: seq<real>)
    requires |bounds| >= 1
    ensures CountUpTo(obs, bounds[0]) == CountIn(obs, bounds, 0)
  {
    if obs != [] { UpToFirst(obs[1..], bounds); }
  }

  lemma {:induction false} UpToNext(obs: seq<real>, bounds: seq<real>, i: nat)
    requires 0 < i < |bounds| && bounds[i - 1] < bounds[i]
    ensures CountUpTo(obs, bounds[i]) == CountUpTo(obs, bounds[i - 1]) + CountIn(obs, bounds, i)
  {
    if obs != [] { UpToNext(obs[1..], bounds, i); }
  }

  /** The running count is the number of observations up to the bound. */
  lemma {:induction false} CumIsUpTo(obs: seq<real>, bounds: seq<real>, counts: seq<nat>, i: nat)
    requires Shaped(bounds, counts) && i < |bounds|
    requires forall j :: 0 <= j < |counts| ==> counts[j] == CountIn(obs, bounds, j)
    ensures Cum(counts, i + 1) == CountUpTo(obs, bounds[i])
  {
    if i == 0 {
      UpToFirst(obs, bounds);
      assert Cum(counts, 1) == Cum(counts, 0) + counts[0];
    } else {
      CumIsUpTo(obs, bounds, counts, i - 1);
      UpToNext(obs, bounds, i);
    }
  }

  lemma {:induction false} UpToMonotone(obs: seq<real>, s: real, t: real)
    requires s <= t
    ensures CountUpTo(obs, s) <= CountUpTo(obs, t)
    ensures s < t ==> CountUpTo(obs, s) <= CountBelow(obs, t)
  {
    if obs != [] { UpToMonotone(obs[1..], s, t); }
  }

  lemma {:induction false} OneBetween(obs: seq<real>, a: real, x: real, t: real)
    requires a in obs && x < a <= t
    ensures CountUpTo(obs, x) + 1 <= CountUpTo(obs, t)
  {
    assert obs == [obs[0]] + obs[1..];
    UpToMonotone(obs[1..], x, t);
    if obs[0] != a { OneBetween(obs[1..], a, x, t); }
  }

  /** The observation of rank ⌈rank⌉ lies in the picked bucket. */
  lemma {:induction false} RankedInPicked(obs: seq<real>, bounds: seq<real>, counts: seq<nat>, rank: real, i: nat, k: int, x: real)
    requires Behind(obs, bounds, counts) && Picked(counts, rank, i)
    requires rank <= k as real < rank + 1.0 && KthSmallest(obs, k, x)
    ensures InBucket(bounds, i, x)
  {
    if i > 0 && x <= bounds[i - 1] {
      CumIsUpTo(obs, bounds, counts, i - 1);
      UpToMonotone(obs, x, bounds[i - 1]);
    }
    if i < |bounds| && bounds[i] < x {
      CumIsUpTo(obs, bounds, counts, i);
      UpToMonotone(obs, bounds[i], x);
    }
  }

  /** The bucket's extent: its open ends closed by the minimum and maximum, or else where the
      interpolation starts and ends. */
  function Low(bounds: seq<real>, min: Option<real>, i: nat): real
    requires 1 <= |bounds| && i <= |bounds|
  {
    if i == 0 && min.Some? then min.value else Lower(bounds, min, i)
  }

  function High(bounds: seq<real>, min: Option<real>, max: Option<real>, i: nat): real
    requires 1 <= |bounds| && i <= |bounds|
  {
    if i == |bounds| && max.Some? then max.value else Upper(bounds, min, max, i)
  }

  lemma {:induction false} InterpolateInside(lower: real, upper: real, num: real, den: real)
    requires lower <= upper && 0.0 <= num <= den && den > 0.0
    ensures lower <= Interpolate(lower, upper, num, den) <= upper
  {
    var w := upper - lower;
    assert 0.0 <= w * num <= w * den;
    assert w * den / den == w;
  }

  lemma {:induction false} LowerBelowUpper(bounds: seq<real>, counts: seq<nat>, min: Option<real>, max: Option<real>, i: nat)
    requires Shaped(bounds, counts) && i <= |bounds|
    ensures Lower(bounds, min, i) <= Upper(bounds, min, max, i)
  {}

  lemma {:induction false} InterpolateBetween(bounds: seq<real>, counts: seq<nat>, min: Option<real>, max: Option<real>, rank: real, i: nat)
    requires Shaped(bounds, counts) && Picked(counts, rank, i)
    ensures counts[i] > 0
    ensures Lower(bounds, min, i)
            <= Interpolate(Lower(bounds, min, i), Upper(bounds, min, max, i), rank - Cum(counts, i) as real, counts[i] as real)
            <= Upper(bounds, min, max, i)
  {
    hide Lower, Upper, Interpolate;
    LowerBelowUpper(bounds, counts, min, max, i);
    assert Cum(counts, i + 1) == Cum(counts, i) + counts[i];
    InterpolateInside(Lower(bounds, min, i), Upper(bounds, min, max, i), rank - Cum(counts, i) as real, counts[i] as real);
  }

  /** For all observations behind the counts, the estimate and the ⌈rank⌉-th smallest share a
      bucket, so they differ by at most its width; and the estimate is within [min, max]. In
      the first bucket without a minimum the observation must not lie below where the
      interpolation starts; the last needs the maximum. */
  lemma {:induction false} WithinBucketWidth(obs: seq<real>, bounds: seq<real>, counts: seq<nat>, min: Option<real>, max: Option<real>, rank: real, i: nat, k: int, x: real)
    requires Behind(obs, bounds, counts) && Exact(obs, min, max)
    requires Picked(counts, rank, i) && rank <= k as real < rank + 1.0 && KthSmallest(obs, k, x)
    requires (i == 0 && min.None? ==> Lower(bounds, min, 0) <= x) && (i == |bounds| ==> max.Some?)
    ensures var v, low, high := Estimate(bounds, counts, min, max, rank, i), Low(bounds, min, i), High(bounds, min, max, i);
            && low <= x <= high && low <= v <= high && -(high - low) <= v - x <= high - low
            && (min.Some? ==> min.value <= v) && (max.Some? ==> v <= max.value)
  {
    hide Interpolate, KthSmallest, Picked, Behind;
    assert x in obs by { KthIsIn(obs, k, x); }
    assert Shaped(bounds, counts) && i < |counts| by { BehindShaped(obs, bounds, counts); PickedIndex(counts, rank, i); }
    RankedInPicked(obs, bounds, counts, rank, i, k, x);
    InterpolateBetween(bounds, counts, min, max, rank, i);
  }

  /** The same for histQuantile's own argument: its answer against the ⌈q·n⌉-th smallest of
      the n observations. */
  lemma {:induction false} QuantileWithinWidth(obs: seq<real>, bounds: seq<real>, counts: seq<nat>, min: Option<real>, max: Option<real>, q: real, i: nat, k: int, x: real)
    requires Behind(obs, bounds, counts) && Exact(obs, min, max)
    requires Picked(counts, q * Total(counts) as real, i)
    requires q * |obs| as real <= k as real < q * |obs| as real + 1.0 && KthSmallest(obs, k, x)
    requires (i == 0 && min.None? ==> Lower(bounds, min, 0) <= x) && (i == |bounds| ==> max.Some?)
    ensures var v := Estimate(bounds, counts, min, max, q * Total(counts) as real, i);
            var low, high := Low(bounds, min, i), High(bounds, min, max, i);
            && low <= x <= high && low <= v <= high && -(high - low) <= v - x <= high - low
            && (min.Some? ==> min.value <= v) && (max.Some? ==> v <= max.value)
  {
    hide Estimate, Behind, Exact, KthSmallest, Picked, Low, High;
    TotalIsAll(obs, bounds, counts);
    WithinBucketWidth(obs, bounds, counts, min, max, q * Total(counts) as real, i, k, x);
  }

  lemma {:induction false} KthIsIn(obs: seq<real>, k: int, x: real)
    requires KthSmallest(obs, k, x)
    ensures x in obs
  {}

  lemma {:induction false} BehindShaped(obs: seq<real>, bounds: seq<real>, counts: seq<nat>)
    requires Behind(obs, bounds, counts)
    ensures Shaped(bounds, counts)
  {}

  lemma {:induction false} PickedIndex(counts: seq<nat>, rank: real, i: nat)
    requires Picked(counts, rank, i)
    ensures i < |counts|
  {}

  lemma {:induction false} AboveLast(obs: seq<real>, bounds: seq<real>)
    requires |bounds| >= 1
    ensures CountUpTo(obs, bounds[|bounds| - 1]) + CountIn(obs, bounds, |bounds|) == |obs|
  {
    if obs != [] { AboveLast(obs[1..], bounds); }
  }

  /** The counts add up to the observations. */
  lemma {:induction false} TotalIsAll(obs: seq<real>, bounds: seq<real>, counts: seq<nat>)
    requires Behind(obs, bounds, counts)
    ensures Total(counts) == |obs|
  {
    CumIsUpTo(obs, bounds, counts, |bounds| - 1);
    AboveLast(obs, bounds);
  }

  /** The rank always names an observation: the statement above is never empty. */
  lemma {:induction false} KthExists(obs: seq<real>, k: int)
    requires 1 <= k <= |obs|
    ensures exists x :: KthSmallest(obs, k, x)
  {
    var x := LeastReaching(obs, k, obs);
    assert KthSmallest(obs, k, x) by { BelowReaches(obs, k, x); }
  }

  /** The least observation with at least k at or below it. */
  lemma {:induction false} LeastReaching(obs: seq<real>, k: int, among: seq<real>) returns (x: real)
    requires 1 <= k <= |obs| && among <= obs && among != []
    ensures x in obs && k <= CountUpTo(obs, x)
    ensures forall y :: y in among && k <= CountUpTo(obs, y) ==> x <= y
  {
    var last := among[|among| - 1];
    if |among| == 1 {
      x := Largest(obs);
    } else {
      x := LeastReaching(obs, k, among[..|among| - 1]);
    }
    if k <= CountUpTo(obs, last) && last < x { x := last; }
    if |among| == 1 && k <= CountUpTo(obs, last) { x := last; }
  }

  lemma {:induction false} Largest(obs: seq<real>) returns (x: real)
    requires obs != []
    ensures x in obs && CountUpTo(obs, x) == |obs|
  {
    x := obs[0];
    for i := 0 to |obs|
      invariant x in obs && forall j :: 0 <= j < i ==> obs[j] <= x
    {
      if obs[i] > x { x := obs[i]; }
    }
    AllUpTo(obs, x);
  }

  lemma {:induction false} AllUpTo(obs: seq<real>, x: real)
    requires forall y :: y in obs ==> y <= x
    ensures CountUpTo(obs, x) == |obs|
  {
    assert obs != [] ==> obs == [obs[0]] + obs[1..] && forall y :: y in obs[1..] ==> y in obs;
    if obs != [] {
      assert obs[0] in obs;
      AllUpTo(obs[1..], x);
    }
  }

  lemma {:induction false} BelowReaches(obs: seq<real>, k: int, x: real)
    requires x in obs && 1 <= k <= CountUpTo(obs, x)
    requires forall y :: y in obs && k <= CountUpTo(obs, y) ==> x <= y
    ensures CountBelow(obs, x) < k
  {
    if CountBelow(obs, x) >= k {
      var y := LargestBelow(obs, x);
    }
  }

  /** With something below x, the largest such y has as many up to it as x has below it. */
  lemma {:induction false} LargestBelow(obs: seq<real>, x: real) returns (y: real)
    requires CountBelow(obs, x) > 0
    ensures y in obs && y < x && CountUpTo(obs, y) == CountBelow(obs, x)
    ensures forall z :: z in obs && z < x ==> z <= y
  {
    var rest := obs[1..];
    assert obs == [obs[0]] + rest;
    if CountBelow(rest, x) == 0 {
      y := obs[0];
      NoneBelow(rest, x);
    } else {
      y := LargestBelow(rest, x);
      if y < obs[0] < x { y := obs[0]; }
    }
    SameCount(obs, x, y);
  }

  lemma {:induction false} NoneBelow(obs: seq<real>, x: real)
    requires CountBelow(obs, x) == 0
    ensures forall z :: z in obs ==> z >= x
  {
    assert obs != [] ==> obs == [obs[0]] + obs[1..] && forall y :: y in obs[1..] ==> y in obs;
    if obs != [] { NoneBelow(obs[1..], x); }
  }

  lemma {:induction false} SameCount(obs: seq<real>, x: real, y: real)
    requires y < x && forall z :: z in obs && z < x ==> z <= y
    ensures CountUpTo(obs, y) == CountBelow(obs, x)
  {
    assert obs != [] ==> obs == [obs[0]] + obs[1..] && forall y :: y in obs[1..] ==> y in obs;
    if obs != [] {
      assert obs[0] in obs;
      SameCount(obs[1..], x, y);
    }
  }

  // ---- Monotone in q ----

  lemma {:induction false} ClampMonotone(v: real, w: real, min: Option<real>, max: Option<real>)
    requires v <= w
    ensures Clamp(v, min, max) <= Clamp(w, min, max)
  {}

  lemma {:induction false} InterpolateMonotone(lower: real, upper: real, m: real, n: real, den: real)
    requires lower <= upper && m <= n && den > 0.0
    ensures Interpolate(lower, upper, m, den) <= Interpolate(lower, upper, n, den)
  {
    assert (upper - lower) * m <= (upper - lower) * n;
  }

  /** A larger rank never gives a smaller estimate, whatever minimum and maximum are stored. */
  lemma {:induction false} EstimateMonotone(bounds: seq<real>, counts: seq<nat>, min: Option<real>, max: Option<real>, r: real, s: real, i: nat, j: nat)
    requires Shaped(bounds, counts) && r <= s && Picked(counts, r, i) && Picked(counts, s, j)
    ensures Estimate(bounds, counts, min, max, r, i) <= Estimate(bounds, counts, min, max, s, j)
  {
    hide Clamp, Interpolate, Lower, Upper;
    if j < i { CumMonotone(counts, j + 1, i); }
    InterpolateBetween(bounds, counts, min, max, r, i);
    InterpolateBetween(bounds, counts, min, max, s, j);
    var v := Interpolate(Lower(bounds, min, i), Upper(bounds, min, max, i), r - Cum(counts, i) as real, counts[i] as real);
    var w := Interpolate(Lower(bounds, min, j), Upper(bounds, min, max, j), s - Cum(counts, j) as real, counts[j] as real);
    if i == j {
      LowerBelowUpper(bounds, counts, min, max, i);
      InterpolateMonotone(Lower(bounds, min, i), Upper(bounds, min, max, i), r - Cum(counts, i) as real, s - Cum(counts, i) as real, counts[i] as real);
    } else {
      EndsMeet(bounds, counts, min, max, i, j);
    }
    ClampMonotone(v, w, min, max);
  }

  lemma {:induction false} EndsMeet(bounds: seq<real>, counts: seq<nat>, min: Option<real>, max: Option<real>, i: nat, j: nat)
    requires Shaped(bounds, counts) && i < j <= |bounds|
    ensures Upper(bounds, min, max, i) <= Lower(bounds, min, j)
  {}

  lemma {:induction false} RankMonotone(p: real, q: real, total: nat)
    requires p <= q
    ensures p * total as real <= q * total as real
  {
    assert (q - p) * total as real >= 0.0;
  }

  /** The same for histQuantile's own argument. */
  lemma {:induction false} QuantileMonotone(bounds: seq<real>, counts: seq<nat>, min: Option<real>, max: Option<real>, p: real, q: real, i: nat, j: nat)
    requires Shaped(bounds, counts) && p <= q
    requires Picked(counts, p * Total(counts) as real, i) && Picked(counts, q * Total(counts) as real, j)
    ensures Estimate(bounds, counts, min, max, p * Total(counts) as real, i) <= Estimate(bounds, counts, min, max, q * Total(counts) as real, j)
  {
    hide Estimate;
    RankMonotone(p, q, Total(counts));
    EstimateMonotone(bounds, counts, min, max, p * Total(counts) as real, q * Total(counts) as real, i, j);
  }
}
