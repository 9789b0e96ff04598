/** Exactly when histQuantile's estimate is close to the observation it stands for, with
    exact extremes. */
module QuantileBounds {
  import opened Prelude
  import opened Quantile

  /** What a query has of some observations. */
  datatype Hist = Hist(bounds: seq<real>, counts: seq<nat>, min: Option<real>, max: Option<real>)

  /** k = ⌈rank⌉ is asked for, and the rank falls in bucket i. */
  ghost predicate Asked(h: Hist, rank: real, i: nat, k: int) {
    Shaped(h.bounds, h.counts) && Picked(h.counts, rank, i) && rank <= k as real < rank + 1.0
  }

  ghost function Est(h: Hist, rank: real, i: nat): real
    requires Shaped(h.bounds, h.counts) && Picked(h.counts, rank, i)
  {
    Estimate(h.bounds, h.counts, h.min, h.max, rank, i)
  }

  lemma {:induction false} RankWithin(h: Hist, rank: real, i: nat, k: int)
    requires Asked(h, rank, i, k)
    ensures i < |h.counts| == |h.bounds| + 1 && Cum(h.counts, i) < k <= Cum(h.counts, i + 1) == Cum(h.counts, i) + h.counts[i]
  {}

  // ---- Replacing one bucket's observations ----

  function Repeat(x: real, n: nat): seq<real> { seq(n, i => x) }

  /** The observations of the other buckets. */
  function Outside(obs: seq<real>, bounds: seq<real>, i: nat): seq<real> {
    if obs == [] then []
    else if InBucket(bounds, i, obs[0]) then Outside(obs[1..], bounds, i)
    else [obs[0]] + Outside(obs[1..], bounds, i)
  }

  lemma {:induction false} CountsAppend(a: seq<real>, b: seq<real>, bounds: seq<real>, i: nat, t: real)
    ensures CountIn(a + b, bounds, i) == CountIn(a, bounds, i) + CountIn(b, bounds, i)
    ensures CountUpTo(a + b, t) == CountUpTo(a, t) + CountUpTo(b, t)
    ensures CountBelow(a + b, t) == CountBelow(a, t) + CountBelow(b, t)
  {
    if a == [] {
      assert a + b == b;
    } else {
      assert (a + b)[1..] == a[1..] + b;
      CountsAppend(a[1..], b, bounds, i, t);
    }
  }

  lemma {:induction false} RepeatCounts(x: real, n: nat, t: real)
    ensures CountUpTo(Repeat(x, n), t) == if x <= t then n else 0
    ensures CountBelow(Repeat(x, n), t) == if x < t then n else 0
  {
    if n > 0 {
      assert Repeat(x, n)[1..] == Repeat(x, n - 1);
      RepeatCounts(x, n - 1, t);
    }
  }

  lemma {:induction false} OutsideHas(obs: seq<real>, bounds: seq<real>, i: nat)
    ensures forall x :: x in Outside(obs, bounds, i) <==> x in obs && !InBucket(bounds, i, x)
  {
    if obs != [] {
      assert obs == [obs[0]] + obs[1..];
      OutsideHas(obs[1..], bounds, i);
    }
  }

  lemma {:induction false} Disjoint(bounds: seq<real>, counts: seq<nat>, i: nat, j: nat, x: real)
    requires Shaped(bounds, counts) && InBucket(bounds, i, x) && InBucket(bounds, j, x)
    ensures i == j
  {}

  lemma {:induction false} OutsideCounts(obs: seq<real>, bounds: seq<real>, counts: seq<nat>, i: nat, j: nat)
    requires Shaped(bounds, counts) && i <= |bounds|
    ensures CountIn(Outside(obs, bounds, i), bounds, j) == if j == i then 0 else CountIn(obs, bounds, j)
  {
    if obs != [] {
      OutsideCounts(obs[1..], bounds, counts, i, j);
      if InBucket(bounds, i, obs[0]) {
        if InBucket(bounds, j, obs[0]) { Disjoint(bounds, counts, i, j, obs[0]); }
      } else {
        assert Outside(obs, bounds, i)[1..] == Outside(obs[1..], bounds, i);
      }
    }
  }

  /** From inside the bucket, the others lie below it or above. */
  lemma {:induction false} OutsideRanks(obs: seq<real>, bounds: seq<real>, i: nat, y: real)
    requires InBucket(bounds, i, y) && forall a, b :: 0 <= a < b < |bounds| ==> bounds[a] < bounds[b]
    ensures CountBelow(Outside(obs, bounds, i), y) == CountUpTo(Outside(obs, bounds, i), y) == if i == 0 then 0 else CountUpTo(obs, bounds[i - 1])
  {
    if obs != [] {
      OutsideRanks(obs[1..], bounds, i, y);
      if !InBucket(bounds, i, obs[0]) { assert Outside(obs, bounds, i)[1..] == Outside(obs[1..], bounds, i); }
    }
  }

  lemma {:induction false} AllInBucket(mid: seq<real>, bounds: seq<real>, counts: seq<nat>, i: nat, j: nat)
    requires Shaped(bounds, counts) && forall z :: z in mid ==> InBucket(bounds, i, z)
    ensures CountIn(mid, bounds, j) == if j == i then |mid| else 0
  {
    if mid != [] {
      assert mid[0] in mid;
      if InBucket(bounds, j, mid[0]) { Disjoint(bounds, counts, i, j, mid[0]); }
      AllInBucket(mid[1..], bounds, counts, i, j);
    }
  }

  /** Other values in bucket i, as many: still behind the counts, and the ranks in the bucket
      are those of the new values. */
  lemma {:induction false} Replaced(h: Hist, obs: seq<real>, i: nat, mid: seq<real>, k: int, y: real)
    requires Behind(obs, h.bounds, h.counts) && i < |h.counts| && |mid| == h.counts[i]
    requires (forall z :: z in mid ==> InBucket(h.bounds, i, z)) && y in mid
    requires CountBelow(mid, y) < k - Cum(h.counts, i) <= CountUpTo(mid, y)
    ensures Behind(Outside(obs, h.bounds, i) + mid, h.bounds, h.counts)
    ensures KthSmallest(Outside(obs, h.bounds, i) + mid, k, y)
  {
    hide Cum, InBucket, Outside, CountIn, CountBelow, CountUpTo;
    var new' := Outside(obs, h.bounds, i) + mid;
    forall j | 0 <= j < |h.counts| ensures h.counts[j] == CountIn(new', h.bounds, j) {
      CountsAppend(Outside(obs, h.bounds, i), mid, h.bounds, j, y);
      OutsideCounts(obs, h.bounds, h.counts, i, j);
      AllInBucket(mid, h.bounds, h.counts, i, j);
    }
    CountsAppend(Outside(obs, h.bounds, i), mid, h.bounds, i, y);
    OutsideRanks(obs, h.bounds, i, y);
    BelowBucket(h, obs, i);
  }

  lemma {:induction false} BelowBucket(h: Hist, obs: seq<real>, i: nat)
    requires Behind(obs, h.bounds, h.counts) && i < |h.counts|
    ensures Cum(h.counts, i) == if i == 0 then 0 else CountUpTo(obs, h.bounds[i - 1])
  {
    if i > 0 { CumIsUpTo(obs, h.bounds, h.counts, i - 1); }
  }

  // ---- With exact extremes ----

  ghost predicate Fits(h: Hist, obs: seq<real>) {
    Behind(obs, h.bounds, h.counts) && Exact(obs, h.min, h.max)
  }

  /** The error is at most d for all observations that fit. */
  ghost predicate ErrorAtMost(h: Hist, rank: real, i: nat, k: int, d: real)
    requires Asked(h, rank, i, k)
  {
    forall obs, x :: Fits(h, obs) && KthSmallest(obs, k, x) ==> -d <= Est(h, rank, i) - x <= d
  }

  /** The bucket's ends are known, or the asked observation is itself the known extreme. */
  ghost predicate Known(h: Hist, i: nat, k: int)
    requires Shaped(h.bounds, h.counts) && i < |h.counts|
  {
    if i == 0 then h.min.Some? || (h.max.Some? && k == Total(h.counts) == h.counts[0])
    else if i == |h.bounds| then h.max.Some? || (h.min.Some? && k == 1 && h.counts[i] == Total(h.counts))
    else true
  }

  ghost function Width(h: Hist, i: nat): real
    requires 1 <= |h.bounds| && i <= |h.bounds|
  {
    High(h.bounds, h.min, h.max, i) - Low(h.bounds, h.min, i)
  }

  /** The largest of all observations is the greatest, the smallest the least. */
  lemma {:induction false} LargestRank(obs: seq<real>, x: real, m: real)
    requires m in obs && (forall y :: y in obs ==> y <= m) && KthSmallest(obs, |obs|, x)
    ensures x == m
  {
    if x < m { BelowAll(obs, x, m); }
  }

  lemma {:induction false} BelowAll(obs: seq<real>, x: real, m: real)
    requires m in obs && x < m
    ensures CountUpTo(obs, x) < |obs|
  {
    assert obs == [obs[0]] + obs[1..];
    UpToWithin(obs[1..], x);
    if obs[0] <= x { BelowAll(obs[1..], x, m); }
  }

  lemma {:induction false} UpToWithin(obs: seq<real>, x: real)
    ensures CountUpTo(obs, x) <= |obs|
  {
    if obs != [] { UpToWithin(obs[1..], x); }
  }

  lemma {:induction false} SmallestRank(obs: seq<real>, x: real, m: real)
    requires m in obs && (forall y :: y in obs ==> m <= y) && KthSmallest(obs, 1, x)
    ensures x == m
  {
    if m < x { SomeBelow(obs, x, m); }
  }

  lemma {:induction false} SomeBelow(obs: seq<real>, x: real, m: real)
    requires m in obs && m < x
    ensures CountBelow(obs, x) >= 1
  {
    assert obs == [obs[0]] + obs[1..];
    if obs[0] != m { SomeBelow(obs[1..], x, m); }
  }

  /** Known, the error is at most the bucket's width. */
  lemma {:induction false} KnownWithin(h: Hist, obs: seq<real>, rank: real, i: nat, k: int, x: real)
    requires Asked(h, rank, i, k) && Known(h, i, k) && Fits(h, obs) && KthSmallest(obs, k, x)
    ensures -Width(h, i) <= Est(h, rank, i) - x <= Width(h, i)
  {
    hide KthSmallest, Behind, Picked, Est;
    PickedIndex(h.counts, rank, i);
    TotalIsAll(obs, h.bounds, h.counts);
    if i == 0 && h.min.None? {
      LargestRank(obs, x, h.max.value);
      FirstPinned(h, rank, x);
      if Lower(h.bounds, h.min, 0) <= x { EstWithin(h, obs, rank, i, k, x); }
    } else if i == |h.bounds| && h.max.None? {
      SmallestRank(obs, x, h.min.value);
      RankedInPicked(obs, h.bounds, h.counts, rank, i, k, x);
      LastPinned(h, rank, x);
    } else {
      EstWithin(h, obs, rank, i, k, x);
    }
  }

  lemma {:induction false} EstWithin(h: Hist, obs: seq<real>, rank: real, i: nat, k: int, x: real)
    requires Asked(h, rank, i, k) && Fits(h, obs) && KthSmallest(obs, k, x)
    requires (i == 0 && h.min.None? ==> Lower(h.bounds, h.min, 0) <= x) && (i == |h.bounds| ==> h.max.Some?)
    ensures -Width(h, i) <= Est(h, rank, i) - x <= Width(h, i)
  {
    hide KthSmallest, Behind, Picked, Exact, Low, High, Estimate;
    PickedIndex(h.counts, rank, i);
    WithinBucketWidth(obs, h.bounds, h.counts, h.min, h.max, rank, i, k, x);
  }

  lemma {:induction false} FirstPinned(h: Hist, rank: real, m: real)
    requires Shaped(h.bounds, h.counts) && Picked(h.counts, rank, 0) && h.max == Some(m) && h.min.None?
    ensures m < Lower(h.bounds, h.min, 0) ==> Est(h, rank, 0) == m
    ensures 0.0 <= Width(h, 0)
  {
    hide Interpolate;
    InterpolateBetween(h.bounds, h.counts, h.min, h.max, rank, 0);
  }

  lemma {:induction false} LastPinned(h: Hist, rank: real, m: real)
    requires Shaped(h.bounds, h.counts) && Picked(h.counts, rank, |h.bounds|) && h.min == Some(m) && h.max.None?
    requires InBucket(h.bounds, |h.bounds|, m)
    ensures Est(h, rank, |h.bounds|) == m && Width(h, |h.bounds|) == 0.0
  {
    hide Interpolate;
    InterpolateBetween(h.bounds, h.counts, h.min, h.max, rank, |h.bounds|);
  }

  function Lesser3(a: real, b: real, c: real): (r: real)
    ensures r < a && r < b && r < c
  {
    (if a <= b && a <= c then a else if b <= c then b else c) - 1.0
  }

  function Greater3(a: real, b: real, c: real): (r: real)
    ensures r > a && r > b && r > c
  {
    (if a >= b && a >= c then a else if b >= c then b else c) + 1.0
  }

  /** n times x among a few others, none of them less: x comes first. */
  lemma {:induction false} RepeatedFirst(x: real, n: nat, others: seq<real>, k: int)
    requires 1 <= k <= n && forall z :: z in others ==> x <= z
    ensures var mid := Repeat(x, n) + others;
            x in mid && CountBelow(mid, x) < k <= CountUpTo(mid, x)
  {
    CountsAppend(Repeat(x, n), others, [], 0, x);
    RepeatCounts(x, n, x);
    NoneLess(others, x);
    assert (Repeat(x, n) + others)[0] == x;
  }

  lemma {:induction false} NoneLess(obs: seq<real>, x: real)
    requires forall z :: z in obs ==> x <= z
    ensures CountBelow(obs, x) == 0
  {
    if obs != [] {
      assert obs[0] in obs && forall z :: z in obs[1..] ==> z in obs;
      NoneLess(obs[1..], x);
    }
  }

  lemma {:induction false} NoneUpTo(obs: seq<real>, x: real)
    requires forall z :: z in obs ==> x < z
    ensures CountUpTo(obs, x) == 0
  {
    if obs != [] {
      assert obs[0] in obs && forall z :: z in obs[1..] ==> z in obs;
      NoneUpTo(obs[1..], x);
    }
  }

  /** n times x among a few others, none of them greater: x comes after them. */
  lemma {:induction false} RepeatedLast(x: real, n: nat, others: seq<real>, k: int)
    requires |others| < k <= |others| + n && forall z :: z in others ==> z <= x
    ensures var mid := Repeat(x, n) + others;
            x in mid && CountBelow(mid, x) < k <= CountUpTo(mid, x)
  {
    CountsAppend(Repeat(x, n), others, [], 0, x);
    RepeatCounts(x, n, x);
    AllUpTo(others, x);
    BelowWithin(others, x);
    assert (Repeat(x, n) + others)[0] == x;
  }

  lemma {:induction false} BelowWithin(obs: seq<real>, x: real)
    ensures CountBelow(obs, x) <= |obs|
  {
    if obs != [] { BelowWithin(obs[1..], x); }
  }

  lemma {:induction false} AllInFirst(h: Hist, obs: seq<real>)
    requires Behind(obs, h.bounds, h.counts) && forall z :: z in obs ==> z <= h.bounds[0]
    ensures h.counts[0] == Total(h.counts)
  {
    UpToFirst(obs, h.bounds);
    AllUpTo(obs, h.bounds[0]);
    TotalIsAll(obs, h.bounds, h.counts);
  }

  lemma {:induction false} AllInLast(h: Hist, obs: seq<real>)
    requires Behind(obs, h.bounds, h.counts) && forall z :: z in obs ==> h.bounds[|h.bounds| - 1] < z
    ensures h.counts[|h.bounds|] == Total(h.counts) && Cum(h.counts, |h.bounds|) == 0
  {
    BelowBucket(h, obs, |h.bounds|);
    NoneUpTo(obs, h.bounds[|h.bounds| - 1]);
  }

  /** No minimum, and not the maximum that is asked for: the first bucket's observations may
      lie as far below the estimate as one likes. */
  lemma {:induction false} FarBelow(h: Hist, obs: seq<real>, rank: real, k: int, d: real) returns (new': seq<real>, x: real)
    requires Asked(h, rank, 0, k) && !Known(h, 0, k) && Fits(h, obs)
    ensures Fits(h, new') && KthSmallest(new', k, x) && Est(h, rank, 0) - x > d
  {
    hide Est, CountIn, CountBelow, CountUpTo;
    RankWithin(h, rank, 0, k);
    var b0, v := h.bounds[0], Est(h, rank, 0);
    x := Lesser3(v - d, b0, if h.max.Some? then h.max.value else b0);
    var others := if h.max.Some? && h.max.value <= b0 then [h.max.value] else [];
    if others != [] { AllInFirst(h, obs); }
    RepeatedFirst(x, h.counts[0] - |others|, others, k);
    var mid := Repeat(x, h.counts[0] - |others|) + others;
    Replaced(h, obs, 0, mid, k, x);
    OutsideHas(obs, h.bounds, 0);
    new' := Outside(obs, h.bounds, 0) + mid;
  }

  lemma {:induction false} FarAbove(h: Hist, obs: seq<real>, rank: real, k: int, d: real) returns (new': seq<real>, x: real)
    requires Asked(h, rank, |h.bounds|, k) && !Known(h, |h.bounds|, k) && Fits(h, obs)
    ensures Fits(h, new') && KthSmallest(new', k, x) && x - Est(h, rank, |h.bounds|) > d
  {
    hide Est, CountIn, CountBelow, CountUpTo;
    var last := |h.bounds|;
    RankWithin(h, rank, last, k);
    var bn, v := h.bounds[last - 1], Est(h, rank, last);
    x := Greater3(v + d, bn, if h.min.Some? then h.min.value else bn);
    var others := if h.min.Some? && h.min.value > bn then [h.min.value] else [];
    if others != [] { AllInLast(h, obs); }
    RepeatedLast(x, h.counts[last] - |others|, others, k - Cum(h.counts, last));
    var mid := Repeat(x, h.counts[last] - |others|) + others;
    Replaced(h, obs, last, mid, k, x);
    OutsideHas(obs, h.bounds, last);
    new' := Outside(obs, h.bounds, last) + mid;
  }

  /** With exact extremes, for every histogram that stands for some observations: the bucket's
      width bounds the error for all of them where the bucket's ends are known, or the asked
      observation is the known extreme; and where not, nothing bounds it. */
  lemma {:induction false} ErrorBoundedExactly(h: Hist, obs: seq<real>, rank: real, i: nat, k: int)
    requires Asked(h, rank, i, k) && Fits(h, obs)
    ensures i < |h.counts| && (Known(h, i, k) ==> ErrorAtMost(h, rank, i, k, Width(h, i)))
    ensures !Known(h, i, k) ==> forall d :: !ErrorAtMost(h, rank, i, k, d)
  {
    hide Est, Fits, KthSmallest, Picked, Width;
    RankWithin(h, rank, i, k);
    if Known(h, i, k) {
      forall o, x | Fits(h, o) && KthSmallest(o, k, x) ensures -Width(h, i) <= Est(h, rank, i) - x <= Width(h, i) {
        KnownWithin(h, o, rank, i, k, x);
      }
    } else {
      forall d ensures !ErrorAtMost(h, rank, i, k, d) {
        if i == 0 {
          var o, x := FarBelow(h, obs, rank, k, d);
        } else {
          var o, x := FarAbove(h, obs, rank, k, d);
        }
      }
    }
  }
}
