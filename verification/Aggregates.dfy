/** Histogram aggregates and their merge (internal/storage/query_measures.go and
    query_values.go), over the reals and unbounded counts. */
module Aggregates {
  import opened Prelude
  import opened Quantile
  import opened QuantileBounds

  /** measureAgg and valueAgg: their bucket arrays differ in length only. */
  datatype Agg = Agg(count: int, points: int, sum: Option<real>, min: Option<real>, max: Option<real>, buckets: seq<nat>)

  function Zero(n: nat): (r: Agg)
    ensures |r.buckets| == n
  {
    Agg(0, 0, None, None, None, seq(n, i => 0))
  }

  function AddSums(a: Option<real>, b: Option<real>): Option<real> {
    if b.None? then a else if a.None? then b else Some(b.value + a.value)
  }

  function Lesser(a: Option<real>, b: Option<real>): Option<real> {
    if b.Some? && (a.None? || b.value < a.value) then b else a
  }

  function Greater(a: Option<real>, b: Option<real>): Option<real> {
    if b.Some? && (a.None? || b.value > a.value) then b else a
  }

  function AddBuckets(a: seq<nat>, b: seq<nat>): seq<nat>
    requires |a| == |b|
  {
    seq(|a|, i requires 0 <= i < |a| => a[i] + b[i])
  }

  function Merged(a: Agg, b: Agg): (r: Agg)
    requires |a.buckets| == |b.buckets|
    ensures |r.buckets| == |a.buckets|
  {
    Agg(a.count + b.count, a.points + b.points, AddSums(a.sum, b.sum), Lesser(a.min, b.min), Greater(a.max, b.max), AddBuckets(a.buckets, b.buckets))
  }

  method AddInto(a: array<nat>, b: seq<nat>)
    requires |b| == a.Length
    modifies a
    ensures a[..] == AddBuckets(old(a[..]), b)
  {
    for i := 0 to a.Length
      invariant forall j :: 0 <= j < i ==> a[j] == old(a[j]) + b[j]
      invariant forall j :: i <= j < a.Length ==> a[j] == old(a[j])
    {
      a[i] := a[i] + b[i];
    }
  }

  /** An aggregate held in place, as the queries hold it. */
  class Aggregate {
    var count: int
    var points: int
    var sum: Option<real>
    var min: Option<real>
    var max: Option<real>
    const buckets: array<nat>

    constructor (n: nat)
      ensures fresh(buckets) && buckets.Length == n && Value() == Zero(n)
    {
      count, points, sum, min, max := 0, 0, None, None, None;
      buckets := new nat[n](i => 0);
    }

    ghost function Value(): Agg
      reads this, buckets
    {
      Agg(count, points, sum, min, max, buckets[..])
    }

    /** measureAgg.merge, valueAgg.merge */
    method Merge(b: Agg)
      requires |b.buckets| == buckets.Length
      modifies this, buckets
      ensures Value() == Merged(old(Value()), b)
    {
      count := count + b.count;
      points := points + b.points;
      if b.sum.Some? {
        var s := b.sum.value;
        if sum.Some? { s := s + sum.value; }
        sum := Some(s);
      }
      if b.min.Some? && (min.None? || b.min.value < min.value) { min := b.min; }
      if b.max.Some? && (max.None? || b.max.value > max.value) { max := b.max; }
      AddInto(buckets, b.buckets);
    }
  }

  // ---- Merging is a commutative monoid ----

  lemma {:induction false} MergedCommutes(a: Agg, b: Agg)
    requires |a.buckets| == |b.buckets|
    ensures Merged(a, b) == Merged(b, a)
  {
    assert AddBuckets(a.buckets, b.buckets) == AddBuckets(b.buckets, a.buckets);
  }

  lemma {:induction false} MergedAssociates(a: Agg, b: Agg, c: Agg)
    requires |a.buckets| == |b.buckets| == |c.buckets|
    ensures Merged(Merged(a, b), c) == Merged(a, Merged(b, c))
  {
    assert AddBuckets(AddBuckets(a.buckets, b.buckets), c.buckets) == AddBuckets(a.buckets, AddBuckets(b.buckets, c.buckets));
  }

  lemma {:induction false} ZeroMerged(a: Agg)
    ensures Merged(a, Zero(|a.buckets|)) == a == Merged(Zero(|a.buckets|), a)
  {
    assert AddBuckets(a.buckets, Zero(|a.buckets|).buckets) == a.buckets;
    assert AddBuckets(Zero(|a.buckets|).buckets, a.buckets) == a.buckets;
  }

  ghost predicate Wide(aggs: seq<Agg>, n: nat) { forall a :: a in aggs ==> |a.buckets| == n }

  /** A loop's merge of aggs, in order, into a zero aggregate. */
  function MergeAll(aggs: seq<Agg>, n: nat): (r: Agg)
    requires Wide(aggs, n)
    ensures |r.buckets| == n
  {
    if aggs == [] then Zero(n) else Merged(MergeAll(aggs[..|aggs| - 1], n), aggs[|aggs| - 1])
  }

  // ---- An independent reading: the data points behind an aggregate ----

  /** A data point's observations, and whether it reports their sum, minimum and maximum. */
  datatype DataPoint = DataPoint(obs: seq<real>, hasSum: bool, hasMin: bool, hasMax: bool)

  datatype Which = All | Sums | Mins | Maxes

  predicate Reports(p: DataPoint, w: Which) {
    match w case All => true case Sums => p.hasSum case Mins => p.hasMin case Maxes => p.hasMax
  }

  /** The observations of the points that report w. */
  function Gather(ps: seq<DataPoint>, w: Which): seq<real> {
    if ps == [] then [] else (if Reports(ps[0], w) then ps[0].obs else []) + Gather(ps[1..], w)
  }

  predicate AnySum(ps: seq<DataPoint>) { exists i :: 0 <= i < |ps| && ps[i].hasSum }

  function TotalOf(obs: seq<real>): real {
    if obs == [] then 0.0 else obs[0] + TotalOf(obs[1..])
  }

  function MinOf(obs: seq<real>): (r: Option<real>)
    ensures r.None? <==> obs == []
    ensures r.Some? ==> r.value in obs && forall x :: x in obs ==> r.value <= x
  {
    if obs == [] then None
    else
      var rest := MinOf(obs[1..]);
      assert forall x :: x in obs ==> x == obs[0] || x in obs[1..];
      if rest.None? || obs[0] < rest.value then Some(obs[0]) else rest
  }

  function MaxOf(obs: seq<real>): (r: Option<real>)
    ensures r.None? <==> obs == []
    ensures r.Some? ==> r.value in obs && forall x :: x in obs ==> x <= r.value
  {
    if obs == [] then None
    else
      var rest := MaxOf(obs[1..]);
      assert forall x :: x in obs ==> x == obs[0] || x in obs[1..];
      if rest.None? || obs[0] > rest.value then Some(obs[0]) else rest
  }

  function BucketsOf(obs: seq<real>, bounds: seq<real>): seq<nat> {
    seq(|bounds| + 1, i requires 0 <= i => CountIn(obs, bounds, i))
  }

  /** Counts and buckets are of all observations; the sum, minimum and maximum only of those
      whose points report them. */
  function Of(ps: seq<DataPoint>, bounds: seq<real>): Agg {
    Agg(|Gather(ps, All)|, |ps|, if AnySum(ps) then Some(TotalOf(Gather(ps, Sums))) else None,
        MinOf(Gather(ps, Mins)), MaxOf(Gather(ps, Maxes)), BucketsOf(Gather(ps, All), bounds))
  }

  lemma {:induction false} GatherAppend(ps: seq<DataPoint>, qs: seq<DataPoint>, w: Which)
    ensures Gather(ps + qs, w) == Gather(ps, w) + Gather(qs, w)
  {
    if ps == [] {
      assert ps + qs == qs;
    } else {
      assert (ps + qs)[1..] == ps[1..] + qs;
      GatherAppend(ps[1..], qs, w);
    }
  }

  lemma {:induction false} TotalSplits(xs: seq<real>, ys: seq<real>)
    ensures TotalOf(xs + ys) == TotalOf(xs) + TotalOf(ys)
  {
    if xs == [] {
      assert xs + ys == ys;
    } else {
      assert (xs + ys)[1..] == xs[1..] + ys;
      TotalSplits(xs[1..], ys);
    }
  }

  lemma {:induction false} ExtremesSplit(xs: seq<real>, ys: seq<real>)
    ensures MinOf(xs + ys) == Lesser(MinOf(xs), MinOf(ys))
    ensures MaxOf(xs + ys) == Greater(MaxOf(xs), MaxOf(ys))
  {
    hide MinOf, MaxOf;
    assert forall x :: x in xs + ys <==> x in xs || x in ys;
  }

  lemma {:induction false} BucketsSplit(xs: seq<real>, ys: seq<real>, bounds: seq<real>)
    ensures AddBuckets(BucketsOf(xs, bounds), BucketsOf(ys, bounds)) == BucketsOf(xs + ys, bounds)
  {
    forall i: nat ensures CountIn(xs + ys, bounds, i) == CountIn(xs, bounds, i) + CountIn(ys, bounds, i) {
      CountsAppend(xs, ys, bounds, i, 0.0);
    }
  }

  lemma {:induction false} SumsSplit(ps: seq<DataPoint>, qs: seq<DataPoint>)
    ensures AnySum(ps + qs) <==> AnySum(ps) || AnySum(qs)
    ensures !AnySum(ps) ==> Gather(ps, Sums) == []
  {
    if AnySum(ps) { var i :| 0 <= i < |ps| && ps[i].hasSum; assert (ps + qs)[i].hasSum; }
    if AnySum(qs) { var i :| 0 <= i < |qs| && qs[i].hasSum; assert (ps + qs)[|ps| + i].hasSum; }
    NoSums(ps);
  }

  lemma {:induction false} NoSums(ps: seq<DataPoint>)
    ensures !AnySum(ps) ==> Gather(ps, Sums) == []
  {
    if ps != [] && !AnySum(ps) {
      NoSums(ps[1..]);
    }
  }

  /** Merging two aggregates is aggregating the data points of both together. */
  lemma {:induction false} UnionMerged(ps: seq<DataPoint>, qs: seq<DataPoint>, bounds: seq<real>)
    ensures Merged(Of(ps, bounds), Of(qs, bounds)) == Of(ps + qs, bounds)
  {
    hide MinOf, MaxOf, AnySum, BucketsOf, Gather, TotalOf;
    forall w: Which ensures Gather(ps + qs, w) == Gather(ps, w) + Gather(qs, w) { GatherAppend(ps, qs, w); }
    ExtremesSplit(Gather(ps, Mins), Gather(qs, Mins));
    ExtremesSplit(Gather(ps, Maxes), Gather(qs, Maxes));
    TotalSplits(Gather(ps, Sums), Gather(qs, Sums));
    SumsSplit(ps, qs);
    SumsSplit(qs, ps);
    EmptyTotal();
    BucketsSplit(Gather(ps, All), Gather(qs, All), bounds);
    Widths(Gather(ps, All), bounds);
    Widths(Gather(qs, All), bounds);
  }

  lemma {:induction false} EmptyTotal()
    ensures TotalOf([]) == 0.0
  {}

  lemma {:induction false} Widths(obs: seq<real>, bounds: seq<real>)
    ensures |BucketsOf(obs, bounds)| == |bounds| + 1
  {}

  // ---- Order does not matter ----

  /** F turns appending into merging. */
  ghost predicate Additive<T(!new)>(F: seq<T> -> Agg, n: nat) {
    && (forall a :: |F(a).buckets| == n)
    && (forall a, b :: F(a + b) == Merged(F(a), F(b)))
  }

  lemma {:induction false} MovedFirst<T(!new)>(F: seq<T> -> Agg, n: nat, xs: seq<T>, j: nat)
    requires Additive(F, n) && j < |xs|
    ensures F(xs) == F([xs[j]] + (xs[..j] + xs[j + 1..]))
  {
    hide Merged;
    var a, x, b := xs[..j], [xs[j]], xs[j + 1..];
    assert xs == (a + x) + b && x + (a + b) == (x + a) + b;
    assert F(a + x) == Merged(F(a), F(x)) && F(x + a) == Merged(F(x), F(a));
    assert F((a + x) + b) == Merged(F(a + x), F(b)) && F((x + a) + b) == Merged(F(x + a), F(b));
    MergedCommutes(F(a), F(x));
  }

  lemma {:induction false} WithoutFirst<T(!new)>(xs: seq<T>, ys: seq<T>, j: nat)
    requires xs != [] && j < |ys| && ys[j] == xs[0] && multiset(xs) == multiset(ys)
    ensures multiset(xs[1..]) == multiset(ys[..j] + ys[j + 1..])
  {
    assert xs == xs[..0] + [xs[0]] + xs[1..] && xs[..0] + xs[1..] == xs[1..];
    WithoutOne(xs, 0);
    WithoutOne(ys, j);
  }

  lemma {:induction false} WithoutOne<T(!new)>(xs: seq<T>, j: nat)
    requires j < |xs|
    ensures multiset(xs[..j] + xs[j + 1..]) == multiset(xs) - multiset{xs[j]}
  {
    var a, b := xs[..j], xs[j + 1..];
    assert xs == a + [xs[j]] + b;
    assert multiset(a + [xs[j]] + b) == multiset(a) + multiset{xs[j]} + multiset(b);
    assert multiset(a + b) == multiset(a) + multiset(b);
  }

  lemma {:induction false} AnyOrder<T(!new)>(F: seq<T> -> Agg, n: nat, xs: seq<T>, ys: seq<T>)
    requires Additive(F, n) && multiset(xs) == multiset(ys)
    ensures F(xs) == F(ys)
  {
    hide Merged;
    assert |xs| == |multiset(xs)| == |multiset(ys)| == |ys|;
    if xs == [] {
      assert ys == [];
    } else {
      assert xs[0] in multiset(ys);
      var j :| 0 <= j < |ys| && ys[j] == xs[0];
      var rest := ys[..j] + ys[j + 1..];
      WithoutFirst(xs, ys, j);
      AnyOrder(F, n, xs[1..], rest);
      assert xs == [xs[0]] + xs[1..];
      assert F([xs[0]] + xs[1..]) == Merged(F([xs[0]]), F(xs[1..]));
      assert F([xs[0]] + rest) == Merged(F([xs[0]]), F(rest));
      MovedFirst(F, n, ys, j);
    }
  }

  /** An aggregate depends only on which data points there are. */
  lemma {:induction false} OrderIrrelevant(ps: seq<DataPoint>, qs: seq<DataPoint>, bounds: seq<real>)
    requires multiset(ps) == multiset(qs)
    ensures Of(ps, bounds) == Of(qs, bounds)
  {
    var F := (a: seq<DataPoint>) => Of(a, bounds);
    assert Additive(F, |bounds| + 1) by {
      forall a ensures |F(a).buckets| == |bounds| + 1 { Widths(Gather(a, All), bounds); }
      forall a, b ensures F(a + b) == Merged(F(a), F(b)) { UnionMerged(a, b, bounds); }
    }
    hide Of;
    AnyOrder(F, |bounds| + 1, ps, qs);
  }

  lemma {:induction false} SoleGather(p: DataPoint, w: Which)
    ensures Gather([p], w) == if Reports(p, w) then p.obs else []
  {
    assert [p][1..] == [];
  }

  /** And within a data point only on which observations. */
  lemma {:induction false} ObservationOrderIrrelevant(p: DataPoint, xs: seq<real>, bounds: seq<real>)
    requires multiset(p.obs) == multiset(xs)
    ensures Of([p], bounds) == Of([p.(obs := xs)], bounds)
  {
    hide MinOf, MaxOf, BucketsOf, Gather, TotalOf;
    var F := (obs: seq<real>) => Agg(|obs|, 0, Some(TotalOf(obs)), MinOf(obs), MaxOf(obs), BucketsOf(obs, bounds));
    assert Additive(F, |bounds| + 1) by {
      forall a: seq<real> ensures |F(a).buckets| == |bounds| + 1 { Widths(a, bounds); }
      forall a: seq<real>, b ensures F(a + b) == Merged(F(a), F(b)) {
        Widths(a, bounds);
        Widths(b, bounds);
        TotalSplits(a, b);
        ExtremesSplit(a, b);
        BucketsSplit(a, b, bounds);
      }
    }
    AnyOrder(F, |bounds| + 1, p.obs, xs);
    var q := p.(obs := xs);
    forall w: Which ensures Gather([p], w) == (if Reports(p, w) then p.obs else []) && Gather([q], w) == if Reports(p, w) then xs else [] {
      SoleGather(p, w);
      SoleGather(q, w);
    }
    assert AnySum([p]) <==> AnySum([q]) by { assert [p][0] == p && [q][0] == q; }
  }

  // ---- Merging the rows of a query ----

  function Flatten(rows: seq<seq<DataPoint>>): seq<DataPoint> {
    if rows == [] then [] else Flatten(rows[..|rows| - 1]) + rows[|rows| - 1]
  }

  function AggsOf(rows: seq<seq<DataPoint>>, bounds: seq<real>): (r: seq<Agg>)
    ensures Wide(r, |bounds| + 1)
  {
    seq(|rows|, i requires 0 <= i < |rows| => Of(rows[i], bounds))
  }

  lemma {:induction false} MergedInOrder(rows: seq<seq<DataPoint>>, bounds: seq<real>)
    ensures MergeAll(AggsOf(rows, bounds), |bounds| + 1) == Of(Flatten(rows), bounds)
  {
    var n := |bounds| + 1;
    if rows == [] {
      assert Zero(n) == Of([], bounds);
    } else {
      var init, last := rows[..|rows| - 1], rows[|rows| - 1];
      MergedInOrder(init, bounds);
      var aggs := AggsOf(rows, bounds);
      assert aggs[..|aggs| - 1] == AggsOf(init, bounds);
      assert aggs[|aggs| - 1] == Of(last, bounds);
      hide Of, Merged, AggsOf;
      UnionMerged(Flatten(init), last, bounds);
    }
  }

  /** Merging any rows in any order is aggregating the union of their data points, listed in
      any order. */
  lemma {:induction false} MergedIsUnion(rows: seq<seq<DataPoint>>, ps: seq<DataPoint>, bounds: seq<real>)
    requires multiset(ps) == multiset(Flatten(rows))
    ensures MergeAll(AggsOf(rows, bounds), |bounds| + 1) == Of(ps, bounds)
  {
    hide Of, AggsOf;
    MergedInOrder(rows, bounds);
    OrderIrrelevant(ps, Flatten(rows), bounds);
  }

  // ---- valueAgg.stats ----

  /** HitRate, nil without values. */
  function HitRate(a: Agg): Option<real>
    requires |a.buckets| >= 1
  {
    if a.count > 0 then Some(1.0 - a.buckets[0] as real / a.count as real) else None
  }

  function CountAbove(obs: seq<real>, t: real): nat {
    if obs == [] then 0 else CountAbove(obs[1..], t) + if obs[0] > t then 1 else 0
  }

  lemma {:induction false} AboveOrUpTo(obs: seq<real>, t: real)
    ensures CountAbove(obs, t) + CountUpTo(obs, t) == |obs|
  {
    if obs != [] { AboveOrUpTo(obs[1..], t); }
  }

  lemma {:induction false} ShareOfRest(part: nat, rest: nat)
    requires part + rest > 0
    ensures 1.0 - part as real / (part + rest) as real == rest as real / (part + rest) as real
  {
    var n := (part + rest) as real;
    assert n / n == 1.0;
    assert (part as real + rest as real) / n == part as real / n + rest as real / n;
  }

  /** With a first bound of 0 the hit rate is exactly the share of values above zero. */
  lemma {:induction false} HitRateExact(ps: seq<DataPoint>, bounds: seq<real>)
    requires |bounds| >= 1 && bounds[0] == 0.0
    ensures var obs := Gather(ps, All);
            HitRate(Of(ps, bounds)) == if obs == [] then None else Some(CountAbove(obs, 0.0) as real / |obs| as real)
  {
    hide MinOf, MaxOf, TotalOf, Gather, AnySum;
    var obs := Gather(ps, All);
    if obs != [] {
      UpToFirst(obs, bounds);
      AboveOrUpTo(obs, 0.0);
      ShareOfRest(CountUpTo(obs, 0.0), CountAbove(obs, 0.0));
    }
  }
}
