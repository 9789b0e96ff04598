/** What a merged aggregate's quantile estimate says about the observations behind it
    (internal/storage/query_measures.go and query_values.go): every data point may leave out
    its minimum and maximum, and the merge then knows those of the others only. */
module MergedQuantiles {
  import opened Prelude
  import opened Quantile
  import opened QuantileBounds
  import opened ReportedBounds
  import opened Aggregates

  ghost predicate Increasing(bounds: seq<real>) { |bounds| >= 1 && forall i, j :: 0 <= i < j < |bounds| ==> bounds[i] < bounds[j] }

  function HistOf(a: Agg, bounds: seq<real>): Hist { Hist(bounds, a.buckets, a.min, a.max) }

  /** Every point with observations reports both extremes. */
  ghost predicate AllReport(ps: seq<DataPoint>) {
    forall i :: 0 <= i < |ps| && ps[i].obs != [] ==> ps[i].hasMin && ps[i].hasMax
  }

  lemma {:induction false} GatherWithin(ps: seq<DataPoint>, w: Which)
    ensures forall x :: x in Gather(ps, w) ==> x in Gather(ps, All)
    ensures AllReport(ps) && (w.Mins? || w.Maxes?) ==> Gather(ps, w) == Gather(ps, All)
  {
    if ps != [] {
      GatherWithin(ps[1..], w);
      assert AllReport(ps) ==> AllReport(ps[1..]);
    }
  }

  /** The merged counts are behind all observations; the merged extremes are observations, and
      exact where every point reports. */
  lemma {:induction false} MergedHolds(ps: seq<DataPoint>, bounds: seq<real>)
    requires Increasing(bounds)
    ensures Holds(HistOf(Of(ps, bounds), bounds), Gather(ps, All))
    ensures AllReport(ps) ==> Fits(HistOf(Of(ps, bounds), bounds), Gather(ps, All))
  {
    hide MinOf, MaxOf, Gather, AnySum, CountIn;
    GatherWithin(ps, Mins);
    GatherWithin(ps, Maxes);
    var a := Of(ps, bounds);
    assert forall i :: 0 <= i < |a.buckets| ==> a.buckets[i] == CountIn(Gather(ps, All), bounds, i);
  }

  /** No observation is below the floor, if the caller knows one. */
  ghost predicate AtLeast(ps: seq<DataPoint>, floor: Option<real>) {
    floor.Some? ==> forall z :: z in Gather(ps, All) ==> floor.value <= z
  }

  ghost function MergedHist(rows: seq<seq<DataPoint>>, bounds: seq<real>): Hist {
    HistOf(MergeAll(AggsOf(rows, bounds), |bounds| + 1), bounds)
  }

  /** For all observations behind merged rows: where every point reports its extremes the
      estimate is within its bucket's width of the observation it stands for; and reported or
      not, that observation is between the least and the greatest it can be by what is stored,
      and the width bounds the error if clamping leaves the estimate in its bucket and the
      observation does not lie past the bucket's open end. */
  lemma {:induction false} MergedQuantile(rows: seq<seq<DataPoint>>, ps: seq<DataPoint>, bounds: seq<real>, floor: Option<real>, rank: real, i: nat, k: int, x: real)
    requires Increasing(bounds) && multiset(ps) == multiset(Flatten(rows)) && AtLeast(ps, floor) && KthSmallest(Gather(ps, All), k, x)
    requires Asked(MergedHist(rows, bounds), rank, i, k)
    ensures var h := MergedHist(rows, bounds);
            && i <= |bounds| && Reaches(h, i, k)
            && (AllReport(ps) ==> -Width(h, i) <= Est(h, rank, i) - x <= Width(h, i))
            && (LeastAsked(h, floor, i, k).Some? ==> LeastAsked(h, floor, i, k).value <= x)
            && (GreatestAsked(h, i, k).Some? ==> x <= GreatestAsked(h, i, k).value)
            && (Stays(h, i) && (i == 0 ==> Lo(h, i) <= x) && (i == |bounds| ==> x <= Hi(h, i)) ==>
                  -(Hi(h, i) - Lo(h, i)) <= Est(h, rank, i) - x <= Hi(h, i) - Lo(h, i))
  {
    hide Of, AggsOf, Est, KthSmallest, Width, Stays, Lo, Hi, Picked, Gather, AllReport, LeastAsked, GreatestAsked, Reaches;
    MergedIsUnion(rows, ps, bounds);
    MergedHolds(ps, bounds);
    var h, obs := HistOf(Of(ps, bounds), bounds), Gather(ps, All);
    RankWithin(h, rank, i, k);
    WithinRange(h, floor, obs, rank, i, k, x);
    if AllReport(ps) {
      AllKnown(ps, bounds, k, x, i);
      KnownWithin(h, obs, rank, i, k, x);
    }
    if Stays(h, i) && (i == 0 ==> Lo(h, i) <= x) && (i == |bounds| ==> x <= Hi(h, i)) {
      InsideWithin(h, obs, rank, i, k, x);
    }
  }

  lemma {:induction false} AllKnown(ps: seq<DataPoint>, bounds: seq<real>, k: int, x: real, i: nat)
    requires Increasing(bounds) && AllReport(ps) && KthSmallest(Gather(ps, All), k, x) && i <= |bounds|
    ensures Known(HistOf(Of(ps, bounds), bounds), i, k)
  {
    hide Gather, CountIn, CountUpTo, CountBelow, MinOf, MaxOf;
    GatherWithin(ps, Mins);
    GatherWithin(ps, Maxes);
    Widths(Gather(ps, All), bounds);
  }

  // ---- Every list of observations that holds the extremes is some data points' ----

  /** One data point per observation; the extremes are reported by the points that have them. */
  function Singles(obs: seq<real>, min: Option<real>, max: Option<real>): seq<DataPoint> {
    if obs == [] then [] else [DataPoint([obs[0]], false, min.Some? && min.value == obs[0], max.Some? && max.value == obs[0])] + Singles(obs[1..], min, max)
  }

  lemma {:induction false} SinglesGather(obs: seq<real>, min: Option<real>, max: Option<real>)
    ensures Gather(Singles(obs, min, max), All) == obs
    ensures forall x :: x in Gather(Singles(obs, min, max), Mins) <==> x in obs && min.Some? && min.value == x
    ensures forall x :: x in Gather(Singles(obs, min, max), Maxes) <==> x in obs && max.Some? && max.value == x
  {
    if obs != [] {
      var ps := Singles(obs, min, max);
      assert obs == [obs[0]] + obs[1..] && ps[1..] == Singles(obs[1..], min, max);
      SinglesGather(obs[1..], min, max);
    }
  }

  /** So statements about all observations a merged histogram may stand for are about exactly
      the data points that merge to the same. */
  lemma {:induction false} Realised(h: Hist, floor: Option<real>, obs: seq<real>)
    requires Possible(h, floor, obs)
    ensures var ps := Singles(obs, h.min, h.max);
            Gather(ps, All) == obs && AtLeast(ps, floor) && HistOf(Of(ps, h.bounds), h.bounds) == h
  {
    hide Gather, MinOf, MaxOf, CountIn, AnySum;
    SinglesGather(obs, h.min, h.max);
    var ps := Singles(obs, h.min, h.max);
    assert Of(ps, h.bounds).buckets == h.counts;
    assert h.min.Some? ==> h.min.value in Gather(ps, Mins);
    assert h.max.Some? ==> h.max.value in Gather(ps, Maxes);
  }

  /** Merged rows, in every bucket and for every d: the error is at most d for all data points
      that merge to the same exactly when the estimate is within d of the least and of the
      greatest the asked observation can be. */
  lemma {:induction false} MergedExactly(rows: seq<seq<DataPoint>>, bounds: seq<real>, floor: Option<real>, rank: real, i: nat, k: int, d: real)
    requires Increasing(bounds) && AtLeast(Flatten(rows), floor) && Asked(MergedHist(rows, bounds), rank, i, k)
    ensures var h := MergedHist(rows, bounds);
            Reaches(h, i, k) && (ErrorWithin(h, floor, rank, i, k, d) <==> EndsWithin(h, floor, rank, i, k, d))
  {
    hide Of, AggsOf, Asked, Gather, Holds, ErrorWithin, EndsWithin, Reaches;
    MergedInOrder(rows, bounds);
    MergedHolds(Flatten(rows), bounds);
    ReportedExactly(HistOf(Of(Flatten(rows), bounds), bounds), floor, Gather(Flatten(rows), All), rank, i, k, d);
  }

  /** Any bound at all holds for them exactly when the bucket is closed on both sides for the
      asked rank. */
  lemma {:induction false} MergedOpenEnd(rows: seq<seq<DataPoint>>, bounds: seq<real>, floor: Option<real>, rank: real, i: nat, k: int)
    requires Increasing(bounds) && AtLeast(Flatten(rows), floor) && Asked(MergedHist(rows, bounds), rank, i, k)
    ensures var h := MergedHist(rows, bounds);
            Reaches(h, i, k) && ((exists d :: ErrorWithin(h, floor, rank, i, k, d)) <==> LeastAsked(h, floor, i, k).Some? && GreatestAsked(h, i, k).Some?)
  {
    hide Of, AggsOf, Asked, Gather, Holds, ErrorWithin, LeastAsked, GreatestAsked, Reaches;
    MergedInOrder(rows, bounds);
    MergedHolds(Flatten(rows), bounds);
    OpenEndExactly(HistOf(Of(Flatten(rows), bounds), bounds), floor, Gather(Flatten(rows), All), rank, i, k);
  }

  // ---- An input on which it leaves its bucket ----

  lemma {:induction false} SoleOf(p: DataPoint, bounds: seq<real>, counts: seq<nat>, i: nat)
    requires Shaped(bounds, counts) && i <= |bounds| && forall x :: x in p.obs ==> InBucket(bounds, i, x)
    ensures var a := Of([p], bounds);
            && a.min == (if p.hasMin then MinOf(p.obs) else None) && a.max == (if p.hasMax then MaxOf(p.obs) else None)
            && |a.buckets| == |bounds| + 1 && forall j :: 0 <= j <= |bounds| ==> a.buckets[j] == if j == i then |p.obs| else 0
  {
    hide InBucket, CountIn, MinOf, MaxOf, Gather;
    forall w: Which ensures Gather([p], w) == if Reports(p, w) then p.obs else [] { SoleGather(p, w); }
    forall j | 0 <= j <= |bounds| ensures CountIn(p.obs, bounds, j) == if j == i then |p.obs| else 0 {
      AllInBucket(p.obs, bounds, counts, i, j);
    }
  }

  /** Three observations of 1 whose point reports no minimum, and one of 7 whose point does:
      the merged minimum is 7, and the median is estimated as 7. */
  lemma {:induction false} PartlyReportedMedian()
    ensures var rows, bounds := [[DataPoint([1.0, 1.0, 1.0], false, false, false)], [DataPoint([7.0], false, true, true)]], [1.0, 5.0];
            var a := MergeAll(AggsOf(rows, bounds), 3);
            && a.buckets == [3, 0, 1] && a.min == a.max == Some(7.0)
            && Shaped(bounds, [3, 0, 1]) && Picked([3, 0, 1], 2.0, 0) && Estimate(bounds, [3, 0, 1], Some(7.0), Some(7.0), 2.0, 0) == 7.0
            && KthSmallest(Gather(Flatten(rows), All), 2, 1.0) && !Stays(HistOf(a, bounds), 0)
  {
    var p, q := DataPoint([1.0, 1.0, 1.0], false, false, false), DataPoint([7.0], false, true, true);
    var rows, bounds := [[p], [q]], [1.0, 5.0];
    hide Of, MinOf, MaxOf, Gather, Estimate, KthSmallest, CountIn;
    TwoRows(p, q, bounds);
    SoleOf(p, bounds, [0, 0, 0], 0);
    SoleOf(q, bounds, [0, 0, 0], 2);
    var a := Merged(Of([p], bounds), Of([q], bounds));
    assert MinOf([7.0]) == Some(7.0) == MaxOf([7.0]);
    assert a.buckets == [3, 0, 1];
    SevenEstimated();
    SoleGather(p, All);
    SoleGather(q, All);
    GatherAppend([p], [q], All);
    RepeatedFirst(1.0, 3, [7.0], 2);
    assert Repeat(1.0, 3) + [7.0] == [1.0, 1.0, 1.0] + [7.0];
    assert KthSmallest([1.0, 1.0, 1.0] + [7.0], 2, 1.0) by { RankIs([1.0, 1.0, 1.0] + [7.0], 2, 1.0); }
  }

  lemma {:induction false} TwoRows(p: DataPoint, q: DataPoint, bounds: seq<real>)
    ensures Flatten([[p], [q]]) == [p] + [q]
    ensures MergeAll(AggsOf([[p], [q]], bounds), |bounds| + 1) == Merged(Of([p], bounds), Of([q], bounds))
  {
    hide Of, Merged;
    var rows := [[p], [q]];
    assert rows[..1] == [[p]] && [[p]][..0] == [];
    assert Flatten([[p]]) == Flatten([[p]][..0]) + [p];
    assert Flatten(rows) == Flatten(rows[..1]) + [q];
    MergedInOrder(rows, bounds);
    UnionMerged([p], [q], bounds);
  }

  lemma {:induction false} SevenEstimated()
    ensures Shaped([1.0, 5.0], [3, 0, 1]) && Picked([3, 0, 1], 2.0, 0)
    ensures Estimate([1.0, 5.0], [3, 0, 1], Some(7.0), Some(7.0), 2.0, 0) == 7.0
  {
    hide Interpolate;
    assert Cum([3, 0, 1], 1) == Cum([3, 0, 1], 0) + 3;
    InterpolateBetween([1.0, 5.0], [3, 0, 1], Some(7.0), Some(7.0), 2.0, 0);
  }
}
