/** Accepting a histogram data point and storing its counts (internal/otlp/metrics.go and
    clamp.go), with the machine's 64-bit integers. */
module HistogramIngest {
  import opened Prelude

  const TWO64 := 0x1_0000_0000_0000_0000
  const MAX_INT64 := 0x7fff_ffff_ffff_ffff

  type Uint64 = x: int | 0 <= x < TWO64

  /** Unsigned addition, which wraps. */
  function WrapAdd(a: Uint64, b: Uint64): Uint64 { (a + b) % TWO64 }

  /** clampInt64 */
  function ClampInt64(n: Uint64): int { if n > MAX_INT64 then MAX_INT64 else n }

  datatype Float = Finite(r: real) | PosInf | NegInf | NaN

  /** IEEE equality: nothing equals NaN. */
  predicate FloatEq(a: Float, b: Float) { !a.NaN? && a == b }

  /** IEEE comparison with zero: NaN is not above it. */
  predicate NotNegative(v: Float) { v.PosInf? || (v.Finite? && v.r >= 0.0) }

  /** validDuration */
  predicate ValidDuration(v: Float) { NotNegative(v) && !v.PosInf? }

  datatype DataPoint = DataPoint(bounds: seq<Float>, counts: seq<Uint64>, count: Uint64, sum: Option<Float>, min: Option<Float>, max: Option<Float>)

  datatype Verdict = Accepted | WrongBounds | WrongBuckets | CountsOverflow | CountMismatch | BadValue

  /** The sum of counts as a number. */
  function SumOf(counts: seq<nat>): nat {
    if counts == [] then 0 else SumOf(counts[..|counts| - 1]) + counts[|counts| - 1]
  }

  predicate SameBounds(declared: seq<Float>, bounds: seq<Float>) {
    |bounds| == |declared| && forall i :: 0 <= i < |declared| ==> FloatEq(bounds[i], declared[i])
  }

  predicate ValidIfSet(v: Option<Float>) { v.Some? ==> ValidDuration(v.value) }

  /** What the checks mean, in numbers that do not wrap. */
  function Judge(declared: seq<Float>, dp: DataPoint): Verdict {
    if declared == [] then Accepted
    else if !SameBounds(declared, dp.bounds) then WrongBounds
    else if |dp.counts| != |declared| + 1 then WrongBuckets
    else if SumOf(dp.counts) >= TWO64 then CountsOverflow
    else if SumOf(dp.counts) != dp.count then CountMismatch
    else if !(ValidIfSet(dp.sum) && ValidIfSet(dp.min) && ValidIfSet(dp.max)) then BadValue
    else Accepted
  }

  lemma {:induction false} SumOfPrefix(counts: seq<Uint64>, i: nat)
    requires i <= |counts|
    ensures SumOf(counts[..i]) <= SumOf(counts)
  {
    if i == |counts| {
      assert counts[..i] == counts;
    } else {
      var init := counts[..|counts| - 1];
      SumOfPrefix(init, i);
      assert init[..i] == counts[..i];
    }
  }

  /** checkHistogramPoint: the wrap-around test finds exactly the sums past 64 bits. */
  method CheckHistogramPoint(declared: seq<Float>, dp: DataPoint) returns (v: Verdict)
    ensures v == Judge(declared, dp)
  {
    hide ValidIfSet;
    if |declared| == 0 { return Accepted; }
    if |dp.bounds| != |declared| { return WrongBounds; }
    for i := 0 to |declared|
      invariant forall j :: 0 <= j < i ==> FloatEq(dp.bounds[j], declared[j])
    {
      if !FloatEq(dp.bounds[i], declared[i]) { return WrongBounds; }
    }
    if |dp.counts| != |declared| + 1 { return WrongBuckets; }
    var total: Uint64 := 0;
    for i := 0 to |dp.counts|
      invariant total == SumOf(dp.counts[..i])
    {
      var c := dp.counts[i];
      assert dp.counts[..i + 1][..i] == dp.counts[..i];
      SumOfPrefix(dp.counts, i + 1);
      if WrapAdd(total, c) < total { return CountsOverflow; }
      total := WrapAdd(total, c);
    }
    assert dp.counts[..|dp.counts|] == dp.counts;
    if total != dp.count { return CountMismatch; }
    if !(ValidIfSet(dp.sum) && ValidIfSet(dp.min) && ValidIfSet(dp.max)) { return BadValue; }
    return Accepted;
  }

  ghost predicate FiniteIfSet(v: Option<Float>) { v.Some? ==> v.value.Finite? && v.value.r >= 0.0 }

  /** Without declared bounds every point is accepted. With them, exactly if it has those bounds, a count for every
      bucket, a count that is their sum, and no sum, minimum or maximum that is negative or not a
      number; its counts overflow exactly if, being so shaped, they pass 64 bits. */
  lemma {:induction false} AcceptedExactly(declared: seq<Float>, dp: DataPoint)
    ensures declared == [] ==> Judge(declared, dp) == Accepted
    ensures declared != [] ==>
            var shaped := |dp.bounds| == |declared| == |dp.counts| - 1 && forall i :: 0 <= i < |declared| ==> dp.bounds[i] == declared[i] != NaN;
            && (Judge(declared, dp) == Accepted <==>
                  shaped && SumOf(dp.counts) == dp.count && FiniteIfSet(dp.sum) && FiniteIfSet(dp.min) && FiniteIfSet(dp.max))
            && (Judge(declared, dp) == CountsOverflow <==> shaped && SumOf(dp.counts) >= 0x1_0000_0000_0000_0000)
  {
    hide SumOf;
  }

  /** The stored bucket counts of processHistogramDataPoint. */
  function Stored(counts: seq<Uint64>): seq<nat> {
    seq(|counts|, i requires 0 <= i < |counts| => ClampInt64(counts[i]))
  }

  lemma {:induction false} StoredLast(counts: seq<Uint64>)
    requires counts != []
    ensures SumOf(Stored(counts)) == SumOf(Stored(counts[..|counts| - 1])) + ClampInt64(counts[|counts| - 1])
  {
    assert Stored(counts)[..|counts| - 1] == Stored(counts[..|counts| - 1]);
  }

  /** Clamping loses nothing exactly when no bucket is over the limit. */
  lemma {:induction false} StoredTotal(counts: seq<Uint64>)
    ensures SumOf(Stored(counts)) <= SumOf(counts)
    ensures SumOf(Stored(counts)) == SumOf(counts) <==> Within(counts)
    ensures SumOf(counts) > MAX_INT64 ==> SumOf(Stored(counts)) >= MAX_INT64
    ensures SumOf(counts) <= MAX_INT64 ==> SumOf(Stored(counts)) == SumOf(counts)
  {
    if counts != [] {
      hide Within;
      StoredTotal(counts[..|counts| - 1]);
      StoredLast(counts);
      WithinInit(counts);
    }
  }

  ghost predicate Within(counts: seq<Uint64>) { forall i :: 0 <= i < |counts| ==> counts[i] <= MAX_INT64 }

  lemma {:induction false} WithinInit(counts: seq<Uint64>)
    requires counts != []
    ensures Within(counts) <==> Within(counts[..|counts| - 1]) && counts[|counts| - 1] <= MAX_INT64
  {
    var init := counts[..|counts| - 1];
    assert forall i :: 0 <= i < |init| ==> init[i] == counts[i];
  }

  ghost predicate OneBucket(counts: seq<Uint64>) {
    exists i :: 0 <= i < |counts| && counts[i] == SumOf(counts)
  }

  lemma {:induction false} BucketBelowSum(counts: seq<Uint64>, i: nat)
    requires i < |counts|
    ensures counts[i] <= SumOf(counts)
  {
    if i < |counts| - 1 { BucketBelowSum(counts[..|counts| - 1], i); }
  }

  /** Past the limit, the clamped counts add up to the clamped total only if one bucket holds
      everything. */
  lemma {:induction false} OverLimit(counts: seq<Uint64>)
    requires SumOf(counts) > MAX_INT64
    ensures SumOf(Stored(counts)) == MAX_INT64 <==> OneBucket(counts)
  {
    hide Stored;
    var init, c := counts[..|counts| - 1], counts[|counts| - 1];
    StoredLast(counts);
    StoredTotal(init);
    if c == 0 {
      OverLimit(init);
      OneBucketInit(counts);
    } else if SumOf(init) == 0 {
      assert counts[|counts| - 1] == SumOf(counts);
    } else {
      assert SumOf(Stored(counts)) != MAX_INT64 by { BothPositive(init, c); }
      forall i | 0 <= i < |counts| ensures counts[i] != SumOf(counts) {
        if i < |init| { BucketBelowSum(init, i); }
      }
    }
  }

  lemma {:induction false} OneBucketInit(counts: seq<Uint64>)
    requires counts != [] && counts[|counts| - 1] == 0 && SumOf(counts) > 0
    ensures OneBucket(counts) <==> OneBucket(counts[..|counts| - 1])
  {
    var init := counts[..|counts| - 1];
    if OneBucket(counts) {
      var i :| 0 <= i < |counts| && counts[i] == SumOf(counts);
      assert init[i] == SumOf(init);
    }
    if OneBucket(init) {
      var i :| 0 <= i < |init| && init[i] == SumOf(init);
      assert counts[i] == SumOf(counts);
    }
  }

  lemma {:induction false} BothPositive(init: seq<Uint64>, c: Uint64)
    requires SumOf(init) > 0 && c > 0 && SumOf(init) + c > MAX_INT64
    ensures SumOf(Stored(init)) + ClampInt64(c) > MAX_INT64
  {
    hide Stored;
    StoredTotal(init);
  }

  /** For an accepted point, the stored buckets add up to the stored count exactly when the
      count fits, or one bucket holds all of it. */
  lemma {:induction false} StoredAddUp(declared: seq<Float>, dp: DataPoint)
    requires declared != [] && Judge(declared, dp) == Accepted
    ensures SumOf(dp.counts) == dp.count
    ensures SumOf(Stored(dp.counts)) == ClampInt64(dp.count) <==> dp.count <= MAX_INT64 || OneBucket(dp.counts)
  {
    StoredTotal(dp.counts);
    if dp.count > MAX_INT64 { OverLimit(dp.counts); }
  }
}
