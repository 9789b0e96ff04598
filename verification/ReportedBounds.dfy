/** Exactly when histQuantile's estimate is close to the observation it stands for, with
    extremes that only some data points reported: such a minimum or maximum is the value of
    some observation and need not bound the others. */
module ReportedBounds {
  import opened Prelude
  import opened Quantile
  import opened QuantileBounds

  /** The reported extremes are values of some observations, and need not bound the others. */
  ghost predicate Holds(h: Hist, obs: seq<real>) {
    && Behind(obs, h.bounds, h.counts)
    && (h.min.Some? ==> h.min.value in obs) && (h.max.Some? ==> h.max.value in obs)
  }

  ghost function Lo(h: Hist, i: nat): real
    requires 1 <= |h.bounds| && i <= |h.bounds|
  {
    Lower(h.bounds, h.min, i)
  }

  ghost function Hi(h: Hist, i: nat): real
    requires 1 <= |h.bounds| && i <= |h.bounds|
  {
    Upper(h.bounds, h.min, h.max, i)
  }

  /** Clamping to the reported extremes does not take the estimate out of its bucket. */
  ghost predicate Stays(h: Hist, i: nat)
    requires 1 <= |h.bounds| && i <= |h.bounds|
  {
    && (h.max.Some? ==> Lo(h, i) <= h.max.value)
    && (h.min.Some? && Hi(h, i) < h.min.value ==> h.max.Some? && h.max.value <= Hi(h, i))
  }

  lemma {:induction false} StaysInside(h: Hist, rank: real, i: nat)
    requires Shaped(h.bounds, h.counts) && Picked(h.counts, rank, i)
    ensures Stays(h, i) <==> Lo(h, i) <= Est(h, rank, i) <= Hi(h, i)
    ensures Est(h, rank, i) < Lo(h, i) ==> h.max.Some? && h.max.value == Est(h, rank, i)
    ensures Est(h, rank, i) > Hi(h, i) ==> h.min.Some? && h.min.value > Hi(h, i) && (h.max.Some? ==> h.max.value > Hi(h, i))
    ensures Lo(h, i) <= Hi(h, i)
  {
    hide Interpolate, Lower, Upper;
    InterpolateBetween(h.bounds, h.counts, h.min, h.max, rank, i);
    LowerBelowUpper(h.bounds, h.counts, h.min, h.max, i);
  }

  /** If it stays, the width of the bucket, as the interpolation takes it, bounds the error for
      an observation that does not lie past the bucket's open end. */
  lemma {:induction false} InsideWithin(h: Hist, obs: seq<real>, rank: real, i: nat, k: int, x: real)
    requires Asked(h, rank, i, k) && Behind(obs, h.bounds, h.counts) && KthSmallest(obs, k, x) && i <= |h.bounds| && Stays(h, i)
    requires (i == 0 ==> Lo(h, i) <= x) && (i == |h.bounds| ==> x <= Hi(h, i))
    ensures Lo(h, i) <= x <= Hi(h, i)
    ensures -(Hi(h, i) - Lo(h, i)) <= Est(h, rank, i) - x <= Hi(h, i) - Lo(h, i)
  {
    hide Behind, KthSmallest, Picked, Est, Stays;
    StaysInside(h, rank, i);
    RankedInPicked(obs, h.bounds, h.counts, rank, i, k, x);
  }

  // ---- What the asked observation can be ----

  /** Observations the histogram may stand for, none of them below a floor the caller knows:
      0 for durations, or none. */
  ghost predicate Possible(h: Hist, floor: Option<real>, obs: seq<real>) {
    Holds(h, obs) && (floor.Some? ==> forall z :: z in obs ==> floor.value <= z)
  }

  /** The reported extremes that lie in bucket i, ascending. */
  function Pins(h: Hist, i: nat): seq<real> {
    var low := h.min.Some? && InBucket(h.bounds, i, h.min.value);
    var high := h.max.Some? && InBucket(h.bounds, i, h.max.value);
    if low && high && h.min.value < h.max.value then [h.min.value, h.max.value]
    else if low && high && h.max.value < h.min.value then [h.max.value, h.min.value]
    else if low then [h.min.value]
    else if high then [h.max.value]
    else []
  }

  /** The k-th smallest lies in bucket i. */
  predicate Reaches(h: Hist, i: nat, k: int) {
    Shaped(h.bounds, h.counts) && i < |h.counts| && Cum(h.counts, i) < k <= Cum(h.counts, i) + h.counts[i]
  }

  /** Where bucket i begins, its end excluded unless it is the floor; and where it ends. */
  function Foot(h: Hist, floor: Option<real>, i: nat): Option<real>
    requires i <= |h.bounds|
  {
    if floor.Some? && (i == 0 || h.bounds[i - 1] < floor.value) then floor
    else if i > 0 then Some(h.bounds[i - 1])
    else None
  }

  function Top(h: Hist, i: nat): Option<real>
    requires i <= |h.bounds|
  {
    if i < |h.bounds| then Some(h.bounds[i]) else None
  }

  /** The least and the greatest the asked observation can be: with all unreported
      observations of the bucket at its foot, or at its top. */
  function LeastAsked(h: Hist, floor: Option<real>, i: nat, k: int): Option<real>
    requires Reaches(h, i, k)
  {
    var pins := Pins(h, i);
    var r, free := k - Cum(h.counts, i), h.counts[i] - |pins|;
    if r <= free then Foot(h, floor, i) else Some(pins[r - free - 1])
  }

  function GreatestAsked(h: Hist, i: nat, k: int): Option<real>
    requires Reaches(h, i, k)
  {
    var pins, r := Pins(h, i), k - Cum(h.counts, i);
    if r > |pins| then Top(h, i) else Some(pins[r - 1])
  }

  // ---- It is never less or greater ----

  predicate Ascends(ps: seq<real>) { forall a, b :: 0 <= a < b < |ps| ==> ps[a] < ps[b] }

  /** Distinct values of observations between x and t make that many observations. */
  lemma {:induction false} DistinctBetween(obs: seq<real>, ps: seq<real>, x: real, t: real)
    requires Ascends(ps) && x <= t && forall p :: p in ps ==> p in obs && x < p <= t
    ensures CountUpTo(obs, x) + |ps| <= CountUpTo(obs, t)
  {
    if ps == [] {
      UpToMonotone(obs, x, t);
    } else {
      var init, last := ps[..|ps| - 1], ps[|ps| - 1];
      var y := if init == [] then x else init[|init| - 1];
      assert last in ps && (init != [] ==> y in ps && y < last);
      forall p | p in init ensures p in ps && p <= y {
        var a :| 0 <= a < |init| && init[a] == p;
        assert p == ps[a] && (a < |init| - 1 ==> ps[a] < ps[|init| - 1]);
      }
      DistinctBetween(obs, init, x, y);
      OneBetween(obs, last, y, t);
    }
  }

  lemma {:induction false} PinFacts(h: Hist, obs: seq<real>, i: nat)
    requires Holds(h, obs)
    ensures Ascends(Pins(h, i)) && forall p :: p in Pins(h, i) ==> p in obs && InBucket(h.bounds, i, p)
  {}

  lemma {:induction false} UpToInBucket(h: Hist, obs: seq<real>, i: nat, t: real)
    requires Behind(obs, h.bounds, h.counts) && i < |h.counts| && InBucket(h.bounds, i, t)
    ensures CountUpTo(obs, t) <= Cum(h.counts, i) + h.counts[i]
  {
    if i < |h.bounds| {
      CumIsUpTo(obs, h.bounds, h.counts, i);
      UpToMonotone(obs, t, h.bounds[i]);
    } else {
      TotalIsAll(obs, h.bounds, h.counts);
      UpToWithin(obs, t);
    }
  }

  lemma {:induction false} PinsFit(h: Hist, obs: seq<real>, i: nat)
    requires Holds(h, obs) && i < |h.counts|
    ensures |Pins(h, i)| <= h.counts[i]
  {
    hide Pins;
    var pins := Pins(h, i);
    PinFacts(h, obs, i);
    if pins != [] { PinsAbove(h, obs, i, |pins|); }
  }

  /** The first r pins are that many observations of the bucket. */
  lemma {:induction false} PinsAbove(h: Hist, obs: seq<real>, i: nat, r: nat)
    requires Holds(h, obs) && i < |h.counts| && 1 <= r <= |Pins(h, i)|
    ensures Cum(h.counts, i) + r <= CountUpTo(obs, Pins(h, i)[r - 1]) <= Cum(h.counts, i) + h.counts[i]
  {
    hide Pins;
    var pins := Pins(h, i);
    PinFacts(h, obs, i);
    BelowBucket(h, obs, i);
    UpToInBucket(h, obs, i, pins[r - 1]);
    var base := if i == 0 then pins[0] - 1.0 else h.bounds[i - 1];
    forall p | p in pins[..r] ensures p in pins && base < p <= pins[r - 1] {
      var a :| 0 <= a < r && pins[a] == p;
      assert pins[0] <= pins[a] <= pins[r - 1];
    }
    assert base <= pins[r - 1];
    DistinctBetween(obs, pins[..r], base, pins[r - 1]);
  }

  /** Pins above x leave that many fewer observations up to x. */
  lemma {:induction false} PinsBeyond(h: Hist, obs: seq<real>, i: nat, j: nat, x: real)
    requires Holds(h, obs) && i < |h.counts| && j < |Pins(h, i)| && x < Pins(h, i)[j]
    ensures CountUpTo(obs, x) + |Pins(h, i)| - j <= Cum(h.counts, i) + h.counts[i]
  {
    hide Pins;
    var pins := Pins(h, i);
    var last := pins[|pins| - 1];
    PinFacts(h, obs, i);
    forall p | p in pins[j..] ensures p in pins && x < p <= last {
      var a :| j <= a < |pins| && pins[a] == p;
      assert pins[j] <= pins[a] <= last;
    }
    assert x <= last;
    DistinctBetween(obs, pins[j..], x, last);
    UpToInBucket(h, obs, i, last);
  }

  lemma {:induction false} WithinRange(h: Hist, floor: Option<real>, obs: seq<real>, rank: real, i: nat, k: int, x: real)
    requires Asked(h, rank, i, k) && Possible(h, floor, obs) && KthSmallest(obs, k, x)
    ensures Reaches(h, i, k)
    ensures LeastAsked(h, floor, i, k).Some? ==> LeastAsked(h, floor, i, k).value <= x
    ensures GreatestAsked(h, i, k).Some? ==> x <= GreatestAsked(h, i, k).value
  {
    hide Pins, Picked;
    RankWithin(h, rank, i, k);
    RankedInPicked(obs, h.bounds, h.counts, rank, i, k, x);
    PinsFit(h, obs, i);
    var pins := Pins(h, i);
    var r, free := k - Cum(h.counts, i), h.counts[i] - |pins|;
    if r > free && x < pins[r - free - 1] { PinsBeyond(h, obs, i, r - free - 1, x); }
    if r <= |pins| && pins[r - 1] < x {
      PinsAbove(h, obs, i, r);
      UpToMonotone(obs, pins[r - 1], x);
    }
  }

  // ---- And it comes as close to them as one likes ----

  lemma {:induction false} BucketHas(obs: seq<real>, bounds: seq<real>, i: nat) returns (z: real)
    requires CountIn(obs, bounds, i) > 0
    ensures z in obs && InBucket(bounds, i, z)
  {
    assert obs == [obs[0]] + obs[1..];
    if InBucket(bounds, i, obs[0]) { z := obs[0]; } else { z := BucketHas(obs[1..], bounds, i); }
  }

  /** The bucket's reported observations, and all the others at y. */
  function Filling(h: Hist, i: nat, y: real): seq<real>
    requires i < |h.counts|
  {
    Repeat(y, if h.counts[i] < |Pins(h, i)| then 0 else h.counts[i] - |Pins(h, i)|) + Pins(h, i)
  }

  lemma {:induction false} Filled(h: Hist, floor: Option<real>, obs: seq<real>, i: nat, k: int, y: real, x: real) returns (new': seq<real>)
    requires Reaches(h, i, k) && Possible(h, floor, obs) && InBucket(h.bounds, i, y) && (floor.Some? ==> floor.value <= y)
    requires x in Filling(h, i, y) && CountBelow(Filling(h, i, y), x) < k - Cum(h.counts, i) <= CountUpTo(Filling(h, i, y), x)
    ensures Possible(h, floor, new') && KthSmallest(new', k, x)
  {
    hide Pins, CountIn, CountBelow, CountUpTo;
    var mid := Filling(h, i, y);
    PinFacts(h, obs, i);
    PinsFit(h, obs, i);
    PinsHold(h, i);
    Replaced(h, obs, i, mid, k, x);
    OutsideHas(obs, h.bounds, i);
    new' := Outside(obs, h.bounds, i) + mid;
  }

  lemma {:induction false} PinsHold(h: Hist, i: nat)
    ensures h.min.Some? && InBucket(h.bounds, i, h.min.value) ==> h.min.value in Pins(h, i)
    ensures h.max.Some? && InBucket(h.bounds, i, h.max.value) ==> h.max.value in Pins(h, i)
  {}

  lemma {:induction false} AscendingRanks(ps: seq<real>, j: nat)
    requires Ascends(ps) && j < |ps|
    ensures CountBelow(ps, ps[j]) == j && CountUpTo(ps, ps[j]) == j + 1
  {
    var rest := ps[1..];
    forall a, b | 0 <= a < b < |rest| ensures rest[a] < rest[b] { assert ps[a + 1] < ps[b + 1]; }
    if j == 0 {
      forall z | z in rest ensures ps[0] < z {
        var a :| 0 <= a < |rest| && rest[a] == z;
        assert ps[0] < ps[a + 1];
      }
      NoneUpTo(rest, ps[0]);
      NoneLess(rest, ps[0]);
    } else {
      AscendingRanks(rest, j - 1);
      assert ps[0] < ps[j];
    }
  }

  /** With the others at the first pin, or at the last. */
  lemma {:induction false} PinRanks(ps: seq<real>, n: nat, j: nat)
    requires Ascends(ps) && j < |ps|
    ensures CountBelow(Repeat(ps[0], n) + ps, ps[j]) < n + j + 1 <= CountUpTo(Repeat(ps[0], n) + ps, ps[j])
    ensures CountBelow(Repeat(ps[|ps| - 1], n) + ps, ps[j]) < j + 1 <= CountUpTo(Repeat(ps[|ps| - 1], n) + ps, ps[j])
    ensures ps[j] in Repeat(ps[0], n) + ps && ps[j] in Repeat(ps[|ps| - 1], n) + ps
  {
    var first, last := ps[0], ps[|ps| - 1];
    AscendingRanks(ps, j);
    CountsAppend(Repeat(first, n), ps, [], 0, ps[j]);
    CountsAppend(Repeat(last, n), ps, [], 0, ps[j]);
    RepeatCounts(first, n, ps[j]);
    RepeatCounts(last, n, ps[j]);
    assert first <= ps[j] <= last;
    assert (Repeat(first, n) + ps)[n + j] == ps[j] == (Repeat(last, n) + ps)[n + j];
  }

  function Between(lo: real, a: real, b: Option<real>, c: Option<real>): (y: real)
    requires lo < a && (b.Some? ==> lo < b.value) && (c.Some? ==> lo < c.value)
    ensures lo < y < a && (b.Some? ==> y < b.value) && (c.Some? ==> y < c.value)
  {
    var m := if b.Some? && b.value < a then b.value else a;
    var n := if c.Some? && c.value < m then c.value else m;
    (lo + n) / 2.0
  }

  function First(ps: seq<real>): Option<real> { if ps == [] then None else Some(ps[0]) }

  function Last(ps: seq<real>): Option<real> { if ps == [] then None else Some(ps[|ps| - 1]) }

  /** A value of bucket i below t, at or below its pins and not below the floor. */
  lemma {:induction false} LowPlace(h: Hist, floor: Option<real>, obs: seq<real>, i: nat, t: real) returns (y: real)
    requires Possible(h, floor, obs) && i < |h.counts| && h.counts[i] > 0
    requires Foot(h, floor, i).None? || Foot(h, floor, i).value < t
    ensures y < t && InBucket(h.bounds, i, y) && (floor.Some? ==> floor.value <= y) && forall p :: p in Pins(h, i) ==> y <= p
  {
    hide Pins, CountIn;
    var pins := Pins(h, i);
    PinFacts(h, obs, i);
    forall p | p in pins ensures First(pins).Some? && First(pins).value <= p {
      var a :| 0 <= a < |pins| && pins[a] == p;
      assert pins[0] <= pins[a];
    }
    assert pins != [] ==> pins[0] in pins;
    var z := BucketHas(obs, h.bounds, i);
    if floor.Some? && (i == 0 || h.bounds[i - 1] < floor.value) {
      y := floor.value;
    } else if i > 0 {
      y := Between(h.bounds[i - 1], t, First(pins), Top(h, i));
    } else {
      y := Lesser3(t, h.bounds[0], if pins == [] then t else pins[0]);
    }
  }

  /** The asked observation can be less than anything above the least. */
  lemma {:induction false} LeastReached(h: Hist, floor: Option<real>, obs: seq<real>, i: nat, k: int, t: real) returns (new': seq<real>, x: real)
    requires Reaches(h, i, k) && Possible(h, floor, obs) && (LeastAsked(h, floor, i, k).None? || LeastAsked(h, floor, i, k).value < t)
    ensures Possible(h, floor, new') && KthSmallest(new', k, x) && x < t
  {
    hide Pins, CountIn, CountBelow, CountUpTo;
    var pins := Pins(h, i);
    PinFacts(h, obs, i);
    PinsFit(h, obs, i);
    var r, free := k - Cum(h.counts, i), h.counts[i] - |pins|;
    if r <= free {
      x := LowPlace(h, floor, obs, i, t);
      RepeatedFirst(x, free, pins, r);
      new' := Filled(h, floor, obs, i, k, x, x);
    } else {
      x := pins[r - free - 1];
      assert pins[0] in pins;
      PinRanks(pins, free, r - free - 1);
      new' := Filled(h, floor, obs, i, k, pins[0], x);
    }
  }

  /** A value of bucket i above t, at or above its pins and the floor. */
  lemma {:induction false} HighPlace(h: Hist, floor: Option<real>, obs: seq<real>, i: nat, t: real) returns (y: real)
    requires Possible(h, floor, obs) && i < |h.counts| && h.counts[i] > 0
    requires Top(h, i).None? || Top(h, i).value > t
    ensures y > t && InBucket(h.bounds, i, y) && (floor.Some? ==> floor.value <= y) && forall p :: p in Pins(h, i) ==> p <= y
  {
    hide Pins, CountIn;
    var pins := Pins(h, i);
    PinFacts(h, obs, i);
    forall p | p in pins ensures Last(pins).Some? && p <= Last(pins).value {
      var a :| 0 <= a < |pins| && pins[a] == p;
      assert pins[a] <= pins[|pins| - 1];
    }
    var z := BucketHas(obs, h.bounds, i);
    if i < |h.bounds| {
      y := h.bounds[i];
    } else {
      y := Greater3(t, z, if pins == [] then t else pins[|pins| - 1]);
    }
  }

  /** And greater than anything below the greatest. */
  lemma {:induction false} GreatestReached(h: Hist, floor: Option<real>, obs: seq<real>, i: nat, k: int, t: real) returns (new': seq<real>, x: real)
    requires Reaches(h, i, k) && Possible(h, floor, obs) && (GreatestAsked(h, i, k).None? || GreatestAsked(h, i, k).value > t)
    ensures Possible(h, floor, new') && KthSmallest(new', k, x) && x > t
  {
    hide Pins, CountIn, CountBelow, CountUpTo;
    var pins := Pins(h, i);
    PinFacts(h, obs, i);
    PinsFit(h, obs, i);
    var r, free := k - Cum(h.counts, i), h.counts[i] - |pins|;
    if r > |pins| {
      x := HighPlace(h, floor, obs, i, t);
      RepeatedLast(x, free, pins, r);
      new' := Filled(h, floor, obs, i, k, x, x);
    } else {
      x := pins[r - 1];
      assert pins[|pins| - 1] in pins;
      PinRanks(pins, free, r - 1);
      new' := Filled(h, floor, obs, i, k, pins[|pins| - 1], x);
    }
  }

  // ---- The error, exactly ----

  /** The error is at most d for all observations the histogram may stand for. */
  ghost predicate ErrorWithin(h: Hist, floor: Option<real>, rank: real, i: nat, k: int, d: real)
    requires Asked(h, rank, i, k)
  {
    forall obs, x :: Possible(h, floor, obs) && KthSmallest(obs, k, x) ==> -d <= Est(h, rank, i) - x <= d
  }

  /** In every bucket and for every d, from what is stored and the floor alone. */
  ghost predicate EndsWithin(h: Hist, floor: Option<real>, rank: real, i: nat, k: int, d: real)
    requires Asked(h, rank, i, k) && Reaches(h, i, k)
  {
    var least, greatest := LeastAsked(h, floor, i, k), GreatestAsked(h, i, k);
    && least.Some? && Est(h, rank, i) - least.value <= d
    && greatest.Some? && greatest.value - Est(h, rank, i) <= d
  }

  lemma {:induction false} ReachesRank(h: Hist, rank: real, i: nat, k: int)
    requires Asked(h, rank, i, k)
    ensures Reaches(h, i, k) && i <= |h.bounds|
  {
    RankWithin(h, rank, i, k);
  }

  /** With reported extremes, for every histogram that stands for some observations, every
      bucket and every d: the error is at most d for all of them exactly when the estimate is
      within d of the least and of the greatest the asked observation can be. */
  lemma {:induction false} ReportedExactly(h: Hist, floor: Option<real>, obs: seq<real>, rank: real, i: nat, k: int, d: real)
    requires Asked(h, rank, i, k) && Possible(h, floor, obs)
    ensures Reaches(h, i, k) && (ErrorWithin(h, floor, rank, i, k, d) <==> EndsWithin(h, floor, rank, i, k, d))
  {
    hide Est, Possible, KthSmallest, LeastAsked, GreatestAsked, Picked, Reaches;
    ReachesRank(h, rank, i, k);
    var v := Est(h, rank, i);
    var least, greatest := LeastAsked(h, floor, i, k), GreatestAsked(h, i, k);
    if EndsWithin(h, floor, rank, i, k, d) {
      forall o, x | Possible(h, floor, o) && KthSmallest(o, k, x) ensures -d <= v - x <= d {
        WithinRange(h, floor, o, rank, i, k, x);
      }
    } else if least.None? || v - least.value > d {
      var o, x := LeastReached(h, floor, obs, i, k, v - d);
    } else {
      var o, x := GreatestReached(h, floor, obs, i, k, v + d);
    }
  }

  /** So the bucket's width, as the interpolation takes it, bounds the error exactly then. */
  lemma {:induction false} WidthExactly(h: Hist, floor: Option<real>, obs: seq<real>, rank: real, i: nat, k: int)
    requires Asked(h, rank, i, k) && Possible(h, floor, obs)
    ensures Reaches(h, i, k) && i <= |h.bounds|
    ensures var width := Hi(h, i) - Lo(h, i); ErrorWithin(h, floor, rank, i, k, width) <==> EndsWithin(h, floor, rank, i, k, width)
  {
    hide Possible, ErrorWithin, EndsWithin, Asked, Lo, Hi;
    ReachesRank(h, rank, i, k);
    ReportedExactly(h, floor, obs, rank, i, k, Hi(h, i) - Lo(h, i));
  }

  /** And any bound at all holds exactly when the bucket is closed on both sides for the asked
      rank: by its bounds, the floor or the reported observations. */
  lemma {:induction false} OpenEndExactly(h: Hist, floor: Option<real>, obs: seq<real>, rank: real, i: nat, k: int)
    requires Asked(h, rank, i, k) && Possible(h, floor, obs)
    ensures Reaches(h, i, k)
    ensures (exists d :: ErrorWithin(h, floor, rank, i, k, d)) <==> LeastAsked(h, floor, i, k).Some? && GreatestAsked(h, i, k).Some?
  {
    hide Est, Possible, ErrorWithin, LeastAsked, GreatestAsked, Picked, Reaches;
    ReachesRank(h, rank, i, k);
    var least, greatest, v := LeastAsked(h, floor, i, k), GreatestAsked(h, i, k), Est(h, rank, i);
    if least.Some? && greatest.Some? {
      var d := Greater3(v - least.value, greatest.value - v, 0.0);
      ReportedExactly(h, floor, obs, rank, i, k, d);
    }
    forall d | ErrorWithin(h, floor, rank, i, k, d) ensures least.Some? && greatest.Some? {
      ReportedExactly(h, floor, obs, rank, i, k, d);
    }
  }

  // ---- Inputs on which the width does not bound it ----

  lemma {:induction false} RankIs(obs: seq<real>, k: int, x: real)
    requires x in obs && CountBelow(obs, x) < k <= CountUpTo(obs, x)
    ensures KthSmallest(obs, k, x)
  {}

  /** First bucket: two durations of 0 whose point reports no extremes and one of 0.75 whose
      point does. Clamping leaves the estimate in the bucket, which the reported minimum makes
      0.25 wide, and the median is 0.75 away. */
  lemma {:induction false} BelowReportedMinimum()
    ensures var h, obs := Hist([1.0, 5.0], [3, 0, 0], Some(0.75), Some(0.75)), [0.0, 0.0, 0.75];
            && Asked(h, 1.5, 0, 2) && Possible(h, Some(0.0), obs) && KthSmallest(obs, 2, 0.0)
            && Stays(h, 0) && Hi(h, 0) - Lo(h, 0) == 0.25 && Est(h, 1.5, 0) - 0.0 == 0.75
  {
    hide Interpolate, KthSmallest;
    var h, obs := Hist([1.0, 5.0], [3, 0, 0], Some(0.75), Some(0.75)), [0.0, 0.0, 0.75];
    assert Cum(h.counts, 1) == Cum(h.counts, 0) + 3;
    InterpolateBetween(h.bounds, h.counts, h.min, h.max, 1.5, 0);
    RepeatedFirst(0.0, 2, [0.75], 2);
    assert Repeat(0.0, 2) + [0.75] == obs;
    RankIs(obs, 2, 0.0);
    forall j | 0 <= j < 3 ensures h.counts[j] == CountIn(obs, h.bounds, j) { AllInBucket(obs, h.bounds, h.counts, 0, j); }
    assert 0.75 == obs[2];
  }

  /** Last bucket: two observations of which only one point reports its minimum, and none a
      maximum. The bucket is taken to be a point, the asked observation is 7 away. */
  lemma {:induction false} AboveLastBound()
    ensures var h, obs := Hist([1.0], [0, 2], Some(9.0), None), [2.0, 9.0];
            && Asked(h, 0.5, 1, 1) && Possible(h, Some(0.0), obs) && KthSmallest(obs, 1, 2.0)
            && Hi(h, 1) - Lo(h, 1) == 0.0 && Est(h, 0.5, 1) - 2.0 == 7.0
  {
    hide Interpolate, KthSmallest;
    var h, obs := Hist([1.0], [0, 2], Some(9.0), None), [2.0, 9.0];
    assert Cum(h.counts, 1) == Cum(h.counts, 0) + 0 && Cum(h.counts, 2) == Cum(h.counts, 1) + 2;
    InterpolateBetween(h.bounds, h.counts, h.min, h.max, 0.5, 1);
    RepeatedFirst(2.0, 1, [9.0], 1);
    assert Repeat(2.0, 1) + [9.0] == obs;
    RankIs(obs, 1, 2.0);
    forall j | 0 <= j < 2 ensures h.counts[j] == CountIn(obs, h.bounds, j) { AllInBucket(obs, h.bounds, h.counts, 1, j); }
    assert 9.0 == obs[1];
  }
}
