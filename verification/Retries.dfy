/** Retry chains (internal/storage/query_retries.go): each common table expression as a
    function on one install's runs of one command, ordered by time. */
module Retries {
  import opened Prelude

  datatype Run = Run(time: int, failed: bool)

  /** A row of `flagged`. */
  datatype Flag = Flag(chain: nat, failed: bool, retried: bool, repeated: bool)

  /** A row of `chains`. */
  datatype Chain = Chain(failures: nat, retried: nat, runs: nat, recovered: bool, repeated: bool)

  // ---- The pipeline ----

  /** linked: starts_chain, through lag */
  function Starts(runs: seq<Run>, w: int, i: nat): nat
    requires i < |runs|
  {
    if i > 0 && runs[i - 1].failed && runs[i].time - runs[i - 1].time <= w then 0 else 1
  }

  /** chained: the running sum of starts_chain */
  function ChainNo(runs: seq<Run>, w: int, i: nat): nat
    requires i < |runs|
  {
    (if i == 0 then 0 else ChainNo(runs, w, i - 1)) + Starts(runs, w, i)
  }

  /** failed AND next_time - time <= w, through lead */
  predicate Retried(runs: seq<Run>, w: int, i: nat)
    requires i < |runs|
  {
    runs[i].failed && i + 1 < |runs| && runs[i + 1].time - runs[i].time <= w
  }

  predicate SamePartition(runs: seq<Run>, w: int, i: nat, j: nat)
    requires i < |runs| && j < |runs|
  {
    ChainNo(runs, w, j) == ChainNo(runs, w, i) && runs[j].failed == runs[i].failed
  }

  /** lead(_, k) over the partition (chain_no, failed), counting from j on */
  function Lead(runs: seq<Run>, w: int, i: nat, j: nat, k: nat): (r: Option<nat>)
    requires i < |runs| && j <= |runs| && k >= 1
    ensures r.Some? ==> r.value < |runs|
    decreases |runs| - j
  {
    if j == |runs| then None
    else if !SamePartition(runs, w, i, j) then Lead(runs, w, i, j + 1, k)
    else if k == 1 then Some(j)
    else Lead(runs, w, i, j + 1, k - 1)
  }

  const REPEATED_FAILURE_COUNT := 3

  predicate Repeated(runs: seq<Run>, w: int, i: nat)
    requires i < |runs|
  {
    var l := Lead(runs, w, i, i + 1, REPEATED_FAILURE_COUNT - 1);
    runs[i].failed && l.Some? && runs[l.value].time - runs[i].time <= w
  }

  function Flagged(runs: seq<Run>, w: int): seq<Flag> {
    seq(|runs|, i requires 0 <= i < |runs| => Flag(ChainNo(runs, w, i), runs[i].failed, Retried(runs, w, i), Repeated(runs, w, i)))
  }

  datatype Column = Failed | WasRetried | AnyRun | Succeeded | WasRepeated

  predicate Holds(f: Flag, col: Column) {
    match col
    case Failed => f.failed
    case WasRetried => f.retried
    case AnyRun => true
    case Succeeded => !f.failed
    case WasRepeated => f.repeated
  }

  /** count(*) FILTER (WHERE col) of one chain_no */
  function CountFlags(flags: seq<Flag>, c: nat, col: Column): nat {
    if flags == [] then 0
    else CountFlags(flags[1..], c, col) + if flags[0].chain == c && Holds(flags[0], col) then 1 else 0
  }

  function GroupOf(flags: seq<Flag>, c: nat): Chain {
    Chain(CountFlags(flags, c, Failed), CountFlags(flags, c, WasRetried), CountFlags(flags, c, AnyRun),
          CountFlags(flags, c, Succeeded) > 0, CountFlags(flags, c, WasRepeated) > 0)
  }

  function LastChain(flags: seq<Flag>): nat { if flags == [] then 0 else flags[|flags| - 1].chain }

  /** chains: GROUP BY chain_no HAVING bool_or(failed), from chain_no c on */
  function ChainsFrom(flags: seq<Flag>, c: nat): seq<Chain>
    decreases LastChain(flags) + 1 - c
  {
    if c > LastChain(flags) then []
    else (if GroupOf(flags, c).failures > 0 then [GroupOf(flags, c)] else []) + ChainsFrom(flags, c + 1)
  }

  function Pipeline(runs: seq<Run>, w: int): seq<Chain> { ChainsFrom(Flagged(runs, w), 1) }

  /** No chain_no is left out. */
  lemma {:induction false} ChainNoRange(runs: seq<Run>, w: int, i: nat, j: nat)
    requires i <= j < |runs|
    ensures 1 <= ChainNo(runs, w, i) <= ChainNo(runs, w, j)
  {
    if i < j { ChainNoRange(runs, w, i, j - 1); } else if i > 0 { ChainNoRange(runs, w, i - 1, i - 1); }
  }

  // ---- The documented chains ----

  /** A run goes on to the next when it failed and the next is at most w after it. */
  function ChainLength(runs: seq<Run>, w: int): (n: nat)
    requires runs != []
    ensures 1 <= n <= |runs|
  {
    if |runs| == 1 || !runs[0].failed || runs[1].time - runs[0].time > w then 1 else 1 + ChainLength(runs[1..], w)
  }

  function Split(runs: seq<Run>, w: int): seq<seq<Run>> {
    if runs == [] then [] else [runs[..ChainLength(runs, w)]] + Split(runs[ChainLength(runs, w)..], w)
  }

  function Failures(runs: seq<Run>): nat {
    if runs == [] then 0 else Failures(runs[1..]) + if runs[0].failed then 1 else 0
  }

  /** Three consecutive runs that all fail within w, first to last. */
  ghost predicate ThreeWithin(runs: seq<Run>, w: int) { exists i: nat :: ThreeAt(runs, w, i) }

  predicate ThreeAt(runs: seq<Run>, w: int, i: nat) {
    i + 2 < |runs| && runs[i].failed && runs[i + 1].failed && runs[i + 2].failed && runs[i + 2].time - runs[i].time <= w
  }

  ghost function Summary(chain: seq<Run>, w: int): Chain
    requires chain != []
  {
    Chain(Failures(chain), |chain| - 1, |chain|, !chain[|chain| - 1].failed, ThreeWithin(chain, w))
  }

  /** The summaries of the chains that hold a failure. */
  ghost function Summaries(chains: seq<seq<Run>>, w: int): seq<Chain>
    requires forall i :: 0 <= i < |chains| ==> chains[i] != []
  {
    if chains == [] then []
    else (if Failures(chains[0]) > 0 then [Summary(chains[0], w)] else []) + Summaries(chains[1..], w)
  }

  lemma {:induction false} SplitNonEmpty(runs: seq<Run>, w: int)
    ensures forall i :: 0 <= i < |Split(runs, w)| ==> Split(runs, w)[i] != []
  {
    if runs != [] { SplitNonEmpty(runs[ChainLength(runs, w)..], w); }
  }

  /** Every run of a chain but its last fails and is followed within w; its last is not. */
  lemma {:induction false} ChainShape(runs: seq<Run>, w: int)
    requires runs != []
    ensures var n := ChainLength(runs, w);
            && (forall i :: 0 <= i < n - 1 ==> Retried(runs, w, i))
            && !Retried(runs, w, n - 1)
  {
    var n := ChainLength(runs, w);
    if n > 1 {
      ChainShape(runs[1..], w);
      assert forall i :: 1 <= i < |runs| ==> Retried(runs, w, i) == Retried(runs[1..], w, i - 1);
    }
  }

  lemma {:induction false} FirstChainNo(runs: seq<Run>, w: int, i: nat)
    requires runs != [] && i < ChainLength(runs, w)
    ensures ChainNo(runs, w, i) == 1
  {
    if i > 0 {
      ChainShape(runs, w);
      assert Retried(runs, w, i - 1);
      FirstChainNo(runs, w, i - 1);
    }
  }

  lemma {:induction false} RestChainNo(runs: seq<Run>, w: int, i: nat)
    requires runs != [] && ChainLength(runs, w) <= i < |runs|
    ensures var n := ChainLength(runs, w); ChainNo(runs, w, i) == 1 + ChainNo(runs[n..], w, i - n) >= 2
  {
    var n := ChainLength(runs, w);
    ChainNoRange(runs[n..], w, i - n, i - n);
    ChainShape(runs, w);
    if i == n {
      FirstChainNo(runs, w, n - 1);
      assert !Retried(runs, w, n - 1);
    } else {
      RestChainNo(runs, w, i - 1);
    }
  }

  lemma {:induction false} RestLead(runs: seq<Run>, w: int, i: nat, j: nat, k: nat)
    requires runs != [] && ChainLength(runs, w) <= i < j <= |runs| && k >= 1
    ensures var n := ChainLength(runs, w);
            var r := Lead(runs[n..], w, i - n, j - n, k);
            Lead(runs, w, i, j, k) == if r.None? then None else Some(r.value + n)
    decreases |runs| - j
  {
    hide ChainNo, ChainLength;
    if j < |runs| {
      RestChainNo(runs, w, i);
      RestChainNo(runs, w, j);
      RestLead(runs, w, i, j + 1, k);
      if k > 1 { RestLead(runs, w, i, j + 1, k - 1); }
    }
  }

  /** Past the first chain there is nothing left to lead to. */
  lemma {:induction false} NoLead(runs: seq<Run>, w: int, i: nat, j: nat, k: nat)
    requires runs != [] && i < ChainLength(runs, w) <= j <= |runs| && k >= 1
    ensures Lead(runs, w, i, j, k) == None
    decreases |runs| - j
  {
    hide ChainNo, ChainLength;
    if j < |runs| {
      FirstChainNo(runs, w, i);
      RestChainNo(runs, w, j);
      NoLead(runs, w, i, j + 1, k);
    }
  }

  lemma {:induction false} FirstLead(runs: seq<Run>, w: int, i: nat)
    requires runs != [] && i < ChainLength(runs, w) && runs[i].failed
    ensures var n := ChainLength(runs, w);
            Lead(runs, w, i, i + 1, 2) == if i + 2 < n && runs[i + 2].failed then Some(i + 2) else None
  {
    hide ChainNo, ChainLength;
    var n := ChainLength(runs, w);
    ChainShape(runs, w);
    FirstChainNo(runs, w, i);
    if i + 1 < n {
      FirstChainNo(runs, w, i + 1);
      if i + 2 < n {
        assert Retried(runs, w, i + 1);
        FirstChainNo(runs, w, i + 2);
        if !runs[i + 2].failed { LeadPast(runs, w, i, i + 3); }
      } else {
        NoLead(runs, w, i, i + 2, 1);
        NoLead(runs, w, i, i + 2, 2);
      }
    } else {
      NoLead(runs, w, i, i + 1, 2);
    }
  }

  /** A success ends its chain, so no failure of the chain comes after it. */
  lemma {:induction false} LeadPast(runs: seq<Run>, w: int, i: nat, j: nat)
    requires runs != [] && i < j <= ChainLength(runs, w) && !runs[j - 1].failed
    ensures Lead(runs, w, i, j, 1) == None
  {
    hide ChainNo, ChainLength;
    ChainShape(runs, w);
    assert j < ChainLength(runs, w) ==> Retried(runs, w, j - 1);
    NoLead(runs, w, i, j, 1);
  }

  function Shifted(flags: seq<Flag>): seq<Flag> {
    seq(|flags|, i requires 0 <= i < |flags| => flags[i].(chain := flags[i].chain + 1))
  }

  predicate ThreeFrom(chain: seq<Run>, w: int, i: nat)
    requires i < |chain|
  {
    chain[i].failed && i + 2 < |chain| && chain[i + 2].failed && chain[i + 2].time - chain[i].time <= w
  }

  function FirstFlags(chain: seq<Run>, w: int): seq<Flag> {
    seq(|chain|, i requires 0 <= i < |chain| => Flag(1, chain[i].failed, i < |chain| - 1, ThreeFrom(chain, w, i)))
  }

  /** The flagged rows are the first chain's and then those of the rest, renumbered. */
  lemma {:induction false} FlaggedSplits(runs: seq<Run>, w: int)
    requires runs != []
    ensures var n := ChainLength(runs, w);
            Flagged(runs, w) == FirstFlags(runs[..n], w) + Shifted(Flagged(runs[n..], w))
  {
    hide ChainNo, ChainLength, Lead;
    var n := ChainLength(runs, w);
    forall i | 0 <= i < n ensures Flagged(runs, w)[i] == FirstFlags(runs[..n], w)[i] {
      FirstChainNo(runs, w, i);
      ChainShape(runs, w);
      if runs[i].failed { FirstLead(runs, w, i); }
    }
    forall i | n <= i < |runs| ensures Flagged(runs, w)[i] == Shifted(Flagged(runs[n..], w))[i - n] {
      RestChainNo(runs, w, i);
      RestLead(runs, w, i, i + 1, 2);
    }
  }

  // ---- Counting ----

  lemma {:induction false} CountAppend(a: seq<Flag>, b: seq<Flag>, c: nat, col: Column)
    ensures CountFlags(a + b, c, col) == CountFlags(a, c, col) + CountFlags(b, c, col)
  {
    if a == [] {
      assert a + b == b;
    } else {
      assert (a + b)[1..] == a[1..] + b;
      CountAppend(a[1..], b, c, col);
    }
  }

  lemma {:induction false} CountElsewhere(flags: seq<Flag>, c: nat, col: Column)
    requires forall i :: 0 <= i < |flags| ==> flags[i].chain != c
    ensures CountFlags(flags, c, col) == 0
  {
    if flags != [] { CountElsewhere(flags[1..], c, col); }
  }

  lemma {:induction false} CountShifted(flags: seq<Flag>, c: nat, col: Column)
    ensures CountFlags(Shifted(flags), c + 1, col) == CountFlags(flags, c, col)
  {
    if flags != [] {
      assert Shifted(flags)[1..] == Shifted(flags[1..]);
      CountShifted(flags[1..], c, col);
    }
  }

  lemma {:induction false} CountPositive(flags: seq<Flag>, c: nat, col: Column)
    ensures CountFlags(flags, c, col) > 0 <==> exists i :: 0 <= i < |flags| && flags[i].chain == c && Holds(flags[i], col)
  {
    if flags != [] {
      CountPositive(flags[1..], c, col);
      assert forall i :: 1 <= i < |flags| ==> flags[i] == flags[1..][i - 1];
      if exists i :: 0 <= i < |flags| && flags[i].chain == c && Holds(flags[i], col) {
        var i :| 0 <= i < |flags| && flags[i].chain == c && Holds(flags[i], col);
        if i > 0 { assert flags[1..][i - 1].chain == c; }
      }
    }
  }

  lemma {:induction false} CountFirst(chain: seq<Run>, w: int, k: nat)
    requires k < |chain|
    ensures var flags := FirstFlags(chain, w)[k..];
            && CountFlags(flags, 1, Failed) == Failures(chain[k..])
            && CountFlags(flags, 1, WasRetried) == |chain| - 1 - k
            && CountFlags(flags, 1, AnyRun) == |chain| - k
    decreases |chain| - k
  {
    var flags := FirstFlags(chain, w)[k..];
    assert flags[1..] == FirstFlags(chain, w)[k + 1..] && chain[k..][1..] == chain[k + 1..];
    assert flags[0] == Flag(1, chain[k].failed, k < |chain| - 1, ThreeFrom(chain, w, k));
    if k < |chain| - 1 { CountFirst(chain, w, k + 1); }
  }

  /** A chain by the pipeline's shape: all but its last run fail. */
  ghost predicate FailsUntilLast(chain: seq<Run>) { forall i :: 0 <= i < |chain| - 1 ==> chain[i].failed }

  /** The aggregates of one chain are its summary. */
  lemma {:induction false} FirstGroup(chain: seq<Run>, w: int)
    requires chain != [] && FailsUntilLast(chain)
    ensures GroupOf(FirstFlags(chain, w), 1) == Summary(chain, w)
  {
    var flags := FirstFlags(chain, w);
    CountFirst(chain, w, 0);
    assert flags[0..] == flags && chain[0..] == chain;
    CountPositive(flags, 1, Succeeded);
    CountPositive(flags, 1, WasRepeated);
    hide CountFlags, FirstFlags, ThreeAt, Failures;
    FirstRecovered(chain, w);
    FirstRepeated(chain, w);
  }

  lemma {:induction false} FirstRecovered(chain: seq<Run>, w: int)
    requires chain != [] && FailsUntilLast(chain)
    ensures (exists i :: 0 <= i < |FirstFlags(chain, w)| && FirstFlags(chain, w)[i].chain == 1 && Holds(FirstFlags(chain, w)[i], Succeeded))
       <==> !chain[|chain| - 1].failed
  {
    assert FirstFlags(chain, w)[|chain| - 1].failed == chain[|chain| - 1].failed;
  }

  lemma {:induction false} FirstRepeated(chain: seq<Run>, w: int)
    requires chain != [] && FailsUntilLast(chain)
    ensures (exists i :: 0 <= i < |FirstFlags(chain, w)| && FirstFlags(chain, w)[i].chain == 1 && Holds(FirstFlags(chain, w)[i], WasRepeated))
       <==> ThreeWithin(chain, w)
  {
    assert forall i :: 0 <= i < |chain| ==> FirstFlags(chain, w)[i].repeated == ThreeFrom(chain, w, i) == ThreeAt(chain, w, i);
    if ThreeWithin(chain, w) {
      var i: nat :| ThreeAt(chain, w, i);
      assert FirstFlags(chain, w)[i].repeated;
    }
  }

  lemma {:induction false} GroupSplits(first: seq<Flag>, rest: seq<Flag>, c: nat)
    requires forall i :: 0 <= i < |first| ==> first[i].chain == 1
    requires forall i :: 0 <= i < |rest| ==> rest[i].chain >= 1
    ensures c == 1 ==> GroupOf(first + Shifted(rest), c) == GroupOf(first, 1)
    ensures c > 1 ==> GroupOf(first + Shifted(rest), c) == GroupOf(rest, c - 1)
  {
    forall col: Column
      ensures c == 1 ==> CountFlags(first + Shifted(rest), c, col) == CountFlags(first, 1, col)
      ensures c > 1 ==> CountFlags(first + Shifted(rest), c, col) == CountFlags(rest, c - 1, col)
    {
      CountAppend(first, Shifted(rest), c, col);
      if c == 1 { CountElsewhere(Shifted(rest), 1, col); }
      if c > 1 {
        CountElsewhere(first, c, col);
        CountShifted(rest, c - 1, col);
      }
    }
  }

  lemma {:induction false} LastShifted(first: seq<Flag>, rest: seq<Flag>)
    requires first != [] && forall i :: 0 <= i < |first| ==> first[i].chain == 1
    ensures LastChain(first + Shifted(rest)) == LastChain(rest) + 1
  {
    assert rest == [] ==> first + Shifted(rest) == first;
  }

  lemma {:induction false} ChainsShift(first: seq<Flag>, rest: seq<Flag>, c: nat)
    requires first != [] && forall i :: 0 <= i < |first| ==> first[i].chain == 1
    requires forall i :: 0 <= i < |rest| ==> rest[i].chain >= 1
    requires c >= 2
    ensures ChainsFrom(first + Shifted(rest), c) == ChainsFrom(rest, c - 1)
    decreases LastChain(rest) + 2 - c
  {
    hide GroupOf, Shifted, LastChain;
    var all := first + Shifted(rest);
    LastShifted(first, rest);
    if c <= LastChain(all) {
      GroupSplits(first, rest, c);
      ChainsShift(first, rest, c + 1);
    }
  }

  lemma {:induction false} ChainsSplit(first: seq<Flag>, rest: seq<Flag>)
    requires first != [] && forall i :: 0 <= i < |first| ==> first[i].chain == 1
    requires forall i :: 0 <= i < |rest| ==> rest[i].chain >= 1
    ensures ChainsFrom(first + Shifted(rest), 1) == (if GroupOf(first, 1).failures > 0 then [GroupOf(first, 1)] else []) + ChainsFrom(rest, 1)
  {
    hide GroupOf, Shifted, LastChain;
    var all := first + Shifted(rest);
    LastShifted(first, rest);
    GroupSplits(first, rest, 1);
    ChainsShift(first, rest, 2);
  }

  /** The lag, prefix-sum and lead pipeline computes the documented chains. */
  lemma {:induction false} PipelineIsChains(runs: seq<Run>, w: int)
    ensures (forall i :: 0 <= i < |Split(runs, w)| ==> Split(runs, w)[i] != [])
    ensures Pipeline(runs, w) == Summaries(Split(runs, w), w)
    decreases |runs|
  {
    hide GroupOf, Summary, FirstFlags, ChainLength, Failures;
    SplitNonEmpty(runs, w);
    if runs != [] {
      var n := ChainLength(runs, w);
      var chain, rest := runs[..n], runs[n..];
      PipelineIsChains(rest, w);
      FlaggedSplits(runs, w);
      FirstFlagsShape(chain, w);
      RestShape(rest, w);
      ChainsSplit(FirstFlags(chain, w), Flagged(rest, w));
      ChainFails(runs, w);
      FirstGroup(chain, w);
      SummaryFailures(chain, w);
      assert Split(runs, w) == [chain] + Split(rest, w);
      assert Split(runs, w)[1..] == Split(rest, w);
    }
  }

  lemma {:induction false} SummaryFailures(chain: seq<Run>, w: int)
    requires chain != []
    ensures Summary(chain, w).failures == Failures(chain)
  {}

  lemma {:induction false} FirstFlagsShape(chain: seq<Run>, w: int)
    ensures |FirstFlags(chain, w)| == |chain|
    ensures forall i :: 0 <= i < |chain| ==> FirstFlags(chain, w)[i].chain == 1
  {}

  lemma {:induction false} RestShape(runs: seq<Run>, w: int)
    ensures forall i :: 0 <= i < |Flagged(runs, w)| ==> Flagged(runs, w)[i].chain >= 1
  {
    hide ChainNo;
    forall i | 0 <= i < |runs| ensures ChainNo(runs, w, i) >= 1 { ChainNoRange(runs, w, i, i); }
  }

  /** Only the last run of a chain can be a success. */
  lemma {:induction false} ChainFails(runs: seq<Run>, w: int)
    requires runs != []
    ensures FailsUntilLast(runs[..ChainLength(runs, w)])
  {
    hide ChainLength;
    ChainShape(runs, w);
    forall i | 0 <= i < ChainLength(runs, w) - 1 ensures runs[i].failed { assert Retried(runs, w, i); }
  }

  /** So a chain's retried runs are all its runs but one, a recovered chain has at least two
      runs, and its failures are its runs less the final success. */
  lemma {:induction false} ChainFacts(runs: seq<Run>, w: int)
    ensures forall k :: 0 <= k < |Pipeline(runs, w)| ==>
              var c := Pipeline(runs, w)[k];
              && c.retried == c.runs - 1 && (c.recovered ==> c.runs >= 2)
              && c.failures == (if c.recovered then c.runs - 1 else c.runs) >= 1
    decreases |runs|
  {
    hide Pipeline, ChainLength;
    PipelineIsChains(runs, w);
    if runs != [] {
      var n := ChainLength(runs, w);
      var chain, rest := runs[..n], runs[n..];
      ChainFacts(rest, w);
      PipelineIsChains(rest, w);
      ChainFails(runs, w);
      AllButLast(chain);
      assert Split(runs, w) == [chain] + Split(rest, w);
      assert Split(runs, w)[1..] == Split(rest, w);
    }
  }

  lemma {:induction false} AllButLast(chain: seq<Run>)
    requires chain != [] && FailsUntilLast(chain)
    ensures Failures(chain) == |chain| - (if chain[|chain| - 1].failed then 0 else 1)
  {
    assert |chain| == 1 ==> chain[1..] == [];
    if |chain| > 1 {
      assert chain[1..][|chain| - 2] == chain[|chain| - 1];
      assert FailsUntilLast(chain[1..]);
      AllButLast(chain[1..]);
    }
  }

  // ---- The totals ----

  function SumFailures(chains: seq<Chain>): nat { if chains == [] then 0 else chains[0].failures + SumFailures(chains[1..]) }

  function SumRetried(chains: seq<Chain>): nat { if chains == [] then 0 else chains[0].retried + SumRetried(chains[1..]) }

  function CountRetried(runs: seq<Run>, w: int): nat {
    if runs == [] then 0 else CountRetried(runs[1..], w) + if Retried(runs, w, 0) then 1 else 0
  }

  lemma {:induction false} FailuresAppend(a: seq<Run>, b: seq<Run>)
    ensures Failures(a + b) == Failures(a) + Failures(b)
  {
    if a == [] {
      assert a + b == b;
    } else {
      assert (a + b)[1..] == a[1..] + b;
      FailuresAppend(a[1..], b);
    }
  }

  lemma {:induction false} RetriedInChain(runs: seq<Run>, w: int)
    requires runs != []
    ensures var n := ChainLength(runs, w); CountRetried(runs, w) == n - 1 + CountRetried(runs[n..], w)
  {
    var n := ChainLength(runs, w);
    if n > 1 {
      RetriedInChain(runs[1..], w);
      assert runs[1..][n - 1..] == runs[n..];
    }
  }

  /** No failure and no retry is lost in the grouping: a partition's sums are its number of
      failed runs and its number of failures followed by another run within w. */
  lemma {:induction false} TotalsConserved(runs: seq<Run>, w: int)
    ensures SumFailures(Pipeline(runs, w)) == Failures(runs)
    ensures SumRetried(Pipeline(runs, w)) == CountRetried(runs, w) <= Failures(runs)
    decreases |runs|
  {
    hide Pipeline, ChainLength;
    PipelineIsChains(runs, w);
    if runs != [] {
      var n := ChainLength(runs, w);
      var chain, rest := runs[..n], runs[n..];
      TotalsConserved(rest, w);
      PipelineIsChains(rest, w);
      ChainFails(runs, w);
      AllButLast(chain);
      assert runs == chain + rest;
      FailuresAppend(chain, rest);
      RetriedInChain(runs, w);
      assert Split(runs, w) == [chain] + Split(rest, w);
      assert Split(runs, w)[1..] == Split(rest, w);
      SumsStep(chain, Split(rest, w), w);
    }
  }

  lemma {:induction false} SumsStep(chain: seq<Run>, more: seq<seq<Run>>, w: int)
    requires chain != [] && forall i :: 0 <= i < |more| ==> more[i] != []
    requires FailsUntilLast(chain)
    ensures SumFailures(Summaries([chain] + more, w)) == Failures(chain) + SumFailures(Summaries(more, w))
    ensures SumRetried(Summaries([chain] + more, w)) == |chain| - 1 + SumRetried(Summaries(more, w))
  {
    AllButLast(chain);
    var all := [chain] + more;
    assert all[1..] == more;
    var rest := Summaries(more, w);
    if Failures(chain) > 0 {
      assert ([Summary(chain, w)] + rest)[1..] == rest;
    } else {
      assert [] + rest == rest;
    }
  }

  // ---- Repeated failures, over all of an install's runs ----

  ghost predicate InOrder(runs: seq<Run>) { forall i, j :: 0 <= i < j < |runs| ==> runs[i].time <= runs[j].time }

  ghost predicate AnyRepeated(chains: seq<Chain>) { exists k :: 0 <= k < |chains| && chains[k].repeated }

  /** Some chain is repeated exactly when three consecutive runs of the install all fail
      within w: a chain's boundary never hides such a triple. */
  lemma {:induction false} RepeatedIsThree(runs: seq<Run>, w: int)
    requires InOrder(runs)
    ensures AnyRepeated(Pipeline(runs, w)) <==> ThreeWithin(runs, w)
    decreases |runs|
  {
    hide Pipeline, ChainLength, Failures, ThreeAt;
    PipelineIsChains(runs, w);
    if runs == [] {
      NoThree(runs, w);
    } else {
      var n := ChainLength(runs, w);
      var chain, rest := runs[..n], runs[n..];
      RepeatedIsThree(rest, w);
      PipelineIsChains(rest, w);
      ThreeSplits(runs, w);
      assert Split(runs, w) == [chain] + Split(rest, w);
      RepeatedStep(chain, Split(rest, w), w);
    }
  }

  lemma {:induction false} NoThree(runs: seq<Run>, w: int)
    requires runs == []
    ensures !ThreeWithin(runs, w)
  {}

  lemma {:induction false} RepeatedStep(chain: seq<Run>, more: seq<seq<Run>>, w: int)
    requires chain != [] && forall i :: 0 <= i < |more| ==> more[i] != []
    ensures AnyRepeated(Summaries([chain] + more, w)) <==> ThreeWithin(chain, w) || AnyRepeated(Summaries(more, w))
  {
    var all, rest := [chain] + more, Summaries(more, w);
    assert all[1..] == more;
    var head := if Failures(chain) > 0 then [Summary(chain, w)] else [];
    if ThreeWithin(chain, w) { ThreeHasFailure(chain, w); }
    hide Failures, ThreeWithin;
    assert Summaries(all, w) == head + rest;
    assert AnyRepeated(head) <==> ThreeWithin(chain, w) by {
      if AnyRepeated(head) { assert head[0].repeated; }
      if ThreeWithin(chain, w) { assert head[0].repeated; }
    }
    AnyAppend(head, rest);
  }

  lemma {:induction false} AnyAppend(a: seq<Chain>, b: seq<Chain>)
    ensures AnyRepeated(a + b) <==> AnyRepeated(a) || AnyRepeated(b)
  {
    if AnyRepeated(a) { var k :| 0 <= k < |a| && a[k].repeated; assert (a + b)[k].repeated; }
    if AnyRepeated(b) { var k :| 0 <= k < |b| && b[k].repeated; assert (a + b)[|a| + k].repeated; }
  }

  lemma {:induction false} ThreeHasFailure(chain: seq<Run>, w: int)
    requires ThreeWithin(chain, w)
    ensures Failures(chain) > 0
  {
    var i: nat :| ThreeAt(chain, w, i);
    assert chain == chain[..i] + chain[i..];
    FailuresAppend(chain[..i], chain[i..]);
  }

  lemma {:induction false} ThreeSplits(runs: seq<Run>, w: int)
    requires runs != [] && InOrder(runs)
    ensures var n := ChainLength(runs, w);
            ThreeWithin(runs, w) <==> ThreeWithin(runs[..n], w) || ThreeWithin(runs[n..], w)
  {
    hide ChainLength;
    var n := ChainLength(runs, w);
    ChainShape(runs, w);
    if ThreeWithin(runs, w) {
      var i: nat :| ThreeAt(runs, w, i);
      if i + 2 < n {
        assert ThreeAt(runs[..n], w, i);
      } else {
        assert Retried(runs, w, i) && Retried(runs, w, i + 1);
        assert i >= n;
        assert ThreeAt(runs[n..], w, i - n);
      }
    }
    if ThreeWithin(runs[..n], w) {
      var i: nat :| ThreeAt(runs[..n], w, i);
      assert ThreeAt(runs, w, i);
    }
    if ThreeWithin(runs[n..], w) {
      var i: nat :| ThreeAt(runs[n..], w, i);
      assert ThreeAt(runs, w, i + n);
    }
  }

  /** Three failures within w with a success among them are not a repeated failure. */
  lemma {:induction false} SuccessBreaksStreak()
    ensures var runs := [Run(0, true), Run(1, false), Run(2, true), Run(3, true)];
            InOrder(runs) && Failures(runs) == 3 && runs[3].time - runs[0].time <= 10 && !AnyRepeated(Pipeline(runs, 10))
  {
    var runs := [Run(0, true), Run(1, false), Run(2, true), Run(3, true)];
    RepeatedIsThree(runs, 10);
    assert runs[1..] == [Run(1, false), Run(2, true), Run(3, true)];
    assert runs[1..][1..] == [Run(2, true), Run(3, true)];
    assert runs[1..][1..][1..] == [Run(3, true)];
  }

  // ---- Streaks and sequences ----

  /** n consecutive failures from i on, each at most w after the one before. */
  predicate StreakAt(runs: seq<Run>, w: int, i: nat, n: nat) {
    n >= 1 && i + n <= |runs| && runs[i + n - 1].failed && forall m :: i <= m < i + n - 1 ==> Retried(runs, w, m)
  }

  ghost predicate HasStreak(runs: seq<Run>, w: int, n: nat) { exists i: nat :: StreakAt(runs, w, i, n) }

  /** n is the length of the longest streak, zero without one. */
  ghost predicate IsLongest(runs: seq<Run>, w: int, n: nat) {
    && (n > 0 ==> HasStreak(runs, w, n))
    && forall i: nat, k: nat :: StreakAt(runs, w, i, k) ==> k <= n
  }

  function Max(a: nat, b: nat): nat { if a < b then b else a }

  function MostFailures(chains: seq<Chain>): nat { if chains == [] then 0 else Max(chains[0].failures, MostFailures(chains[1..])) }

  function CountSequences(chains: seq<Chain>): nat { if chains == [] then 0 else CountSequences(chains[1..]) + if chains[0].runs >= 2 then 1 else 0 }

  function CountRecovered(chains: seq<Chain>): nat { if chains == [] then 0 else CountRecovered(chains[1..]) + if chains[0].recovered then 1 else 0 }

  /** Chains of two or more runs, and those of them that end in a success. */
  function Sequences(chains: seq<seq<Run>>): nat { if chains == [] then 0 else Sequences(chains[1..]) + if |chains[0]| >= 2 then 1 else 0 }

  function Recovered(chains: seq<seq<Run>>): nat {
    if chains == [] then 0
    else Recovered(chains[1..]) + if |chains[0]| >= 2 && !chains[0][|chains[0]| - 1].failed then 1 else 0
  }

  lemma {:induction false} SummaryStep(chain: seq<Run>, more: seq<seq<Run>>, w: int)
    requires chain != [] && FailsUntilLast(chain) && forall i :: 0 <= i < |more| ==> more[i] != []
    ensures var all, rest := Summaries([chain] + more, w), Summaries(more, w);
            && MostFailures(all) == Max(Failures(chain), MostFailures(rest))
            && CountSequences(all) == CountSequences(rest) + (if |chain| >= 2 then 1 else 0)
            && CountRecovered(all) == CountRecovered(rest) + (if |chain| >= 2 && !chain[|chain| - 1].failed then 1 else 0)
  {
    AllButLast(chain);
    assert ([chain] + more)[1..] == more;
    var rest := Summaries(more, w);
    if Failures(chain) > 0 {
      assert ([Summary(chain, w)] + rest)[1..] == rest;
    } else {
      assert [] + rest == rest;
    }
  }

  /** The counts are those of the documented chains. */
  lemma {:induction false} SequencesCounted(runs: seq<Run>, w: int)
    ensures CountSequences(Pipeline(runs, w)) == Sequences(Split(runs, w))
    ensures CountRecovered(Pipeline(runs, w)) == Recovered(Split(runs, w)) <= Sequences(Split(runs, w))
    decreases |runs|
  {
    hide Pipeline, ChainLength, Summaries;
    PipelineIsChains(runs, w);
    if runs == [] {
      NoChains(w);
    } else {
      var n := ChainLength(runs, w);
      var chain, rest := runs[..n], runs[n..];
      SequencesCounted(rest, w);
      PipelineIsChains(rest, w);
      ChainFails(runs, w);
      assert Split(runs, w) == [chain] + Split(rest, w);
      assert Split(runs, w)[1..] == Split(rest, w);
      SummaryStep(chain, Split(rest, w), w);
    }
  }

  lemma {:induction false} NoChains(w: int)
    ensures Summaries([], w) == []
  {}

  /** A chain's failures are a streak, and no streak of the chain is longer or leaves it. */
  lemma {:induction false} ChainStreaks(runs: seq<Run>, w: int)
    requires runs != []
    ensures var c := ChainLength(runs, w);
            var f := Failures(runs[..c]);
            && (f > 0 ==> StreakAt(runs, w, 0, f))
            && forall i: nat, k: nat :: StreakAt(runs, w, i, k) && i < c ==> k <= f
  {
    hide ChainLength, Failures;
    var c := ChainLength(runs, w);
    var f := Failures(runs[..c]);
    ChainShape(runs, w);
    ChainFails(runs, w);
    AllButLast(runs[..c]);
    assert runs[..c][c - 1] == runs[c - 1];
    if f > 0 && f < c { assert Retried(runs, w, f - 1); }
    forall i: nat, k: nat | StreakAt(runs, w, i, k) && i < c ensures k <= f {
      assert i + k <= c;
    }
  }

  lemma {:induction false} RestStreaks(runs: seq<Run>, w: int, i: nat, k: nat)
    requires runs != [] && ChainLength(runs, w) <= i
    ensures StreakAt(runs, w, i, k) <==> StreakAt(runs[ChainLength(runs, w)..], w, i - ChainLength(runs, w), k)
  {
    hide ChainLength;
    var c := ChainLength(runs, w);
    var rest := runs[c..];
    assert forall m :: c <= m < |runs| ==> Retried(runs, w, m) == Retried(rest, w, m - c);
    if StreakAt(rest, w, i - c, k) {
      forall m | i <= m < i + k - 1 ensures Retried(runs, w, m) { assert Retried(rest, w, m - c); }
    }
    if StreakAt(runs, w, i, k) {
      forall m | i - c <= m < i - c + k - 1 ensures Retried(rest, w, m) { assert Retried(runs, w, m + c); }
    }
  }

  /** longest_failure_streak of one install is the length of its longest streak. */
  lemma {:induction false} LongestIsStreak(runs: seq<Run>, w: int)
    ensures IsLongest(runs, w, MostFailures(Pipeline(runs, w)))
    decreases |runs|
  {
    hide Pipeline, ChainLength, Summaries, StreakAt, Failures;
    PipelineIsChains(runs, w);
    if runs == [] {
      NoChains(w);
      NoStreaks(runs, w);
    } else {
      var c := ChainLength(runs, w);
      var chain, rest := runs[..c], runs[c..];
      var n := MostFailures(Pipeline(rest, w));
      LongestIsStreak(rest, w);
      PipelineIsChains(rest, w);
      ChainFails(runs, w);
      assert Split(runs, w) == [chain] + Split(rest, w);
      SummaryStep(chain, Split(rest, w), w);
      ChainStreaks(runs, w);
      forall i: nat, k: nat | StreakAt(runs, w, i, k) ensures k <= Max(Failures(chain), n) {
        if i >= c { RestStreaks(runs, w, i, k); }
      }
      if n > 0 {
        var i: nat :| StreakAt(rest, w, i, n);
        RestStreaks(runs, w, i + c, n);
        assert StreakAt(runs, w, i + c, n);
      }
    }
  }

  lemma {:induction false} NoStreaks(runs: seq<Run>, w: int)
    requires runs == []
    ensures forall i: nat, k: nat :: !StreakAt(runs, w, i, k)
  {}

  // ---- One command over all its installs ----

  datatype RetryPoint = RetryPoint(failed: nat, retried: nat, sequences: nat, recovered: nat, repeatedInstalls: nat, longest: nat)

  /** The final SELECT, one install's chains at a time. */
  ghost function Report(installs: seq<seq<Run>>, w: int): RetryPoint {
    if installs == [] then RetryPoint(0, 0, 0, 0, 0, 0)
    else
      var r, chains := Report(installs[1..], w), Pipeline(installs[0], w);
      RetryPoint(r.failed + SumFailures(chains), r.retried + SumRetried(chains), r.sequences + CountSequences(chains),
                 r.recovered + CountRecovered(chains), r.repeatedInstalls + (if AnyRepeated(chains) then 1 else 0),
                 Max(MostFailures(chains), r.longest))
  }

  function TotalFailures(installs: seq<seq<Run>>): nat { if installs == [] then 0 else TotalFailures(installs[1..]) + Failures(installs[0]) }

  function TotalRetried(installs: seq<seq<Run>>, w: int): nat { if installs == [] then 0 else TotalRetried(installs[1..], w) + CountRetried(installs[0], w) }

  ghost function InstallsWithThree(installs: seq<seq<Run>>, w: int): nat {
    if installs == [] then 0 else InstallsWithThree(installs[1..], w) + if ThreeWithin(installs[0], w) then 1 else 0
  }

  function TotalSequences(installs: seq<seq<Run>>, w: int): nat {
    if installs == [] then 0 else TotalSequences(installs[1..], w) + Sequences(Split(installs[0], w))
  }

  function TotalRecovered(installs: seq<seq<Run>>, w: int): nat {
    if installs == [] then 0 else TotalRecovered(installs[1..], w) + Recovered(Split(installs[0], w))
  }

  /** n is the length of the longest streak of any install, zero without one. */
  ghost predicate LongestOfAll(installs: seq<seq<Run>>, w: int, n: nat) {
    && (n > 0 ==> exists p :: 0 <= p < |installs| && HasStreak(installs[p], w, n))
    && forall p, i: nat, k: nat :: 0 <= p < |installs| && StreakAt(installs[p], w, i, k) ==> k <= n
  }

  lemma {:induction false} LongestStep(installs: seq<seq<Run>>, w: int, first: nat, rest: nat)
    requires installs != [] && IsLongest(installs[0], w, first) && LongestOfAll(installs[1..], w, rest)
    ensures LongestOfAll(installs, w, Max(first, rest))
  {
    hide StreakAt, HasStreak;
    var n := Max(first, rest);
    forall p, i: nat, k: nat | 0 <= p < |installs| && StreakAt(installs[p], w, i, k) ensures k <= n {
      if p > 0 { assert StreakAt(installs[1..][p - 1], w, i, k); }
    }
    if n > 0 {
      if n == first {
        assert HasStreak(installs[0], w, n);
      } else {
        var p :| 0 <= p < |installs[1..]| && HasStreak(installs[1..][p], w, n);
        assert HasStreak(installs[p + 1], w, n);
      }
    }
  }

  /** What a command's row means, for all installs' runs. */
  lemma {:induction false} ReportMeans(installs: seq<seq<Run>>, w: int)
    requires forall i :: 0 <= i < |installs| ==> InOrder(installs[i])
    ensures var r := Report(installs, w);
            && r.failed == TotalFailures(installs)
            && r.retried == TotalRetried(installs, w) <= r.failed
            && r.sequences == TotalSequences(installs, w)
            && r.recovered == TotalRecovered(installs, w) <= r.sequences
            && r.repeatedInstalls == InstallsWithThree(installs, w) <= |installs|
            && LongestOfAll(installs, w, r.longest)
  {
    hide Pipeline, InOrder, ThreeWithin, Failures, CountRetried, AnyRepeated, Split, LongestOfAll, IsLongest;
    if installs == [] {
      NoneLongest(w);
    } else {
      ReportMeans(installs[1..], w);
      TotalsConserved(installs[0], w);
      RepeatedIsThree(installs[0], w);
      SequencesCounted(installs[0], w);
      LongestIsStreak(installs[0], w);
      LongestStep(installs, w, MostFailures(Pipeline(installs[0], w)), Report(installs[1..], w).longest);
    }
  }

  lemma {:induction false} NoneLongest(w: int)
    ensures LongestOfAll([], w, 0)
  {}
}
