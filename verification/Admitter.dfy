/** The admission operations run against one tenant's tables, statement by statement.
    Each is proved to store and return what its decision function says. */
module Admitter {
  import opened Prelude
  import opened Sorting
  import opened Sums
  import opened Vocabulary
  import opened GroupPlan
  import opened Admission
  import opened LastSeen

  function LabelCounts(counts: map<CounterKey, nat>): map<string, map<string, nat>> {
    map g | g in Groups(BatchPairs(counts)) :: GroupCounts(BatchPairs(counts), counts, g)
  }

  /** labelCounts[name], nil when the name has no labels */
  function LabelsUnder(labelCounts: map<string, map<string, nat>>, name: string): map<string, nat> {
    if name in labelCounts then labelCounts[name] else map[]
  }

  /** The first loop of admit: totals per name, and per label under each name. The order in
      which the map is walked does not matter. */
  method Tally(counts: map<CounterKey, nat>)
    returns (nameCounts: map<string, nat>, labelCounts: map<string, map<string, nat>>)
    ensures nameCounts == NameCounts(counts)
    ensures labelCounts == LabelCounts(counts)
  {
    hide Sum, NameCounts, LabelCounts, BatchNames, BatchPairs, InGroup, Groups;
    nameCounts, labelCounts := map[], map[];
    var todo := counts.Keys;
    ghost var done: map<CounterKey, nat> := map[];
    NothingTallied();
    while todo != {}
      invariant done.Keys + todo == counts.Keys && done.Keys !! todo
      invariant forall k :: k in done ==> done[k] == counts[k]
      invariant nameCounts == NameCounts(done)
      invariant labelCounts == LabelCounts(done)
    {
      var k :| k in todo;
      todo := todo - {k};
      TallyNames(done, k, counts[k]);
      TallyLabels(done, k, counts[k]);
      done := done[k := counts[k]];
      if k.group != OTHER {
        nameCounts := nameCounts[k.group := Count(nameCounts, k.group) + counts[k]];
        if k.value != "" && k.value != OTHER {
          var own := LabelsUnder(labelCounts, k.group);
          labelCounts := labelCounts[k.group := own[k.value := Count(own, k.value) + counts[k]]];
        }
      }
    }
    assert done == counts;
  }

  lemma {:induction false} NothingTallied()
    ensures NameCounts(map[]) == map[] && LabelCounts(map[]) == map[]
  {}

  /** One more key adds its count to its own name's total and to no other. */
  lemma {:induction false} TallyNames(done: map<CounterKey, nat>, k: CounterKey, n: nat)
    requires k !in done
    ensures var total := NameCounts(done);
            NameCounts(done[k := n]) == if k.group == OTHER then total else total[k.group := Count(total, k.group) + n]
  {
    hide Sum, BatchNames, InGroup;
    var next := done[k := n];
    MoreNames(done, k, n);
    OtherIsNoName(done);
    forall g ensures Sum(InGroup(next.Keys, g), next) == Sum(InGroup(done.Keys, g), done) + if g == k.group then n else 0 {
      TallyGroup(done, k, n, g);
    }
  }

  lemma {:induction false} MoreNames(done: map<CounterKey, nat>, k: CounterKey, n: nat)
    ensures BatchNames(done[k := n]) == if k.group == OTHER then BatchNames(done) else BatchNames(done) + {k.group}
    ensures k.group != OTHER && k.group !in BatchNames(done) ==> Sum(InGroup(done.Keys, k.group), done) == 0
  {
    if k.group != OTHER && k.group !in BatchNames(done) { assert InGroup(done.Keys, k.group) == {}; }
  }

  lemma {:induction false} TallyGroup(done: map<CounterKey, nat>, k: CounterKey, n: nat, g: string)
    requires k !in done
    ensures var next := done[k := n];
            Sum(InGroup(next.Keys, g), next) == Sum(InGroup(done.Keys, g), done) + if g == k.group then n else 0
  {
    var own, next := InGroup(done.Keys, g), done[k := n];
    SumAgree(own, done, next);
    assert InGroup(next.Keys, g) == if g == k.group then own + {k} else own;
    if g == k.group { SumAdd(own, k, next); }
  }

  lemma {:induction false} TallyPairs(done: map<CounterKey, nat>, k: CounterKey, n: nat)
    requires k !in done
    ensures var fits := k.group != OTHER && k.value != "" && k.value != OTHER;
            && BatchPairs(done[k := n]) == BatchPairs(done) + (if fits then {k} else {})
            && Groups(BatchPairs(done[k := n])) == Groups(BatchPairs(done)) + (if fits then {k.group} else {})
            && (k in BatchPairs(done[k := n]) <==> fits)
  {
    var fits := k.group != OTHER && k.value != "" && k.value != OTHER;
    assert BatchPairs(done[k := n]) == BatchPairs(done) + (if fits then {k} else {});
  }

  lemma {:induction false} TallyOneGroup(done: map<CounterKey, nat>, k: CounterKey, n: nat, g: string)
    requires k !in done
    ensures var own := GroupCounts(BatchPairs(done), done, g);
            && GroupCounts(BatchPairs(done[k := n]), done[k := n], g)
               == (if k in BatchPairs(done[k := n]) && g == k.group then own[k.value := n] else own)
            && (g == k.group ==> k.value !in own)
            && (g !in Groups(BatchPairs(done)) ==> own == map[])
  {
    TallyPairs(done, k, n);
    var before, after := BatchPairs(done), BatchPairs(done[k := n]);
    ValueOf(before, g);
    ValueOf(after, g);
    assert forall v :: Item(g, v) in before ==> g in Groups(before);
  }

  /** One more key sets its own label's count and touches no other. */
  lemma {:induction false} TallyLabels(done: map<CounterKey, nat>, k: CounterKey, n: nat)
    requires k !in done
    ensures var own := LabelsUnder(LabelCounts(done), k.group);
            if k.group == OTHER || k.value == "" || k.value == OTHER
            then LabelCounts(done[k := n]) == LabelCounts(done)
            else k.value !in own && LabelCounts(done[k := n]) == LabelCounts(done)[k.group := own[k.value := n]]
  {
    hide GroupCounts, Groups, BatchPairs;
    TallyPairs(done, k, n);
    TallyOneGroup(done, k, n, k.group);
    forall g | g in Groups(BatchPairs(done)) && g != k.group
      ensures GroupCounts(BatchPairs(done[k := n]), done[k := n], g) == GroupCounts(BatchPairs(done), done, g)
    {
      TallyOneGroup(done, k, n, g);
    }
    var own := LabelsUnder(LabelCounts(done), k.group);
    assert own == GroupCounts(BatchPairs(done), done, k.group);
    assert k in BatchPairs(done[k := n]) ==> LabelCounts(done[k := n]) == LabelCounts(done)[k.group := own[k.value := n]];
  }

  function LastFold(o: Option<Overflow>): Option<int> { if o.None? then None else Some(o.value.lastFoldedAt) }

  function LastReasonFold(o: Option<ReasonOverflow>): Option<int> { if o.None? then None else Some(o.value.lastFoldedAt) }

  /** greatest(last_folded_at, at) */
  function LaterOf(last: Option<int>, at: int): int { if last.Some? && at < last.value then last.value else at }

  /** counter_names, counter_labels, counter_dim_values, counter_overflow, error_reasons
      and error_reason_overflow of one tenant. */
  class Writer {
    var names: map<string, Entry>
    var labels: map<CounterKey, Entry>
    var dims: map<DimValueKey, Entry>
    var overflow: Option<Overflow>
    var reasons: map<string, Entry>
    var reasonOverflow: Option<ReasonOverflow>

    ghost function Vendor(): Tables
      reads this
    {
      Tables(names, labels, overflow)
    }

    ghost function Held(): Vocabularies
      reads this
    {
      Vocabularies(names, labels, dims, reasons)
    }

    /** Writer.admit: the unlocked read and its fast return, else the transaction. */
    method Admit(counts: map<CounterKey, nat>, nameLimit: int, labelLimit: int, at: int) returns (d: Decision)
      modifies this`names, this`labels, this`overflow
      ensures var b := Batch(counts, nameLimit, labelLimit, at);
              && d == Decide(b, Observe(b, old(Vendor())))
              && Vendor() == Commit(b, Observe(b, old(Vendor())), old(Vendor()))
      ensures Recorded(old(names), names, BatchNames(counts), at) && Recorded(old(labels), labels, BatchPairs(counts), at)
    {
      hide Decide, Commit, Touch, Stale, LabelCounts, LabelSizes, NameCounts, BatchNames, BatchPairs, Recorded;
      var b := Batch(counts, nameLimit, labelLimit, at);
      ghost var t := Vendor();
      CommitRecords(b, Observe(b, t), t);
      var nameCounts, labelCounts := Tally(counts);
      NameCountsKeys(counts);
      var pairs := BatchPairs(counts);
      var known, knownPairs := nameCounts.Keys * names.Keys, pairs * labels.Keys;
      if |known| == |nameCounts.Keys| && |knownPairs| == |pairs| {
        SubsetEqual(known, nameCounts.Keys);
        SubsetEqual(knownPairs, pairs);
        FastRefinesLocked(b, t);
        var stale := Stale(names, nameCounts.Keys, at) || Stale(labels, pairs, at);
        if stale {
          names := Touch(names, nameCounts.Keys, at);
          labels := Touch(labels, pairs, at);
        }
        d := Decision({OTHER} + nameCounts.Keys, pairs, 0, 0);
      } else {
        d := AdmitLocked(b, nameCounts, labelCounts);
      }
    }

    /** The transaction of Writer.admit, under the advisory lock. */
    method AdmitLocked(b: Batch, nameCounts: map<string, nat>, labelCounts: map<string, map<string, nat>>) returns (d: Decision)
      requires nameCounts == NameCounts(b.counts)
      requires labelCounts == LabelCounts(b.counts)
      modifies this`names, this`labels, this`overflow
      ensures d == Decide(b, Observe(b, old(Vendor())))
      ensures Vendor() == Commit(b, Observe(b, old(Vendor())), old(Vendor()))
      ensures Recorded(old(names), names, BatchNames(b.counts), b.at) && Recorded(old(labels), labels, BatchPairs(b.counts), b.at)
    {
      hide Recorded, SortedNames, PlanOf, NameCounts, LabelCounts, BatchNames, BatchPairs, LabelSizes, PairsUnder, Admits, FoldedTotal,
           Touch, InsertNew, RecordOverflow, Decide, Commit, Elements;
      assert nameCounts.Keys == BatchNames(b.counts) by { NameCountsKeys(b.counts); }
      ghost var t := Vendor();
      CommitRecords(b, Observe(b, t), t);
      var pairs := BatchPairs(b.counts);
      var known, knownPairs := nameCounts.Keys * names.Keys, pairs * labels.Keys;
      var add, foldedNames := PlanVocabulary(SortedNames(nameCounts.Keys), known, nameCounts, b.nameLimit - |names|);
      var newPairs, keptKnown, foldedLabels := AdmitLabels(b, labels.Keys, labelCounts, known + Elements(add), knownPairs);
      names := Touch(InsertNew(names, Elements(add), b.at), nameCounts.Keys, b.at);
      labels := Touch(InsertNew(labels, newPairs, b.at), pairs, b.at);
      overflow := RecordOverflow(overflow, foldedNames, foldedLabels, b.at);
      d := Decision({OTHER} + (known + Elements(add)), keptKnown + newPairs, foldedNames, foldedLabels);
      Decided(b, t, Plan(add, foldedNames), newPairs, keptKnown, foldedLabels);
    }

    /** Writer.admitDims: each (name, key) has its own cap. */
    method AdmitDims(counts: map<DimValueKey, nat>, limit: int, at: int) returns (d: DimDecision)
      modifies this`dims
      ensures var b, sizes := DimBatch(counts, limit, at), DimSizes(old(dims).Keys);
              var known := DimKeys(counts) * old(dims).Keys;
              && d == DecideDims(b, known, sizes)
              && dims == CommitDims(b, known, sizes, old(dims))
      ensures Recorded(old(dims), dims, DimKeys(counts), at)
    {
      hide Recorded, DimKeys, DimFree, DimSizes, DecideDims, CommitDims, Touch, InsertNew, Stale;
      var b, free, keys := DimBatch(counts, limit, at), DimFree(counts), DimKeys(counts);
      assert free + keys == counts.Keys by { DimParts(counts); }
      var known := keys * dims.Keys;
      DimsRecorded(b, known, DimSizes(dims.Keys), dims);
      if |known| == |keys| {
        SubsetEqual(known, keys);
        FastDimsRefinesLocked(b, dims);
        if Stale(dims, keys, at) {
          dims := Touch(dims, keys, at);
        }
        assert dims == FastDims(b, old(dims));
        d := DimDecision(free + keys, 0);
      } else {
        var add, folded := AdmitGroups(keys, counts, known, limit, DimSizes(dims.Keys));
        DimsDecided(b, known, DimSizes(dims.Keys), dims, add, folded);
        dims := Touch(InsertNew(dims, add, at), keys, at);
        d := DimDecision(free + keys * known + add, folded);
      }
    }

    /** Writer.recordFoldedDims */
    method RecordFoldedDims(n: nat, at: int)
      modifies this`overflow
      ensures n == 0 ==> overflow == old(overflow)
      ensures n > 0 ==> overflow.Some? && overflow.value.lastFoldedAt == LaterOf(LastFold(old(overflow)), at)
      ensures FoldedDims(overflow) == FoldedDims(old(overflow)) + n
      ensures FoldedNames(overflow) == FoldedNames(old(overflow)) && FoldedLabels(overflow) == FoldedLabels(old(overflow))
      ensures overflow == RecordDims(old(overflow), n, at)
    {
      if n == 0 { return; }
      if overflow.None? {
        overflow := Some(Overflow(0, 0, n, at));
      } else {
        var v := overflow.value;
        overflow := Some(v.(dims := v.dims + n, lastFoldedAt := if v.lastFoldedAt < at then at else v.lastFoldedAt));
      }
    }

    /** Writer.AdmitErrorReasons */
    method AdmitErrorReasons(counts: map<string, nat>, limit: int, at: int) returns (admitted: set<string>, folded: nat)
      modifies this`reasons, this`reasonOverflow
      ensures var b := ReasonBatch(counts, limit, at);
              var known := Reasons(b) * old(reasons).Keys;
              && ReasonDecision(admitted, folded) == DecideReasons(b, known, |old(reasons)|)
              && reasons == CommitReasons(b, known, |old(reasons)|, old(reasons))
      ensures FoldedReasons(reasonOverflow) == FoldedReasons(old(reasonOverflow)) + folded
      ensures folded == 0 ==> reasonOverflow == old(reasonOverflow)
      ensures folded > 0 ==> reasonOverflow.Some? && reasonOverflow.value.lastFoldedAt == LaterOf(LastReasonFold(old(reasonOverflow)), at)
      ensures Recorded(old(reasons), reasons, counts.Keys - {OTHER}, at)
    {
      hide Recorded, Touch, InsertNew, Stale, SortedNames, PlanOf, DecideReasons, CommitReasons, Reasons, WithOther, Elements, FoldedReasons, LastReasonFold;
      var b := ReasonBatch(counts, limit, at);
      var names := Reasons(b);
      var known := names * reasons.Keys;
      assert names == counts.Keys - {OTHER} by { ReasonKeys(b); }
      ReasonsRecorded(b, known, |reasons|, reasons);
      if |known| == |names| {
        SubsetEqual(known, names);
        FastReasonsRefinesLocked(b, reasons);
        if Stale(reasons, names, at) {
          reasons := Touch(reasons, names, at);
        }
        assert reasons == FastReasons(b, old(reasons));
        admitted, folded := WithOther(names), 0;
      } else {
        admitted, folded := AdmitReasonsLocked(b, known);
      }
    }

    /** Its transaction, under the advisory lock. */
    method AdmitReasonsLocked(b: ReasonBatch, known: set<string>) returns (admitted: set<string>, folded: nat)
      requires known == Reasons(b) * reasons.Keys
      modifies this`reasons, this`reasonOverflow
      ensures ReasonDecision(admitted, folded) == DecideReasons(b, known, |old(reasons)|)
      ensures reasons == CommitReasons(b, known, |old(reasons)|, old(reasons))
      ensures FoldedReasons(reasonOverflow) == FoldedReasons(old(reasonOverflow)) + folded
      ensures folded == 0 ==> reasonOverflow == old(reasonOverflow)
      ensures folded > 0 ==> reasonOverflow.Some? && reasonOverflow.value.lastFoldedAt == LaterOf(LastReasonFold(old(reasonOverflow)), b.at)
    {
      hide Touch, InsertNew, SortedNames, PlanOf, DecideReasons, CommitReasons, Reasons, WithOther, Elements, FoldedReasons, LastReasonFold;
      var names := Reasons(b);
      var add, n := PlanVocabulary(SortedNames(names), known, b.counts, b.limit - |reasons|);
      ReasonsDecided(b, known, reasons, add, n);
      admitted, folded := WithOther(names * known + Elements(add)), n;
      reasons := Touch(InsertNew(reasons, Elements(add), b.at), names, b.at);
      RecordFoldedReasons(n, b.at);
    }

    /** The overflow upsert of AdmitErrorReasons. */
    method RecordFoldedReasons(n: nat, at: int)
      modifies this`reasonOverflow
      ensures n == 0 ==> reasonOverflow == old(reasonOverflow)
      ensures n > 0 ==> reasonOverflow.Some? && reasonOverflow.value.lastFoldedAt == LaterOf(LastReasonFold(old(reasonOverflow)), at)
      ensures FoldedReasons(reasonOverflow) == FoldedReasons(old(reasonOverflow)) + n
    {
      if n == 0 { return; }
      if reasonOverflow.None? {
        reasonOverflow := Some(ReasonOverflow(n, at));
      } else {
        var v := reasonOverflow.value;
        reasonOverflow := Some(ReasonOverflow(v.folded + n, if v.lastFoldedAt < at then at else v.lastFoldedAt));
      }
    }

    /** The vocabulary deletes of sweepInstalls: a label or dimension value goes with its name. */
    method Sweep(cutoff: int)
      modifies this`names, this`labels, this`dims, this`reasons
      ensures Swept(old(Held()), Held(), cutoff)
    {
      reasons := Survivors(reasons, cutoff);
      names := Survivors(names, cutoff);
      labels := map k | k in labels && labels[k].lastSeen >= cutoff && k.group in names :: labels[k];
      dims := map k | k in dims && dims[k].lastSeen >= cutoff && k.group.name in names :: dims[k];
    }
  }

  function Survivors(t: map<string, Entry>, cutoff: int): map<string, Entry> {
    map k | k in t && t[k].lastSeen >= cutoff :: t[k]
  }

  lemma {:induction false} ReasonKeys(b: ReasonBatch)
    ensures Reasons(b) == b.counts.Keys - {OTHER}
  {}

  lemma {:induction false} DimParts(counts: map<DimValueKey, nat>)
    ensures DimFree(counts) + DimKeys(counts) == counts.Keys
  {}

  lemma {:induction false} DimsDecided(b: DimBatch, known: set<DimValueKey>, sizes: map<DimGroup, nat>, t: map<DimValueKey, Entry>, add: set<DimValueKey>, folded: nat)
    requires add == Admits(DimKeys(b.counts), b.counts, known, b.limit, sizes)
    requires folded == FoldedTotal(DimKeys(b.counts), b.counts, known, b.limit, sizes)
    ensures DimDecision(DimFree(b.counts) + DimKeys(b.counts) * known + add, folded) == DecideDims(b, known, sizes)
    ensures Touch(InsertNew(t, add, b.at), DimKeys(b.counts), b.at) == CommitDims(b, known, sizes, t)
  {}

  lemma {:induction false} ReasonsDecided(b: ReasonBatch, known: set<string>, t: map<string, Entry>, add: seq<string>, folded: nat)
    requires Plan(add, folded) == PlanOf(SortedNames(Reasons(b)), known, b.counts, b.limit - |t|)
    ensures ReasonDecision(WithOther(Reasons(b) * known + Elements(add)), folded) == DecideReasons(b, known, |t|)
    ensures Touch(InsertNew(t, Elements(add), b.at), Reasons(b), b.at) == CommitReasons(b, known, |t|, t)
  {
    hide PlanOf, SortedNames, Touch, InsertNew;
  }

  /** The per-group loop of admitDims. */
  method AdmitGroups(items: set<DimValueKey>, counts: map<DimValueKey, nat>, known: set<DimValueKey>, limit: int, sizes: map<DimGroup, nat>)
    returns (add: set<DimValueKey>, folded: nat)
    ensures add == Admits(items, counts, known, limit, sizes)
    ensures folded == FoldedTotal(items, counts, known, limit, sizes)
  {
    hide Admits, FoldedPerGroup, FoldedTotal, SortedNames, PlanOf, Values, Groups, InGroup, Sum;
    ghost var admits := Admits(items, counts, known, limit, sizes);
    ghost var perGroup := FoldedPerGroup(items, counts, known, limit, sizes);
    add, folded := {}, 0;
    var todo := Groups(items);
    ghost var done: set<DimGroup> := {};
    GroupsStart(admits, perGroup);
    while todo != {}
      invariant done + todo == Groups(items) && done !! todo
      invariant add == Within(admits, done)
      invariant folded == Sum(done, perGroup)
    {
      var g :| g in todo;
      todo := todo - {g};
      var values, n := PlanVocabulary(SortedNames(Values(items, g)), Values(known, g), GroupCounts(items, counts, g), limit - Count(sizes, g));
      OneGroup(items, counts, known, limit, sizes, g, values, n, done);
      add := add + Tagged(g, Elements(values));
      folded := folded + n;
      done := done + {g};
    }
    assert done == Groups(items);
    GroupsDone(items, counts, known, limit, sizes);
  }

  ghost function Within(s: set<DimValueKey>, groups: set<DimGroup>): set<DimValueKey> {
    set k | k in s && k.group in groups
  }

  lemma {:induction false} GroupsStart(s: set<DimValueKey>, perGroup: map<DimGroup, nat>)
    ensures Within(s, {}) == {} && Sum({}, perGroup) == 0
  {}

  lemma {:induction false} GroupsDone(items: set<DimValueKey>, counts: map<DimValueKey, nat>, known: set<DimValueKey>, limit: int, sizes: map<DimGroup, nat>)
    ensures Within(Admits(items, counts, known, limit, sizes), Groups(items)) == Admits(items, counts, known, limit, sizes)
    ensures FoldedTotal(items, counts, known, limit, sizes) == Sum(Groups(items), FoldedPerGroup(items, counts, known, limit, sizes))
  {}

  lemma {:induction false} OneGroup(items: set<DimValueKey>, counts: map<DimValueKey, nat>, known: set<DimValueKey>, limit: int, sizes: map<DimGroup, nat>,
                 g: DimGroup, values: seq<string>, n: nat, done: set<DimGroup>)
    requires g in Groups(items) && g !in done
    requires Plan(values, n) == PlanOf(SortedNames(Values(items, g)), Values(known, g), GroupCounts(items, counts, g), limit - Count(sizes, g))
    ensures var admits := Admits(items, counts, known, limit, sizes);
            Within(admits, done + {g}) == Within(admits, done) + Tagged(g, Elements(values))
    ensures var perGroup := FoldedPerGroup(items, counts, known, limit, sizes);
            Sum(done + {g}, perGroup) == Sum(done, perGroup) + n
  {
    hide PlanOf, SortedNames, Groups, Values, GroupCounts;
    AdmitsInGroup(items, counts, known, limit, sizes, g);
    var admits := Admits(items, counts, known, limit, sizes);
    WithinOneMore(admits, done, g);
    SumAdd(done, g, FoldedPerGroup(items, counts, known, limit, sizes));
  }

  lemma {:induction false} WithinOneMore(s: set<DimValueKey>, done: set<DimGroup>, g: DimGroup)
    ensures Within(s, done + {g}) == Within(s, done) + InGroup(s, g)
  {}

  lemma {:induction false} NameCountsKeys(counts: map<CounterKey, nat>)
    ensures NameCounts(counts).Keys == BatchNames(counts)
  {}

  /** The pieces the transaction computed are the decision and the tables it commits. */
  lemma {:induction false} Decided(b: Batch, t: Tables, plan: Plan, newPairs: set<CounterKey>, keptKnown: set<CounterKey>, foldedLabels: nat)
    requires plan == NamePlan(b, Observe(b, t))
    requires var o := Observe(b, t);
             var items := PairsUnder(b.counts, o.names + Elements(plan.add));
             && newPairs == Admits(items, b.counts, o.pairs, b.labelLimit, o.labelSizes)
             && keptKnown == items * o.pairs
             && foldedLabels == FoldedTotal(items, b.counts, o.pairs, b.labelLimit, o.labelSizes)
    ensures Decision({OTHER} + (Observe(b, t).names + Elements(plan.add)), keptKnown + newPairs, plan.folded, foldedLabels) == Decide(b, Observe(b, t))
    ensures Tables(Touch(InsertNew(t.names, Elements(plan.add), b.at), BatchNames(b.counts), b.at),
                   Touch(InsertNew(t.labels, newPairs, b.at), BatchPairs(b.counts), b.at),
                   RecordOverflow(t.overflow, plan.folded, foldedLabels, b.at)) == Commit(b, Observe(b, t), t)
  {
    hide NamePlan, Admits, FoldedTotal, PairsUnder, Touch, InsertNew, RecordOverflow, LabelSizes;
    assert KeptNames(b, Observe(b, t)) == Observe(b, t).names + Elements(plan.add);
  }

  lemma {:induction false} SubsetEqual<T>(a: set<T>, b: set<T>)
    requires a <= b && |a| == |b|
    ensures a == b
  {
    PartSizes(a, b);
    assert a * b == a;
  }

  /** The per-name loop of admit over the names that are kept. */
  method AdmitLabels(b: Batch, table: set<CounterKey>, labelCounts: map<string, map<string, nat>>, kept: set<string>, known: set<CounterKey>)
    returns (add: set<CounterKey>, keptKnown: set<CounterKey>, folded: nat)
    requires labelCounts == LabelCounts(b.counts)
    requires known <= BatchPairs(b.counts)
    ensures var items := PairsUnder(b.counts, kept);
            && add == Admits(items, b.counts, known, b.labelLimit, LabelSizes(table))
            && keptKnown == items * known
            && folded == FoldedTotal(items, b.counts, known, b.labelLimit, LabelSizes(table))
  {
    hide Admits, FoldedPerGroup, SortedNames, PlanOf, LabelSizes, LabelCounts, BatchPairs, PairsUnder, FoldedTotal, Under, Groups, InGroup;
    add, keptKnown, folded := {}, {}, 0;
    ghost var items := PairsUnder(b.counts, kept);
    ghost var sizes := LabelSizes(table);
    ghost var admits := Admits(items, b.counts, known, b.labelLimit, sizes);
    ghost var perGroup := FoldedPerGroup(items, b.counts, known, b.labelLimit, sizes);
    var order := SortedNames(kept * labelCounts.Keys);
    SortedNamesDistinct(kept * labelCounts.Keys);
    KeptGroups(b, table, known, kept);
    for i := 0 to |order|
      invariant add == Under(admits, order[..i])
      invariant keptKnown == Under(items * known, order[..i])
      invariant folded == SumSeq(order[..i], perGroup)
    {
      assert order[i] in Elements(order);
      var more, old', n := AdmitUnder(b, table, labelCounts, kept, known, order[i]);
      add, keptKnown, folded := add + more, keptKnown + old', folded + n;
      assert order[..i + 1] == order[..i] + [order[i]];
      UnderOneMore(admits, order[..i], order[i]);
      UnderOneMore(items * known, order[..i], order[i]);
      assert order[..i + 1][..i] == order[..i];
    }
    assert order[..|order|] == order;
    UnderAll(admits, order);
    UnderAll(items * known, order);
    FoldedInOrder(items, b.counts, known, b.labelLimit, sizes, order);
  }

  lemma {:induction false} KeptGroups(b: Batch, table: set<CounterKey>, known: set<CounterKey>, kept: set<string>)
    ensures var items := PairsUnder(b.counts, kept);
            var admits := Admits(items, b.counts, known, b.labelLimit, LabelSizes(table));
            && Groups(items) == kept * LabelCounts(b.counts).Keys
            && Groups(admits) <= Groups(items) && Groups(items * known) <= Groups(items)
            && Under(admits, []) == {} && Under(items * known, []) == {}
  {
    hide PlanFor, LabelSizes;
  }

  /** One turn of that loop. */
  method AdmitUnder(b: Batch, table: set<CounterKey>, labelCounts: map<string, map<string, nat>>, kept: set<string>, known: set<CounterKey>, name: string)
    returns (add: set<CounterKey>, keptKnown: set<CounterKey>, folded: nat)
    requires labelCounts == LabelCounts(b.counts) && name in labelCounts && name in kept
    requires known <= BatchPairs(b.counts)
    ensures var items := PairsUnder(b.counts, kept);
            && add == InGroup(Admits(items, b.counts, known, b.labelLimit, LabelSizes(table)), name)
            && keptKnown == InGroup(items * known, name)
            && folded == Count(FoldedPerGroup(items, b.counts, known, b.labelLimit, LabelSizes(table)), name)
  {
    hide Admits, FoldedPerGroup, SortedNames, PlanOf, LabelSizes, LabelCounts, BatchPairs, PairsUnder, InGroup, Tagged;
    var own := labelCounts[name];
    var knownLabels := set l | l in own && Item(name, l) in known;
    var labels, n := PlanVocabulary(SortedNames(own.Keys), knownLabels, own, b.labelLimit - |InGroup(table, name)|);
    LabelPlan(b, table, known, kept, name);
    add, keptKnown, folded := Tagged(name, Elements(labels)), Tagged(name, knownLabels), n;
  }

  lemma {:induction false} FoldedInOrder(items: set<CounterKey>, counts: map<CounterKey, nat>, known: set<CounterKey>, limit: int, sizes: map<string, nat>, order: seq<string>)
    requires Distinct(order) && Elements(order) == Groups(items)
    ensures FoldedTotal(items, counts, known, limit, sizes) == SumSeq(order, FoldedPerGroup(items, counts, known, limit, sizes))
  {
    hide FoldedPerGroup;
    SumSeqIsSum(order, FoldedPerGroup(items, counts, known, limit, sizes));
  }

  ghost function Under(s: set<CounterKey>, names: seq<string>): set<CounterKey> {
    set k | k in s && k.group in names
  }

  lemma {:induction false} UnderOneMore(s: set<CounterKey>, names: seq<string>, name: string)
    ensures Under(s, names + [name]) == Under(s, names) + InGroup(s, name)
  {}

  lemma {:induction false} UnderAll(s: set<CounterKey>, names: seq<string>)
    requires Groups(s) <= Elements(names)
    ensures Under(s, names) == s
  {
    assert forall k :: k in s ==> k.group in Groups(s);
  }

  lemma {:induction false} LabelPlan(b: Batch, table: set<CounterKey>, known: set<CounterKey>, kept: set<string>, name: string)
    requires name in kept && known <= BatchPairs(b.counts) && name in LabelCounts(b.counts)
    ensures var items := PairsUnder(b.counts, kept);
            var own := LabelCounts(b.counts)[name];
            var knownLabels := set l | l in own && Item(name, l) in known;
            var plan := PlanOf(SortedNames(own.Keys), knownLabels, own, b.labelLimit - |InGroup(table, name)|);
            && InGroup(Admits(items, b.counts, known, b.labelLimit, LabelSizes(table)), name) == Tagged(name, Elements(plan.add))
            && InGroup(items * known, name) == Tagged(name, knownLabels)
            && Count(FoldedPerGroup(items, b.counts, known, b.labelLimit, LabelSizes(table)), name) == plan.folded
  {
    hide PlanOf, SortedNames, BatchPairs, PairsUnder;
    var items := PairsUnder(b.counts, kept);
    LabelInputs(b, known, kept, name);
    SizeOf(table, name);
    AdmitsInGroup(items, b.counts, known, b.labelLimit, LabelSizes(table), name);
    hide Admits, LabelSizes, LabelCounts;
    ValueOf(known, name);
  }

  lemma {:induction false} LabelInputs(b: Batch, known: set<CounterKey>, kept: set<string>, name: string)
    requires name in kept && known <= BatchPairs(b.counts) && name in LabelCounts(b.counts)
    ensures var items := PairsUnder(b.counts, kept);
            var own := LabelCounts(b.counts)[name];
            && own.Keys == Values(items, name)
            && (set l | l in own && Item(name, l) in known) == Values(known, name)
            && own == GroupCounts(items, b.counts, name)
            && name in Groups(items)
  {
    var items := PairsUnder(b.counts, kept);
    ValueOf(items, name);
    ValueOf(known, name);
    ValueOf(BatchPairs(b.counts), name);
    assert LabelCounts(b.counts)[name].Keys == Values(items, name);
  }
}
