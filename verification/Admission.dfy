/** What one batch is admitted under capped vocabularies: AdmitCounters and its siblings
    (internal/storage/counters.go), AdmitErrorReasons (error_reasons.go) and admitDims
    (dims.go), for one tenant. A decision is a function of what the batch observed of the
    tenant's tables; Admitter runs it against tables, AdmissionProtocol interleaves it. */
module Admission {
  import opened Prelude
  import opened Sorting
  import opened Sums
  import opened Vocabulary
  import opened GroupPlan

  /** vocabularyTouchInterval, in nanoseconds */
  const TOUCH_INTERVAL := 24 * 3600 * 1_000_000_000

  /** group: cli.counter.name, value: cli.counter.label ("" for none) */
  type CounterKey = Item<string>

  datatype DimGroup = DimGroup(name: string, key: string)

  /** group: (name, dimension key), value: the dimension's value */
  type DimValueKey = Item<DimGroup>

  datatype Entry = Entry(firstSeen: int, lastSeen: int)

  /** UPDATE … SET last_seen = at WHERE key = ANY(keys) AND last_seen < at - interval */
  function Touch<K(==)>(t: map<K, Entry>, keys: set<K>, at: int): map<K, Entry> {
    map k | k in t :: if k in keys && t[k].lastSeen < at - TOUCH_INTERVAL then t[k].(lastSeen := at) else t[k]
  }

  /** INSERT … ON CONFLICT DO NOTHING */
  function InsertNew<K(==)>(t: map<K, Entry>, keys: set<K>, at: int): map<K, Entry> {
    map k | k in t.Keys + keys :: if k in t then t[k] else Entry(at, at)
  }

  /** Whether any of keys was last seen before the touch threshold. */
  predicate Stale<K(==)>(t: map<K, Entry>, keys: set<K>, at: int) {
    exists k :: k in keys && k in t && t[k].lastSeen < at - TOUCH_INTERVAL
  }

  lemma {:induction false} TouchNotStale<K(!new)>(t: map<K, Entry>, keys: set<K>, at: int)
    ensures Touch(t, keys, at).Keys == t.Keys
    ensures !Stale(t, keys, at) ==> Touch(t, keys, at) == t
  {}

  lemma {:induction false} InsertNothing<K(!new)>(t: map<K, Entry>, keys: set<K>, at: int)
    ensures Touch(InsertNew(t, {}, at), keys, at) == if Stale(t, keys, at) then Touch(t, keys, at) else t
  {
    assert InsertNew(t, {}, at) == t;
    TouchNotStale(t, keys, at);
  }

  // ---- Counter, measure and value names and labels ----

  datatype Batch = Batch(counts: map<CounterKey, nat>, nameLimit: int, labelLimit: int, at: int)

  datatype Overflow = Overflow(names: nat, labels: nat, dims: nat, lastFoldedAt: int)

  datatype Tables = Tables(names: map<string, Entry>, labels: map<CounterKey, Entry>, overflow: Option<Overflow>)

  /** CounterAdmission */
  datatype Decision = Decision(names: set<string>, labels: set<CounterKey>, foldedNames: nat, foldedLabels: nat)

  /** What a batch has read: which of its names and pairs are known, how many names the
      tenant has, and how many labels each name has. */
  datatype Observed = Observed(names: set<string>, pairs: set<CounterKey>, nameSize: nat, labelSizes: map<string, nat>)

  function BatchNames(counts: map<CounterKey, nat>): set<string> {
    set k | k in counts && k.group != OTHER :: k.group
  }

  function BatchPairs(counts: map<CounterKey, nat>): set<CounterKey> {
    set k | k in counts && k.group != OTHER && k.value != "" && k.value != OTHER
  }

  ghost function NameCounts(counts: map<CounterKey, nat>): map<string, nat> {
    map n | n in BatchNames(counts) :: Sum(InGroup(counts.Keys, n), counts)
  }

  ghost function NamePlan(b: Batch, o: Observed): Plan {
    PlanOf(SortedNames(BatchNames(b.counts)), o.names, NameCounts(b.counts), b.nameLimit - o.nameSize)
  }

  ghost function NewNames(b: Batch, o: Observed): set<string> {
    Elements(NamePlan(b, o).add)
  }

  ghost function KeptNames(b: Batch, o: Observed): set<string> {
    BatchNames(b.counts) * o.names + NewNames(b, o)
  }

  function PairsUnder(counts: map<CounterKey, nat>, names: set<string>): set<CounterKey> {
    set k | k in BatchPairs(counts) && k.group in names
  }

  ghost function KeptPairs(b: Batch, o: Observed): set<CounterKey> {
    PairsUnder(b.counts, KeptNames(b, o))
  }

  ghost function NewPairs(b: Batch, o: Observed): set<CounterKey> {
    Admits(KeptPairs(b, o), b.counts, o.pairs, b.labelLimit, o.labelSizes)
  }

  ghost function Decide(b: Batch, o: Observed): Decision {
    Decision({OTHER} + KeptNames(b, o),
             KeptPairs(b, o) * o.pairs + NewPairs(b, o),
             NamePlan(b, o).folded,
             FoldedTotal(KeptPairs(b, o), b.counts, o.pairs, b.labelLimit, o.labelSizes))
  }

  function LabelSizes(labels: set<CounterKey>): map<string, nat> {
    map n | n in Groups(labels) :: |InGroup(labels, n)|
  }

  lemma {:induction false} SizeOf(table: set<CounterKey>, name: string)
    ensures Count(LabelSizes(table), name) == |InGroup(table, name)|
  {
    assert forall k :: k in InGroup(table, name) ==> name in Groups(table);
    assert name !in Groups(table) ==> InGroup(table, name) == {};
  }

  function Observe(b: Batch, t: Tables): Observed {
    Observed(BatchNames(b.counts) * t.names.Keys, BatchPairs(b.counts) * t.labels.Keys, |t.names|, LabelSizes(t.labels.Keys))
  }

  function RecordOverflow(o: Option<Overflow>, names: nat, labels: nat, at: int): Option<Overflow> {
    if names == 0 && labels == 0 then o
    else match o
      case None => Some(Overflow(names, labels, 0, at))
      case Some(v) => Some(Overflow(v.names + names, v.labels + labels, v.dims, if v.lastFoldedAt < at then at else v.lastFoldedAt))
  }

  /** recordFoldedDims */
  function RecordDims(o: Option<Overflow>, n: nat, at: int): Option<Overflow> {
    if n == 0 then o
    else match o
      case None => Some(Overflow(0, 0, n, at))
      case Some(v) => Some(v.(dims := v.dims + n, lastFoldedAt := if v.lastFoldedAt < at then at else v.lastFoldedAt))
  }

  /** The tables after the locked transaction commits what it decided. */
  ghost function Commit(b: Batch, o: Observed, t: Tables): Tables {
    Tables(Touch(InsertNew(t.names, NewNames(b, o), b.at), BatchNames(b.counts), b.at),
           Touch(InsertNew(t.labels, NewPairs(b, o), b.at), BatchPairs(b.counts), b.at),
           RecordOverflow(t.overflow, Decide(b, o).foldedNames, Decide(b, o).foldedLabels, b.at))
  }

  // ---- The overflow row ----

  function FoldedNames(o: Option<Overflow>): nat { if o.None? then 0 else o.value.names }
  function FoldedLabels(o: Option<Overflow>): nat { if o.None? then 0 else o.value.labels }
  function FoldedDims(o: Option<Overflow>): nat { if o.None? then 0 else o.value.dims }

  /** One write to the row: by admit, or by recordFoldedDims. */
  datatype Folding = OfNames(names: nat, labels: nat, at: int) | OfDims(dims: nat, at: int)

  function Record(o: Option<Overflow>, f: Folding): Option<Overflow> {
    match f
    case OfNames(names, labels, at) => RecordOverflow(o, names, labels, at)
    case OfDims(dims, at) => RecordDims(o, dims, at)
  }

  function RecordAll(fs: seq<Folding>): Option<Overflow> {
    if fs == [] then None else Record(RecordAll(fs[..|fs| - 1]), fs[|fs| - 1])
  }

  predicate FoldsAny(f: Folding) { if f.OfNames? then f.names > 0 || f.labels > 0 else f.dims > 0 }

  function TotalNames(fs: seq<Folding>): nat {
    if fs == [] then 0 else TotalNames(fs[..|fs| - 1]) + if fs[|fs| - 1].OfNames? then fs[|fs| - 1].names else 0
  }

  function TotalLabels(fs: seq<Folding>): nat {
    if fs == [] then 0 else TotalLabels(fs[..|fs| - 1]) + if fs[|fs| - 1].OfNames? then fs[|fs| - 1].labels else 0
  }

  function TotalDims(fs: seq<Folding>): nat {
    if fs == [] then 0 else TotalDims(fs[..|fs| - 1]) + if fs[|fs| - 1].OfDims? then fs[|fs| - 1].dims else 0
  }

  /** Whatever batches record in whatever order, the row holds the three totals and the latest
      time anything was folded, and exists only once something was. */
  lemma {:induction false} OverflowTallies(fs: seq<Folding>)
    ensures var o := RecordAll(fs);
            && FoldedNames(o) == TotalNames(fs) && FoldedLabels(o) == TotalLabels(fs) && FoldedDims(o) == TotalDims(fs)
            && (o.Some? <==> exists i :: 0 <= i < |fs| && FoldsAny(fs[i]))
            && (o.Some? ==> exists i :: 0 <= i < |fs| && FoldsAny(fs[i]) && fs[i].at == o.value.lastFoldedAt)
            && (o.Some? ==> forall i :: 0 <= i < |fs| && FoldsAny(fs[i]) ==> fs[i].at <= o.value.lastFoldedAt)
  {
    if fs != [] {
      var init, last := fs[..|fs| - 1], fs[|fs| - 1];
      OverflowTallies(init);
      assert forall i :: 0 <= i < |init| ==> fs[i] == init[i];
      var was := RecordAll(init);
      if was.Some? {
        var i :| 0 <= i < |init| && FoldsAny(init[i]) && init[i].at == was.value.lastFoldedAt;
        assert FoldsAny(fs[i]) && fs[i].at == was.value.lastFoldedAt;
      }
      if FoldsAny(last) { assert FoldsAny(fs[|fs| - 1]); }
    }
  }

  predicate AllKnown(b: Batch, t: Tables) {
    BatchNames(b.counts) <= t.names.Keys && BatchPairs(b.counts) <= t.labels.Keys
  }

  /** The unlocked path: everything is known, at most a touch. */
  function FastTables(b: Batch, t: Tables): Tables {
    if Stale(t.names, BatchNames(b.counts), b.at) || Stale(t.labels, BatchPairs(b.counts), b.at)
    then Tables(Touch(t.names, BatchNames(b.counts), b.at), Touch(t.labels, BatchPairs(b.counts), b.at), t.overflow)
    else t
  }

  function FastDecision(b: Batch): Decision {
    Decision({OTHER} + BatchNames(b.counts), BatchPairs(b.counts), 0, 0)
  }

  lemma {:induction false} AllKnownPlan(b: Batch, t: Tables)
    requires AllKnown(b, t)
    ensures NewNames(b, Observe(b, t)) == {} && NamePlan(b, Observe(b, t)).folded == 0
    ensures KeptNames(b, Observe(b, t)) == BatchNames(b.counts)
  {
    hide SortedNames, PlanOf;
    var o := Observe(b, t);
    PlanAllKnown(SortedNames(BatchNames(b.counts)), o.names, NameCounts(b.counts), b.nameLimit - o.nameSize);
  }

  lemma {:induction false} KeptAllPairs(b: Batch, o: Observed)
    requires KeptNames(b, o) == BatchNames(b.counts)
    ensures KeptPairs(b, o) == BatchPairs(b.counts)
  {
    hide KeptNames;
    forall k | k in BatchPairs(b.counts) ensures k.group in BatchNames(b.counts) {}
  }

  lemma {:induction false} AllKnownDecision(b: Batch, t: Tables)
    requires AllKnown(b, t)
    ensures NewPairs(b, Observe(b, t)) == {}
    ensures Decide(b, Observe(b, t)) == FastDecision(b)
  {
    hide NamePlan, NewNames, Admits, FoldedTotal, LabelSizes, BatchNames, KeptNames;
    var o := Observe(b, t);
    AllKnownPlan(b, t);
    KeptAllPairs(b, o);
    assert o.pairs == BatchPairs(b.counts);
    GroupPlan.AllKnown(KeptPairs(b, o), b.counts, o.pairs, b.labelLimit, o.labelSizes);
  }

  /** Where every name and pair is known, the unlocked path answers and stores exactly what
      the locked transaction would have. */
  lemma {:induction false} FastRefinesLocked(b: Batch, t: Tables)
    requires AllKnown(b, t)
    ensures Decide(b, Observe(b, t)) == FastDecision(b)
    ensures Commit(b, Observe(b, t), t) == FastTables(b, t)
  {
    hide Decide, NewNames, NewPairs, BatchNames, BatchPairs, Observe, Touch, InsertNew, Stale;
    AllKnownPlan(b, t);
    AllKnownDecision(b, t);
    InsertNothing(t.names, BatchNames(b.counts), b.at);
    InsertNothing(t.labels, BatchPairs(b.counts), b.at);
    TouchNotStale(t.names, BatchNames(b.counts), b.at);
    TouchNotStale(t.labels, BatchPairs(b.counts), b.at);
  }

  // ---- The fold counters count data points ----

  /** The batch's data points whose name was not admitted. */
  function NameFolds(counts: map<CounterKey, nat>, d: Decision): set<CounterKey> {
    set k | k in counts && k.group !in d.names
  }

  /** The batch's data points that keep their name and lose their label. */
  function LabelFolds(counts: map<CounterKey, nat>, d: Decision): set<CounterKey> {
    set k | k in counts && k.group in d.names && k.group != OTHER && k.value != "" && k.value != OTHER && k !in d.labels
  }

  lemma {:induction false} FoldedNamesCounted(b: Batch, o: Observed)
    ensures Decide(b, o).foldedNames == Sum(NameFolds(b.counts, Decide(b, o)), b.counts)
  {
    hide SortedNames, PlanOf, Sum, Elements, BatchNames, NameCounts, NameFolds, InGroup, Groups, Admits, FoldedTotal, KeptPairs;
    var names := SortedNames(BatchNames(b.counts));
    SortedNamesDistinct(BatchNames(b.counts));
    PlanConserves(names, o.names, NameCounts(b.counts), b.nameLimit - o.nameSize);
    var rest := BatchNames(b.counts) - o.names - NewNames(b, o);
    var folds := NameFolds(b.counts, Decide(b, o));
    OtherIsNoName(b.counts);
    assert rest == BatchNames(b.counts) - Decide(b, o).names;
    FoldedGroups(b.counts, Decide(b, o), rest);
    SumByGroup(folds, b.counts, rest, NameCounts(b.counts));
  }

  lemma {:induction false} OtherIsNoName(counts: map<CounterKey, nat>)
    ensures OTHER !in BatchNames(counts)
  {}

  /** The names that fold are groups of the data points that do, and each takes all of its. */
  lemma {:induction false} FoldedGroups(counts: map<CounterKey, nat>, d: Decision, rest: set<string>)
    requires OTHER in d.names && rest == BatchNames(counts) - d.names
    ensures var folds := NameFolds(counts, d);
            && Groups(folds) <= rest
            && forall n :: n in rest ==> Count(NameCounts(counts), n) == Sum(InGroup(folds, n), counts)
  {
    hide Sum;
    var folds := NameFolds(counts, d);
    forall n | n in rest ensures Count(NameCounts(counts), n) == Sum(InGroup(folds, n), counts) {
      assert InGroup(folds, n) == InGroup(counts.Keys, n);
    }
  }

  lemma {:induction false} FoldedLabelsCounted(b: Batch, o: Observed)
    requires o.pairs <= BatchPairs(b.counts)
    ensures Decide(b, o).foldedLabels == Sum(LabelFolds(b.counts, Decide(b, o)), b.counts)
  {
    hide NamePlan, Admits, FoldedTotal;
    FoldedIsRest(KeptPairs(b, o), b.counts, o.pairs, b.labelLimit, o.labelSizes);
    var rest := KeptPairs(b, o) - o.pairs - NewPairs(b, o);
    forall k ensures k in rest <==> k in LabelFolds(b.counts, Decide(b, o)) {
      if k in LabelFolds(b.counts, Decide(b, o)) { assert k.group in KeptNames(b, o); }
      if k in rest { KeptNotOther(b, o); }
    }
    assert rest == LabelFolds(b.counts, Decide(b, o));
  }

  lemma {:induction false} KeptNotOther(b: Batch, o: Observed)
    ensures OTHER !in KeptNames(b, o)
    ensures KeptNames(b, o) <= BatchNames(b.counts)
    ensures NewNames(b, o) <= BatchNames(b.counts) - o.names
  {
    hide SortedNames, PlanOf, NameCounts, Distinct;
    var names := SortedNames(BatchNames(b.counts));
    SortedNamesDistinct(BatchNames(b.counts));
    PlanShape(names, o.names, NameCounts(b.counts), b.nameLimit - o.nameSize);
  }

  // ---- Dimension values ----

  datatype DimBatch = DimBatch(counts: map<DimValueKey, nat>, limit: int, at: int)

  /** DimAdmission */
  datatype DimDecision = DimDecision(values: set<DimValueKey>, folded: nat)

  predicate AlwaysAdmitted(k: DimValueKey) {
    k.value == OTHER || k.group.name == OTHER
  }

  function DimKeys(counts: map<DimValueKey, nat>): set<DimValueKey> {
    set k | k in counts && !AlwaysAdmitted(k)
  }

  function DimFree(counts: map<DimValueKey, nat>): set<DimValueKey> {
    set k | k in counts && AlwaysAdmitted(k)
  }

  function DimSizes(dims: set<DimValueKey>): map<DimGroup, nat> {
    map g | g in Groups(dims) :: |InGroup(dims, g)|
  }

  ghost function NewValues(b: DimBatch, known: set<DimValueKey>, sizes: map<DimGroup, nat>): set<DimValueKey> {
    Admits(DimKeys(b.counts), b.counts, known, b.limit, sizes)
  }

  ghost function DecideDims(b: DimBatch, known: set<DimValueKey>, sizes: map<DimGroup, nat>): DimDecision {
    DimDecision(DimFree(b.counts) + DimKeys(b.counts) * known + NewValues(b, known, sizes),
                FoldedTotal(DimKeys(b.counts), b.counts, known, b.limit, sizes))
  }

  ghost function CommitDims(b: DimBatch, known: set<DimValueKey>, sizes: map<DimGroup, nat>, t: map<DimValueKey, Entry>): map<DimValueKey, Entry> {
    Touch(InsertNew(t, NewValues(b, known, sizes), b.at), DimKeys(b.counts), b.at)
  }

  function FastDims(b: DimBatch, t: map<DimValueKey, Entry>): map<DimValueKey, Entry> {
    if Stale(t, DimKeys(b.counts), b.at) then Touch(t, DimKeys(b.counts), b.at) else t
  }

  lemma {:induction false} FastDimsRefinesLocked(b: DimBatch, t: map<DimValueKey, Entry>)
    requires DimKeys(b.counts) <= t.Keys
    ensures var known := DimKeys(b.counts) * t.Keys;
            && DecideDims(b, known, DimSizes(t.Keys)) == DimDecision(b.counts.Keys, 0)
            && CommitDims(b, known, DimSizes(t.Keys), t) == FastDims(b, t)
  {
    hide Admits, FoldedTotal, Touch, InsertNew, Stale;
    var known := DimKeys(b.counts) * t.Keys;
    assert known == DimKeys(b.counts);
    GroupPlan.AllKnown(DimKeys(b.counts), b.counts, known, b.limit, DimSizes(t.Keys));
    assert DimFree(b.counts) + DimKeys(b.counts) == b.counts.Keys;
    InsertNothing(t, DimKeys(b.counts), b.at);
  }

  /** A batch without dimensions decides and stores nothing. */
  lemma {:induction false} NoDims(b: DimBatch, known: set<DimValueKey>, sizes: map<DimGroup, nat>, t: map<DimValueKey, Entry>)
    requires b.counts == map[]
    ensures DecideDims(b, known, sizes).folded == 0
    ensures CommitDims(b, known, sizes, t) == t
  {
    hide Admits, FoldedTotal;
    assert DimKeys(b.counts) == {};
    GroupPlan.AllKnown(DimKeys(b.counts), b.counts, known, b.limit, sizes);
    InsertNothing(t, DimKeys(b.counts), b.at);
  }

  /** The folded count is exactly the occurrences of values that were not admitted, so it is
      zero only if every value was. */
  lemma {:induction false} DimFoldsCounted(b: DimBatch, known: set<DimValueKey>, sizes: map<DimGroup, nat>)
    ensures var d := DecideDims(b, known, sizes);
            d.folded == Sum(b.counts.Keys - d.values, b.counts)
  {
    hide Admits, FoldedTotal;
    FoldedIsRest(DimKeys(b.counts), b.counts, known, b.limit, sizes);
    assert b.counts.Keys - DecideDims(b, known, sizes).values == DimKeys(b.counts) - known - NewValues(b, known, sizes);
  }

  // ---- Error reasons ----

  datatype ReasonBatch = ReasonBatch(counts: map<string, nat>, limit: int, at: int)

  datatype ReasonDecision = ReasonDecision(admitted: set<string>, folded: nat)

  /** error_reason_overflow */
  datatype ReasonOverflow = ReasonOverflow(folded: nat, lastFoldedAt: int)

  function FoldedReasons(o: Option<ReasonOverflow>): nat { if o.None? then 0 else o.value.folded }

  /** "other" is always admitted */
  function WithOther(s: set<string>): set<string> {
    {OTHER} + s
  }

  function Reasons(b: ReasonBatch): set<string> {
    b.counts.Keys - {OTHER}
  }

  function ReasonPlan(b: ReasonBatch, known: set<string>, size: nat): Plan {
    PlanOf(SortedNames(Reasons(b)), known, b.counts, b.limit - size)
  }

  function DecideReasons(b: ReasonBatch, known: set<string>, size: nat): ReasonDecision {
    var plan := ReasonPlan(b, known, size);
    ReasonDecision(WithOther(Reasons(b) * known + Elements(plan.add)), plan.folded)
  }

  function CommitReasons(b: ReasonBatch, known: set<string>, size: nat, t: map<string, Entry>): map<string, Entry> {
    Touch(InsertNew(t, Elements(ReasonPlan(b, known, size).add), b.at), Reasons(b), b.at)
  }

  function FastReasons(b: ReasonBatch, t: map<string, Entry>): map<string, Entry> {
    if Stale(t, Reasons(b), b.at) then Touch(t, Reasons(b), b.at) else t
  }

  lemma {:induction false} FastReasonsRefinesLocked(b: ReasonBatch, t: map<string, Entry>)
    requires Reasons(b) <= t.Keys
    ensures var known := Reasons(b) * t.Keys;
            && DecideReasons(b, known, |t|) == ReasonDecision(WithOther(Reasons(b)), 0)
            && CommitReasons(b, known, |t|, t) == FastReasons(b, t)
  {
    hide SortedNames, PlanOf, Touch, InsertNew, Stale, WithOther, Reasons;
    var known := Reasons(b) * t.Keys;
    PlanAllKnown(SortedNames(Reasons(b)), known, b.counts, b.limit - |t|);
    assert known == Reasons(b) && Elements([]) == {};
    assert Reasons(b) * known + Elements([]) == Reasons(b);
    InsertNothing(t, Reasons(b), b.at);
  }

  /** The folded count is exactly the records whose reason was not admitted. */
  lemma {:induction false} ReasonFoldsCounted(b: ReasonBatch, known: set<string>, size: nat)
    ensures var d := DecideReasons(b, known, size);
            d.folded == Sum(b.counts.Keys - d.admitted, b.counts)
  {
    hide SortedNames, PlanOf, Sum, Elements, Reasons, WithOther;
    var names := SortedNames(Reasons(b));
    SortedNamesDistinct(Reasons(b));
    PlanConserves(names, known, b.counts, b.limit - size);
    ReasonsLeft(b, known, Elements(ReasonPlan(b, known, size).add));
  }

  lemma {:induction false} ReasonsLeft(b: ReasonBatch, known: set<string>, add: set<string>)
    ensures b.counts.Keys - WithOther(Reasons(b) * known + add) == Reasons(b) - known - add
  {}
}
