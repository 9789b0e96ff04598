/** Any number of batches admitted concurrently, and retention sweeps that take no lock.
    Each statement that reads or writes a vocabulary is one step; a batch's inserts become
    visible when its transaction commits. Sweeps may delete any entries at any time, also
    between the statements of a locked transaction. */
module AdmissionProtocol {
  import opened Prelude
  import opened Sorting
  import opened Sums
  import opened Vocabulary
  import opened GroupPlan
  import opened Admission

  datatype Phase<K, G> =
    | Reading(known: set<K>)
    | ReRead(known: set<K>)
    | Counted(known: set<K>, sizes: map<G, nat>)
    | Returned(admitted: set<K>)

  /** A batch: the keys it carries and the caps it was given for each group. */
  datatype Job<K, !G> = Job(keys: set<K>, limit: G -> int, phase: Phase<K, G>)

  /** table: the vocabulary's keys. holder: the job holding the tenant's advisory lock. */
  datatype State<K, !G> = State(table: set<K>, jobs: map<nat, Job<K, G>>, holder: Option<nat>)

  datatype Step<K, G> =
    | Look(job: nat, part: set<K>)        // read which of part are known (one table at a time)
    | FastReturn(job: nat)                // the unlocked reads found everything: return
    | Acquire(job: nat)                   // they did not: take the lock and start over
    | CountGroups(job: nat, groups: set<G>)
    | CommitAdd(job: nat, add: set<K>)
    | Rollback(job: nat)
    | SweepAway(gone: set<K>)

  ghost function Members<K(!new), G(!new)>(s: set<K>, group: K -> G, g: G): set<K> {
    set k | k in s && group(k) == g
  }

  /** What a plan may add, given what its transaction has read. */
  ghost predicate Legal<K(!new), G(!new)>(group: K -> G, keys: set<K>, limit: G -> int, known: set<K>, sizes: map<G, nat>, add: set<K>) {
    && add <= keys - known
    && forall g {:trigger Members(add, group, g)} :: Members(add, group, g) == {} || (g in sizes && |Members(add, group, g)| <= limit(g) - sizes[g])
  }

  ghost predicate Enabled<K(!new), G(!new)>(group: K -> G, s: State<K, G>, step: Step<K, G>) {
    match step
    case Look(j, _) => j in s.jobs && (s.jobs[j].phase.Reading? || s.jobs[j].phase.ReRead?)
    case FastReturn(j) => j in s.jobs && s.jobs[j].phase.Reading? && s.jobs[j].keys <= s.jobs[j].phase.known
    case Acquire(j) => j in s.jobs && s.jobs[j].phase.Reading? && s.holder.None?
    case CountGroups(j, _) => j in s.jobs && (s.jobs[j].phase.ReRead? || s.jobs[j].phase.Counted?)
    case CommitAdd(j, add) =>
      && j in s.jobs && s.jobs[j].phase.Counted?
      && Legal(group, s.jobs[j].keys, s.jobs[j].limit, s.jobs[j].phase.known, s.jobs[j].phase.sizes, add)
    case Rollback(j) => j in s.jobs && InTransaction(s.jobs[j].phase)
    case SweepAway(_) => true
  }

  predicate InTransaction<K, G>(p: Phase<K, G>) {
    p.ReRead? || p.Counted?
  }

  ghost function SetPhase<K, G>(s: State<K, G>, j: nat, p: Phase<K, G>): State<K, G>
    requires j in s.jobs
  {
    s.(jobs := s.jobs[j := s.jobs[j].(phase := p)])
  }

  ghost function SizesRead<K(!new), G(!new)>(group: K -> G, table: set<K>, groups: set<G>): map<G, nat> {
    map g | g in groups :: |Members(table, group, g)|
  }

  ghost function Apply<K(!new), G(!new)>(group: K -> G, s: State<K, G>, step: Step<K, G>): State<K, G>
    requires Enabled(group, s, step)
  {
    match step
    case Look(j, part) =>
      var seen := s.jobs[j].phase.known + part * s.jobs[j].keys * s.table;
      SetPhase(s, j, if s.jobs[j].phase.Reading? then Reading(seen) else ReRead(seen))
    case FastReturn(j) => SetPhase(s, j, Returned(s.jobs[j].keys))
    case Acquire(j) => SetPhase(s, j, ReRead({})).(holder := Some(j))
    case CountGroups(j, groups) =>
      var before := if s.jobs[j].phase.Counted? then s.jobs[j].phase.sizes else map[];
      SetPhase(s, j, Counted(s.jobs[j].phase.known, before + SizesRead(group, s.table, groups)))
    case CommitAdd(j, add) =>
      SetPhase(s, j, Returned(s.jobs[j].keys * s.jobs[j].phase.known + add)).(table := s.table + add, holder := None)
    case Rollback(j) => SetPhase(s, j, Reading({})).(holder := None)
    case SweepAway(gone) => s.(table := s.table - gone)
  }

  /** Only the lock's holder is inside a transaction, and no group has grown since it was
      counted: only the holder inserts. */
  ghost predicate Inv<K(!new), G(!new)>(group: K -> G, s: State<K, G>) {
    && (forall j :: j in s.jobs && InTransaction(s.jobs[j].phase) ==> s.holder == Some(j))
    && (forall j, g {:trigger g in s.jobs[j].phase.sizes} ::
          j in s.jobs && s.jobs[j].phase.Counted? && g in s.jobs[j].phase.sizes
          ==> |Members(s.table, group, g)| <= s.jobs[j].phase.sizes[g])
  }

  ghost predicate WithinCaps<K(!new), G(!new)>(group: K -> G, s: State<K, G>, cap: G -> int) {
    forall g :: |Members(s.table, group, g)| <= cap(g)
  }

  lemma {:induction false} MembersSubset<K(!new), G(!new)>(a: set<K>, b: set<K>, group: K -> G, g: G)
    requires a <= b
    ensures |Members(a, group, g)| <= |Members(b, group, g)|
  {
    SubsetSize(Members(a, group, g), Members(b, group, g));
  }

  lemma {:induction false} MembersUnion<K(!new), G(!new)>(a: set<K>, b: set<K>, group: K -> G, g: G)
    ensures |Members(a + b, group, g)| <= |Members(a, group, g)| + |Members(b, group, g)|
    ensures Members(b, group, g) == {} ==> Members(a + b, group, g) == Members(a, group, g)
  {
    var x, y := Members(a, group, g), Members(b, group, g);
    assert Members(a + b, group, g) == x + y;
    PartSizes(x, y);
    assert x + y == x + (y - x);
  }

  lemma {:induction false} StepKeepsInv<K(!new), G(!new)>(group: K -> G, s: State<K, G>, step: Step<K, G>)
    requires Inv(group, s) && Enabled(group, s, step)
    ensures Inv(group, Apply(group, s, step))
  {
    hide Members;
    var t := Apply(group, s, step);
    if step.SweepAway? {
      forall j, g | j in t.jobs && t.jobs[j].phase.Counted? && g in t.jobs[j].phase.sizes
        ensures |Members(t.table, group, g)| <= t.jobs[j].phase.sizes[g]
      {
        MembersSubset(t.table, s.table, group, g);
      }
    }
  }

  /** Whatever the other jobs and the sweeps do, a step leaves no group larger than it was or
      than the cap the committing job was given. */
  lemma {:induction false} StepKeepsCaps<K(!new), G(!new)>(group: K -> G, s: State<K, G>, step: Step<K, G>, g: G)
    requires Inv(group, s) && Enabled(group, s, step)
    ensures var before, after := |Members(s.table, group, g)|, |Members(Apply(group, s, step).table, group, g)|;
            after <= before || (step.CommitAdd? && after <= s.jobs[step.job].limit(g))
  {
    hide Members;
    match step {
      case CommitAdd(j, add) =>
        MembersUnion(s.table, add, group, g);
        if Members(add, group, g) != {} {
          assert g in s.jobs[j].phase.sizes;
        }
      case SweepAway(gone) => MembersSubset(s.table - gone, s.table, group, g);
      case _ =>
    }
  }

  // ---- Whole runs ----

  ghost predicate Run<K(!new), G(!new)>(group: K -> G, s: State<K, G>, steps: seq<Step<K, G>>)
    decreases |steps|
  {
    steps == [] || (Enabled(group, s, steps[0]) && Run(group, Apply(group, s, steps[0]), steps[1..]))
  }

  ghost function After<K(!new), G(!new)>(group: K -> G, s: State<K, G>, steps: seq<Step<K, G>>): State<K, G>
    requires Run(group, s, steps)
    decreases |steps|
  {
    if steps == [] then s else After(group, Apply(group, s, steps[0]), steps[1..])
  }

  ghost predicate LimitsWithin<K, G(!new)>(s: State<K, G>, cap: G -> int) {
    forall j, g {:trigger s.jobs[j].limit(g)} :: j in s.jobs ==> s.jobs[j].limit(g) <= cap(g)
  }

  /** No interleaving of batches and sweeps ever takes a vocabulary past its cap. */
  lemma {:induction false} RunKeepsCaps<K(!new), G(!new)>(group: K -> G, s: State<K, G>, steps: seq<Step<K, G>>, cap: G -> int)
    requires Inv(group, s) && Run(group, s, steps)
    requires LimitsWithin(s, cap) && WithinCaps(group, s, cap)
    ensures WithinCaps(group, After(group, s, steps), cap)
    ensures Inv(group, After(group, s, steps))
    decreases |steps|
  {
    if steps != [] {
      var t := Apply(group, s, steps[0]);
      StepKeepsInv(group, s, steps[0]);
      forall g ensures |Members(t.table, group, g)| <= cap(g) {
        StepKeepsCaps(group, s, steps[0], g);
      }
      forall j, g | j in t.jobs ensures t.jobs[j].limit(g) <= cap(g) {
        assert s.jobs[j].limit(g) <= cap(g);
      }
      RunKeepsCaps(group, t, steps[1..], cap);
    }
  }

  /** A tenant's vocabulary starts empty, every batch having arrived and none begun. */
  ghost predicate Init<K(!new), G>(s: State<K, G>) {
    s.table == {} && s.holder.None? && forall j :: j in s.jobs ==> s.jobs[j].phase == Reading({})
  }

  lemma {:induction false} FromEmptyWithinCaps<K(!new), G(!new)>(group: K -> G, s: State<K, G>, steps: seq<Step<K, G>>, cap: G -> int)
    requires Init(s) && Run(group, s, steps) && LimitsWithin(s, cap)
    requires forall g :: 0 <= cap(g)
    ensures WithinCaps(group, After(group, s, steps), cap)
  {
    forall g ensures |Members(s.table, group, g)| <= cap(g) {
      assert Members(s.table, group, g) == {};
    }
    RunKeepsCaps(group, s, steps, cap);
  }

  // ---- Runs without a sweep ----

  /** Everything any job has been told it may store is in the table. */
  ghost predicate AnswersStored<K(!new), G(!new)>(s: State<K, G>) {
    forall j :: j in s.jobs ==>
      && (s.jobs[j].phase.Returned? ==> s.jobs[j].phase.admitted <= s.table)
      && (!s.jobs[j].phase.Returned? ==> s.jobs[j].phase.known <= s.table)
  }

  ghost function Answers<K(!new), G>(s: State<K, G>): set<K> {
    set j, k | j in s.jobs && s.jobs[j].phase.Returned? && k in s.jobs[j].phase.admitted :: k
  }

  lemma {:induction false} AnswersStayStored<K(!new), G(!new)>(group: K -> G, s: State<K, G>, steps: seq<Step<K, G>>)
    requires Run(group, s, steps) && AnswersStored(s)
    requires forall i :: 0 <= i < |steps| ==> !steps[i].SweepAway?
    ensures AnswersStored(After(group, s, steps))
    decreases |steps|
  {
    if steps != [] {
      assert AnswersStored(Apply(group, s, steps[0]));
      AnswersStayStored(group, Apply(group, s, steps[0]), steps[1..]);
    }
  }

  /** Two batches can't both take the last free slot: until a sweep frees slots, all the
      batches' answers together name no more keys of a group than its cap. */
  lemma {:induction false} AnswersShareTheCap<K(!new), G(!new)>(group: K -> G, s: State<K, G>, steps: seq<Step<K, G>>, cap: G -> int, g: G)
    requires Init(s) && Run(group, s, steps) && LimitsWithin(s, cap)
    requires forall h :: 0 <= cap(h)
    requires forall i :: 0 <= i < |steps| ==> !steps[i].SweepAway?
    ensures |Members(Answers(After(group, s, steps)), group, g)| <= cap(g)
  {
    FromEmptyWithinCaps(group, s, steps, cap);
    AnswersStayStored(group, s, steps);
    var t := After(group, s, steps);
    assert Answers(t) <= t.table;
    MembersSubset(Answers(t), t.table, group, g);
  }

  // ---- The three vocabularies are instances ----

  /** Names and labels share one lock; each name's labels are a group. */
  datatype VocabularyKey = NameKey(name: string) | LabelKey(pair: CounterKey)
  datatype VocabularyGroup = AllNames | LabelsOf(name: string)

  function GroupOf(k: VocabularyKey): VocabularyGroup {
    match k
    case NameKey(_) => AllNames
    case LabelKey(p) => LabelsOf(p.group)
  }

  function CounterLimit(b: Batch): VocabularyGroup -> int {
    (g: VocabularyGroup) => if g.AllNames? then b.nameLimit else b.labelLimit
  }

  /** The sizes admit has counted by the time it plans: the names, and the labels of every
      kept name. */
  ghost function CounterSizes(b: Batch, o: Observed): map<VocabularyGroup, nat> {
    (map n | n in KeptNames(b, o) :: LabelsOf(n) := Count(o.labelSizes, n))[AllNames := o.nameSize]
  }

  function NameKeys(names: set<string>): set<VocabularyKey> {
    set n | n in names :: NameKey(n)
  }

  function LabelKeys(pairs: set<CounterKey>): set<VocabularyKey> {
    set p | p in pairs :: LabelKey(p)
  }

  function Keys(names: set<string>, pairs: set<CounterKey>): set<VocabularyKey> {
    NameKeys(names) + LabelKeys(pairs)
  }

  lemma {:induction false} NameKeysSize(names: set<string>)
    ensures |NameKeys(names)| == |names|
  {
    if names != {} {
      var n :| n in names;
      NameKeysSize(names - {n});
      assert NameKeys(names) == NameKeys(names - {n}) + {NameKey(n)};
    }
  }

  lemma {:induction false} LabelKeysSize(pairs: set<CounterKey>)
    ensures |LabelKeys(pairs)| == |pairs|
  {
    if pairs != {} {
      var p :| p in pairs;
      LabelKeysSize(pairs - {p});
      assert LabelKeys(pairs) == LabelKeys(pairs - {p}) + {LabelKey(p)};
    }
  }

  lemma {:induction false} NameMembers(names: set<string>, pairs: set<CounterKey>)
    ensures |Members(Keys(names, pairs), GroupOf, AllNames)| == |names|
  {
    assert Members(Keys(names, pairs), GroupOf, AllNames) == NameKeys(names);
    NameKeysSize(names);
  }

  lemma {:induction false} LabelMembers(names: set<string>, pairs: set<CounterKey>, name: string)
    ensures |Members(Keys(names, pairs), GroupOf, LabelsOf(name))| == |InGroup(pairs, name)|
  {
    assert Members(Keys(names, pairs), GroupOf, LabelsOf(name)) == LabelKeys(InGroup(pairs, name));
    LabelKeysSize(InGroup(pairs, name));
  }

  /** So from empty tables, whatever the batches and sweeps do, a tenant has at most nameCap
      names and each name at most labelCap labels. */
  lemma {:induction false} CountersStayCapped(s: State<VocabularyKey, VocabularyGroup>, steps: seq<Step<VocabularyKey, VocabularyGroup>>,
                           nameCap: nat, labelCap: nat, names: set<string>, pairs: set<CounterKey>, name: string)
    requires Init(s) && Run(GroupOf, s, steps)
    requires forall j, g :: j in s.jobs ==> s.jobs[j].limit(g) <= if g.AllNames? then nameCap else labelCap
    requires After(GroupOf, s, steps).table == Keys(names, pairs)
    ensures |names| <= nameCap && |InGroup(pairs, name)| <= labelCap
  {
    hide Keys, Members;
    var cap := (g: VocabularyGroup) => if g.AllNames? then nameCap else labelCap;
    FromEmptyWithinCaps(GroupOf, s, steps, cap);
    NameMembers(names, pairs);
    LabelMembers(names, pairs, name);
  }

  /** admit's plan for names and labels is a legal commit, whatever it observed. */
  lemma {:induction false} CounterPlanLegal(b: Batch, o: Observed)
    requires o.pairs <= BatchPairs(b.counts)
    ensures Legal(GroupOf, Keys(BatchNames(b.counts), BatchPairs(b.counts)), CounterLimit(b),
                  Keys(o.names, o.pairs), CounterSizes(b, o), Keys(NewNames(b, o), NewPairs(b, o)))
  {
    hide NewNames, NewPairs, KeptNames, BatchNames, BatchPairs;
    KeptNotOther(b, o);
    CounterPlanNew(b, o);
    var add := Keys(NewNames(b, o), NewPairs(b, o));
    forall g ensures Members(add, GroupOf, g) == {} || (g in CounterSizes(b, o) && |Members(add, GroupOf, g)| <= CounterLimit(b)(g) - CounterSizes(b, o)[g]) {
      match g {
        case AllNames =>
          NameMembers(NewNames(b, o), NewPairs(b, o));
          NewNamesFit(b, o);
        case LabelsOf(name) =>
          LabelMembers(NewNames(b, o), NewPairs(b, o), name);
          NewPairsFit(b, o, name);
      }
    }
  }

  lemma {:induction false} CounterPlanNew(b: Batch, o: Observed)
    ensures NewPairs(b, o) <= BatchPairs(b.counts) - o.pairs
  {
    hide Admits, KeptNames;
    forall k | k in NewPairs(b, o) ensures k in BatchPairs(b.counts) - o.pairs {
      AdmitsWithinCaps(KeptPairs(b, o), b.counts, o.pairs, b.labelLimit, o.labelSizes, k.group);
    }
  }

  lemma {:induction false} NewNamesFit(b: Batch, o: Observed)
    ensures NewNames(b, o) == {} || |NewNames(b, o)| <= b.nameLimit - o.nameSize
  {
    hide SortedNames, PlanOf, NameCounts;
    SortedNamesDistinct(BatchNames(b.counts));
    PlanShape(SortedNames(BatchNames(b.counts)), o.names, NameCounts(b.counts), b.nameLimit - o.nameSize);
  }

  lemma {:induction false} NewPairsFit(b: Batch, o: Observed, name: string)
    ensures InGroup(NewPairs(b, o), name) == {} || (name in KeptNames(b, o) && |InGroup(NewPairs(b, o), name)| <= b.labelLimit - Count(o.labelSizes, name))
  {
    hide Admits, KeptNames;
    AdmitsWithinCaps(KeptPairs(b, o), b.counts, o.pairs, b.labelLimit, o.labelSizes, name);
  }

  /** Committing it adds exactly those keys to the tables. */
  lemma {:induction false} CounterCommitAdds(b: Batch, o: Observed, t: Tables)
    ensures var u := Commit(b, o, t);
            Keys(u.names.Keys, u.labels.Keys) == Keys(t.names.Keys, t.labels.Keys) + Keys(NewNames(b, o), NewPairs(b, o))
  {
    hide NewNames, NewPairs, BatchNames, BatchPairs, Decide, RecordOverflow;
  }

  function DimGroupOf(k: DimValueKey): DimGroup {
    k.group
  }

  lemma {:induction false} DimPlanLegal(b: DimBatch, known: set<DimValueKey>, sizes: map<DimGroup, nat>)
    ensures Legal(DimGroupOf, DimKeys(b.counts), g => b.limit, known,
                  map g | g in Groups(DimKeys(b.counts)) :: Count(sizes, g), NewValues(b, known, sizes))
  {
    hide Admits;
    var add := NewValues(b, known, sizes);
    var counted := map g | g in Groups(DimKeys(b.counts)) :: Count(sizes, g);
    forall g ensures Members(add, DimGroupOf, g) == {} || (g in counted && |Members(add, DimGroupOf, g)| <= b.limit - counted[g]) {
      AdmitsWithinCaps(DimKeys(b.counts), b.counts, known, b.limit, sizes, g);
      assert Members(add, DimGroupOf, g) == InGroup(add, g);
      assert forall k :: k in InGroup(add, g) ==> g in Groups(DimKeys(b.counts));
    }
    forall k | k in add ensures k in DimKeys(b.counts) - known {
      AdmitsWithinCaps(DimKeys(b.counts), b.counts, known, b.limit, sizes, k.group);
    }
  }

  lemma {:induction false} DimCommitAdds(b: DimBatch, known: set<DimValueKey>, sizes: map<DimGroup, nat>, t: map<DimValueKey, Entry>)
    ensures CommitDims(b, known, sizes, t).Keys == t.Keys + NewValues(b, known, sizes)
  {
    hide NewValues, DimKeys;
  }

  /** No (name, key) ever has more dimension values than the cap. */
  lemma {:induction false} DimsStayCapped(s: State<DimValueKey, DimGroup>, steps: seq<Step<DimValueKey, DimGroup>>, cap: nat, g: DimGroup)
    requires Init(s) && Run(DimGroupOf, s, steps)
    requires forall j, h :: j in s.jobs ==> s.jobs[j].limit(h) <= cap
    ensures |InGroup(After(DimGroupOf, s, steps).table, g)| <= cap
  {
    FromEmptyWithinCaps(DimGroupOf, s, steps, (h: DimGroup) => cap);
    var table := After(DimGroupOf, s, steps).table;
    assert Members(table, DimGroupOf, g) == InGroup(table, g);
  }

  datatype OneGroup = TheTenant

  function TenantOf(reason: string): OneGroup {
    TheTenant
  }

  lemma {:induction false} NewReasonsFit(b: ReasonBatch, known: set<string>, size: nat)
    ensures var add := Elements(ReasonPlan(b, known, size).add);
            add <= Reasons(b) - known && (add == {} || |add| <= b.limit - size)
  {
    hide SortedNames, PlanOf, Distinct, Reasons;
    SortedNamesDistinct(Reasons(b));
    PlanShape(SortedNames(Reasons(b)), known, b.counts, b.limit - size);
  }

  lemma {:induction false} ReasonPlanLegal(b: ReasonBatch, known: set<string>, size: nat)
    ensures Legal(TenantOf, Reasons(b), g => b.limit, known, map[TheTenant := size], Elements(ReasonPlan(b, known, size).add))
  {
    hide ReasonPlan, Elements;
    var add := Elements(ReasonPlan(b, known, size).add);
    NewReasonsFit(b, known, size);
    forall g ensures Members(add, TenantOf, g) == {} || |Members(add, TenantOf, g)| <= b.limit - size {
      assert g == TheTenant;
      assert Members(add, TenantOf, g) == add;
    }
  }

  lemma {:induction false} ReasonCommitAdds(b: ReasonBatch, known: set<string>, size: nat, t: map<string, Entry>)
    ensures CommitReasons(b, known, size, t).Keys == t.Keys + Elements(ReasonPlan(b, known, size).add)
  {
    hide ReasonPlan, Elements, Reasons;
  }

  /** A tenant never has more error reasons than the cap. */
  lemma {:induction false} ReasonsStayCapped(s: State<string, OneGroup>, steps: seq<Step<string, OneGroup>>, cap: nat)
    requires Init(s) && Run(TenantOf, s, steps)
    requires forall j, g :: j in s.jobs ==> s.jobs[j].limit(g) <= cap
    ensures |After(TenantOf, s, steps).table| <= cap
  {
    FromEmptyWithinCaps(TenantOf, s, steps, (g: OneGroup) => cap);
    var table := After(TenantOf, s, steps).table;
    assert Members(table, TenantOf, TheTenant) == table;
  }
}
