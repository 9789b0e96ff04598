/** What an admission leaves in first_seen and last_seen, and why a retention sweep cannot take
    what a batch was just admitted (internal/storage/counters.go, dims.go, error_reasons.go,
    installs.go). */
module LastSeen {
  import opened Prelude
  import opened Sorting
  import opened Vocabulary
  import opened GroupPlan
  import opened Admission

  /** A day, in nanoseconds. */
  const DAY := 86_400_000_000_000

  /** A table before and after a batch of keys at one time. Its keys are fresh to within a day
      of it; new ones begin with it; no first_seen moves and no last_seen falls; a last_seen
      moves only if a day had passed, and only to that time; nothing else is touched. */
  ghost predicate Recorded<K(!new)>(was: map<K, Entry>, now: map<K, Entry>, keys: set<K>, at: int) {
    && was.Keys <= now.Keys
    && (forall k :: k in now && k !in was ==> k in keys && now[k].firstSeen == at && now[k].lastSeen == at)
    && (forall k :: k in was ==> now[k].firstSeen == was[k].firstSeen && was[k].lastSeen <= now[k].lastSeen)
    && (forall k :: k in was && k !in keys ==> now[k] == was[k])
    && (forall k :: k in now && k in keys ==> now[k].lastSeen >= at - DAY)
    && (forall k :: k in was && now[k] != was[k] ==> now[k].lastSeen == at && was[k].lastSeen < at - DAY)
  }

  lemma {:induction false} StoreRecords<K(!new)>(t: map<K, Entry>, add: set<K>, keys: set<K>, at: int)
    requires add <= keys
    ensures Recorded(t, Touch(InsertNew(t, add, at), keys, at), keys, at)
  {}

  lemma {:induction false} StoredKeys<K(!new)>(t: map<K, Entry>, add: set<K>, keys: set<K>, at: int)
    ensures Touch(InsertNew(t, add, at), keys, at).Keys == t.Keys + add
  {}

  /** AdmitCounters and its siblings. */
  lemma {:induction false} CommitRecords(b: Batch, o: Observed, t: Tables)
    ensures Recorded(t.names, Commit(b, o, t).names, BatchNames(b.counts), b.at)
    ensures Recorded(t.labels, Commit(b, o, t).labels, BatchPairs(b.counts), b.at)
  {
    hide Recorded, Touch, InsertNew, Decide, NewNames, Admits, BatchNames, BatchPairs, KeptNames;
    KeptNotOther(b, o);
    PairsAdmitted(b, o);
    StoreRecords(t.names, NewNames(b, o), BatchNames(b.counts), b.at);
    StoreRecords(t.labels, NewPairs(b, o), BatchPairs(b.counts), b.at);
  }

  lemma {:induction false} PairsAdmitted(b: Batch, o: Observed)
    ensures NewPairs(b, o) <= KeptPairs(b, o) <= BatchPairs(b.counts)
  {
    hide Admits, KeptNames;
    AdmitsWithinCaps(KeptPairs(b, o), b.counts, o.pairs, b.labelLimit, o.labelSizes, "");
  }

  /** admitDims */
  lemma {:induction false} DimsRecorded(b: DimBatch, known: set<DimValueKey>, sizes: map<DimGroup, nat>, t: map<DimValueKey, Entry>)
    ensures Recorded(t, CommitDims(b, known, sizes, t), DimKeys(b.counts), b.at)
  {
    hide Recorded, Touch, InsertNew, Admits, DimKeys;
    AdmitsWithinCaps(DimKeys(b.counts), b.counts, known, b.limit, sizes, DimGroup("", ""));
    StoreRecords(t, NewValues(b, known, sizes), DimKeys(b.counts), b.at);
  }

  lemma {:induction false} ReasonsNew(b: ReasonBatch, known: set<string>, size: nat)
    ensures Elements(ReasonPlan(b, known, size).add) <= Reasons(b)
  {
    hide PlanOf, SortedNames, Reasons, Elements;
    SortedNamesDistinct(Reasons(b));
    PlanShape(SortedNames(Reasons(b)), known, b.counts, b.limit - size);
  }

  /** AdmitErrorReasons */
  lemma {:induction false} ReasonsRecorded(b: ReasonBatch, known: set<string>, size: nat, t: map<string, Entry>)
    ensures Recorded(t, CommitReasons(b, known, size, t), Reasons(b), b.at)
  {
    hide Recorded, Touch, InsertNew, ReasonPlan, Reasons, Elements;
    ReasonsNew(b, known, size);
    StoreRecords(t, Elements(ReasonPlan(b, known, size).add), Reasons(b), b.at);
  }

  // ---- A sweep spares what was just admitted ----

  /** The four vocabularies of a tenant. */
  datatype Vocabularies = Vocabularies(names: map<string, Entry>, labels: map<CounterKey, Entry>, dims: map<DimValueKey, Entry>, reasons: map<string, Entry>)

  /** The deletes of a sweep: what was last seen before the cutoff goes, and a label or
      dimension value goes with its name. */
  ghost predicate Swept(v: Vocabularies, w: Vocabularies, cutoff: int) {
    && (forall n :: n in w.names <==> n in v.names && v.names[n].lastSeen >= cutoff)
    && (forall n :: n in w.names ==> w.names[n] == v.names[n])
    && (forall n :: n in w.reasons <==> n in v.reasons && v.reasons[n].lastSeen >= cutoff)
    && (forall n :: n in w.reasons ==> w.reasons[n] == v.reasons[n])
    && (forall k :: k in w.labels <==> k in v.labels && v.labels[k].lastSeen >= cutoff && k.group in w.names)
    && (forall k :: k in w.labels ==> w.labels[k] == v.labels[k])
    && (forall k :: k in w.dims <==> k in v.dims && v.dims[k].lastSeen >= cutoff && k.group.name in w.names)
    && (forall k :: k in w.dims ==> w.dims[k] == v.dims[k])
  }

  /** What a decision admits, other than "other", is in the tables it commits. */
  lemma {:induction false} NamesStored(b: Batch, t: Tables)
    ensures var o := Observe(b, t);
            Decide(b, o).names - {OTHER} <= Commit(b, o, t).names.Keys * BatchNames(b.counts)
  {
    hide NamePlan, NewNames, NewPairs, KeptPairs, RecordOverflow, BatchNames, FoldedTotal, LabelSizes, Touch, InsertNew;
    var o := Observe(b, t);
    KeptNotOther(b, o);
    StoredKeys(t.names, NewNames(b, o), BatchNames(b.counts), b.at);
  }

  lemma {:induction false} LabelsStored(b: Batch, t: Tables)
    ensures var o := Observe(b, t);
            && Decide(b, o).labels <= Commit(b, o, t).labels.Keys * BatchPairs(b.counts)
            && forall k :: k in Decide(b, o).labels ==> k.group in Decide(b, o).names - {OTHER}
  {
    hide NamePlan, NewNames, KeptNames, Admits, RecordOverflow, BatchNames, BatchPairs, FoldedTotal, LabelSizes, Touch, InsertNew;
    var o := Observe(b, t);
    KeptNotOther(b, o);
    PairsAdmitted(b, o);
    StoredKeys(t.labels, NewPairs(b, o), BatchPairs(b.counts), b.at);
  }

  /** A sweep with its cutoff a day or more before the batch takes no name and no label the
      batch was admitted. */
  lemma {:induction false} SweepSparesCounters(b: Batch, t: Tables, v: Vocabularies, w: Vocabularies, cutoff: int)
    requires var u := Commit(b, Observe(b, t), t);
             v.names == u.names && v.labels == u.labels
    requires Swept(v, w, cutoff) && cutoff <= b.at - DAY
    ensures var d := Decide(b, Observe(b, t));
            && (forall n :: n in d.names && n != OTHER ==> n in w.names)
            && (forall k :: k in d.labels ==> k in w.labels)
  {
    hide Commit, Decide, Observe, BatchNames, BatchPairs;
    CommitRecords(b, Observe(b, t), t);
    NamesStored(b, t);
    LabelsStored(b, t);
    var d := Decide(b, Observe(b, t));
    forall n | n in d.names && n != OTHER ensures n in w.names { assert n in d.names - {OTHER}; }
    forall k | k in d.labels ensures k in w.labels { assert k.group in d.names - {OTHER}; }
  }

  /** Nor any dimension value, unless it takes the name the value is under. */
  lemma {:induction false} SweepSparesDims(b: DimBatch, t: map<DimValueKey, Entry>, v: Vocabularies, w: Vocabularies, cutoff: int)
    requires v.dims == CommitDims(b, DimKeys(b.counts) * t.Keys, DimSizes(t.Keys), t)
    requires Swept(v, w, cutoff) && cutoff <= b.at - DAY
    ensures forall k :: k in DecideDims(b, DimKeys(b.counts) * t.Keys, DimSizes(t.Keys)).values && !AlwaysAdmitted(k) ==>
              (k in w.dims <==> k.group.name in w.names)
  {
    hide Admits, DimSizes, FoldedTotal, Touch, InsertNew;
    var known, sizes := DimKeys(b.counts) * t.Keys, DimSizes(t.Keys);
    DimsRecorded(b, known, sizes, t);
    AdmitsWithinCaps(DimKeys(b.counts), b.counts, known, b.limit, sizes, DimGroup("", ""));
    StoredKeys(t, NewValues(b, known, sizes), DimKeys(b.counts), b.at);
  }

  /** Nor any reason. */
  lemma {:induction false} SweepSparesReasons(b: ReasonBatch, t: map<string, Entry>, v: Vocabularies, w: Vocabularies, cutoff: int)
    requires v.reasons == CommitReasons(b, Reasons(b) * t.Keys, |t|, t)
    requires Swept(v, w, cutoff) && cutoff <= b.at - DAY
    ensures forall n :: n in DecideReasons(b, Reasons(b) * t.Keys, |t|).admitted && n != OTHER ==> n in w.reasons
  {
    hide ReasonPlan, Touch, InsertNew, Reasons, Elements;
    var known := Reasons(b) * t.Keys;
    ReasonsRecorded(b, known, |t|, t);
    ReasonsNew(b, known, |t|);
    StoredKeys(t, Elements(ReasonPlan(b, known, |t|).add), Reasons(b), b.at);
  }
}
