/** What the interleaved protocol computes: what is in the vocabulary after any run, what a
    batch is answered, and that a batch that runs by itself is admitted as Admission decides
    (internal/storage/counters.go). */
module AdmissionRuns {
  import opened Prelude
  import opened Sorting
  import opened Sums
  import opened Vocabulary
  import opened GroupPlan
  import opened Admission
  import opened AdmissionProtocol

  // ---- The vocabulary after any run ----

  predicate Takes<K(==), G>(step: Step<K, G>, k: K) { step.SweepAway? && k in step.gone }

  predicate Adds<K(==), G>(step: Step<K, G>, k: K) { step.CommitAdd? && k in step.add }

  /** A key is in the vocabulary exactly if it was there or was committed, and no sweep has
      taken it since. */
  lemma {:induction false} TableIsHistory<K(!new), G(!new)>(group: K -> G, s: State<K, G>, steps: seq<Step<K, G>>, k: K)
    requires Run(group, s, steps)
    ensures k in After(group, s, steps).table <==>
            || (k in s.table && forall m :: 0 <= m < |steps| ==> !Takes(steps[m], k))
            || exists n :: 0 <= n < |steps| && Adds(steps[n], k) && forall m :: n < m < |steps| ==> !Takes(steps[m], k)
    decreases |steps|
  {
    hide Enabled;
    if steps != [] {
      var rest, t := steps[1..], Apply(group, s, steps[0]);
      TableIsHistory(group, t, rest, k);
      assert forall m :: 0 <= m < |rest| ==> rest[m] == steps[m + 1];
      assert (forall m :: 0 <= m < |rest| ==> !Takes(rest[m], k)) <==> (forall m :: 0 < m < |steps| ==> !Takes(steps[m], k)) by {
        assert forall m :: 0 < m < |steps| ==> steps[m] == rest[m - 1];
      }
      TableStep(group, s, steps[0], k);
      if n :| 0 <= n < |rest| && Adds(rest[n], k) && forall m :: n < m < |rest| ==> !Takes(rest[m], k) {
        assert Adds(steps[n + 1], k);
        assert forall m :: n + 1 < m < |steps| ==> steps[m] == rest[m - 1];
      }
      if n :| 0 <= n < |steps| && Adds(steps[n], k) && forall m :: n < m < |steps| ==> !Takes(steps[m], k) {
        if n > 0 {
          assert Adds(rest[n - 1], k) && forall m :: n - 1 < m < |rest| ==> rest[m] == steps[m + 1];
        }
      }
    }
  }

  lemma {:induction false} TableStep<K(!new), G(!new)>(group: K -> G, s: State<K, G>, step: Step<K, G>, k: K)
    requires Enabled(group, s, step)
    ensures k in Apply(group, s, step).table <==> (k in s.table && !Takes(step, k)) || Adds(step, k)
  {}

  // ---- What a batch is answered ----

  function LooksNext<K(==), G>(looked: set<K>, step: Step<K, G>, j: nat): set<K> {
    match step
    case Look(i, part) => looked + if i == j then part else {}
    case Acquire(i) => if i == j then {} else looked
    case Rollback(i) => if i == j then {} else looked
    case _ => looked
  }

  /** The keys a job has looked at since it began, or last took the lock or gave it up. */
  function LookedAt<K(==), G>(steps: seq<Step<K, G>>, j: nat): set<K> {
    if steps == [] then {} else LooksNext(LookedAt(steps[..|steps| - 1], j), steps[|steps| - 1], j)
  }

  /** While a job holds the lock, what it has looked at is known exactly if it is there: only
      the holder inserts. */
  ghost predicate Knows<K(!new), G(!new)>(s: State<K, G>, j: nat, looked: set<K>) {
    j in s.jobs && InTransaction(s.jobs[j].phase) ==>
      s.jobs[j].phase.known <= s.jobs[j].keys * s.table && forall k :: k in looked && k in s.jobs[j].keys ==> (k in s.jobs[j].phase.known <==> k in s.table)
  }

  lemma {:induction false} StepKnows<K(!new), G(!new)>(group: K -> G, s: State<K, G>, step: Step<K, G>, j: nat, looked: set<K>)
    requires Inv(group, s) && Enabled(group, s, step) && !step.SweepAway? && Knows(s, j, looked)
    ensures Knows(Apply(group, s, step), j, LooksNext(looked, step, j))
  {
    hide Legal, SizesRead;
    var t := Apply(group, s, step);
    if j in t.jobs && InTransaction(t.jobs[j].phase) {
      if !step.Acquire? || step.job != j { assert InTransaction(s.jobs[j].phase) && s.holder == Some(j); }
    }
  }

  lemma {:induction false} RunKnows<K(!new), G(!new)>(group: K -> G, s: State<K, G>, steps: seq<Step<K, G>>, n: nat, j: nat)
    requires Init(s) && Run(group, s, steps) && n <= |steps|
    requires forall i :: 0 <= i < |steps| ==> !steps[i].SweepAway?
    ensures Run(group, s, steps[..n])
    ensures Inv(group, After(group, s, steps[..n])) && Knows(After(group, s, steps[..n]), j, LookedAt(steps[..n], j))
    ensures n < |steps| ==> Enabled(group, After(group, s, steps[..n]), steps[n])
    ensures n < |steps| ==> Run(group, s, steps[..n + 1]) && After(group, s, steps[..n + 1]) == Apply(group, After(group, s, steps[..n]), steps[n])
  {
    hide Inv, Knows, Enabled, Apply;
    RunPrefix(group, s, steps, n);
    if n < |steps| {
      RunPrefix(group, s, steps, n + 1);
      RunLast(group, s, steps[..n + 1]);
      assert steps[..n + 1][..n] == steps[..n];
    }
    if n == 0 {
      assert steps[..0] == [];
      StartKnows(group, s, j);
    } else {
      RunKnows(group, s, steps, n - 1, j);
      var before := After(group, s, steps[..n - 1]);
      StepKeepsInv(group, before, steps[n - 1]);
      StepKnows(group, before, steps[n - 1], j, LookedAt(steps[..n - 1], j));
      assert steps[..n][..n - 1] == steps[..n - 1] && steps[..n][n - 1] == steps[n - 1];
    }
  }

  lemma {:induction false} StartKnows<K(!new), G(!new)>(group: K -> G, s: State<K, G>, j: nat)
    requires Init(s)
    ensures Inv(group, s) && Knows(s, j, {})
  {}

  lemma {:induction false} RunPrefix<K(!new), G(!new)>(group: K -> G, s: State<K, G>, steps: seq<Step<K, G>>, n: nat)
    requires Run(group, s, steps) && n <= |steps|
    ensures Run(group, s, steps[..n])
    decreases |steps|
  {
    hide Enabled, Apply;
    if n > 0 {
      RunPrefix(group, Apply(group, s, steps[0]), steps[1..], n - 1);
      assert steps[..n][1..] == steps[1..][..n - 1];
    }
  }

  lemma {:induction false} RunLast<K(!new), G(!new)>(group: K -> G, s: State<K, G>, steps: seq<Step<K, G>>)
    requires Run(group, s, steps) && steps != []
    ensures var init, last := steps[..|steps| - 1], steps[|steps| - 1];
            Run(group, s, init) && Enabled(group, After(group, s, init), last) && After(group, s, steps) == Apply(group, After(group, s, init), last)
    decreases |steps|
  {
    hide Enabled, Apply;
    var init := steps[..|steps| - 1];
    RunPrefix(group, s, steps, |steps| - 1);
    if |steps| == 1 {
      assert init == [];
      assert steps[1..] == [];
    } else {
      RunLast(group, Apply(group, s, steps[0]), steps[1..]);
      assert steps[1..][..|steps| - 2] == init[1..];
    }
  }

  predicate Returns<K, G>(step: Step<K, G>, j: nat) {
    (step.FastReturn? && step.job == j) || (step.CommitAdd? && step.job == j)
  }

  /** Until a sweep, in every interleaving: a batch that has looked for all its keys is answered
      exactly those of them that are in the vocabulary when it returns, its own inserts
      included. */
  lemma {:induction false} AnswersExact<K(!new), G(!new)>(group: K -> G, s: State<K, G>, steps: seq<Step<K, G>>, n: nat, j: nat)
    requires Init(s) && Run(group, s, steps) && n < |steps| && Returns(steps[n], j)
    requires forall i :: 0 <= i < |steps| ==> !steps[i].SweepAway?
    ensures Run(group, s, steps[..n]) && Run(group, s, steps[..n + 1])
    ensures var before, after := After(group, s, steps[..n]), After(group, s, steps[..n + 1]);
            && j in before.jobs && j in after.jobs && after.jobs[j].phase.Returned?
            && (before.jobs[j].keys <= LookedAt(steps[..n], j) ==>
                  after.jobs[j].phase.admitted == before.jobs[j].keys * after.table)
  {
    hide LookedAt, SizesRead, Init, Run, After, Inv;
    RunKnows(group, s, steps, n, j);
    RunAnswersStored(group, s, steps, n);
  }

  lemma {:induction false} RunAnswersStored<K(!new), G(!new)>(group: K -> G, s: State<K, G>, steps: seq<Step<K, G>>, n: nat)
    requires Init(s) && Run(group, s, steps) && n <= |steps|
    requires forall i :: 0 <= i < |steps| ==> !steps[i].SweepAway?
    ensures Run(group, s, steps[..n]) && AnswersStored(After(group, s, steps[..n]))
  {
    hide Enabled, Apply;
    RunPrefix(group, s, steps, n);
    AnswersStayStored(group, s, steps[..n]);
  }

  // ---- A batch by itself ----

  /** One batch, from taking the lock to its commit, with nothing in between; it counts twice,
      names and then the labels of the names it keeps. */
  function Transaction<K, G>(j: nat, keys: set<K>, first: set<G>, second: set<G>, add: set<K>): seq<Step<K, G>> {
    [Acquire(j), Look(j, keys), CountGroups(j, first), CountGroups(j, second), CommitAdd(j, add)]
  }

  lemma {:induction false} Alone<K(!new), G(!new)>(group: K -> G, s: State<K, G>, j: nat, first: set<G>, second: set<G>, add: set<K>)
    requires j in s.jobs && s.jobs[j].phase.Reading? && s.holder.None?
    requires Legal(group, s.jobs[j].keys, s.jobs[j].limit, s.jobs[j].keys * s.table, SizesRead(group, s.table, first + second), add)
    ensures var steps := Transaction(j, s.jobs[j].keys, first, second, add);
            && Run(group, s, steps)
            && After(group, s, steps) == State(s.table + add, s.jobs[j := s.jobs[j].(phase := Returned(s.jobs[j].keys * s.table + add))], None)
  {
    hide Legal, Enabled, Apply, SizesRead;
    var keys, known := s.jobs[j].keys, s.jobs[j].keys * s.table;
    AloneReads(group, s, j);
    AloneCounts(group, s, j, known, first, second);
    AloneCommits(group, s, j, known, SizesRead(group, s.table, first + second), add);
    var s1, s2 := At(s, j, ReRead({}), Some(j)), At(s, j, ReRead(known), Some(j));
    var s3 := At(s, j, Counted(known, SizesRead(group, s.table, first)), Some(j));
    var s4 := At(s, j, Counted(known, SizesRead(group, s.table, first + second)), Some(j));
    var r4: seq<Step<K, G>> := [CommitAdd(j, add)];
    var r3, r2 := [CountGroups(j, second)] + r4, [CountGroups(j, first)] + ([CountGroups(j, second)] + r4);
    var r1 := [Look(j, keys)] + r2;
    RunStep(group, s4, CommitAdd(j, add), []);
    assert r4 == r4 + [];
    RunStep(group, s3, CountGroups(j, second), r4);
    RunStep(group, s2, CountGroups(j, first), r3);
    RunStep(group, s1, Look(j, keys), r2);
    RunStep(group, s, Acquire(j), r1);
    assert Transaction(j, keys, first, second, add) == [Acquire(j)] + r1;
  }

  ghost function At<K, G>(s: State<K, G>, j: nat, p: Phase<K, G>, holder: Option<nat>): State<K, G>
    requires j in s.jobs
  {
    State(s.table, s.jobs[j := s.jobs[j].(phase := p)], holder)
  }

  lemma {:induction false} AloneReads<K(!new), G(!new)>(group: K -> G, s: State<K, G>, j: nat)
    requires j in s.jobs && s.jobs[j].phase.Reading? && s.holder.None?
    ensures var s1, keys := At(s, j, ReRead({}), Some(j)), s.jobs[j].keys;
            && Enabled(group, s, Acquire(j)) && Apply(group, s, Acquire(j)) == s1
            && Enabled(group, s1, Look(j, keys)) && Apply(group, s1, Look(j, keys)) == At(s, j, ReRead(keys * s.table), Some(j))
  {
    var s1, keys := At(s, j, ReRead({}), Some(j)), s.jobs[j].keys;
    assert {} + keys * keys * s.table == keys * s.table;
  }

  lemma {:induction false} AloneCounts<K(!new), G(!new)>(group: K -> G, s: State<K, G>, j: nat, known: set<K>, first: set<G>, second: set<G>)
    requires j in s.jobs
    ensures var s2, s3 := At(s, j, ReRead(known), Some(j)), At(s, j, Counted(known, SizesRead(group, s.table, first)), Some(j));
            && Enabled(group, s2, CountGroups(j, first)) && Apply(group, s2, CountGroups(j, first)) == s3
            && Enabled(group, s3, CountGroups(j, second))
            && Apply(group, s3, CountGroups(j, second)) == At(s, j, Counted(known, SizesRead(group, s.table, first + second)), Some(j))
  {
    hide Members;
    var none: map<G, nat> := map[];
    assert none + SizesRead(group, s.table, first) == SizesRead(group, s.table, first);
    assert SizesRead(group, s.table, first) + SizesRead(group, s.table, second) == SizesRead(group, s.table, first + second);
  }

  lemma {:induction false} AloneCommits<K(!new), G(!new)>(group: K -> G, s: State<K, G>, j: nat, known: set<K>, sizes: map<G, nat>, add: set<K>)
    requires j in s.jobs && known <= s.jobs[j].keys && Legal(group, s.jobs[j].keys, s.jobs[j].limit, known, sizes, add)
    ensures var s4 := At(s, j, Counted(known, sizes), Some(j));
            && Enabled(group, s4, CommitAdd(j, add))
            && Apply(group, s4, CommitAdd(j, add)) == At(s, j, Returned(known + add), None).(table := s.table + add)
  {
    hide Legal;
    assert s.jobs[j].keys * known == known;
  }

  lemma {:induction false} RunStep<K(!new), G(!new)>(group: K -> G, s: State<K, G>, step: Step<K, G>, rest: seq<Step<K, G>>)
    requires Enabled(group, s, step) && Run(group, Apply(group, s, step), rest)
    ensures Run(group, s, [step] + rest)
    ensures After(group, s, [step] + rest) == After(group, Apply(group, s, step), rest)
  {
    hide Enabled, Apply;
    assert ([step] + rest)[1..] == rest;
  }

  /** Where all its keys are known it need not take the lock. */
  lemma {:induction false} AloneKnown<K(!new), G(!new)>(group: K -> G, s: State<K, G>, j: nat)
    requires j in s.jobs && s.jobs[j].phase == Reading({}) && s.jobs[j].keys <= s.table
    ensures var steps: seq<Step<K, G>> := [Look(j, s.jobs[j].keys), FastReturn(j)];
            && Run(group, s, steps)
            && After(group, s, steps) == s.(jobs := s.jobs[j := s.jobs[j].(phase := Returned(s.jobs[j].keys))])
  {
    var keys := s.jobs[j].keys;
    var s1 := Apply(group, s, Look(j, keys));
    assert s1.jobs[j].phase.known == keys;
    var s2 := Apply(group, s1, FastReturn(j));
    assert s2.jobs == s.jobs[j := s.jobs[j].(phase := Returned(keys))];
    var last: seq<Step<K, G>> := [FastReturn(j)];
    RunStep(group, s1, FastReturn(j), []);
    assert last == last + [];
    RunStep(group, s, Look(j, keys), last);
    assert [Look(j, keys), FastReturn(j)] == [Look(j, keys)] + last;
  }

  ghost function LabelGroups(b: Batch, o: Observed): set<VocabularyGroup> {
    set n | n in KeptNames(b, o) :: LabelsOf(n)
  }

  lemma {:induction false} CountsAreRead(b: Batch, t: Tables)
    ensures SizesRead(GroupOf, Keys(t.names.Keys, t.labels.Keys), {AllNames} + LabelGroups(b, Observe(b, t))) == CounterSizes(b, Observe(b, t))
  {
    hide KeptNames, Keys, Members;
    var table := Keys(t.names.Keys, t.labels.Keys);
    NameMembers(t.names.Keys, t.labels.Keys);
    forall n ensures |Members(table, GroupOf, LabelsOf(n))| == Count(LabelSizes(t.labels.Keys), n) {
      LabelMembers(t.names.Keys, t.labels.Keys, n);
      SizeOf(t.labels.Keys, n);
    }
    assert {AllNames} + LabelGroups(b, Observe(b, t)) == CounterSizes(b, Observe(b, t)).Keys;
  }

  /** A batch of counters that runs by itself leaves the keys, and is answered the names and
      labels, of the sequential admission; a known label whose name was swept from under it is
      known still, but admit looks only under the names it keeps. */
  lemma {:induction false} AloneIsAdmit(s: State<VocabularyKey, VocabularyGroup>, j: nat, b: Batch, t: Tables)
    requires j in s.jobs && s.jobs[j].phase.Reading? && s.holder.None?
    requires s.jobs[j].keys == Keys(BatchNames(b.counts), BatchPairs(b.counts)) && s.jobs[j].limit == CounterLimit(b)
    requires s.table == Keys(t.names.Keys, t.labels.Keys)
    ensures var o := Observe(b, t);
            var d, u := Decide(b, o), Commit(b, o, t);
            var steps := Transaction(j, s.jobs[j].keys, {AllNames}, LabelGroups(b, o), Keys(NewNames(b, o), NewPairs(b, o)));
            && Run(GroupOf, s, steps)
            && var end := After(GroupOf, s, steps);
               && end.holder.None? && end.table == Keys(u.names.Keys, u.labels.Keys)
               && j in end.jobs && end.jobs[j].phase.Returned?
               && end.jobs[j].phase.admitted == Keys(d.names - {OTHER}, d.labels + BatchPairs(b.counts) * t.labels.Keys)
  {
    hide Legal, SizesRead, Run, After, LabelGroups, CounterSizes, Transaction, CounterLimit, Commit, Decide, KeptNames, NewNames, NewPairs, BatchNames, BatchPairs, LabelSizes;
    var o := Observe(b, t);
    KnownKeys(b, t);
    CountsAreRead(b, t);
    CounterPlanLegal(b, o);
    CounterCommitAdds(b, o, t);
    Alone(GroupOf, s, j, {AllNames}, LabelGroups(b, o), Keys(NewNames(b, o), NewPairs(b, o)));
    Answered(b, t);
  }

  lemma {:induction false} KnownKeys(b: Batch, t: Tables)
    ensures Keys(BatchNames(b.counts), BatchPairs(b.counts)) * Keys(t.names.Keys, t.labels.Keys) == Keys(Observe(b, t).names, Observe(b, t).pairs)
  {
    hide BatchNames, BatchPairs, LabelSizes;
  }

  lemma {:induction false} Answered(b: Batch, t: Tables)
    ensures var o := Observe(b, t);
            var answer := Keys(o.names, o.pairs) + Keys(NewNames(b, o), NewPairs(b, o));
            answer == Keys(Decide(b, o).names - {OTHER}, Decide(b, o).labels + o.pairs)
  {
    hide BatchNames, BatchPairs, LabelSizes, NewNames, NewPairs, KeptPairs, FoldedTotal;
    KeptNotOther(b, Observe(b, t));
  }
}
