/** Transactions that lock rows one at a time, each in ascending key order, and keep the
    locks until they commit: TrackInstalls (installs.go) and TrackDiscoveries
    (discoveries.go). */
module LockOrder {
  import opened Prelude
  import opened Sorting
  import opened Sums

  /** next: the key being worked on. looked: its SELECT … FOR UPDATE has run. */
  datatype Tx<K> = Tx(keys: seq<K>, next: nat, looked: bool, held: set<K>, finished: bool)

  type State<K> = map<nat, Tx<K>>

  datatype Step =
    | Look(tx: nat, found: bool)   // SELECT … FOR UPDATE; a row that isn't there locks nothing
    | Upsert(tx: nat)              // locks the row if it is not locked yet
    | Commit(tx: nat)

  ghost predicate Free<K(!new)>(s: State<K>, i: nat, k: K) {
    forall j :: j in s && j != i ==> k !in s[j].held
  }

  ghost predicate Enabled<K(!new)>(s: State<K>, step: Step) {
    && step.tx in s && !s[step.tx].finished
    && var t := s[step.tx];
       match step
       case Look(i, found) => t.next < |t.keys| && !t.looked && (found ==> Free(s, i, t.keys[t.next]))
       case Upsert(i) => t.next < |t.keys| && t.looked && Free(s, i, t.keys[t.next])
       case Commit(_) => t.next == |t.keys|
  }

  ghost function Apply<K(!new)>(s: State<K>, step: Step): State<K>
    requires Enabled(s, step)
  {
    var t := s[step.tx];
    s[step.tx :=
      match step
      case Look(_, found) => t.(looked := true, held := if found then t.held + {t.keys[t.next]} else t.held)
      case Upsert(_) => t.(next := t.next + 1, looked := false, held := t.held + {t.keys[t.next]})
      case Commit(_) => t.(held := {}, finished := true)]
  }

  /** An unfinished transaction holds every key it has passed, and besides at most the one it
      has looked at. */
  ghost predicate TxSound<K(!new)>(t: Tx<K>, less: (K, K) -> bool) {
    && Ascending(t.keys, less)
    && t.next <= |t.keys|
    && (t.looked ==> t.next < |t.keys|)
    && (t.finished ==> t.held == {})
    && (!t.finished ==> forall k :: k in t.keys[..t.next] ==> k in t.held)
    && (forall k :: k in t.held ==> k in t.keys[..t.next] || (t.looked && k == t.keys[t.next]))
  }

  ghost predicate Inv<K(!new)>(s: State<K>, less: (K, K) -> bool) {
    && (forall i :: i in s ==> TxSound(s[i], less))
    && (forall i, j :: i in s && j in s && i != j ==> s[i].held !! s[j].held)
  }

  lemma {:induction false} StepKeepsInv<K(!new)>(s: State<K>, step: Step, less: (K, K) -> bool)
    requires Inv(s, less) && Enabled(s, step)
    ensures Inv(Apply(s, step), less)
  {
    var t, u := s[step.tx], Apply(s, step)[step.tx];
    assert t.next < |t.keys| ==> t.keys[..t.next + 1] == t.keys[..t.next] + [t.keys[t.next]];
    assert TxSound(u, less);
  }

  /** The key an unfinished transaction is at. */
  ghost predicate At<K>(s: State<K>, i: nat, k: K) {
    i in s && !s[i].finished && s[i].next < |s[i].keys| && s[i].keys[s[i].next] == k
  }

  /** i can run its next statement, whether or not the row it asks for exists. */
  ghost predicate CanStep<K(!new)>(s: State<K>, i: nat) {
    && i in s && !s[i].finished
    && (s[i].next >= |s[i].keys| || Free(s, i, s[i].keys[s[i].next]))
  }

  lemma {:induction false} CanStepEnabled<K(!new)>(s: State<K>, i: nat, found: bool)
    requires CanStep(s, i) && s[i].next <= |s[i].keys|
    ensures Enabled(s, if s[i].next == |s[i].keys| then Commit(i) else if s[i].looked then Upsert(i) else Look(i, found))
  {}

  /** Whoever holds the key i waits for is itself at a greater key, or can step. */
  lemma {:induction false} HolderIsAhead<K(!new)>(s: State<K>, less: (K, K) -> bool, i: nat, j: nat, k: K)
    requires Inv(s, less) && At(s, i, k) && j in s && j != i && k in s[j].held
    ensures CanStep(s, j) || exists l :: At(s, j, l) && less(k, l)
  {
    var t := s[j];
    if t.next < |t.keys| {
      var l := t.keys[t.next];
      if k in t.keys[..t.next] {
        var m :| 0 <= m < t.next && t.keys[m] == k;
        assert less(t.keys[m], t.keys[t.next]);
        assert At(s, j, l);
      } else {
        forall h | h in s && h != j ensures l !in s[h].held { assert s[h].held !! s[j].held; }
      }
    }
  }

  /** No state that transactions can reach is a deadlock: while one is unfinished, one of
      them can run its next statement. */
  lemma {:induction false} NoDeadlock<K(!new)>(s: State<K>, less: (K, K) -> bool, i: nat)
    requires StrictTotal(less) && Inv(s, less)
    requires i in s && !s[i].finished
    ensures exists j :: CanStep(s, j)
  {
    hide Inv, StrictTotal;
    if s[i].next >= |s[i].keys| {
      assert CanStep(s, i);
    } else {
      var waits := set j | j in s && !s[j].finished && s[j].next < |s[j].keys| :: s[j].keys[s[j].next];
      assert s[i].keys[s[i].next] in waits;
      var top := Greatest(waits, less);
      var j :| j in s && !s[j].finished && s[j].next < |s[j].keys| && s[j].keys[s[j].next] == top;
      assert At(s, j, top);
      if !CanStep(s, j) {
        assert !Free(s, j, top);
        var h :| h in s && h != j && top in s[h].held;
        HolderIsAhead(s, less, j, h, top);
        assert forall l :: At(s, h, l) ==> l in waits;
      }
    }
  }

  lemma {:induction false} Greatest<K(!new)>(s: set<K>, less: (K, K) -> bool) returns (top: K)
    requires StrictTotal(less) && s != {}
    ensures top in s && forall y :: y in s ==> !less(top, y)
  {
    var greater := (a: K, b: K) => less(b, a);
    assert StrictTotal(greater);
    LeastExists(s, greater);
    top :| top in s && forall y :: y in s && y != top ==> greater(top, y);
    forall y | y in s ensures !less(top, y) {
      if y != top { assert greater(top, y); }
    }
  }

  // ---- Every run comes to an end, with everything committed ----

  function TxWork<K>(t: Tx<K>): nat {
    (if t.next <= |t.keys| then 2 * (|t.keys| - t.next) else 0) + (if t.looked then 0 else 1) + (if t.finished then 0 else 2)
  }

  function WorkLeft<K>(s: State<K>): map<nat, nat> {
    map i | i in s :: TxWork(s[i])
  }

  ghost function Work<K(!new)>(s: State<K>): nat {
    Sum(s.Keys, WorkLeft(s))
  }

  lemma {:induction false} StepDoesWork<K(!new)>(s: State<K>, step: Step)
    requires Enabled(s, step)
    ensures Work(Apply(s, step)) < Work(s)
  {
    var i, t := step.tx, Apply(s, step);
    assert t.Keys == s.Keys;
    SumRemove(s.Keys, i, WorkLeft(s));
    SumRemove(s.Keys, i, WorkLeft(t));
    SumAgree(s.Keys - {i}, WorkLeft(s), WorkLeft(t));
  }

  ghost predicate Run<K(!new)>(s: State<K>, steps: seq<Step>)
    decreases |steps|
  {
    steps == [] || (Enabled(s, steps[0]) && Run(Apply(s, steps[0]), steps[1..]))
  }

  ghost function After<K(!new)>(s: State<K>, steps: seq<Step>): State<K>
    requires Run(s, steps)
    decreases |steps|
  {
    if steps == [] then s else After(Apply(s, steps[0]), steps[1..])
  }

  lemma {:induction false} RunKeepsInv<K(!new)>(s: State<K>, steps: seq<Step>, less: (K, K) -> bool)
    requires Inv(s, less) && Run(s, steps)
    ensures Inv(After(s, steps), less)
    ensures |steps| + Work(After(s, steps)) <= Work(s)
    decreases |steps|
  {
    hide Inv, Work;
    if steps != [] {
      StepKeepsInv(s, steps[0], less);
      StepDoesWork(s, steps[0]);
      RunKeepsInv(Apply(s, steps[0]), steps[1..], less);
    }
  }

  ghost predicate Fresh<K>(s: State<K>) {
    forall i :: i in s ==> s[i].next == 0 && !s[i].looked && s[i].held == {} && !s[i].finished
  }

  /** Start any number of transactions whose keys ascend and let them interleave: every run
      is finite, and one that cannot go on has committed them all. */
  lemma {:induction false} RunsFinish<K(!new)>(s: State<K>, steps: seq<Step>, less: (K, K) -> bool)
    requires StrictTotal(less) && Fresh(s) && Run(s, steps)
    requires forall i :: i in s ==> Ascending(s[i].keys, less)
    ensures |steps| <= Work(s)
    ensures (forall step :: !Enabled(After(s, steps), step)) ==> forall i :: i in After(s, steps) ==> After(s, steps)[i].finished
  {
    RunKeepsInv(s, steps, less);
    var t := After(s, steps);
    if i :| i in t && !t[i].finished {
      NoDeadlock(t, less, i);
      var j :| CanStep(t, j);
      assert TxSound(t[j], less);
      CanStepEnabled(t, j, true);
    }
  }

  // ---- The order is what prevents it ----

  /** Two transactions that lock the same two rows in opposite orders can block each other
      for good. */
  lemma {:induction false} OppositeOrdersDeadlock<K(!new)>(a: K, b: K)
    requires a != b
    ensures var s: State<K> := map[0 := Tx([a, b], 0, false, {}, false), 1 := Tx([b, a], 0, false, {}, false)];
            exists steps :: Run(s, steps) && (forall i :: i in After(s, steps) ==> !After(s, steps)[i].finished) && forall i :: !CanStep(After(s, steps), i)
  {
    var s: State<K> := map[0 := Tx([a, b], 0, false, {}, false), 1 := Tx([b, a], 0, false, {}, false)];
    var steps := [Look(0, true), Upsert(0), Look(1, true), Upsert(1)];
    var s1: State<K> := s[0 := Tx([a, b], 0, true, {a}, false)];
    assert s[0].held + {s[0].keys[0]} == {a};
    assert Enabled(s, steps[0]) && Apply(s, steps[0]) == s1;
    var s2: State<K> := s1[0 := Tx([a, b], 1, false, {a}, false)];
    assert s1[0].held + {s1[0].keys[0]} == {a};
    assert Enabled(s1, steps[1]) && Apply(s1, steps[1]) == s2;
    var s3: State<K> := s2[1 := Tx([b, a], 0, true, {b}, false)];
    assert s2[1].held + {s2[1].keys[0]} == {b};
    assert Enabled(s2, steps[2]) && Apply(s2, steps[2]) == s3;
    var s4: State<K> := s3[1 := Tx([b, a], 1, false, {b}, false)];
    assert s3[1].held + {s3[1].keys[0]} == {b};
    assert Enabled(s3, steps[3]) && Apply(s3, steps[3]) == s4;
    RunCons(s, steps, s1);
    RunCons(s1, steps[1..], s2);
    RunCons(s2, steps[1..][1..], s3);
    RunCons(s3, steps[1..][1..][1..], s4);
    assert steps[1..][1..][1..][1..] == [];
    assert Run(s4, []) && After(s4, []) == s4;
    assert a in s4[0].held && b in s4[1].held;
  }

  lemma {:induction false} RunCons<K(!new)>(s: State<K>, steps: seq<Step>, t: State<K>)
    requires steps != [] && Enabled(s, steps[0]) && Apply(s, steps[0]) == t
    ensures Run(t, steps[1..]) ==> Run(s, steps) && After(s, steps) == After(t, steps[1..])
  {}
}
