/** Any number of TrackInstalls transactions and retention sweeps meeting on one install's
    row. SELECT … FOR UPDATE locks the row if there is one; where there is none, nothing is
    locked, and the upsert is what has to cope with a row created in between. */
module InstallRace {
  import opened Prelude
  import opened Installs

  datatype Phase = Waiting | Saw(row: Option<Install>) | Done

  datatype Writer = Writer(events: seq<Event>, phase: Phase)

  /** stored: the events of the writes since the row was last swept. */
  datatype State = State(row: Option<Install>, locked: Option<nat>, writers: map<nat, Writer>, stored: set<Event>)

  datatype Step =
    | Read(w: nat)      // SELECT … FOR UPDATE
    | Write(w: nat)     // the upsert, and the commit
    | Abort(w: nat)
    | Sweep             // DELETE FROM installs

  ghost predicate Enabled(s: State, step: Step) {
    match step
    case Read(w) => w in s.writers && s.writers[w].phase.Waiting? && s.locked.None?
    case Write(w) =>
      && w in s.writers && s.writers[w].phase.Saw?
      && (if s.writers[w].phase.row.Some? then s.locked == Some(w) else s.locked.None?)
    case Abort(w) => w in s.writers && s.writers[w].phase.Saw?
    case Sweep => s.locked.None?
  }

  function SetPhase(s: State, w: nat, p: Phase): map<nat, Writer>
    requires w in s.writers
  {
    s.writers[w := s.writers[w].(phase := p)]
  }

  /** INSERT … ON CONFLICT DO UPDATE */
  function Upsert(row: Option<Install>, offered: Install): Install {
    if row.None? then offered else Merge(row.value, offered)
  }

  ghost function Apply(s: State, step: Step): State
    requires Enabled(s, step)
    requires forall w :: w in s.writers ==> s.writers[w].events != []
  {
    match step
    case Read(w) => s.(locked := if s.row.Some? then Some(w) else None, writers := SetPhase(s, w, Saw(s.row)))
    case Write(w) =>
      var wr := s.writers[w];
      State(Some(Upsert(s.row, Plan(wr.phase.row, wr.events).row)), None, SetPhase(s, w, Done), s.stored + EventSet(wr.events))
    case Abort(w) =>
      s.(locked := if s.writers[w].phase.row.Some? then None else s.locked, writers := SetPhase(s, w, Waiting))
    case Sweep => s.(row := None, stored := {})
  }

  /** The row summarises exactly the stored events, and a writer that saw a row still sees
      it: it holds the row's lock. */
  ghost predicate Inv(s: State) {
    && (forall w :: w in s.writers ==> s.writers[w].events != [])
    && (if s.row.None? then s.stored == {} else RowSound(s.row.value, s.stored))
    && (forall w :: w in s.writers && s.writers[w].phase.Saw? && s.writers[w].phase.row.Some? ==>
          s.locked == Some(w) && s.writers[w].phase.row == s.row)
  }

  ghost predicate RowSound(row: Install, stored: set<Event>) {
    && Timestamps(row, stored)
    && (Consistent(stored) ==> Labelled(row, stored))
  }

  lemma {:induction false} WriteSound(row: Option<Install>, saw: Option<Install>, stored: set<Event>, events: seq<Event>)
    requires events != []
    requires if row.None? then stored == {} else RowSound(row.value, stored)
    requires saw.None? || saw == row
    ensures RowSound(Upsert(row, Plan(saw, events).row), stored + EventSet(events))
  {
    hide Timestamps, Labelled, Plan, Merge, Consistent, EventSet;
    if Consistent(stored + EventSet(events)) {
      ConsistentSubset(stored, stored + EventSet(events));
      ConsistentSubset(EventSet(events), stored + EventSet(events));
    }
    if saw.Some? {
      PlanSummarises(row.value, stored, events);
      UpsertStoresPlan(row.value, events);
    } else {
      NewPlanSummarises(events);
      if row.None? {
        assert stored + EventSet(events) == EventSet(events);
      } else {
        MergeSummarises(row.value, Plan(None, events).row, stored, EventSet(events));
      }
    }
  }

  lemma {:induction false} StepKeepsInv(s: State, step: Step)
    requires Inv(s) && Enabled(s, step)
    ensures Inv(Apply(s, step))
  {
    hide RowSound, Plan, Merge, EventSet;
    if step.Write? {
      var wr := s.writers[step.w];
      WriteSound(s.row, wr.phase.row, s.stored, wr.events);
    }
  }

  ghost predicate Run(s: State, steps: seq<Step>)
    requires Inv(s)
    decreases |steps|
  {
    steps == [] || (Enabled(s, steps[0]) && (StepKeepsInv(s, steps[0]); Run(Apply(s, steps[0]), steps[1..])))
  }

  ghost function After(s: State, steps: seq<Step>): State
    requires Inv(s) && Run(s, steps)
    decreases |steps|
  {
    if steps == [] then s else StepKeepsInv(s, steps[0]); After(Apply(s, steps[0]), steps[1..])
  }

  /** A writer with the row to itself stores its plan over what it read, and one that aborts
      leaves everything as it was, the lock included. */
  lemma {:induction false} WriterAlone(s: State, w: nat)
    requires Inv(s) && s.locked.None? && w in s.writers && s.writers[w].phase.Waiting?
    ensures var wr := s.writers[w];
            && Run(s, [Read(w), Write(w)])
            && After(s, [Read(w), Write(w)])
               == State(Some(Plan(s.row, wr.events).row), None, s.writers[w := Writer(wr.events, Done)], s.stored + EventSet(wr.events))
    ensures Run(s, [Read(w), Abort(w)]) && After(s, [Read(w), Abort(w)]) == s
  {
    hide RowSound, Plan, Merge, EventSet;
    var wr, t := s.writers[w], Apply(s, Read(w));
    StepKeepsInv(s, Read(w));
    if s.row.Some? { UpsertStoresPlan(s.row.value, wr.events); }
    var u, v := Apply(t, Write(w)), Apply(t, Abort(w));
    assert u.writers == s.writers[w := Writer(wr.events, Done)];
    assert v.writers == s.writers && v == s;
    OneStep(t, Write(w));
    OneStep(t, Abort(w));
    assert [Read(w), Write(w)][1..] == [Write(w)] && [Read(w), Abort(w)][1..] == [Abort(w)];
  }

  lemma {:induction false} OneStep(s: State, step: Step)
    requires Inv(s) && Enabled(s, step)
    ensures Run(s, [step]) && After(s, [step]) == Apply(s, step)
  {
    hide RowSound, Enabled, Apply;
    StepKeepsInv(s, step);
    assert [step][1..] == [];
  }

  ghost predicate Init(s: State) {
    && s.row.None? && s.locked.None? && s.stored == {}
    && forall w :: w in s.writers ==> s.writers[w].events != [] && s.writers[w].phase.Waiting?
  }

  ghost function AllEvents(s: State): set<Event> {
    set w, e | w in s.writers && e in s.writers[w].events :: e
  }

  /** Until a sweep, stored holds the events of exactly the writers that are done. */
  ghost predicate StoredAreDone(s: State) {
    forall e :: e in s.stored <==> exists w :: w in s.writers && s.writers[w].phase.Done? && e in s.writers[w].events
  }

  lemma {:induction false} StepKeepsStored(s: State, step: Step)
    requires Inv(s) && Enabled(s, step) && StoredAreDone(s) && !step.Sweep?
    ensures StoredAreDone(Apply(s, step))
  {
    hide RowSound, Plan, Merge;
    var t := Apply(s, step);
    forall e ensures e in t.stored <==> exists w :: w in t.writers && t.writers[w].phase.Done? && e in t.writers[w].events {
      if e in t.stored && e !in s.stored {
        assert step.Write? && e in t.writers[step.w].events;
      } else if e in s.stored {
        var w :| w in s.writers && s.writers[w].phase.Done? && e in s.writers[w].events;
        assert t.writers[w] == s.writers[w];
      }
      if w :| w in t.writers && t.writers[w].phase.Done? && e in t.writers[w].events {
        if !s.writers[w].phase.Done? { assert step.Write? && step.w == w; }
      }
    }
  }

  lemma {:induction false} RunKeepsStored(s: State, steps: seq<Step>)
    requires Inv(s) && StoredAreDone(s) && Run(s, steps)
    requires forall i :: 0 <= i < |steps| ==> !steps[i].Sweep?
    ensures StoredAreDone(After(s, steps)) && Inv(After(s, steps))
    ensures AllEvents(After(s, steps)) == AllEvents(s)
    decreases |steps|
  {
    if steps != [] {
      StepKeepsInv(s, steps[0]);
      StepKeepsStored(s, steps[0]);
      SameEvents(s, steps[0]);
      RunKeepsStored(Apply(s, steps[0]), steps[1..]);
    }
  }

  lemma {:induction false} SameEvents(s: State, step: Step)
    requires Inv(s) && Enabled(s, step)
    ensures AllEvents(Apply(s, step)) == AllEvents(s)
  {
    hide RowSound, Plan, Merge, EventSet;
    var t := Apply(s, step);
    assert t.writers.Keys == s.writers.Keys;
    forall w | w in s.writers ensures t.writers[w].events == s.writers[w].events {}
  }

  /** Whatever the interleaving, once every writer is done the row's four timestamps are the
      min and max over all their events, and its version, OS and arch fields those of the
      earliest and latest event where the events are consistent. */
  lemma {:induction false} AllDoneRow(s: State, steps: seq<Step>)
    requires Inv(s) && Init(s) && Run(s, steps) && s.writers != map[]
    requires forall i :: 0 <= i < |steps| ==> !steps[i].Sweep?
    requires forall w :: w in After(s, steps).writers ==> After(s, steps).writers[w].phase.Done?
    ensures var t := After(s, steps);
            && t.row.Some?
            && Timestamps(t.row.value, AllEvents(s))
            && (Consistent(AllEvents(s)) ==> Labelled(t.row.value, AllEvents(s)))
  {
    hide Timestamps, Labelled, Consistent, Run, After;
    RunKeepsStored(s, steps);
    var t := After(s, steps);
    assert t.stored == AllEvents(t);
    KeepsWriters(s, steps);
    var w :| w in s.writers;
    assert w in t.writers;
    var e := t.writers[w].events[0];
    assert e in t.writers[w].events;
    assert e in t.stored;
  }

  lemma {:induction false} KeepsWriters(s: State, steps: seq<Step>)
    requires Inv(s) && Run(s, steps)
    ensures After(s, steps).writers.Keys == s.writers.Keys
    decreases |steps|
  {
    if steps != [] {
      StepKeepsInv(s, steps[0]);
      hide Inv, RowSound, Plan, Merge;
      KeepsWriters(Apply(s, steps[0]), steps[1..]);
    }
  }
}
