/** The version changes that concurrent TrackInstalls transactions leave in
    install_version_changes (internal/storage/installs.go), beside the row that InstallRace
    follows. */
module RaceChanges {
  import opened Prelude
  import opened Sorting
  import opened Semver
  import Text
  import opened Installs
  import opened InstallRuns
  import opened InstallRace

  /** order: the batches written since the row was last swept. changes: the table's rows for
      the install, by their key. raced: a writer that saw no row wrote over one. */
  datatype Ledger = Ledger(order: seq<seq<Event>>, changes: map<int, Change>, raced: bool)

  /** INSERT … ON CONFLICT DO NOTHING, one by one */
  function InsertAll(t: map<int, Change>, cs: seq<Change>): map<int, Change> {
    if cs == [] then t
    else
      var u, c := InsertAll(t, cs[..|cs| - 1]), cs[|cs| - 1];
      if c.at in u then u else u[c.at := c]
  }

  /** A sweep that takes the row takes its changes: none is later than its last_seen. */
  ghost function Log(l: Ledger, s: State, step: Step): Ledger
    requires Inv(s) && Enabled(s, step)
  {
    match step
    case Write(w) =>
      var wr := s.writers[w];
      Ledger(l.order + [wr.events], InsertAll(l.changes, Plan(wr.phase.row, wr.events).changes), l.raced || (wr.phase.row.None? && s.row.Some?))
    case Sweep => Ledger([], map[], false)
    case _ => l
  }

  ghost function LogAll(l: Ledger, s: State, steps: seq<Step>): Ledger
    requires Inv(s) && Run(s, steps)
    decreases |steps|
  {
    if steps == [] then l
    else
      StepKeepsInv(s, steps[0]);
      LogAll(Log(l, s, steps[0]), Apply(s, steps[0]), steps[1..])
  }

  // ---- In every interleaving ----

  /** Every stored change is under its own time, no later than the row's last_seen, and its
      direction is the semver sign. */
  ghost predicate Real(s: State, l: Ledger) {
    forall at :: at in l.changes ==> s.row.Some? && l.changes[at].at == at <= s.row.value.lastSeen && ChangeReal(l.changes[at])
  }

  lemma {:induction false} InsertedFrom(t: map<int, Change>, cs: seq<Change>)
    ensures forall at :: at in InsertAll(t, cs) ==>
              (at in t && InsertAll(t, cs)[at] == t[at]) || (InsertAll(t, cs)[at] in cs && InsertAll(t, cs)[at].at == at)
    ensures forall at :: at in t ==> at in InsertAll(t, cs) && InsertAll(t, cs)[at] == t[at]
  {
    if cs != [] {
      assert cs == cs[..|cs| - 1] + [cs[|cs| - 1]];
      InsertedFrom(t, cs[..|cs| - 1]);
    }
  }

  lemma {:induction false} PlanReal(saw: Option<Install>, events: seq<Event>)
    requires saw.Some? || events != []
    ensures forall c :: c in Plan(saw, events).changes ==> c.at <= Plan(saw, events).row.lastSeen && ChangeReal(c)
  {
    hide ChangeReal, Sort;
    ChangesOfSound(StartFrom(saw, events), ByTime(events));
  }

  lemma {:induction false} StepKeepsReal(s: State, l: Ledger, step: Step)
    requires Inv(s) && Enabled(s, step) && Real(s, l)
    ensures Real(Apply(s, step), Log(l, s, step))
  {
    hide ChangeReal, Plan, RowSound, EventSet;
    if step.Write? {
      var wr := s.writers[step.w];
      InsertedFrom(l.changes, Plan(wr.phase.row, wr.events).changes);
      PlanReal(wr.phase.row, wr.events);
    }
  }

  lemma {:induction false} RunKeepsReal(s: State, l: Ledger, steps: seq<Step>)
    requires Inv(s) && Run(s, steps) && Real(s, l)
    ensures Real(After(s, steps), LogAll(l, s, steps))
    decreases |steps|
  {
    hide Real, Log, Apply, RowSound, Enabled;
    if steps != [] {
      StepKeepsInv(s, steps[0]);
      StepKeepsReal(s, l, steps[0]);
      RunKeepsReal(Apply(s, steps[0]), Log(l, s, steps[0]), steps[1..]);
    }
  }

  // ---- While no writer that saw no row wrote over one ----

  /** The row and the changes are those of delivering the batches one after another, in the
      order they were written. */
  ghost predicate Serial(s: State, l: Ledger) {
    !l.raced ==>
      && (s.row.None? ==> l == Ledger([], map[], false))
      && (s.row.Some? ==>
            && l.order != [] && NonEmpty(l.order) && Deliver(l.order).Some?
            && Deliver(l.order).value.row == s.row.value
            && l.changes == InsertAll(map[], Deliver(l.order).value.changes))
  }

  lemma {:induction false} InsertAppend(t: map<int, Change>, a: seq<Change>, b: seq<Change>)
    ensures InsertAll(t, a + b) == InsertAll(InsertAll(t, a), b)
  {
    if b == [] {
      assert a + b == a;
    } else {
      assert (a + b)[..|a + b| - 1] == a + b[..|b| - 1];
      InsertAppend(t, a, b[..|b| - 1]);
    }
  }

  lemma {:induction false} DeliverMore(order: seq<seq<Event>>, events: seq<Event>)
    requires NonEmpty(order) && events != []
    ensures NonEmpty(order + [events])
    ensures var before := Deliver(order);
            Deliver(order + [events]) ==
              if before.None? then Some(Plan(None, events))
              else
                var p := Plan(Some(before.value.row), events);
                Some(Planned(Merge(before.value.row, p.row), before.value.changes + p.changes))
  {
    hide Plan, Merge;
    assert (order + [events])[..|order|] == order;
  }

  lemma {:induction false} StepKeepsSerial(s: State, l: Ledger, step: Step)
    requires Inv(s) && Enabled(s, step) && Serial(s, l)
    ensures Serial(Apply(s, step), Log(l, s, step))
  {
    hide Plan, Merge, RowSound, EventSet, Deliver;
    if step.Write? {
      var wr := s.writers[step.w];
      if !Log(l, s, step).raced {
        DeliverMore(l.order, wr.events);
        if s.row.None? {
          assert Deliver([]).None? by { NothingDelivered(); }
        } else {
          InsertAppend(map[], Deliver(l.order).value.changes, Plan(wr.phase.row, wr.events).changes);
        }
      }
    }
  }

  lemma {:induction false} NothingDelivered()
    ensures Deliver([]).None?
  {}

  lemma {:induction false} RunKeepsSerial(s: State, l: Ledger, steps: seq<Step>)
    requires Inv(s) && Run(s, steps) && Serial(s, l)
    ensures Serial(After(s, steps), LogAll(l, s, steps))
    decreases |steps|
  {
    hide Serial, Log, Apply, RowSound, Enabled;
    if steps != [] {
      StepKeepsInv(s, steps[0]);
      StepKeepsSerial(s, l, steps[0]);
      RunKeepsSerial(Apply(s, steps[0]), Log(l, s, steps[0]), steps[1..]);
    }
  }

  /** Changes in ascending time all find their place. */
  lemma {:induction false} NoneLost(cs: seq<Change>)
    requires forall i, j :: 0 <= i < j < |cs| ==> cs[i].at < cs[j].at
    ensures forall i :: 0 <= i < |cs| ==> cs[i].at in InsertAll(map[], cs) && InsertAll(map[], cs)[cs[i].at] == cs[i]
  {
    if cs != [] {
      var init, last := cs[..|cs| - 1], cs[|cs| - 1];
      assert cs == init + [last];
      NoneLost(init);
      InsertedFrom(map[], init);
      forall c | c in init ensures c.at < last.at {
        var i :| 0 <= i < |init| && init[i] == c;
        assert cs[i].at < cs[|cs| - 1].at;
      }
    }
  }

  /** In every interleaving of writers and sweeps in which no writer that saw no row wrote over
      one: the stored changes are all those of delivering the batches in the order they were
      written, so their times strictly increase with the semver direction; and if that is a
      clean run, each starts semver-equal to where the one before ended and the last ends
      semver-equal to last_version. */
  lemma {:induction false} UnracedChanges(s: State, steps: seq<Step>)
    requires Inv(s) && Init(s) && Run(s, steps)
    ensures var t, l := After(s, steps), LogAll(Ledger([], map[], false), s, steps);
            !l.raced && t.row.Some? ==>
              && l.order != [] && NonEmpty(l.order) && Deliver(l.order).Some?
              && var p := Deliver(l.order).value;
                 && p.row == t.row.value
                 && (forall c :: c in p.changes ==> c.at in l.changes && l.changes[c.at] == c)
                 && (forall at :: at in l.changes ==> l.changes[at] in p.changes)
                 && ChangesSound(p.changes, p.row.firstSeen, p.row.lastSeen)
                 && (CleanRun(l.order) ==> Leads(None, p.changes, p.row.lastVersion))
  {
    hide ChangesSound, Leads, CleanRun, Deliver, Run, After, LogAll, Inv, Init;
    assert Serial(s, Ledger([], map[], false)) by { InitSerial(s); }
    RunKeepsSerial(s, Ledger([], map[], false), steps);
    var t, l := After(s, steps), LogAll(Ledger([], map[], false), s, steps);
    if !l.raced && t.row.Some? {
      var p := Deliver(l.order).value;
      RunChangesSound(l.order);
      Increasing(p.changes, p.row.firstSeen, p.row.lastSeen);
      NoneLost(p.changes);
      InsertedFrom(map[], p.changes);
      forall c | c in p.changes ensures c.at in l.changes && l.changes[c.at] == c {
        var i :| 0 <= i < |p.changes| && p.changes[i] == c;
      }
      if CleanRun(l.order) { RunChangesLead(l.order); }
    }
  }

  lemma {:induction false} InitSerial(s: State)
    requires Init(s)
    ensures Serial(s, Ledger([], map[], false))
  {}

  lemma {:induction false} Increasing(cs: seq<Change>, after: int, upto: int)
    requires ChangesSound(cs, after, upto)
    ensures forall i, j :: 0 <= i < j < |cs| ==> cs[i].at < cs[j].at
  {}

  // ---- Two writers that both saw no row ----

  function At(t: int, v: Version): Event { Plain(t, Some(Render(v)), "") }

  function Release(n: nat): Version { Version(n, 0, 0, [], []) }

  lemma {:induction false} ReleasesCompare(m: nat, n: nat)
    requires m < Text.UINT64_LIMIT && n < Text.UINT64_LIMIT
    ensures CompareVersions(Render(Release(m)), Render(Release(n))) == Some(if m < n then -1 else if n < m then 1 else 0)
  {
    hide Render, CompareVersions;
    CompareIsPrecedence(Release(m), Release(n));
  }

  /** One batch of two releases records the step between them. */
  lemma {:induction false} PairPlan(a: Event, b: Event)
    requires a.at < b.at
    ensures Plan(None, [a, b]).changes == ChangeOf(Fold(Start(a), a), b)
  {
    hide Fold, ChangeOf;
    var events := [a, b];
    assert events[1..] == [b] && [b][1..] == [];
    assert Sort([b], Earlier) == [b] by { assert Sort([b][1..], Earlier) == []; }
    assert ByTime(events) == Insert(a, [b], Earlier) == [a, b];
    assert events[..1] == [a] && [a][..0] == [];
    var st := Start(a);
    assert FoldAll(st, [a][..0]) == st && FoldAll(st, [a]) == Fold(st, a);
    assert ChangesOf(st, [a][..0]) == [] && ChangesOf(st, [a]) == ChangeOf(st, a);
    assert ChangeOf(st, a) == [] by { NoSelfChange(a); }
  }

  lemma {:induction false} NoSelfChange(a: Event)
    ensures ChangeOf(Start(a), a) == []
  {}

  lemma {:induction false} ReleaseStep(t: int, m: nat, u: int, n: nat)
    requires t < u && m < n < Text.UINT64_LIMIT
    ensures Plan(None, [At(t, Release(m)), At(u, Release(n))]).changes == [Change(u, Render(Release(m)), Render(Release(n)), true)]
  {
    hide Plan, Render, CompareVersions;
    PairPlan(At(t, Release(m)), At(u, Release(n)));
    ReleasesCompare(m, n);
    ReleasesCompare(m, m);
  }

  /** 1 then 3 in one batch, 2 then 4 in another, and neither writer saw a row: the stored
      changes go from 1 to 3 and from 2 to 4, which do not link. */
  lemma {:induction false} RacedChangesUnlinked()
    ensures var a, b := [At(1, Release(1)), At(3, Release(3))], [At(2, Release(2)), At(4, Release(4))];
            var s := State(None, None, map[0 := Writer(a, Waiting), 1 := Writer(b, Waiting)], {});
            var steps := [Read(0), Read(1), Write(0), Write(1)];
            && Inv(s) && Init(s) && Run(s, steps)
            && var l := LogAll(Ledger([], map[], false), s, steps);
               && l.raced && l.changes.Keys == {3, 4} && l.changes[3].to == Render(Release(3)) && l.changes[4].from == Render(Release(2))
               && !SameVersion(l.changes[3].to, l.changes[4].from)
  {
    hide Plan, Merge, RowSound, EventSet, Render, CompareVersions;
    var a, b := [At(1, Release(1)), At(3, Release(3))], [At(2, Release(2)), At(4, Release(4))];
    ReleaseStep(1, 1, 3, 3);
    ReleaseStep(2, 2, 4, 4);
    ReleasesCompare(3, 2);
    BothFirst(a, b);
    var one, two := Plan(None, a).changes, Plan(None, b).changes;
    assert one[..0] == [] && two[..0] == [];
    assert InsertAll(map[], one) == map[3 := one[0]];
    assert InsertAll(map[3 := one[0]], two) == map[3 := one[0], 4 := two[0]];
  }

  lemma {:induction false} NextStep(l: Ledger, s: State, step: Step, steps: seq<Step>)
    requires Inv(s) && Enabled(s, step) && Inv(Apply(s, step)) && Run(Apply(s, step), steps)
    ensures Run(s, [step] + steps)
    ensures LogAll(l, s, [step] + steps) == LogAll(Log(l, s, step), Apply(s, step), steps)
  {
    hide Log, Apply, RowSound, Enabled;
    assert ([step] + steps)[1..] == steps;
  }

  lemma {:induction false} BothFirst(a: seq<Event>, b: seq<Event>)
    requires a != [] && b != []
    ensures var s := State(None, None, map[0 := Writer(a, Waiting), 1 := Writer(b, Waiting)], {});
            var steps := [Read(0), Read(1), Write(0), Write(1)];
            && Inv(s) && Init(s) && Run(s, steps)
            && LogAll(Ledger([], map[], false), s, steps) == Ledger([a, b], InsertAll(InsertAll(map[], Plan(None, a).changes), Plan(None, b).changes), true)
  {
    hide Plan, Merge, RowSound, EventSet, InsertAll, Run, LogAll, Log, Apply;
    var s := State(None, None, map[0 := Writer(a, Waiting), 1 := Writer(b, Waiting)], {});
    var s1 := s.(writers := map[0 := Writer(a, Saw(None)), 1 := Writer(b, Waiting)]);
    var s2 := s.(writers := map[0 := Writer(a, Saw(None)), 1 := Writer(b, Saw(None))]);
    var l := Ledger([], map[], false);
    ReadsNone(s, 0, s1);
    ReadsNone(s1, 1, s2);
    BothWrite(a, b, s2);
    NextStep(l, s1, Read(1), [Write(0), Write(1)]);
    NextStep(l, s, Read(0), [Read(1)] + [Write(0), Write(1)]);
    ReadsLogNothing(l, s, 0);
    ReadsLogNothing(l, s1, 1);
    assert [Read(0)] + ([Read(1)] + [Write(0), Write(1)]) == [Read(0), Read(1), Write(0), Write(1)];
  }

  lemma {:induction false} ReadsNone(s: State, w: nat, t: State)
    requires Inv(s) && Enabled(s, Read(w)) && s.row.None?
    requires t == s.(locked := None, writers := s.writers[w := s.writers[w].(phase := Saw(None))])
    ensures Apply(s, Read(w)) == t && Inv(t)
  {
    StepKeepsInv(s, Read(w));
  }

  lemma {:induction false} ReadsLogNothing(l: Ledger, s: State, w: nat)
    requires Inv(s) && Enabled(s, Read(w))
    ensures Log(l, s, Read(w)) == l
  {}

  lemma {:induction false} BothWrite(a: seq<Event>, b: seq<Event>, s: State)
    requires a != [] && b != [] && s == State(None, None, map[0 := Writer(a, Saw(None)), 1 := Writer(b, Saw(None))], {})
    ensures Inv(s) && Run(s, [Write(0), Write(1)])
    ensures LogAll(Ledger([], map[], false), s, [Write(0), Write(1)])
            == Ledger([a, b], InsertAll(InsertAll(map[], Plan(None, a).changes), Plan(None, b).changes), true)
  {
    hide Plan, Merge, RowSound, EventSet, InsertAll, Run, LogAll;
    var l := Ledger([], map[], false);
    StepKeepsInv(s, Write(0));
    var s1, l1 := Apply(s, Write(0)), Log(l, s, Write(0));
    StepKeepsInv(s1, Write(1));
    Finished(Log(l1, s1, Write(1)), Apply(s1, Write(1)));
    NextStep(l1, s1, Write(1), []);
    assert [Write(1)] + [] == [Write(1)] && [Write(0)] + [Write(1)] == [Write(0), Write(1)];
    NextStep(l, s, Write(0), [Write(1)]);
    assert [] + [a] == [a] && [a] + [b] == [a, b];
  }

  lemma {:induction false} Finished(l: Ledger, s: State)
    requires Inv(s)
    ensures Run(s, []) && LogAll(l, s, []) == l
  {}
}
