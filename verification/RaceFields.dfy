/** What becomes of the version, OS, arch and install method of writers that race on one
    install (internal/storage/installs.go). */
module RaceFields {
  import opened Prelude
  import opened Sorting
  import opened Installs
  import opened InstallRuns
  import opened DeliveryOrder
  import opened InstallRace
  import opened RaceChanges

  // ---- One upsert ----

  /** Where the offered row takes precedence its value is kept if it has one; the stored row's
      otherwise. A value is lost exactly if only the offered row has one and it does not take
      precedence. */
  ghost predicate Kept(stored: Option<string>, offered: Option<string>, takes: bool, merged: Option<string>) {
    && (merged.None? <==> stored.None? && (offered.None? || !takes))
    && (merged.Some? ==> merged == stored || merged == offered)
    && (stored.Some? && offered.Some? ==> merged == if takes then offered else stored)
  }

  /** The later row's last version, OS and arch are kept, and the one written second of two as
      late; the earlier row's first version, and the one written first of two as early; and the
      method of the one written second, so that a method is never lost. */
  lemma {:induction false} MergeKeeps(stored: Install, offered: Install)
    ensures var m := Merge(stored, offered);
            && Kept(stored.lastVersion, offered.lastVersion, stored.lastSeen <= offered.lastSeen, m.lastVersion)
            && Kept(stored.lastOS, offered.lastOS, stored.lastSeen <= offered.lastSeen, m.lastOS)
            && Kept(stored.lastArch, offered.lastArch, stored.lastSeen <= offered.lastSeen, m.lastArch)
            && Kept(stored.firstVersion, offered.firstVersion, offered.firstSeen < stored.firstSeen, m.firstVersion)
            && Kept(stored.installMethod, offered.installMethod, true, m.installMethod)
  {
    hide Least;
  }

  /** A version can be lost: the writer of a later event without one wins over the writer of an
      earlier event with one, where a single writer of both would have kept it. */
  lemma {:induction false} RaceLosesVersion(v: string)
    ensures var early, late := Plain(1, Some(v), ""), Plain(2, None, "");
            && Merge(Plan(None, [late]).row, Plan(None, [early]).row).lastVersion == None
            && Plan(None, [late, early]).row.lastVersion == Some(v)
  {
    var early, late := Plain(1, Some(v), ""), Plain(2, None, "");
    PlanSingle(None, early);
    PlanSingle(None, late);
    var both := [late, early];
    assert Sort([early], Earlier) == [early] by { assert [early][1..] == [] && Sort([early][1..], Earlier) == []; }
    assert both[1..] == [early] && ByTime(both) == Insert(late, [early], Earlier);
    assert Insert(late, [early][1..], Earlier) == [late];
    assert ByTime(both) == [early, late];
    var st := Start(early);
    assert [early, late][..1] == [early] && [early][..0] == [];
    assert FoldAll(st, [early][..0]) == st && FoldAll(st, [early]) == Fold(st, early);
  }

  // ---- Every interleaving ----

  /** The method is that of delivering the batches in the order they were written. */
  ghost predicate MethodKept(s: State, l: Ledger) {
    && NonEmpty(l.order) && (s.row.None? <==> l.order == [])
    && (s.row.Some? ==> s.row.value.installMethod == RowOf(l.order).installMethod)
  }

  /** The last method of a batch in the order of its times. */
  ghost function BatchMethod(events: seq<Event>, default: Option<string>): Option<string> {
    LastMethod(ByTime(events), default)
  }

  lemma {:induction false} PlanMethod(saw: Option<Install>, events: seq<Event>)
    requires saw.Some? || events != []
    ensures Plan(saw, events).row.installMethod == BatchMethod(events, if saw.Some? then saw.value.installMethod else None)
  {
    hide Fold, Sort;
    FoldMethod(StartFrom(saw, events), ByTime(events));
  }

  lemma {:induction false} MethodDefault(events: seq<Event>, default: Option<string>)
    ensures LastMethod(events, default) == Coalesce(LastMethod(events, None), default)
  {
    if events != [] { MethodDefault(events[..|events| - 1], default); }
  }

  /** Whatever the writer saw, its upsert leaves its own last method, or the stored one. */
  lemma {:induction false} UpsertMethod(row: Option<Install>, saw: Option<Install>, events: seq<Event>)
    requires events != [] && (saw.None? || saw == row)
    ensures Upsert(row, Plan(saw, events).row).installMethod == BatchMethod(events, if row.Some? then row.value.installMethod else None)
  {
    hide Plan, ByTime, LastMethod;
    PlanMethod(saw, events);
    MethodDefault(ByTime(events), if row.Some? then row.value.installMethod else None);
    if saw.Some? { MethodDefault(ByTime(events), saw.value.installMethod); }
  }

  lemma {:induction false} DeliverMethod(order: seq<seq<Event>>, events: seq<Event>)
    requires NonEmpty(order) && events != []
    ensures NonEmpty(order + [events])
    ensures RowOf(order + [events]).installMethod == BatchMethod(events, if order == [] then None else RowOf(order).installMethod)
  {
    hide Plan, Merge, Deliver, BatchMethod;
    DeliverMore(order, events);
    if order == [] {
      NothingDelivered();
      UpsertMethod(None, None, events);
    } else {
      DeliverSummarises(order);
      var row := Some(RowOf(order));
      UpsertMethod(row, row, events);
    }
  }

  lemma {:induction false} StepKeepsMethod(s: State, l: Ledger, step: Step)
    requires Inv(s) && Enabled(s, step) && MethodKept(s, l)
    ensures MethodKept(Apply(s, step), Log(l, s, step))
  {
    hide Plan, Merge, RowSound, EventSet, Deliver, BatchMethod, RowOf, Upsert, InsertAll;
    if step.Write? {
      var wr := s.writers[step.w];
      DeliverMethod(l.order, wr.events);
      UpsertMethod(s.row, wr.phase.row, wr.events);
    }
  }

  /** In every interleaving of writers and sweeps, raced or not, install_method is what
      delivering the batches one after another, in the order they were written, would have
      left. */
  lemma {:induction false} RunKeepsMethod(s: State, l: Ledger, steps: seq<Step>)
    requires Inv(s) && Run(s, steps) && MethodKept(s, l)
    ensures MethodKept(After(s, steps), LogAll(l, s, steps))
    decreases |steps|
  {
    hide MethodKept, Log, Apply, RowSound, Enabled;
    if steps != [] {
      StepKeepsInv(s, steps[0]);
      StepKeepsMethod(s, l, steps[0]);
      RunKeepsMethod(Apply(s, steps[0]), Log(l, s, steps[0]), steps[1..]);
    }
  }
}
