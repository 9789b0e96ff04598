/** Install tracking (internal/storage/installs.go): folding one install's events into its
    row, and the SQL upsert that stores the result. Times are integers. */
module Installs {
  import opened Prelude
  import opened Sorting
  import opened Semver

  /** InstallEvent, for one install */
  datatype Event = Event(at: int, version: Option<string>, os: Option<string>, arch: Option<string>,
                         completed: bool, exitCode: Option<int>, installMethod: string)

  /** installState: one row of the installs table */
  datatype Install = Install(firstSeen: int, lastSeen: int, firstVersion: Option<string>, lastVersion: Option<string>,
                             lastOS: Option<string>, lastArch: Option<string>, installMethod: Option<string>,
                             firstCommandAt: Option<int>, firstSuccessAt: Option<int>)

  /** versionChange */
  datatype Change = Change(at: int, from: string, to: string, upgrade: bool)

  datatype Planned = Planned(row: Install, changes: seq<Change>)

  predicate Earlier(a: Event, b: Event) { a.at < b.at }

  /** earliest */
  function Earliest(cur: Option<int>, t: int): Option<int> {
    if cur.None? || t < cur.value then Some(t) else cur
  }

  function Start(e: Event): Install {
    Install(e.at, e.at, e.version, e.version, e.os, e.arch, None, None, None)
  }

  predicate Succeeded(e: Event) { e.completed && e.exitCode == Some(0) }

  /** The row after one turn of planInstall's loop. */
  function Fold(st: Install, e: Event): Install {
    Install(
      if e.at < st.firstSeen then e.at else st.firstSeen,
      if e.at >= st.lastSeen then e.at else st.lastSeen,
      if e.at < st.firstSeen then Coalesce(e.version, st.firstVersion) else st.firstVersion,
      if e.at >= st.lastSeen then Coalesce(e.version, st.lastVersion) else st.lastVersion,
      if e.at >= st.lastSeen then Coalesce(e.os, st.lastOS) else st.lastOS,
      if e.at >= st.lastSeen then Coalesce(e.arch, st.lastArch) else st.lastArch,
      if e.installMethod != "" then Some(e.installMethod) else st.installMethod,
      if e.completed then Earliest(st.firstCommandAt, e.at) else st.firstCommandAt,
      if Succeeded(e) then Earliest(st.firstSuccessAt, e.at) else st.firstSuccessAt)
  }

  /** The version change that turn records, if any. */
  function ChangeOf(st: Install, e: Event): seq<Change> {
    if e.at > st.lastSeen && e.version.Some? && st.lastVersion.Some? && st.lastVersion != e.version then
      var c := CompareVersions(st.lastVersion.value, e.version.value);
      if c.Some? && c.value != 0 then [Change(e.at, st.lastVersion.value, e.version.value, c.value < 0)] else []
    else []
  }

  function FoldAll(st: Install, events: seq<Event>): Install {
    if events == [] then st else Fold(FoldAll(st, events[..|events| - 1]), events[|events| - 1])
  }

  function ChangesOf(st: Install, events: seq<Event>): seq<Change> {
    if events == [] then []
    else
      var init := events[..|events| - 1];
      ChangesOf(st, init) + ChangeOf(FoldAll(st, init), events[|events| - 1])
  }

  function ByTime(events: seq<Event>): seq<Event> {
    Sort(events, Earlier)
  }

  function StartFrom(existing: Option<Install>, events: seq<Event>): Install
    requires existing.Some? || events != []
  {
    SortElements(events, Earlier);
    if existing.Some? then existing.value else Start(ByTime(events)[0])
  }

  function Plan(existing: Option<Install>, events: seq<Event>): Planned
    requires existing.Some? || events != []
  {
    var st := StartFrom(existing, events);
    Planned(FoldAll(st, ByTime(events)), ChangesOf(st, ByTime(events)))
  }

  /** One turn of planInstall's loop. */
  method FoldEvent(before: Install, e: Event) returns (st: Install, changes: seq<Change>)
    ensures st == Fold(before, e)
    ensures changes == ChangeOf(before, e)
  {
    hide CompareVersions;
    st, changes := before, [];
    if e.at < st.firstSeen {
      st := st.(firstSeen := e.at);
      if e.version.Some? { st := st.(firstVersion := e.version); }
    }
    if !(e.at < st.lastSeen) {
      if e.version.Some? {
        if st.lastVersion.Some? && st.lastVersion.value != e.version.value && e.at > st.lastSeen {
          var cmp := CompareVersionStrings(st.lastVersion.value, e.version.value);
          if cmp.Some? && cmp.value != 0 {
            changes := [Change(e.at, st.lastVersion.value, e.version.value, cmp.value < 0)];
          }
        }
        st := st.(lastVersion := e.version);
      }
      if e.os.Some? { st := st.(lastOS := e.os); }
      if e.arch.Some? { st := st.(lastArch := e.arch); }
      st := st.(lastSeen := e.at);
    }
    if e.installMethod != "" {
      st := st.(installMethod := Some(e.installMethod));
    }
    if e.completed {
      st := st.(firstCommandAt := Earliest(st.firstCommandAt, e.at));
      if e.exitCode.Some? && e.exitCode.value == 0 {
        st := st.(firstSuccessAt := Earliest(st.firstSuccessAt, e.at));
      }
    }
  }

  /** planInstall. TrackInstalls never calls it without a row and without events. */
  method PlanInstall(existing: Option<Install>, events: seq<Event>) returns (st: Install, changes: seq<Change>)
    requires existing.Some? || events != []
    ensures Planned(st, changes) == Plan(existing, events)
  {
    hide Fold, ChangeOf, Sort;
    var sorted := Sort(events, Earlier);
    SortElements(events, Earlier);
    if existing.Some? {
      st := existing.value;
    } else {
      var first := sorted[0];
      st := Install(first.at, first.at, first.version, first.version, first.os, first.arch, None, None, None);
    }
    changes := [];
    ghost var st0 := st;
    for i := 0 to |sorted|
      invariant st == FoldAll(st0, sorted[..i])
      invariant changes == ChangesOf(st0, sorted[..i])
    {
      assert sorted[..i + 1][..i] == sorted[..i];
      var next, more := FoldEvent(st, sorted[i]);
      st, changes := next, changes + more;
    }
    assert sorted[..|sorted|] == sorted;
  }

  /** upsertInstall's ON CONFLICT DO UPDATE: old is the stored row, new the one offered. */
  function Merge(old': Install, new': Install): Install {
    Install(
      if new'.firstSeen < old'.firstSeen then new'.firstSeen else old'.firstSeen,
      if new'.lastSeen > old'.lastSeen then new'.lastSeen else old'.lastSeen,
      if new'.firstSeen < old'.firstSeen then Coalesce(new'.firstVersion, old'.firstVersion) else old'.firstVersion,
      if new'.lastSeen >= old'.lastSeen then Coalesce(new'.lastVersion, old'.lastVersion) else old'.lastVersion,
      if new'.lastSeen >= old'.lastSeen then Coalesce(new'.lastOS, old'.lastOS) else old'.lastOS,
      if new'.lastSeen >= old'.lastSeen then Coalesce(new'.lastArch, old'.lastArch) else old'.lastArch,
      Coalesce(new'.installMethod, old'.installMethod),
      Least(old'.firstCommandAt, new'.firstCommandAt),
      Least(old'.firstSuccessAt, new'.firstSuccessAt))
  }

  // ---- The row summarises a set of events ----

  ghost predicate IsMin(o: Option<int>, times: set<int>) {
    match o
    case None => times == {}
    case Some(t) => t in times && forall u :: u in times ==> t <= u
  }

  ghost predicate IsMax(t: int, times: set<int>) {
    t in times && forall u :: u in times ==> u <= t
  }

  ghost function Times(s: set<Event>): set<int> { set e | e in s :: e.at }
  ghost function CommandTimes(s: set<Event>): set<int> { set e | e in s && e.completed :: e.at }
  ghost function SuccessTimes(s: set<Event>): set<int> { set e | e in s && e.completed && e.exitCode == Some(0) :: e.at }

  ghost predicate Spans(st: Install, seen: set<Event>) {
    IsMin(Some(st.firstSeen), Times(seen)) && IsMax(st.lastSeen, Times(seen))
  }

  ghost predicate Milestones(st: Install, seen: set<Event>) {
    IsMin(st.firstCommandAt, CommandTimes(seen)) && IsMin(st.firstSuccessAt, SuccessTimes(seen))
  }

  /** The four timestamps are the min and max over seen. */
  ghost predicate Timestamps(st: Install, seen: set<Event>) {
    Spans(st, seen) && Milestones(st, seen)
  }

  /** Every event carries version, OS and arch, and events of the same instant agree on
      them; distinct times are the special case. */
  ghost predicate Consistent(seen: set<Event>) {
    && (forall e :: e in seen ==> e.version.Some? && e.os.Some? && e.arch.Some?)
    && (forall e, f :: e in seen && f in seen && e.at == f.at ==> e.version == f.version && e.os == f.os && e.arch == f.arch)
  }

  /** The row's version, OS and arch fields are those of the earliest and latest events. */
  ghost predicate Labelled(st: Install, seen: set<Event>) {
    && (forall e :: e in seen && e.at == st.firstSeen ==> st.firstVersion == e.version)
    && (forall e :: e in seen && e.at == st.lastSeen ==>
          st.lastVersion == e.version && st.lastOS == e.os && st.lastArch == e.arch)
  }

  lemma {:induction false} FoldSpans(st: Install, seen: set<Event>, e: Event)
    requires Spans(st, seen)
    ensures Spans(Fold(st, e), seen + {e})
    ensures Consistent(seen + {e}) && Labelled(st, seen) ==> Labelled(Fold(st, e), seen + {e})
  {
    assert Times(seen + {e}) == Times(seen) + {e.at};
    forall f | f in seen ensures st.firstSeen <= f.at <= st.lastSeen { assert f.at in Times(seen); }
  }

  lemma {:induction false} FoldMilestones(st: Install, seen: set<Event>, e: Event)
    requires Milestones(st, seen)
    ensures Milestones(Fold(st, e), seen + {e})
  {
    assert CommandTimes(seen + {e}) == CommandTimes(seen) + (if e.completed then {e.at} else {});
    assert SuccessTimes(seen + {e}) == SuccessTimes(seen) + (if Succeeded(e) then {e.at} else {});
  }

  ghost function EventSet(events: seq<Event>): set<Event> { set e | e in events }

  lemma {:induction false} FoldAllSummarises(st: Install, seen: set<Event>, done: set<Event>, events: seq<Event>)
    requires Spans(st, seen) && Milestones(st, done)
    ensures Spans(FoldAll(st, events), seen + EventSet(events))
    ensures Milestones(FoldAll(st, events), done + EventSet(events))
    ensures Consistent(seen + EventSet(events)) && Labelled(st, seen) ==> Labelled(FoldAll(st, events), seen + EventSet(events))
  {
    hide Fold, Spans, Milestones, Labelled, Consistent;
    if events == [] {
      assert seen + EventSet(events) == seen && done + EventSet(events) == done;
    } else {
      var init, last := events[..|events| - 1], events[|events| - 1];
      FoldAllSummarises(st, seen, done, init);
      assert EventSet(events) == EventSet(init) + {last};
      var mid := FoldAll(st, init);
      FoldSpans(mid, seen + EventSet(init), last);
      FoldMilestones(mid, done + EventSet(init), last);
      assert seen + EventSet(events) == (seen + EventSet(init)) + {last};
      assert done + EventSet(events) == (done + EventSet(init)) + {last};
      if Consistent(seen + EventSet(events)) { ConsistentSubset(seen + EventSet(init), seen + EventSet(events)); }
    }
  }

  lemma {:induction false} ConsistentSubset(s: set<Event>, t: set<Event>)
    requires Consistent(t) && s <= t
    ensures Consistent(s)
  {}

  lemma {:induction false} StartSummarises(e: Event)
    ensures Spans(Start(e), {e}) && Milestones(Start(e), {}) && Labelled(Start(e), {e})
  {
    assert Times({e}) == {e.at};
    assert CommandTimes({}) == {} && SuccessTimes({}) == {};
  }

  lemma {:induction false} ByTimeElements(events: seq<Event>)
    ensures EventSet(ByTime(events)) == EventSet(events) && |ByTime(events)| == |events|
    ensures SortedBy(ByTime(events), Earlier)
  {
    SortElements(events, Earlier);
    SortSorted(events, Earlier);
  }

  /** Planning events over a row that summarises `seen` summarises both together. */
  lemma {:induction false} PlanSummarises(st: Install, seen: set<Event>, events: seq<Event>)
    requires Timestamps(st, seen)
    ensures Timestamps(Plan(Some(st), events).row, seen + EventSet(events))
    ensures Consistent(seen + EventSet(events)) && Labelled(st, seen) ==> Labelled(Plan(Some(st), events).row, seen + EventSet(events))
  {
    hide FoldAll, ByTime, Labelled;
    ByTimeElements(events);
    FoldAllSummarises(st, seen, seen, ByTime(events));
  }

  /** A new install's plan summarises its events. */
  lemma {:induction false} NewPlanSummarises(events: seq<Event>)
    requires events != []
    ensures Timestamps(Plan(None, events).row, EventSet(events))
    ensures Consistent(EventSet(events)) ==> Labelled(Plan(None, events).row, EventSet(events))
  {
    hide FoldAll, ByTime, Labelled, Start, Spans, Milestones;
    ByTimeElements(events);
    var first := ByTime(events)[0];
    StartSummarises(first);
    FoldAllSummarises(Start(first), {first}, {}, ByTime(events));
    assert first in EventSet(ByTime(events));
    assert {first} + EventSet(events) == EventSet(events) && {} + EventSet(events) == EventSet(events);
  }

  /** The SQL merge of two rows summarises the events of both. */
  lemma {:induction false} MergeSummarises(a: Install, b: Install, s: set<Event>, t: set<Event>)
    requires Timestamps(a, s) && Timestamps(b, t)
    ensures Timestamps(Merge(a, b), s + t)
    ensures Consistent(s + t) && Labelled(a, s) && Labelled(b, t) ==> Labelled(Merge(a, b), s + t)
  {
    assert Times(s + t) == Times(s) + Times(t);
    assert CommandTimes(s + t) == CommandTimes(s) + CommandTimes(t);
    assert SuccessTimes(s + t) == SuccessTimes(s) + SuccessTimes(t);
    assert Spans(Merge(a, b), s + t) && Milestones(Merge(a, b), s + t);
    if Consistent(s + t) && Labelled(a, s) && Labelled(b, t) { MergeLabelled(a, b, s, t); }
  }

  lemma {:induction false} MergeLabelled(a: Install, b: Install, s: set<Event>, t: set<Event>)
    requires Spans(a, s) && Spans(b, t) && Consistent(s + t) && Labelled(a, s) && Labelled(b, t)
    ensures Labelled(Merge(a, b), s + t)
  {
    var a0, a1 :| a0 in s && a0.at == a.firstSeen && a1 in s && a1.at == a.lastSeen;
    var b0, b1 :| b0 in t && b0.at == b.firstSeen && b1 in t && b1.at == b.lastSeen;
    assert a0 in s + t && a1 in s + t && b0 in s + t && b1 in s + t;
    forall e | e in s + t ensures Merge(a, b).firstSeen <= e.at <= Merge(a, b).lastSeen {
      if e in s { assert e.at in Times(s); } else { assert e.at in Times(t); }
    }
  }

  /** Two rows that summarise the same events have the same timestamps, and the same version,
      OS and arch fields if the events are consistent. */
  lemma {:induction false} SummaryUnique(a: Install, b: Install, seen: set<Event>)
    requires Timestamps(a, seen) && Timestamps(b, seen)
    ensures a.firstSeen == b.firstSeen && a.lastSeen == b.lastSeen
    ensures a.firstCommandAt == b.firstCommandAt && a.firstSuccessAt == b.firstSuccessAt
    ensures Labelled(a, seen) && Labelled(b, seen) ==> a.(installMethod := None) == b.(installMethod := None)
  {
    var f, l :| f in seen && f.at == a.firstSeen && l in seen && l.at == a.lastSeen;
    assert IsMin(a.firstCommandAt, CommandTimes(seen)) && IsMin(b.firstCommandAt, CommandTimes(seen));
    assert IsMin(a.firstSuccessAt, SuccessTimes(seen)) && IsMin(b.firstSuccessAt, SuccessTimes(seen));
  }

  // ---- Upserting a plan stores it ----

  /** next came from st by folding events in: fields move only as the merge lets them. */
  ghost predicate Extends(st: Install, next: Install) {
    && next.firstSeen <= st.firstSeen && st.lastSeen <= next.lastSeen
    && (next.firstSeen == st.firstSeen ==> next.firstVersion == st.firstVersion)
    && (st.firstVersion.Some? ==> next.firstVersion.Some?)
    && (st.lastVersion.Some? ==> next.lastVersion.Some?)
    && (st.lastOS.Some? ==> next.lastOS.Some?)
    && (st.lastArch.Some? ==> next.lastArch.Some?)
    && (st.installMethod.Some? ==> next.installMethod.Some?)
    && Least(st.firstCommandAt, next.firstCommandAt) == next.firstCommandAt
    && Least(st.firstSuccessAt, next.firstSuccessAt) == next.firstSuccessAt
  }

  lemma {:induction false} FoldAllExtends(st: Install, events: seq<Event>)
    ensures Extends(st, FoldAll(st, events))
  {
    if events != [] { FoldAllExtends(st, events[..|events| - 1]); }
  }

  /** The upsert stores exactly what planInstall computed from the row it read. */
  lemma {:induction false} UpsertStoresPlan(st: Install, events: seq<Event>)
    ensures Merge(st, Plan(Some(st), events).row) == Plan(Some(st), events).row
  {
    hide FoldAll, ByTime;
    FoldAllExtends(st, ByTime(events));
  }

  /** Two writers that both saw no row store what one writer with both batches would have:
      the same four timestamps, and the same other fields where the events are consistent. */
  lemma {:induction false} TwoFirstWriters(first: seq<Event>, second: seq<Event>)
    requires first != [] && second != []
    ensures var raced := Merge(Plan(None, first).row, Plan(None, second).row);
            var one := Plan(None, first + second).row;
            && raced.firstSeen == one.firstSeen && raced.lastSeen == one.lastSeen
            && raced.firstCommandAt == one.firstCommandAt && raced.firstSuccessAt == one.firstSuccessAt
            && (Consistent(EventSet(first + second)) ==> raced.(installMethod := None) == one.(installMethod := None))
  {
    hide Plan, Merge, Timestamps, Labelled;
    NewPlanSummarises(first);
    NewPlanSummarises(second);
    NewPlanSummarises(first + second);
    assert EventSet(first + second) == EventSet(first) + EventSet(second);
    assert Consistent(EventSet(first + second)) ==> Consistent(EventSet(first)) && Consistent(EventSet(second));
    MergeSummarises(Plan(None, first).row, Plan(None, second).row, EventSet(first), EventSet(second));
    SummaryUnique(Merge(Plan(None, first).row, Plan(None, second).row), Plan(None, first + second).row, EventSet(first + second));
  }

  // ---- The timestamps stay in order ----

  /** FirstSeen ≤ FirstCommandAt ≤ FirstSuccessAt ≤ LastSeen, where set; a success is a
      command. */
  ghost predicate Ordered(st: Install) {
    && st.firstSeen <= st.lastSeen
    && (st.firstCommandAt.Some? ==> st.firstSeen <= st.firstCommandAt.value <= st.lastSeen)
    && (st.firstSuccessAt.Some? ==> st.firstCommandAt.Some? && st.firstCommandAt.value <= st.firstSuccessAt.value <= st.lastSeen)
  }

  lemma {:induction false} FoldAllOrdered(st: Install, events: seq<Event>)
    requires Ordered(st)
    ensures Ordered(FoldAll(st, events))
  {
    if events != [] { FoldAllOrdered(st, events[..|events| - 1]); }
  }

  lemma {:induction false} PlanOrdered(existing: Option<Install>, events: seq<Event>)
    requires existing.Some? || events != []
    requires existing.Some? ==> Ordered(existing.value)
    ensures Ordered(Plan(existing, events).row)
  {
    FoldAllOrdered(StartFrom(existing, events), ByTime(events));
  }

  lemma {:induction false} MergeOrdered(a: Install, b: Install)
    requires Ordered(a) && Ordered(b)
    ensures Ordered(Merge(a, b))
  {}
}
