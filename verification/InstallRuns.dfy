/** Runs of batches for one install, one after another: what the row and the version
    changes end as, in whatever order and batching the events arrive. */
module InstallRuns {
  import opened Prelude
  import opened Sorting
  import opened Semver
  import opened Installs

  predicate NonEmpty(batches: seq<seq<Event>>) {
    forall i :: 0 <= i < |batches| ==> batches[i] != []
  }

  /** Delivering batches in order, each through planInstall and the upsert. */
  function Deliver(batches: seq<seq<Event>>): Option<Planned>
    requires NonEmpty(batches)
  {
    if batches == [] then None
    else
      var last := batches[|batches| - 1];
      var before := Deliver(batches[..|batches| - 1]);
      if before.None? then Some(Plan(None, last))
      else
        var p := Plan(Some(before.value.row), last);
        Some(Planned(Merge(before.value.row, p.row), before.value.changes + p.changes))
  }

  ghost function AllEvents(batches: seq<seq<Event>>): set<Event> {
    set b, e | b in batches && e in b :: e
  }

  lemma {:induction false} AllEventsStep(batches: seq<seq<Event>>)
    requires batches != []
    ensures AllEvents(batches) == AllEvents(batches[..|batches| - 1]) + EventSet(batches[|batches| - 1])
  {
    var init, last := batches[..|batches| - 1], batches[|batches| - 1];
    assert batches == init + [last];
  }

  lemma {:induction false} DeliverSummarises(batches: seq<seq<Event>>)
    requires batches != [] && NonEmpty(batches)
    ensures Deliver(batches).Some?
    ensures Timestamps(Deliver(batches).value.row, AllEvents(batches))
    ensures Consistent(AllEvents(batches)) ==> Labelled(Deliver(batches).value.row, AllEvents(batches))
  {
    hide Plan, Merge, Timestamps, Labelled, AllEvents, EventSet;
    var init, last := batches[..|batches| - 1], batches[|batches| - 1];
    AllEventsStep(batches);
    if init == [] {
      assert AllEvents(init) + EventSet(last) == EventSet(last) by { NoEvents(init); }
      NewPlanSummarises(last);
    } else {
      DeliverSummarises(init);
      var row := Deliver(init).value.row;
      PlanSummarises(row, AllEvents(init), last);
      UpsertStoresPlan(row, last);
      assert Consistent(AllEvents(batches)) ==> Consistent(AllEvents(init));
    }
  }

  lemma {:induction false} NoEvents(batches: seq<seq<Event>>)
    requires batches == []
    ensures AllEvents(batches) == {}
  {}

  /** The same events, however batched and ordered, end in the same four timestamps, and in
      the same version, OS and arch fields if they are consistent. */
  lemma {:induction false} DeliveryOrderIrrelevant(a: seq<seq<Event>>, b: seq<seq<Event>>)
    requires a != [] && NonEmpty(a)
    requires b != [] && NonEmpty(b)
    requires AllEvents(a) == AllEvents(b)
    ensures Deliver(a).Some? && Deliver(b).Some?
    ensures var p, q := Deliver(a).value.row, Deliver(b).value.row;
            && p.firstSeen == q.firstSeen && p.lastSeen == q.lastSeen
            && p.firstCommandAt == q.firstCommandAt && p.firstSuccessAt == q.firstSuccessAt
            && (Consistent(AllEvents(a)) ==> p.(installMethod := None) == q.(installMethod := None))
  {
    hide Timestamps, Labelled, Deliver, AllEvents;
    DeliverSummarises(a);
    DeliverSummarises(b);
    SummaryUnique(Deliver(a).value.row, Deliver(b).value.row, AllEvents(a));
  }

  // ---- Where the other fields do depend on the order ----

  function Plain(at: int, version: Option<string>, installMethod: string): Event {
    Event(at, version, None, None, false, None, installMethod)
  }

  /** A latest event without a version makes last_version depend on which of two batches came
      first, and an earliest event without one makes first_version. */
  lemma {:induction false} MissingVersionOrderMatters(v: string)
    ensures var early, late := Plain(1, Some(v), ""), Plain(2, None, "");
            && Deliver([[early], [late]]).value.row.lastVersion == Some(v)
            && Deliver([[late], [early]]).value.row.lastVersion == None
    ensures var early, late := Plain(1, None, ""), Plain(2, Some(v), "");
            && Deliver([[early], [late]]).value.row.firstVersion == None
            && Deliver([[late], [early]]).value.row.firstVersion == Some(v)
  {
    TwoSingles(Plain(1, Some(v), ""), Plain(2, None, ""));
    TwoSingles(Plain(2, None, ""), Plain(1, Some(v), ""));
    TwoSingles(Plain(1, None, ""), Plain(2, Some(v), ""));
    TwoSingles(Plain(2, Some(v), ""), Plain(1, None, ""));
  }

  lemma {:induction false} PlanSingle(existing: Option<Install>, e: Event)
    ensures Plan(existing, [e]).row == Fold(if existing.Some? then existing.value else Start(e), e)
  {
    assert [e][1..] == [] && [e][..0] == [];
    assert Sort([e][1..], Earlier) == [];
    assert ByTime([e]) == [e];
    var st := if existing.Some? then existing.value else Start(e);
    assert FoldAll(st, [e][..0]) == st;
  }

  lemma {:induction false} TwoSingles(a: Event, b: Event)
    ensures Deliver([[a], [b]]).Some?
    ensures var first := Fold(Start(a), a);
            Deliver([[a], [b]]).value.row == Merge(first, Fold(first, b))
  {
    hide Plan, Merge, Fold;
    assert [[a], [b]][..1] == [[a]] && [[a]][..0] == [];
    assert Deliver([[a]][..0]).None?;
    assert Deliver([[a]]) == Some(Plan(None, [a]));
    PlanSingle(None, a);
    PlanSingle(Some(Fold(Start(a), a)), b);
  }

  // ---- Version changes over a run ----

  /** Changes are in strict time order, all after `after` and none after `upto`, each one
      between versions that really differ, in the direction semver says. */
  ghost predicate ChangesSound(changes: seq<Change>, after: int, upto: int) {
    && (forall i, j :: 0 <= i < j < |changes| ==> changes[i].at < changes[j].at)
    && (forall i :: 0 <= i < |changes| ==> after < changes[i].at <= upto && ChangeReal(changes[i]))
  }

  ghost predicate ChangeReal(c: Change) {
    var cmp := CompareVersions(c.from, c.to);
    cmp.Some? && cmp.value != 0 && c.upgrade == (cmp.value < 0)
  }

  lemma {:induction false} ChangesOfSound(st: Install, events: seq<Event>)
    ensures st.lastSeen <= FoldAll(st, events).lastSeen
    ensures ChangesSound(ChangesOf(st, events), st.lastSeen, FoldAll(st, events).lastSeen)
  {
    hide CompareVersions;
    if events != [] { ChangesOfSound(st, events[..|events| - 1]); }
  }

  /** A batch over a stored row only records changes after the row's last_seen. */
  lemma {:induction false} PlanChangesSound(st: Install, events: seq<Event>)
    ensures ChangesSound(Plan(Some(st), events).changes, st.lastSeen, Plan(Some(st), events).row.lastSeen)
  {
    ChangesOfSound(st, ByTime(events));
  }

  /** Over any run of batches the recorded changes have strictly increasing times, so no
      insert ever meets the primary key (tenant, install, at). */
  lemma {:induction false} RunChangesSound(batches: seq<seq<Event>>)
    requires batches != [] && NonEmpty(batches)
    ensures Deliver(batches).Some?
    ensures var p := Deliver(batches).value;
            p.row.firstSeen <= p.row.lastSeen && ChangesSound(p.changes, p.row.firstSeen, p.row.lastSeen)
  {
    hide Merge, ChangeReal, FoldAll, ChangesOf, ByTime;
    var init, last := batches[..|batches| - 1], batches[|batches| - 1];
    if init == [] {
      assert Deliver(init).None?;
      ChangesOfSound(StartFrom(None, last), ByTime(last));
      FoldAllExtends(StartFrom(None, last), ByTime(last));
    } else {
      RunChangesSound(init);
      var row := Deliver(init).value.row;
      UpsertStoresPlan(row, last);
      PlanChangesSound(row, last);
      FoldAllExtends(row, ByTime(last));
    }
  }

  predicate SameVersion(a: string, b: string) { CompareVersions(a, b) == Some(0) }

  lemma {:induction false} SameVersionTransitive(a: string, b: string, c: string)
    requires SameVersion(a, b) && SameVersion(b, c)
    ensures SameVersion(a, c) && SameVersion(b, a)
  {
    hide Parse;
    CompareVersionsOrder(a, b, c);
    CompareVersionsOrder(c, b, a);
    CompareVersionsOrder(a, c, b);
  }

  /** Changes lead from start to end: each begins where the one before ended, up to semver
      equality, the first at start and the last at end. */
  ghost predicate Leads(start: Option<string>, changes: seq<Change>, end: Option<string>) {
    && (forall i :: 0 < i < |changes| ==> SameVersion(changes[i - 1].to, changes[i].from))
    && (changes != [] ==>
          && (start.Some? ==> SameVersion(start.value, changes[0].from))
          && end.Some? && SameVersion(changes[|changes| - 1].to, end.value))
    && (changes == [] && start.Some? ==> end.Some? && SameVersion(start.value, end.value))
  }

  ghost predicate Parses(v: Option<string>) { v.Some? ==> Parse(v.value).Some? }

  ghost predicate AllParse(events: seq<Event>) {
    forall i :: 0 <= i < |events| ==> Parses(events[i].version)
  }

  /** e does not tie the row's last_seen with another version. */
  ghost predicate NoTie(st: Install, e: Event) {
    e.at == st.lastSeen && e.version.Some? ==> e.version == st.lastVersion
  }

  lemma {:induction false} FoldLeads(start: Option<string>, changes: seq<Change>, st: Install, e: Event)
    requires Leads(start, changes, st.lastVersion)
    requires Parses(st.lastVersion) && Parses(e.version) && NoTie(st, e)
    ensures Leads(start, changes + ChangeOf(st, e), Fold(st, e).lastVersion)
    ensures Parses(Fold(st, e).lastVersion)
  {
    hide CompareVersions, Parse;
    var v, w := st.lastVersion, e.version;
    if w.Some? && v.Some? {
      CompareVersionsOrder(v.value, w.value, v.value);
      CompareVersionsOrder(w.value, w.value, w.value);
      if ChangeOf(st, e) == [] && SameVersion(v.value, w.value) {
        if changes != [] { SameVersionTransitive(changes[|changes| - 1].to, v.value, w.value); }
        else if start.Some? { SameVersionTransitive(start.value, v.value, w.value); }
      }
    }
    if w.Some? { CompareVersionsOrder(w.value, w.value, w.value); }
  }

  /** Ascending events none of which ties its row's last_seen with another version. */
  ghost predicate NoTies(st: Install, events: seq<Event>) {
    forall i :: 0 <= i < |events| ==> NoTie(FoldAll(st, events[..i]), events[i])
  }

  lemma {:induction false} ChangesOfLead(st: Install, events: seq<Event>)
    requires Parses(st.lastVersion) && AllParse(events) && NoTies(st, events)
    ensures Leads(st.lastVersion, ChangesOf(st, events), FoldAll(st, events).lastVersion)
    ensures Parses(FoldAll(st, events).lastVersion)
  {
    hide CompareVersions, Parse, Fold, ChangeOf;
    if events == [] {
      if st.lastVersion.Some? { CompareVersionsOrder(st.lastVersion.value, st.lastVersion.value, st.lastVersion.value); }
    } else {
      var init, last := events[..|events| - 1], events[|events| - 1];
      forall i | 0 <= i < |init| ensures NoTie(FoldAll(st, init[..i]), init[i]) {
        assert init[..i] == events[..i];
      }
      ChangesOfLead(st, init);
      FoldLeads(st.lastVersion, ChangesOf(st, init), FoldAll(st, init), last);
    }
  }

  ghost predicate DistinctTimes(events: seq<Event>) {
    forall i, j :: 0 <= i < j < |events| ==> events[i].at != events[j].at
  }

  /** Distinct times, none of them the stored last_seen: nothing ties. */
  lemma {:induction false} DistinctNoTies(st: Install, events: seq<Event>, k: nat)
    requires SortedBy(events, Earlier) && DistinctTimes(events) && k <= |events|
    requires forall i :: 0 <= i < |events| ==> events[i].at != st.lastSeen || (i == 0 && events[0].version == st.lastVersion)
    ensures FoldAll(st, events[..k]).lastSeen == st.lastSeen || (k > 0 && FoldAll(st, events[..k]).lastSeen == events[k - 1].at)
    ensures forall i :: 0 <= i < k ==> NoTie(FoldAll(st, events[..i]), events[i])
  {
    hide SortedBy, DistinctTimes;
    if k > 0 {
      DistinctNoTies(st, events, k - 1);
      assert events[..k][..k - 1] == events[..k - 1];
      if k > 1 { AdjacentTimes(events, k - 1); }
      assert events[..0] == [];
    }
  }

  lemma {:induction false} AdjacentTimes(events: seq<Event>, k: nat)
    requires SortedBy(events, Earlier) && DistinctTimes(events) && 0 < k < |events|
    ensures events[k - 1].at < events[k].at
  {
    assert !Earlier(events[k], events[k - 1]);
  }

  lemma {:induction false} ByTimeDistinct(events: seq<Event>)
    requires DistinctTimes(events)
    ensures DistinctTimes(ByTime(events))
  {
    SortStable(events, Earlier, (a: Event, b: Event) => a.at != b.at);
    var s := ByTime(events);
    forall i, j | 0 <= i < j < |s| ensures s[i].at != s[j].at {
      assert StableBefore(Earlier, (a: Event, b: Event) => a.at != b.at, s[i], s[j]);
    }
  }

  lemma {:induction false} ByTimeParses(events: seq<Event>)
    requires AllParse(events)
    ensures AllParse(ByTime(events))
  {
    hide Parse, ByTime;
    ByTimeElements(events);
    var s := ByTime(events);
    forall i | 0 <= i < |s| ensures Parses(s[i].version) {
      assert s[i] in EventSet(s);
      var j :| 0 <= j < |events| && events[j] == s[i];
    }
  }

  /** One batch's changes lead from the stored last_version to the new one. */
  lemma {:induction false} PlanChangesLead(existing: Option<Install>, events: seq<Event>)
    requires existing.Some? || events != []
    requires AllParse(events) && DistinctTimes(events)
    requires existing.Some? ==> Parses(existing.value.lastVersion) && forall e :: e in events ==> e.at != existing.value.lastSeen
    ensures var p := Plan(existing, events);
            Parses(p.row.lastVersion) && Leads(StartFrom(existing, events).lastVersion, p.changes, p.row.lastVersion)
  {
    hide Parse, Fold, ByTime, SameVersion, ChangeOf;
    var st, s := StartFrom(existing, events), ByTime(events);
    ByTimeElements(events);
    ByTimeDistinct(events);
    ByTimeParses(events);
    forall i | 0 <= i < |s| ensures s[i].at != st.lastSeen || (i == 0 && s[0].version == st.lastVersion) {
      assert s[i] in EventSet(s);
      if existing.None? && i > 0 { assert s[0].at != s[i].at; }
    }
    DistinctNoTies(st, s, |s|);
    ChangesOfLead(st, s);
  }

  /** Every batch's times are distinct, and none is the last_seen stored before it. */
  ghost predicate CleanRun(batches: seq<seq<Event>>)
    requires NonEmpty(batches)
  {
    batches == [] ||
    var init, last := batches[..|batches| - 1], batches[|batches| - 1];
    && CleanRun(init)
    && AllParse(last) && DistinctTimes(last)
    && (Deliver(init).Some? ==> forall e :: e in last ==> e.at != Deliver(init).value.row.lastSeen)
  }

  /** Over a whole run the changes form one line: each starts semver-equal to where the one
      before ended, and the last ends semver-equal to last_version. */
  lemma {:induction false} RunChangesLead(batches: seq<seq<Event>>)
    requires batches != [] && NonEmpty(batches)
    requires CleanRun(batches)
    ensures Deliver(batches).Some?
    ensures var p := Deliver(batches).value;
            Parses(p.row.lastVersion) && Leads(None, p.changes, p.row.lastVersion)
  {
    hide Plan, Merge, SameVersion, Parse, AllParse, DistinctTimes;
    var init, last := batches[..|batches| - 1], batches[|batches| - 1];
    if init == [] {
      assert Deliver(init).None?;
      PlanChangesLead(None, last);
      assert Leads(None, Plan(None, last).changes, Plan(None, last).row.lastVersion);
    } else {
      RunChangesLead(init);
      var row := Deliver(init).value.row;
      UpsertStoresPlan(row, last);
      PlanChangesLead(Some(row), last);
      LeadsOn(None, Deliver(init).value.changes, row.lastVersion, Plan(Some(row), last).changes, Plan(Some(row), last).row.lastVersion);
    }
  }

  lemma {:induction false} LeadsOn(start: Option<string>, first: seq<Change>, mid: Option<string>, second: seq<Change>, end: Option<string>)
    requires Leads(start, first, mid) && Leads(mid, second, end)
    ensures Leads(start, first + second, end)
  {
    hide CompareVersions;
    if first != [] {
      if second != [] { SameVersionTransitive(first[|first| - 1].to, mid.value, second[0].from); }
      else { SameVersionTransitive(first[|first| - 1].to, mid.value, end.value); }
    } else if start.Some? {
      if second != [] { SameVersionTransitive(start.value, mid.value, second[0].from); }
      else { SameVersionTransitive(start.value, mid.value, end.value); }
    }
  }

  // ---- Replays ----

  /** The last value f takes among events at or after `from`. */
  ghost function LastSome(events: seq<Event>, f: Event -> Option<string>, from: int, default: Option<string>): Option<string> {
    if events == [] then default
    else
      var last := events[|events| - 1];
      if last.at >= from && f(last).Some? then f(last) else LastSome(events[..|events| - 1], f, from, default)
  }

  ghost function LastMethod(events: seq<Event>, default: Option<string>): Option<string> {
    if events == [] then default
    else if events[|events| - 1].installMethod != "" then Some(events[|events| - 1].installMethod)
    else LastMethod(events[..|events| - 1], default)
  }

  ghost function VersionOf(): Event -> Option<string> { (e: Event) => e.version }
  ghost function OSOf(): Event -> Option<string> { (e: Event) => e.os }
  ghost function ArchOf(): Event -> Option<string> { (e: Event) => e.arch }

  lemma {:induction false} SortedInit(events: seq<Event>)
    requires SortedBy(events, Earlier) && events != []
    ensures SortedBy(events[..|events| - 1], Earlier)
  {
    var init := events[..|events| - 1];
    forall i, j | 0 <= i < j < |init| ensures !Earlier(init[j], init[i]) {
      assert !Earlier(events[j], events[i]);
    }
  }

  /** What folding ascending events leaves in the last_* fields and install_method. */
  lemma {:induction false} FoldAllLast(st: Install, events: seq<Event>)
    requires SortedBy(events, Earlier)
    ensures var r := FoldAll(st, events);
            && r.lastVersion == LastSome(events, VersionOf(), st.lastSeen, st.lastVersion)
            && r.lastOS == LastSome(events, OSOf(), st.lastSeen, st.lastOS)
            && r.lastArch == LastSome(events, ArchOf(), st.lastSeen, st.lastArch)
            && r.installMethod == LastMethod(events, st.installMethod)
            && r.lastSeen >= st.lastSeen
            && (r.lastSeen == st.lastSeen || (events != [] && r.lastSeen == events[|events| - 1].at))
  {
    if events != [] {
      var init, last := events[..|events| - 1], events[|events| - 1];
      SortedInit(events);
      FoldAllLast(st, init);
      if init != [] { assert !Earlier(last, init[|init| - 1]); }
    }
  }

  lemma {:induction false} LastSomeNone(events: seq<Event>, f: Event -> Option<string>, from: int, default: Option<string>)
    requires forall e :: e in events ==> e.at < from
    ensures LastSome(events, f, from, default) == default
  {
    if events != [] {
      assert events[|events| - 1] in events;
      LastSomeNone(events[..|events| - 1], f, from, default);
    }
  }

  lemma {:induction false} LastSomeTwice(events: seq<Event>, f: Event -> Option<string>, from: int, late: int, default: Option<string>)
    requires SortedBy(events, Earlier) && from <= late
    ensures var once := LastSome(events, f, from, default);
            LastSome(events, f, late, once) == once
  {
    if events != [] {
      var init, last := events[..|events| - 1], events[|events| - 1];
      SortedInit(events);
      LastSomeTwice(init, f, from, late, default);
      if last.at < late {
        forall e | e in init ensures e.at < late {
          var i :| 0 <= i < |init| && init[i] == e;
          assert !Earlier(events[|events| - 1], events[i]);
        }
        LastSomeNone(init, f, late, LastSome(events, f, from, default));
      }
    }
  }

  lemma {:induction false} LastMethodTwice(events: seq<Event>, default: Option<string>)
    ensures LastMethod(events, LastMethod(events, default)) == LastMethod(events, default)
  {
    if events != [] { LastMethodTwice(events[..|events| - 1], default); }
  }

  /** Nothing in events is outside what the row already spans. */
  ghost predicate Covers(st: Install, events: seq<Event>) {
    forall e :: e in events ==>
      && st.firstSeen <= e.at <= st.lastSeen
      && (e.completed ==> st.firstCommandAt.Some? && st.firstCommandAt.value <= e.at)
      && (Succeeded(e) ==> st.firstSuccessAt.Some? && st.firstSuccessAt.value <= e.at)
  }

  lemma {:induction false} FoldAllCovered(st: Install, events: seq<Event>)
    requires Covers(st, events)
    ensures var r := FoldAll(st, events);
            && r.firstSeen == st.firstSeen && r.lastSeen == st.lastSeen && r.firstVersion == st.firstVersion
            && r.firstCommandAt == st.firstCommandAt && r.firstSuccessAt == st.firstSuccessAt
    ensures ChangesOf(st, events) == []
  {
    if events != [] {
      var init, last := events[..|events| - 1], events[|events| - 1];
      assert last in events && forall e :: e in init ==> e in events;
      FoldAllCovered(st, init);
    }
  }

  lemma {:induction false} SummaryCovers(st: Install, seen: set<Event>, events: seq<Event>)
    requires Timestamps(st, seen) && EventSet(events) <= seen
    ensures Covers(st, events)
  {
    forall e | e in events
      ensures st.firstSeen <= e.at <= st.lastSeen
      ensures e.completed ==> st.firstCommandAt.Some? && st.firstCommandAt.value <= e.at
      ensures Succeeded(e) ==> st.firstSuccessAt.Some? && st.firstSuccessAt.value <= e.at
    {
      assert e in EventSet(events) && e.at in Times(seen);
      assert e.completed ==> e.at in CommandTimes(seen);
      assert Succeeded(e) ==> e.at in SuccessTimes(seen);
    }
  }

  /** A later replay of events the row already summarises moves none of the four timestamps,
      nor first_version, and records no change; where the events are consistent nothing but
      install_method can differ. */
  lemma {:induction false} LateReplay(st: Install, seen: set<Event>, events: seq<Event>)
    requires Timestamps(st, seen) && EventSet(events) <= seen
    ensures var p := Plan(Some(st), events);
            && p.row.firstSeen == st.firstSeen && p.row.lastSeen == st.lastSeen && p.row.firstVersion == st.firstVersion
            && p.row.firstCommandAt == st.firstCommandAt && p.row.firstSuccessAt == st.firstSuccessAt
            && p.changes == []
            && (Consistent(seen) && Labelled(st, seen) ==> p.row.(installMethod := None) == st.(installMethod := None))
  {
    hide Timestamps, Labelled, ByTime;
    ByTimeElements(events);
    SummaryCovers(st, seen, ByTime(events));
    FoldAllCovered(st, ByTime(events));
    PlanSummarises(st, seen, events);
    assert seen + EventSet(events) == seen;
    SummaryUnique(Plan(Some(st), events).row, st, seen);
  }

  lemma {:induction false} PlanCovers(existing: Option<Install>, events: seq<Event>)
    requires existing.Some? || events != []
    ensures Covers(Plan(existing, events).row, ByTime(events))
  {
    FoldAllCovers(StartFrom(existing, events), ByTime(events));
  }

  lemma {:induction false} FoldAllCovers(st: Install, events: seq<Event>)
    ensures Covers(FoldAll(st, events), events)
  {
    if events != [] {
      var init, last := events[..|events| - 1], events[|events| - 1];
      FoldAllCovers(st, init);
      assert forall e :: e in events ==> e in init || e == last;
    }
  }

  /** Applying a batch twice in a row gives the same row and no further change. */
  lemma {:induction false} ReplayChangesNothing(existing: Option<Install>, events: seq<Event>)
    requires existing.Some? || events != []
    ensures var p := Plan(existing, events).row;
            Plan(Some(p), events) == Planned(p, [])
  {
    hide ByTime, FoldAll, ChangesOf, LastSome, LastMethod, Start;
    var st, s := StartFrom(existing, events), ByTime(events);
    var p := FoldAll(st, s);
    ByTimeElements(events);
    FoldAllLast(st, s);
    FoldAllLast(p, s);
    PlanCovers(existing, events);
    FoldAllCovered(p, s);
    LastSomeTwice(s, VersionOf(), st.lastSeen, p.lastSeen, st.lastVersion);
    LastSomeTwice(s, OSOf(), st.lastSeen, p.lastSeen, st.lastOS);
    LastSomeTwice(s, ArchOf(), st.lastSeen, p.lastSeen, st.lastArch);
    LastMethodTwice(s, st.installMethod);
  }
}
