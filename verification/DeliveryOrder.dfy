/** Exactly which fields of an install's row depend on how its events are batched and in
    what order the batches are delivered (internal/storage/installs.go). */
module DeliveryOrder {
  import opened Prelude
  import opened Sorting
  import opened Installs
  import opened InstallRuns

  /** Some way to deliver the events of s; events may be sent again. */
  ghost predicate Delivers(batches: seq<seq<Event>>, s: set<Event>) {
    batches != [] && NonEmpty(batches) && AllEvents(batches) == s
  }

  function Size(batches: seq<seq<Event>>): nat {
    if batches == [] then 0 else Size(batches[..|batches| - 1]) + |batches[|batches| - 1]|
  }

  /** A delivery that sends each of them once. */
  ghost predicate Splits(batches: seq<seq<Event>>, s: set<Event>) {
    Delivers(batches, s) && Size(batches) == |s|
  }

  ghost function RowOf(batches: seq<seq<Event>>): Install
    requires batches != [] && NonEmpty(batches)
  {
    DeliverSummarises(batches);
    Deliver(batches).value.row
  }

  // ---- A run is one fold over its sorted batches ----

  ghost function Folded(batches: seq<seq<Event>>): seq<Event> {
    if batches == [] then [] else Folded(batches[..|batches| - 1]) + ByTime(batches[|batches| - 1])
  }

  lemma {:induction false} FoldAllAppend(st: Install, a: seq<Event>, b: seq<Event>)
    ensures FoldAll(st, a + b) == FoldAll(FoldAll(st, a), b)
  {
    hide Fold;
    if b == [] {
      assert a + b == a;
    } else {
      assert (a + b)[..|a + b| - 1] == a + b[..|b| - 1];
      FoldAllAppend(st, a, b[..|b| - 1]);
    }
  }

  lemma {:induction false} FoldedEvents(batches: seq<seq<Event>>)
    ensures forall e :: e in Folded(batches) <==> e in AllEvents(batches)
  {
    hide Sort;
    if batches != [] {
      FoldedEvents(batches[..|batches| - 1]);
      AllEventsStep(batches);
      SortElements(batches[|batches| - 1], Earlier);
    }
  }

  lemma {:induction false} RunIsFold(batches: seq<seq<Event>>)
    requires batches != [] && NonEmpty(batches)
    ensures Folded(batches) != []
    ensures RowOf(batches) == FoldAll(Start(Folded(batches)[0]), Folded(batches))
  {
    hide Fold, Merge, Sort;
    DeliverSummarises(batches);
    var init, last := batches[..|batches| - 1], batches[|batches| - 1];
    SortElements(last, Earlier);
    if init == [] {
      assert Folded(batches) == ByTime(last);
    } else {
      RunIsFold(init);
      UpsertStoresPlan(RowOf(init), last);
      FoldAllAppend(Start(Folded(init)[0]), Folded(init), ByTime(last));
    }
  }

  // ---- Deliveries that show a dependence ----

  ghost function SeqOf(s: set<Event>): (r: seq<Event>)
    ensures |r| == |s| && forall e :: e in r <==> e in s
  {
    if s == {} then []
    else
      var e :| e in s;
      [e] + SeqOf(s - {e})
  }

  lemma {:induction false} SeqOfEvents(s: set<Event>)
    ensures EventSet(SeqOf(s)) == s
  {
    hide SeqOf;
  }

  lemma {:induction false} SoleBatch(a: seq<Event>)
    ensures Size([a]) == |a| && Folded([a]) == ByTime(a) && AllEvents([a]) == EventSet(a)
  {
    hide Sort;
    assert [a][..0] == [];
    AllEventsStep([a]);
    NoEvents([a][..0]);
    assert Size([a]) == Size([a][..0]) + |a|;
    assert Folded([a]) == Folded([a][..0]) + ByTime(a);
  }

  lemma {:induction false} TwoBatches(a: seq<Event>, b: seq<Event>, s: set<Event>)
    requires a != [] && b != [] && |a| + |b| == |s| && EventSet(a) + EventSet(b) == s
    ensures Splits([a, b], s) && Folded([a, b]) == ByTime(a) + ByTime(b)
  {
    hide Sort, EventSet, AllEvents;
    var batches := [a, b];
    assert batches[..1] == [a];
    SoleBatch(a);
    AllEventsStep(batches);
    assert Size(batches) == Size(batches[..1]) + |b|;
    assert Folded(batches) == Folded(batches[..1]) + ByTime(b);
  }

  lemma {:induction false} SingleSorted(e: Event)
    ensures ByTime([e]) == [e]
  {
    assert [e][1..] == [];
    assert Sort([e][1..], Earlier) == [];
  }

  /** e last, after all the others. */
  lemma {:induction false} Ending(s: set<Event>, e: Event) returns (batches: seq<seq<Event>>, before: Install)
    requires e in s && s != {e}
    ensures Splits(batches, s) && RowOf(batches) == Fold(before, e)
    ensures IsLast(s, e) ==> before.lastSeen <= e.at
  {
    hide Fold, Sort, Splits, SeqOf, Folded;
    var others := s - {e};
    assert s == others + {e} && {} + {e} == {e};
    var a := SeqOf(others);
    batches := [a, [e]];
    SeqOfEvents(others);
    assert EventSet([e]) == {e};
    TwoBatches(a, [e], s);
    SingleSorted(e);
    RunIsFold(batches);
    SortElements(a, Earlier);
    var folded := ByTime(a) + [e];
    before := FoldAll(Start(folded[0]), ByTime(a));
    assert folded[..|folded| - 1] == ByTime(a);
    if IsLast(s, e) { LastSeenWithin(Start(folded[0]), ByTime(a), e.at); }
  }

  lemma {:induction false} LastSeenWithin(st: Install, events: seq<Event>, t: int)
    requires st.lastSeen <= t && forall e :: e in events ==> e.at <= t
    ensures FoldAll(st, events).lastSeen <= t
  {
    if events != [] {
      assert events[|events| - 1] in events;
      LastSeenWithin(st, events[..|events| - 1], t);
    }
  }

  /** e first, before all the others. */
  lemma {:induction false} Starting(s: set<Event>, e: Event) returns (batches: seq<seq<Event>>, rest: seq<Event>)
    requires e in s && s != {e}
    ensures Splits(batches, s) && RowOf(batches) == FoldAll(Fold(Start(e), e), rest)
    ensures forall d :: d in rest <==> d in s && d != e
  {
    hide Fold, Sort;
    var others := s - {e};
    assert s == others + {e} && {} + {e} == {e};
    var b := SeqOf(others);
    batches := [[e], b];
    SeqOfEvents(others);
    assert EventSet([e]) == {e};
    TwoBatches([e], b, s);
    SingleSorted(e);
    RunIsFold(batches);
    SortElements(b, Earlier);
    rest := ByTime(b);
    FoldAllAppend(Start(e), [e], rest);
    assert [e][..0] == [] && FoldAll(Start(e), []) == Start(e);
  }

  // ---- last_version, last_os and last_arch ----

  datatype Field = Version | OS | Arch

  function Carried(e: Event, f: Field): Option<string> {
    match f case Version => e.version case OS => e.os case Arch => e.arch
  }

  function LastOf(st: Install, f: Field): Option<string> {
    match f case Version => st.lastVersion case OS => st.lastOS case Arch => st.lastArch
  }

  predicate IsLast(s: set<Event>, e: Event) { e in s && forall d :: d in s ==> d.at <= e.at }

  /** Some event of the latest time carries the field, and all that do agree; or none at all
      carries it. */
  ghost predicate SettlesLast(s: set<Event>, f: Field) {
    || (forall e :: e in s ==> Carried(e, f).None?)
    || exists e :: LastCarrier(s, f, e) && forall d :: LastCarrier(s, f, d) ==> Carried(d, f) == Carried(e, f)
  }

  ghost predicate LastCarrier(s: set<Event>, f: Field, e: Event) { IsLast(s, e) && Carried(e, f).Some? }

  lemma {:induction false} FoldLast(st: Install, events: seq<Event>, s: set<Event>, f: Field, e: Event)
    requires st.lastSeen <= e.at && LastCarrier(s, f, e) && forall d :: LastCarrier(s, f, d) ==> Carried(d, f) == Carried(e, f)
    requires forall d :: d in events ==> d in s
    ensures FoldAll(st, events).lastSeen <= e.at
    ensures e in events ==> FoldAll(st, events).lastSeen == e.at && LastOf(FoldAll(st, events), f) == Carried(e, f)
  {
    if events != [] {
      var init, last := events[..|events| - 1], events[|events| - 1];
      assert last in events && events == init + [last];
      FoldLast(st, init, s, f, e);
      assert last.at == e.at && Carried(last, f).Some? ==> LastCarrier(s, f, last);
    }
  }

  lemma {:induction false} FoldNone(st: Install, events: seq<Event>, f: Field)
    requires LastOf(st, f).None? && forall d :: d in events ==> d.at < st.lastSeen || Carried(d, f).None?
    ensures LastOf(FoldAll(st, events), f).None? && FoldAll(st, events).lastSeen >= st.lastSeen
  {
    if events != [] {
      assert events[|events| - 1] in events;
      FoldNone(st, events[..|events| - 1], f);
    }
  }

  /** Settled, the field ends as the latest carrier's value, however the events arrive. */
  lemma {:induction false} SettledLast(batches: seq<seq<Event>>, s: set<Event>, f: Field)
    requires Delivers(batches, s)
    ensures (forall e :: e in s ==> Carried(e, f).None?) ==> LastOf(RowOf(batches), f).None?
    ensures forall e :: LastCarrier(s, f, e) && (forall d :: LastCarrier(s, f, d) ==> Carried(d, f) == Carried(e, f)) ==>
              LastOf(RowOf(batches), f) == Carried(e, f)
  {
    hide Fold, RowOf, LastCarrier;
    RunIsFold(batches);
    FoldedEvents(batches);
    var events := Folded(batches);
    assert events[0] in events;
    if forall e :: e in s ==> Carried(e, f).None? { FoldNone(Start(events[0]), events, f); }
    forall e | LastCarrier(s, f, e) && forall d :: LastCarrier(s, f, d) ==> Carried(d, f) == Carried(e, f)
      ensures LastOf(RowOf(batches), f) == Carried(e, f)
    {
      CarrierIsLast(s, f, e);
      FoldLast(Start(events[0]), events, s, f, e);
    }
  }

  lemma {:induction false} CarrierIsLast(s: set<Event>, f: Field, e: Event)
    requires LastCarrier(s, f, e)
    ensures e in s && Carried(e, f).Some? && forall d :: d in s ==> d.at <= e.at
  {}

  lemma {:induction false} LastExists(s: set<Event>) returns (e: Event)
    requires s != {}
    ensures IsLast(s, e)
  {
    e :| e in s;
    if s != {e} {
      var d := LastExists(s - {e});
      if d.at > e.at { e := d; }
    }
  }

  lemma {:induction false} SortedLastSeen(st: Install, events: seq<Event>)
    requires SortedBy(events, Earlier) && events != [] && st.lastSeen <= events[0].at
    ensures FoldAll(st, events).lastSeen == events[|events| - 1].at
  {
    var init := events[..|events| - 1];
    if init != [] {
      SortedInit(events);
      SortedLastSeen(st, init);
      assert !Earlier(events[|events| - 1], events[|events| - 2]);
    }
  }

  lemma {:induction false} SeenBefore(st: Install, events: seq<Event>)
    requires SortedBy(events, Earlier) && events != [] && st.lastSeen <= events[0].at
    ensures FoldAll(st, events[..|events| - 1]).lastSeen <= events[|events| - 1].at
  {
    var init := events[..|events| - 1];
    if init != [] {
      SortedInit(events);
      SortedLastSeen(st, init);
      assert !Earlier(events[|events| - 1], events[|events| - 2]);
    }
  }

  lemma {:induction false} FoldCarried(st: Install, e: Event, f: Field)
    requires st.lastSeen <= e.at
    ensures LastOf(Fold(st, e), f) == Coalesce(Carried(e, f), LastOf(st, f))
  {}

  lemma {:induction false} SortedCarries(st: Install, events: seq<Event>, f: Field, c: Event)
    requires SortedBy(events, Earlier) && c in events && Carried(c, f).Some? && st.lastSeen <= events[0].at
    ensures LastOf(FoldAll(st, events), f).Some?
  {
    hide SortedBy, Fold, LastOf, Carried;
    var init, last := events[..|events| - 1], events[|events| - 1];
    assert events == init + [last];
    SeenBefore(st, events);
    FoldCarried(FoldAll(st, init), last, f);
    if c in init {
      SortedInit(events);
      SortedCarries(st, init, f, c);
    }
  }

  lemma {:induction false} OneBatch(s: set<Event>) returns (batches: seq<seq<Event>>)
    requires s != {}
    ensures Splits(batches, s) && Folded(batches) == ByTime(batches[0]) && SortedBy(Folded(batches), Earlier)
    ensures forall e :: e in Folded(batches) <==> e in s
  {
    hide Sort, SortedBy;
    var a := SeqOf(s);
    batches := [a];
    SoleBatch(a);
    SortSorted(a, Earlier);
    assert EventSet(a) == s;
    FoldedEvents(batches);
  }

  /** No event of the latest time carries the field, but some event does: sent all at once the
      field is known, sent after one of the latest it is not. */
  lemma {:induction false} MissedLast(s: set<Event>, f: Field, c: Event) returns (a: seq<seq<Event>>, b: seq<seq<Event>>)
    requires c in s && Carried(c, f).Some? && forall e :: !LastCarrier(s, f, e)
    ensures Splits(a, s) && Splits(b, s) && LastOf(RowOf(a), f).Some? && LastOf(RowOf(b), f).None?
  {
    hide Sort, RowOf, SortedBy;
    var t := LastExists(s);
    assert !LastCarrier(s, f, t) && c != t;
    a := OneBatch(s);
    RunIsFold(a);
    SortedCarries(Start(Folded(a)[0]), Folded(a), f, c);
    var rest;
    b, rest := Starting(s, t);
    forall d | d in rest ensures d.at < t.at || Carried(d, f).None? {
      assert d.at == t.at ==> IsLast(s, d);
      assert !LastCarrier(s, f, d);
    }
    FoldNone(Fold(Start(t), t), rest, f);
  }

  lemma {:induction false} EndingWith(s: set<Event>, f: Field, e: Event, d: Event) returns (batches: seq<seq<Event>>)
    requires LastCarrier(s, f, e) && d in s && d != e
    ensures Splits(batches, s) && LastOf(RowOf(batches), f) == Carried(e, f)
  {
    hide RowOf;
    var before;
    batches, before := Ending(s, e);
  }

  /** Not settled, two ways to send each event once end differently. */
  lemma {:induction false} UnsettledLast(s: set<Event>, f: Field) returns (a: seq<seq<Event>>, b: seq<seq<Event>>)
    requires !SettlesLast(s, f)
    ensures Splits(a, s) && Splits(b, s) && LastOf(RowOf(a), f) != LastOf(RowOf(b), f)
  {
    hide RowOf, Splits, LastCarrier;
    if exists e :: LastCarrier(s, f, e) {
      var e :| LastCarrier(s, f, e);
      var d :| LastCarrier(s, f, d) && Carried(d, f) != Carried(e, f);
      CarrierIsLast(s, f, e);
      CarrierIsLast(s, f, d);
      a := EndingWith(s, f, e, d);
      b := EndingWith(s, f, d, e);
    } else {
      var c :| c in s && Carried(c, f).Some?;
      a, b := MissedLast(s, f, c);
    }
  }

  /** last_version, last_os and last_arch end the same for all deliveries of an event set
      exactly when no event carries the field, or some event of the latest time does and all
      that do agree. */
  lemma {:induction false} LastFieldExactly(s: set<Event>, f: Field)
    ensures SettlesLast(s, f) ==> forall a, b :: Delivers(a, s) && Delivers(b, s) ==> LastOf(RowOf(a), f) == LastOf(RowOf(b), f)
    ensures !SettlesLast(s, f) ==> exists a, b :: Splits(a, s) && Splits(b, s) && LastOf(RowOf(a), f) != LastOf(RowOf(b), f)
  {
    hide RowOf, LastCarrier;
    if SettlesLast(s, f) {
      forall a, b | Delivers(a, s) && Delivers(b, s) ensures LastOf(RowOf(a), f) == LastOf(RowOf(b), f) {
        SettledLast(a, s, f);
        SettledLast(b, s, f);
      }
    } else {
      var a, b := UnsettledLast(s, f);
    }
  }

  // ---- first_version ----

  predicate IsFirst(s: set<Event>, e: Event) { e in s && forall d :: d in s ==> e.at <= d.at }

  /** Every event of the earliest time carries a version and they agree; or none at all does. */
  ghost predicate SettlesFirst(s: set<Event>) {
    || (forall e :: e in s ==> e.version.None?)
    || (forall e, d :: IsFirst(s, e) && IsFirst(s, d) ==> e.version.Some? && e.version == d.version)
  }

  lemma {:induction false} FoldFirst(st: Install, events: seq<Event>, t: int, v: Option<string>)
    requires v.Some? && forall e :: e in events ==> e.at >= t && (e.at == t ==> e.version == v)
    requires st.firstSeen >= t && (st.firstSeen == t ==> st.firstVersion == v)
    ensures FoldAll(st, events).firstSeen >= t && (FoldAll(st, events).firstSeen == t ==> FoldAll(st, events).firstVersion == v)
  {
    if events != [] {
      assert events[|events| - 1] in events;
      FoldFirst(st, events[..|events| - 1], t, v);
    }
  }

  lemma {:induction false} FoldNoVersion(st: Install, events: seq<Event>)
    requires st.firstVersion.None? && forall e :: e in events ==> e.at >= st.firstSeen || e.version.None?
    ensures FoldAll(st, events).firstVersion.None? && FoldAll(st, events).firstSeen <= st.firstSeen
  {
    if events != [] {
      assert events[|events| - 1] in events;
      FoldNoVersion(st, events[..|events| - 1]);
    }
  }

  /** Nothing earlier comes, nothing changes. */
  lemma {:induction false} FoldLater(st: Install, events: seq<Event>)
    requires forall e :: e in events ==> e.at >= st.firstSeen
    ensures FoldAll(st, events).firstVersion == st.firstVersion && FoldAll(st, events).firstSeen == st.firstSeen
  {
    if events != [] {
      assert events[|events| - 1] in events;
      FoldLater(st, events[..|events| - 1]);
    }
  }

  /** A version once known is never forgotten. */
  lemma {:induction false} FoldKnown(st: Install, events: seq<Event>)
    requires st.firstVersion.Some?
    ensures FoldAll(st, events).firstVersion.Some?
  {
    if events != [] { FoldKnown(st, events[..|events| - 1]); }
  }

  lemma {:induction false} FirstExists(s: set<Event>) returns (e: Event)
    requires s != {}
    ensures IsFirst(s, e)
  {
    e :| e in s;
    if s != {e} {
      var d := FirstExists(s - {e});
      if d.at < e.at { e := d; }
    }
  }

  lemma {:induction false} SettledFirst(batches: seq<seq<Event>>, s: set<Event>, e: Event)
    requires Delivers(batches, s) && IsFirst(s, e)
    ensures (forall d :: d in s ==> d.version.None?) ==> RowOf(batches).firstVersion.None?
    ensures e.version.Some? && (forall d :: IsFirst(s, d) ==> d.version == e.version) ==> RowOf(batches).firstVersion == e.version
  {
    hide Fold;
    RunIsFold(batches);
    FoldedEvents(batches);
    DeliverSummarises(batches);
    var events := Folded(batches);
    assert events[0] in events;
    if forall d :: d in s ==> d.version.None? { FoldNoVersion(Start(events[0]), events); }
    if e.version.Some? && forall d :: IsFirst(s, d) ==> d.version == e.version {
      assert e.at in Times(s) && RowOf(batches).firstSeen <= e.at;
      forall d | d in events ensures d.at >= e.at && (d.at == e.at ==> d.version == e.version) {
        assert d.at == e.at ==> IsFirst(s, d);
      }
      FoldFirst(Start(events[0]), events, e.at, e.version);
    }
  }

  lemma {:induction false} UnsettledFirst(s: set<Event>) returns (a: seq<seq<Event>>, b: seq<seq<Event>>)
    requires !SettlesFirst(s)
    ensures Splits(a, s) && Splits(b, s) && RowOf(a).firstVersion != RowOf(b).firstVersion
  {
    hide RowOf;
    var e, d :| IsFirst(s, e) && IsFirst(s, d) && !(e.version.Some? && e.version == d.version);
    var rest, more;
    if e.version != d.version {
      a, rest := Starting(s, e);
      b, more := Starting(s, d);
      FoldLater(Fold(Start(e), e), rest);
      FoldLater(Fold(Start(d), d), more);
    } else {
      var c :| c in s && c.version.Some?;
      a, rest := Starting(s, e);
      b, more := Starting(s, c);
      FoldLater(Fold(Start(e), e), rest);
      FoldKnown(Fold(Start(c), c), more);
    }
  }

  /** first_version ends the same for all deliveries exactly when no event carries a version,
      or every event of the earliest time does and they agree. */
  lemma {:induction false} FirstVersionExactly(s: set<Event>)
    ensures SettlesFirst(s) ==> forall a, b :: Delivers(a, s) && Delivers(b, s) ==> RowOf(a).firstVersion == RowOf(b).firstVersion
    ensures !SettlesFirst(s) ==> exists a, b :: Splits(a, s) && Splits(b, s) && RowOf(a).firstVersion != RowOf(b).firstVersion
  {
    hide RowOf;
    if SettlesFirst(s) {
      forall a, b | Delivers(a, s) && Delivers(b, s) ensures RowOf(a).firstVersion == RowOf(b).firstVersion {
        DeliveredSome(a, s);
        var e := FirstExists(s);
        SettledFirst(a, s, e);
        SettledFirst(b, s, e);
      }
    } else {
      var a, b := UnsettledFirst(s);
    }
  }

  lemma {:induction false} DeliveredSome(batches: seq<seq<Event>>, s: set<Event>)
    requires Delivers(batches, s)
    ensures s != {}
  {
    hide RowOf, Fold;
    RunIsFold(batches);
    FoldedEvents(batches);
    assert Folded(batches)[0] in s;
  }

  // ---- install_method ----

  predicate HasMethod(events: seq<Event>) { exists i :: 0 <= i < |events| && events[i].installMethod != "" }

  lemma {:induction false} LastMethodAppend(a: seq<Event>, b: seq<Event>, default: Option<string>)
    ensures LastMethod(a + b, default) == LastMethod(b, LastMethod(a, default))
  {
    if b == [] {
      assert a + b == a;
    } else {
      assert (a + b)[..|a + b| - 1] == a + b[..|b| - 1];
      LastMethodAppend(a, b[..|b| - 1], default);
    }
  }

  lemma {:induction false} FoldMethod(st: Install, events: seq<Event>)
    ensures FoldAll(st, events).installMethod == LastMethod(events, st.installMethod)
  {
    if events != [] { FoldMethod(st, events[..|events| - 1]); }
  }

  lemma {:induction false} SortedLatest(events: seq<Event>)
    requires SortedBy(events, Earlier) && events != []
    ensures forall d :: d in events ==> d.at <= events[|events| - 1].at
  {
    forall d | d in events ensures d.at <= events[|events| - 1].at {
      var i :| 0 <= i < |events| && events[i] == d;
      assert i < |events| - 1 ==> !Earlier(events[|events| - 1], events[i]);
    }
  }

  /** Without a method the default stays; with one the value is that of an event of the latest
      time that has one. */
  lemma {:induction false} LastMethodIs(events: seq<Event>, default: Option<string>)
    requires SortedBy(events, Earlier)
    ensures !HasMethod(events) ==> LastMethod(events, default) == default
    ensures HasMethod(events) ==> exists e :: e in events && LatestMethod(events, e) && LastMethod(events, default) == Some(e.installMethod)
  {
    hide HasMethod, LatestMethod, SortedBy;
    if events == [] {
      NoMethod();
    } else {
      var init, last := events[..|events| - 1], events[|events| - 1];
      SortedInit(events);
      LastMethodIs(init, default);
      assert events == init + [last];
      MoreMethods(init, last);
      if last.installMethod != "" {
        SortedLatest(events);
        AllLatest(events, last);
      } else if HasMethod(init) {
        var e :| e in init && LatestMethod(init, e) && LastMethod(init, default) == Some(e.installMethod);
        assert LatestMethod(events, e) && e in events;
      }
    }
  }

  lemma {:induction false} NoMethod()
    ensures !HasMethod([])
  {}

  lemma {:induction false} MoreMethods(init: seq<Event>, last: Event)
    ensures HasMethod(init + [last]) <==> HasMethod(init) || last.installMethod != ""
    ensures last.installMethod == "" ==> forall e :: LatestMethod(init, e) ==> LatestMethod(init + [last], e)
  {
    var events := init + [last];
    if HasMethod(init) {
      var i :| 0 <= i < |init| && init[i].installMethod != "";
      assert events[i].installMethod != "";
    }
    assert events[|init|] == last;
  }

  lemma {:induction false} AllLatest(events: seq<Event>, e: Event)
    requires e.installMethod != "" && forall d :: d in events ==> d.at <= e.at
    ensures LatestMethod(events, e)
  {}

  predicate LatestMethod(events: seq<Event>, e: Event) {
    e.installMethod != "" && forall d :: d in events && d.installMethod != "" ==> d.at <= e.at
  }

  /** In every run install_method is the latest method, by time, of the last batch that has
      one, and none if no batch does. */
  lemma {:induction false} MethodOfRun(batches: seq<seq<Event>>, i: nat)
    requires NonEmpty(batches) && i < |batches| && forall j :: i < j < |batches| ==> !HasMethod(batches[j])
    ensures HasMethod(batches[i]) ==> exists e :: e in batches[i] && LatestMethod(batches[i], e) && RowOf(batches).installMethod == Some(e.installMethod)
    ensures !HasMethod(batches[i]) && i == 0 ==> RowOf(batches).installMethod == None
  {
    hide Sort, Fold, RowOf, LatestMethod;
    RunIsFold(batches);
    var events := Folded(batches);
    FoldMethod(Start(events[0]), events);
    FoldedMethod(batches, i);
    var init, batch := Folded(batches[..i]), batches[i];
    SortElements(batch, Earlier);
    SortSorted(batch, Earlier);
    SameMethods(batch);
    LastMethodIs(ByTime(batch), LastMethod(init, None));
    if HasMethod(batch) {
      var e :| e in ByTime(batch) && LatestMethod(ByTime(batch), e) && LastMethod(ByTime(batch), LastMethod(init, None)) == Some(e.installMethod);
      assert e in batch;
    }
  }

  lemma {:induction false} SameMethods(batch: seq<Event>)
    ensures HasMethod(ByTime(batch)) <==> HasMethod(batch)
    ensures forall e :: LatestMethod(ByTime(batch), e) <==> LatestMethod(batch, e)
  {
    hide Sort;
    SortElements(batch, Earlier);
    if HasMethod(batch) {
      var i :| 0 <= i < |batch| && batch[i].installMethod != "";
      assert batch[i] in ByTime(batch);
    }
    if HasMethod(ByTime(batch)) {
      var i :| 0 <= i < |ByTime(batch)| && ByTime(batch)[i].installMethod != "";
      assert ByTime(batch)[i] in batch;
    }
  }

  lemma {:induction false} FoldedMethod(batches: seq<seq<Event>>, i: nat)
    requires i < |batches| && forall j :: i < j < |batches| ==> !HasMethod(batches[j])
    ensures LastMethod(Folded(batches), None) == LastMethod(ByTime(batches[i]), LastMethod(Folded(batches[..i]), None))
    decreases |batches|
  {
    hide Sort, LastMethod;
    var init, last := batches[..|batches| - 1], batches[|batches| - 1];
    LastMethodAppend(Folded(init), ByTime(last), None);
    if i < |batches| - 1 {
      FoldedMethod(init, i);
      assert init[..i] == batches[..i];
      SortSorted(last, Earlier);
      SameMethods(last);
      LastMethodIs(ByTime(last), LastMethod(Folded(init), None));
    }
  }

  ghost predicate OneMethod(s: set<Event>) {
    forall e, d :: e in s && d in s && e.installMethod != "" && d.installMethod != "" ==> e.installMethod == d.installMethod
  }

  lemma {:induction false} MethodAmong(events: seq<Event>)
    ensures LastMethod(events, None) == None ==> forall e :: e in events ==> e.installMethod == ""
    ensures LastMethod(events, None).Some? ==> exists e :: e in events && e.installMethod != "" && LastMethod(events, None) == Some(e.installMethod)
  {
    if events != [] {
      var init, last := events[..|events| - 1], events[|events| - 1];
      MethodAmong(init);
      assert events == init + [last];
      if last.installMethod == "" && LastMethod(init, None).Some? {
        var e :| e in init && e.installMethod != "" && LastMethod(init, None) == Some(e.installMethod);
        assert e in events;
      }
    }
  }

  /** install_method ends the same for all deliveries exactly when the events have at most one
      method between them. */
  lemma {:induction false} InstallMethodExactly(s: set<Event>)
    ensures OneMethod(s) ==> forall a, b :: Delivers(a, s) && Delivers(b, s) ==> RowOf(a).installMethod == RowOf(b).installMethod
    ensures !OneMethod(s) ==> exists a, b :: Splits(a, s) && Splits(b, s) && RowOf(a).installMethod != RowOf(b).installMethod
  {
    hide RowOf;
    if OneMethod(s) {
      forall a, b | Delivers(a, s) && Delivers(b, s) ensures RowOf(a).installMethod == RowOf(b).installMethod {
        MethodIs(a, s);
        MethodIs(b, s);
      }
    } else {
      var e, d :| e in s && d in s && e.installMethod != "" && d.installMethod != "" && e.installMethod != d.installMethod;
      var a, p := Ending(s, e);
      var b, q := Ending(s, d);
    }
  }

  lemma {:induction false} MethodIs(batches: seq<seq<Event>>, s: set<Event>)
    requires Delivers(batches, s)
    ensures RowOf(batches).installMethod == None ==> forall e :: e in s ==> e.installMethod == ""
    ensures RowOf(batches).installMethod.Some? ==> exists e :: e in s && e.installMethod != "" && RowOf(batches).installMethod == Some(e.installMethod)
  {
    hide RowOf, Fold, LastMethod;
    RunIsFold(batches);
    FoldedEvents(batches);
    var events := Folded(batches);
    FoldMethod(Start(events[0]), events);
    MethodAmong(events);
  }
}
