/** TrackInstalls and TrackDiscoveries (internal/storage/installs.go, discoveries.go): many
    installs and tenants in one batch, handled in a fixed order of keys. */
module Tracking {
  import opened Prelude
  import opened Sorting
  import opened Installs
  import opened LockOrder

  type UUID = u: seq<nat> | |u| == 16 witness [0, 0, 0, 0, 0, 0, 0, 0, 0, 0, 0, 0, 0, 0, 0, 0]

  predicate BytesLess(a: seq<nat>, b: seq<nat>) {
    b != [] && (a == [] || a[0] < b[0] || (a[0] == b[0] && BytesLess(a[1..], b[1..])))
  }

  /** compareUUID */
  method CompareUUID(a: UUID, b: UUID) returns (c: int)
    ensures c < 0 <==> BytesLess(a, b)
    ensures c > 0 <==> BytesLess(b, a)
    ensures c == 0 <==> a == b
  {
    for i := 0 to 16
      invariant a[..i] == b[..i]
      invariant BytesLess(a, b) == BytesLess(a[i..], b[i..])
      invariant BytesLess(b, a) == BytesLess(b[i..], a[i..])
    {
      if a[i] != b[i] {
        return if a[i] < b[i] then -1 else 1;
      }
    }
    assert a[..16] == a && b[..16] == b;
    c := 0;
  }

  lemma {:induction false} BytesLessIrreflexive(a: seq<nat>)
    ensures !BytesLess(a, a)
  {
    if a != [] { BytesLessIrreflexive(a[1..]); }
  }

  lemma {:induction false} BytesLessTransitive(a: seq<nat>, b: seq<nat>, c: seq<nat>)
    requires BytesLess(a, b) && BytesLess(b, c)
    ensures BytesLess(a, c)
  {
    if a != [] && a[0] == b[0] == c[0] { BytesLessTransitive(a[1..], b[1..], c[1..]); }
  }

  lemma {:induction false} BytesLessConnected(a: seq<nat>, b: seq<nat>)
    ensures a == b || BytesLess(a, b) || BytesLess(b, a)
  {
    if a != [] && b != [] && a[0] == b[0] {
      BytesLessConnected(a[1..], b[1..]);
      assert a == [a[0]] + a[1..] && b == [b[0]] + b[1..];
    }
  }

  datatype InstallKey = InstallKey(tenant: UUID, id: string)

  /** The order TrackInstalls sorts its keys by. */
  predicate KeyLess(a: InstallKey, b: InstallKey) {
    if a.tenant != b.tenant then BytesLess(a.tenant, b.tenant) else StrLess(a.id, b.id)
  }

  lemma {:induction false} KeyLessStrictTotal()
    ensures StrictTotal(KeyLess)
  {
    hide BytesLess, StrLess;
    forall x ensures !KeyLess(x, x) { StrLessIrreflexive(x.id); }
    forall x, y, z | KeyLess(x, y) && KeyLess(y, z) ensures KeyLess(x, z) {
      if x.tenant != y.tenant && y.tenant != z.tenant {
        BytesLessTransitive(x.tenant, y.tenant, z.tenant);
        BytesLessIrreflexive(x.tenant);
      } else if x.tenant == y.tenant == z.tenant {
        StrLessTransitive(x.id, y.id, z.id);
      }
    }
    forall x, y ensures x == y || KeyLess(x, y) || KeyLess(y, x) {
      BytesLessConnected(x.tenant, y.tenant);
      StrLessConnected(x.id, y.id);
    }
  }

  datatype DiscoveryKey = DiscoveryKey(install: InstallKey, kind: string, name: string)

  /** The order TrackDiscoveries sorts its keys by. */
  predicate DiscoveryLess(a: DiscoveryKey, b: DiscoveryKey) {
    if a.install != b.install then KeyLess(a.install, b.install)
    else if a.kind != b.kind then StrLess(a.kind, b.kind)
    else StrLess(a.name, b.name)
  }

  lemma {:induction false} DiscoveryLessStrictTotal()
    ensures StrictTotal(DiscoveryLess)
  {
    hide KeyLess, StrLess;
    KeyLessStrictTotal();
    StrLessStrictTotal();
    forall x: DiscoveryKey, y: DiscoveryKey, z: DiscoveryKey | DiscoveryLess(x, y) && DiscoveryLess(y, z) ensures DiscoveryLess(x, z) {
      if x.install != y.install && y.install != z.install { assert KeyLess(x.install, z.install) && !KeyLess(x.install, x.install); }
      else if x.install == y.install == z.install && x.kind != y.kind && y.kind != z.kind { assert StrLess(x.kind, z.kind) && !StrLess(x.kind, x.kind); }
    }
  }

  // ---- TrackInstalls ----

  datatype Sighting = Sighting(key: InstallKey, event: Event)

  function KeysOf(events: seq<Sighting>): set<InstallKey> {
    set s | s in events :: s.key
  }

  function EventsOf(events: seq<Sighting>, k: InstallKey): seq<Event> {
    if events == [] then []
    else
      var last := events[|events| - 1];
      EventsOf(events[..|events| - 1], k) + if last.key == k then [last.event] else []
  }

  lemma {:induction false} EventsOfKey(events: seq<Sighting>, k: InstallKey)
    ensures k in KeysOf(events) <==> EventsOf(events, k) != []
  {
    if events != [] {
      EventsOfKey(events[..|events| - 1], k);
      KeysOfStep(events);
    }
  }

  lemma {:induction false} KeysOfStep(events: seq<Sighting>)
    requires events != []
    ensures KeysOf(events) == KeysOf(events[..|events| - 1]) + {events[|events| - 1].key}
  {
    assert events == events[..|events| - 1] + [events[|events| - 1]];
  }

  function Lookup<K(==), V>(m: map<K, V>, k: K): Option<V> {
    if k in m then Some(m[k]) else None
  }

  ghost function PlanFor(rows: map<InstallKey, Install>, events: seq<Sighting>, k: InstallKey): Planned
    requires k in KeysOf(events)
  {
    EventsOfKey(events, k);
    Plan(if k in rows then Some(rows[k]) else None, EventsOf(events, k))
  }

  /** The grouping loop of TrackInstalls. */
  method GroupByInstall(events: seq<Sighting>) returns (byInstall: map<InstallKey, seq<Event>>)
    ensures byInstall.Keys == KeysOf(events)
    ensures forall k :: k in byInstall ==> byInstall[k] == EventsOf(events, k)
  {
    byInstall := map[];
    for i := 0 to |events|
      invariant byInstall.Keys == KeysOf(events[..i])
      invariant forall k :: k in byInstall ==> byInstall[k] == EventsOf(events[..i], k)
    {
      var e := events[i];
      assert events[..i + 1][..i] == events[..i];
      KeysOfStep(events[..i + 1]);
      EventsOfKey(events[..i], e.key);
      byInstall := byInstall[e.key := (if e.key in byInstall then byInstall[e.key] else []) + [e.event]];
    }
    assert events[..|events|] == events;
  }

  /** Every install in `done` has its plan, and no other row has moved. */
  ghost predicate RowsTracked(before: map<InstallKey, Install>, after: map<InstallKey, Install>, events: seq<Sighting>, done: set<InstallKey>)
    requires done <= KeysOf(events)
  {
    && after.Keys == before.Keys + done
    && (forall k :: k in done ==> after[k] == PlanFor(before, events, k).row)
    && (forall k :: k in before && k !in done ==> after[k] == before[k])
  }

  type Changes = map<(InstallKey, int), Change>

  /** Every change the plans of `done` reveal is recorded at its (install, at), unless one was
      already recorded there; nothing else is added and nothing is rewritten. */
  ghost predicate ChangesTracked(before: Changes, after: Changes, rows: map<InstallKey, Install>, events: seq<Sighting>, done: set<InstallKey>)
    requires done <= KeysOf(events)
  {
    && (forall p :: p in before ==> p in after && after[p] == before[p])
    && (forall p :: p in after && p !in before ==> p.0 in done && after[p].at == p.1 && after[p] in PlanFor(rows, events, p.0).changes)
    && (forall k, c :: k in done && c in PlanFor(rows, events, k).changes ==> (k, c.at) in after)
  }

  /** The installs and install_version_changes tables. */
  class InstallStore {
    var rows: map<InstallKey, Install>
    var changes: Changes

    /** TrackInstalls */
    method TrackInstalls(events: seq<Sighting>)
      modifies this
      ensures RowsTracked(old(rows), rows, events, KeysOf(events))
      ensures ChangesTracked(old(changes), changes, old(rows), events, KeysOf(events))
    {
      hide Plan, Merge, EventsOf, KeysOf, KeyOrder, RowsTracked, ChangesTracked;
      var byInstall := GroupByInstall(events);
      var keys := KeyOrder(byInstall.Keys);
      ghost var rows0, changes0 := rows, changes;
      NothingTracked(rows0, changes0, events);
      assert Done(keys[..0]) == {};
      for i := 0 to |keys|
        invariant Done(keys[..i]) <= KeysOf(events)
        invariant RowsTracked(rows0, rows, events, Done(keys[..i]))
        invariant ChangesTracked(changes0, changes, rows0, events, Done(keys[..i]))
      {
        var k := keys[i];
        assert k in Done(keys);
        AscendingNew(byInstall.Keys, i);
        DoneStep(keys, i);
        RowUntouched(rows0, rows, events, Done(keys[..i]), k);
        EventsOfKey(events, k);
        var next, more := PlanInstall(Lookup(rows, k), byInstall[k]);
        if k in rows {
          UpsertStoresPlan(rows[k], byInstall[k]);
          RowTracked(rows0, rows, events, Done(keys[..i]), k);
          rows := rows[k := Merge(rows[k], next)];
        } else {
          RowTracked(rows0, rows, events, Done(keys[..i]), k);
          rows := rows[k := next];
        }
        ghost var between := changes;
        InsertChanges(k, more);
        ChangesInserted(changes0, between, changes, rows0, events, Done(keys[..i]), k, more);
      }
      assert keys[..|keys|] == keys;
    }

    /** INSERT INTO install_version_changes … ON CONFLICT DO NOTHING, one by one. */
    method InsertChanges(k: InstallKey, more: seq<Change>)
      modifies this`changes
      ensures Inserted(old(changes), changes, k, more)
    {
      for j := 0 to |more|
        invariant forall p :: p in old(changes) ==> p in changes && changes[p] == old(changes)[p]
        invariant forall p :: p in changes && p !in old(changes) ==> p.0 == k && changes[p].at == p.1 && changes[p] in more
        invariant forall c :: c in more[..j] ==> (k, c.at) in changes
      {
        var c := more[j];
        if (k, c.at) !in changes {
          changes := changes[(k, c.at) := c];
        }
      }
    }
  }

  ghost predicate Inserted(before: Changes, after: Changes, k: InstallKey, more: seq<Change>) {
    && (forall p :: p in before ==> p in after && after[p] == before[p])
    && (forall p :: p in after && p !in before ==> p.0 == k && after[p].at == p.1 && after[p] in more)
    && (forall c :: c in more ==> (k, c.at) in after)
  }

  lemma {:induction false} NothingTracked(rows: map<InstallKey, Install>, changes: Changes, events: seq<Sighting>)
    ensures RowsTracked(rows, rows, events, {}) && ChangesTracked(changes, changes, rows, events, {})
  {
    hide PlanFor;
  }

  lemma {:induction false} RowUntouched(before: map<InstallKey, Install>, after: map<InstallKey, Install>, events: seq<Sighting>, done: set<InstallKey>, k: InstallKey)
    requires done <= KeysOf(events) && RowsTracked(before, after, events, done) && k !in done
    ensures Lookup(after, k) == Lookup(before, k)
  {
    hide PlanFor;
  }

  lemma {:induction false} RowTracked(before: map<InstallKey, Install>, after: map<InstallKey, Install>, events: seq<Sighting>, done: set<InstallKey>, k: InstallKey)
    requires done <= KeysOf(events) && RowsTracked(before, after, events, done) && k in KeysOf(events) && k !in done
    ensures RowsTracked(before, after[k := PlanFor(before, events, k).row], events, done + {k})
  {
    hide PlanFor;
  }

  lemma {:induction false} ChangesInserted(before: Changes, between: Changes, after: Changes, rows: map<InstallKey, Install>, events: seq<Sighting>,
                        done: set<InstallKey>, k: InstallKey, more: seq<Change>)
    requires done <= KeysOf(events) && k in KeysOf(events) && k !in done
    requires ChangesTracked(before, between, rows, events, done) && Inserted(between, after, k, more)
    requires more == PlanFor(rows, events, k).changes
    ensures ChangesTracked(before, after, rows, events, done + {k})
  {
    hide PlanFor;
    forall p | p in after && p !in before
      ensures p.0 in done + {k} && after[p].at == p.1 && after[p] in PlanFor(rows, events, p.0).changes
    {
      if p in between { assert after[p] == between[p]; }
    }
  }

  /** The keys of a batch in the order TrackInstalls takes them. */
  function KeyOrder(keys: set<InstallKey>): (r: seq<InstallKey>)
    ensures Done(r) == keys
  {
    KeyLessStrictTotal();
    SortedSeq(keys, KeyLess)
  }

  function Done(keys: seq<InstallKey>): set<InstallKey> {
    set k | k in keys
  }

  lemma {:induction false} DoneStep(keys: seq<InstallKey>, i: nat)
    requires i < |keys|
    ensures Done(keys[..i + 1]) == Done(keys[..i]) + {keys[i]}
  {
    assert keys[..i + 1] == keys[..i] + [keys[i]];
  }

  lemma {:induction false} AscendingNew(keys: set<InstallKey>, i: nat)
    requires i < |KeyOrder(keys)|
    ensures KeyOrder(keys)[i] !in Done(KeyOrder(keys)[..i])
  {
    KeyLessStrictTotal();
    hide KeyLess;
    var r := KeyOrder(keys);
    forall j | 0 <= j < i ensures r[j] != r[i] { assert KeyLess(r[j], r[i]); }
  }

  // ---- TrackDiscoveries ----

  datatype Discovery = Discovery(key: DiscoveryKey, at: int)

  ghost function TimesOf(events: seq<Discovery>, k: DiscoveryKey): set<int> {
    set e | e in events && e.key == k :: e.at
  }

  ghost predicate IsLeast(t: int, times: set<int>) {
    t in times && forall u :: u in times ==> t <= u
  }

  lemma {:induction false} TimesStep(events: seq<Discovery>, i: nat, k: DiscoveryKey)
    requires i < |events|
    ensures TimesOf(events[..i + 1], k) == TimesOf(events[..i], k) + (if events[i].key == k then {events[i].at} else {})
  {
    assert events[..i + 1] == events[..i] + [events[i]];
  }

  /** first holds exactly the keys sighted, each with its earliest time. */
  ghost predicate Firsts(first: map<DiscoveryKey, int>, events: seq<Discovery>) {
    forall k :: if k in first then IsLeast(first[k], TimesOf(events, k)) else TimesOf(events, k) == {}
  }

  lemma {:induction false} FirstsStep(first: map<DiscoveryKey, int>, events: seq<Discovery>, i: nat)
    requires i < |events| && Firsts(first, events[..i])
    ensures var e := events[i];
            Firsts(if e.key !in first || e.at < first[e.key] then first[e.key := e.at] else first, events[..i + 1])
  {
    hide TimesOf;
    var e := events[i];
    var next := if e.key !in first || e.at < first[e.key] then first[e.key := e.at] else first;
    forall k ensures if k in next then IsLeast(next[k], TimesOf(events[..i + 1], k)) else TimesOf(events[..i + 1], k) == {} {
      TimesStep(events, i, k);
      assert if k in first then IsLeast(first[k], TimesOf(events[..i], k)) else TimesOf(events[..i], k) == {};
    }
  }

  /** The per-key minimum of TrackDiscoveries' first loop. */
  method FirstSightings(events: seq<Discovery>) returns (first: map<DiscoveryKey, int>)
    ensures Firsts(first, events)
  {
    first := map[];
    for i := 0 to |events|
      invariant Firsts(first, events[..i])
    {
      hide Firsts;
      FirstsStep(first, events, i);
      var e := events[i];
      if e.key !in first || e.at < first[e.key] {
        first := first[e.key := e.at];
      }
    }
    assert events[..|events|] == events;
  }

  class DiscoveryStore {
    var found: map<DiscoveryKey, int>

    /** TrackDiscoveries: first_at is the earliest of what was stored and what was sent, so
        late and repeated events are harmless. */
    method TrackDiscoveries(events: seq<Discovery>)
      modifies this
      ensures forall k :: k in found <==> k in old(found) || TimesOf(events, k) != {}
      ensures forall k :: k in found ==> IsLeast(found[k], TimesOf(events, k) + (if k in old(found) then {old(found)[k]} else {}))
    {
      hide TimesOf;
      var first := FirstSightings(events);
      found := map k | k in found.Keys + first.Keys ::
        if k !in first then found[k]
        else if k !in found || first[k] < found[k] then first[k]   // the upsert's WHERE
        else found[k];
    }
  }

  // ---- Their lock order ----

  /** Any number of TrackInstalls transactions, each over the keys of its own batch, always
      run to completion. */
  lemma {:induction false} TrackInstallsFinish(s: State<InstallKey>, batches: map<nat, seq<Sighting>>, steps: seq<Step>)
    requires Fresh(s) && Run(s, steps) && s.Keys == batches.Keys
    requires forall i :: i in s ==> s[i].keys == KeyOrder(KeysOf(batches[i]))
    ensures |steps| <= Work(s)
    ensures (forall step :: !Enabled(After(s, steps), step)) ==> forall i :: i in After(s, steps) ==> After(s, steps)[i].finished
  {
    hide StrictTotal;
    KeyLessStrictTotal();
    RunsFinish(s, steps, KeyLess);
  }

  function DiscoveryOrder(keys: set<DiscoveryKey>): seq<DiscoveryKey> {
    DiscoveryLessStrictTotal();
    SortedSeq(keys, DiscoveryLess)
  }

  /** So do TrackDiscoveries statements. */
  lemma {:induction false} TrackDiscoveriesFinish(s: State<DiscoveryKey>, keys: map<nat, set<DiscoveryKey>>, steps: seq<Step>)
    requires Fresh(s) && Run(s, steps) && s.Keys == keys.Keys
    requires forall i :: i in s ==> s[i].keys == DiscoveryOrder(keys[i])
    ensures |steps| <= Work(s)
    ensures (forall step :: !Enabled(After(s, steps), step)) ==> forall i :: i in After(s, steps) ==> After(s, steps)[i].finished
  {
    hide StrictTotal;
    DiscoveryLessStrictTotal();
    RunsFinish(s, steps, DiscoveryLess);
  }
}
