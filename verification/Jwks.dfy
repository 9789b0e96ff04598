/** The signing-key cache (internal/oidc/jwks.go). Times are integers; fetch results and
    clock readings are inputs to the steps. */
module Jwks {
  import opened Prelude

  datatype KeyKind = Rsa | Ec | OtherKind

  /** One usable key; alg is "" when the provider declares none. */
  datatype JwksKey = JwksKey(kid: string, alg: string, kind: KeyKind, material: int)

  datatype Config = Config(cacheTTL: int, cooldown: int)

  /** fetchedAt and lastUnknown are None for Go's zero time. */
  datatype Cache = Cache(keys: seq<JwksKey>, fetchedAt: Option<int>, lastUnknown: Option<int>)

  datatype Result = Found(key: JwksKey) | UnknownKey | ProviderDown

  // ---- matchKey ----

  /** keySuitsAlg */
  predicate SuitsAlg(kind: KeyKind, alg: string) {
    match kind
    case Rsa => "RS" <= alg || "PS" <= alg
    case Ec => "ES" <= alg
    case OtherKind => false
  }

  predicate Suits(k: JwksKey, kid: string, alg: string) {
    (kid != "" ==> k.kid == kid) && (k.alg != "" ==> k.alg == alg) && (kid == "" ==> SuitsAlg(k.kind, alg))
  }

  /** The one key that suits, if there is exactly one. */
  ghost predicate OnlySuiting(keys: seq<JwksKey>, kid: string, alg: string, i: nat) {
    i < |keys| && Suits(keys[i], kid, alg) && forall j :: 0 <= j < |keys| && j != i ==> !Suits(keys[j], kid, alg)
  }

  ghost function Match(keys: seq<JwksKey>, kid: string, alg: string): Option<JwksKey> {
    if exists i: nat :: OnlySuiting(keys, kid, alg, i) then
      var i: nat :| OnlySuiting(keys, kid, alg, i);
      Some(keys[i])
    else None
  }

  /** matchKey */
  method MatchKey(keys: seq<JwksKey>, kid: string, alg: string) returns (r: Option<JwksKey>)
    ensures r == Match(keys, kid, alg)
  {
    hide SuitsAlg;
    var found: seq<JwksKey> := [];
    ghost var at: seq<nat> := [];
    for i := 0 to |keys|
      invariant |at| == |found| && forall n :: 0 <= n < |at| ==> at[n] < i && Suits(keys[at[n]], kid, alg) && found[n] == keys[at[n]]
      invariant forall n, m :: 0 <= n < m < |at| ==> at[n] < at[m]
      invariant forall j :: 0 <= j < i && Suits(keys[j], kid, alg) ==> j in at
    {
      var k := keys[i];
      if kid != "" && k.kid != kid { continue; }
      if k.alg != "" && k.alg != alg { continue; }
      if kid == "" && !SuitsAlg(k.kind, alg) { continue; }
      assert Suits(k, kid, alg);
      found, at := found + [k], at + [i];
    }
    if |found| == 1 {
      assert OnlySuiting(keys, kid, alg, at[0]);
      return Some(found[0]);
    }
    NotOne(keys, kid, alg, at);
    return None;
  }

  lemma {:induction false} NotOne(keys: seq<JwksKey>, kid: string, alg: string, at: seq<nat>)
    requires |at| != 1 && forall n :: 0 <= n < |at| ==> at[n] < |keys| && Suits(keys[at[n]], kid, alg)
    requires forall n, m :: 0 <= n < m < |at| ==> at[n] < at[m]
    requires forall j :: 0 <= j < |keys| && Suits(keys[j], kid, alg) ==> j in at
    ensures Match(keys, kid, alg) == None
  {
    hide Suits;
    forall i: nat ensures !OnlySuiting(keys, kid, alg, i) {
      if i < |keys| && Suits(keys[i], kid, alg) {
        var n :| 0 <= n < |at| && at[n] == i;
        var m := if n == 0 then 1 else 0;
        assert at[m] != i && Suits(keys[at[m]], kid, alg);
      }
    }
  }

  /** A key usable under the token's algorithm. */
  predicate Usable(k: JwksKey, alg: string) {
    |alg| >= 2 && alg[1] == 'S' && ((k.kind == Rsa && (alg[0] == 'R' || alg[0] == 'P')) || (k.kind == Ec && alg[0] == 'E'))
  }

  /** What a token asks for: the key of its kid or, without one, any key usable under its
      algorithm; in either case none declared for another. */
  predicate Wanted(k: JwksKey, kid: string, alg: string) {
    (k.alg == "" || k.alg == alg) && if kid == "" then Usable(k, alg) else k.kid == kid
  }

  lemma {:induction false} SuitsExactly(k: JwksKey, kid: string, alg: string)
    ensures Suits(k, kid, alg) <==> Wanted(k, kid, alg)
  {
    assert |alg| >= 2 ==> alg[..2] == [alg[0], alg[1]];
    assert "RS" == ['R', 'S'] && "PS" == ['P', 'S'] && "ES" == ['E', 'S'];
  }

  /** A key is matched exactly if it is wanted and no other is. */
  lemma {:induction false} MatchExactly(keys: seq<JwksKey>, kid: string, alg: string, k: JwksKey)
    ensures Match(keys, kid, alg) == Some(k) <==>
            exists i :: 0 <= i < |keys| && keys[i] == k && Wanted(k, kid, alg) && forall j :: 0 <= j < |keys| && j != i ==> !Wanted(keys[j], kid, alg)
  {
    hide Suits, Wanted;
    forall j | 0 <= j < |keys| ensures Suits(keys[j], kid, alg) <==> Wanted(keys[j], kid, alg) { SuitsExactly(keys[j], kid, alg); }
    if i :| 0 <= i < |keys| && keys[i] == k && Wanted(k, kid, alg) && forall j :: 0 <= j < |keys| && j != i ==> !Wanted(keys[j], kid, alg) {
      assert OnlySuiting(keys, kid, alg, i);
    }
  }

  // ---- The locked part of lookupKey ----

  predicate Fresh(cfg: Config, c: Cache, now: int) { c.fetchedAt.Some? && now - c.fetchedAt.value < cfg.cacheTTL }

  predicate Cooling(cfg: Config, c: Cache, now: int) { c.lastUnknown.Some? && now - c.lastUnknown.value < cfg.cooldown }

  /** What the first look decides: an answer, or a refresh. */
  datatype First = Answer(result: Result) | Refresh(forUnknown: bool)

  ghost function Look(cfg: Config, c: Cache, kid: string, alg: string, now: int): First {
    if !Fresh(cfg, c, now) then Refresh(false)
    else if Match(c.keys, kid, alg).Some? then Answer(Found(Match(c.keys, kid, alg).value))
    else if Cooling(cfg, c, now) then Answer(UnknownKey)
    else Refresh(true)
  }

  ghost function AfterLook(cfg: Config, c: Cache, kid: string, alg: string, now: int): Cache {
    if Look(cfg, c, kid, alg, now) == Refresh(true) then c.(lastUnknown := Some(now)) else c
  }

  /** A fetch that came back, or failed: a failure changes nothing. */
  function AfterFetch(c: Cache, fetched: Option<seq<JwksKey>>, clock: int): Cache {
    if fetched.Some? then c.(keys := fetched.value, fetchedAt := Some(clock)) else c
  }

  /** The end of lookupKey: match the fetched keys, or what is held when the fetch failed. */
  ghost function Conclude(held: seq<JwksKey>, fetched: Option<seq<JwksKey>>, kid: string, alg: string): Result {
    var m := Match(if fetched.Some? then fetched.value else held, kid, alg);
    if m.Some? then Found(m.value) else if fetched.Some? then UnknownKey else ProviderDown
  }

  class Verifier {
    var cache: Cache

    /** lookupKey, run by itself: its fetch, if any, comes back at `clock` with `fetched`. */
    method LookupKey(cfg: Config, kid: string, alg: string, now: int, fetched: Option<seq<JwksKey>>, clock: int) returns (r: Result)
      modifies this
      ensures var first := Look(cfg, old(cache), kid, alg, now);
              if first.Answer? then r == first.result && cache == old(cache)
              else
                && cache == AfterFetch(AfterLook(cfg, old(cache), kid, alg, now), fetched, clock)
                && r == Conclude(old(cache).keys, fetched, kid, alg)
    {
      hide Match;
      if cache.fetchedAt.Some? && now - cache.fetchedAt.value < cfg.cacheTTL {
        var k := MatchKey(cache.keys, kid, alg);
        if k.Some? { return Found(k.value); }
        if cache.lastUnknown.Some? && now - cache.lastUnknown.value < cfg.cooldown { return UnknownKey; }
        cache := cache.(lastUnknown := Some(now));
      }
      if fetched.None? {
        var k := MatchKey(cache.keys, kid, alg);
        if k.Some? { return Found(k.value); }
        return ProviderDown;
      }
      cache := cache.(keys := fetched.value, fetchedAt := Some(clock));
      var k := MatchKey(fetched.value, kid, alg);
      if k.Some? { return Found(k.value); }
      return UnknownKey;
    }
  }

  // ---- Every interleaving ----

  /** One lookup: not begun, waiting for the shared fetch, holding its result, or done. */
  datatype Lookup =
    | Idle(kid: string, alg: string)
    | Waiting(kid: string, alg: string)
    | Fetched(kid: string, alg: string, result: Option<seq<JwksKey>>)
    | Done(kid: string, alg: string, answer: Result)

  /** unknownAt lists, in order, the clock readings of the refreshes an unknown key began. */
  datatype State = State(cache: Cache, lookups: seq<Lookup>, unknownAt: seq<int>)

  datatype Event =
    | Begin(i: nat, now: int)
    | Return(waiters: set<nat>, fetched: Option<seq<JwksKey>>, clock: int)
    | Finish(i: nat)

  /** A lookup takes its first, locked look. */
  ghost predicate Begins(cfg: Config, s: State, t: State, i: nat, now: int) {
    && i < |s.lookups| && s.lookups[i].Idle?
    && var l := s.lookups[i];
       var first := Look(cfg, s.cache, l.kid, l.alg, now);
       t == State(AfterLook(cfg, s.cache, l.kid, l.alg, now),
                  s.lookups[i := if first.Answer? then Done(l.kid, l.alg, first.result) else Waiting(l.kid, l.alg)],
                  if first == Refresh(true) then s.unknownAt + [now] else s.unknownAt)
  }

  /** A fetch ends for all the lookups that share it. */
  ghost predicate Returns(s: State, t: State, waiters: set<nat>, fetched: Option<seq<JwksKey>>, clock: int) {
    && (forall i :: i in waiters ==> i < |s.lookups| && s.lookups[i].Waiting?)
    && t.cache == AfterFetch(s.cache, fetched, clock) && t.unknownAt == s.unknownAt
    && t.lookups == seq(|s.lookups|, i requires 0 <= i < |s.lookups| =>
                          if i in waiters then Fetched(s.lookups[i].kid, s.lookups[i].alg, fetched) else s.lookups[i])
  }

  /** A lookup concludes; after a failed fetch it takes the keys held now. */
  ghost predicate Finishes(s: State, t: State, i: nat) {
    && i < |s.lookups| && s.lookups[i].Fetched?
    && var l := s.lookups[i];
       t == s.(lookups := s.lookups[i := Done(l.kid, l.alg, Conclude(s.cache.keys, l.result, l.kid, l.alg))])
  }

  ghost predicate Steps(cfg: Config, s: State, t: State, e: Event) {
    match e
    case Begin(i, now) => Begins(cfg, s, t, i, now)
    case Return(waiters, fetched, clock) => Returns(s, t, waiters, fetched, clock)
    case Finish(i) => Finishes(s, t, i)
  }

  ghost predicate IsRun(cfg: Config, run: seq<State>, events: seq<Event>) {
    && |run| == |events| + 1
    && forall n :: 0 <= n < |events| ==> Steps(cfg, run[n], run[n + 1], events[n])
  }

  // ---- Refreshes for unknown keys are spaced ----

  ghost predicate Spaced(cfg: Config, s: State) {
    && (s.unknownAt != [] ==> s.cache.lastUnknown == Some(s.unknownAt[|s.unknownAt| - 1]))
    && forall n :: 0 <= n < |s.unknownAt| - 1 ==> s.unknownAt[n + 1] - s.unknownAt[n] >= cfg.cooldown
  }

  lemma {:induction false} StepKeepsSpaced(cfg: Config, s: State, t: State, e: Event)
    requires Spaced(cfg, s) && Steps(cfg, s, t, e)
    ensures Spaced(cfg, t)
  {
    hide Match;
  }

  lemma {:induction false} RunKeepsSpaced(cfg: Config, run: seq<State>, events: seq<Event>, n: nat)
    requires IsRun(cfg, run, events) && run[0].unknownAt == [] && n < |run|
    ensures Spaced(cfg, run[n])
  {
    hide Steps, Spaced;
    if n == 0 {
      NoneSpaced(cfg, run[0]);
    } else {
      RunKeepsSpaced(cfg, run, events, n - 1);
      assert Steps(cfg, run[n - 1], run[n], events[n - 1]);
      StepKeepsSpaced(cfg, run[n - 1], run[n], events[n - 1]);
    }
  }

  lemma {:induction false} NoneSpaced(cfg: Config, s: State)
    requires s.unknownAt == []
    ensures Spaced(cfg, s)
  {}

  lemma {:induction false} PairSpaced(cfg: Config, at: seq<int>, i: nat, j: nat)
    requires cfg.cooldown >= 0 && i < j < |at|
    requires forall n :: 0 <= n < |at| - 1 ==> at[n + 1] - at[n] >= cfg.cooldown
    ensures at[j] - at[i] >= cfg.cooldown
  {
    assert at[(j - 1) + 1] - at[j - 1] >= cfg.cooldown;
    if i < j - 1 { PairSpaced(cfg, at, i, j - 1); }
  }

  /** In every interleaving, whatever clocks the lookups read, any two refreshes begun for an
      unknown key on a fresh key set are at least the cooldown apart. */
  lemma {:induction false} UnknownRefreshesSpaced(cfg: Config, run: seq<State>, events: seq<Event>, i: nat, j: nat)
    requires cfg.cooldown >= 0 && IsRun(cfg, run, events) && run[0].unknownAt == []
    requires i < j < |run[|events|].unknownAt|
    ensures run[|events|].unknownAt[j] - run[|events|].unknownAt[i] >= cfg.cooldown
  {
    RunKeepsSpaced(cfg, run, events, |events|);
    PairSpaced(cfg, run[|events|].unknownAt, i, j);
  }

  // ---- A failed fetch loses nothing ----

  /** The keys of the last fetch to succeed before step n, or those the run began with. */
  ghost function LastFetched(run: seq<State>, events: seq<Event>, n: nat): seq<JwksKey>
    requires |run| > 0 && n <= |events|
  {
    if n == 0 then run[0].cache.keys
    else if events[n - 1].Return? && events[n - 1].fetched.Some? then events[n - 1].fetched.value
    else LastFetched(run, events, n - 1)
  }

  /** In every run the cache holds the keys of the last fetch that succeeded, however many
      failed since. */
  lemma {:induction false} HoldsLastFetched(cfg: Config, run: seq<State>, events: seq<Event>, n: nat)
    requires IsRun(cfg, run, events) && n < |run|
    ensures run[n].cache.keys == LastFetched(run, events, n)
  {
    hide Match;
    if n > 0 {
      HoldsLastFetched(cfg, run, events, n - 1);
      assert Steps(cfg, run[n - 1], run[n], events[n - 1]);
    }
  }

  /** When that fetch came back. */
  ghost function LastFetchedAt(run: seq<State>, events: seq<Event>, n: nat): Option<int>
    requires |run| > 0 && n <= |events|
  {
    if n == 0 then run[0].cache.fetchedAt
    else if events[n - 1].Return? && events[n - 1].fetched.Some? then Some(events[n - 1].clock)
    else LastFetchedAt(run, events, n - 1)
  }

  /** When a refresh for an unknown key was last begun. */
  ghost function LastUnknownAt(run: seq<State>, n: nat): Option<int>
    requires n < |run|
  {
    if run[n].unknownAt == [] then run[0].cache.lastUnknown else Some(run[n].unknownAt[|run[n].unknownAt| - 1])
  }

  lemma {:induction false} HoldsLastTimes(cfg: Config, run: seq<State>, events: seq<Event>, n: nat)
    requires IsRun(cfg, run, events) && n < |run| && run[0].unknownAt == []
    ensures run[n].cache.fetchedAt == LastFetchedAt(run, events, n)
    ensures run[n].cache.lastUnknown == LastUnknownAt(run, n)
  {
    hide Match;
    if n > 0 {
      HoldsLastTimes(cfg, run, events, n - 1);
      assert Steps(cfg, run[n - 1], run[n], events[n - 1]);
    }
  }

  /** In every run, a lookup that begins cacheTTL or more after the last fetch that succeeded
      always waits for a refresh. A younger one that the held keys match never does; one that
      they do not match does exactly if no refresh for an unknown key began within the
      cooldown. */
  lemma {:induction false} RefreshesExactly(cfg: Config, run: seq<State>, events: seq<Event>, n: nat, i: nat, now: int)
    requires IsRun(cfg, run, events) && n < |events| && events[n] == Begin(i, now) && run[0].unknownAt == []
    ensures i < |run[n].lookups| && i < |run[n + 1].lookups|
    ensures var l, at, unknown := run[n].lookups[i], LastFetchedAt(run, events, n), LastUnknownAt(run, n);
            var m := Match(LastFetched(run, events, n), l.kid, l.alg);
            run[n + 1].lookups[i] ==
              if at.None? || now >= at.value + cfg.cacheTTL then Waiting(l.kid, l.alg)
              else if m.Some? then Done(l.kid, l.alg, Found(m.value))
              else if unknown.None? || now >= unknown.value + cfg.cooldown then Waiting(l.kid, l.alg)
              else Done(l.kid, l.alg, UnknownKey)
  {
    hide Match;
    HoldsLastFetched(cfg, run, events, n);
    HoldsLastTimes(cfg, run, events, n);
    assert Steps(cfg, run[n], run[n + 1], events[n]);
  }

  /** So in every run a lookup whose fetch failed is answered with the key those keys match,
      and with the failure only if they match none. */
  lemma {:induction false} FailedFetchServes(cfg: Config, run: seq<State>, events: seq<Event>, n: nat, i: nat)
    requires IsRun(cfg, run, events) && n < |events| && events[n] == Finish(i)
    requires i < |run[n].lookups| && run[n].lookups[i].Fetched? && run[n].lookups[i].result.None?
    ensures i < |run[n + 1].lookups|
    ensures var l := run[n].lookups[i];
            var m := Match(LastFetched(run, events, n), l.kid, l.alg);
            run[n + 1].lookups[i] == Done(l.kid, l.alg, if m.Some? then Found(m.value) else ProviderDown)
  {
    hide Match;
    HoldsLastFetched(cfg, run, events, n);
    assert Steps(cfg, run[n], run[n + 1], events[n]);
  }

  /** And one whose fetch succeeded with the key the fetched keys match, or as unknown. */
  lemma {:induction false} FetchServes(cfg: Config, run: seq<State>, events: seq<Event>, n: nat, i: nat)
    requires IsRun(cfg, run, events) && n < |events| && events[n] == Finish(i)
    requires i < |run[n].lookups| && run[n].lookups[i].Fetched? && run[n].lookups[i].result.Some?
    ensures i < |run[n + 1].lookups|
    ensures var l := run[n].lookups[i];
            var m := Match(l.result.value, l.kid, l.alg);
            run[n + 1].lookups[i] == Done(l.kid, l.alg, if m.Some? then Found(m.value) else UnknownKey)
  {
    hide Match;
    assert Steps(cfg, run[n], run[n + 1], events[n]);
  }

  ghost predicate NoFetchSucceeds(events: seq<Event>, m: nat, n: nat)
    requires m <= n <= |events|
  {
    forall e :: m <= e < n && events[e].Return? ==> events[e].fetched.None?
  }

  /** Not yet answered, and not holding keys of an earlier fetch. */
  predicate Open(l: Lookup) { l.Idle? || l.Waiting? || (l.Fetched? && l.result.None?) }

  /** Open, or answered by the keys if they match. */
  ghost predicate ServedBy(keys: seq<JwksKey>, was: Lookup, l: Lookup) {
    var m := Match(keys, was.kid, was.alg);
    && l.kid == was.kid && l.alg == was.alg
    && (Open(l) || l.Done?)
    && (l.Done? && m.Some? ==> l.answer == Found(m.value))
  }

  lemma {:induction false} StepServes(cfg: Config, keys: seq<JwksKey>, was: Lookup, s: State, t: State, e: Event, i: nat)
    requires s.cache.keys == keys && i < |s.lookups| && ServedBy(keys, was, s.lookups[i])
    requires Steps(cfg, s, t, e) && (e.Return? ==> e.fetched.None?)
    ensures t.cache.keys == keys && i < |t.lookups| && ServedBy(keys, was, t.lookups[i])
  {
    hide Match;
  }

  /** Over any stretch of any run in which no fetch succeeds, whatever went before it and
      whichever lookups were in flight when it began: a lookup that was open is never answered
      with anything but the key the held keys match. */
  lemma {:induction false} FailuresLoseNoKey(cfg: Config, run: seq<State>, events: seq<Event>, m: nat, n: nat, i: nat)
    requires IsRun(cfg, run, events) && m <= n < |run| && NoFetchSucceeds(events, m, n)
    requires i < |run[m].lookups| && Open(run[m].lookups[i])
    ensures run[n].cache.keys == run[m].cache.keys
    ensures i < |run[n].lookups| && ServedBy(run[m].cache.keys, run[m].lookups[i], run[n].lookups[i])
    decreases n - m
  {
    hide Steps, Match;
    if m < n {
      FailuresLoseNoKey(cfg, run, events, m, n - 1, i);
      assert Steps(cfg, run[n - 1], run[n], events[n - 1]);
      StepServes(cfg, run[m].cache.keys, run[m].lookups[i], run[n - 1], run[n], events[n - 1], i);
    }
  }

  // ---- Answers are sound in every run ----

  /** Sets of keys the provider has published: the initial one and every fetched one. */
  ghost predicate Published(run: seq<State>, events: seq<Event>, keys: seq<JwksKey>, n: nat) {
    n < |run| && (keys == run[0].cache.keys || exists m :: 0 <= m < n && m < |events| && events[m].Return? && events[m].fetched == Some(keys))
  }

  ghost predicate Sound(run: seq<State>, events: seq<Event>, n: nat)
    requires n < |run|
  {
    && Published(run, events, run[n].cache.keys, n)
    && forall i :: 0 <= i < |run[n].lookups| ==> SoundLookup(run, events, run[n].lookups[i], n)
  }

  ghost predicate SoundLookup(run: seq<State>, events: seq<Event>, l: Lookup, n: nat) {
    && (l.Fetched? && l.result.Some? ==> Published(run, events, l.result.value, n))
    && (l.Done? && !l.answer.ProviderDown? ==> exists keys :: Published(run, events, keys, n) && Decided(keys, l))
  }

  /** keys justify the answer of a finished lookup. */
  ghost predicate Decided(keys: seq<JwksKey>, l: Lookup)
    requires l.Done?
  {
    var m := Match(keys, l.kid, l.alg);
    (l.answer.Found? ==> m == Some(l.answer.key)) && (l.answer.UnknownKey? ==> m.None?)
  }

  lemma {:induction false} PublishedLater(run: seq<State>, events: seq<Event>, keys: seq<JwksKey>, n: nat)
    requires Published(run, events, keys, n) && n + 1 < |run|
    ensures Published(run, events, keys, n + 1)
  {}

  lemma {:induction false} SoundLater(run: seq<State>, events: seq<Event>, l: Lookup, n: nat)
    requires SoundLookup(run, events, l, n) && n + 1 < |run|
    ensures SoundLookup(run, events, l, n + 1)
  {
    hide Published, Decided;
    if l.Fetched? && l.result.Some? { PublishedLater(run, events, l.result.value, n); }
    if l.Done? && !l.answer.ProviderDown? {
      var keys :| Published(run, events, keys, n) && Decided(keys, l);
      PublishedLater(run, events, keys, n);
    }
  }

  lemma {:induction false} SoundStep(cfg: Config, run: seq<State>, events: seq<Event>, n: nat)
    requires IsRun(cfg, run, events) && n < |events| && Sound(run, events, n)
    ensures Sound(run, events, n + 1)
  {
    hide Match, Published, SoundLookup;
    var s, t := run[n], run[n + 1];
    PublishedLater(run, events, s.cache.keys, n);
    forall i | 0 <= i < |s.lookups| ensures SoundLookup(run, events, s.lookups[i], n + 1) { SoundLater(run, events, s.lookups[i], n); }
    match events[n]
    case Begin(i, now) =>
      AnswerSound(cfg, run, events, s.lookups[i], now, n);
    case Return(waiters, fetched, clock) =>
      FetchPublished(run, events, n);
      forall i | 0 <= i < |t.lookups| ensures SoundLookup(run, events, t.lookups[i], n + 1) {
        if i in waiters { FetchSound(run, events, t.lookups[i], n); }
      }
    case Finish(i) =>
      FinishSound(run, events, s.lookups[i], n);
  }

  lemma {:induction false} FetchPublished(run: seq<State>, events: seq<Event>, n: nat)
    requires n < |events| && n + 1 < |run| && events[n].Return?
    ensures events[n].fetched.Some? ==> Published(run, events, events[n].fetched.value, n + 1)
  {}

  lemma {:induction false} FetchSound(run: seq<State>, events: seq<Event>, l: Lookup, n: nat)
    requires n < |events| && n + 1 < |run| && events[n].Return? && l.Fetched? && l.result == events[n].fetched
    ensures SoundLookup(run, events, l, n + 1)
  {
    hide Decided;
    FetchPublished(run, events, n);
  }

  lemma {:induction false} AnswerSound(cfg: Config, run: seq<State>, events: seq<Event>, l: Lookup, now: int, n: nat)
    requires n + 1 < |run| && Published(run, events, run[n].cache.keys, n + 1)
    ensures var first := Look(cfg, run[n].cache, l.kid, l.alg, now);
            && (first.Answer? ==> SoundLookup(run, events, Done(l.kid, l.alg, first.result), n + 1))
            && SoundLookup(run, events, Waiting(l.kid, l.alg), n + 1)
  {
    hide Match, Published;
    var first := Look(cfg, run[n].cache, l.kid, l.alg, now);
    if first.Answer? { assert Decided(run[n].cache.keys, Done(l.kid, l.alg, first.result)); }
  }

  lemma {:induction false} FinishSound(run: seq<State>, events: seq<Event>, l: Lookup, n: nat)
    requires n + 1 < |run| && l.Fetched? && SoundLookup(run, events, l, n + 1) && Published(run, events, run[n].cache.keys, n + 1)
    ensures SoundLookup(run, events, Done(l.kid, l.alg, Conclude(run[n].cache.keys, l.result, l.kid, l.alg)), n + 1)
  {
    hide Match, Published;
    var d := Done(l.kid, l.alg, Conclude(run[n].cache.keys, l.result, l.kid, l.alg));
    assert Decided(if l.result.Some? then l.result.value else run[n].cache.keys, d);
  }

  /** In every interleaving a lookup finds a key, or reports it unknown, only as some key set
      the provider published says. */
  lemma {:induction false} AnswersSound(cfg: Config, run: seq<State>, events: seq<Event>, n: nat)
    requires IsRun(cfg, run, events) && n < |run|
    requires forall i :: 0 <= i < |run[0].lookups| ==> run[0].lookups[i].Idle?
    ensures Sound(run, events, n)
  {
    hide Steps, Match, Sound;
    if n == 0 {
      SoundFirst(run, events);
    } else {
      AnswersSound(cfg, run, events, n - 1);
      SoundStep(cfg, run, events, n - 1);
    }
  }

  lemma {:induction false} SoundFirst(run: seq<State>, events: seq<Event>)
    requires |run| > 0 && forall i :: 0 <= i < |run[0].lookups| ==> run[0].lookups[i].Idle?
    ensures Sound(run, events, 0)
  {}
}
