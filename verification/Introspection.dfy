/** The cache of introspection answers (internal/oidc/introspect.go). Times are integers;
    the provider's answers and the clock readings are inputs to the steps. */
module Introspection {
  import opened Prelude
  import opened Sums

  const MAX_ENTRIES := 10_000

  /** What introspecting a token can come to: an active answer with its claims and their exp,
      a cacheable rejection, or trouble with the provider. */
  datatype Outcome = Active(claims: int, exp: Option<int>) | Refused(reason: int) | Unavailable

  datatype Entry = Entry(outcome: Outcome, expiresAt: int)

  datatype Config = Config(cacheTTL: int, negativeTTL: int)

  /** The hash of a token. */
  type Digest = string

  type Entries = map<Digest, Entry>

  // ---- get and put ----

  function Served(c: Entries, key: Digest, now: int): Option<Entry> {
    if key in c && now < c[key].expiresAt then Some(c[key]) else None
  }

  function AfterGet(c: Entries, key: Digest, now: int): Entries {
    if key in c && now >= c[key].expiresAt then c - {key} else c
  }

  function Live(c: Entries, now: int): Entries { map k | k in c && now < c[k].expiresAt :: c[k] }

  function AfterPut(c: Entries, key: Digest, e: Entry, now: int): Entries {
    if key in c || |c| < MAX_ENTRIES then c[key := e]
    else if |Live(c, now)| < MAX_ENTRIES then Live(c, now)[key := e]
    else Live(c, now)
  }

  class Cache {
    var entries: Entries

    constructor ()
      ensures entries == map[]
    {
      entries := map[];
    }

    method Get(key: Digest, now: int) returns (r: Option<Entry>)
      modifies this
      ensures r == Served(old(entries), key, now)
      ensures entries == AfterGet(old(entries), key, now)
    {
      if key !in entries { return None; }
      var e := entries[key];
      if !(now < e.expiresAt) {
        entries := entries - {key};
        return None;
      }
      return Some(e);
    }

    method Put(key: Digest, e: Entry, now: int)
      modifies this
      ensures entries == AfterPut(old(entries), key, e, now)
    {
      if key !in entries && |entries| >= MAX_ENTRIES {
        DropExpired(now);
        if |entries| >= MAX_ENTRIES { return; }
      }
      entries := entries[key := e];
    }

    method DropExpired(now: int)
      modifies this
      ensures entries == Live(old(entries), now)
    {
      var was, todo := entries, entries.Keys;
      while todo != {}
        invariant todo <= was.Keys
        invariant entries == map k | k in was && (k in todo || now < was[k].expiresAt) :: was[k]
      {
        var k :| k in todo;
        if !(now < was[k].expiresAt) { entries := entries - {k}; }
        todo := todo - {k};
      }
    }

    /** Introspect, run by itself: t0 and t1 are the clock at its two looks at the cache, t2
        after the provider answered with `answer`. */
    method Introspect(cfg: Config, key: Digest, t0: int, t1: int, answer: Outcome, t2: int) returns (r: Outcome)
      modifies this
      ensures var c1 := AfterGet(old(entries), key, t0);
              var c2 := AfterGet(c1, key, t1);
              if Served(old(entries), key, t0).Some? then r == Served(old(entries), key, t0).value.outcome && entries == c1
              else if Served(c1, key, t1).Some? then r == Served(c1, key, t1).value.outcome && entries == c2
              else r == answer && entries == AfterSettle(cfg, c2, key, answer, t2)
    {
      var hit := Get(key, t0);
      if hit.Some? { return hit.value.outcome; }
      hit := Get(key, t1);
      if hit.Some? { return hit.value.outcome; }
      if answer.Unavailable? { return answer; }
      var expiresAt;
      if answer.Refused? {
        expiresAt := t2 + cfg.negativeTTL;
      } else {
        var ttl := cfg.cacheTTL;
        if answer.exp.Some? && answer.exp.value - t2 < ttl { ttl := answer.exp.value - t2; }
        expiresAt := t2 + ttl;
      }
      if expiresAt > t2 { Put(key, Entry(answer, expiresAt), t2); }
      return answer;
    }
  }

  /** A look forgets the entry it finds expired, and no other. */
  lemma {:induction false} GetForgets(c: Entries, key: Digest, now: int)
    ensures var d := AfterGet(c, key, now);
            && (key in d <==> key in c && now < c[key].expiresAt) && d.Keys <= c.Keys
            && (forall k :: k in c && k != key ==> k in d) && (forall k :: k in d ==> d[k] == c[k])
            && (Served(c, key, now).Some? <==> key in d) && (key in d ==> Served(c, key, now).value == c[key])
  {}

  // ---- The caching decision ----

  function Expiry(cfg: Config, o: Outcome, now: int): int {
    match o
    case Active(_, exp) => if exp.Some? && exp.value - now < cfg.cacheTTL then exp.value else now + cfg.cacheTTL
    case Refused(_) => now + cfg.negativeTTL
    case Unavailable => now
  }

  /** The provider's answer comes in at `now`. */
  function AfterSettle(cfg: Config, c: Entries, key: Digest, o: Outcome, now: int): Entries {
    if Expiry(cfg, o, now) > now then AfterPut(c, key, Entry(o, Expiry(cfg, o, now)), now) else c
  }

  // ---- Every run ----

  /** The atomic steps of any number of concurrent calls: a look at the cache, or an answer
      being settled. Each carries its own clock reading; readings need not be in order. */
  datatype Step = Look(key: Digest, now: int) | Settle(key: Digest, answer: Outcome, at: int)

  function After(cfg: Config, c: Entries, s: Step): Entries {
    match s
    case Look(key, now) => AfterGet(c, key, now)
    case Settle(key, answer, at) => AfterSettle(cfg, c, key, answer, at)
  }

  function Run(cfg: Config, steps: seq<Step>): Entries {
    if steps == [] then map[] else After(cfg, Run(cfg, steps[..|steps| - 1]), steps[|steps| - 1])
  }

  /** An entry is some settled answer, with the expiry it was given then. */
  ghost predicate From(cfg: Config, steps: seq<Step>, key: Digest, e: Entry, i: nat) {
    && i < |steps| && steps[i].Settle? && steps[i].key == key && steps[i].answer == e.outcome
    && e.expiresAt == Expiry(cfg, e.outcome, steps[i].at) > steps[i].at
  }

  ghost predicate Settled(cfg: Config, steps: seq<Step>, key: Digest, e: Entry) { exists i: nat :: From(cfg, steps, key, e, i) }

  lemma {:induction false} SettledLater(cfg: Config, steps: seq<Step>, s: Step, key: Digest, e: Entry)
    requires Settled(cfg, steps, key, e)
    ensures Settled(cfg, steps + [s], key, e)
  {
    var i: nat :| From(cfg, steps, key, e, i);
    assert From(cfg, steps + [s], key, e, i);
  }

  /** A step adds at most the answer it settles. */
  lemma {:induction false} StepAdds(cfg: Config, c: Entries, s: Step, key: Digest)
    requires key in After(cfg, c, s)
    ensures (key in c && After(cfg, c, s)[key] == c[key])
         || (s.Settle? && s.key == key && After(cfg, c, s)[key] == Entry(s.answer, Expiry(cfg, s.answer, s.at)) && Expiry(cfg, s.answer, s.at) > s.at)
  {
    hide Expiry;
  }

  lemma {:induction false} KeysWithin(c: Entries, d: Entries)
    requires c.Keys <= d.Keys
    ensures |c| <= |d|
  {
    assert |c.Keys| <= |d.Keys| by { SubsetSize(c.Keys, d.Keys); }
  }

  lemma {:induction false} StepBounded(cfg: Config, c: Entries, s: Step)
    requires |c| <= MAX_ENTRIES
    ensures |After(cfg, c, s)| <= MAX_ENTRIES
  {
    hide Expiry;
    match s
    case Look(key, now) => KeysWithin(AfterGet(c, key, now), c);
    case Settle(key, answer, at) =>
      KeysWithin(Live(c, at), c);
      var e := Entry(answer, Expiry(cfg, answer, at));
      if key in c { assert c[key := e].Keys == c.Keys; KeysWithin(c[key := e], c); }
  }

  /** In every run the cache stays within its bound, and all it holds was settled. */
  lemma {:induction false} RunSound(cfg: Config, steps: seq<Step>)
    ensures |Run(cfg, steps)| <= MAX_ENTRIES
    ensures forall key :: key in Run(cfg, steps) ==> Settled(cfg, steps, key, Run(cfg, steps)[key])
  {
    hide After, Settled;
    if steps != [] {
      var init, s := steps[..|steps| - 1], steps[|steps| - 1];
      var c := Run(cfg, init);
      RunSound(cfg, init);
      StepBounded(cfg, c, s);
      assert steps == init + [s];
      forall key | key in Run(cfg, steps) ensures Settled(cfg, steps, key, Run(cfg, steps)[key]) {
        StepAdds(cfg, c, s, key);
        if key in c { SettledLater(cfg, init, s, key, c[key]); }
        SettledNow(cfg, init, s);
      }
    }
  }

  lemma {:induction false} SettledNow(cfg: Config, steps: seq<Step>, s: Step)
    ensures s.Settle? && Expiry(cfg, s.answer, s.at) > s.at ==> Settled(cfg, steps + [s], s.key, Entry(s.answer, Expiry(cfg, s.answer, s.at)))
  {
    hide Expiry;
    if s.Settle? && Expiry(cfg, s.answer, s.at) > s.at {
      assert From(cfg, steps + [s], s.key, Entry(s.answer, Expiry(cfg, s.answer, s.at)), |steps|);
    }
  }

  /** Whatever is served, in any run, is a settled answer for that token and no provider
      failure; an active one is served only before the cache's own limit after it was settled
      and before its exp (section 4 of RFC 7662), a rejection before its limit. */
  lemma {:induction false} ServedIsCurrent(cfg: Config, steps: seq<Step>, key: Digest, now: int) returns (i: nat)
    requires Served(Run(cfg, steps), key, now).Some?
    ensures var e := Served(Run(cfg, steps), key, now).value;
            && From(cfg, steps, key, e, i) && now < e.expiresAt
            && (match e.outcome
                case Active(_, exp) => now < steps[i].at + cfg.cacheTTL && (exp.Some? ==> now < exp.value)
                case Refused(_) => now < steps[i].at + cfg.negativeTTL
                case Unavailable => false)
  {
    hide Run;
    RunSound(cfg, steps);
    var e := Served(Run(cfg, steps), key, now).value;
    assert Settled(cfg, steps, key, e);
    i :| From(cfg, steps, key, e, i);
  }

  /** An answer is served until it expires, unless the cache is full of live entries of other
      tokens: exactly then it is not stored. No live entry is evicted for it, and expired ones
      exactly if there would be no room otherwise. */
  lemma {:induction false} PutServes(c: Entries, key: Digest, e: Entry, now: int, t: int)
    requires t < e.expiresAt
    ensures Served(AfterPut(c, key, e, now), key, t) == Some(e) <==> key in c || |Live(c, now)| < MAX_ENTRIES
    ensures forall k :: k != key && k in c && now < c[k].expiresAt ==> k in AfterPut(c, key, e, now) && AfterPut(c, key, e, now)[k] == c[k]
    ensures forall k :: k != key && k in c && c[k].expiresAt <= now ==> (k in AfterPut(c, key, e, now) <==> key in c || |c| < MAX_ENTRIES)
  {
    KeysWithin(Live(c, now), c);
  }

  // ---- Until when an answer is served ----

  /** t is before the limit of an answer settled at `at`. */
  predicate Current(cfg: Config, o: Outcome, at: int, t: int) {
    match o
    case Active(_, exp) => t < at + cfg.cacheTTL && (exp.Some? ==> t < exp.value)
    case Refused(_) => t < at + cfg.negativeTTL
    case Unavailable => false
  }

  function TimeOf(s: Step): int { match s case Look(_, now) => now case Settle(_, _, at) => at }

  ghost predicate Leaves(cfg: Config, key: Digest, o: Outcome, at: int, s: Step) {
    Current(cfg, o, at, TimeOf(s)) && !(s.Settle? && s.key == key)
  }

  lemma {:induction false} CurrentIsUnexpired(cfg: Config, o: Outcome, at: int, t: int)
    ensures Current(cfg, o, at, t) <==> t < Expiry(cfg, o, at) && !o.Unavailable?
  {}

  lemma {:induction false} StepLeaves(cfg: Config, c: Entries, s: Step, key: Digest, o: Outcome, at: int)
    requires Leaves(cfg, key, o, at, s) && (key in c ==> c[key] == Entry(o, Expiry(cfg, o, at)))
    ensures key in After(cfg, c, s) <==> key in c
    ensures key in c ==> After(cfg, c, s)[key] == c[key]
  {
    hide Expiry, Current;
    CurrentIsUnexpired(cfg, o, at, TimeOf(s));
  }

  /** In every run, an answer settled at `at` is served at every later time before its limit,
      as long as nothing else is settled for the token and no clock has passed the limit:
      exactly unless the cache was full of live entries of other tokens. */
  lemma {:induction false} ServedUntilLimit(cfg: Config, steps: seq<Step>, key: Digest, o: Outcome, at: int, more: seq<Step>, t: int)
    requires at <= t && Current(cfg, o, at, t)
    requires forall s :: s in more ==> Leaves(cfg, key, o, at, s)
    ensures var c, r := Run(cfg, steps), Served(Run(cfg, steps + [Settle(key, o, at)] + more), key, t);
            && (r.Some? <==> key in c || |Live(c, at)| < MAX_ENTRIES)
            && (r.Some? ==> r.value.outcome == o)
  {
    hide Expiry, Current, After, Leaves;
    var c, e := Run(cfg, steps), Entry(o, Expiry(cfg, o, at));
    CurrentIsUnexpired(cfg, o, at, t);
    SettleStores(cfg, steps, key, o, at, t);
    StillThere(cfg, steps + [Settle(key, o, at)], key, o, at, more);
  }

  lemma {:induction false} SettleStores(cfg: Config, steps: seq<Step>, key: Digest, o: Outcome, at: int, t: int)
    requires at <= t < Expiry(cfg, o, at)
    ensures var c, d, e := Run(cfg, steps), Run(cfg, steps + [Settle(key, o, at)]), Entry(o, Expiry(cfg, o, at));
            && (key in d <==> key in c || |Live(c, at)| < MAX_ENTRIES)
            && (key in d ==> d[key] == e)
  {
    hide Expiry;
    var c, e := Run(cfg, steps), Entry(o, Expiry(cfg, o, at));
    var all := steps + [Settle(key, o, at)];
    assert all[..|all| - 1] == steps;
    assert Run(cfg, all) == AfterPut(c, key, e, at);
    PutServes(c, key, e, at, t);
  }

  lemma {:induction false} StillThere(cfg: Config, steps: seq<Step>, key: Digest, o: Outcome, at: int, more: seq<Step>)
    requires forall s :: s in more ==> Leaves(cfg, key, o, at, s)
    requires key in Run(cfg, steps) ==> Run(cfg, steps)[key] == Entry(o, Expiry(cfg, o, at))
    ensures key in Run(cfg, steps + more) <==> key in Run(cfg, steps)
    ensures key in Run(cfg, steps) ==> Run(cfg, steps + more)[key] == Run(cfg, steps)[key]
  {
    hide Expiry, Leaves, After;
    if more == [] {
      assert steps + more == steps;
    } else {
      var init, last := more[..|more| - 1], more[|more| - 1];
      assert last in more && forall s :: s in init ==> s in more;
      StillThere(cfg, steps, key, o, at, init);
      StepLeaves(cfg, Run(cfg, steps + init), last, key, o, at);
      assert (steps + more)[..|steps + more| - 1] == steps + init;
    }
  }
}
