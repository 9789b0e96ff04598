/** Consent tiers and the attribute allowlist (internal/consent/tier.go and
    internal/allowlist/schema.go). Regular expressions and value checks are the schema's own
    predicates. */
module Consent {
  import opened Prelude
  import opened Sorting

  const TIER_KEY := "cli.analytics.tier"
  const FAMILY_SUFFIX := ".*"

  datatype Tier = Tier(name: string, rank: int)

  /** checks(d, v): v passes CheckAttribute under the definition of key d.
      keyPattern(f, rest): rest matches the key_pattern of family f. */
  datatype Schema<!V> = Schema(
    tiers: seq<Tier>,
    minTier: map<string, string>,
    standard: set<string>,
    checks: (string, V) -> bool,
    keyPattern: (string, string) -> bool)

  // ---- Tiers ----

  /** The tierRank index: a later tier of the same name wins. */
  function RankIn(tiers: seq<Tier>, name: string): Option<int> {
    if tiers == [] then None
    else
      var last := tiers[|tiers| - 1];
      if last.name == name then Some(last.rank) else RankIn(tiers[..|tiers| - 1], name)
  }

  function TierRank<V>(s: Schema<V>, name: string): Option<int> { RankIn(s.tiers, name) }

  /** Go's zero value stands in for an unknown tier. */
  function RankOrZero(r: Option<int>): int { if r.Some? then r.value else 0 }

  /** tierNameForRank */
  method TierNameForRank(tiers: seq<Tier>, rank: int) returns (name: string)
    ensures name == NameForRank(tiers, rank)
  {
    for i := 0 to |tiers|
      invariant NameForRank(tiers, rank) == NameForRank(tiers[i..], rank)
    {
      if tiers[i].rank == rank { return tiers[i].name; }
      assert tiers[i..][1..] == tiers[i + 1..];
    }
    return "";
  }

  function NameForRank(tiers: seq<Tier>, rank: int): string {
    if tiers == [] then "" else if tiers[0].rank == rank then tiers[0].name else NameForRank(tiers[1..], rank)
  }

  // ---- Attribute families ----

  predicate IsFamily(k: string) { |k| >= 2 && k[|k| - 2..] == FAMILY_SUFFIX }

  /** The prefix of a family: its key without the '*'. */
  function Prefix(f: string): string
    requires IsFamily(f)
  {
    f[..|f| - 1]
  }

  /** finalize's order: longer keys first, then by name. */
  predicate FamilyLess(a: string, b: string) { if |a| != |b| then |a| > |b| else StrLess(a, b) }

  lemma {:induction false} FamilyLessTotal()
    ensures StrictTotal(FamilyLess)
  {
    hide StrLess;
    StrLessStrictTotal();
  }

  ghost function FamilyKeys<V>(s: Schema<V>): set<string> { set k | k in s.minTier && IsFamily(k) }

  /** s.families after finalize, whatever order the definitions were walked in. */
  ghost predicate IsFamilies<V>(s: Schema<V>, families: seq<string>) {
    Ascending(families, FamilyLess) && forall k :: k in families <==> k in FamilyKeys(s)
  }

  predicate Matches<V>(s: Schema<V>, f: string, key: string) {
    IsFamily(f) && Prefix(f) <= key && s.keyPattern(f, key[|Prefix(f)|..])
  }

  /** FamilyOf: walking the sorted families finds the one longest that matches, which is
      unique, and none for a key with a definition of its own. */
  method FamilyOf<V>(s: Schema<V>, families: seq<string>, key: string) returns (r: Option<string>)
    requires IsFamilies(s, families)
    ensures r == Family(s, key)
  {
    hide Matches, IsFamily;
    if key in s.minTier { return None; }
    for i := 0 to |families|
      invariant forall j :: 0 <= j < i ==> !Matches(s, families[j], key)
    {
      if Matches(s, families[i], key) {
        FirstIsLongest(s, families, key, i);
        return Some(families[i]);
      }
    }
    NoFamily(s, families, key);
    return None;
  }

  /** f is a definition whose key ends in ".*", key begins with f up to its '.', and the rest of
      key matches f's pattern. */
  ghost predicate Covers<V>(s: Schema<V>, f: string, key: string) {
    && f in s.minTier && |f| >= 2 && f[|f| - 2] == '.' && f[|f| - 1] == '*'
    && f[..|f| - 1] <= key && s.keyPattern(f, key[|f| - 1..])
  }

  ghost predicate Longest<V>(s: Schema<V>, key: string, f: string) {
    Covers(s, f, key) && forall g :: Covers(s, g, key) && g != f ==> |g| < |f|
  }

  lemma {:induction false} CoversExactly<V>(s: Schema<V>, f: string, key: string)
    ensures Covers(s, f, key) <==> f in FamilyKeys(s) && Matches(s, f, key)
  {
    if |f| >= 2 { assert f[|f| - 2..] == [f[|f| - 2], f[|f| - 1]]; }
  }

  /** The family a key belongs to, by definition: the longest that matches. */
  ghost function Family<V>(s: Schema<V>, key: string): Option<string> {
    if key in s.minTier then None
    else if exists f :: Longest(s, key, f) then
      var f :| Longest(s, key, f);
      Some(f)
    else None
  }

  /** Two families of one length that match a key are the same. */
  lemma {:induction false} SameLengthSame<V>(s: Schema<V>, key: string, f: string, g: string)
    requires Matches(s, f, key) && Matches(s, g, key) && |f| == |g|
    ensures f == g
  {
    assert Prefix(f) == key[..|f| - 1] == Prefix(g);
    assert f == Prefix(f) + "*" && g == Prefix(g) + "*";
  }

  lemma {:induction false} LongestUnique<V>(s: Schema<V>, key: string, f: string, g: string)
    requires Longest(s, key, f) && Longest(s, key, g)
    ensures f == g
  {
    hide Covers;
  }

  lemma {:induction false} FirstIsLongest<V>(s: Schema<V>, families: seq<string>, key: string, i: nat)
    requires IsFamilies(s, families) && key !in s.minTier && i < |families| && Matches(s, families[i], key)
    requires forall j :: 0 <= j < i ==> !Matches(s, families[j], key)
    ensures Family(s, key) == Some(families[i])
  {
    hide Matches, FamilyKeys, StrLess, Covers;
    var f := families[i];
    CoversExactly(s, f, key);
    forall g | Covers(s, g, key) && g != f ensures |g| < |f| {
      CoversExactly(s, g, key);
      assert g in families;
      var j :| 0 <= j < |families| && families[j] == g;
      assert i < j && FamilyLess(families[i], families[j]);
      if |g| == |f| { SameLengthSame(s, key, f, g); }
    }
    assert Longest(s, key, f);
    var g :| Longest(s, key, g) && Family(s, key) == Some(g);
    LongestUnique(s, key, f, g);
  }

  lemma {:induction false} NoFamily<V>(s: Schema<V>, families: seq<string>, key: string)
    requires IsFamilies(s, families) && forall j :: 0 <= j < |families| ==> !Matches(s, families[j], key)
    ensures Family(s, key) == None
  {
    hide Matches, FamilyKeys, Covers;
    forall f ensures !Covers(s, f, key) {
      CoversExactly(s, f, key);
      assert f in FamilyKeys(s) ==> f in families;
    }
  }

  /** Every schema has its families, in one order only: sorting makes the walk of the
      definitions irrelevant. */
  lemma {:induction false} FamiliesDetermined<V>(s: Schema<V>) returns (families: seq<string>)
    ensures IsFamilies(s, families)
    ensures forall other :: IsFamilies(s, other) ==> other == families
  {
    hide FamilyLess, FamilyKeys;
    FamilyLessTotal();
    families := SortedSeq(FamilyKeys(s), FamilyLess);
    forall other | IsFamilies(s, other) ensures other == families {
      AscendingUnique(other, families, FamilyLess);
    }
  }

  /** The key of the definition that applies to key: its own or its family's. */
  ghost function DefFor<V>(s: Schema<V>, key: string): Option<string> {
    if key in s.minTier then Some(key) else Family(s, key)
  }

  ghost predicate IsAllowed<V>(s: Schema<V>, allowed: set<string>, key: string) {
    key in allowed || (Family(s, key).Some? && Family(s, key).value in allowed)
  }

  // ---- ResolveTier ----

  datatype Declared = Text(text: string) | NotText

  /** ResolveTier, on what the two scopes carry under the tier key. */
  function ResolveTier<V>(s: Schema<V>, resource: Option<Declared>, record: Option<Declared>): (r: Option<string>)
    ensures r.Some? ==> TierRank(s, r.value).Some? && Coalesce(record, resource) == Some(Text(r.value))
    ensures r.None? ==> forall t :: Coalesce(record, resource) == Some(Text(t)) ==> TierRank(s, t).None?
  {
    var raw := if record.Some? then record else resource;
    if raw.None? || raw.value.NotText? || TierRank(s, raw.value.text).None? then None else Some(raw.value.text)
  }

  // ---- EvaluateEvent ----

  datatype EventDef = EventDef(found: bool, allowed: set<string>, required: seq<string>)
  datatype Mode = Strip | Reject
  datatype Decision<V> = Accepted(tier: string, kept: map<string, V>, dropped: seq<string>) | Rejected

  function EffectiveRank<V>(s: Schema<V>, declared: string, ceiling: int): int {
    var d := RankOrZero(TierRank(s, declared));
    if ceiling < d then ceiling else d
  }

  /** Whether one attribute is kept at an effective rank. */
  ghost predicate Keeps<V>(s: Schema<V>, allowed: set<string>, rank: int, k: string, v: V) {
    if !IsAllowed(s, allowed, k) then k in s.standard
    else
      var d := DefFor(s, k);
      d.Some? && d.value in s.minTier && s.checks(d.value, v) && RankOrZero(TierRank(s, s.minTier[d.value])) <= rank
  }

  ghost function Kept<V>(s: Schema<V>, allowed: set<string>, rank: int, attrs: map<string, V>): map<string, V> {
    map k | k in attrs && k != TIER_KEY && Keeps(s, allowed, rank, k, attrs[k]) :: attrs[k]
  }

  ghost function DroppedKeys<V>(s: Schema<V>, allowed: set<string>, rank: int, attrs: map<string, V>): set<string> {
    set k | k in attrs && k != TIER_KEY && !Keeps(s, allowed, rank, k, attrs[k])
  }

  /** The record passes: a known name and ceiling, no overclaim under Reject, and every
      required attribute kept. */
  ghost predicate Passes<V>(s: Schema<V>, def: EventDef, declared: string, ceiling: string, mode: Mode, attrs: map<string, V>) {
    && def.found && TierRank(s, ceiling).Some?
    && !(mode == Reject && RankOrZero(TierRank(s, declared)) > TierRank(s, ceiling).value)
    && forall k :: k in def.required ==> k in Kept(s, def.allowed, EffectiveRank(s, declared, TierRank(s, ceiling).value), attrs)
  }

  method KeepsOne<V>(s: Schema<V>, families: seq<string>, allowed: set<string>, rank: int, k: string, v: V) returns (keep: bool)
    requires IsFamilies(s, families)
    ensures keep == Keeps(s, allowed, rank, k, v)
  {
    hide Family, IsFamilies, RankIn;
    var family := FamilyOf(s, families, k);
    if !(k in allowed || (family.Some? && family.value in allowed)) {
      return k in s.standard;
    }
    var d := if k in s.minTier then Some(k) else family;
    if d.None? || d.value !in s.minTier { return false; }
    if !s.checks(d.value, v) { return false; }
    var minRank := RankOrZero(TierRank(s, s.minTier[d.value]));
    keep := !(minRank > rank);
  }

  /** An accepted record's kept keys, dropped keys and tier key partition the input, no key is
      dropped twice, and kept values are the input's. */
  ghost predicate Partitioned<V>(r: Decision<V>, attrs: map<string, V>)
    requires r.Accepted?
  {
    var dropped := set k | k in r.dropped;
    && r.kept.Keys + dropped + {TIER_KEY} * attrs.Keys == attrs.Keys
    && r.kept.Keys !! dropped && TIER_KEY !in r.kept && TIER_KEY !in dropped && |dropped| == |r.dropped|
    && forall k :: k in r.kept ==> r.kept[k] == attrs[k]
  }

  lemma {:induction false} KeysPartitioned<V>(s: Schema<V>, allowed: set<string>, rank: int, attrs: map<string, V>, r: Decision<V>)
    requires r.Accepted? && r.kept == Kept(s, allowed, rank, attrs) && Distinct(r.dropped)
    requires forall k :: k in r.dropped <==> k in DroppedKeys(s, allowed, rank, attrs)
    ensures Partitioned(r, attrs)
  {
    hide Kept, DroppedKeys;
    KeptOrDropped(s, allowed, rank, attrs);
    assert (set k | k in r.dropped) == DroppedKeys(s, allowed, rank, attrs);
    DistinctSize(r.dropped);
  }

  lemma {:induction false} KeptOrDropped<V>(s: Schema<V>, allowed: set<string>, rank: int, attrs: map<string, V>)
    ensures var kept, dropped := Kept(s, allowed, rank, attrs), DroppedKeys(s, allowed, rank, attrs);
            && kept.Keys + dropped + {TIER_KEY} * attrs.Keys == attrs.Keys
            && kept.Keys !! dropped && TIER_KEY !in kept && TIER_KEY !in dropped
            && forall k :: k in kept ==> kept[k] == attrs[k]
  {
    hide Keeps;
  }

  /** EvaluateEvent */
  method EvaluateEvent<V>(s: Schema<V>, families: seq<string>, def: EventDef, declared: string, ceiling: string, mode: Mode, attrs: map<string, V>)
    returns (r: Decision<V>)
    requires IsFamilies(s, families)
    ensures r.Accepted? <==> Passes(s, def, declared, ceiling, mode, attrs)
    ensures !def.found || TierRank(s, ceiling).None? ==> r.Rejected?
    ensures r.Accepted? ==> forall k :: k in def.required ==> k in r.kept
    ensures r.Accepted? ==>
              var rank := EffectiveRank(s, declared, TierRank(s, ceiling).value);
              && r.tier == NameForRank(s.tiers, rank)
              && r.kept == Kept(s, def.allowed, rank, attrs)
              && (forall k :: k in r.dropped <==> k in DroppedKeys(s, def.allowed, rank, attrs)) && Distinct(r.dropped)
    ensures r.Accepted? ==> Partitioned(r, attrs)
  {
    hide Keeps, IsFamilies, RankIn, Kept, DroppedKeys;
    if !def.found { return Rejected; }
    var declaredRank, ceilingRank := RankOrZero(TierRank(s, declared)), TierRank(s, ceiling);
    if ceilingRank.None? { return Rejected; }
    if declaredRank > ceilingRank.value && mode == Reject { return Rejected; }
    var rank := declaredRank;
    if ceilingRank.value < rank { rank := ceilingRank.value; }
    var tier := TierNameForRank(s.tiers, rank);
    var kept, dropped := Filter(s, families, def.allowed, rank, attrs);
    for i := 0 to |def.required|
      invariant forall j :: 0 <= j < i ==> def.required[j] in kept
    {
      assert def.required[i] in def.required;
      if def.required[i] !in kept { return Rejected; }
    }
    r := Accepted(tier, kept, dropped);
    KeysPartitioned(s, def.allowed, rank, attrs, r);
  }

  /** The loop over the attributes, in any order. */
  method Filter<V>(s: Schema<V>, families: seq<string>, allowed: set<string>, rank: int, attrs: map<string, V>)
    returns (kept: map<string, V>, dropped: seq<string>)
    requires IsFamilies(s, families)
    ensures kept == Kept(s, allowed, rank, attrs)
    ensures (forall k :: k in dropped <==> k in DroppedKeys(s, allowed, rank, attrs)) && Distinct(dropped)
  {
    hide Keeps, IsFamilies;
    kept, dropped := map[], [];
    var todo := attrs.Keys;
    while todo != {}
      invariant todo <= attrs.Keys
      invariant kept == map k | k in Kept(s, allowed, rank, attrs) && k !in todo :: attrs[k]
      invariant forall k :: k in dropped <==> k in DroppedKeys(s, allowed, rank, attrs) && k !in todo
      invariant Distinct(dropped)
    {
      var k :| k in todo;
      var v := attrs[k];
      if k != TIER_KEY {
        var keep := KeepsOne(s, families, allowed, rank, k, v);
        if keep { kept := kept[k := v]; } else { dropped := dropped + [k]; }
      }
      todo := todo - {k};
    }
  }

  // ---- What a decision guarantees ----

  /** d is the key of the definition of k: its own, or else its longest matching family's. */
  ghost predicate Defines<V>(s: Schema<V>, k: string, d: string) {
    d in s.minTier && if k in s.minTier then d == k else Longest(s, k, d)
  }

  /** An attribute the event or its longest family allows is kept exactly when it satisfies its
      definition and needs no tier above the declared one or the tenant's ceiling; any other
      exactly when it is standard. */
  lemma {:induction false} KeptWithinTier<V>(s: Schema<V>, allowed: set<string>, declared: string, ceiling: int, attrs: map<string, V>, k: string)
    requires k in attrs && k != TIER_KEY
    ensures k in Kept(s, allowed, EffectiveRank(s, declared, ceiling), attrs) <==>
            if k in allowed || (k !in s.minTier && exists f :: Longest(s, k, f) && f in allowed)
            then exists d :: Defines(s, k, d) && s.checks(d, attrs[k])
                   && var need := RankOrZero(TierRank(s, s.minTier[d]));
                      need <= RankOrZero(TierRank(s, declared)) && need <= ceiling
            else k in s.standard
  {
    hide RankIn, Longest, IsAllowed;
    AllowedExactly(s, allowed, k);
    forall d | Defines(s, k, d) ensures DefFor(s, k) == Some(d) {
      if k !in s.minTier {
        var f :| Longest(s, k, f) && Family(s, k) == Some(f);
        LongestUnique(s, k, d, f);
      }
    }
    if DefFor(s, k).Some? { DefDefines(s, k); }
  }

  /** Allowed by the event's own list, or through its longest matching family. */
  lemma {:induction false} AllowedExactly<V>(s: Schema<V>, allowed: set<string>, k: string)
    ensures IsAllowed(s, allowed, k) <==> k in allowed || (k !in s.minTier && exists f :: Longest(s, k, f) && f in allowed)
  {
    hide Longest;
    forall f | k !in s.minTier && Longest(s, k, f) ensures Family(s, k) == Some(f) {
      var g :| Longest(s, k, g) && Family(s, k) == Some(g);
      LongestUnique(s, k, f, g);
    }
  }

  lemma {:induction false} DefDefines<V>(s: Schema<V>, k: string)
    requires DefFor(s, k).Some?
    ensures Defines(s, k, DefFor(s, k).value)
  {
    if k !in s.minTier {
      var f :| Longest(s, k, f) && Family(s, k) == Some(f);
    }
  }

  /** In strip mode more consent never loses anything: raising the declared tier or the
      ceiling keeps a superset, and never turns acceptance into rejection. */
  lemma {:induction false} MoreConsentKeepsMore<V>(s: Schema<V>, def: EventDef, d1: string, c1: string, d2: string, c2: string, attrs: map<string, V>)
    requires RankOrZero(TierRank(s, d1)) <= RankOrZero(TierRank(s, d2))
    requires TierRank(s, c1).Some? && TierRank(s, c2).Some? && TierRank(s, c1).value <= TierRank(s, c2).value
    ensures var k1 := Kept(s, def.allowed, EffectiveRank(s, d1, TierRank(s, c1).value), attrs);
            var k2 := Kept(s, def.allowed, EffectiveRank(s, d2, TierRank(s, c2).value), attrs);
            && k1.Keys <= k2.Keys && (forall k :: k in k1 ==> k1[k] == k2[k])
            && (Passes(s, def, d1, c1, Strip, attrs) ==> Passes(s, def, d2, c2, Strip, attrs))
  {
    hide RankIn, IsAllowed, DefFor;
  }

  /** Reject mode is strip mode, less the records that claim more than the ceiling. */
  lemma {:induction false} RejectModeExactly<V>(s: Schema<V>, def: EventDef, declared: string, ceiling: string, attrs: map<string, V>)
    ensures Passes(s, def, declared, ceiling, Reject, attrs) <==>
            Passes(s, def, declared, ceiling, Strip, attrs) && RankOrZero(TierRank(s, declared)) <= TierRank(s, ceiling).value
  {
    hide Kept, RankIn;
  }

  /** With distinct tier names, the reported tier is one of the effective rank. */
  lemma {:induction false} ReportedTier<V>(s: Schema<V>, declared: string, ceiling: string)
    requires forall i, j :: 0 <= i < j < |s.tiers| ==> s.tiers[i].name != s.tiers[j].name
    requires TierRank(s, declared).Some? && TierRank(s, ceiling).Some?
    ensures var rank := EffectiveRank(s, declared, TierRank(s, ceiling).value);
            TierRank(s, NameForRank(s.tiers, rank)) == Some(rank)
  {
    var rank := EffectiveRank(s, declared, TierRank(s, ceiling).value);
    var i := RankIndex(s.tiers, if TierRank(s, ceiling).value < TierRank(s, declared).value then ceiling else declared);
    var j := NameIndex(s.tiers, rank, i);
    IndexRank(s.tiers, j);
  }

  lemma {:induction false} RankIndex(tiers: seq<Tier>, name: string) returns (i: nat)
    requires RankIn(tiers, name).Some?
    ensures i < |tiers| && tiers[i].name == name && tiers[i].rank == RankIn(tiers, name).value
  {
    i := |tiers| - 1;
    if tiers[i].name != name { i := RankIndex(tiers[..i], name); }
  }

  lemma {:induction false} NameIndex(tiers: seq<Tier>, rank: int, i: nat) returns (j: nat)
    requires i < |tiers| && tiers[i].rank == rank
    ensures j < |tiers| && tiers[j].rank == rank && tiers[j].name == NameForRank(tiers, rank)
  {
    j := 0;
    if tiers[0].rank != rank {
      j := NameIndex(tiers[1..], rank, i - 1);
      j := j + 1;
    }
  }

  lemma {:induction false} IndexRank(tiers: seq<Tier>, i: nat)
    requires i < |tiers| && forall i, j :: 0 <= i < j < |tiers| ==> tiers[i].name != tiers[j].name
    ensures RankIn(tiers, tiers[i].name) == Some(tiers[i].rank)
  {
    if i < |tiers| - 1 {
      var init := tiers[..|tiers| - 1];
      assert tiers[i].name != tiers[|tiers| - 1].name && init[i] == tiers[i];
      IndexRank(init, i);
    }
  }
}
