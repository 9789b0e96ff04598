/** The dimension tuple codec (internal/storage/dims.go) and the two readers of a stored
    label: DimValue in Go, and the SQL expression dimExpr builds (query_dims.go). */
module Dims {
  import opened Prelude
  import opened Sorting
  import opened Text
  import opened Vocabulary
  import opened GroupPlan

  const LABEL_KEY := "label"

  function Pair(k: string, v: string): string { k + "=" + v }

  function PairsOf(keys: seq<string>, d: map<string, string>): seq<string>
    requires forall k :: k in keys ==> k in d
  {
    seq(|keys|, i requires 0 <= i < |keys| => Pair(keys[i], d[keys[i]]))
  }

  /** The canonical tuple of d. */
  function Tuple(d: map<string, string>): string {
    var keys := SortedNames(d.Keys);
    assert forall k :: k in keys ==> k in Elements(keys);
    Join(PairsOf(keys, d), ';')
  }

  /** FormatDims */
  method FormatDims(d: map<string, string>) returns (b: string)
    ensures b == Tuple(d)
  {
    hide SortedNames, Join, PairsOf;
    var keys := SortedNames(d.Keys);
    assert forall k :: k in keys ==> k in Elements(keys);
    b := "";
    JoinNothing(keys, d);
    for i := 0 to |keys|
      invariant b == Join(PairsUpTo(keys, d, i), ';')
    {
      JoinNext(keys, d, i);
      ghost var was := b;
      if i > 0 { b := b + ";"; }
      ghost var lead := b;
      b := b + keys[i];
      b := b + "=";
      b := b + d[keys[i]];
      assert b == lead + Pair(keys[i], d[keys[i]]);
    }
    assert keys[..|keys|] == keys;
  }

  ghost function PairsUpTo(keys: seq<string>, d: map<string, string>, i: nat): seq<string>
    requires i <= |keys| && forall k :: k in keys ==> k in d
  {
    assert forall k :: k in keys[..i] ==> k in keys;
    PairsOf(keys[..i], d)
  }

  lemma {:induction false} JoinNothing(keys: seq<string>, d: map<string, string>)
    requires forall k :: k in keys ==> k in d
    ensures Join(PairsUpTo(keys, d, 0), ';') == ""
  {}

  lemma {:induction false} JoinNext(keys: seq<string>, d: map<string, string>, i: nat)
    requires i < |keys| && forall k :: k in keys ==> k in d
    ensures Join(PairsUpTo(keys, d, i + 1), ';') == Join(PairsUpTo(keys, d, i), ';') + (if i == 0 then "" else ";") + Pair(keys[i], d[keys[i]])
  {
    var pair := Pair(keys[i], d[keys[i]]);
    JoinLast(PairsUpTo(keys, d, i), pair, ';');
    assert PairsUpTo(keys, d, i + 1) == PairsUpTo(keys, d, i) + [pair];
  }

  lemma {:induction false} JoinLast(parts: seq<string>, p: string, sep: char)
    ensures Join(parts + [p], sep) == Join(parts, sep) + (if parts == [] then "" else [sep]) + p
  {
    if |parts| == 1 {
      assert (parts + [p])[1..] == [p];
    } else if |parts| > 1 {
      JoinLast(parts[1..], p, sep);
      assert (parts + [p])[1..] == parts[1..] + [p];
    }
  }

  /** What strings.Cut(pair, "=") puts into the map: nothing without "=". */
  function ParsePairs(parts: seq<string>): map<string, string> {
    if parts == [] then map[]
    else
      var init, last := ParsePairs(parts[..|parts| - 1]), parts[|parts| - 1];
      var i := IndexOf(last, '=');
      if i == |last| then init else init[last[..i] := last[i + 1..]]
  }

  function Parse(text: string): map<string, string> {
    if text == "" then map[]
    else if '=' !in text then map[LABEL_KEY := text]
    else ParsePairs(Split(text, ';'))
  }

  /** ParseDims */
  method ParseDims(text: string) returns (dims: map<string, string>)
    ensures dims == Parse(text)
  {
    if text == "" { return map[]; }
    if '=' !in text { return map[LABEL_KEY := text]; }
    dims := map[];
    var parts := Split(text, ';');
    for j := 0 to |parts|
      invariant dims == ParsePairs(parts[..j])
    {
      assert parts[..j + 1][..j] == parts[..j];
      var i := IndexOf(parts[j], '=');
      if i < |parts[j]| {
        dims := dims[parts[j][..i] := parts[j][i + 1..]];
      }
    }
    assert parts[..|parts|] == parts;
  }

  // ---- Round trip ----

  /** Neither separator in a key, and no pair separator in a value. */
  ghost predicate Clean(d: map<string, string>) {
    forall k :: k in d ==> ';' !in k && '=' !in k && ';' !in d[k]
  }

  lemma {:induction false} CutPair(k: string, v: string)
    requires '=' !in k
    ensures IndexOf(Pair(k, v), '=') == |k| < |Pair(k, v)|
    ensures Pair(k, v)[..|k|] == k && Pair(k, v)[|k| + 1..] == v
  {
    IndexOfFirst(k, '=', v);
  }

  lemma {:induction false} ParsePairsOf(keys: seq<string>, d: map<string, string>)
    requires Clean(d) && Distinct(keys) && forall k :: k in keys ==> k in d
    ensures ParsePairs(PairsOf(keys, d)) == map k | k in keys :: d[k]
  {
    hide ParsePairs, PairsOf;
    if keys == [] {
      NoPairs(d);
    } else {
      var init, last := keys[..|keys| - 1], keys[|keys| - 1];
      assert last in keys && forall k :: k in init ==> k in keys;
      ParsePairsOf(init, d);
      PairsPush(keys, d);
      ParsePush(PairsOf(init, d), last, d[last]);
      assert keys == init + [last];
    }
  }

  lemma {:induction false} NoPairs(d: map<string, string>)
    ensures ParsePairs(PairsOf([], d)) == map[]
  {}

  lemma {:induction false} PairsPush(keys: seq<string>, d: map<string, string>)
    requires keys != [] && forall k :: k in keys ==> k in d
    ensures (forall k :: k in keys[..|keys| - 1] ==> k in d) && keys[|keys| - 1] in d
    ensures PairsOf(keys, d) == PairsOf(keys[..|keys| - 1], d) + [Pair(keys[|keys| - 1], d[keys[|keys| - 1]])]
  {}

  lemma {:induction false} ParsePush(parts: seq<string>, k: string, v: string)
    requires '=' !in k
    ensures ParsePairs(parts + [Pair(k, v)]) == ParsePairs(parts)[k := v]
  {
    hide IndexOf, Pair;
    CutPair(k, v);
    assert (parts + [Pair(k, v)])[..|parts|] == parts;
  }

  lemma {:induction false} JoinHas(parts: seq<string>, i: nat, c: char)
    requires i < |parts| && c in parts[i]
    ensures c in Join(parts, ';')
  {
    if |parts| > 1 && i > 0 { JoinHas(parts[1..], i - 1, c); }
  }

  lemma {:induction false} ParsePairsClean(parts: seq<string>)
    requires forall p :: p in parts ==> ';' !in p
    ensures Clean(ParsePairs(parts))
  {
    if parts != [] {
      var init, last := parts[..|parts| - 1], parts[|parts| - 1];
      assert last in parts && forall p :: p in init ==> p in parts;
      ParsePairsClean(init);
    }
  }

  lemma {:induction false} TupleHasEquals(d: map<string, string>)
    requires d != map[]
    ensures '=' in Tuple(d)
  {
    hide SortedNames;
    var keys := SortedNames(d.Keys);
    assert forall k :: k in keys ==> k in Elements(keys);
    assert d.Keys != {} && |keys| > 0;
    assert '=' in PairsOf(keys, d)[0];
    JoinHas(PairsOf(keys, d), 0, '=');
  }

  lemma {:induction false} TupleParses(d: map<string, string>)
    requires Clean(d)
    ensures Parse(Tuple(d)) == d
  {
    hide SortedNames, Distinct;
    var keys := SortedNames(d.Keys);
    SortedNamesDistinct(d.Keys);
    assert forall k :: k in keys <==> k in Elements(keys);
    if d == map[] {
      assert d.Keys == {} && keys == [];
    } else {
      TupleHasEquals(d);
      var pairs := PairsOf(keys, d);
      assert d.Keys != {} && |pairs| > 0;
      forall p | p in pairs ensures ';' !in p {
        var i :| 0 <= i < |keys| && p == Pair(keys[i], d[keys[i]]);
        assert keys[i] in keys;
      }
      SplitJoin(pairs, ';');
      ParsePairsOf(keys, d);
      assert (map k | k in keys :: d[k]) == d;
    }
  }

  /** Parsing gives back exactly the maps whose keys and values avoid the separators; maps of
      identifiers are such maps. */
  lemma {:induction false} RoundTrip(d: map<string, string>)
    ensures Parse(Tuple(d)) == d <==> Clean(d)
  {
    if Clean(d) {
      TupleParses(d);
    } else {
      TupleHasEquals(d);
      SplitParts(Tuple(d), ';');
      ParsePairsClean(Split(Tuple(d), ';'));
    }
  }

  /** Distinct dimension sets never share a label. */
  lemma {:induction false} TupleInjective(a: map<string, string>, b: map<string, string>)
    requires Clean(a) && Clean(b) && Tuple(a) == Tuple(b)
    ensures a == b
  {
    TupleParses(a);
    TupleParses(b);
  }

  /** dimIdentifier: ^[a-z0-9][a-z0-9._-]{0,63}$ */
  predicate Identifier(s: string) {
    && 0 < |s| <= 64
    && (IsDigit(s[0]) || 'a' <= s[0] <= 'z')
    && forall i :: 0 <= i < |s| ==> IsDigit(s[i]) || 'a' <= s[i] <= 'z' || s[i] == '.' || s[i] == '_' || s[i] == '-'
  }

  lemma {:induction false} IdentifiersClean(d: map<string, string>)
    requires forall k :: k in d ==> Identifier(k) && Identifier(d[k])
    ensures Clean(d) && Parse(Tuple(d)) == d
  {
    TupleParses(d);
  }

  /** Folding some values to "other" keeps the keys, and the label stays the canonical tuple
      of what it now means. */
  function Folded(d: map<string, string>, fold: set<string>): map<string, string> {
    map k | k in d :: if k in fold then OTHER else d[k]
  }

  /** What ParseDims yields never holds a separator, whatever it was given; a label without
      '=' that holds ';' is the exception. */
  lemma {:induction false} ParseClean(text: string)
    requires '=' in text
    ensures Clean(Parse(text))
  {
    SplitParts(text, ';');
    ParsePairsClean(Split(text, ';'));
  }

  lemma {:induction false} FoldedClean(d: map<string, string>, fold: set<string>)
    requires Clean(d)
    ensures Clean(Folded(d, fold))
  {
    assert ';' !in OTHER;
  }

  lemma {:induction false} FoldedTuple(text: string, d: map<string, string>, fold: set<string>)
    requires Clean(d) && text == Tuple(d)
    ensures var e := Folded(Parse(text), fold);
            && e.Keys == d.Keys && Clean(e) && Parse(Tuple(e)) == e
            && forall k :: k in d ==> e[k] == if k in fold then OTHER else d[k]
  {
    hide Tuple, Parse;
    TupleParses(d);
    assert ';' !in OTHER;
    assert Clean(Folded(d, fold));
    TupleParses(Folded(d, fold));
  }

  // ---- Two readers of one label ----

  /** DimValue; None is ok == false */
  function DimValue(text: string, key: string): Option<string> {
    if text == OTHER then Some(OTHER)
    else if key in Parse(text) then Some(Parse(text)[key]) else None
  }

  /** substring(text from '(?:^|;)key=([^;]*)'): scan left to right; atStart says that what
      came before is the start of the text or a ";". */
  function Search(text: string, key: string, atStart: bool): Option<string> {
    if atStart && key + "=" <= text then Some(text[|key| + 1..][..IndexOf(text[|key| + 1..], ';')])
    else if text == "" then None
    else Search(text[1..], key, text[0] == ';')
  }

  /** The CASE expression dimExpr builds, evaluated; None is NULL. */
  function DimExpr(text: string, key: string): Option<string> {
    if text == OTHER then Some(OTHER)
    else if '=' !in text then (if key == LABEL_KEY then Some(text) else None)
    else Search(text, key, true)
  }

  ghost predicate ValidKey(key: string) { ';' !in key && '=' !in key }

  /** The value of the first pair with that key. */
  function FirstValue(parts: seq<string>, key: string): Option<string> {
    if parts == [] then None
    else if key + "=" <= parts[0] then Some(parts[0][|key| + 1..])
    else FirstValue(parts[1..], key)
  }

  /** The value of the last pair with that key. */
  function LastValue(parts: seq<string>, key: string): Option<string> {
    if parts == [] then None
    else if key + "=" <= parts[|parts| - 1] then Some(parts[|parts| - 1][|key| + 1..])
    else LastValue(parts[..|parts| - 1], key)
  }

  lemma {:induction false} SearchSkips(text: string, key: string)
    ensures var i := IndexOf(text, ';');
            Search(text, key, false) == if i == |text| then None else Search(text[i + 1..], key, true)
  {
    if text != "" && text[0] != ';' {
      SearchSkips(text[1..], key);
      var i := IndexOf(text[1..], ';');
      if i < |text[1..]| { assert text[1..][i + 1..] == text[i + 2..]; }
    }
  }

  lemma {:induction false} PrefixOfFirst(text: string, key: string)
    requires ValidKey(key)
    ensures var i := IndexOf(text, ';');
            && (key + "=" <= text <==> key + "=" <= text[..i])
            && (key + "=" <= text ==> i > |key| && text[..i][|key| + 1..] == text[|key| + 1..][..IndexOf(text[|key| + 1..], ';')])
  {
    var k, i := key + "=", IndexOf(text, ';');
    assert ';' !in k;
    if k <= text {
      var rest := text[|k|..];
      assert text == k + rest;
      IndexOfAfter(k, rest);
    }
  }

  lemma {:induction false} IndexOfAfter(a: string, b: string)
    requires ';' !in a
    ensures IndexOf(a + b, ';') == |a| + IndexOf(b, ';')
    ensures (a + b)[..|a| + IndexOf(b, ';')] == a + b[..IndexOf(b, ';')]
  {
    if a == "" {
      assert a + b == b;
    } else {
      assert a[0] in a && forall c :: c in a[1..] ==> c in a;
      IndexOfAfter(a[1..], b);
      assert (a + b)[1..] == a[1..] + b;
    }
  }

  lemma {:induction false} SearchMisses(text: string, key: string)
    requires !(key + "=" <= text)
    ensures var i := IndexOf(text, ';');
            Search(text, key, true) == if i == |text| then None else Search(text[i + 1..], key, true)
  {
    if text != "" && text[0] != ';' {
      SearchSkips(text[1..], key);
      var j := IndexOf(text[1..], ';');
      assert IndexOf(text, ';') == j + 1;
      if j < |text[1..]| { assert text[1..][j + 1..] == text[j + 2..]; }
    }
  }

  lemma {:induction false} FirstValueStep(text: string, key: string)
    ensures var i := IndexOf(text, ';');
            FirstValue(Split(text, ';'), key) ==
              if key + "=" <= text[..i] then Some(text[..i][|key| + 1..])
              else if i == |text| then None else FirstValue(Split(text[i + 1..], ';'), key)
  {
    var i, parts := IndexOf(text, ';'), Split(text, ';');
    assert i == |text| ==> text[..i] == text && parts[1..] == [];
    assert i < |text| ==> parts[1..] == Split(text[i + 1..], ';');
  }

  /** The SQL expression reads the first pair with the key … */
  lemma {:induction false} SearchIsFirst(text: string, key: string)
    requires ValidKey(key)
    ensures Search(text, key, true) == FirstValue(Split(text, ';'), key)
    decreases |text|
  {
    hide FirstValue, Split, IndexOf;
    PrefixOfFirst(text, key);
    FirstValueStep(text, key);
    if !(key + "=" <= text) {
      SearchMisses(text, key);
      var i := IndexOf(text, ';');
      if i < |text| { SearchIsFirst(text[i + 1..], key); }
    }
  }

  /** … and ParseDims keeps the last. */
  lemma {:induction false} ParsePairsIsLast(parts: seq<string>, key: string)
    requires ValidKey(key)
    ensures LastValue(parts, key) == if key in ParsePairs(parts) then Some(ParsePairs(parts)[key]) else None
  {
    if parts != [] {
      var init, last := parts[..|parts| - 1], parts[|parts| - 1];
      ParsePairsIsLast(init, key);
      var i := IndexOf(last, '=');
      if key + "=" <= last {
        assert last == key + ['='] + last[|key| + 1..];
        IndexOfFirst(key, '=', last[|key| + 1..]);
        assert i == |key| && last[..i] == key;
      } else if i < |last| {
        assert last == last[..i] + "=" + last[i + 1..];
        assert last[..i] + "=" <= last;
      }
    }
  }

  /** On any label at all the readers differ exactly where the empty label is asked for
      "label", or where the first and last pair with the key disagree. */
  lemma {:induction false} ReadersDiffer(text: string, key: string)
    requires ValidKey(key)
    ensures DimExpr(text, key) == DimValue(text, key)
            <==> !(text == "" && key == LABEL_KEY) && ('=' in text ==> FirstValue(Split(text, ';'), key) == LastValue(Split(text, ';'), key))
  {
    hide ParsePairs, FirstValue, LastValue, Split;
    if text != OTHER && '=' in text {
      SearchIsFirst(text, key);
      ParsePairsIsLast(Split(text, ';'), key);
    }
    assert '=' !in OTHER;
  }

  /** A label ingest stores: a plain one, or the canonical tuple of some dimensions. */
  ghost predicate Stored(text: string) {
    || (text != "" && '=' !in text)
    || (exists d :: d != map[] && Clean(d) && text == Tuple(d))
  }

  lemma {:induction false} FirstOfTuple(keys: seq<string>, d: map<string, string>, key: string)
    requires Clean(d) && ValidKey(key) && forall k :: k in keys ==> k in d
    ensures FirstValue(PairsOf(keys, d), key) == if key in keys then Some(d[key]) else None
  {
    if keys != [] {
      assert keys[0] in keys && forall k :: k in keys[1..] ==> k in keys;
      FirstOfTuple(keys[1..], d, key);
      assert PairsOf(keys, d)[1..] == PairsOf(keys[1..], d);
      CutPair(keys[0], d[keys[0]]);
      PairKey(keys[0], d[keys[0]], key);
      assert keys == [keys[0]] + keys[1..];
    }
  }

  lemma {:induction false} PairKey(k: string, v: string, key: string)
    requires '=' !in k && '=' !in key
    ensures key + "=" <= Pair(k, v) <==> k == key
    ensures k == key ==> Pair(k, v)[|key| + 1..] == v
  {
    if key + "=" <= Pair(k, v) {
      assert Pair(k, v) == key + ['='] + Pair(k, v)[|key| + 1..];
      IndexOfFirst(key, '=', Pair(k, v)[|key| + 1..]);
      CutPair(k, v);
      assert Pair(k, v)[..|key|] == key;
    }
  }

  /** On every stored label the SQL reads what Go reads, for every key. */
  lemma {:induction false} ReadersAgree(text: string, key: string)
    requires Stored(text) && ValidKey(key)
    ensures DimExpr(text, key) == DimValue(text, key)
  {
    if '=' in text {
      var d :| d != map[] && Clean(d) && text == Tuple(d);
      TupleReads(d, key);
    }
  }

  lemma {:induction false} TupleReads(d: map<string, string>, key: string)
    requires d != map[] && Clean(d) && ValidKey(key)
    ensures DimExpr(Tuple(d), key) == DimValue(Tuple(d), key) == if key in d then Some(d[key]) else None
  {
    hide SortedNames, Parse;
    var keys := SortedNames(d.Keys);
    assert forall k :: k in keys <==> k in Elements(keys);
    TupleHasEquals(d);
    TupleParses(d);
    assert '=' !in OTHER;
    SearchIsFirst(Tuple(d), key);
    TupleSplits(d);
    FirstOfTuple(keys, d, key);
  }

  lemma {:induction false} TupleSplits(d: map<string, string>)
    requires d != map[] && Clean(d)
    ensures var keys := SortedNames(d.Keys);
            (forall k :: k in keys ==> k in d) && Split(Tuple(d), ';') == PairsOf(keys, d)
  {
    hide SortedNames;
    var keys := SortedNames(d.Keys);
    assert forall k :: k in keys ==> k in Elements(keys);
    var pairs := PairsOf(keys, d);
    assert d.Keys != {} && |pairs| > 0;
    forall p | p in pairs ensures ';' !in p {
      var i :| 0 <= i < |keys| && p == Pair(keys[i], d[keys[i]]);
      assert keys[i] in keys;
    }
    SplitJoin(pairs, ';');
  }
}
