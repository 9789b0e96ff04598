/** Version comparison (internal/storage/semver.go) against section 11 of Semantic
    Versioning 2.0.0. */
module Semver {
  import opened Prelude
  import opened Text

  /** unicode.IsSpace */
  predicate IsSpace(c: char) {
    || c == '\t' || c == '\n' || c == '\U{B}' || c == '\U{C}' || c == '\r' || c == ' '
    || c == '\U{85}' || c == '\U{A0}' || c == '\U{1680}' || '\U{2000}' <= c <= '\U{200A}'
    || c == '\U{2028}' || c == '\U{2029}' || c == '\U{202F}' || c == '\U{205F}' || c == '\U{3000}'
  }

  /** strings.TrimSpace */
  function TrimSpace(s: string): string {
    if s == "" then ""
    else if IsSpace(s[0]) then TrimSpace(s[1..])
    else if IsSpace(s[|s| - 1]) then TrimSpace(s[..|s| - 1])
    else s
  }

  function TrimV(s: string): string {
    if s != "" && s[0] == 'v' then s[1..] else s
  }

  /** strconv.ParseUint(s, 10, 64); None is its error */
  function ParseUint(s: string): Option<nat> {
    if s != "" && AllDigits(s) && Value(s) < UINT64_LIMIT then Some(Value(s)) else None
  }

  /** nums: major, minor, patch. pre: the prerelease identifiers. */
  datatype Parsed = Parsed(nums: seq<nat>, pre: seq<string>)

  function ParseNums(parts: seq<string>): Option<seq<nat>> {
    if parts == [] then Some([])
    else
      var init := ParseNums(parts[..|parts| - 1]);
      var last := ParseUint(parts[|parts| - 1]);
      if init.None? || last.None? then None else Some(init.value + [last.value])
  }

  function Padded(nums: seq<nat>): seq<nat> {
    nums + if |nums| < 3 then seq(3 - |nums|, _ => 0) else []
  }

  function ParseCore(core: string, pre: seq<string>): Option<Parsed> {
    var parts := Split(core, '.');
    if core == "" || |parts| > 3 || ParseNums(parts).None? then None
    else Some(Parsed(Padded(ParseNums(parts).value), pre))
  }

  function Parse(version: string): Option<Parsed> {
    var s := TrimV(TrimSpace(version));
    var t := s[..IndexOf(s, '+')];
    var i := IndexOf(t, '-');
    if i == |t| then ParseCore(t, [])
    else if t[i + 1..] == "" then None
    else ParseCore(t[..i], Split(t[i + 1..], '.'))
  }

  /** parseSemver */
  method ParseSemver(version: string) returns (r: Option<Parsed>)
    ensures r == Parse(version)
  {
    hide TrimSpace, TrimV, Split, ParseUint;
    var s := TrimV(TrimSpace(version));
    s := s[..IndexOf(s, '+')];
    var pre: seq<string> := [];
    var i := IndexOf(s, '-');
    if i < |s| {
      if s[i + 1..] == "" { return None; }
      pre := Split(s[i + 1..], '.');
      s := s[..i];
    }
    var parts := Split(s, '.');
    if s == "" || |parts| > 3 { return None; }
    var nums: seq<nat> := [0, 0, 0];
    for k := 0 to |parts|
      invariant ParseNums(parts[..k]).Some?
      invariant nums == Padded(ParseNums(parts[..k]).value) && |ParseNums(parts[..k]).value| == k
    {
      assert parts[..k + 1][..k] == parts[..k];
      var n := ParseUint(parts[k]);
      if n.None? {
        ParseNumsPrefix(parts, k + 1);
        return None;
      }
      nums := nums[k := n.value];
    }
    assert parts[..|parts|] == parts;
    r := Some(Parsed(nums, pre));
  }

  lemma {:induction false} ParseNumsPrefix(parts: seq<string>, k: nat)
    requires k <= |parts|
    ensures ParseNums(parts).Some? ==> ParseNums(parts[..k]).Some?
  {
    if k < |parts| {
      ParseNumsPrefix(parts[..|parts| - 1], k);
      assert parts[..|parts| - 1][..k] == parts[..k];
    } else {
      assert parts[..k] == parts;
    }
  }

  predicate AllSpace(s: string) { forall i :: 0 <= i < |s| ==> IsSpace(s[i]) }

  lemma {:induction false} TrimSpaceAround(before: string, s: string, after: string)
    requires AllSpace(before) && AllSpace(after)
    ensures TrimSpace(before + s + after) == TrimSpace(s)
    decreases |before| + |after| + |s|
  {
    hide IsSpace;
    var t := before + s + after;
    if before != "" {
      assert t[0] == before[0] && t[1..] == before[1..] + s + after;
      TrimSpaceAround(before[1..], s, after);
    } else if s != "" && IsSpace(s[0]) {
      assert t[0] == s[0] && t[1..] == "" + s[1..] + after;
      TrimSpaceAround("", s[1..], after);
    } else if after != "" {
      assert t[|t| - 1] == after[|after| - 1] && t[..|t| - 1] == "" + s + after[..|after| - 1];
      if s == "" {
        TrimAllSpace(t);
      } else {
        assert t[0] == s[0];
        TrimSpaceAround("", s, after[..|after| - 1]);
      }
    } else {
      assert t == s;
    }
  }

  lemma {:induction false} TrimAllSpace(s: string)
    requires AllSpace(s)
    ensures TrimSpace(s) == ""
  {
    hide IsSpace;
    if s != "" { TrimAllSpace(s[1..]); }
  }

  /** White space around a version changes nothing. */
  lemma {:induction false} SpaceIgnored(before: string, s: string, after: string)
    requires AllSpace(before) && AllSpace(after)
    ensures Parse(before + s + after) == Parse(s)
  {
    hide TrimSpace, ParseCore, TrimV;
    TrimSpaceAround(before, s, after);
  }

  // ---- Comparison ----

  function Sign(less: bool, greater: bool): int {
    if less then -1 else if greater then 1 else 0
  }

  /** A prerelease identifier, as comparePreIdent sees it. */
  datatype Ident = Num(n: nat) | Alnum(s: string)

  function Classify(s: string): Ident {
    if ParseUint(s).Some? then Num(ParseUint(s).value) else Alnum(s)
  }

  function CompareIdents(a: Ident, b: Ident): int {
    if a.Num? && b.Num? then Sign(a.n < b.n, a.n > b.n)
    else if a.Num? then -1
    else if b.Num? then 1
    else StrCompare(a.s, b.s)
  }

  /** comparePreIdent */
  function ComparePreIdent(a: string, b: string): int {
    CompareIdents(Classify(a), Classify(b))
  }

  function ComparePre(a: seq<string>, b: seq<string>): int {
    if a == [] || b == [] then Sign(|a| < |b|, |a| > |b|)
    else
      var c := ComparePreIdent(a[0], b[0]);
      if c != 0 then c else ComparePre(a[1..], b[1..])
  }

  function CompareNums(a: seq<nat>, b: seq<nat>): int
    requires |a| == |b|
  {
    if a == [] then 0
    else if a[0] != b[0] then Sign(a[0] < b[0], true)
    else CompareNums(a[1..], b[1..])
  }

  function CompareParsed(a: Parsed, b: Parsed): int
    requires |a.nums| == |b.nums|
  {
    var c := CompareNums(a.nums, b.nums);
    if c != 0 then c
    else if a.pre == [] || b.pre == [] then Sign(a.pre != [] && b.pre == [], a.pre == [] && b.pre != [])
    else ComparePre(a.pre, b.pre)
  }

  lemma {:induction false} ParseNumsSize(parts: seq<string>)
    ensures ParseNums(parts).Some? ==> |ParseNums(parts).value| == |parts|
  {
    if parts != [] { ParseNumsSize(parts[..|parts| - 1]); }
  }

  lemma {:induction false} ParseSize(s: string)
    ensures Parse(s).Some? ==> |Parse(s).value.nums| == 3
  {
    var u := TrimV(TrimSpace(s));
    var t := u[..IndexOf(u, '+')];
    var i := IndexOf(t, '-');
    ParseNumsSize(Split(t[..i], '.'));
    assert i == |t| ==> t[..i] == t;
  }

  /** compareVersions; None is ok == false */
  function CompareVersions(a: string, b: string): Option<int> {
    var va, vb := Parse(a), Parse(b);
    if va.None? || vb.None? then None
    else
      ParseSize(a);
      ParseSize(b);
      Some(CompareParsed(va.value, vb.value))
  }

  /** compareVersions, loop by loop */
  method CompareVersionStrings(a: string, b: string) returns (r: Option<int>)
    ensures r == CompareVersions(a, b)
  {
    hide Parse, ComparePreIdent;
    var va := ParseSemver(a);
    var vb := ParseSemver(b);
    if va.None? || vb.None? { return None; }
    ParseSize(a);
    ParseSize(b);
    var x, y := va.value, vb.value;
    for i := 0 to 3
      invariant CompareNums(x.nums, y.nums) == CompareNums(x.nums[i..], y.nums[i..])
    {
      if x.nums[i] != y.nums[i] {
        return Some(if x.nums[i] < y.nums[i] then -1 else 1);
      }
    }
    if x.pre == [] && y.pre == [] { return Some(0); }
    if x.pre == [] { return Some(1); }
    if y.pre == [] { return Some(-1); }
    var i := 0;
    while i < |x.pre| && i < |y.pre|
      invariant 0 <= i <= |x.pre| && i <= |y.pre|
      invariant ComparePre(x.pre, y.pre) == ComparePre(x.pre[i..], y.pre[i..])
    {
      var c := ComparePreIdent(x.pre[i], y.pre[i]);
      if c != 0 { return Some(c); }
      i := i + 1;
    }
    r := Some(Sign(|x.pre| < |y.pre|, |x.pre| > |y.pre|));
  }

  /** compareVersionKeys */
  function CompareVersionKeys(a: Option<string>, b: Option<string>): int {
    var ra, rb := KeyRank(a), KeyRank(b);
    if ra != rb then ra - rb
    else if ra == 2 then 0
    else if ra == 0 && CompareVersions(a.value, b.value) != Some(0) && CompareVersions(a.value, b.value).Some?
    then CompareVersions(a.value, b.value).value
    else StrCompare(a.value, b.value)
  }

  function KeyRank(a: Option<string>): (r: int)
    ensures r == 2 <==> a.None?
  {
    if a.None? then 2 else if Parse(a.value).Some? then 0 else 1
  }

  // ---- The orders these comparisons are ----

  lemma {:induction false} StrCompareOrder(a: string, b: string, c: string)
    ensures StrCompare(a, b) == -StrCompare(b, a)
    ensures StrCompare(a, b) == 0 <==> a == b
    ensures StrCompare(a, b) <= 0 && StrCompare(b, c) <= 0 ==> StrCompare(a, c) <= 0
  {
    hide StrLess;
    StrLessStrictTotal();
    assert StrictTotal(StrLess);
    assert !StrLess(a, a) && (a == b || StrLess(a, b) || StrLess(b, a));
  }

  lemma {:induction false} CompareIdentsOrder(a: Ident, b: Ident, c: Ident)
    ensures CompareIdents(a, b) == -CompareIdents(b, a)
    ensures CompareIdents(a, b) == 0 <==> a == b
    ensures CompareIdents(a, b) <= 0 && CompareIdents(b, c) <= 0 ==> CompareIdents(a, c) <= 0
  {
    hide StrCompare;
    if a.Alnum? && b.Alnum? {
      StrCompareOrder(a.s, b.s, if c.Alnum? then c.s else "");
    }
  }

  lemma {:induction false} ComparePreOrder(a: seq<string>, b: seq<string>, c: seq<string>)
    ensures ComparePre(a, b) == -ComparePre(b, a)
    ensures ComparePre(a, b) <= 0 && ComparePre(b, c) <= 0 ==> ComparePre(a, c) <= 0
  {
    hide CompareIdents, Classify;
    if a != [] && b != [] {
      var x, y := Classify(a[0]), Classify(b[0]);
      var z := if c != [] then Classify(c[0]) else x;
      CompareIdentsOrder(x, y, z);
      CompareIdentsOrder(y, z, x);
      CompareIdentsOrder(z, x, y);
      ComparePreOrder(a[1..], b[1..], if c != [] then c[1..] else []);
    }
  }

  lemma {:induction false} CompareNumsOrder(a: seq<nat>, b: seq<nat>, c: seq<nat>)
    requires |a| == |b| == |c|
    ensures CompareNums(a, b) == -CompareNums(b, a)
    ensures CompareNums(a, b) == 0 <==> a == b
    ensures CompareNums(a, b) <= 0 && CompareNums(b, c) <= 0 ==> CompareNums(a, c) <= 0
  {
    if a != [] {
      CompareNumsOrder(a[1..], b[1..], c[1..]);
      assert a == [a[0]] + a[1..] && b == [b[0]] + b[1..];
    }
  }

  lemma {:induction false} CompareParsedOrder(a: Parsed, b: Parsed, c: Parsed)
    requires |a.nums| == |b.nums| == |c.nums|
    ensures CompareParsed(a, b) == -CompareParsed(b, a)
    ensures CompareParsed(a, b) <= 0 && CompareParsed(b, c) <= 0 ==> CompareParsed(a, c) <= 0
  {
    hide ComparePre, CompareNums;
    CompareNumsOrder(a.nums, b.nums, c.nums);
    CompareNumsOrder(b.nums, c.nums, a.nums);
    CompareNumsOrder(c.nums, a.nums, b.nums);
    ComparePreOrder(a.pre, b.pre, c.pre);
  }

  /** On versions that parse, compareVersions is a total preorder. */
  lemma {:induction false} CompareVersionsOrder(a: string, b: string, c: string)
    requires Parse(a).Some? && Parse(b).Some? && Parse(c).Some?
    ensures CompareVersions(a, b).Some? && CompareVersions(b, a).Some? && CompareVersions(b, c).Some? && CompareVersions(a, c).Some?
    ensures CompareVersions(a, b).value == -CompareVersions(b, a).value
    ensures CompareVersions(a, b).value <= 0 && CompareVersions(b, c).value <= 0 ==> CompareVersions(a, c).value <= 0
    ensures CompareVersions(a, a) == Some(0)
  {
    hide Parse, CompareParsed;
    ParseSize(a);
    ParseSize(b);
    ParseSize(c);
    CompareParsedOrder(Parse(a).value, Parse(b).value, Parse(c).value);
    CompareParsedOrder(Parse(a).value, Parse(a).value, Parse(a).value);
  }

  lemma {:induction false} CompareVersionKeysOpposite(a: Option<string>, b: Option<string>)
    ensures CompareVersionKeys(a, b) < 0 <==> CompareVersionKeys(b, a) > 0
    ensures CompareVersionKeys(a, b) == 0 <==> a == b
  {
    hide Parse, CompareVersions, StrCompare;
    if a.Some? && b.Some? {
      StrCompareOrder(a.value, b.value, a.value);
      if KeyRank(a) == 0 && KeyRank(b) == 0 {
        CompareVersionsOrder(a.value, b.value, a.value);
      }
    }
  }

  lemma {:induction false} CompareVersionKeysTransitive(a: Option<string>, b: Option<string>, c: Option<string>)
    requires CompareVersionKeys(a, b) <= 0 && CompareVersionKeys(b, c) <= 0
    ensures CompareVersionKeys(a, c) <= 0
  {
    hide Parse, CompareVersions, StrCompare;
    if a.Some? && b.Some? && c.Some? {
      StrCompareOrder(a.value, b.value, c.value);
      if KeyRank(a) == 0 && KeyRank(b) == 0 && KeyRank(c) == 0 {
        CompareVersionsOrder(a.value, b.value, c.value);
        CompareVersionsOrder(b.value, c.value, a.value);
        CompareVersionsOrder(c.value, a.value, b.value);
      }
    }
  }

  /** compareVersionKeys is a total order: results sorted by it never depend on the order
      rows arrive in. */
  lemma {:induction false} CompareVersionKeysTotal(a: Option<string>, b: Option<string>, c: Option<string>)
    ensures CompareVersionKeys(a, b) < 0 <==> CompareVersionKeys(b, a) > 0
    ensures CompareVersionKeys(a, b) == 0 <==> a == b
    ensures CompareVersionKeys(a, b) <= 0 && CompareVersionKeys(b, c) <= 0 ==> CompareVersionKeys(a, c) <= 0
  {
    hide CompareVersionKeys;
    CompareVersionKeysOpposite(a, b);
    if CompareVersionKeys(a, b) <= 0 && CompareVersionKeys(b, c) <= 0 { CompareVersionKeysTransitive(a, b, c); }
  }

  /** Which order it is: versions that parse first, by precedence, then those that do not, then
      none at all; by the strings themselves where precedence does not tell. */
  lemma {:induction false} CompareVersionKeysExactly(a: Option<string>, b: Option<string>)
    ensures b.None? ==> (CompareVersionKeys(a, b) < 0 <==> a.Some?)
    ensures a.Some? && b.Some? && Parse(a.value).Some? && Parse(b.value).None? ==> CompareVersionKeys(a, b) < 0
    ensures a.Some? && b.Some? && Parse(a.value).Some? && Parse(b.value).Some? ==>
              var c := CompareVersions(a.value, b.value).value;
              CompareVersionKeys(a, b) < 0 <==> c < 0 || (c == 0 && StrLess(a.value, b.value))
    ensures a.Some? && b.Some? && Parse(a.value).None? && Parse(b.value).None? ==>
              (CompareVersionKeys(a, b) < 0 <==> StrLess(a.value, b.value))
  {
    hide Parse, CompareParsed, StrLess;
  }

  // ---- Semantic Versioning 2.0.0 ----

  /** A well-formed version: the identifiers of section 9 and 10, typed. */
  datatype Version = Version(major: nat, minor: nat, patch: nat, pre: seq<Ident>, build: seq<string>)

  predicate IdentChar(c: char) {
    IsDigit(c) || 'A' <= c <= 'Z' || 'a' <= c <= 'z' || c == '-'
  }

  predicate IdentText(s: string) {
    s != "" && forall i :: 0 <= i < |s| ==> IdentChar(s[i])
  }

  ghost predicate WellFormed(v: Version) {
    && (forall x :: x in v.pre && x.Alnum? ==> IdentText(x.s) && !AllDigits(x.s))
    && (forall b :: b in v.build ==> IdentText(b))
  }

  ghost predicate Fits64(v: Version) {
    && v.major < UINT64_LIMIT && v.minor < UINT64_LIMIT && v.patch < UINT64_LIMIT
    && forall x :: x in v.pre && x.Num? ==> x.n < UINT64_LIMIT
  }

  function RenderIdent(x: Ident): string {
    if x.Num? then Decimal(x.n) else x.s
  }

  function RenderPre(pre: seq<Ident>): seq<string> {
    seq(|pre|, i requires 0 <= i < |pre| => RenderIdent(pre[i]))
  }

  /** Numbers in decimal, separated by dots. */
  function Numerals(nums: seq<nat>): seq<string> {
    seq(|nums|, i requires 0 <= i < |nums| => Decimal(nums[i]))
  }

  function Core(nums: seq<nat>): string { Join(Numerals(nums), '.') }

  function PreText(v: Version): string {
    if v.pre == [] then "" else ['-'] + Join(RenderPre(v.pre), '.')
  }

  function BuildText(v: Version): string {
    if v.build == [] then "" else ['+'] + Join(v.build, '.')
  }

  /** A version written with any list of numbers before its prerelease and build. */
  function Written(nums: seq<nat>, v: Version): string { Core(nums) + PreText(v) + BuildText(v) }

  function Render(v: Version): string { Written([v.major, v.minor, v.patch], v) }

  /** Section 11.4: numeric identifiers below alphanumeric ones. */
  ghost predicate IdentLower(a: Ident, b: Ident) {
    match (a, b)
    case (Num(m), Num(n)) => m < n
    case (Num(_), Alnum(_)) => true
    case (Alnum(_), Num(_)) => false
    case (Alnum(s), Alnum(t)) => StrLess(s, t)
  }

  /** Section 11.4: the first differing identifier decides; if there is none, fewer
      identifiers are lower. */
  ghost predicate PreLower(a: seq<Ident>, b: seq<Ident>) {
    || a < b
    || exists i :: 0 <= i < |a| && i < |b| && a[..i] == b[..i] && IdentLower(a[i], b[i])
  }

  /** Section 11: major, minor and patch numerically; then a prerelease is lower than the
      associated normal version. Build metadata does not take part. */
  ghost predicate Lower(a: Version, b: Version) {
    if a.major != b.major then a.major < b.major
    else if a.minor != b.minor then a.minor < b.minor
    else if a.patch != b.patch then a.patch < b.patch
    else if a.pre == [] || b.pre == [] then a.pre != [] && b.pre == []
    else PreLower(a.pre, b.pre)
  }

  lemma {:induction false} ComparePreIsLower(a: seq<Ident>, b: seq<Ident>)
    requires forall x :: x in a + b ==> Classify(RenderIdent(x)) == x
    ensures ComparePre(RenderPre(a), RenderPre(b)) == Sign(PreLower(a, b), PreLower(b, a))
    ensures !(PreLower(a, b) && PreLower(b, a))
    ensures !PreLower(a, b) && !PreLower(b, a) ==> a == b
  {
    hide StrLess, Classify, RenderIdent, PreLower, IdentLower;
    if a == [] || b == [] {
      PreLowerEmpty(a, b);
      PreLowerEmpty(b, a);
    } else {
      assert a[0] in a + b && b[0] in a + b;
      IdentLowerCompare(a[0], b[0]);
      assert forall x :: x in a[1..] + b[1..] ==> x in a + b;
      ComparePreIsLower(a[1..], b[1..]);
      assert RenderPre(a)[1..] == RenderPre(a[1..]) && RenderPre(b)[1..] == RenderPre(b[1..]);
      PreLowerStep(a, b);
      PreLowerStep(b, a);
      assert a == [a[0]] + a[1..] && b == [b[0]] + b[1..];
    }
  }

  lemma {:induction false} IdentLowerCompare(a: Ident, b: Ident)
    ensures CompareIdents(a, b) == Sign(IdentLower(a, b), IdentLower(b, a))
    ensures !(IdentLower(a, b) && IdentLower(b, a))
    ensures !IdentLower(a, b) && !IdentLower(b, a) ==> a == b
  {
    hide StrLess;
    if a.Alnum? && b.Alnum? { StrCompareOrder(a.s, b.s, a.s); }
  }

  lemma {:induction false} PreLowerEmpty(a: seq<Ident>, b: seq<Ident>)
    requires a == [] || b == []
    ensures PreLower(a, b) <==> |a| < |b|
  {}

  lemma {:induction false} PrefixStep(a: seq<Ident>, b: seq<Ident>, i: nat)
    requires i < |a| - 1 && i < |b| - 1 && a[0] == b[0]
    ensures a[1..][..i] == b[1..][..i] <==> a[..i + 1] == b[..i + 1]
  {
    var x, y := a[1..][..i], b[1..][..i];
    assert a[..i + 1] == [a[0]] + x && b[..i + 1] == [b[0]] + y;
    assert ([a[0]] + x)[1..] == x && ([b[0]] + y)[1..] == y;
  }

  lemma {:induction false} PreLowerStep(a: seq<Ident>, b: seq<Ident>)
    requires a != [] && b != []
    ensures PreLower(a, b) <==> IdentLower(a[0], b[0]) || (a[0] == b[0] && PreLower(a[1..], b[1..]))
  {
    hide StrLess;
    if a[0] == b[0] {
      assert a == [a[0]] + a[1..] && b == [b[0]] + b[1..];
      assert a < b <==> a[1..] < b[1..];
      forall i | 0 <= i < |a| - 1 && i < |b| - 1 ensures a[1..][..i] == b[1..][..i] <==> a[..i + 1] == b[..i + 1] {
        PrefixStep(a, b, i);
      }
      if i :| 0 <= i < |a[1..]| && i < |b[1..]| && a[1..][..i] == b[1..][..i] && IdentLower(a[1..][i], b[1..][i]) {
        assert a[..i + 1] == b[..i + 1] && IdentLower(a[i + 1], b[i + 1]);
      }
      if i :| 0 <= i < |a| && i < |b| && a[..i] == b[..i] && IdentLower(a[i], b[i]) {
        if i > 0 { assert IdentLower(a[1..][i - 1], b[1..][i - 1]); }
      }
    } else {
      assert !(a < b);
      assert forall i :: 0 < i < |a| && i < |b| ==> a[..i][0] == a[0] && b[..i][0] == b[0];
      assert a[..0] == b[..0];
    }
  }

  // ---- What parses ----

  function Optional(mark: char, o: Option<string>): string { if o.None? then "" else [mark] + o.value }

  /** A version is cut at its first '+', and what is before that at its first '-'. */
  lemma {:induction false} ShapeParses(s: string, core: string, pre: Option<string>, build: Option<string>)
    requires TrimV(TrimSpace(s)) == core + Optional('-', pre) + Optional('+', build)
    requires '-' !in core && '+' !in core && (pre.Some? ==> '+' !in pre.value)
    ensures Parse(s) == if pre == Some("") then None else ParseCore(core, if pre.None? then [] else Split(pre.value, '.'))
  {
    hide TrimSpace, TrimV, IndexOf, Split, ParseCore;
    var t := core + Optional('-', pre);
    Cut(t, '+', build);
    Cut(core, '-', pre);
    if pre.Some? {
      assert t[|core|] == '-' && t[|core| + 1..] == pre.value && t[..|core|] == core;
    } else {
      assert t == core;
    }
  }

  lemma {:induction false} Cut(a: string, mark: char, o: Option<string>)
    requires mark !in a
    ensures IndexOf(a + Optional(mark, o), mark) == |a| && (a + Optional(mark, o))[..|a|] == a
  {
    hide IndexOf;
    IndexOfFirst(a, mark, if o.Some? then o.value else "");
    assert o.None? ==> a + Optional(mark, o) == a;
    assert o.Some? ==> a + Optional(mark, o) == a + [mark] + o.value;
  }

  predicate IsNumber(s: string) { s != "" && AllDigits(s) && Value(s) < UINT64_LIMIT }

  /** One to three numbers with dots between, then perhaps '-' and a prerelease that is not
      empty, then perhaps '+' and anything. */
  ghost predicate Grammar(t: string, parts: seq<string>, pre: Option<string>, build: Option<string>) {
    && t == Join(parts, '.') + Optional('-', pre) + Optional('+', build)
    && 1 <= |parts| <= 3 && (forall i :: 0 <= i < |parts| ==> IsNumber(parts[i]))
    && (pre.Some? ==> pre.value != "" && '+' !in pre.value)
  }

  lemma {:induction false} ParseNumsExactly(parts: seq<string>)
    ensures ParseNums(parts).Some? <==> forall i :: 0 <= i < |parts| ==> IsNumber(parts[i])
  {
    if parts != [] {
      var init := parts[..|parts| - 1];
      ParseNumsExactly(init);
      assert forall i :: 0 <= i < |init| ==> init[i] == parts[i];
    }
  }

  lemma {:induction false} NumbersPlain(parts: seq<string>)
    requires parts != [] && forall i :: 0 <= i < |parts| ==> IsNumber(parts[i])
    ensures forall c :: c in Join(parts, '.') ==> IsDigit(c) || c == '.'
    ensures Join(parts, '.') != "" && Split(Join(parts, '.'), '.') == parts
  {
    hide Split, Value;
    forall p | p in parts ensures '.' !in p && p != "" {
      var i :| 0 <= i < |parts| && parts[i] == p;
    }
    SplitJoin(parts, '.');
    if |parts| > 1 { NumbersPlain(parts[1..]); }
    assert forall c :: c in parts[0] ==> IsDigit(c);
  }

  lemma {:induction false} GrammarParses(s: string, parts: seq<string>, pre: Option<string>, build: Option<string>)
    requires Grammar(TrimV(TrimSpace(s)), parts, pre, build)
    ensures Parse(s).Some?
  {
    hide TrimSpace, TrimV, Join, Split, Parse, IsNumber;
    NumbersPlain(parts);
    ShapeParses(s, Join(parts, '.'), pre, build);
    ParseNumsExactly(parts);
  }

  /** parseSemver accepts exactly the versions of that form, after white space and a "v". */
  lemma {:induction false} ParsesExactly(s: string)
    ensures Parse(s).Some? <==> exists parts, pre, build :: Grammar(TrimV(TrimSpace(s)), parts, pre, build)
  {
    hide Parse, Grammar, TrimSpace, TrimV;
    if parts, pre, build :| Grammar(TrimV(TrimSpace(s)), parts, pre, build) { GrammarParses(s, parts, pre, build); }
    if Parse(s).Some? {
      var parts, pre, build := ParsedHasForm(s);
    }
  }

  lemma {:induction false} ParsedHasForm(s: string) returns (parts: seq<string>, pre: Option<string>, build: Option<string>)
    requires Parse(s).Some?
    ensures Grammar(TrimV(TrimSpace(s)), parts, pre, build)
  {
    hide TrimSpace, TrimV, Split, Join, ParseNums, IndexOf, IsNumber, ParseUint;
    var u := TrimV(TrimSpace(s));
    var n := IndexOf(u, '+');
    var t := u[..n];
    var i := IndexOf(t, '-');
    parts := Split(t[..i], '.');
    pre := if i == |t| then None else Some(t[i + 1..]);
    build := if n == |u| then None else Some(u[n + 1..]);
    assert i == |t| ==> t[..i] == t;
    JoinSplit(t[..i], '.');
    ParseNumsExactly(parts);
    assert t == t[..i] + Optional('-', pre);
    assert u == t + Optional('+', build);
    assert pre.Some? ==> forall c :: c in pre.value ==> c in t;
  }

  // ---- Parsing what a well-formed version is written as ----

  lemma {:induction false} DecimalParses(n: nat)
    requires n < UINT64_LIMIT
    ensures ParseUint(Decimal(n)) == Some(n)
    ensures forall c :: c in Decimal(n) ==> IsDigit(c)
  {}

  lemma {:induction false} RenderIdentClassifies(x: Ident)
    requires x.Num? ==> x.n < UINT64_LIMIT
    requires x.Alnum? ==> IdentText(x.s) && !AllDigits(x.s)
    ensures Classify(RenderIdent(x)) == x
    ensures IdentText(RenderIdent(x))
  {
    if x.Num? { DecimalParses(x.n); }
  }

  lemma {:induction false} TrimNothing(s: string)
    requires s != "" && IdentChar(s[0]) && s[0] != 'v' && IdentChar(s[|s| - 1])
    ensures TrimV(TrimSpace(s)) == s
  {}

  lemma {:induction false} TrimOnlyV(s: string)
    requires s != "" && IdentChar(s[|s| - 1])
    ensures TrimV(TrimSpace("v" + s)) == s
  {
    var t := "v" + s;
    assert t[|t| - 1] == s[|s| - 1] && t[1..] == s;
  }

  lemma {:induction false} JoinText(parts: seq<string>)
    requires forall p :: p in parts ==> IdentText(p)
    requires parts != []
    ensures var j := Join(parts, '.');
            j != "" && IdentChar(j[|j| - 1]) && forall c :: c in j ==> IdentChar(c) || c == '.'
  {
    assert parts[0] in parts;
    if |parts| > 1 {
      assert forall p :: p in parts[1..] ==> p in parts;
      JoinText(parts[1..]);
    }
  }

  ghost predicate Fit(nums: seq<nat>) { forall i :: 0 <= i < |nums| ==> nums[i] < UINT64_LIMIT }

  /** The numbers, with zeros for those that are missing. */
  ghost predicate WithZeros(nums: seq<nat>, three: seq<nat>) {
    |three| == 3 && forall i :: 0 <= i < 3 ==> three[i] == if i < |nums| then nums[i] else 0
  }

  lemma {:induction false} NumeralsParse(nums: seq<nat>)
    ensures ParseNums(Numerals(nums)) == if Fit(nums) then Some(nums) else None
  {
    hide ParseUint;
    if nums != [] {
      var init, last := nums[..|nums| - 1], nums[|nums| - 1];
      NumeralsParse(init);
      assert Numerals(nums)[..|nums| - 1] == Numerals(init);
      assert init + [last] == nums;
      assert Fit(nums) <==> Fit(init) && last < UINT64_LIMIT;
      if last < UINT64_LIMIT { DecimalParses(last); } else { DecimalTooLarge(last); }
    }
  }

  lemma {:induction false} DecimalTooLarge(n: nat)
    requires n >= UINT64_LIMIT
    ensures ParseUint(Decimal(n)) == None
  {}

  /** One to three numbers are read, missing ones as zero; more, or one past 64 bits, are not. */
  lemma {:induction false} CoreParses(nums: seq<nat>, pre: seq<string>)
    requires nums != []
    ensures var r := ParseCore(Core(nums), pre);
            && (r.Some? <==> |nums| <= 3 && Fit(nums))
            && (r.Some? ==> r.value.pre == pre && WithZeros(nums, r.value.nums))
  {
    hide ParseUint, Join, Split, Fit;
    CoreChars(nums);
    NumeralsPlain(nums);
    SplitJoin(Numerals(nums), '.');
    NumeralsParse(nums);
  }

  lemma {:induction false} NumeralsPlain(nums: seq<nat>)
    ensures forall p :: p in Numerals(nums) ==> '.' !in p && IdentText(p) && forall c :: c in p ==> IsDigit(c)
  {
    forall p | p in Numerals(nums) ensures '.' !in p && IdentText(p) && forall c :: c in p ==> IsDigit(c) {
      var i :| 0 <= i < |nums| && p == Decimal(nums[i]);
    }
  }

  lemma {:induction false} CoreChars(nums: seq<nat>)
    requires nums != []
    ensures Core(nums) != "" && IsDigit(Core(nums)[0]) && IsDigit(Core(nums)[|Core(nums)| - 1])
    ensures forall c :: c in Core(nums) ==> IsDigit(c) || c == '.'
  {
    if |nums| > 1 {
      CoreChars(nums[1..]);
      assert Numerals(nums)[1..] == Numerals(nums[1..]);
      assert Core(nums) == Decimal(nums[0]) + ['.'] + Core(nums[1..]);
    }
  }

  lemma {:induction false} PreTexts(v: Version)
    requires WellFormed(v)
    ensures forall x :: x in RenderPre(v.pre) ==> IdentText(x)
  {
    forall x | x in RenderPre(v.pre) ensures IdentText(x) {
      var i :| 0 <= i < |v.pre| && x == RenderPre(v.pre)[i];
      assert v.pre[i] in v.pre;
      RenderIdentText(v.pre[i]);
    }
  }

  lemma {:induction false} RenderIdentText(x: Ident)
    requires x.Alnum? ==> IdentText(x.s)
    ensures IdentText(RenderIdent(x))
  {}

  /** The '+' of the build metadata is the first one, and neither end is trimmed but for the
      "v". */
  lemma {:induction false} WrittenChars(nums: seq<nat>, v: Version)
    requires WellFormed(v) && nums != []
    ensures forall c :: c in Core(nums) + PreText(v) ==> c != '+'
    ensures TrimV(TrimSpace(Written(nums, v))) == Written(nums, v)
    ensures TrimV(TrimSpace("v" + Written(nums, v))) == Written(nums, v)
  {
    CoreChars(nums);
    PreTexts(v);
    if v.pre != [] { JoinText(RenderPre(v.pre)); }
    if v.build != [] { JoinText(v.build); }
    hide Core, RenderPre, Join, TrimSpace, TrimV;
    var w := Written(nums, v);
    assert w[0] == Core(nums)[0];
    TrimNothing(w);
    TrimOnlyV(w);
  }

  lemma {:induction false} WrittenCut(nums: seq<nat>, v: Version)
    requires WellFormed(v) && nums != []
    ensures Parse(Written(nums, v)) == Parse("v" + Written(nums, v)) == ParseCore(Core(nums), RenderPre(v.pre))
  {
    hide Core, Join, TrimSpace, TrimV, Split, ParseCore, RenderPre;
    WrittenChars(nums, v);
    CoreChars(nums);
    var pre := if v.pre == [] then None else Some(Join(RenderPre(v.pre), '.'));
    var build := if v.build == [] then None else Some(Join(v.build, '.'));
    assert Written(nums, v) == Core(nums) + Optional('-', pre) + Optional('+', build);
    assert pre.Some? ==> PreText(v)[1..] == pre.value && forall c :: c in pre.value ==> c in Core(nums) + PreText(v);
    ShapeParses(Written(nums, v), Core(nums), pre, build);
    ShapeParses("v" + Written(nums, v), Core(nums), pre, build);
    PreSplits(v);
  }

  lemma {:induction false} PreSplits(v: Version)
    requires WellFormed(v)
    ensures v.pre == [] ==> RenderPre(v.pre) == []
    ensures v.pre != [] ==> Join(RenderPre(v.pre), '.') != "" && Split(Join(RenderPre(v.pre), '.'), '.') == RenderPre(v.pre)
  {
    hide Join, Split;
    if v.pre != [] {
      PreTexts(v);
      JoinText(RenderPre(v.pre));
      SplitJoin(RenderPre(v.pre), '.');
    }
  }

  /** parseSemver reads a version of one to three numbers, a missing one as zero, with or
      without a leading "v", and refuses one with more numbers or one past 64 bits. */
  lemma {:induction false} WrittenParses(nums: seq<nat>, v: Version)
    requires WellFormed(v) && nums != []
    ensures var r := Parse(Written(nums, v));
            && Parse("v" + Written(nums, v)) == r
            && (r.Some? <==> |nums| <= 3 && Fit(nums))
            && (r.Some? ==> r.value.pre == RenderPre(v.pre) && WithZeros(nums, r.value.nums))
  {
    hide Parse, ParseCore, Fit;
    WrittenCut(nums, v);
    CoreParses(nums, RenderPre(v.pre));
  }

  /** parseSemver reads a well-formed version's numbers and identifiers, and drops its build
      metadata. */
  lemma {:induction false} RenderParses(v: Version)
    requires WellFormed(v) && Fits64(v)
    ensures Parse(Render(v)) == Some(Parsed([v.major, v.minor, v.patch], RenderPre(v.pre)))
  {
    hide Parse, Written, RenderPre;
    var nums := [v.major, v.minor, v.patch];
    WrittenParses(nums, v);
    assert Parse(Render(v)).value.nums == nums;
  }

  /** On every two well-formed versions whose numeric identifiers fit 64 bits,
      compareVersions is the precedence of section 11. */
  lemma {:induction false} CompareIsPrecedence(a: Version, b: Version)
    requires WellFormed(a) && Fits64(a) && WellFormed(b) && Fits64(b)
    ensures CompareVersions(Render(a), Render(b)) == Some(Sign(Lower(a, b), Lower(b, a)))
    ensures !(Lower(a, b) && Lower(b, a))
    ensures !Lower(a, b) && !Lower(b, a) <==> a.major == b.major && a.minor == b.minor && a.patch == b.patch && a.pre == b.pre
  {
    hide Parse, Render, PreLower, ComparePre, Classify, RenderIdent, CompareNums;
    RenderParses(a);
    RenderParses(b);
    forall x | x in a.pre + b.pre ensures Classify(RenderIdent(x)) == x {
      RenderIdentClassifies(x);
    }
    ComparePreIsLower(a.pre, b.pre);
    CompareThree(a, b);
    assert |RenderPre(a.pre)| == |a.pre| && |RenderPre(b.pre)| == |b.pre|;
  }

  lemma {:induction false} CompareThree(a: Version, b: Version)
    ensures CompareNums([a.major, a.minor, a.patch], [b.major, b.minor, b.patch])
            == if a.major != b.major then Sign(a.major < b.major, true)
               else if a.minor != b.minor then Sign(a.minor < b.minor, true)
               else if a.patch != b.patch then Sign(a.patch < b.patch, true) else 0
  {
    var x, y := [a.major, a.minor, a.patch], [b.major, b.minor, b.patch];
    assert x[1..] == [a.minor, a.patch] && y[1..] == [b.minor, b.patch];
    assert x[1..][1..] == [a.patch] && y[1..][1..] == [b.patch];
    assert CompareNums(x[1..][1..], y[1..][1..]) == if a.patch != b.patch then Sign(a.patch < b.patch, true) else 0;
  }

  /** So compareVersionKeys puts the version of lower precedence first. */
  lemma {:induction false} KeysFollowPrecedence(a: Version, b: Version)
    requires WellFormed(a) && Fits64(a) && WellFormed(b) && Fits64(b) && Lower(a, b)
    ensures CompareVersionKeys(Some(Render(a)), Some(Render(b))) < 0
    ensures CompareVersionKeys(Some(Render(b)), Some(Render(a))) > 0
  {
    hide Parse, Render, Lower, CompareParsed, StrLess;
    RenderParses(a);
    RenderParses(b);
    CompareIsPrecedence(a, b);
    CompareVersionKeysExactly(Some(Render(a)), Some(Render(b)));
    CompareVersionKeysTotal(Some(Render(a)), Some(Render(b)), None);
  }
}
