/** planVocabulary (internal/storage/error_reasons.go): which new values enter a capped
    vocabulary that has `room` free slots. */
module Vocabulary {
  import opened Prelude
  import opened Sorting
  import opened Sums

  /** add: the values to admit, in order. folded: the records carrying the others. */
  datatype Plan = Plan(add: seq<string>, folded: nat)

  function Elements(s: seq<string>): set<string> {
    set x | x in s
  }

  function Fresh(names: seq<string>, known: set<string>): seq<string> {
    if names == [] then []
    else
      var init, last := names[..|names| - 1], names[|names| - 1];
      if last in known then Fresh(init, known) else Fresh(init, known) + [last]
  }

  /** The comparison planVocabulary sorts by. */
  function MoreFrequent(counts: map<string, nat>): (string, string) -> bool {
    (a, b) => Count(counts, a) > Count(counts, b)
  }

  function Ranked(names: seq<string>, known: set<string>, counts: map<string, nat>): seq<string> {
    Sort(Fresh(names, known), MoreFrequent(counts))
  }

  function Slots(room: int, unseen: nat): nat {
    if room <= 0 then 0 else if room < unseen then room else unseen
  }

  function PlanOf(names: seq<string>, known: set<string>, counts: map<string, nat>, room: int): Plan {
    var ranked := Ranked(names, known, counts);
    var n := Slots(room, |ranked|);
    Plan(ranked[..n], SumSeq(ranked[n..], counts))
  }

  method PlanVocabulary(names: seq<string>, known: set<string>, counts: map<string, nat>, room: int)
    returns (add: seq<string>, folded: nat)
    ensures Plan(add, folded) == PlanOf(names, known, counts, room)
  {
    var unseen: seq<string> := [];
    for i := 0 to |names|
      invariant unseen == Fresh(names[..i], known)
    {
      assert names[..i + 1][..i] == names[..i];
      if names[i] !in known {
        unseen := unseen + [names[i]];
      }
    }
    assert names[..|names|] == names;
    unseen := Sort(unseen, MoreFrequent(counts));
    add, folded := [], 0;
    for i := 0 to |unseen|
      invariant add == unseen[..Slots(room, i)]
      invariant folded == SumSeq(unseen[Slots(room, i)..i], counts)
    {
      if i < room {
        add := add + [unseen[i]];
      } else {
        assert unseen[Slots(room, i)..i + 1][..i - Slots(room, i)] == unseen[Slots(room, i)..i];
        folded := folded + Count(counts, unseen[i]);
      }
    }
    assert unseen[Slots(room, |unseen|)..|unseen|] == unseen[Slots(room, |unseen|)..];
  }

  // ---- What the choice is ----

  lemma {:induction false} FreshElements(names: seq<string>, known: set<string>)
    ensures Elements(Fresh(names, known)) == Elements(names) - known
  {
    if names != [] {
      var init, last := names[..|names| - 1], names[|names| - 1];
      FreshElements(init, known);
      assert names == init + [last];
      assert Elements(names) == Elements(init) + {last};
      assert Elements(Fresh(init, known) + [last]) == Elements(Fresh(init, known)) + {last};
    }
  }

  /** Fresh keeps the order r of what it keeps. */
  lemma {:induction false} FreshPairwise(names: seq<string>, known: set<string>, r: (string, string) -> bool)
    requires Pairwise(names, r)
    ensures Pairwise(Fresh(names, known), r)
  {
    if names != [] {
      var init, last := names[..|names| - 1], names[|names| - 1];
      FreshPairwise(init, known, r);
      FreshElements(init, known);
      var f := Fresh(init, known);
      forall i | 0 <= i < |f| ensures r(f[i], last) {
        assert f[i] in Elements(f);
        var k :| 0 <= k < |init| && init[k] == f[i];
        assert names[k] == f[i];
      }
    }
  }

  lemma {:induction false} RankedElements(names: seq<string>, known: set<string>, counts: map<string, nat>)
    requires Distinct(names)
    ensures Elements(Ranked(names, known, counts)) == Elements(names) - known
    ensures Distinct(Ranked(names, known, counts))
    ensures |Ranked(names, known, counts)| == |Elements(names) - known|
  {
    FreshElements(names, known);
    FreshPairwise(names, known, (a, b) => a != b);
    var f := Fresh(names, known);
    SortElements(f, MoreFrequent(counts));
    DistinctFromMultiset(f, Ranked(names, known, counts));
    DistinctSize(f);
  }

  lemma {:induction false} DistinctCounts<T(!new)>(s: seq<T>)
    ensures Distinct(s) <==> forall x :: multiset(s)[x] <= 1
  {
    if s != [] {
      var init, last := s[..|s| - 1], s[|s| - 1];
      assert s == init + [last];
      DistinctCounts(init);
      if Distinct(s) {
        assert last !in init;
        assert multiset(init)[last] == 0;
      }
      if forall x :: multiset(s)[x] <= 1 {
        forall x ensures multiset(init)[x] <= 1 { assert multiset(s)[x] <= 1; }
        assert multiset(s)[last] <= 1;
        assert last !in multiset(init);
      }
    }
  }

  lemma {:induction false} DistinctFromMultiset<T(!new)>(s: seq<T>, t: seq<T>)
    requires multiset(s) == multiset(t) && Distinct(s)
    ensures Distinct(t)
  {
    DistinctCounts(s);
    DistinctCounts(t);
  }

  /** a is admitted ahead of b: it is more frequent, or as frequent and first by name. */
  predicate Ahead(counts: map<string, nat>, a: string, b: string) {
    Count(counts, a) > Count(counts, b) || (Count(counts, a) == Count(counts, b) && StrLess(a, b))
  }

  lemma {:induction false} RankedAhead(names: seq<string>, known: set<string>, counts: map<string, nat>, i: nat, j: nat)
    requires Ascending(names, StrLess)
    requires i < j < |Ranked(names, known, counts)|
    ensures Ahead(counts, Ranked(names, known, counts)[i], Ranked(names, known, counts)[j])
  {
    hide StrLess;
    FreshPairwise(names, known, StrLess);
    SortStable(Fresh(names, known), MoreFrequent(counts), StrLess);
    var ranked := Ranked(names, known, counts);
    assert StableBefore(MoreFrequent(counts), StrLess, ranked[i], ranked[j]);
  }

  lemma {:induction false} AscendingNamesDistinct(names: seq<string>)
    requires Ascending(names, StrLess)
    ensures Distinct(names)
  {
    StrLessStrictTotal();
    AscendingDistinct(names, StrLess);
  }

  lemma {:induction false} PlanShape(names: seq<string>, known: set<string>, counts: map<string, nat>, room: int)
    requires Distinct(names)
    ensures var add := PlanOf(names, known, counts, room).add;
            && Elements(add) <= Elements(names) - known
            && Distinct(add)
            && |add| == |Elements(add)| == Slots(room, |Elements(names) - known|)
  {
    RankedElements(names, known, counts);
    var ranked, add := Ranked(names, known, counts), PlanOf(names, known, counts, room).add;
    assert Distinct(add);
    DistinctSize(add);
    forall x | x in add ensures x in Elements(ranked) {}
  }

  /** Exactly min(room, fresh) values are admitted, in order, each of them ahead of every
      fresh value that is not. */
  lemma {:induction false} PlanChoosesAhead(names: seq<string>, known: set<string>, counts: map<string, nat>, room: int)
    requires Ascending(names, StrLess)
    ensures var add := PlanOf(names, known, counts, room).add;
            && Elements(add) <= Elements(names) - known
            && |add| == |Elements(add)| == Slots(room, |Elements(names) - known|)
            && (forall i, j :: 0 <= i < j < |add| ==> Ahead(counts, add[i], add[j]))
            && forall a, b :: a in Elements(add) && b in Elements(names) - known - Elements(add) ==> Ahead(counts, a, b)
  {
    AscendingNamesDistinct(names);
    PlanShape(names, known, counts, room);
    RankedElements(names, known, counts);
    var ranked, add := Ranked(names, known, counts), PlanOf(names, known, counts, room).add;
    forall i, j | 0 <= i < j < |add| ensures Ahead(counts, add[i], add[j]) {
      RankedAhead(names, known, counts, i, j);
    }
    forall a, b | a in Elements(add) && b in Elements(names) - known - Elements(add) ensures Ahead(counts, a, b) {
      var i :| 0 <= i < |add| && add[i] == a;
      assert b in Elements(ranked);
      var j :| 0 <= j < |ranked| && ranked[j] == b;
      assert forall k :: 0 <= k < |add| ==> ranked[k] in Elements(add);
      RankedAhead(names, known, counts, i, j);
    }
  }

  lemma {:induction false} AheadAsymmetric(counts: map<string, nat>, a: string, b: string)
    requires Ahead(counts, a, b)
    ensures !Ahead(counts, b, a)
  {
    if StrLess(a, b) && StrLess(b, a) {
      StrLessTransitive(a, b, a);
      StrLessIrreflexive(a);
    }
  }

  /** That description leaves no freedom: the choice is a function of the values as a set,
      of what is known, and of the counts. */
  lemma {:induction false} PlanUnique(names: seq<string>, known: set<string>, counts: map<string, nat>, room: int, choice: set<string>)
    requires Ascending(names, StrLess)
    requires choice <= Elements(names) - known
    requires |choice| == Slots(room, |Elements(names) - known|)
    requires forall a, b :: a in choice && b in Elements(names) - known - choice ==> Ahead(counts, a, b)
    ensures Elements(PlanOf(names, known, counts, room).add) == choice
  {
    PlanChoosesAhead(names, known, counts, room);
    var add := Elements(PlanOf(names, known, counts, room).add);
    if choice != add {
      SameSizeDifference(add, choice);
      var a, c :| a in add - choice && c in choice - add;
      AheadAsymmetric(counts, a, c);
      assert false;
    }
  }

  lemma {:induction false} PartSizes<T>(a: set<T>, b: set<T>)
    ensures |a| == |a - b| + |a * b| && |b| == |b - a| + |a * b|
    ensures a - a * b == a - b && b - a * b == b - a
  {
    assert a == (a - b) + (a * b) && b == (b - a) + (a * b);
  }

  lemma {:induction false} SameSizeDifference<T>(a: set<T>, b: set<T>)
    requires |a| == |b| && a != b
    ensures a - b != {} && b - a != {}
  {
    PartSizes(a, b);
  }

  /** Admitted, known and folded records account for the whole batch. */
  lemma {:induction false} PlanConserves(names: seq<string>, known: set<string>, counts: map<string, nat>, room: int)
    requires Distinct(names)
    ensures var p := PlanOf(names, known, counts, room);
            && p.folded == Sum(Elements(names) - known - Elements(p.add), counts)
            && Sum(Elements(names) * known, counts) + Sum(Elements(p.add), counts) + p.folded == Sum(Elements(names), counts)
  {
    var ranked := Ranked(names, known, counts);
    RankedElements(names, known, counts);
    var n := Slots(room, |ranked|);
    SumSeqIsSum(ranked[n..], counts);
    var add, rest := Elements(ranked[..n]), Elements(ranked[n..]);
    assert ranked == ranked[..n] + ranked[n..];
    assert add + rest == Elements(ranked);
    assert add !! rest;
    assert rest == Elements(names) - known - add;
    SumSplit(add, rest, counts);
    SumSplit(Elements(names) * known, add + rest, counts);
    assert Elements(names) * known + (add + rest) == Elements(names);
  }

  /** No other choice of at most `room` new values folds fewer records. */
  lemma {:induction false} PlanOptimal(names: seq<string>, known: set<string>, counts: map<string, nat>, room: int, choice: set<string>)
    requires Ascending(names, StrLess)
    requires choice <= Elements(names) - known
    requires |choice| <= if room < 0 then 0 else room
    ensures PlanOf(names, known, counts, room).folded <= Sum(Elements(names) - known - choice, counts)
  {
    AscendingNamesDistinct(names);
    PlanChoosesAhead(names, known, counts, room);
    PlanConserves(names, known, counts, room);
    var all, add := Elements(names) - known, Elements(PlanOf(names, known, counts, room).add);
    SubsetSize(choice, all);
    forall x, y | x in add && y in choice - add ensures Count(counts, y) <= Count(counts, x) {
      assert Ahead(counts, x, y);
    }
    ExchangeGains(add, choice, counts);
    SumComplement(add, all, counts);
    SumComplement(choice, all, counts);
  }

  lemma {:induction false} SumComplement(part: set<string>, all: set<string>, counts: map<string, nat>)
    requires part <= all
    ensures Sum(part, counts) + Sum(all - part, counts) == Sum(all, counts)
  {
    SumSplit(part, all - part, counts);
    assert part + (all - part) == all;
  }

  /** Trading what only b holds for what only a holds never loses records. */
  lemma {:induction false} ExchangeGains(a: set<string>, b: set<string>, counts: map<string, nat>)
    requires |b| <= |a|
    requires forall x, y :: x in a && y in b - a ==> Count(counts, y) <= Count(counts, x)
    ensures Sum(b, counts) <= Sum(a, counts)
  {
    PartSizes(a, b);
    SumDominates(a - b, b - a, counts);
    SumComplement(a * b, a, counts);
    SumComplement(a * b, b, counts);
  }

  /** Nothing unknown, nothing to plan. */
  lemma {:induction false} PlanAllKnown(names: seq<string>, known: set<string>, counts: map<string, nat>, room: int)
    requires Elements(names) <= known
    ensures PlanOf(names, known, counts, room) == Plan([], 0)
  {
    if names != [] {
      var init, last := names[..|names| - 1], names[|names| - 1];
      assert names == init + [last] && last in Elements(names);
      PlanAllKnown(init, known, counts, room);
      assert Fresh(names, known) == Fresh(init, known);
    }
  }
}
