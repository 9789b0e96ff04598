/** Planning a batch whose values fall into groups, each group with its own cap: labels
    under a name, dimension values under a (name, key). */
module GroupPlan {
  import opened Prelude
  import opened Sorting
  import opened Sums
  import opened Vocabulary

  datatype Item<G> = Item(group: G, value: string)

  function Groups<G(==)>(items: set<Item<G>>): set<G> {
    set i | i in items :: i.group
  }

  function InGroup<G(==)>(items: set<Item<G>>, g: G): set<Item<G>> {
    set i | i in items && i.group == g
  }

  function Values<G(==)>(items: set<Item<G>>, g: G): set<string> {
    set i | i in items && i.group == g :: i.value
  }

  function GroupCounts<G(==)>(items: set<Item<G>>, counts: map<Item<G>, nat>, g: G): map<string, nat> {
    map v | v in Values(items, g) :: Count(counts, Item(g, v))
  }

  /** sort.Strings over the keys of a map */
  function SortedNames(s: set<string>): (r: seq<string>)
    ensures Elements(r) == s && |r| == |s|
  {
    StrLessStrictTotal();
    SortedSeq(s, StrLess)
  }

  lemma {:induction false} SortedNamesOrder(s: set<string>)
    ensures Ascending(SortedNames(s), StrLess)
  {
    StrLessStrictTotal();
  }

  lemma {:induction false} SortedNamesDistinct(s: set<string>)
    ensures Distinct(SortedNames(s))
  {
    SortedNamesOrder(s);
    AscendingNamesDistinct(SortedNames(s));
  }

  /** The plan of one group with `size` values already in its vocabulary. */
  function PlanFor<G(==)>(items: set<Item<G>>, counts: map<Item<G>, nat>, known: set<Item<G>>, limit: int, size: nat, g: G): Plan {
    PlanOf(SortedNames(Values(items, g)), Values(known, g), GroupCounts(items, counts, g), limit - size)
  }

  /** The items the plans of all groups let in, given the groups' current sizes. */
  function Admits<G(==)>(items: set<Item<G>>, counts: map<Item<G>, nat>, known: set<Item<G>>, limit: int, sizes: map<G, nat>): set<Item<G>> {
    set i | i in items && i.value in PlanFor(items, counts, known, limit, Count(sizes, i.group), i.group).add
  }

  function FoldedPerGroup<G(==)>(items: set<Item<G>>, counts: map<Item<G>, nat>, known: set<Item<G>>, limit: int, sizes: map<G, nat>): map<G, nat> {
    map g | g in Groups(items) :: PlanFor(items, counts, known, limit, Count(sizes, g), g).folded
  }

  ghost function FoldedTotal<G(!new)>(items: set<Item<G>>, counts: map<Item<G>, nat>, known: set<Item<G>>, limit: int, sizes: map<G, nat>): nat {
    Sum(Groups(items), FoldedPerGroup(items, counts, known, limit, sizes))
  }

  // ---- Items of a group against its values ----

  lemma {:induction false} ValueOf<G(!new)>(items: set<Item<G>>, g: G)
    ensures forall v :: v in Values(items, g) <==> Item(g, v) in items
  {
    forall v ensures v in Values(items, g) <==> Item(g, v) in items {
      if v in Values(items, g) {
        var i :| i in items && i.group == g && i.value == v;
        assert i == Item(g, v);
      }
    }
  }

  lemma {:induction false} ValuesSize<G(!new)>(items: set<Item<G>>, g: G)
    ensures |Values(items, g)| == |InGroup(items, g)|
  {
    var own := InGroup(items, g);
    if own != {} {
      var i :| i in own;
      ValuesSize(items - {i}, g);
      assert InGroup(items - {i}, g) == own - {i};
      assert Values(items - {i}, g) == Values(items, g) - {i.value};
      assert i.value in Values(items, g);
    } else {
      ValueOf(items, g);
      assert forall v :: Item(g, v) !in InGroup(items, g);
      assert Values(items, g) == {};
    }
  }

  lemma {:induction false} SumValues<G(!new)>(own: set<Item<G>>, counts: map<Item<G>, nat>, g: G, byValue: map<string, nat>)
    requires forall i :: i in own ==> i.group == g && Count(byValue, i.value) == Count(counts, i)
    ensures Sum(Values(own, g), byValue) == Sum(own, counts)
  {
    if own == {} {
      assert Values(own, g) == {};
    } else {
      var i :| i in own;
      SumRemove(own, i, counts);
      assert i.value in Values(own, g);
      SumRemove(Values(own, g), i.value, byValue);
      forall v ensures v in Values(own - {i}, g) <==> v in Values(own, g) - {i.value} {
        if v in Values(own, g) - {i.value} { assert Item(g, v) in own - {i}; }
      }
      assert Values(own - {i}, g) == Values(own, g) - {i.value};
      SumValues(own - {i}, counts, g, byValue);
    }
  }

  /** A total over items is the total over groups of each group's total. */
  lemma {:induction false} SumByGroup<G(!new)>(items: set<Item<G>>, counts: map<Item<G>, nat>, groups: set<G>, perGroup: map<G, nat>)
    requires Groups(items) <= groups
    requires forall g :: g in groups ==> Count(perGroup, g) == Sum(InGroup(items, g), counts)
    ensures Sum(groups, perGroup) == Sum(items, counts)
  {
    if groups == {} {
      assert forall i :: i in items ==> i.group in Groups(items);
      assert items == {};
    } else {
      var g :| g in groups;
      var own, rest := InGroup(items, g), items - InGroup(items, g);
      SumRemove(groups, g, perGroup);
      SumSplit(own, rest, counts);
      assert own + rest == items;
      forall h | h in groups - {g} ensures Count(perGroup, h) == Sum(InGroup(rest, h), counts) {
        assert InGroup(rest, h) == InGroup(items, h);
      }
      forall h | h in Groups(rest) ensures h in groups - {g} {
        var i :| i in rest && i.group == h;
        assert i in items && i.group in Groups(items);
      }
      SumByGroup(rest, counts, groups - {g}, perGroup);
    }
  }

  // ---- What a grouped plan does ----

  /** Only new items are let in, and no group receives more than the room under its cap. */
  lemma {:induction false} AdmitsWithinCaps<G(!new)>(items: set<Item<G>>, counts: map<Item<G>, nat>, known: set<Item<G>>, limit: int, sizes: map<G, nat>, g: G)
    ensures Admits(items, counts, known, limit, sizes) <= items - known
    ensures var taken := InGroup(Admits(items, counts, known, limit, sizes), g);
            taken == {} || |taken| <= limit - Count(sizes, g)
  {
    var admits := Admits(items, counts, known, limit, sizes);
    forall i | i in admits ensures i in items - known {
      PlanForShape(items, counts, known, limit, Count(sizes, i.group), i.group);
      assert i.value in Elements(PlanFor(items, counts, known, limit, Count(sizes, i.group), i.group).add);
      ValueOf(known, i.group);
    }
    var plan := PlanFor(items, counts, known, limit, Count(sizes, g), g);
    PlanForShape(items, counts, known, limit, Count(sizes, g), g);
    ValuesSize(admits, g);
    ValueOf(items, g);
    ValueOf(admits, g);
    assert Values(admits, g) == Elements(plan.add);
  }

  function Tagged<G(==)>(g: G, values: set<string>): set<Item<G>> {
    set v | v in values :: Item(g, v)
  }

  /** What the grouped plan does to one group is that group's plan. */
  lemma {:induction false} AdmitsInGroup<G(!new)>(items: set<Item<G>>, counts: map<Item<G>, nat>, known: set<Item<G>>, limit: int, sizes: map<G, nat>, g: G)
    ensures InGroup(Admits(items, counts, known, limit, sizes), g)
            == Tagged(g, Elements(PlanFor(items, counts, known, limit, Count(sizes, g), g).add))
  {
    PlanForShape(items, counts, known, limit, Count(sizes, g), g);
    ValueOf(items, g);
    hide PlanFor;
  }

  lemma {:induction false} PlanForShape<G(!new)>(items: set<Item<G>>, counts: map<Item<G>, nat>, known: set<Item<G>>, limit: int, size: nat, g: G)
    ensures var p := PlanFor(items, counts, known, limit, size, g);
            && Elements(p.add) <= Values(items, g) - Values(known, g)
            && |Elements(p.add)| == Slots(limit - size, |Values(items, g) - Values(known, g)|)
  {
    hide SortedNames, PlanOf;
    SortedNamesDistinct(Values(items, g));
    PlanShape(SortedNames(Values(items, g)), Values(known, g), GroupCounts(items, counts, g), limit - size);
  }

  lemma {:induction false} RestOfGroup<G(!new)>(items: set<Item<G>>, counts: map<Item<G>, nat>, known: set<Item<G>>, limit: int, sizes: map<G, nat>, g: G)
    ensures Values(InGroup(items - known - Admits(items, counts, known, limit, sizes), g), g)
            == Values(items, g) - Values(known, g) - Elements(PlanFor(items, counts, known, limit, Count(sizes, g), g).add)
  {
    ValueOf(items, g);
    ValueOf(known, g);
    ValueOf(InGroup(items - known - Admits(items, counts, known, limit, sizes), g), g);
  }

  lemma {:induction false} PlanForConserves<G(!new)>(items: set<Item<G>>, counts: map<Item<G>, nat>, known: set<Item<G>>, limit: int, size: nat, g: G)
    ensures var p := PlanFor(items, counts, known, limit, size, g);
            p.folded == Sum(Values(items, g) - Values(known, g) - Elements(p.add), GroupCounts(items, counts, g))
  {
    hide SortedNames, PlanOf;
    SortedNamesDistinct(Values(items, g));
    PlanConserves(SortedNames(Values(items, g)), Values(known, g), GroupCounts(items, counts, g), limit - size);
  }

  lemma {:induction false} GroupFolded<G(!new)>(items: set<Item<G>>, counts: map<Item<G>, nat>, known: set<Item<G>>, limit: int, sizes: map<G, nat>, g: G)
    ensures PlanFor(items, counts, known, limit, Count(sizes, g), g).folded
            == Sum(InGroup(items - known - Admits(items, counts, known, limit, sizes), g), counts)
  {
    PlanForConserves(items, counts, known, limit, Count(sizes, g), g);
    RestOfGroup(items, counts, known, limit, sizes, g);
    var rest := InGroup(items - known - Admits(items, counts, known, limit, sizes), g);
    SumGroupCounts(items, counts, g, rest);
  }

  lemma {:induction false} SumGroupCounts<G(!new)>(items: set<Item<G>>, counts: map<Item<G>, nat>, g: G, own: set<Item<G>>)
    requires own <= InGroup(items, g)
    ensures Sum(Values(own, g), GroupCounts(items, counts, g)) == Sum(own, counts)
  {
    ValueOf(items, g);
    forall i | i in own ensures Count(GroupCounts(items, counts, g), i.value) == Count(counts, i) {
      assert i == Item(g, i.value);
    }
    SumValues(own, counts, g, GroupCounts(items, counts, g));
  }

  /** The folded total is exactly the records carrying an item neither known nor let in. */
  lemma {:induction false} FoldedIsRest<G(!new)>(items: set<Item<G>>, counts: map<Item<G>, nat>, known: set<Item<G>>, limit: int, sizes: map<G, nat>)
    ensures FoldedTotal(items, counts, known, limit, sizes)
            == Sum(items - known - Admits(items, counts, known, limit, sizes), counts)
  {
    var rest := items - known - Admits(items, counts, known, limit, sizes);
    var perGroup := FoldedPerGroup(items, counts, known, limit, sizes);
    forall g | g in Groups(items) ensures Count(perGroup, g) == Sum(InGroup(rest, g), counts) {
      GroupFolded(items, counts, known, limit, sizes, g);
    }
    SumByGroup(rest, counts, Groups(items), perGroup);
  }

  /** Everything known: nothing is let in and nothing folds. */
  lemma {:induction false} AllKnown<G(!new)>(items: set<Item<G>>, counts: map<Item<G>, nat>, known: set<Item<G>>, limit: int, sizes: map<G, nat>)
    requires items <= known
    ensures Admits(items, counts, known, limit, sizes) == {}
    ensures FoldedTotal(items, counts, known, limit, sizes) == 0
  {
    FoldedIsRest(items, counts, known, limit, sizes);
    forall i | i in Admits(items, counts, known, limit, sizes) ensures false {
      AdmitsWithinCaps(items, counts, known, limit, sizes, i.group);
    }
  }
}
