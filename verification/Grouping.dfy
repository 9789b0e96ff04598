/** Breaking a series down by dimension values: the group key and the grouping loop
    (internal/storage/query_dims.go, query_measures.go and query_values.go). */
module Grouping {
  import opened Prelude
  import opened Sorting
  import opened Aggregates

  newtype Byte = x: int | 0 <= x < 256
  type Bytes = seq<Byte>
  type Values = seq<Option<Bytes>>

  const SEP: Byte := 0xff

  // ---- groupKey ----

  function Encode(v: Option<Bytes>): Bytes { if v.None? then [0] else [1] + v.value }

  function Key(values: Values): Bytes {
    if values == [] then [] else Encode(values[0]) + [SEP] + Key(values[1..])
  }

  lemma {:induction false} KeyStep(values: Values, i: nat, b: Bytes)
    requires i < |values|
    ensures b + Key(values[i..]) == (b + Encode(values[i]) + [SEP]) + Key(values[i + 1..])
  {
    assert values[i..][1..] == values[i + 1..];
  }

  /** groupKey */
  method GroupKey(values: Values) returns (b: Bytes)
    ensures b == Key(values)
  {
    hide Key;
    b := [];
    assert values[0..] == values;
    for i := 0 to |values|
      invariant b + Key(values[i..]) == Key(values)
    {
      KeyStep(values, i, b);
      ghost var was := b;
      var v := values[i];
      if v.None? {
        b := b + [0];
      } else {
        b := b + [1];
        b := b + v.value;
        assert b == was + Encode(v);
      }
      b := b + [SEP];
    }
    assert Key(values[|values|..]) == [] by { NoValues(values); }
    assert b + [] == b;
  }

  lemma {:induction false} NoValues(values: Values)
    ensures Key(values[|values|..]) == []
  {}

  /** What holds of valid UTF-8: no value has the separator byte. */
  ghost predicate Clean(values: Values) {
    forall i :: 0 <= i < |values| && values[i].Some? ==> SEP !in values[i].value
  }

  lemma {:induction false} SplitAtSep(a: Bytes, r: Bytes, b: Bytes, s: Bytes)
    requires SEP !in a && SEP !in b && a + [SEP] + r == b + [SEP] + s
    ensures a == b && r == s
  {
    var t := a + [SEP] + r;
    assert t[|a|] == SEP && t[|b|] == SEP;
    assert forall i :: 0 <= i < |a| ==> t[i] == a[i] && a[i] != SEP;
    assert forall i :: 0 <= i < |b| ==> t[i] == b[i] && b[i] != SEP;
    assert |a| == |b|;
    assert a == t[..|a|] == b && r == t[|a| + 1..] == s;
  }

  /** groupKey is injective on values without byte 0xff. */
  lemma {:induction false} KeyInjective(a: Values, b: Values)
    requires Clean(a) && Clean(b) && Key(a) == Key(b)
    ensures a == b
  {
    if a != [] && b != [] {
      SplitAtSep(Encode(a[0]), Key(a[1..]), Encode(b[0]), Key(b[1..]));
      assert a[0] == b[0] by {
        assert a[0].Some? ==> Encode(a[0])[1..] == a[0].value;
        assert b[0].Some? ==> Encode(b[0])[1..] == b[0].value;
      }
      KeyInjective(a[1..], b[1..]);
      assert a == [a[0]] + a[1..] && b == [b[0]] + b[1..];
    }
  }

  /** Without that it is not: two pairs of values that share a key. Their bytes are not valid
      UTF-8, so a database that stores UTF-8 text never returns them. */
  lemma {:induction false} KeyCollides()
    ensures var a, b := [Some([97, SEP, 1, 98]), Some([99])], [Some([97]), Some([98, SEP, 1, 99])];
            a != b && Key(a) == Key(b)
  {
    var a: Values, b: Values := [Some([97, SEP, 1, 98]), Some([99])], [Some([97]), Some([98, SEP, 1, 99])];
    assert a[0] != b[0];
    assert a[1..] == [a[1]] && b[1..] == [b[1]];
    assert Key([a[1]]) == Encode(a[1]) + [SEP] && Key([b[1]]) == Encode(b[1]) + [SEP];
    assert Key(a) == [1, 97, SEP, 1, 98, SEP, 1, 99, SEP] == Key(b);
  }

  // ---- The grouping loop ----

  datatype GroupRow = GroupRow(bucket: int, values: Values, agg: Agg)
  datatype Point = Point(bucket: int, agg: Agg)
  datatype Group = Group(values: Values, series: seq<Point>, total: Agg)

  ghost predicate WideRows(rows: seq<GroupRow>, n: nat) { forall i :: 0 <= i < |rows| ==> |rows[i].agg.buckets| == n }

  /** The rows with a given key, in order. */
  function SeriesOf(rows: seq<GroupRow>, key: Bytes): seq<Point> {
    if rows == [] then []
    else
      var init, r := SeriesOf(rows[..|rows| - 1], key), rows[|rows| - 1];
      if Key(r.values) == key then init + [Point(r.bucket, r.agg)] else init
  }

  function AggsIn(series: seq<Point>): seq<Agg> {
    seq(|series|, i requires 0 <= i < |series| => series[i].agg)
  }

  lemma {:induction false} AggsInHas(series: seq<Point>)
    ensures forall p :: p in series ==> p.agg in AggsIn(series)
  {
    forall p | p in series ensures p.agg in AggsIn(series) {
      var i :| 0 <= i < |series| && series[i] == p;
      assert AggsIn(series)[i] == p.agg;
    }
  }

  lemma {:induction false} SeriesWide(rows: seq<GroupRow>, key: Bytes, n: nat)
    requires WideRows(rows, n)
    ensures Wide(AggsIn(SeriesOf(rows, key)), n)
  {
    hide Key;
    if rows != [] {
      var init := rows[..|rows| - 1];
      SeriesWide(init, key, n);
      assert forall p :: p in SeriesOf(rows, key) ==> p in SeriesOf(init, key) || p.agg == rows[|rows| - 1].agg;
      assert forall p :: p in SeriesOf(init, key) ==> p.agg in AggsIn(SeriesOf(init, key)) by { AggsInHas(SeriesOf(init, key)); }
    }
  }

  /** One group per key among the rows, in order of first occurrence, with all of the key's
      rows as its series and their merge as its total. */
  ghost predicate IsGroupOf(rows: seq<GroupRow>, g: Group, first: nat, n: nat)
    requires WideRows(rows, n)
  {
    SeriesWide(rows, Key(g.values), n);
    && first < |rows| && rows[first].values == g.values
    && (forall j :: 0 <= j < first ==> Key(rows[j].values) != Key(g.values))
    && g.series == SeriesOf(rows, Key(g.values))
    && g.total == MergeAll(AggsIn(g.series), n)
  }

  ghost predicate Grouped(rows: seq<GroupRow>, groups: seq<Group>, first: seq<nat>, n: nat)
    requires WideRows(rows, n)
  {
    && |first| == |groups|
    && (forall i, j :: 0 <= i < j < |first| ==> first[i] < first[j])
    && (forall i :: 0 <= i < |groups| ==> IsGroupOf(rows, groups[i], first[i], n))
    && (forall j :: 0 <= j < |rows| ==> HasGroup(groups, Key(rows[j].values)))
  }

  ghost predicate HasGroup(groups: seq<Group>, key: Bytes) { exists i :: 0 <= i < |groups| && Key(groups[i].values) == key }

  /** The loop's index: where each key's group is. */
  ghost predicate Indexed(index: map<Bytes, nat>, groups: seq<Group>) {
    && (forall key :: key in index ==> index[key] < |groups| && Key(groups[index[key]].values) == key)
    && (forall i :: 0 <= i < |groups| ==> Key(groups[i].values) in index && index[Key(groups[i].values)] == i)
  }

  lemma {:induction false} AggsInStep(series: seq<Point>, p: Point, n: nat)
    requires Wide(AggsIn(series), n) && |p.agg.buckets| == n
    ensures Wide(AggsIn(series + [p]), n)
    ensures MergeAll(AggsIn(series + [p]), n) == Merged(MergeAll(AggsIn(series), n), p.agg)
  {
    var aggs := AggsIn(series + [p]);
    assert aggs[..|aggs| - 1] == AggsIn(series);
  }

  /** A row of another key changes nothing about a group. */
  lemma {:induction false} OtherRow(rows: seq<GroupRow>, r: GroupRow, g: Group, first: nat, n: nat)
    requires WideRows(rows + [r], n) && WideRows(rows, n) && IsGroupOf(rows, g, first, n) && Key(r.values) != Key(g.values)
    ensures IsGroupOf(rows + [r], g, first, n)
  {
    hide Key, MergeAll;
    assert (rows + [r])[..|rows|] == rows;
  }

  /** A row of its key joins it. */
  lemma {:induction false} OwnRow(rows: seq<GroupRow>, r: GroupRow, g: Group, first: nat, n: nat)
    requires WideRows(rows + [r], n) && WideRows(rows, n) && IsGroupOf(rows, g, first, n) && Key(r.values) == Key(g.values)
    requires |r.agg.buckets| == n == |g.total.buckets|
    ensures IsGroupOf(rows + [r], Group(g.values, g.series + [Point(r.bucket, r.agg)], Merged(g.total, r.agg)), first, n)
  {
    hide Key, MergeAll;
    assert (rows + [r])[..|rows|] == rows;
    assert (rows + [r])[|rows|] == r;
    SeriesWide(rows, Key(g.values), n);
    AggsInStep(g.series, Point(r.bucket, r.agg), n);
  }

  lemma {:induction false} NoSeries(rows: seq<GroupRow>, key: Bytes)
    requires forall j :: 0 <= j < |rows| ==> Key(rows[j].values) != key
    ensures SeriesOf(rows, key) == []
  {
    hide Key;
    if rows != [] { NoSeries(rows[..|rows| - 1], key); }
  }

  /** A row of no group so far starts one. */
  lemma {:induction false} FirstRow(rows: seq<GroupRow>, r: GroupRow, n: nat)
    requires WideRows(rows + [r], n) && |r.agg.buckets| == n && forall j :: 0 <= j < |rows| ==> Key(rows[j].values) != Key(r.values)
    ensures IsGroupOf(rows + [r], Group(r.values, [Point(r.bucket, r.agg)], Merged(Zero(n), r.agg)), |rows|, n)
  {
    hide Key;
    assert (rows + [r])[..|rows|] == rows;
    assert (rows + [r])[|rows|] == r;
    NoSeries(rows, Key(r.values));
    var p := Point(r.bucket, r.agg);
    assert AggsIn([]) == [] && [] + [p] == [p];
    AggsInStep([], p, n);
  }

  lemma {:induction false} GroupedStep(rows: seq<GroupRow>, r: GroupRow, groups: seq<Group>, first: seq<nat>, i: nat, n: nat)
    requires WideRows(rows + [r], n) && WideRows(rows, n) && |r.agg.buckets| == n && Grouped(rows, groups, first, n)
    requires i < |groups| && Key(groups[i].values) == Key(r.values)
    requires forall j :: 0 <= j < |groups| && j != i ==> Key(groups[j].values) != Key(r.values)
    ensures |groups[i].total.buckets| == n
    ensures var g := Group(groups[i].values, groups[i].series + [Point(r.bucket, r.agg)], Merged(groups[i].total, r.agg));
            Grouped(rows + [r], groups[i := g], first, n)
  {
    hide Key, IsGroupOf, HasGroup;
    TotalWide(rows, groups[i], first[i], n);
    assert r == (rows + [r])[|rows|];
    var g := Group(groups[i].values, groups[i].series + [Point(r.bucket, r.agg)], Merged(groups[i].total, r.agg));
    var after := groups[i := g];
    forall j | 0 <= j < |after| ensures IsGroupOf(rows + [r], after[j], first[j], n) {
      if j == i { OwnRow(rows, r, groups[i], first[i], n); } else { OtherRow(rows, r, groups[j], first[j], n); }
    }
    forall j | 0 <= j < |rows + [r]| ensures HasGroup(after, Key((rows + [r])[j].values)) {
      if j < |rows| { assert HasGroup(groups, Key(rows[j].values)); }
      KeepsGroups(groups, after, Key((rows + [r])[j].values), i);
    }
  }

  lemma {:induction false} KeepsGroups(groups: seq<Group>, after: seq<Group>, key: Bytes, i: nat)
    requires |groups| <= |after| && forall j :: 0 <= j < |groups| ==> after[j].values == groups[j].values
    requires i < |after| && (HasGroup(groups, key) || Key(after[i].values) == key)
    ensures HasGroup(after, key)
  {
    hide Key;
    if HasGroup(groups, key) {
      var j :| 0 <= j < |groups| && Key(groups[j].values) == key;
      assert Key(after[j].values) == key;
    }
  }

  lemma {:induction false} TotalWide(rows: seq<GroupRow>, g: Group, first: nat, n: nat)
    requires WideRows(rows, n) && IsGroupOf(rows, g, first, n)
    ensures |g.total.buckets| == n && first < |rows|
  {
    hide Key;
    SeriesWide(rows, Key(g.values), n);
  }

  lemma {:induction false} GroupedNew(rows: seq<GroupRow>, r: GroupRow, groups: seq<Group>, first: seq<nat>, n: nat)
    requires WideRows(rows + [r], n) && WideRows(rows, n) && |r.agg.buckets| == n && Grouped(rows, groups, first, n)
    requires forall j :: 0 <= j < |groups| ==> Key(groups[j].values) != Key(r.values)
    ensures var g := Group(r.values, [Point(r.bucket, r.agg)], Merged(Zero(n), r.agg));
            Grouped(rows + [r], groups + [g], first + [|rows|], n)
  {
    hide Key, IsGroupOf, HasGroup;
    assert r == (rows + [r])[|rows|];
    var g := Group(r.values, [Point(r.bucket, r.agg)], Merged(Zero(n), r.agg));
    forall j | 0 <= j < |rows| ensures Key(rows[j].values) != Key(r.values) {
      assert HasGroup(groups, Key(rows[j].values));
      HasGroupIndex(groups, Key(rows[j].values));
    }
    forall j | 0 <= j < |groups + [g]| ensures IsGroupOf(rows + [r], (groups + [g])[j], (first + [|rows|])[j], n) {
      if j < |groups| { OtherRow(rows, r, groups[j], first[j], n); } else { FirstRow(rows, r, n); }
    }
    forall j | 0 <= j < |first| ensures first[j] < |rows| { TotalWide(rows, groups[j], first[j], n); }
    forall j | 0 <= j < |rows + [r]| ensures HasGroup(groups + [g], Key((rows + [r])[j].values)) {
      if j < |rows| { assert HasGroup(groups, Key(rows[j].values)); }
      KeepsGroups(groups, groups + [g], Key((rows + [r])[j].values), |groups|);
    }
  }

  lemma {:induction false} HasGroupIndex(groups: seq<Group>, key: Bytes)
    requires HasGroup(groups, key)
    ensures exists i :: 0 <= i < |groups| && Key(groups[i].values) == key
  {}

  // ---- Conservation ----

  function Totals(groups: seq<Group>): seq<Agg> { seq(|groups|, i requires 0 <= i < |groups| => groups[i].total) }

  function RowAggs(rows: seq<GroupRow>): seq<Agg> { seq(|rows|, i requires 0 <= i < |rows| => rows[i].agg) }

  lemma {:induction false} MergeAllUpdate(aggs: seq<Agg>, i: nat, a: Agg, n: nat)
    requires Wide(aggs, n) && |a.buckets| == n && i < |aggs|
    ensures |aggs[i].buckets| == n && Wide(aggs[i := Merged(aggs[i], a)], n)
    ensures MergeAll(aggs[i := Merged(aggs[i], a)], n) == Merged(MergeAll(aggs, n), a)
  {
    hide Merged;
    assert aggs[i] in aggs;
    var init, last := aggs[..|aggs| - 1], aggs[|aggs| - 1];
    assert last in aggs;
    var after := aggs[i := Merged(aggs[i], a)];
    if i == |aggs| - 1 {
      assert after[..|after| - 1] == init;
      MergedAssociates(MergeAll(init, n), last, a);
    } else {
      assert after[..|after| - 1] == init[i := Merged(init[i], a)];
      MergeAllUpdate(init, i, a, n);
      MergedAssociates(MergeAll(init, n), a, last);
      MergedAssociates(MergeAll(init, n), last, a);
      MergedCommutes(a, last);
    }
  }

  lemma {:induction false} MergeAllPush(aggs: seq<Agg>, a: Agg, n: nat)
    requires Wide(aggs, n) && |a.buckets| == n
    ensures Wide(aggs + [a], n) && MergeAll(aggs + [a], n) == Merged(MergeAll(aggs, n), a)
  {
    hide Merged;
    assert (aggs + [a])[..|aggs|] == aggs;
  }

  /** Nothing lost, nothing counted twice: the groups' totals merge to the merge of all rows. */
  ghost predicate Conserves(rows: seq<GroupRow>, groups: seq<Group>, n: nat) {
    Wide(Totals(groups), n) && Wide(RowAggs(rows), n) && MergeAll(Totals(groups), n) == MergeAll(RowAggs(rows), n)
  }

  lemma {:induction false} ConservesUpdate(rows: seq<GroupRow>, r: GroupRow, groups: seq<Group>, i: nat, g: Group, n: nat)
    requires Conserves(rows, groups, n) && i < |groups| && |r.agg.buckets| == n
    requires |groups[i].total.buckets| == n && g.total == Merged(groups[i].total, r.agg)
    ensures Conserves(rows + [r], groups[i := g], n)
  {
    hide Merged, MergeAll;
    assert RowAggs(rows + [r]) == RowAggs(rows) + [r.agg];
    assert Totals(groups[i := g]) == Totals(groups)[i := g.total];
    MergeAllPush(RowAggs(rows), r.agg, n);
    MergeAllUpdate(Totals(groups), i, r.agg, n);
  }

  lemma {:induction false} ConservesPush(rows: seq<GroupRow>, r: GroupRow, groups: seq<Group>, g: Group, n: nat)
    requires Conserves(rows, groups, n) && |r.agg.buckets| == n && g.total == Merged(Zero(n), r.agg)
    ensures Conserves(rows + [r], groups + [g], n)
  {
    ZeroMerged(r.agg);
    hide Merged, MergeAll, Zero;
    assert RowAggs(rows + [r]) == RowAggs(rows) + [r.agg];
    assert Totals(groups + [g]) == Totals(groups) + [g.total];
    MergeAllPush(RowAggs(rows), r.agg, n);
    MergeAllPush(Totals(groups), r.agg, n);
  }

  /** The loop of measureGroups and valueGroups over the query's rows. */
  method GroupRows(rows: seq<GroupRow>, n: nat) returns (groups: seq<Group>, ghost first: seq<nat>)
    requires WideRows(rows, n)
    ensures Grouped(rows, groups, first, n)
    ensures Conserves(rows, groups, n)
  {
    hide Key, IsGroupOf, HasGroup, Conserves, Merged, Zero;
    groups, first := [], [];
    var index: map<Bytes, nat> := map[];
    NothingYet(n);
    for k := 0 to |rows|
      invariant Grouped(rows[..k], groups, first, n)
      invariant Conserves(rows[..k], groups, n)
      invariant Indexed(index, groups)
    {
      var r := rows[k];
      assert rows[..k + 1] == rows[..k] + [r];
      var key := GroupKey(r.values);
      if key in index {
        var i := index[key];
        var g := groups[i];
        GroupedStep(rows[..k], r, groups, first, i, n);
        g := Group(g.values, g.series + [Point(r.bucket, r.agg)], Merged(g.total, r.agg));
        ConservesUpdate(rows[..k], r, groups, i, g, n);
        groups := groups[i := g];
      } else {
        var g := Group(r.values, [Point(r.bucket, r.agg)], Merged(Zero(n), r.agg));
        GroupedNew(rows[..k], r, groups, first, n);
        ConservesPush(rows[..k], r, groups, g, n);
        index := index[key := |groups|];
        groups, first := groups + [g], first + [k];
      }
    }
    assert rows[..|rows|] == rows;
  }

  lemma {:induction false} NothingYet(n: nat)
    ensures Grouped([], [], [], n) && Conserves([], [], n)
  {
    assert RowAggs([]) == [] && Totals([]) == [];
  }

  /** On clean values groups are by value: no two share values and none mixes rows of
      different values. */
  lemma {:induction false} GroupedByValues(rows: seq<GroupRow>, groups: seq<Group>, first: seq<nat>, n: nat)
    requires WideRows(rows, n) && Grouped(rows, groups, first, n)
    requires forall j :: 0 <= j < |rows| ==> Clean(rows[j].values)
    ensures forall i, j :: 0 <= i < j < |groups| ==> groups[i].values != groups[j].values
    ensures forall i :: 0 <= i < |groups| ==> groups[i].series == RowsWith(rows, groups[i].values)
    ensures forall j :: 0 <= j < |rows| ==> HasValues(groups, rows[j].values)
  {
    hide Key, HasGroup, Clean, MergeAll;
    forall i | 0 <= i < |groups| ensures groups[i].series == RowsWith(rows, groups[i].values) && Clean(groups[i].values) {
      assert IsGroupOf(rows, groups[i], first[i], n);
      SeriesByValues(rows, groups[i].values);
    }
    forall i, j | 0 <= i < j < |groups| ensures groups[i].values != groups[j].values {
      assert IsGroupOf(rows, groups[i], first[i], n) && IsGroupOf(rows, groups[j], first[j], n);
      assert first[i] < first[j] && Key(rows[first[i]].values) != Key(groups[j].values);
    }
    forall j | 0 <= j < |rows| ensures HasValues(groups, rows[j].values) {
      assert HasGroup(groups, Key(rows[j].values));
      HasGroupIndex(groups, Key(rows[j].values));
      var i :| 0 <= i < |groups| && Key(groups[i].values) == Key(rows[j].values);
      KeyInjective(groups[i].values, rows[j].values);
    }
  }

  ghost predicate HasValues(groups: seq<Group>, values: Values) { exists i :: 0 <= i < |groups| && groups[i].values == values }

  function RowsWith(rows: seq<GroupRow>, values: Values): seq<Point> {
    if rows == [] then []
    else
      var init, r := RowsWith(rows[..|rows| - 1], values), rows[|rows| - 1];
      if r.values == values then init + [Point(r.bucket, r.agg)] else init
  }

  lemma {:induction false} SeriesByValues(rows: seq<GroupRow>, values: Values)
    requires Clean(values) && forall j :: 0 <= j < |rows| ==> Clean(rows[j].values)
    ensures SeriesOf(rows, Key(values)) == RowsWith(rows, values)
  {
    hide Key, Clean;
    if rows != [] {
      SeriesByValues(rows[..|rows| - 1], values);
      var r := rows[|rows| - 1];
      if Key(r.values) == Key(values) { KeyInjective(r.values, values); }
    }
  }

  // ---- Most recorded first, at most limit ----

  predicate MoreRecorded(a: Group, b: Group) { a.total.count > b.total.count }

  function Top(groups: seq<Group>, limit: nat): seq<Group> {
    var sorted := Sort(groups, MoreRecorded);
    if |sorted| > limit then sorted[..limit] else sorted
  }

  function Dropped(groups: seq<Group>, limit: nat): seq<Group> {
    var sorted := Sort(groups, MoreRecorded);
    if |sorted| > limit then sorted[limit..] else []
  }

  ghost predicate Earlier(groups: seq<Group>, x: Group, y: Group) {
    exists i, j :: 0 <= i < j < |groups| && groups[i] == x && groups[j] == y
  }

  /** The kept groups come first by count, ties in order of first occurrence, and no dropped
      group was recorded more often than a kept one. */
  lemma {:induction false} TopKeepsMost(groups: seq<Group>, limit: nat)
    ensures var top := Top(groups, limit);
            && |top| == (if |groups| > limit then limit else |groups|)
            && (forall i, j :: 0 <= i < j < |top| ==>
                  top[i].total.count > top[j].total.count || (top[i].total.count == top[j].total.count && Earlier(groups, top[i], top[j])))
            && multiset(top + Dropped(groups, limit)) == multiset(groups)
            && (forall i, j :: 0 <= i < |top| && 0 <= j < |Dropped(groups, limit)| ==> top[i].total.count >= Dropped(groups, limit)[j].total.count)
  {
    hide Sort, Top, Dropped, Earlier;
    TopParts(groups, limit);
    SortElements(groups, MoreRecorded);
    ByCount(groups);
    var sorted, top, dropped := Sort(groups, MoreRecorded), Top(groups, limit), Dropped(groups, limit);
    assert forall i :: 0 <= i < |top| ==> top[i] == sorted[i];
    assert forall j :: 0 <= j < |dropped| ==> dropped[j] == sorted[|top| + j];
  }

  lemma {:induction false} TopParts(groups: seq<Group>, limit: nat)
    ensures Top(groups, limit) + Dropped(groups, limit) == Sort(groups, MoreRecorded)
    ensures |Top(groups, limit)| == (if |groups| > limit then limit else |groups|)
  {
    SortElements(groups, MoreRecorded);
    hide Sort;
  }

  lemma {:induction false} ByCount(groups: seq<Group>)
    ensures var s := Sort(groups, MoreRecorded);
            forall i, j :: 0 <= i < j < |s| ==>
              s[i].total.count > s[j].total.count || (s[i].total.count == s[j].total.count && Earlier(groups, s[i], s[j]))
  {
    hide Sort;
    var s := Sort(groups, MoreRecorded);
    var earlier := (x: Group, y: Group) => Earlier(groups, x, y);
    SortStable(groups, MoreRecorded, earlier);
    forall i, j | 0 <= i < j < |s|
      ensures s[i].total.count > s[j].total.count || (s[i].total.count == s[j].total.count && Earlier(groups, s[i], s[j]))
    {
      assert StableBefore(MoreRecorded, earlier, s[i], s[j]);
    }
  }
}
