/** The in-place rewriting of a batch's rows to what their tenant's vocabularies admit
    (internal/otlp/counters.go, dims.go, reasons.go). */
module Rows {
  import opened Prelude
  import opened Sums
  import opened GroupPlan
  import opened Admission
  import opened Admitter
  import Dims

  /** An attribute's value: a string, or anything else. */
  datatype Value = Str(s: string) | NotString

  type Attrs = map<string, Value>

  datatype Row = Row(metric: string, attrs: Attrs)

  datatype Instrument = Instrument(metric: string, nameAttr: string, labelAttr: string, nameLimit: int, labelLimit: int)

  /** a[key].(string), "" when absent or not a string */
  function StrAt(a: Attrs, key: string): string {
    if key in a && a[key].Str? then a[key].s else ""
  }

  /** vendorKey */
  function VendorKey(a: Attrs, it: Instrument): CounterKey {
    Item(StrAt(a, it.nameAttr), StrAt(a, it.labelAttr))
  }

  predicate Ours(r: Row, it: Instrument) { r.metric == it.metric }

  // ---- Counting rows ----

  /** How many rows satisfy p. */
  function CountIf(rows: seq<Row>, p: Row -> bool): nat {
    if rows == [] then 0 else CountIf(rows[..|rows| - 1], p) + if p(rows[|rows| - 1]) then 1 else 0
  }

  lemma {:induction false} CountIfAgree(rows: seq<Row>, p: Row -> bool, q: Row -> bool)
    requires forall r :: r in rows ==> p(r) == q(r)
    ensures CountIf(rows, p) == CountIf(rows, q)
  {
    if rows != [] {
      assert rows[|rows| - 1] in rows;
      CountIfAgree(rows[..|rows| - 1], p, q);
    }
  }

  function AddOne<K(==)>(counts: map<K, nat>, k: K): map<K, nat> {
    counts[k := Count(counts, k) + 1]
  }

  /** The batch's data points per (name, label). */
  function KeyCounts(rows: seq<Row>, it: Instrument): map<CounterKey, nat> {
    if rows == [] then map[]
    else
      var init, last := KeyCounts(rows[..|rows| - 1], it), rows[|rows| - 1];
      if Ours(last, it) then AddOne(init, VendorKey(last.attrs, it)) else init
  }

  lemma {:induction false} SumAddOne<K(!new)>(s: set<K>, counts: map<K, nat>, k: K)
    ensures Sum(s, AddOne(counts, k)) == Sum(s, counts) + if k in s then 1 else 0
  {
    if k in s {
      SumRemove(s, k, counts);
      SumRemove(s, k, AddOne(counts, k));
      SumAgree(s - {k}, counts, AddOne(counts, k));
    } else {
      SumAgree(s, counts, AddOne(counts, k));
    }
  }

  function KeyIn(it: Instrument, s: set<CounterKey>): Row -> bool {
    (r: Row) => Ours(r, it) && VendorKey(r.attrs, it) in s
  }

  /** A total over keys is a number of rows. */
  lemma {:induction false} SumCountsRows(rows: seq<Row>, it: Instrument, s: set<CounterKey>)
    ensures Sum(s, KeyCounts(rows, it)) == CountIf(rows, KeyIn(it, s))
  {
    hide VendorKey;
    if rows == [] {
      SumZero(s, KeyCounts(rows, it));
    } else {
      var init, last := rows[..|rows| - 1], rows[|rows| - 1];
      SumCountsRows(init, it, s);
      if Ours(last, it) { SumAddOne(s, KeyCounts(init, it), VendorKey(last.attrs, it)); }
    }
  }

  lemma {:induction false} SumZero<K(!new)>(s: set<K>, counts: map<K, nat>)
    requires forall k :: k in s ==> Count(counts, k) == 0
    ensures Sum(s, counts) == 0
  {
    if s != {} {
      var x :| x in s;
      SumRemove(s, x, counts);
      SumZero(s - {x}, counts);
    }
  }

  lemma {:induction false} KeyCounted(rows: seq<Row>, it: Instrument, i: nat)
    requires i < |rows| && Ours(rows[i], it)
    ensures VendorKey(rows[i].attrs, it) in KeyCounts(rows, it)
  {
    hide VendorKey;
    if i < |rows| - 1 { KeyCounted(rows[..|rows| - 1], it, i); }
  }

  // ---- capVendorInstrument's rewrite ----

  /** The switch of capVendorInstrument. */
  function Rewrite(a: Attrs, it: Instrument, d: Decision): Attrs {
    var k := VendorKey(a, it);
    if k.group !in d.names then a[it.nameAttr := Str(OTHER)] - {it.labelAttr}
    else if k.group == OTHER then a - {it.labelAttr}
    else if k.value != "" && k.value != OTHER && k !in d.labels then a[it.labelAttr := Str(OTHER)]
    else a
  }

  function RewriteRow(r: Row, it: Instrument, d: Decision): Row {
    if Ours(r, it) then r.(attrs := Rewrite(r.attrs, it, d)) else r
  }

  /** What a stored row of the instrument looks like. */
  ghost predicate Capped(a: Attrs, it: Instrument, d: Decision) {
    var k := VendorKey(a, it);
    && k.group in d.names
    && (k.group == OTHER ==> it.labelAttr !in a)
    && (k.group != OTHER ==> k.value == "" || k.value == OTHER || k in d.labels)
  }

  /** Every row of the instrument ends with an admitted name or "other", no label under
      "other", and otherwise no label, "other" or an admitted one; no other attribute and no
      other metric's row changes. */
  lemma {:induction false} RewriteCaps(r: Row, it: Instrument, d: Decision)
    requires it.nameAttr != it.labelAttr && OTHER in d.names
    ensures var s := RewriteRow(r, it, d);
            && s.metric == r.metric
            && (Ours(r, it) ==> Capped(s.attrs, it, d))
            && (!Ours(r, it) ==> s == r)
            && (forall k :: k != it.nameAttr && k != it.labelAttr ==> (k in s.attrs <==> k in r.attrs) && (k in r.attrs ==> s.attrs[k] == r.attrs[k]))
  {}

  function LosesName(it: Instrument, d: Decision): Row -> bool {
    (r: Row) => Ours(r, it) && StrAt(r.attrs, it.nameAttr) !in d.names
  }

  function LosesLabel(it: Instrument, d: Decision): Row -> bool {
    (r: Row) => Ours(r, it) && StrAt(r.attrs, it.nameAttr) in d.names && StrAt(r.attrs, it.nameAttr) != OTHER
                && StrAt(r.attrs, it.labelAttr) != "" && StrAt(r.attrs, it.labelAttr) != OTHER && VendorKey(r.attrs, it) !in d.labels
  }

  lemma {:induction false} KeysOfRows(rows: seq<Row>, it: Instrument)
    ensures forall r :: r in rows && Ours(r, it) ==> VendorKey(r.attrs, it) in KeyCounts(rows, it)
  {
    forall r | r in rows && Ours(r, it) ensures VendorKey(r.attrs, it) in KeyCounts(rows, it) {
      var i :| 0 <= i < |rows| && rows[i] == r;
      KeyCounted(rows, it, i);
    }
  }

  /** The decision's counters are the numbers of rows that lose their name, and that keep it
      and lose their label. */
  lemma {:induction false} FoldCountersCountRows(rows: seq<Row>, it: Instrument, at: int, o: Observed)
    requires o.pairs <= BatchPairs(KeyCounts(rows, it))
    ensures var b := Batch(KeyCounts(rows, it), it.nameLimit, it.labelLimit, at);
            var d := Decide(b, o);
            && d.foldedNames == CountIf(rows, LosesName(it, d))
            && d.foldedLabels == CountIf(rows, LosesLabel(it, d))
  {
    hide Decide, KeyCounts;
    var b := Batch(KeyCounts(rows, it), it.nameLimit, it.labelLimit, at);
    var d := Decide(b, o);
    FoldedNamesCounted(b, o);
    FoldedLabelsCounted(b, o);
    SumCountsRows(rows, it, NameFolds(b.counts, d));
    SumCountsRows(rows, it, LabelFolds(b.counts, d));
    KeysOfRows(rows, it);
    CountIfAgree(rows, KeyIn(it, NameFolds(b.counts, d)), LosesName(it, d));
    CountIfAgree(rows, KeyIn(it, LabelFolds(b.counts, d)), LosesLabel(it, d));
  }

  // ---- capDimValues ----

  predicate IsTuple(text: string) { '=' in text }

  /** The (name, key, value) occurrences of one row. */
  function DimsOf(r: Row, it: Instrument): set<DimValueKey> {
    var k := VendorKey(r.attrs, it);
    if !Ours(r, it) || !IsTuple(k.value) then {}
    else
      var dims := Dims.Parse(k.value);
      set key | key in dims :: Item(DimGroup(k.group, key), dims[key])
  }

  ghost function AddAll<K(!new)>(counts: map<K, nat>, keys: set<K>): map<K, nat> {
    map k | k in counts.Keys + keys :: Count(counts, k) + if k in keys then 1 else 0
  }

  ghost function DimCounts(rows: seq<Row>, it: Instrument): map<DimValueKey, nat> {
    if rows == [] then map[] else AddAll(DimCounts(rows[..|rows| - 1], it), DimsOf(rows[|rows| - 1], it))
  }

  lemma {:induction false} DimCounted(rows: seq<Row>, it: Instrument, i: nat, k: DimValueKey)
    requires i < |rows| && k in DimsOf(rows[i], it)
    ensures k in DimCounts(rows, it)
  {
    hide DimsOf;
    if i < |rows| - 1 { DimCounted(rows[..|rows| - 1], it, i, k); }
  }

  lemma {:induction false} DimCountsPositive(rows: seq<Row>, it: Instrument, k: DimValueKey)
    requires k in DimCounts(rows, it)
    ensures DimCounts(rows, it)[k] > 0
  {
    hide DimsOf;
    if rows != [] {
      var init := rows[..|rows| - 1];
      if k in DimCounts(init, it) { DimCountsPositive(init, it, k); }
    }
  }

  /** The keys of a row's tuple whose value was not admitted. */
  function FoldKeys(r: Row, it: Instrument, values: set<DimValueKey>): set<string> {
    var k := VendorKey(r.attrs, it);
    var dims := Dims.Parse(k.value);
    if !Ours(r, it) || !IsTuple(k.value) then {}
    else set key | key in dims && Item(DimGroup(k.group, key), dims[key]) !in values
  }

  function RewriteDims(r: Row, it: Instrument, values: set<DimValueKey>): Row {
    var fold := FoldKeys(r, it, values);
    if fold == {} then r
    else r.(attrs := r.attrs[it.labelAttr := Str(Dims.Tuple(Dims.Folded(Dims.Parse(StrAt(r.attrs, it.labelAttr)), fold)))])
  }

  function FoldsDim(it: Instrument, values: set<DimValueKey>): Row -> bool {
    (r: Row) => FoldKeys(r, it, values) != {}
  }

  /** A canonical tuple stays one, over the same keys, with every value admitted or "other". */
  lemma {:induction false} RewriteDimsCaps(r: Row, it: Instrument, values: set<DimValueKey>, d: map<string, string>)
    requires Ours(r, it) && it.nameAttr != it.labelAttr
    requires d != map[] && Dims.Clean(d) && StrAt(r.attrs, it.labelAttr) == Dims.Tuple(d)
    ensures var s := RewriteDims(r, it, values);
            var e := Dims.Parse(StrAt(s.attrs, it.labelAttr));
            && s.metric == r.metric && StrAt(s.attrs, it.nameAttr) == StrAt(r.attrs, it.nameAttr)
            && e.Keys == d.Keys && Dims.Clean(e) && StrAt(s.attrs, it.labelAttr) == Dims.Tuple(e)
            && forall k :: k in d ==>
                 var v := Item(DimGroup(StrAt(r.attrs, it.nameAttr), k), d[k]);
                 e[k] == if v in values then d[k] else OTHER
  {
    hide Dims.Tuple, Dims.Parse;
    Dims.TupleParses(d);
    Dims.TupleHasEquals(d);
    var fold := FoldKeys(r, it, values);
    Dims.FoldedTuple(Dims.Tuple(d), d, fold);
    assert fold == {} ==> Dims.Folded(d, fold) == d;
  }

  /** With nothing folded no row has anything to fold: returning early changes nothing. */
  lemma {:induction false} NothingFolded(rows: seq<Row>, it: Instrument, b: DimBatch, known: set<DimValueKey>, sizes: map<DimGroup, nat>)
    requires b.counts == DimCounts(rows, it)
    requires DecideDims(b, known, sizes).folded == 0
    ensures forall r :: r in rows ==> FoldKeys(r, it, DecideDims(b, known, sizes).values) == {}
  {
    hide DecideDims, DimCounts;
    var d := DecideDims(b, known, sizes);
    DimFoldsCounted(b, known, sizes);
    forall k | k in b.counts ensures k in d.values {
      if k !in d.values {
        DimCountsPositive(rows, it, k);
        SumRemove(b.counts.Keys - d.values, k, b.counts);
      }
    }
    forall r | r in rows ensures FoldKeys(r, it, d.values) == {} {
      var i :| 0 <= i < |rows| && rows[i] == r;
      forall key | key in FoldKeys(r, it, d.values) ensures false {
        var k := VendorKey(r.attrs, it);
        var v := Item(DimGroup(k.group, key), Dims.Parse(k.value)[key]);
        assert v in DimsOf(r, it);
        DimCounted(rows, it, i, v);
      }
    }
  }

  // ---- The operations on rows ----

  function AllRewritten(rows: seq<Row>, it: Instrument, d: Decision): seq<Row> {
    seq(|rows|, i requires 0 <= i < |rows| => RewriteRow(rows[i], it, d))
  }

  function AllDimsRewritten(rows: seq<Row>, it: Instrument, values: set<DimValueKey>): seq<Row> {
    seq(|rows|, i requires 0 <= i < |rows| => RewriteDims(rows[i], it, values))
  }

  /** What capDimValues decides for rows, given the tenant's dimension values. */
  ghost function DimDecisionFor(rows: seq<Row>, it: Instrument, limit: int, at: int, dims: map<DimValueKey, Entry>): DimDecision {
    var b := DimBatch(DimCounts(rows, it), limit, at);
    DecideDims(b, DimKeys(b.counts) * dims.Keys, DimSizes(dims.Keys))
  }

  function Occurrences(name: string, dims: map<string, string>, keys: set<string>): set<DimValueKey>
    requires keys <= dims.Keys
  {
    set key | key in keys :: Item(DimGroup(name, key), dims[key])
  }

  lemma {:induction false} OneOccurrence(before: map<DimValueKey, nat>, name: string, dims: map<string, string>, keys: set<string>, key: string)
    requires keys <= dims.Keys && key in dims && key !in keys
    ensures var v := Item(DimGroup(name, key), dims[key]);
            AddOne(AddAll(before, Occurrences(name, dims, keys)), v) == AddAll(before, Occurrences(name, dims, keys + {key}))
  {
    var v := Item(DimGroup(name, key), dims[key]);
    assert Occurrences(name, dims, keys + {key}) == Occurrences(name, dims, keys) + {v};
    assert v !in Occurrences(name, dims, keys);
  }

  lemma {:induction false} AddNothing(before: map<DimValueKey, nat>)
    ensures AddAll(before, {}) == before
  {}

  /** The inner loop of capDimValues' count. */
  method TallyDims(before: map<DimValueKey, nat>, r: Row, it: Instrument) returns (counts: map<DimValueKey, nat>)
    ensures counts == AddAll(before, DimsOf(r, it))
  {
    hide Dims.Parse, AddAll, AddOne;
    counts := before;
    AddNothing(before);
    var k := VendorKey(r.attrs, it);
    if !Ours(r, it) || !IsTuple(k.value) { return; }
    var dims := Dims.Parse(k.value);
    var todo := dims.Keys;
    assert dims.Keys - todo == {};
    assert Occurrences(k.group, dims, {}) == {};
    while todo != {}
      invariant todo <= dims.Keys
      invariant counts == AddAll(before, Occurrences(k.group, dims, dims.Keys - todo))
    {
      var key :| key in todo;
      OneOccurrence(before, k.group, dims, dims.Keys - todo, key);
      assert dims.Keys - todo + {key} == dims.Keys - (todo - {key});
      todo := todo - {key};
      counts := AddOne(counts, Item(DimGroup(k.group, key), dims[key]));
    }
    assert dims.Keys - todo == dims.Keys;
    assert Occurrences(k.group, dims, dims.Keys) == DimsOf(r, it);
  }

  method CountDims(rows: array<Row>, it: Instrument) returns (counts: map<DimValueKey, nat>)
    ensures counts == DimCounts(rows[..], it)
  {
    hide DimsOf, AddAll;
    counts := map[];
    for i := 0 to rows.Length
      invariant counts == DimCounts(rows[..i], it)
    {
      assert rows[..i + 1][..i] == rows[..i];
      counts := TallyDims(counts, rows[i], it);
    }
    assert rows[..rows.Length] == rows[..];
  }

  /** capDimValues' second loop. */
  method FoldRows(rows: array<Row>, it: Instrument, values: set<DimValueKey>) returns (foldedPoints: nat)
    modifies rows
    ensures rows[..] == AllDimsRewritten(old(rows[..]), it, values)
    ensures foldedPoints == CountIf(old(rows[..]), FoldsDim(it, values))
  {
    hide RewriteDims, FoldKeys;
    ghost var was := rows[..];
    foldedPoints := 0;
    for i := 0 to rows.Length
      invariant forall j :: 0 <= j < i ==> rows[j] == RewriteDims(was[j], it, values)
      invariant forall j :: i <= j < rows.Length ==> rows[j] == was[j]
      invariant foldedPoints == CountIf(was[..i], FoldsDim(it, values))
    {
      assert was[..i + 1][..i] == was[..i];
      var row, folded := FoldRow(rows[i], it, values);
      rows[i] := row;
      if folded { foldedPoints := foldedPoints + 1; }
    }
    assert was[..rows.Length] == was;
  }

  /** capDimValues */
  method CapDimValues(rows: array<Row>, it: Instrument, limit: int, at: int, w: Writer) returns (foldedPoints: nat)
    modifies rows, w`dims, w`overflow
    ensures var was := old(rows[..]);
            var d := DimDecisionFor(was, it, limit, at, old(w.dims));
            && rows[..] == AllDimsRewritten(was, it, d.values)
            && foldedPoints == CountIf(was, FoldsDim(it, d.values))
    ensures w.overflow == RecordDims(old(w.overflow), foldedPoints, at)
    ensures var b := DimBatch(DimCounts(old(rows[..]), it), limit, at);
            w.dims == CommitDims(b, DimKeys(b.counts) * old(w.dims).Keys, DimSizes(old(w.dims).Keys), old(w.dims))
  {
    hide DimCounts, DecideDims, CommitDims, DimKeys, DimSizes, AllDimsRewritten, CountIf, FoldsDim;
    ghost var was := rows[..];
    var counts := CountDims(rows, it);
    ghost var b := DimBatch(counts, limit, at);
    ghost var known, sizes := DimKeys(counts) * w.dims.Keys, DimSizes(w.dims.Keys);
    foldedPoints := 0;
    if counts == map[] {
      NoDims(b, known, sizes, w.dims);
      Unfolded(was, it, b, known, sizes);
      return;
    }
    var d := w.AdmitDims(counts, limit, at);
    if d.folded == 0 {
      Unfolded(was, it, b, known, sizes);
      return;
    }
    foldedPoints := FoldRows(rows, it, d.values);
    w.RecordFoldedDims(foldedPoints, at);
  }

  /** One turn of capDimValues' second loop. */
  method FoldRow(r: Row, it: Instrument, values: set<DimValueKey>) returns (row: Row, folded: bool)
    ensures row == RewriteDims(r, it, values)
    ensures folded <==> FoldKeys(r, it, values) != {}
  {
    hide Dims.Parse, Dims.Tuple;
    row, folded := r, false;
    var k := VendorKey(r.attrs, it);
    if !Ours(r, it) || !IsTuple(k.value) { return; }
    var parsed := Dims.Parse(k.value);
    var dims, todo := parsed, parsed.Keys;
    while todo != {}
      invariant todo <= parsed.Keys
      invariant dims == Dims.Folded(parsed, FoldKeys(r, it, values) - todo)
      invariant folded <==> FoldKeys(r, it, values) - todo != {}
    {
      var key :| key in todo;
      ghost var before := FoldKeys(r, it, values) - todo;
      todo := todo - {key};
      if Item(DimGroup(k.group, key), parsed[key]) !in values {
        assert FoldKeys(r, it, values) - todo == before + {key};
        dims := dims[key := OTHER];
        folded := true;
      } else {
        assert FoldKeys(r, it, values) - todo == before;
      }
    }
    assert FoldKeys(r, it, values) - {} == FoldKeys(r, it, values);
    if folded {
      row := r.(attrs := r.attrs[it.labelAttr := Str(Dims.Tuple(dims))]);
    }
  }

  lemma {:induction false} Unfolded(rows: seq<Row>, it: Instrument, b: DimBatch, known: set<DimValueKey>, sizes: map<DimGroup, nat>)
    requires b.counts == DimCounts(rows, it)
    requires DecideDims(b, known, sizes).folded == 0
    ensures var values := DecideDims(b, known, sizes).values;
            AllDimsRewritten(rows, it, values) == rows && CountIf(rows, FoldsDim(it, values)) == 0
  {
    hide DecideDims, DimCounts, FoldKeys;
    NothingFolded(rows, it, b, known, sizes);
    var values := DecideDims(b, known, sizes).values;
    CountIfNone(rows, FoldsDim(it, values));
    forall i | 0 <= i < |rows| ensures RewriteDims(rows[i], it, values) == rows[i] { assert rows[i] in rows; }
  }

  lemma {:induction false} CountIfNone(rows: seq<Row>, p: Row -> bool)
    requires forall r :: r in rows ==> !p(r)
    ensures CountIf(rows, p) == 0
  {
    if rows != [] {
      assert rows[|rows| - 1] in rows;
      CountIfNone(rows[..|rows| - 1], p);
    }
  }

  /** What capVendorInstrument decides for rows, given the tenant's names and labels. */
  ghost function DecisionFor(rows: seq<Row>, it: Instrument, at: int, t: Tables): Decision {
    var b := Batch(KeyCounts(rows, it), it.nameLimit, it.labelLimit, at);
    Decide(b, Observe(b, t))
  }

  method CountKeys(rows: array<Row>, it: Instrument) returns (counts: map<CounterKey, nat>)
    ensures counts == KeyCounts(rows[..], it)
  {
    hide VendorKey;
    counts := map[];
    for i := 0 to rows.Length
      invariant counts == KeyCounts(rows[..i], it)
    {
      assert rows[..i + 1][..i] == rows[..i];
      if rows[i].metric == it.metric {
        counts := AddOne(counts, VendorKey(rows[i].attrs, it));
      }
    }
    assert rows[..rows.Length] == rows[..];
  }

  method RewriteRows(rows: array<Row>, it: Instrument, d: Decision)
    modifies rows
    ensures rows[..] == AllRewritten(old(rows[..]), it, d)
  {
    hide Rewrite;
    for i := 0 to rows.Length
      invariant forall j :: 0 <= j < i ==> rows[j] == RewriteRow(old(rows[j]), it, d)
      invariant forall j :: i <= j < rows.Length ==> rows[j] == old(rows[j])
    {
      if rows[i].metric == it.metric {
        var a := RewriteAttrs(rows[i].attrs, it, d);
        rows[i] := rows[i].(attrs := a);
      }
    }
  }

  /** capVendorInstrument: dimension values first, then names and labels as they will be
      stored. */
  method CapVendorInstrument(rows: array<Row>, it: Instrument, dimLimit: int, at: int, w: Writer)
    modifies rows, w`names, w`labels, w`dims, w`overflow
    ensures var was := old(rows[..]);
            var mid := AllDimsRewritten(was, it, DimDecisionFor(was, it, dimLimit, at, old(w.dims)).values);
            rows[..] == AllRewritten(mid, it, DecisionFor(mid, it, at, old(w.Vendor())))
    ensures var was := old(rows[..]);
            var values := DimDecisionFor(was, it, dimLimit, at, old(w.dims)).values;
            var b := Batch(KeyCounts(AllDimsRewritten(was, it, values), it), it.nameLimit, it.labelLimit, at);
            var t := old(w.Vendor()).(overflow := RecordDims(old(w.overflow), CountIf(was, FoldsDim(it, values)), at));
            w.Vendor() == if b.counts == map[] then t else Commit(b, Observe(b, t), t)
    ensures var b := DimBatch(DimCounts(old(rows[..]), it), dimLimit, at);
            w.dims == CommitDims(b, DimKeys(b.counts) * old(w.dims).Keys, DimSizes(old(w.dims).Keys), old(w.dims))
  {
    hide DimDecisionFor, AllDimsRewritten, AllRewritten, KeyCounts, Decide, Commit, Observe, CommitDims, DimCounts, RecordDims, CountIf, FoldsDim, DimKeys, DimSizes;
    ghost var t := w.Vendor();
    var _ := CapDimValues(rows, it, dimLimit, at, w);
    ghost var mid := rows[..];
    var counts := CountKeys(rows, it);
    if counts == map[] {
      NoneOurs(mid, it, DecisionFor(mid, it, at, t));
      return;
    }
    ObserveIgnoresOverflow(Batch(counts, it.nameLimit, it.labelLimit, at), t, w.Vendor());
    var d := w.Admit(counts, it.nameLimit, it.labelLimit, at);
    RewriteRows(rows, it, d);
  }

  lemma {:induction false} ObserveIgnoresOverflow(b: Batch, t: Tables, u: Tables)
    requires t.names == u.names && t.labels == u.labels
    ensures Observe(b, t) == Observe(b, u)
  {}

  lemma {:induction false} NoneOurs(rows: seq<Row>, it: Instrument, d: Decision)
    requires KeyCounts(rows, it) == map[]
    ensures AllRewritten(rows, it, d) == rows
  {
    hide VendorKey, Rewrite;
    KeysOfRows(rows, it);
    forall i | 0 <= i < |rows| ensures !Ours(rows[i], it) { assert rows[i] in rows; }
  }

  /** The switch, statement by statement. */
  method RewriteAttrs(before: Attrs, it: Instrument, d: Decision) returns (a: Attrs)
    ensures a == Rewrite(before, it, d)
  {
    a := before;
    var k := VendorKey(a, it);
    if k.group !in d.names {
      a := a[it.nameAttr := Str(OTHER)];
      a := a - {it.labelAttr};
    } else if k.group == OTHER {
      a := a - {it.labelAttr};
    } else if k.value != "" && k.value != OTHER && k !in d.labels {
      a := a[it.labelAttr := Str(OTHER)];
    }
  }

  /** Every dimension value of the row's label, if that is a tuple, was admitted or is "other". */
  ghost predicate DimsCapped(a: Attrs, it: Instrument, values: set<DimValueKey>) {
    var k := VendorKey(a, it);
    var dims := Dims.Parse(k.value);
    IsTuple(k.value) ==> forall key :: key in dims ==> dims[key] == OTHER || Item(DimGroup(k.group, key), dims[key]) in values
  }

  /** So it is after capDimValues, whatever the label was. */
  lemma {:induction false} DimsEndCapped(r: Row, it: Instrument, values: set<DimValueKey>)
    requires Ours(r, it) && it.nameAttr != it.labelAttr
    ensures DimsCapped(RewriteDims(r, it, values).attrs, it, values)
  {
    hide Dims.Parse, Dims.Tuple;
    var fold, k := FoldKeys(r, it, values), VendorKey(r.attrs, it);
    var dims := Dims.Parse(k.value);
    assert IsTuple(k.value) ==> forall key :: key in dims ==> key in fold || Item(DimGroup(k.group, key), dims[key]) in values;
    if fold != {} {
      Dims.ParseClean(StrAt(r.attrs, it.labelAttr));
      Dims.FoldedClean(dims, fold);
      Dims.TupleParses(Dims.Folded(dims, fold));
    }
  }

  /** Capping names and labels leaves a tuple as it was, under the name it had. */
  lemma {:induction false} RewriteKeepsDims(a: Attrs, it: Instrument, d: Decision, values: set<DimValueKey>)
    requires it.nameAttr != it.labelAttr && DimsCapped(a, it, values)
    ensures DimsCapped(Rewrite(a, it, d), it, values)
  {
    hide Dims.Parse;
    assert !IsTuple(OTHER) && !IsTuple("");
    var b := Rewrite(a, it, d);
    assert IsTuple(StrAt(b, it.labelAttr)) ==> VendorKey(b, it) == VendorKey(a, it);
  }

  /** All of it together: the numbers recorded are the numbers of rows rewritten, and every
      row ends capped, its dimension values too. */
  lemma {:induction false} CappedRows(was: seq<Row>, it: Instrument, dimLimit: int, at: int, dims: map<DimValueKey, Entry>, t: Tables)
    requires it.nameAttr != it.labelAttr
    ensures var values := DimDecisionFor(was, it, dimLimit, at, dims).values;
            var mid := AllDimsRewritten(was, it, values);
            var d := DecisionFor(mid, it, at, t);
            var end := AllRewritten(mid, it, d);
            && |end| == |was|
            && (forall i :: 0 <= i < |was| ==>
                  if Ours(was[i], it) then Ours(end[i], it) && Capped(end[i].attrs, it, d) && DimsCapped(end[i].attrs, it, values)
                  else end[i] == was[i])
            && d.foldedNames == CountIf(mid, LosesName(it, d))
            && d.foldedLabels == CountIf(mid, LosesLabel(it, d))
  {
    hide DimDecisionFor, KeyCounts, Decide, Rewrite, RewriteDims, FoldKeys, LosesName, LosesLabel, CountIf, Capped, DimsCapped;
    var values := DimDecisionFor(was, it, dimLimit, at, dims).values;
    var mid := AllDimsRewritten(was, it, values);
    var b := Batch(KeyCounts(mid, it), it.nameLimit, it.labelLimit, at);
    var d := DecisionFor(mid, it, at, t);
    FoldCountersCountRows(mid, it, at, Observe(b, t));
    DecisionHasOther(b, Observe(b, t));
    forall i | 0 <= i < |was|
      ensures var end := AllRewritten(mid, it, d);
              if Ours(was[i], it) then Ours(end[i], it) && Capped(end[i].attrs, it, d) && DimsCapped(end[i].attrs, it, values)
              else end[i] == was[i]
    {
      OthersUntouched(was[i], it, values);
      RewriteCaps(mid[i], it, d);
      if Ours(was[i], it) {
        DimsEndCapped(was[i], it, values);
        RewriteKeepsDims(mid[i].attrs, it, d, values);
      }
    }
  }

  lemma {:induction false} DecisionHasOther(b: Batch, o: Observed)
    ensures OTHER in Decide(b, o).names
  {
    hide KeptNames;
  }

  lemma {:induction false} OthersUntouched(r: Row, it: Instrument, values: set<DimValueKey>)
    ensures RewriteDims(r, it, values).metric == r.metric
    ensures !Ours(r, it) ==> RewriteDims(r, it, values) == r
  {
    hide Dims.Parse;
  }

  // ---- capErrorReasons ----

  const REASON_ATTR := "cli.error.reason"

  function Reason(a: Attrs): Option<string> {
    if REASON_ATTR in a && a[REASON_ATTR].Str? then Some(a[REASON_ATTR].s) else None
  }

  function ReasonCounts(attrs: seq<Attrs>): map<string, nat> {
    if attrs == [] then map[]
    else
      var init, last := ReasonCounts(attrs[..|attrs| - 1]), Reason(attrs[|attrs| - 1]);
      if last.Some? then AddOne(init, last.value) else init
  }

  function RewriteReason(a: Attrs, admitted: set<string>): Attrs {
    if Reason(a).Some? && Reason(a).value !in admitted then a[REASON_ATTR := Str(OTHER)] else a
  }

  function AllReasonsRewritten(attrs: seq<Attrs>, admitted: set<string>): seq<Attrs> {
    seq(|attrs|, i requires 0 <= i < |attrs| => RewriteReason(attrs[i], admitted))
  }

  ghost function ReasonDecisionFor(attrs: seq<Attrs>, limit: int, at: int, reasons: map<string, Entry>): ReasonDecision {
    var b := ReasonBatch(ReasonCounts(attrs), limit, at);
    DecideReasons(b, Reasons(b) * reasons.Keys, |reasons|)
  }

  function LosingReasons(attrs: seq<Attrs>, s: set<string>): nat {
    if attrs == [] then 0
    else
      var last := Reason(attrs[|attrs| - 1]);
      LosingReasons(attrs[..|attrs| - 1], s) + if last.Some? && last.value in s then 1 else 0
  }

  lemma {:induction false} SumCountsReasons(attrs: seq<Attrs>, s: set<string>)
    ensures Sum(s, ReasonCounts(attrs)) == LosingReasons(attrs, s)
  {
    hide Reason;
    if attrs == [] {
      SumZero(s, ReasonCounts(attrs));
    } else {
      var init, last := attrs[..|attrs| - 1], Reason(attrs[|attrs| - 1]);
      SumCountsReasons(init, s);
      if last.Some? { SumAddOne(s, ReasonCounts(init), last.value); }
    }
  }

  /** The folded count is the number of records rewritten to "other". */
  lemma {:induction false} FoldedReasonsCountRecords(attrs: seq<Attrs>, limit: int, at: int, reasons: map<string, Entry>)
    ensures var d := ReasonDecisionFor(attrs, limit, at, reasons);
            d.folded == LosingReasons(attrs, ReasonCounts(attrs).Keys - d.admitted)
  {
    hide DecideReasons, ReasonCounts, LosingReasons;
    var b := ReasonBatch(ReasonCounts(attrs), limit, at);
    ReasonFoldsCounted(b, Reasons(b) * reasons.Keys, |reasons|);
    SumCountsReasons(attrs, b.counts.Keys - ReasonDecisionFor(attrs, limit, at, reasons).admitted);
  }

  /** capErrorReasons, with the tenant's limit resolved */
  method CapErrorReasons(attrs: array<Attrs>, limit: int, at: int, w: Writer)
    modifies attrs, w`reasons, w`reasonOverflow
    ensures attrs[..] == AllReasonsRewritten(old(attrs[..]), ReasonDecisionFor(old(attrs[..]), limit, at, old(w.reasons)).admitted)
    ensures var b := ReasonBatch(ReasonCounts(old(attrs[..])), limit, at);
            var known, size := Reasons(b) * old(w.reasons).Keys, |old(w.reasons)|;
            if b.counts == map[] then w.reasons == old(w.reasons) && w.reasonOverflow == old(w.reasonOverflow)
            else
              var folded := DecideReasons(b, known, size).folded;
              && w.reasons == CommitReasons(b, known, size, old(w.reasons))
              && FoldedReasons(w.reasonOverflow) == FoldedReasons(old(w.reasonOverflow)) + folded
              && (folded == 0 ==> w.reasonOverflow == old(w.reasonOverflow))
              && (folded > 0 ==> w.reasonOverflow.Some? && w.reasonOverflow.value.lastFoldedAt == LaterOf(LastReasonFold(old(w.reasonOverflow)), at))
  {
    hide Reason, DecideReasons, CommitReasons, Reasons;
    ghost var was := attrs[..];
    var counts: map<string, nat> := map[];
    for i := 0 to attrs.Length
      modifies {}
      invariant counts == ReasonCounts(was[..i])
    {
      assert was[..i + 1][..i] == was[..i];
      var r := Reason(attrs[i]);
      if r.Some? { counts := AddOne(counts, r.value); }
    }
    assert was[..attrs.Length] == was;
    if counts == map[] {
      NoReasons(was, ReasonDecisionFor(was, limit, at, w.reasons).admitted);
      return;
    }
    var admitted, _ := w.AdmitErrorReasons(counts, limit, at);
    for i := 0 to attrs.Length
      modifies attrs
      invariant forall j :: 0 <= j < i ==> attrs[j] == RewriteReason(was[j], admitted)
      invariant forall j :: i <= j < attrs.Length ==> attrs[j] == was[j]
    {
      var r := Reason(attrs[i]);
      if r.Some? && r.value !in admitted {
        attrs[i] := attrs[i][REASON_ATTR := Str(OTHER)];
      }
    }
  }

  lemma {:induction false} ReasonCounted(attrs: seq<Attrs>, i: nat)
    requires i < |attrs| && Reason(attrs[i]).Some?
    ensures Reason(attrs[i]).value in ReasonCounts(attrs)
  {
    hide Reason;
    if i < |attrs| - 1 { ReasonCounted(attrs[..|attrs| - 1], i); }
  }

  lemma {:induction false} NoReasons(attrs: seq<Attrs>, admitted: set<string>)
    requires ReasonCounts(attrs) == map[]
    ensures AllReasonsRewritten(attrs, admitted) == attrs
  {
    hide Reason, ReasonCounts;
    forall i | 0 <= i < |attrs| ensures Reason(attrs[i]).None? {
      if Reason(attrs[i]).Some? { ReasonCounted(attrs, i); }
    }
  }
}
