/** Which rows and records capping changes, told by comparing them before and after, and that
    the recorded fold counts are the numbers of those changes (internal/otlp/counters.go,
    dims.go, reasons.go). */
module RowChanges {
  import opened Prelude
  import opened GroupPlan
  import opened Admission
  import opened Rows
  import Dims

  /** At how many places a and b differ as told by p. */
  function CountDiffs<T>(a: seq<T>, b: seq<T>, p: (T, T) -> bool): nat
    requires |a| == |b|
  {
    if a == [] then 0
    else CountDiffs(a[..|a| - 1], b[..|b| - 1], p) + if p(a[|a| - 1], b[|b| - 1]) then 1 else 0
  }

  lemma {:induction false} CountsAgree(a: seq<Row>, b: seq<Row>, p: (Row, Row) -> bool, q: Row -> bool)
    requires |a| == |b| && forall i :: 0 <= i < |a| ==> (p(a[i], b[i]) <==> q(a[i]))
    ensures CountDiffs(a, b, p) == CountIf(a, q)
  {
    if a != [] { CountsAgree(a[..|a| - 1], b[..|b| - 1], p, q); }
  }

  // ---- Names and labels ----

  /** The rewrite of one row. It changes exactly the rows that are not capped already: a name
      that was not admitted becomes "other" and loses its label, and under a name that was a
      label that was not becomes "other". */
  lemma {:induction false} RewriteExactly(r: Row, it: Instrument, d: Decision)
    requires it.nameAttr != it.labelAttr && OTHER in d.names
    ensures var s := RewriteRow(r, it, d);
            var name, text := StrAt(r.attrs, it.nameAttr), StrAt(r.attrs, it.labelAttr);
            && (s == r <==> (Ours(r, it) ==> Capped(r.attrs, it, d)))
            && (Ours(r, it) ==> StrAt(s.attrs, it.nameAttr) == if name in d.names then name else OTHER)
            && (Ours(r, it) && StrAt(s.attrs, it.nameAttr) != OTHER ==>
                  StrAt(s.attrs, it.labelAttr) == if text == "" || text == OTHER || Item(name, text) in d.labels then text else OTHER)
  {
    assert r.attrs - {it.labelAttr} == r.attrs <==> it.labelAttr !in r.attrs;
  }

  function NameDiffers(it: Instrument): (Row, Row) -> bool {
    (r: Row, s: Row) => StrAt(r.attrs, it.nameAttr) != StrAt(s.attrs, it.nameAttr)
  }

  function OnlyLabelDiffers(it: Instrument): (Row, Row) -> bool {
    (r: Row, s: Row) =>
      && StrAt(r.attrs, it.nameAttr) == StrAt(s.attrs, it.nameAttr) != OTHER
      && StrAt(r.attrs, it.labelAttr) != StrAt(s.attrs, it.labelAttr)
  }

  lemma {:induction false} LosesIsDiffers(r: Row, it: Instrument, d: Decision)
    requires it.nameAttr != it.labelAttr && OTHER in d.names
    ensures LosesName(it, d)(r) <==> NameDiffers(it)(r, RewriteRow(r, it, d))
    ensures LosesLabel(it, d)(r) <==> OnlyLabelDiffers(it)(r, RewriteRow(r, it, d))
  {
    hide Rewrite;
    RewriteExactly(r, it, d);
    RewriteCaps(r, it, d);
  }

  /** capVendorInstrument's last step: exactly the rows not capped already change, foldedNames
      is the number of rows whose name changed, and foldedLabels the number that kept a name
      other than "other" and whose label changed. */
  lemma {:induction false} NamesAndLabelsChanged(mid: seq<Row>, it: Instrument, at: int, t: Tables)
    requires it.nameAttr != it.labelAttr
    ensures var d := DecisionFor(mid, it, at, t);
            var end := AllRewritten(mid, it, d);
            && |end| == |mid|
            && (forall i :: 0 <= i < |mid| ==> (end[i] == mid[i] <==> (Ours(mid[i], it) ==> Capped(mid[i].attrs, it, d))))
            && d.foldedNames == CountDiffs(mid, end, NameDiffers(it))
            && d.foldedLabels == CountDiffs(mid, end, OnlyLabelDiffers(it))
  {
    hide KeyCounts, Decide, Rewrite, Capped, LosesName, LosesLabel, NameDiffers, OnlyLabelDiffers, CountIf, CountDiffs;
    var b := Batch(KeyCounts(mid, it), it.nameLimit, it.labelLimit, at);
    var d := DecisionFor(mid, it, at, t);
    var end := AllRewritten(mid, it, d);
    FoldCountersCountRows(mid, it, at, Observe(b, t));
    DecisionHasOther(b, Observe(b, t));
    forall i | 0 <= i < |mid|
      ensures end[i] == mid[i] <==> (Ours(mid[i], it) ==> Capped(mid[i].attrs, it, d))
      ensures LosesName(it, d)(mid[i]) <==> NameDiffers(it)(mid[i], end[i])
      ensures LosesLabel(it, d)(mid[i]) <==> OnlyLabelDiffers(it)(mid[i], end[i])
    {
      RewriteExactly(mid[i], it, d);
      LosesIsDiffers(mid[i], it, d);
    }
    CountsAgree(mid, end, NameDiffers(it), LosesName(it, d));
    CountsAgree(mid, end, OnlyLabelDiffers(it), LosesLabel(it, d));
  }

  // ---- Dimension values ----

  function HasOccurrence(it: Instrument, k: DimValueKey): Row -> bool {
    (r: Row) => k in DimsOf(r, it)
  }

  /** Each count is the number of rows that carry the occurrence. */
  lemma {:induction false} DimCountsExact(rows: seq<Row>, it: Instrument, k: DimValueKey)
    ensures k in DimCounts(rows, it) <==> CountIf(rows, HasOccurrence(it, k)) > 0
    ensures k in DimCounts(rows, it) ==> DimCounts(rows, it)[k] == CountIf(rows, HasOccurrence(it, k))
  {
    hide DimsOf;
    if rows != [] { DimCountsExact(rows[..|rows| - 1], it, k); }
  }

  /** A value that is folded is not "other" already, so folding it changes the label. */
  lemma {:induction false} FoldChanges(r: Row, it: Instrument, values: set<DimValueKey>)
    requires forall k :: k in DimsOf(r, it) && k.value == OTHER ==> k in values
    ensures RewriteDims(r, it, values) != r <==> FoldKeys(r, it, values) != {}
  {
    hide Dims.Parse, Dims.Tuple;
    var fold, k := FoldKeys(r, it, values), VendorKey(r.attrs, it);
    if fold != {} {
      var key :| key in fold;
      var dims := Dims.Parse(k.value);
      assert Item(DimGroup(k.group, key), dims[key]) in DimsOf(r, it);
      Dims.ParseClean(k.value);
      Dims.FoldedClean(dims, fold);
      Dims.TupleParses(Dims.Folded(dims, fold));
      assert Dims.Folded(dims, fold)[key] == OTHER;
      assert StrAt(RewriteDims(r, it, values).attrs, it.labelAttr) != k.value;
    }
  }

  function Differs(): (Row, Row) -> bool { (r: Row, s: Row) => r != s }

  /** capDimValues changes exactly the rows with a value that was not admitted, and their
      number is the one it records. */
  lemma {:induction false} DimValuesChanged(was: seq<Row>, it: Instrument, limit: int, at: int, dims: map<DimValueKey, Entry>)
    ensures var values := DimDecisionFor(was, it, limit, at, dims).values;
            var mid := AllDimsRewritten(was, it, values);
            && |mid| == |was|
            && (forall i :: 0 <= i < |was| ==> (mid[i] != was[i] <==> exists k :: k in DimsOf(was[i], it) && k !in values))
            && CountIf(was, FoldsDim(it, values)) == CountDiffs(was, mid, Differs())
  {
    hide DecideDims, DimCounts, RewriteDims, CountIf, CountDiffs, DimsOf, FoldKeys;
    var b := DimBatch(DimCounts(was, it), limit, at);
    var d := DimDecisionFor(was, it, limit, at, dims);
    var mid := AllDimsRewritten(was, it, d.values);
    OtherAdmitted(b, DimKeys(b.counts) * dims.Keys, DimSizes(dims.Keys));
    forall i | 0 <= i < |was|
      ensures mid[i] != was[i] <==> FoldKeys(was[i], it, d.values) != {}
      ensures mid[i] != was[i] <==> exists k :: k in DimsOf(was[i], it) && k !in d.values
    {
      forall k | k in DimsOf(was[i], it) && k.value == OTHER ensures k in d.values { DimCounted(was, it, i, k); }
      FoldChanges(was[i], it, d.values);
      FoldsExactly(was[i], it, d.values);
    }
    CountsAgree(was, mid, Differs(), FoldsDim(it, d.values));
  }

  lemma {:induction false} FoldsExactly(r: Row, it: Instrument, values: set<DimValueKey>)
    ensures FoldKeys(r, it, values) != {} <==> exists k :: k in DimsOf(r, it) && k !in values
  {
    hide Dims.Parse;
    var k := VendorKey(r.attrs, it);
    if key :| key in FoldKeys(r, it, values) {
      assert Item(DimGroup(k.group, key), Dims.Parse(k.value)[key]) in DimsOf(r, it);
    }
    if v :| v in DimsOf(r, it) && v !in values {
      assert v.group.key in FoldKeys(r, it, values);
    }
  }

  lemma {:induction false} OtherAdmitted(b: DimBatch, known: set<DimValueKey>, sizes: map<DimGroup, nat>)
    ensures forall k :: k in b.counts && k.value == OTHER ==> k in DecideDims(b, known, sizes).values
  {
    hide NewValues;
  }

  // ---- Error reasons ----

  function RecordDiffers(): (Attrs, Attrs) -> bool { (a: Attrs, b: Attrs) => a != b }

  lemma {:induction false} RewriteReasonExactly(a: Attrs, admitted: set<string>)
    requires OTHER in admitted
    ensures var b := RewriteReason(a, admitted);
            && (b != a <==> Reason(a).Some? && Reason(a).value !in admitted)
            && (b != a ==> Reason(b) == Some(OTHER))
            && forall k :: k != REASON_ATTR ==> (k in b <==> k in a) && (k in a ==> b[k] == a[k])
  {}

  lemma {:induction false} LosingIsDiffs(attrs: seq<Attrs>, all: set<string>, admitted: set<string>)
    requires OTHER in admitted
    requires forall i :: 0 <= i < |attrs| && Reason(attrs[i]).Some? ==> Reason(attrs[i]).value in all
    ensures LosingReasons(attrs, all - admitted) == CountDiffs(attrs, AllReasonsRewritten(attrs, admitted), RecordDiffers())
  {
    hide Reason, RewriteReason;
    if attrs != [] {
      var init, last := attrs[..|attrs| - 1], attrs[|attrs| - 1];
      LosingIsDiffs(init, all, admitted);
      RewriteReasonExactly(last, admitted);
      assert AllReasonsRewritten(attrs, admitted)[..|attrs| - 1] == AllReasonsRewritten(init, admitted);
    }
  }

  /** capErrorReasons changes exactly the records whose reason was not admitted, only in the
      reason and to "other", and their number is the one it records. */
  lemma {:induction false} ReasonsChanged(attrs: seq<Attrs>, limit: int, at: int, reasons: map<string, Entry>)
    ensures var d := ReasonDecisionFor(attrs, limit, at, reasons);
            var end := AllReasonsRewritten(attrs, d.admitted);
            && |end| == |attrs|
            && (forall i :: 0 <= i < |attrs| ==>
                  && (end[i] != attrs[i] <==> Reason(attrs[i]).Some? && Reason(attrs[i]).value !in d.admitted)
                  && (end[i] != attrs[i] ==> Reason(end[i]) == Some(OTHER))
                  && forall k :: k != REASON_ATTR ==> (k in end[i] <==> k in attrs[i]) && (k in attrs[i] ==> end[i][k] == attrs[i][k]))
            && d.folded == CountDiffs(attrs, end, RecordDiffers())
  {
    hide ReasonPlan, ReasonCounts, LosingReasons, CountDiffs, Reason, RewriteReason;
    var d := ReasonDecisionFor(attrs, limit, at, reasons);
    FoldedReasonsCountRecords(attrs, limit, at, reasons);
    forall i | 0 <= i < |attrs| && Reason(attrs[i]).Some? ensures Reason(attrs[i]).value in ReasonCounts(attrs) { ReasonCounted(attrs, i); }
    LosingIsDiffs(attrs, ReasonCounts(attrs).Keys, d.admitted);
    forall i | 0 <= i < |attrs|
      ensures var b := AllReasonsRewritten(attrs, d.admitted)[i];
              && (b != attrs[i] <==> Reason(attrs[i]).Some? && Reason(attrs[i]).value !in d.admitted)
              && (b != attrs[i] ==> Reason(b) == Some(OTHER))
              && forall k :: k != REASON_ATTR ==> (k in b <==> k in attrs[i]) && (k in attrs[i] ==> b[k] == attrs[i][k])
    {
      RewriteReasonExactly(attrs[i], d.admitted);
    }
  }
}
