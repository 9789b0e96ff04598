/** Folding a vendor data point's cli.dim.<key> attributes into its label
    (internal/otlp/dims.go, foldDims). */
module PointDims {
  import opened Prelude
  import opened Rows
  import Dims

  const DIM_PREFIX := "cli.dim."

  predicate IsDim(k: string) { DIM_PREFIX <= k }

  /** The dimensions among a point's attributes. */
  function DimsIn(a: Attrs): map<string, string> {
    var keys := set k | k in a && IsDim(k) :: k[|DIM_PREFIX|..];
    map key | key in keys :: StrAt(a, DIM_PREFIX + key)
  }

  /** Its dimensions, with a plain label read as the dimension "label". */
  function AllDims(a: Attrs, labelAttr: string): map<string, string> {
    if StrAt(a, labelAttr) == "" then DimsIn(a) else DimsIn(a)[Dims.LABEL_KEY := StrAt(a, labelAttr)]
  }

  function WithoutDims(a: Attrs): Attrs { map k | k in a && !IsDim(k) :: a[k] }

  predicate Clash(a: Attrs, labelAttr: string) { StrAt(a, labelAttr) != "" && Dims.LABEL_KEY in DimsIn(a) }

  /** The attributes stored for the point, or None when it is rejected; labelAttr is "" for a
      metric that takes no dimensions. */
  function FoldedDims(kept: Attrs, labelAttr: string, dropped: seq<string>, limit: int): Option<Attrs> {
    if labelAttr == "" then Some(kept)
    else if exists k :: k in dropped && IsDim(k) then None
    else if DimsIn(kept) == map[] then Some(kept)
    else if Clash(kept, labelAttr) || |AllDims(kept, labelAttr)| > limit then None
    else Some(WithoutDims(kept)[labelAttr := Str(Dims.Tuple(AllDims(kept, labelAttr)))])
  }

  method CollectDims(kept: Attrs) returns (dims: map<string, string>)
    ensures dims == DimsIn(kept)
  {
    hide StrAt;
    dims := map[];
    var todo := kept.Keys;
    while todo != {}
      invariant todo <= kept.Keys
      invariant forall key :: key in dims <==> DIM_PREFIX + key in kept.Keys - todo
      invariant forall key :: key in dims ==> dims[key] == StrAt(kept, DIM_PREFIX + key)
    {
      var k :| k in todo;
      todo := todo - {k};
      if IsDim(k) {
        assert DIM_PREFIX + k[|DIM_PREFIX|..] == k;
        assert forall key :: DIM_PREFIX + key == k ==> key == k[|DIM_PREFIX|..] by { Suffixes(k); }
        dims := dims[k[|DIM_PREFIX|..] := StrAt(kept, k)];
      } else {
        assert forall key :: DIM_PREFIX + key != k by { Prefixed(k); }
      }
    }
    DimKeys(kept);
  }

  lemma {:induction false} Suffixes(k: string)
    ensures forall key :: DIM_PREFIX + key == k ==> key == k[|DIM_PREFIX|..]
  {
    forall key | DIM_PREFIX + key == k ensures key == k[|DIM_PREFIX|..] {
      assert (DIM_PREFIX + key)[|DIM_PREFIX|..] == key;
    }
  }

  lemma {:induction false} Prefixed(k: string)
    requires !IsDim(k)
    ensures forall key :: DIM_PREFIX + key != k
  {
    forall key ensures DIM_PREFIX + key != k {
      assert IsDim(DIM_PREFIX + key);
    }
  }

  lemma {:induction false} DimKeys(a: Attrs)
    ensures forall key :: key in DimsIn(a) <==> DIM_PREFIX + key in a
  {
    forall key ensures key in DimsIn(a) <==> DIM_PREFIX + key in a {
      assert IsDim(DIM_PREFIX + key) && (DIM_PREFIX + key)[|DIM_PREFIX|..] == key;
      assert forall k :: IsDim(k) && k[|DIM_PREFIX|..] == key ==> k == DIM_PREFIX + key;
    }
  }

  /** foldDims; ok is false when the point is rejected. */
  method FoldDims(before: Attrs, labelAttr: string, dropped: seq<string>, limit: int) returns (ok: bool, kept: Attrs)
    ensures FoldedDims(before, labelAttr, dropped, limit) == if ok then Some(kept) else None
    ensures !ok ==> kept == before
  {
    hide DimsIn, StrAt, Dims.Tuple, IsDim;
    ok, kept := true, before;
    if labelAttr == "" { return; }
    for i := 0 to |dropped|
      invariant forall j :: 0 <= j < i ==> !IsDim(dropped[j])
    {
      if IsDim(dropped[i]) { ok := false; return; }
    }
    var dims := CollectDims(kept);
    if dims == map[] { return; }
    var text := StrAt(kept, labelAttr);
    if text != "" {
      if Dims.LABEL_KEY in dims { ok := false; return; }
      dims := dims[Dims.LABEL_KEY := text];
    }
    if |dims| > limit { ok := false; return; }
    kept := DropDims(kept);
    var tuple := Dims.FormatDims(dims);
    kept := kept[labelAttr := Str(tuple)];
  }

  method DropDims(before: Attrs) returns (kept: Attrs)
    ensures kept == WithoutDims(before)
  {
    hide IsDim;
    kept := before;
    var todo := before.Keys;
    while todo != {}
      invariant todo <= before.Keys
      invariant kept == map k | k in before && (k in todo || !IsDim(k)) :: before[k]
    {
      var k :| k in todo;
      todo := todo - {k};
      if IsDim(k) { kept := kept - {k}; }
    }
  }

  /** Whose dimensions are clean and whose plain label is no tuple: what the allowlist's
      identifier pattern leaves. */
  ghost predicate CleanPoint(a: Attrs, labelAttr: string) {
    Dims.Clean(AllDims(a, labelAttr)) && '=' !in StrAt(a, labelAttr)
  }

  /** The dimensions are the string attributes under "cli.dim.", by the rest of their names. */
  lemma {:induction false} DimsExactly(a: Attrs, key: string)
    ensures key in DimsIn(a) <==> "cli.dim." + key in a
    ensures key in DimsIn(a) ==> DimsIn(a)[key] == StrAt(a, "cli.dim." + key)
  {
    DimKeys(a);
  }

  /** A point of a metric that takes dimensions is rejected exactly if one of its dimensions was
      dropped, or it has some and names "label" twice or has more than the limit, its label
      counted; one without dimensions, or of a metric that takes none, is left as it is. */
  lemma {:induction false} RejectedExactly(a: Attrs, labelAttr: string, dropped: seq<string>, limit: int)
    ensures labelAttr == "" ==> FoldedDims(a, labelAttr, dropped, limit) == Some(a)
    ensures labelAttr != "" ==>
            var r := FoldedDims(a, labelAttr, dropped, limit);
            var text := StrAt(a, labelAttr);
            && (r.None? <==>
                  || (exists key :: "cli.dim." + key in dropped)
                  || (DimsIn(a) != map[]
                      && ((text != "" && "cli.dim.label" in a) || |DimsIn(a)| + (if text == "" then 0 else 1) > limit)))
            && (DimsIn(a) == map[] && r.Some? ==> r.value == a)
  {
    hide DimsIn, Dims.Tuple, StrAt, AllDims, IsDim;
    DroppedDims(dropped);
    DimsExactly(a, "label");
    assert "cli.dim." + "label" == "cli.dim.label";
    AllDimsSize(a, labelAttr);
  }

  lemma {:induction false} AllDimsSize(a: Attrs, labelAttr: string)
    ensures !Clash(a, labelAttr) ==> |AllDims(a, labelAttr)| == |DimsIn(a)| + if StrAt(a, labelAttr) == "" then 0 else 1
  {
    hide DimsIn, StrAt;
    if StrAt(a, labelAttr) != "" && Dims.LABEL_KEY !in DimsIn(a) {
      assert AllDims(a, labelAttr).Keys == DimsIn(a).Keys + {Dims.LABEL_KEY};
      assert |AllDims(a, labelAttr)| == |AllDims(a, labelAttr).Keys| && |DimsIn(a)| == |DimsIn(a).Keys|;
    }
  }

  lemma {:induction false} DroppedDims(dropped: seq<string>)
    ensures (exists k :: k in dropped && IsDim(k)) <==> exists key :: "cli.dim." + key in dropped
  {
    if k :| k in dropped && IsDim(k) { assert "cli.dim." + k[|DIM_PREFIX|..] == k; }
    if key :| "cli.dim." + key in dropped { assert IsDim("cli.dim." + key); }
  }

  /** An accepted point keeps every other attribute, and its label reads back as all of its
      dimensions. */
  lemma {:induction false} AcceptedReads(a: Attrs, labelAttr: string, dropped: seq<string>, limit: int)
    requires labelAttr != "" && !IsDim(labelAttr) && CleanPoint(a, labelAttr)
    ensures var r := FoldedDims(a, labelAttr, dropped, limit);
            r.Some? ==>
              && Dims.Parse(StrAt(r.value, labelAttr)) == AllDims(a, labelAttr)
              && (forall k :: k in r.value ==> !IsDim(k))
              && (forall k :: k != labelAttr && !IsDim(k) ==> (k in r.value <==> k in a) && (k in a ==> r.value[k] == a[k]))
  {
    hide DimsIn, Dims.Tuple, Dims.Clean;
    var all := AllDims(a, labelAttr);
    Dims.TupleParses(all);
    NoDimKeys(a);
  }

  lemma {:induction false} NoDimKeys(a: Attrs)
    ensures DimsIn(a) == map[] <==> forall k :: k in a ==> !IsDim(k)
  {
    DimKeys(a);
    forall k | k in a && IsDim(k) ensures k[|DIM_PREFIX|..] in DimsIn(a) {
      assert DIM_PREFIX + k[|DIM_PREFIX|..] == k;
    }
    if DimsIn(a) != map[] {
      var key :| key in DimsIn(a);
      assert IsDim(DIM_PREFIX + key);
    }
  }

  /** No dimension is lost and no two series are merged: points stored alike had the same
      dimensions and the same other attributes, and both carried cli.dim.* attributes or
      neither did. */
  lemma {:induction false} SeriesKeptApart(a: Attrs, b: Attrs, labelAttr: string, droppedA: seq<string>, droppedB: seq<string>, limit: int)
    requires labelAttr != "" && !IsDim(labelAttr) && CleanPoint(a, labelAttr) && CleanPoint(b, labelAttr)
    requires FoldedDims(a, labelAttr, droppedA, limit).Some?
    requires FoldedDims(a, labelAttr, droppedA, limit) == FoldedDims(b, labelAttr, droppedB, limit)
    ensures AllDims(a, labelAttr) == AllDims(b, labelAttr)
    ensures DimsIn(a) == map[] <==> DimsIn(b) == map[]
    ensures forall k :: k != labelAttr && !IsDim(k) ==> (k in a <==> k in b) && (k in a ==> a[k] == b[k])
  {
    hide DimsIn, Dims.Tuple, Dims.Clean, Dims.Parse, CleanPoint, AllDims, IsDim;
    AcceptedReads(a, labelAttr, droppedA, limit);
    AcceptedReads(b, labelAttr, droppedB, limit);
    StoredAsTuple(a, labelAttr, droppedA, limit);
    StoredAsTuple(b, labelAttr, droppedB, limit);
  }

  lemma {:induction false} StoredAsTuple(a: Attrs, labelAttr: string, dropped: seq<string>, limit: int)
    requires labelAttr != "" && CleanPoint(a, labelAttr)
    requires FoldedDims(a, labelAttr, dropped, limit).Some?
    ensures DimsIn(a) != map[] <==> '=' in StrAt(FoldedDims(a, labelAttr, dropped, limit).value, labelAttr)
  {
    hide DimsIn, Dims.Tuple, Dims.Clean, IsDim;
    if DimsIn(a) != map[] {
      assert AllDims(a, labelAttr) != map[] by { var k :| k in DimsIn(a); assert k in AllDims(a, labelAttr); }
      Dims.TupleHasEquals(AllDims(a, labelAttr));
    }
  }
}
