/** sort.SliceStable, sort.Slice and sort.Strings, as functions on sequences. */
module Sorting {
  import opened Prelude

  /** `less` is a strict weak order, all that sort.SliceStable asks of it. */
  ghost predicate StrictWeak<T(!new)>(less: (T, T) -> bool) {
    && (forall x :: !less(x, x))
    && (forall x, y, z :: less(x, y) && less(y, z) ==> less(x, z))
    && (forall x, y, z :: !less(x, y) && !less(y, z) ==> !less(x, z))
  }

  ghost predicate SortedBy<T(!new)>(s: seq<T>, less: (T, T) -> bool) {
    forall i, j :: 0 <= i < j < |s| ==> !less(s[j], s[i])
  }

  ghost predicate Ascending<T(!new)>(s: seq<T>, less: (T, T) -> bool) {
    forall i, j :: 0 <= i < j < |s| ==> less(s[i], s[j])
  }

  ghost predicate Distinct<T(!new)>(s: seq<T>) {
    forall i, j :: 0 <= i < j < |s| ==> s[i] != s[j]
  }

  /** Puts x, which came before everything in the sorted t, in its place. */
  function Insert<T(!new)>(x: T, t: seq<T>, less: (T, T) -> bool): seq<T> {
    if t == [] || !less(t[0], x) then [x] + t else [t[0]] + Insert(x, t[1..], less)
  }

  /** The stable sort of s. */
  function Sort<T(!new)>(s: seq<T>, less: (T, T) -> bool): seq<T> {
    if s == [] then [] else Insert(s[0], Sort(s[1..], less), less)
  }

  lemma {:induction false} InsertElements<T(!new)>(x: T, t: seq<T>, less: (T, T) -> bool)
    ensures multiset(Insert(x, t, less)) == multiset{x} + multiset(t)
    ensures |Insert(x, t, less)| == |t| + 1
  {
    if t != [] {
      assert t == [t[0]] + t[1..];
      if less(t[0], x) { InsertElements(x, t[1..], less); }
    }
  }

  lemma {:induction false} SortElements<T(!new)>(s: seq<T>, less: (T, T) -> bool)
    ensures multiset(Sort(s, less)) == multiset(s)
    ensures |Sort(s, less)| == |s|
    ensures forall x :: x in Sort(s, less) <==> x in s
  {
    if s != [] {
      SortElements(s[1..], less);
      InsertElements(s[0], Sort(s[1..], less), less);
      assert s == [s[0]] + s[1..];
    }
    forall x ensures x in Sort(s, less) <==> x in s {
      assert x in Sort(s, less) <==> x in multiset(Sort(s, less));
      assert x in s <==> x in multiset(s);
    }
  }

  /** r(x, y) whenever x comes before y in s. */
  ghost predicate Pairwise<T(!new)>(s: seq<T>, r: (T, T) -> bool) {
    forall i, j :: 0 <= i < j < |s| ==> r(s[i], s[j])
  }

  /** What may come before what in a stable sort of a sequence whose order was r. */
  ghost predicate StableBefore<T(!new)>(less: (T, T) -> bool, r: (T, T) -> bool, x: T, y: T) {
    less(x, y) || (!less(y, x) && r(x, y))
  }

  ghost predicate StableSorted<T(!new)>(s: seq<T>, less: (T, T) -> bool, r: (T, T) -> bool) {
    forall i, j :: 0 <= i < j < |s| ==> StableBefore(less, r, s[i], s[j])
  }

  lemma {:induction false} InsertStable<T(!new)>(x: T, t: seq<T>, less: (T, T) -> bool, r: (T, T) -> bool)
    requires StrictWeak(less)
    requires StableSorted(t, less, r)
    requires forall y :: y in t ==> r(x, y)
    ensures StableSorted(Insert(x, t, less), less, r)
  {
    if t == [] {
    } else if !less(t[0], x) {
      forall j | 0 <= j < |t| ensures StableBefore(less, r, x, t[j]) {
        if j > 0 { assert StableBefore(less, r, t[0], t[j]); }
        assert t[j] in t;
        assert !less(t[j], t[0]);
      }
    } else {
      forall i, j | 0 <= i < j < |t[1..]| ensures StableBefore(less, r, t[1..][i], t[1..][j]) {
        assert StableBefore(less, r, t[i + 1], t[j + 1]);
      }
      InsertStable(x, t[1..], less, r);
      var u := Insert(x, t[1..], less);
      InsertElements(x, t[1..], less);
      forall j | 0 <= j < |u| ensures StableBefore(less, r, t[0], u[j]) {
        assert u[j] in multiset(u);
        if u[j] != x {
          assert u[j] in t[1..];
          var k :| 0 <= k < |t[1..]| && t[1..][k] == u[j];
          assert StableBefore(less, r, t[0], t[k + 1]);
        }
      }
    }
  }

  /** The sort orders by `less`, and elements `less` does not separate keep the order r
      they came in. */
  lemma {:induction false} SortStable<T(!new)>(s: seq<T>, less: (T, T) -> bool, r: (T, T) -> bool)
    requires StrictWeak(less)
    requires Pairwise(s, r)
    ensures StableSorted(Sort(s, less), less, r)
  {
    if s != [] {
      forall i, j | 0 <= i < j < |s[1..]| ensures r(s[1..][i], s[1..][j]) { assert r(s[i + 1], s[j + 1]); }
      SortStable(s[1..], less, r);
      SortElements(s[1..], less);
      forall y | y in Sort(s[1..], less) ensures r(s[0], y) {
        assert y in s[1..];
        var k :| 0 <= k < |s[1..]| && s[1..][k] == y;
        assert r(s[0], s[k + 1]);
      }
      InsertStable(s[0], Sort(s[1..], less), less, r);
    }
  }

  lemma {:induction false} SortSorted<T(!new)>(s: seq<T>, less: (T, T) -> bool)
    requires StrictWeak(less)
    ensures SortedBy(Sort(s, less), less)
  {
    SortStable(s, less, (x, y) => true);
    var t := Sort(s, less);
    forall i, j | 0 <= i < j < |t| ensures !less(t[j], t[i]) {
      assert StableBefore(less, (x, y) => true, t[i], t[j]);
    }
  }

  /** The least element of a non-empty set, which a strict total order always has. */
  lemma {:induction false} LeastExists<T(!new)>(s: set<T>, less: (T, T) -> bool)
    requires StrictTotal(less) && s != {}
    ensures exists x :: x in s && forall y :: y in s && y != x ==> less(x, y)
  {
    var z :| z in s;
    if s != {z} {
      var t := s - {z};
      assert s == t + {z};
      LeastExists(t, less);
      var x :| x in t && forall y :: y in t && y != x ==> less(x, y);
      var w := if less(x, z) then x else z;
      forall y | y in s && y != w ensures less(w, y) {
        if y != z && y != x { assert y in t; }
      }
    }
  }

  /** The elements of s in ascending order: what sorting the keys of a Go map yields,
      whatever order the map is walked in. */
  function SortedSeq<T(!new,==)>(s: set<T>, less: (T, T) -> bool): (r: seq<T>)
    requires StrictTotal(less)
    ensures Ascending(r, less)
    ensures forall x :: x in r <==> x in s
    ensures |r| == |s|
  {
    if s == {} then []
    else
      LeastExists(s, less);
      var x :| x in s && forall y :: y in s && y != x ==> less(x, y);
      [x] + SortedSeq(s - {x}, less)
  }

  /** An ascending sequence is determined by the set of its elements. */
  lemma {:induction false} AscendingUnique<T(!new)>(a: seq<T>, b: seq<T>, less: (T, T) -> bool)
    requires StrictTotal(less)
    requires Ascending(a, less) && Ascending(b, less)
    requires forall x :: x in a <==> x in b
    ensures a == b
  {
    assert forall k :: 0 <= k < |a| ==> a[k] in b;
    assert forall k :: 0 <= k < |b| ==> b[k] in a;
    if a != [] && b != [] {
      var i :| 0 <= i < |b| && b[i] == a[0];
      var j :| 0 <= j < |a| && a[j] == b[0];
      assert a[0] == b[0];
      forall x ensures x in a[1..] <==> x in b[1..] {
        AscendingTail(a, less, x);
        AscendingTail(b, less, x);
      }
      AscendingUnique(a[1..], b[1..], less);
      assert a == [a[0]] + a[1..] && b == [b[0]] + b[1..];
    }
  }

  lemma {:induction false} AscendingTail<T(!new)>(a: seq<T>, less: (T, T) -> bool, x: T)
    requires StrictTotal(less) && Ascending(a, less) && a != []
    ensures x in a[1..] <==> (x in a && x != a[0])
  {
    if x in a && x != a[0] {
      var i :| 0 <= i < |a| && a[i] == x;
      assert a[1..][i - 1] == x;
    }
    if x in a[1..] {
      var i :| 0 <= i < |a[1..]| && a[1..][i] == x;
      assert a[i + 1] == x && less(a[0], a[i + 1]);
    }
  }

  lemma {:induction false} AscendingDistinct<T(!new)>(a: seq<T>, less: (T, T) -> bool)
    requires StrictTotal(less) && Ascending(a, less)
    ensures Distinct(a)
  {}

  lemma {:induction false} DistinctSize<T(!new)>(s: seq<T>)
    requires Distinct(s)
    ensures |set x | x in s| == |s|
  {
    if s != [] {
      var init := s[..|s| - 1];
      DistinctSize(init);
      assert (set x | x in s) == (set x | x in init) + {s[|s| - 1]};
    }
  }
}
