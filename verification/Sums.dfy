/** Totals of a Go map's counts over a set of its keys; a missing key counts as zero. */
module Sums {

  function Count<K>(m: map<K, nat>, k: K): nat {
    if k in m then m[k] else 0
  }

  ghost function Sum<K(!new)>(s: set<K>, m: map<K, nat>): nat {
    if s == {} then 0 else
      var x :| x in s;
      Count(m, x) + Sum(s - {x}, m)
  }

  lemma {:induction false} SumRemove<K(!new)>(s: set<K>, x: K, m: map<K, nat>)
    requires x in s
    ensures Sum(s, m) == Count(m, x) + Sum(s - {x}, m)
  {
    var y :| y in s && Sum(s, m) == Count(m, y) + Sum(s - {y}, m);
    if y != x {
      SumRemove(s - {y}, x, m);
      SumRemove(s - {x}, y, m);
      assert s - {y} - {x} == s - {x} - {y};
    }
  }

  lemma {:induction false} SumAdd<K(!new)>(s: set<K>, x: K, m: map<K, nat>)
    requires x !in s
    ensures Sum(s + {x}, m) == Count(m, x) + Sum(s, m)
  {
    SumRemove(s + {x}, x, m);
    assert s + {x} - {x} == s;
  }

  lemma {:induction false} SumSplit<K(!new)>(a: set<K>, b: set<K>, m: map<K, nat>)
    requires a !! b
    ensures Sum(a + b, m) == Sum(a, m) + Sum(b, m)
  {
    if a == {} {
      assert a + b == b;
    } else {
      var x :| x in a;
      SumRemove(a + b, x, m);
      SumRemove(a, x, m);
      assert (a + b) - {x} == (a - {x}) + b;
      SumSplit(a - {x}, b, m);
    }
  }

  lemma {:induction false} SumAgree<K(!new)>(s: set<K>, m: map<K, nat>, n: map<K, nat>)
    requires forall k :: k in s ==> Count(m, k) == Count(n, k)
    ensures Sum(s, m) == Sum(s, n)
  {
    if s != {} {
      var x :| x in s;
      SumRemove(s, x, m);
      SumRemove(s, x, n);
      SumAgree(s - {x}, m, n);
    }
  }

  /** Every element of a counts at least as much as every element of b, and a is no
      smaller: then a's total is no smaller either. */
  lemma {:induction false} SumDominates<K(!new)>(a: set<K>, b: set<K>, m: map<K, nat>)
    requires |b| <= |a|
    requires forall x, y :: x in a && y in b ==> Count(m, y) <= Count(m, x)
    ensures Sum(b, m) <= Sum(a, m)
  {
    if b != {} {
      var y :| y in b;
      assert a != {};
      var x :| x in a;
      SumRemove(a, x, m);
      SumRemove(b, y, m);
      SumDominates(a - {x}, b - {y}, m);
    }
  }

  /** The total of a sequence of keys, added up left to right. */
  function SumSeq<K>(s: seq<K>, m: map<K, nat>): nat {
    if s == [] then 0 else SumSeq(s[..|s| - 1], m) + Count(m, s[|s| - 1])
  }

  lemma {:induction false} SumSeqIsSum<K(!new)>(s: seq<K>, m: map<K, nat>)
    requires forall i, j :: 0 <= i < j < |s| ==> s[i] != s[j]
    ensures SumSeq(s, m) == Sum((set x | x in s), m)
  {
    if s != [] {
      var init, last := s[..|s| - 1], s[|s| - 1];
      SumSeqIsSum(init, m);
      assert s == init + [last];
      assert (set x | x in s) == (set x | x in init) + {last};
      SumAdd((set x | x in init), last, m);
    }
  }

  lemma {:induction false} SubsetSize<T>(a: set<T>, b: set<T>)
    requires a <= b
    ensures |a| <= |b|
  {
    assert b == a + (b - a);
  }
}
