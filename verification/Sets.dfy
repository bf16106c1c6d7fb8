/** Sizes of finite sets, and sequences as sets. */
module Sets {

  function Upto(n: nat): (s: set<nat>)
    ensures forall u: nat :: u in s <==> u < n
    ensures |s| == n
  {
    if n == 0 then {} else Upto(n - 1) + {n - 1}
  }

  lemma {:induction false} SubsetSize<T>(s: set<T>, t: set<T>)
    requires s <= t
    ensures |s| <= |t|
    ensures |s| == |t| ==> s == t
  {
    if s != {} {
      var x :| x in s;
      SubsetSize(s - {x}, t - {x});
    }
  }

  function Elements<T>(s: seq<T>): set<T> { set x | x in s }

  predicate Distinct<T(==)>(s: seq<T>) {
    forall i, j :: 0 <= i < j < |s| ==> s[i] != s[j]
  }

  lemma {:induction false} DistinctSize<T>(s: seq<T>)
    requires Distinct(s)
    ensures |Elements(s)| == |s|
  {
    if s == [] {
      assert Elements(s) == {};
    } else {
      var t, x := s[..|s| - 1], s[|s| - 1];
      DistinctSize(t);
      assert forall i :: 0 <= i < |t| ==> t[i] == s[i] != x;
      assert x !in Elements(t);
      assert Elements(s) == Elements(t) + {x};
    }
  }

  lemma {:induction false} DistinctOnce<T>(s: seq<T>, x: T)
    requires x in s && Distinct(s)
    ensures multiset(s)[x] == 1
  {
    var last := |s| - 1;
    assert s == s[..last] + [s[last]];
    if s[last] == x { assert x !in s[..last]; } else { DistinctOnce(s[..last], x); }
  }

  /** n different numbers below n are all of them. */
  lemma DistinctFull(s: seq<nat>, n: nat)
    requires Distinct(s) && |s| == n && forall v :: v in s ==> v < n
    ensures forall v: nat :: v in s <==> v < n
  {
    DistinctSize(s);
    SubsetSize(Elements(s), Upto(n));
    forall v: nat ensures v in s <==> v < n { assert v in Elements(s) <==> v in Upto(n); }
  }
}
