/** Adding up a number over all threads, or over a prefix of the nodes. */
module Counting {

  function Total<P>(threads: seq<P>, f: P -> nat): nat {
    if threads == [] then 0 else f(threads[0]) + Total(threads[1..], f)
  }

  lemma {:induction false} TotalUpdate<P>(threads: seq<P>, t: nat, pc: P, f: P -> nat)
    requires t < |threads|
    ensures Total(threads[t := pc], f) + f(threads[t]) == Total(threads, f) + f(pc)
  {
    if t > 0 {
      TotalUpdate(threads[1..], t - 1, pc, f);
      assert threads[t := pc][1..] == threads[1..][t - 1 := pc];
    } else {
      assert threads[t := pc][1..] == threads[1..];
    }
  }

  lemma {:induction false} TotalSame<P>(p: seq<P>, q: seq<P>, f: P -> nat)
    requires |p| == |q| && forall t :: 0 <= t < |p| ==> f(p[t]) == f(q[t])
    ensures Total(p, f) == Total(q, f)
  {
    if p != [] { TotalSame(p[1..], q[1..], f); }
  }

  lemma {:induction false} TotalAtLeast<P>(threads: seq<P>, t: nat, f: P -> nat)
    requires t < |threads|
    ensures f(threads[t]) <= Total(threads, f)
  {
    if t > 0 { TotalAtLeast(threads[1..], t - 1, f); }
  }

  lemma {:induction false} TotalZero<P>(threads: seq<P>, f: P -> nat)
    requires forall t :: 0 <= t < |threads| ==> f(threads[t]) == 0
    ensures Total(threads, f) == 0
  {
    if threads != [] { TotalZero(threads[1..], f); }
  }

  lemma {:induction false} SomePositive<P>(threads: seq<P>, f: P -> nat)
    requires Total(threads, f) > 0
    ensures exists t :: 0 <= t < |threads| && f(threads[t]) > 0
  {
    if f(threads[0]) == 0 {
      SomePositive(threads[1..], f);
      var t :| 0 <= t < |threads| - 1 && f(threads[1..][t]) > 0;
      assert f(threads[t + 1]) > 0;
    }
  }

  lemma {:induction false} TotalTwo<P>(threads: seq<P>, t: nat, u: nat, f: P -> nat)
    requires t < u < |threads|
    ensures f(threads[t]) + f(threads[u]) <= Total(threads, f)
  {
    if t > 0 { TotalTwo(threads[1..], t - 1, u - 1, f); } else { TotalAtLeast(threads[1..], u - 1, f); }
  }

  /** If everybody counts at most once, the total is at most the number of threads, and equal only if all count. */
  lemma {:induction false} TotalAtMost<P>(threads: seq<P>, f: P -> nat)
    requires forall t :: 0 <= t < |threads| ==> f(threads[t]) <= 1
    ensures Total(threads, f) <= |threads|
    ensures Total(threads, f) == |threads| <==> forall t :: 0 <= t < |threads| ==> f(threads[t]) == 1
  {
    if threads != [] {
      TotalAtMost(threads[1..], f);
      if t :| 0 <= t < |threads| && f(threads[t]) != 1 {
        if t > 0 { assert threads[1..][t - 1] == threads[t]; }
      }
    }
  }

  // ---------- Prefix sums ----------

  /** The sum of the first k sizes: where the k-th of consecutive segments starts. */
  function Offset(size: nat -> nat, k: nat): nat {
    if k == 0 then 0 else Offset(size, k - 1) + size(k - 1)
  }

  lemma {:induction false} OffsetMonotone(size: nat -> nat, u: nat, v: nat)
    requires u <= v
    ensures Offset(size, u) <= Offset(size, v)
    decreases v - u
  {
    if u < v { OffsetMonotone(size, u, v - 1); }
  }

  lemma {:induction false} OffsetZero(size: nat -> nat, k: nat)
    requires forall u :: 0 <= u < k ==> size(u) == 0
    ensures Offset(size, k) == 0
  {
    if k > 0 { OffsetZero(size, k - 1); }
  }

  /** Node a's segment grows by one. */
  lemma {:induction false} OffsetBump(size: nat -> nat, size': nat -> nat, a: nat, k: nat)
    requires forall u :: 0 <= u < k ==> size'(u) == size(u) + if u == a then 1 else 0
    ensures Offset(size', k) == Offset(size, k) + if a < k then 1 else 0
  {
    if k > 0 { OffsetBump(size, size', a, k - 1); }
  }

  lemma {:induction false} OffsetSame(size: nat -> nat, size': nat -> nat, k: nat)
    requires forall u :: 0 <= u < k ==> size'(u) == size(u)
    ensures Offset(size', k) == Offset(size, k)
  {
    if k > 0 { OffsetSame(size, size', k - 1); }
  }

  /** The size of the node before v: what a counter one entry ahead holds. */
  function Before(size: nat -> nat, v: nat): nat { if v == 0 then 0 else size(v - 1) }

  /** Turns sizes, one entry ahead, into offsets. */
  method PrefixSums(ghost size: nat -> nat, counter: array<nat>)
    requires counter.Length > 0
    requires forall v {:trigger counter[v]} :: 0 <= v < counter.Length ==> counter[v] == Before(size, v)
    modifies counter
    ensures forall v {:trigger counter[v]} :: 0 <= v < counter.Length ==> counter[v] == Offset(size, v)
  {
    for i := 1 to counter.Length
      invariant forall v {:trigger counter[v]} :: 0 <= v < i ==> counter[v] == Offset(size, v)
      invariant forall v {:trigger counter[v]} :: i <= v < counter.Length ==> counter[v] == Before(size, v)
    {
      counter[i] := counter[i] + counter[i - 1];
    }
  }
}
