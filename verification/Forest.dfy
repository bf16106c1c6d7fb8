/**
 The union-find words: a non-negative word is the parent of its node, a negative word is the negated rank of a root.
 `ranks` is an auxiliary history of the words: the rank a root has now, or the rank a node had when it was linked.
 */
module Forest {
  import opened Sets

  datatype Forest = Forest(words: seq<int>, ranks: seq<nat>)

  function ToRankRepr(rank: int): int { -rank }

  function FromRankRepr(repr: int): int { -repr }

  /** u comes before v in the lexicographic order on (rank, id). */
  predicate Below(f: Forest, u: nat, v: nat)
    requires u < |f.ranks| && v < |f.ranks|
  {
    f.ranks[u] < f.ranks[v] || (f.ranks[u] == f.ranks[v] && u < v)
  }

  /** Along every parent pointer (rank, id) strictly increases, and a root's word is its negated rank. */
  predicate Shaped(f: Forest) {
    && |f.ranks| == |f.words|
    && forall u {:trigger f.words[u]} :: 0 <= u < |f.words| ==>
        && f.words[u] < |f.words|
        && 1 <= f.ranks[u]
        && (f.words[u] < 0 ==> f.words[u] == ToRankRepr(f.ranks[u]))
        && (f.words[u] >= 0 ==> Below(f, u, f.words[u]))
  }

  predicate IsRoot(f: Forest, u: nat)
    requires u < |f.words|
  {
    f.words[u] < 0
  }

  function MaxRank(ranks: seq<nat>): (m: nat)
    ensures forall i :: 0 <= i < |ranks| ==> ranks[i] <= m
  {
    if ranks == [] then 0
    else
      var m := MaxRank(ranks[1..]);
      assert forall i :: 1 <= i < |ranks| ==> ranks[i] == ranks[1..][i - 1];
      if ranks[0] <= m then m else ranks[0]
  }

  /** The representative of u. */
  function Root(f: Forest, u: nat): (r: nat)
    requires Shaped(f) && u < |f.words|
    ensures r < |f.words| && IsRoot(f, r)
    ensures r == u || Below(f, u, r)
    decreases MaxRank(f.ranks) - f.ranks[u], |f.words| - u
  {
    if f.words[u] < 0 then u else Root(f, f.words[u])
  }

  predicate Same(f: Forest, x: nat, y: nat)
    requires Shaped(f) && x < |f.words| && y < |f.words|
  {
    Root(f, x) == Root(f, y)
  }

  ghost function Component(f: Forest, r: nat): set<nat>
    requires Shaped(f)
  {
    set u | 0 <= u < |f.words| && Root(f, u) == r
  }

  function Pow2(k: nat): (p: nat)
    ensures p > k
  {
    if k == 0 then 1 else 2 * Pow2(k - 1)
  }

  /** A root of rank k heads at least 2^(k-1) nodes; no rank, current or frozen, exceeds 1 + log2 n. */
  ghost predicate WeightAt(f: Forest, r: nat)
    requires Shaped(f) && r < |f.words|
  {
    && (IsRoot(f, r) ==> |Component(f, r)| >= Pow2(f.ranks[r] - 1))
    && Pow2(f.ranks[r] - 1) <= |f.words|
  }

  ghost predicate Weighted(f: Forest)
    requires Shaped(f)
  {
    forall r :: 0 <= r < |f.words| ==> WeightAt(f, r)
  }

  ghost predicate Valid(f: Forest) {
    Shaped(f) && Weighted(f)
  }

  /** The effects an atomic operation of any thread can have on the words. */
  datatype Action = Stay | Compress(x: nat, r: nat) | Link(a: nat, b: nat) | Bump(w: nat)

  ghost predicate Enabled(f: Forest, act: Action)
    requires Shaped(f)
  {
    match act
    case Stay => true
    case Compress(x, r) =>
      x < |f.words| && r < |f.words| && !IsRoot(f, x) && Below(f, x, r) && Same(f, x, r)
    case Link(a, b) =>
      a < |f.words| && b < |f.words| && IsRoot(f, a) && Below(f, a, b)
    case Bump(w) =>
      w < |f.words| && IsRoot(f, w) && |Component(f, w)| >= Pow2(f.ranks[w])
  }

  function SetParent(f: Forest, x: nat, r: nat): Forest
    requires x < |f.words|
  {
    f.(words := f.words[x := r])
  }

  function Promote(f: Forest, w: nat): Forest
    requires w < |f.words| && w < |f.ranks|
  {
    f.(words := f.words[w := ToRankRepr(f.ranks[w] + 1)], ranks := f.ranks[w := f.ranks[w] + 1])
  }

  ghost function Apply(f: Forest, act: Action): Forest
    requires Shaped(f) && Enabled(f, act)
  {
    match act
    case Stay => f
    case Compress(x, r) => SetParent(f, x, r)
    case Link(a, b) => SetParent(f, a, b)
    case Bump(w) => Promote(f, w)
  }

  ghost predicate Step(f: Forest, g: Forest)
    requires Shaped(f)
  {
    exists act :: Enabled(f, act) && g == Apply(f, act)
  }

  lemma BelowTrans(f: Forest, u: nat, v: nat, w: nat)
    requires u < |f.ranks| && v < |f.ranks| && w < |f.ranks|
    requires Below(f, u, v) && (v == w || Below(f, v, w))
    ensures Below(f, u, w)
  {}

  /** Repointing x to a node r above it moves exactly the nodes headed by x, to the root of r. */
  lemma {:induction false} SetParentRoot(f: Forest, x: nat, r: nat, u: nat)
    requires Shaped(f) && x < |f.words| && r < |f.words| && u < |f.words|
    requires Below(f, x, r)
    requires Root(f, x) == x || Root(f, x) == Root(f, r)
    ensures Shaped(SetParent(f, x, r))
    ensures Root(SetParent(f, x, r), u) == if Root(f, u) == x then Root(f, r) else Root(f, u)
    decreases MaxRank(f.ranks) - f.ranks[u], |f.words| - u
  {
    var g := SetParent(f, x, r);
    if u == x {
      SetParentRoot(f, x, r, r);
    } else if f.words[u] >= 0 {
      SetParentRoot(f, x, r, f.words[u]);
    }
  }

  lemma {:induction false} PromoteRoot(f: Forest, w: nat, u: nat)
    requires Shaped(f) && w < |f.words| && u < |f.words| && IsRoot(f, w)
    ensures Shaped(Promote(f, w))
    ensures Root(Promote(f, w), u) == Root(f, u)
    decreases MaxRank(f.ranks) - f.ranks[u], |f.words| - u
  {
    PromoteShaped(f, w);
    if f.words[u] >= 0 {
      PromoteRoot(f, w, f.words[u]);
    }
  }

  lemma PromoteShaped(f: Forest, w: nat)
    requires Shaped(f) && w < |f.words| && IsRoot(f, w)
    ensures Shaped(Promote(f, w))
  {}

  /** Where every node's representative goes. */
  ghost function Moved(f: Forest, act: Action, u: nat): nat
    requires Shaped(f) && Enabled(f, act) && u < |f.words|
  {
    if act.Link? && Root(f, u) == act.a then Root(f, act.b) else Root(f, u)
  }

  lemma ApplyRoot(f: Forest, act: Action, u: nat)
    requires Shaped(f) && Enabled(f, act) && u < |f.words|
    ensures Shaped(Apply(f, act))
    ensures Root(Apply(f, act), u) == Moved(f, act, u)
  {
    match act
    case Stay =>
    case Compress(x, r) => SetParentRoot(f, x, r, u);
    case Link(a, b) => SetParentRoot(f, a, b, u);
    case Bump(w) => PromoteRoot(f, w, u);
  }

  lemma ApplyShaped(f: Forest, act: Action)
    requires Shaped(f) && Enabled(f, act)
    ensures Shaped(Apply(f, act)) && |Apply(f, act).words| == |f.words|
  {
    if |f.words| > 0 { ApplyRoot(f, act, 0); }
  }

  /** A link merges the two components it names, which are distinct; it changes nothing else. */
  lemma LinkMerges(f: Forest, a: nat, b: nat, x: nat, y: nat)
    requires Shaped(f) && Enabled(f, Link(a, b)) && x < |f.words| && y < |f.words|
    ensures !Same(f, a, b)
    ensures Shaped(SetParent(f, a, b))
    ensures Same(SetParent(f, a, b), x, y) <==>
      || Same(f, x, y)
      || (Same(f, x, a) && Same(f, b, y))
      || (Same(f, x, b) && Same(f, a, y))
  {
    ApplyRoot(f, Link(a, b), x);
    ApplyRoot(f, Link(a, b), y);
  }

  /** Compressions, rank bumps and failed operations leave the partition as it was. */
  lemma OthersKeepPartition(f: Forest, act: Action, x: nat, y: nat)
    requires Shaped(f) && Enabled(f, act) && !act.Link? && x < |f.words| && y < |f.words|
    ensures Shaped(Apply(f, act)) && |Apply(f, act).words| == |f.words|
    ensures Same(Apply(f, act), x, y) <==> Same(f, x, y)
  {
    ApplyRoot(f, act, x);
    ApplyRoot(f, act, y);
  }

  lemma ComponentMoves(f: Forest, act: Action, r: nat)
    requires Shaped(f) && Enabled(f, act) && r < |f.words|
    ensures Shaped(Apply(f, act))
    ensures act.Link? && r == Root(f, act.b) ==>
      Component(Apply(f, act), r) == Component(f, act.a) + Component(f, r) && Component(f, act.a) !! Component(f, r)
    ensures !(act.Link? && (r == Root(f, act.b) || r == act.a)) ==>
      Component(Apply(f, act), r) == Component(f, r)
  {
    ApplyShaped(f, act);
    forall u: nat | u < |f.words| ensures Root(Apply(f, act), u) == Moved(f, act, u) {
      ApplyRoot(f, act, u);
    }
  }

  lemma ComponentBound(f: Forest, r: nat)
    requires Shaped(f)
    ensures |Component(f, r)| <= |f.words|
  {
    assert Component(f, r) <= Upto(|f.words|);
    SubsetSize(Component(f, r), Upto(|f.words|));
  }

  lemma ApplyWeight(f: Forest, act: Action, r: nat)
    requires Shaped(f) && Enabled(f, act) && r < |f.words| && WeightAt(f, r)
    ensures Shaped(Apply(f, act)) && |Apply(f, act).words| == |f.words|
    ensures WeightAt(Apply(f, act), r)
  {
    hide Root, Component, Pow2, Same;
    ApplyShaped(f, act);
    ComponentMoves(f, act, r);
    match act
    case Stay =>
    case Compress(x, p) =>
    case Link(a, b) =>
      SubsetSize(Component(f, r), Component(f, a) + Component(f, r));
    case Bump(w) =>
      ComponentBound(f, w);
  }

  /** Every atomic operation keeps the lexicographic order, the size bound and the rank bound. */
  lemma ApplyValid(f: Forest, act: Action)
    requires Valid(f) && Enabled(f, act)
    ensures Valid(Apply(f, act)) && |Apply(f, act).words| == |f.words|
  {
    var g := Apply(f, act);
    ApplyShaped(f, act);
    forall r | 0 <= r < |g.words|
      ensures WeightAt(g, r)
    {
      ApplyWeight(f, act, r);
    }
  }

  /** What a later state can never undo, whoever runs in between. */
  ghost predicate Later(f: Forest, g: Forest) {
    && Shaped(f) && Shaped(g) && |g.words| == |f.words|
    && (forall u :: 0 <= u < |f.words| ==> f.ranks[u] <= g.ranks[u])
    && (forall u :: 0 <= u < |f.words| && f.words[u] >= 0 ==> g.words[u] >= 0 && g.ranks[u] == f.ranks[u])
    && (forall x, y :: 0 <= x < |f.words| && 0 <= y < |f.words| && Same(f, x, y) ==> Same(g, x, y))
  }

  lemma LaterRefl(f: Forest)
    requires Shaped(f)
    ensures Later(f, f)
  {}

  lemma LaterTrans(f: Forest, g: Forest, h: Forest)
    requires Later(f, g) && Later(g, h)
    ensures Later(f, h)
  {}

  lemma ApplyLater(f: Forest, act: Action)
    requires Shaped(f) && Enabled(f, act)
    ensures Later(f, Apply(f, act))
  {
    ApplyShaped(f, act);
    forall x, y | 0 <= x < |f.words| && 0 <= y < |f.words| && Same(f, x, y) ensures Same(Apply(f, act), x, y) {
      ApplyRoot(f, act, x);
      ApplyRoot(f, act, y);
    }
  }

  /** A node that is still a root heads everything it headed before. */
  lemma LaterComponent(f: Forest, g: Forest, r: nat)
    requires Later(f, g) && r < |f.words| && IsRoot(g, r)
    ensures IsRoot(f, r) && Component(f, r) <= Component(g, r) && |Component(f, r)| <= |Component(g, r)|
  {
    forall u | u in Component(f, r) ensures u in Component(g, r) {
      assert Same(f, u, r);
      assert Same(g, u, r);
    }
    SubsetSize(Component(f, r), Component(g, r));
  }

  lemma RootOfRoot(f: Forest, u: nat)
    requires Shaped(f) && u < |f.words| && IsRoot(f, u)
    ensures Root(f, u) == u
  {}

  /** A winner whose word still shows the rank of the root just hung below it has earned its bump. */
  lemma WinnerEarned(f: Forest, a: nat, b: nat)
    requires Valid(f) && Enabled(f, Link(a, b))
    ensures var g := SetParent(f, a, b);
      Shaped(g) && (g.words[b] == ToRankRepr(f.ranks[a]) ==> |Component(g, b)| >= Pow2(f.ranks[a]))
  {
    hide Root, Component;
    if IsRoot(f, b) { RootOfRoot(f, b); }
    ComponentMoves(f, Link(a, b), b);
    assert WeightAt(f, a) && WeightAt(f, b);
  }

  /** All singletons, as the constructor leaves the words. */
  function Initial(n: nat): Forest {
    Forest(seq(n, _ => -1), seq(n, _ => 1))
  }

  lemma InitialValid(n: nat)
    ensures Valid(Initial(n))
    ensures forall x, y :: 0 <= x < n && 0 <= y < n && Same(Initial(n), x, y) ==> x == y
  {
    var f := Initial(n);
    forall r | 0 <= r < n ensures |Component(f, r)| >= Pow2(f.ranks[r] - 1) {
      assert r in Component(f, r);
      assert Component(f, r) != {};
    }
  }

  /** The number of roots, which is the number of components. */
  function Roots(f: Forest): set<nat> {
    set u | 0 <= u < |f.words| && f.words[u] < 0
  }

  lemma LinkDropsRoot(f: Forest, a: nat, b: nat)
    requires Shaped(f) && Enabled(f, Link(a, b))
    ensures Roots(SetParent(f, a, b)) == Roots(f) - {a}
    ensures |Roots(SetParent(f, a, b))| == |Roots(f)| - 1
  {
    assert Roots(SetParent(f, a, b)) == Roots(f) - {a};
  }

  // ---------- Union by rank ----------

  /** Every node ranks strictly below its parent. */
  predicate Ranked(f: Forest)
    requires Shaped(f)
  {
    forall u :: 0 <= u < |f.words| && f.words[u] >= 0 ==> f.ranks[u] < f.ranks[f.words[u]]
  }

  /** u is r or points at r. */
  predicate Near(f: Forest, u: nat, r: nat) { u < |f.words| && (u == r || f.words[u] == r) }

  /** The number of parent pointers from u to its representative. */
  function Depth(f: Forest, u: nat): nat
    requires Shaped(f) && u < |f.words|
    decreases MaxRank(f.ranks) - f.ranks[u], |f.words| - u
  {
    if f.words[u] < 0 then 0 else 1 + Depth(f, f.words[u])
  }

  lemma {:induction false} DepthBelowRank(f: Forest, u: nat)
    requires Shaped(f) && Ranked(f) && u < |f.words|
    ensures f.ranks[u] + Depth(f, u) <= f.ranks[Root(f, u)]
    decreases MaxRank(f.ranks) - f.ranks[u], |f.words| - u
  {
    if f.words[u] >= 0 { DepthBelowRank(f, f.words[u]); }
  }

  lemma {:induction false} Pow2Monotone(j: nat, k: nat)
    requires j <= k
    ensures Pow2(j) <= Pow2(k)
  {
    if j < k { Pow2Monotone(j, k - 1); }
  }

  /** With strict ranks every representative is fewer steps away than its rank, so at most log2 n of them. */
  lemma ShortPaths(f: Forest, u: nat)
    requires Valid(f) && Ranked(f) && u < |f.words|
    ensures Depth(f, u) < f.ranks[Root(f, u)] && Pow2(Depth(f, u)) <= |f.words|
  {
    var r := Root(f, u);
    DepthBelowRank(f, u);
    assert WeightAt(f, r);
    Pow2Monotone(Depth(f, u), f.ranks[r] - 1);
  }
}
