/** The sequential union-find, with plain arrays and loops: the simple form the concurrent one is compared with. */
module SequentialConnectivity {
  import opened Graphs
  import opened Forest
  import opened Spanning
  import opened Csr
  import opened AdjacencyArray
  import opened Bfs

  class SequentialConnectivity {
    const n: nat
    const parents: array<nat>
    const ranks: array<nat>
    const bfsParents: array<int>
    var filtered: seq<Edge>       // every kept edge, followed by its reverse
    ghost var kept: seq<Edge>     // every kept edge once
    ghost var given: multiset<Edge>
    ghost var depth: seq<nat>     // every node's distance from its root along bfsParents

    /** The two arrays read as union-find words; ranks start at 0 here, so they are shifted by one. */
    ghost function View(): Forest
      reads parents, ranks
      requires parents.Length == ranks.Length == n
    {
      Forest(seq(n, u requires 0 <= u < n reads parents, ranks =>
               if parents[u] == u then ToRankRepr(ranks[u] + 1) else parents[u]),
             seq(n, u requires 0 <= u < n reads ranks => ranks[u] + 1))
    }

    ghost predicate Consistent()
      reads parents, ranks
    {
      && parents.Length == ranks.Length == bfsParents.Length == n && parents != ranks
      && (forall u :: 0 <= u < n ==> parents[u] < n)
      && Shaped(View()) && Weighted(View()) && Ranked(View())
    }

    /** The kept edges are a spanning forest of the given ones. */
    ghost predicate Spans()
      reads this, parents, ranks
      requires Consistent()
    {
      SpansGiven(View(), kept, given) && filtered == Doubled(kept)
    }

    constructor (numNodes: nat)
      ensures Consistent() && n == numNodes && Spans() && kept == [] && given == multiset{}
    {
      n := numNodes;
      parents := new nat[numNodes]((u: nat) => u);
      ranks := new nat[numNodes](_ => 0);
      bfsParents := new int[numNodes](_ => -1);
      filtered, kept, given := [], [], multiset{};
      new;
      hide Represents, Root, SpansGiven, Doubled, Weighted;
      assert View() == Initial(numNodes);
      InitialValid(numNodes);
      hide Shaped;
      NothingSpans(View());
    }

    /** Follows as many parents as the node is deep, at most log2 n. */
    method FindRepresentative(node: nat) returns (root: nat, ghost steps: nat)
      requires Consistent() && node < n
      ensures root < n && root == Root(View(), node) && parents[root] == root
      ensures steps == Depth(View(), node) && steps <= View().ranks[root] - 1 && Pow2(steps) <= n
    {
      hide Weighted, Ranked, Pow2;
      root, steps := node, 0;
      while parents[root] != root
        invariant root < n && Root(View(), root) == Root(View(), node)
        invariant steps + Depth(View(), root) == Depth(View(), node)
        decreases MaxRank(View().ranks) - View().ranks[root], n - root
      {
        root, steps := parents[root], steps + 1;
      }
      ShortPaths(View(), node);
    }

    /** Afterwards every node on the way points directly at the root, and nothing else has changed. */
    method FindRepresentativeAndCompress(node: nat) returns (root: nat)
      requires Consistent() && node < n
      modifies parents
      ensures Consistent() && root < n && root == Root(View(), node) && parents[root] == root
      ensures PathCompressed(old(View()), View(), node) && Unmoved(old(View()), View())
    {
      hide Root, Shaped, Unmoved, Roots, MaxRank, Weighted, Ranked, Partway, PathCompressed, Depth, Pow2;
      ghost var start := View();
      UnmovedRefl(start);
      ghost var steps;
      root, steps := FindRepresentative(node);
      var x: nat := node;
      PartwayRefl(start, node);
      while parents[x] != root
        invariant Consistent() && x < n && Root(View(), x) == root && parents[root] == root
        invariant Unmoved(start, View()) && Partway(start, View(), node, x)
        decreases MaxRank(start.ranks) - start.ranks[x], n - x
      {
        ghost var before, was := View(), x;
        x := Repoint(x, root);
        UnmovedTrans(start, before, View());
        PartwayStep(start, before, node, was, x);
      }
      UnmovedRoot(start, View(), node);
      PartwayDone(start, View(), node, x);
    }

    /** Points one node directly at its root; goes on with its old parent, which is above it. */
    method Repoint(x: nat, root: nat) returns (parent: nat)
      requires Consistent() && x < n && root < n
      requires Root(View(), x) == root && parents[root] == root && parents[x] != root
      modifies parents
      ensures Consistent() && View() == SetParent(old(View()), x, root) && Unmoved(old(View()), View())
      ensures parent < n && parent == old(View()).words[x] && Root(View(), parent) == root && parents[root] == root
      ensures var ranks := View().ranks;
        && ranks[x] <= MaxRank(ranks) && ranks[parent] <= MaxRank(ranks)
        && (ranks[x] < ranks[parent] || (ranks[x] == ranks[parent] && x < parent))
    {
      hide Root, Shaped, Unmoved, Roots, MaxRank, Weighted, Ranked;
      ghost var before := View();
      parent := parents[x];
      Upward(before, x, root);
      assert parent == before.words[x];
      parents[x] := root;
      assert View() == SetParent(before, x, root);
      Compressed(before, View(), x, root, parent);
    }

    /**
     True, and the two components merged, if they were different; false, and nothing changed, if they were one. Either
     way both nodes now point directly at what was their root.
     */
    method Unite(x: nat, y: nat) returns (joined: bool)
      requires Consistent() && x < n && y < n
      modifies parents, ranks
      ensures Consistent()
      ensures joined <==> !old(Same(View(), x, y))
      ensures joined ==> Merges(old(View()), Edge(x, y), View())
      ensures !joined ==> Unmoved(old(View()), View())
      ensures Near(View(), x, old(Root(View(), x))) && Near(View(), y, old(Root(View(), y)))
    {
      hide Root, Shaped, Merges, Roots, Unmoved, Weighted, Ranked, PathCompressed, Near, Hanging;
      UnmovedRefl(View());
      ghost var before := View();
      var a := FindRepresentativeAndCompress(x);
      ghost var mid := View();
      var b := FindRepresentativeAndCompress(y);
      ghost var found := View();
      Representatives(before, mid, found, a, b, x, y);
      BothNear(before, mid, found, x, y);
      if a == b { return false; }
      Hang(a, b);
      HungEither(before, found, View(), a, b, x, y);
      StillNear(found, View(), a, b, x, Root(before, x));
      StillNear(found, View(), a, b, y, Root(before, y));
      return true;
    }

    /** The root of smaller rank goes below the other; equal ranks raise the winner's. */
    method Hang(root: nat, other: nat)
      requires Consistent() && root < n && other < n
      requires root != other && parents[root] == root && parents[other] == other
      modifies parents, ranks
      ensures Consistent()
      ensures View() ==
        if old(ranks[root] < ranks[other]) then Hanging(old(View()), other, root) else Hanging(old(View()), root, other)
    {
      hide Root, Shaped, Weighted, Ranked;
      var a, b := root, other;
      if ranks[a] < ranks[b] { a, b := b, a; }
      ghost var f := View();
      HungShape(f, a, b);
      HungWeighted(f, a, b);
      hide Hanging;
      HangingIs(f, a, b);
      parents[b] := a;
      assert View() == SetParent(f, b, a);
      if ranks[a] == ranks[b] {
        ghost var g := View();
        ranks[a] := ranks[a] + 1;
        assert View() == Promote(g, a);
      }
    }

    method AddEdge(e: Edge)
      requires Consistent() && Spans() && OnNodes(e, n)
      modifies this, parents, ranks
      ensures Consistent() && Spans()
      ensures given == old(given) + multiset{e}
    {
      hide Represents, Shaped, Root, Merges, Unmoved, Doubled, SpansGiven, Weighted, Ranked;
      ghost var before, keptBefore, givenBefore := View(), kept, given;
      ShapedGiven(before, kept, given);
      var joined := Unite(e.a, e.b);
      if joined {
        filtered := filtered + [e, Edge(e.b, e.a)];
        kept := kept + [e];
      }
      given := given + multiset{e};
      NowSpans(before, keptBefore, givenBefore, View(), kept, given, e, joined);
      DoubledMore(keptBefore, e);
    }

    method UniteAll(edges: seq<Edge>)
      requires Consistent() && Spans() && forall i :: 0 <= i < |edges| ==> OnNodes(edges[i], n)
      modifies this, parents, ranks
      ensures Consistent() && Spans()
      ensures given == old(given) + multiset(edges)
    {
      hide Represents, Shaped, Root, Merges, Unmoved, Doubled, SpansGiven, Weighted, Ranked;
      for i := 0 to |edges|
        invariant Consistent() && Spans()
        invariant given == old(given) + multiset(edges[..i])
      {
        AddEdge(edges[i]);
        assert edges[..i + 1] == edges[..i] + [edges[i]];
      }
      assert edges[..|edges|] == edges;
    }

    /** Afterwards the kept edges span the given ones, and the parents lead every node to its component's root. */
    method AddEdges(edges: seq<Edge>)
      requires Consistent() && Spans() && forall i :: 0 <= i < |edges| ==> OnNodes(edges[i], n)
      modifies this, parents, ranks, bfsParents
      ensures Consistent() && Spans()
      ensures given == old(given) + multiset(edges)
      ensures Rooted(n, given, View(), bfsParents[..], depth)
    {
      hide Represents, Shaped, Root, Merges, Unmoved, Doubled, SpansGiven, Weighted, Ranked, Rooted, EdgesBelow, IsCsr;
      UniteAll(edges);
      KeptBelow(View(), kept, given);
      DoubledBelow(kept, n);
      var graph := new AdjacencyArray(n, filtered);
      DoubledIsCsr(n, kept, graph);
      SearchRoots(graph.index[..], graph.heads[..]);
    }

    /** The breadth-first searches from all roots, over an adjacency array of the kept edges. */
    method SearchRoots(index: seq<nat>, adj: seq<nat>)
      requires Consistent() && Spans() && IsCsr(n, kept, index, adj)
      modifies this`depth, bfsParents
      ensures Consistent() && Spans() && Rooted(n, given, View(), bfsParents[..], depth)
    {
      hide Represents, SpansGiven, Rooted, IsCsr, Ready, Root, ParentOk, Acyclic, Doubled, Weighted, Ranked;
      ghost var f := View();
      ReadyWhenSpanning(f, kept, given, index, adj);
      for u := 0 to n
        invariant Consistent() && View() == f && Spans()
        invariant forall v :: 0 <= v < u ==> bfsParents[v] == -1
      {
        bfsParents[u] := -1;
      }
      var up := parents[..];
      var isRoot := (u: nat) => u < |up| && up[u] == u;
      var all := seq(n, u => u);
      ghost var levels, log := SearchThread(f, kept, isRoot, index, adj, all, bfsParents);
      forall v | 0 <= v < n ensures ParentOk(f, multiset(kept), bfsParents[..], levels, v) {
        assert all[Root(f, v)] in all;
      }
      depth := levels;
      ParentsMean(f, kept, given, bfsParents[..], depth);
    }

    method Connected(x: nat, y: nat) returns (c: bool)
      requires Consistent() && Spans() && x < n && y < n
      ensures c <==> Conn(given, x, y)
    {
      hide Root, Shaped, SpansGiven, Weighted, Ranked, Depth, Pow2;
      ShapedGiven(View(), kept, given);
      ghost var stepsA, stepsB;
      var a: nat, b: nat;
      a, stepsA := FindRepresentative(x);
      b, stepsB := FindRepresentative(y);
      ComponentsAreGiven(View(), kept, given, x, y);
      return a == b;
    }
  }

  lemma NowSpans(f: Forest, kept: seq<Edge>, given: multiset<Edge>, g: Forest, kept': seq<Edge>, given': multiset<Edge>,
                 e: Edge, joined: bool)
    requires SpansGiven(f, kept, given) && OnNodes(e, |f.words|) && given' == given + multiset{e}
    requires if joined then !Same(f, e.a, e.b) && Merges(f, e, g) && kept' == kept + [e]
             else Same(f, e.a, e.b) && Unmoved(f, g) && kept' == kept
    ensures SpansGiven(g, kept', given')
  {
    hide Represents, Root, Merges, Unmoved;
    ShapedGiven(f, kept, given);
    if joined { RepresentsLink(f, kept, e, g); } else { RepresentsSame(f, kept, g); }
    forall d | d in given' ensures OnNodes(d, |g.words|) && Same(g, d.a, d.b) {
      assert d in given || d == e;
      if joined { StillJoined(f, e, g, d); } else { StillSame(f, g, d); }
    }
  }

  lemma StillJoined(f: Forest, e: Edge, g: Forest, d: Edge)
    requires Shaped(f) && OnNodes(e, |f.words|) && Merges(f, e, g) && OnNodes(d, |f.words|)
    requires d == e || Same(f, d.a, d.b)
    ensures OnNodes(d, |g.words|) && Same(g, d.a, d.b)
  {
    hide Root;
    assert Merged(f, e, d.a, d.b) by { SameRefl(f, e); }
  }

  lemma SameRefl(f: Forest, e: Edge)
    requires Shaped(f) && OnNodes(e, |f.words|)
    ensures Same(f, e.a, e.a) && Same(f, e.b, e.b)
  {}

  lemma StillSame(f: Forest, g: Forest, d: Edge)
    requires Unmoved(f, g) && OnNodes(d, |f.words|) && Same(f, d.a, d.b)
    ensures OnNodes(d, |g.words|) && Same(g, d.a, d.b)
  {}

  /** The same components under the same roots. */
  predicate Unmoved(f: Forest, g: Forest) {
    && Shaped(f) && Shaped(g) && |f.words| == |g.words| && Roots(f) == Roots(g)
    && forall u :: 0 <= u < |f.words| ==> Root(g, u) == Root(f, u)
  }

  lemma UnmovedRefl(f: Forest)
    requires Shaped(f)
    ensures Unmoved(f, f)
  {}

  lemma UnmovedTrans(f: Forest, g: Forest, h: Forest)
    requires Unmoved(f, g) && Unmoved(g, h)
    ensures Unmoved(f, h)
  {}

  lemma UnmovedRoot(f: Forest, g: Forest, u: nat)
    requires Unmoved(f, g) && u < |f.words|
    ensures Root(g, u) == Root(f, u)
  {}

  /** A node that does not yet point at its root is no root, and its parent is above it. */
  lemma Upward(f: Forest, x: nat, root: nat)
    requires Shaped(f) && x < |f.words| && Root(f, x) == root
    ensures f.words[x] < 0 ==> x == root
    ensures f.words[x] >= 0 ==> Below(f, x, f.words[x]) && Root(f, f.words[x]) == root
    ensures f.ranks[x] <= MaxRank(f.ranks)
    ensures f.words[x] >= 0 ==> f.ranks[f.words[x]] <= MaxRank(f.ranks)
  {}

  lemma Compressed(f: Forest, g: Forest, x: nat, root: nat, parent: nat)
    requires Shaped(f) && Weighted(f) && Ranked(f) && x < |f.words| && root < |f.words|
    requires f.words[x] == parent && Root(f, x) == root && parent != root
    requires g == SetParent(f, x, root)
    ensures Shaped(g) && Unmoved(f, g) && Root(g, parent) == root && g.words[root] == f.words[root]
    ensures Weighted(g) && Ranked(g)
  {
    hide Weighted;
    ApplyValid(f, Compress(x, root)) by { assert Root(f, parent) == root && Root(f, root) == root; }
    forall u | 0 <= u < |f.words| ensures Shaped(g) && Root(g, u) == Root(f, u) { SetParentRoot(f, x, root, u); }
  }

  lemma RepresentsSame(f: Forest, links: seq<Edge>, g: Forest)
    requires Represents(f, links) && Unmoved(f, g)
    ensures Represents(g, links)
  {
    forall x, y | 0 <= x < |f.words| && 0 <= y < |f.words| ensures Same(g, x, y) <==> Same(f, x, y) {}
  }

  lemma Representatives(before: Forest, mid: Forest, f: Forest, a: nat, b: nat, x: nat, y: nat)
    requires Unmoved(before, mid) && Unmoved(mid, f) && x < |f.words| && y < |f.words|
    requires Root(mid, x) == a && Root(f, y) == b
    ensures Unmoved(before, f) && Root(f, x) == a && IsRoot(f, a) && IsRoot(f, b)
    ensures a == b <==> Same(before, x, y)
  {}

  /** b hung below a, whose rank grows on a tie. */
  function Hanging(f: Forest, a: nat, b: nat): Forest
    requires |f.words| == |f.ranks| && a < |f.words| && b < |f.words|
  {
    SetParent(if f.ranks[a] == f.ranks[b] then Promote(f, a) else f, b, a)
  }

  lemma NothingSpans(f: Forest)
    requires Shaped(f) && forall u :: 0 <= u < |f.words| ==> f.words[u] < 0
    ensures SpansGiven(f, [], multiset{}) && Doubled([]) == []
  {
    InitiallyRepresents(|f.words|, f);
  }

  lemma HangingIs(f: Forest, a: nat, b: nat)
    requires |f.words| == |f.ranks| && a < |f.words| && b < |f.words| && a != b
    ensures Hanging(f, a, b) ==
      if f.ranks[a] == f.ranks[b] then Promote(SetParent(f, b, a), a) else SetParent(f, b, a)
  {}

  lemma HungShape(f: Forest, a: nat, b: nat)
    requires Shaped(f) && a < |f.words| && b < |f.words|
    requires IsRoot(f, a) && IsRoot(f, b) && a != b && f.ranks[b] <= f.ranks[a]
    ensures Shaped(Hanging(f, a, b))
  {}

  lemma HungWeighted(f: Forest, a: nat, b: nat)
    requires Shaped(f) && Weighted(f) && Ranked(f) && a < |f.words| && b < |f.words|
    requires IsRoot(f, a) && IsRoot(f, b) && a != b && f.ranks[b] <= f.ranks[a]
    ensures Shaped(Hanging(f, a, b)) && Weighted(Hanging(f, a, b)) && Ranked(Hanging(f, a, b))
  {
    var g := Hanging(f, a, b);
    HungShape(f, a, b);
    forall u: nat | u < |f.words| ensures Root(g, u) == if Root(f, u) == b then a else Root(f, u) {
      HungRoot(f, g, a, b, u);
    }
    hide Root;
    forall r | 0 <= r < |g.words| ensures WeightAt(g, r) { HungWeight(f, g, a, b, r); }
  }

  /** The two components together are large enough for the rank after a tie. */
  lemma HungWeight(f: Forest, g: Forest, a: nat, b: nat, r: nat)
    requires Shaped(f) && Weighted(f) && Shaped(g) && a < |f.words| && b < |f.words| && r < |f.words|
    requires IsRoot(f, a) && IsRoot(f, b) && a != b && g == Hanging(f, a, b)
    requires forall u: nat :: u < |f.words| ==> Root(g, u) == if Root(f, u) == b then a else Root(f, u)
    ensures WeightAt(g, r)
  {
    hide Root, Component, Pow2;
    assert WeightAt(f, r) && WeightAt(f, a) && WeightAt(f, b);
    HungComponents(f, g, a, b, r);
    if r == a {
      ComponentBound(g, a);
      Doubles(f.ranks[a]);
    }
  }

  lemma Doubles(k: nat)
    requires k > 0
    ensures Pow2(k) == 2 * Pow2(k - 1)
  {}

  lemma HungComponents(f: Forest, g: Forest, a: nat, b: nat, r: nat)
    requires Shaped(f) && Shaped(g) && a < |f.words| == |g.words| && b < |f.words| && IsRoot(f, a) && IsRoot(f, b)
    requires a != b && forall u: nat :: u < |f.words| ==> Root(g, u) == if Root(f, u) == b then a else Root(f, u)
    ensures |Component(g, a)| == |Component(f, a)| + |Component(f, b)|
    ensures r != a && r != b ==> Component(g, r) == Component(f, r)
  {
    hide Root, Shaped;
    assert Component(g, a) == Component(f, a) + Component(f, b) && Component(f, a) !! Component(f, b);
  }

  // ---------- Path compression ----------

  /** The nodes from u up to its root. */
  function PathFrom(f: Forest, u: nat): set<nat>
    requires Shaped(f) && u < |f.words|
    decreases MaxRank(f.ranks) - f.ranks[u], |f.words| - u
  {
    {u} + if f.words[u] < 0 then {} else PathFrom(f, f.words[u])
  }

  lemma {:induction false} PathClimbs(f: Forest, u: nat, v: nat)
    requires Shaped(f) && u < |f.words| && v in PathFrom(f, u)
    ensures v < |f.words| && (v == u || Below(f, u, v)) && Root(f, v) == Root(f, u)
    ensures PathFrom(f, v) <= PathFrom(f, u)
    decreases MaxRank(f.ranks) - f.ranks[u], |f.words| - u
  {
    if v != u { PathClimbs(f, f.words[u], v); }
  }

  /** All nodes on the way from u point directly at its root, and nothing else is different. */
  predicate PathCompressed(f: Forest, g: Forest, u: nat)
    requires Shaped(f) && u < |f.words|
  {
    && g.ranks == f.ranks && |g.words| == |f.words|
    && forall v :: 0 <= v < |f.words| ==>
         g.words[v] == if v in PathFrom(f, u) && v != Root(f, u) then Root(f, u) else f.words[v]
  }

  /** The nodes from u up to x point at the root already. */
  predicate Partway(f: Forest, g: Forest, u: nat, x: nat)
    requires Shaped(f) && u < |f.words| && x < |f.words|
  {
    && g.ranks == f.ranks && |g.words| == |f.words| && x in PathFrom(f, u)
    && forall v :: 0 <= v < |f.words| ==>
         g.words[v] == if v in PathFrom(f, u) && v !in PathFrom(f, x) then Root(f, u) else f.words[v]
  }

  lemma PartwayRefl(f: Forest, u: nat)
    requires Shaped(f) && u < |f.words|
    ensures Partway(f, f, u, u)
  {}

  lemma PartwayStep(f: Forest, g: Forest, u: nat, x: nat, p: nat)
    requires Shaped(f) && u < |f.words| && x < |f.words| && Partway(f, g, u, x) && g.words[x] == p
    ensures p < |f.words| && Partway(f, SetParent(g, x, Root(f, u)), u, p)
  {
    assert f.words[x] == p;
    PathClimbs(f, u, x);
    forall v | v in PathFrom(f, p) ensures v != x { PathClimbs(f, p, v); }
    hide Root;
  }

  lemma PartwayDone(f: Forest, g: Forest, u: nat, x: nat)
    requires Shaped(f) && u < |f.words| && x < |f.words| && Partway(f, g, u, x)
    requires x == Root(f, u) || g.words[x] == Root(f, u)
    ensures PathCompressed(f, g, u)
  {
    PathClimbs(f, u, x);
    var r := Root(f, u);
    assert x != r ==> PathFrom(f, x) == {x} + PathFrom(f, r);
  }

  lemma BothNear(before: Forest, mid: Forest, f: Forest, x: nat, y: nat)
    requires Unmoved(before, mid) && Unmoved(mid, f) && x < |f.words| && y < |f.words|
    requires PathCompressed(before, mid, x) && PathCompressed(mid, f, y)
    ensures Near(f, x, Root(before, x)) && Near(f, y, Root(before, y))
  {
    if x in PathFrom(mid, y) { PathClimbs(mid, y, x); }
  }

  lemma StillNear(f: Forest, g: Forest, a: nat, b: nat, u: nat, r: nat)
    requires Shaped(f) && a < |f.words| && b < |f.words| && IsRoot(f, a) && IsRoot(f, b) && Near(f, u, r)
    requires g == if f.ranks[a] < f.ranks[b] then Hanging(f, b, a) else Hanging(f, a, b)
    ensures Near(g, u, r)
  {}

  lemma HungEither(before: Forest, f: Forest, g: Forest, a: nat, b: nat, x: nat, y: nat)
    requires Unmoved(before, f) && x < |f.words| && y < |f.words|
    requires a != b && a == Root(f, x) && b == Root(f, y)
    requires g == if f.ranks[a] < f.ranks[b] then Hanging(f, b, a) else Hanging(f, a, b)
    ensures Merges(before, Edge(x, y), g)
  {
    hide Root, Shaped, Merges, Roots, Unmoved, Hanging;
    Lengths(before, f);
    if f.ranks[a] < f.ranks[b] { Hung(before, f, g, b, a, x, y); } else { Hung(before, f, g, a, b, x, y); }
  }

  lemma Lengths(f: Forest, g: Forest)
    requires Unmoved(f, g)
    ensures Shaped(f) && Shaped(g) && |f.words| == |g.words| == |f.ranks| == |g.ranks|
  {}

  /** Hanging b below a, with a's rank raised on a tie, merges exactly the two components. */
  lemma Hung(before: Forest, f: Forest, g: Forest, a: nat, b: nat, x: nat, y: nat)
    requires Unmoved(before, f) && x < |f.words| && y < |f.words|
    requires a != b && {a, b} == {Root(f, x), Root(f, y)} && f.ranks[b] <= f.ranks[a]
    requires g == Hanging(f, a, b)
    ensures Merges(before, Edge(x, y), g)
  {
    hide Root, Shaped, Roots, Hanging;
    UnmovedRoots(before, f);
    HungShape(f, a, b);
    HangingRoots(f, a, b);
    forall u | 0 <= u < |f.words| ensures Root(g, u) == if Root(before, u) == b then a else Root(before, u) {
      UnmovedRoot(before, f, u);
      HungRoot(f, g, a, b, u);
    }
    UnmovedRoot(before, f, x);
    UnmovedRoot(before, f, y);
    MergedLabels(before, g, a, b, x, y);
  }

  lemma UnmovedRoots(f: Forest, g: Forest)
    requires Unmoved(f, g)
    ensures Roots(f) == Roots(g) && Shaped(f) && Shaped(g) && |f.words| == |g.words|
    ensures forall u :: 0 <= u < |f.words| ==> IsRoot(g, Root(g, u))
  {}

  lemma HangingRoots(f: Forest, a: nat, b: nat)
    requires Shaped(f) && a < |f.words| && b < |f.words| && IsRoot(f, a) && IsRoot(f, b) && a != b
    ensures |Roots(Hanging(f, a, b))| == |Roots(f)| - 1 && |Hanging(f, a, b).words| == |f.words|
  {
    assert Roots(Hanging(f, a, b)) == Roots(f) - {b};
  }

  lemma MergedLabels(f: Forest, g: Forest, a: nat, b: nat, x: nat, y: nat)
    requires Shaped(f) && Shaped(g) && |f.words| == |g.words| && x < |f.words| && y < |f.words|
    requires a != b && {a, b} == {Root(f, x), Root(f, y)}
    requires forall u :: 0 <= u < |f.words| ==> Root(g, u) == if Root(f, u) == b then a else Root(f, u)
    ensures forall u, v :: 0 <= u < |f.words| && 0 <= v < |f.words| ==>
      (Same(g, u, v) <==> Merged(f, Edge(x, y), u, v))
  {
    hide Root, Shaped;
    assert (a == Root(f, x) && b == Root(f, y)) || (a == Root(f, y) && b == Root(f, x));
  }

  lemma HungRoot(f: Forest, g: Forest, a: nat, b: nat, u: nat)
    requires Shaped(f) && a < |f.words| && b < |f.words| && u < |f.words| && IsRoot(f, a) && IsRoot(f, b) && a != b
    requires f.ranks[b] <= f.ranks[a] && g == Hanging(f, a, b)
    ensures Shaped(g) && Root(g, u) == if Root(f, u) == b then a else Root(f, u)
  {
    var h := if f.ranks[a] == f.ranks[b] then Promote(f, a) else f;
    if f.ranks[a] == f.ranks[b] {
      PromoteRoot(f, a, u);
      PromoteRoot(f, a, a);
      PromoteRoot(f, a, b);
    }
    SetParentRoot(h, b, a, u);
  }
}
