/** The adjacency array of an undirected edge list: what its segments hold, and the sequential loop that builds it. */
module Csr {
  import opened Counting
  import opened Graphs

  /** The neighbours of u, once per occurrence of u in an edge, in edge order. */
  function Neighbours(edges: seq<Edge>, u: nat): seq<nat> {
    if edges == [] then []
    else
      var e := edges[|edges| - 1];
      Neighbours(edges[..|edges| - 1], u)
        + (if e.a == u then [e.b] else []) + (if e.b == u then [e.a] else [])
  }

  function Degree(edges: seq<Edge>, u: nat): nat { |Neighbours(edges, u)| }

  function Degrees(edges: seq<Edge>): nat -> nat { u => Degree(edges, u) }

  /** Where the segment of node u starts. */
  function Start(edges: seq<Edge>, u: nat): nat { Offset(Degrees(edges), u) }

  predicate EdgesBelow(edges: seq<Edge>, n: nat) {
    forall i :: 0 <= i < |edges| ==> edges[i].a < n && edges[i].b < n
  }

  /** index and adj list, for every node, exactly its neighbours. */
  predicate IsCsr(n: nat, edges: seq<Edge>, index: seq<nat>, adj: seq<nat>) {
    && |index| == n + 1
    && (forall u {:trigger index[u]} :: 0 <= u <= n ==> index[u] == Start(edges, u) <= |adj|)
    && forall u :: 0 <= u < n ==> Lists(edges, index, adj, u)
  }

  /** The segment of u holds its neighbours, in any order. */
  predicate Lists(edges: seq<Edge>, index: seq<nat>, adj: seq<nat>, u: nat)
    requires u + 1 < |index|
  {
    && index[u] <= index[u + 1] <= |adj|
    && multiset(adj[index[u]..index[u + 1]]) == multiset(Neighbours(edges, u))
  }

  /** The segment of u holds its neighbours, in edge order. */
  predicate ListsInOrder(edges: seq<Edge>, adj: seq<nat>, u: nat) {
    && Start(edges, u) <= Start(edges, u + 1) <= |adj|
    && adj[Start(edges, u)..Start(edges, u + 1)] == Neighbours(edges, u)
  }

  lemma StartMonotone(edges: seq<Edge>, u: nat, v: nat)
    requires u <= v
    ensures Start(edges, u) <= Start(edges, v)
  {
    OffsetMonotone(Degrees(edges), u, v);
  }

  lemma StartOfAppended(edges: seq<Edge>, e: Edge, k: nat)
    ensures Start(edges + [e], k) == Start(edges, k) + (if e.a < k then 1 else 0) + (if e.b < k then 1 else 0)
  {
    hide Neighbours, Degree;
    var d := Degrees(edges);
    var once := (u: nat) => d(u) + if e.a == u then 1 else 0;
    forall u | 0 <= u < k ensures Degrees(edges + [e])(u) == once(u) + if u == e.b then 1 else 0 {
      DegreeOfAppended(edges, e, u);
    }
    OffsetBump(d, once, e.a, k);
    OffsetBump(once, Degrees(edges + [e]), e.b, k);
  }

  lemma DegreeOfAppended(edges: seq<Edge>, e: Edge, u: nat)
    ensures Degree(edges + [e], u) == Degree(edges, u) + (if e.a == u then 1 else 0) + (if e.b == u then 1 else 0)
  {
    assert (edges + [e])[..|edges|] == edges;
  }

  /** The segments of n nodes have 2m slots. */
  lemma {:induction false} StartTotal(edges: seq<Edge>, n: nat)
    requires EdgesBelow(edges, n)
    ensures Start(edges, n) == 2 * |edges|
  {
    if edges == [] {
      OffsetZero(Degrees(edges), n);
    } else {
      var before := edges[..|edges| - 1];
      StartTotal(before, n);
      assert edges == before + [edges[|edges| - 1]];
      StartOfAppended(before, edges[|edges| - 1], n);
    }
  }

  /** A prefix of the edges needs no more room than all of them. */
  lemma {:induction false} DegreeGrows(edges: seq<Edge>, i: nat, u: nat)
    requires i <= |edges|
    ensures Degree(edges[..i], u) <= Degree(edges, u)
    decreases |edges| - i
  {
    if i < |edges| {
      DegreeGrows(edges, i + 1, u);
      assert edges[..i + 1][..i] == edges[..i];
    } else {
      assert edges[..i] == edges;
    }
  }

  /** How often w is listed for v is how many edges join them. */
  lemma {:induction false} NeighbourCount(edges: seq<Edge>, v: nat, w: nat)
    requires v != w
    ensures multiset(Neighbours(edges, v))[w] == multiset(edges)[Edge(v, w)] + multiset(edges)[Edge(w, v)]
  {
    if edges != [] {
      var before, e := edges[..|edges| - 1], edges[|edges| - 1];
      NeighbourCount(before, v, w);
      assert edges == before + [e];
      var l := if e.a == v then [e.b] else [];
      var r := if e.b == v then [e.a] else [];
      AppendCount(Neighbours(before, v), l, r, w);
      AppendEdge(before, e, Edge(v, w));
      AppendEdge(before, e, Edge(w, v));
    }
  }

  lemma AppendCount(s: seq<nat>, l: seq<nat>, r: seq<nat>, w: nat)
    requires |l| <= 1 && |r| <= 1
    ensures multiset(s + l + r)[w] ==
      multiset(s)[w] + (if l == [w] then 1 else 0) + (if r == [w] then 1 else 0)
  {
    assert multiset(s + l + r) == multiset(s) + multiset(l) + multiset(r);
  }

  lemma AppendEdge(s: seq<Edge>, e: Edge, d: Edge)
    ensures multiset(s + [e])[d] == multiset(s)[d] + (if d == e then 1 else 0)
  {}

  lemma {:induction false} NeighbourIsAdjacent(edges: seq<Edge>, v: nat, w: nat)
    ensures w in Neighbours(edges, v) <==> Adjacent(multiset(edges), v, w)
  {
    if edges != [] {
      var before, e := edges[..|edges| - 1], edges[|edges| - 1];
      NeighbourIsAdjacent(before, v, w);
      assert edges == before + [e];
      assert multiset(edges) == multiset(before) + multiset{e};
    }
  }

  /** What a reader of the adjacency array sees in the segment of v are exactly the nodes adjacent to v. */
  lemma SegmentIsAdjacent(n: nat, edges: seq<Edge>, index: seq<nat>, adj: seq<nat>, v: nat, w: nat)
    requires IsCsr(n, edges, index, adj) && v < n
    ensures Lists(edges, index, adj, v)
    ensures w in adj[index[v]..index[v + 1]] <==> Adjacent(multiset(edges), v, w)
  {
    NeighbourIsAdjacent(edges, v, w);
    var s := adj[index[v]..index[v + 1]];
    assert w in s <==> w in multiset(s);
    assert w in Neighbours(edges, v) <==> w in multiset(Neighbours(edges, v));
  }

  /** In a forest no node is listed twice in a segment, and no node lists itself. */
  lemma SegmentHasNoDuplicates(n: nat, edges: seq<Edge>, index: seq<nat>, adj: seq<nat>, v: nat)
    requires IsCsr(n, edges, index, adj) && v < n && Acyclic(multiset(edges))
    ensures Lists(edges, index, adj, v)
    ensures forall i, j :: index[v] <= i < j < index[v + 1] ==> adj[i] != adj[j]
    ensures forall i :: index[v] <= i < index[v + 1] ==> adj[i] != v
  {
    var E, s := multiset(edges), adj[index[v]..index[v + 1]];
    hide Start, Neighbours, Conn;
    assert Lists(edges, index, adj, v);
    hide IsCsr;
    forall i | index[v] <= i < index[v + 1] ensures adj[i] != v {
      assert s[i - index[v]] == adj[i];
      SegmentIsAdjacent(n, edges, index, adj, v, v);
      if adj[i] == v { ConnRefl(E - multiset{Edge(v, v)}, v); }
    }
    forall i, j | index[v] <= i < j < index[v + 1] ensures adj[i] != adj[j] {
      assert s[i - index[v]] == adj[i] && s[j - index[v]] == adj[j];
      if adj[i] == adj[j] { ListedTwice(edges, s, v, i - index[v], j - index[v]); }
    }
  }

  lemma ListedTwice(edges: seq<Edge>, s: seq<nat>, v: nat, i: nat, j: nat)
    requires i < j < |s| && s[i] == s[j] != v && multiset(s) == multiset(Neighbours(edges, v))
    ensures !Acyclic(multiset(edges))
  {
    TwiceCounts(s, i, j);
    NeighbourCount(edges, v, s[i]);
    ParallelEdgesCycle(multiset(edges), v, s[i]);
  }

  lemma TwiceCounts(s: seq<nat>, i: nat, j: nat)
    requires i < j < |s| && s[i] == s[j]
    ensures multiset(s)[s[i]] >= 2
  {
    assert s == s[..i + 1] + s[i + 1..];
    assert s[i] in s[..i + 1] && s[j] in s[i + 1..] by { assert s[i + 1..][j - i - 1] == s[j]; }
    assert multiset(s) == multiset(s[..i + 1]) + multiset(s[i + 1..]);
  }

  lemma ParallelEdgesCycle(E: multiset<Edge>, v: nat, w: nat)
    requires v != w && E[Edge(v, w)] + E[Edge(w, v)] >= 2
    ensures !Acyclic(E)
  {
    var e := if Edge(v, w) in E then Edge(v, w) else Edge(w, v);
    assert Adjacent(E - multiset{e}, e.a, e.b);
    ConnStep(E - multiset{e}, e.a, e.b);
  }

  /** sequential_build_adj_array: afterwards every segment lists its node's neighbours in edge order. */
  method SequentialBuild(n: nat, edges: seq<Edge>, index: array<nat>, counter: array<nat>, adj: array<nat>)
    requires EdgesBelow(edges, n) && index.Length == counter.Length == n + 1
    requires 2 * |edges| <= adj.Length && index != counter && counter != adj && index != adj
    modifies index, counter, adj
    ensures IsCsr(n, edges, index[..], adj[..])
    ensures forall u :: 0 <= u < n ==> ListsInOrder(edges, adj[..], u)
  {
    hide Neighbours, Degree, Offset, ListsInOrder, IsCsr;
    Reset(counter);
    CountDegrees(n, edges, counter);
    PrefixSums(Degrees(edges), counter);
    CopyTo(counter, index);
    assert index[..] == counter[..];
    Fill(n, edges, counter, adj);
    InOrderIsCsr(n, edges, index[..], adj[..]);
  }

  method Reset(counter: array<nat>)
    modifies counter
    ensures forall v {:trigger counter[v]} :: 0 <= v < counter.Length ==> counter[v] == 0
  {
    for u := 0 to counter.Length
      invariant forall v {:trigger counter[v]} :: 0 <= v < u ==> counter[v] == 0
    {
      counter[u] := 0;
    }
  }

  method CopyTo(counter: array<nat>, index: array<nat>)
    requires index.Length == counter.Length && index != counter
    modifies index
    ensures index[..] == counter[..]
  {
    for u := 0 to counter.Length
      invariant index[..u] == counter[..u]
    {
      index[u] := counter[u];
    }
  }

  lemma InOrderIsCsr(n: nat, edges: seq<Edge>, index: seq<nat>, adj: seq<nat>)
    requires EdgesBelow(edges, n) && |index| == n + 1 && 2 * |edges| <= |adj|
    requires forall u {:trigger index[u]} :: 0 <= u <= n ==> index[u] == Start(edges, u)
    requires forall u :: 0 <= u < n ==> ListsInOrder(edges, adj, u)
    ensures IsCsr(n, edges, index, adj)
  {
    StartTotal(edges, n);
    forall u | 0 <= u <= n ensures Start(edges, u) <= |adj| { StartMonotone(edges, u, n); }
    forall u | 0 <= u < n ensures Lists(edges, index, adj, u) { assert ListsInOrder(edges, adj, u); }
  }

  function DegreeBefore(edges: seq<Edge>, v: nat): nat { Before(Degrees(edges), v) }

  method CountDegrees(n: nat, edges: seq<Edge>, counter: array<nat>)
    requires EdgesBelow(edges, n) && counter.Length == n + 1
    requires forall v {:trigger counter[v]} :: 0 <= v <= n ==> counter[v] == 0
    modifies counter
    ensures forall v {:trigger counter[v]} :: 0 <= v <= n ==> counter[v] == DegreeBefore(edges, v)
  {
    for i := 0 to |edges|
      invariant forall v {:trigger counter[v]} :: 0 <= v <= n ==> counter[v] == DegreeBefore(edges[..i], v)
    {
      var e := edges[i];
      assert edges[..i + 1][..i] == edges[..i];
      counter[e.a + 1] := counter[e.a + 1] + 1;
      counter[e.b + 1] := counter[e.b + 1] + 1;
    }
    assert edges[..|edges|] == edges;
  }

  lemma NextEdge(edges: seq<Edge>, i: nat, u: nat)
    requires i < |edges|
    ensures var e := edges[i];
      && Neighbours(edges[..i + 1], u)
         == Neighbours(edges[..i], u) + (if e.a == u then [e.b] else []) + (if e.b == u then [e.a] else [])
      && Degree(edges[..i + 1], u)
         == Degree(edges[..i], u) + (if e.a == u then 1 else 0) + (if e.b == u then 1 else 0)
  {
    assert edges[..i + 1][..i] == edges[..i];
  }

  /** The part of u's segment that the first i edges have filled. */
  predicate Filled(edges: seq<Edge>, i: nat, u: nat, next: nat, adj: seq<nat>)
    requires i <= |edges|
  {
    && next == Start(edges, u) + Degree(edges[..i], u)
    && next <= |adj|
    && adj[Start(edges, u)..next] == Neighbours(edges[..i], u)
  }

  lemma SegmentsApart(edges: seq<Edge>, i: nat, u: nat, v: nat)
    requires i <= |edges| && u < v
    ensures Start(edges, u) + Degree(edges[..i], u) <= Start(edges, v)
  {
    DegreeGrows(edges, i, u);
    StartMonotone(edges, u + 1, v);
  }

  method Fill(n: nat, edges: seq<Edge>, counter: array<nat>, adj: array<nat>)
    requires EdgesBelow(edges, n) && counter.Length == n + 1 && counter != adj
    requires forall v {:trigger counter[v]} :: 0 <= v <= n ==> counter[v] == Start(edges, v)
    requires 2 * |edges| <= adj.Length
    modifies counter, adj
    ensures forall u :: 0 <= u < n ==> ListsInOrder(edges, adj[..], u)
  {
    hide Neighbours, Degree, Start, Filled, ListsInOrder;
    StartTotal(edges, n);
    forall u | 0 <= u < n ensures Filled(edges, 0, u, counter[u], adj[..]) {
      NothingFilled(edges, n, u, adj[..]);
    }
    for i := 0 to |edges|
      invariant forall u :: 0 <= u < n ==> Filled(edges, i, u, counter[u], adj[..])
    {
      var e := edges[i];
      ghost var before: seq<nat>, counts: seq<nat> := adj[..], counter[..];
      RoomLeft(edges, i, n, counts, before, e.a);
      RoomLeft(edges, i, n, counts, before, e.b);
      var aIndex := counter[e.a];
      counter[e.a] := counter[e.a] + 1;
      var bIndex := counter[e.b];
      counter[e.b] := counter[e.b] + 1;
      adj[aIndex] := e.b;
      adj[bIndex] := e.a;
      assert adj[..] == before[aIndex := e.b][bIndex := e.a];
      forall u | 0 <= u < n ensures Filled(edges, i + 1, u, counter[u], adj[..]) {
        FillOne(edges, i, u, n, before, counts, aIndex, bIndex, adj[..]);
      }
    }
    assert edges[..|edges|] == edges;
    forall u | 0 <= u < n ensures ListsInOrder(edges, adj[..], u) {
      AllFilled(edges, u, counter[u], adj[..]);
    }
  }

  lemma NothingFilled(edges: seq<Edge>, n: nat, u: nat, adj: seq<nat>)
    requires EdgesBelow(edges, n) && u < n && 2 * |edges| <= |adj|
    ensures Filled(edges, 0, u, Start(edges, u), adj)
  {
    StartTotal(edges, n);
    StartMonotone(edges, u, n);
  }

  lemma AllFilled(edges: seq<Edge>, u: nat, next: nat, adj: seq<nat>)
    requires Filled(edges, |edges|, u, next, adj)
    ensures ListsInOrder(edges, adj, u)
  {
    assert edges[..|edges|] == edges;
  }

  /** Before an edge is filled in, the segments of its endpoints have room for it. */
  lemma RoomLeft(edges: seq<Edge>, i: nat, n: nat, counts: seq<nat>, adj: seq<nat>, u: nat)
    requires i < |edges| && EdgesBelow(edges, n) && u < n && |counts| == n + 1 && 2 * |edges| <= |adj|
    requires Filled(edges, i, u, counts[u], adj)
    ensures var e := edges[i];
      counts[u] + (if e.a == u then 1 else 0) + (if e.b == u then 1 else 0) <= |adj|
    ensures Start(edges, u) + Degree(edges[..i + 1], u) <= |adj|
  {
    hide Neighbours, Degree, Start;
    NextEdge(edges, i, u);
    SegmentsApart(edges, i + 1, u, u + 1);
    StartMonotone(edges, u + 1, n);
    StartTotal(edges, n);
  }

  /** An entry for another node x lands outside the segment of u. */
  lemma Elsewhere(edges: seq<Edge>, i: nat, n: nat, u: nat, x: nat, next: nat, slot: nat)
    requires i < |edges| && EdgesBelow(edges, n) && u < n && x < n && u != x
    requires next == Start(edges, x) + Degree(edges[..i], x)
    requires next <= slot < Start(edges, x) + Degree(edges[..i + 1], x)
    ensures slot < Start(edges, u) || slot >= Start(edges, u) + Degree(edges[..i + 1], u)
  {
    hide Neighbours, Degree, Start;
    if x < u { SegmentsApart(edges, i + 1, x, u); } else { SegmentsApart(edges, i + 1, u, x); }
  }

  /** One edge adds its two entries and disturbs no other segment. */
  lemma FillOne(edges: seq<Edge>, i: nat, u: nat, n: nat, before: seq<nat>, counts: seq<nat>,
                aIndex: nat, bIndex: nat, after: seq<nat>)
    requires i < |edges| && EdgesBelow(edges, n) && u < n && |counts| == n + 1
    requires Filled(edges, i, u, counts[u], before)
    requires Filled(edges, i, edges[i].a, counts[edges[i].a], before)
    requires Filled(edges, i, edges[i].b, counts[edges[i].b], before)
    requires var e := edges[i];
      && aIndex == counts[e.a] && bIndex == counts[e.b] + (if e.a == e.b then 1 else 0)
      && aIndex < |before| && bIndex < |before|
      && after == before[aIndex := e.b][bIndex := e.a]
    requires 2 * |edges| <= |before|
    ensures var e := edges[i];
      Filled(edges, i + 1, u, counts[u] + (if e.a == u then 1 else 0) + (if e.b == u then 1 else 0), after)
  {
    hide Neighbours, Degree, Start;
    var e := edges[i];
    NextEdge(edges, i, u);
    NextEdge(edges, i, e.a);
    NextEdge(edges, i, e.b);
    RoomLeft(edges, i, n, counts, before, u);
    if u != e.a { Elsewhere(edges, i, n, u, e.a, counts[e.a], aIndex); }
    if u != e.b { Elsewhere(edges, i, n, u, e.b, counts[e.b], bIndex); }
    WriteTwo(before, aIndex, e.b, bIndex, e.a, after, Start(edges, u), counts[u],
             if e.a == u then [e.b] else [], if e.b == u then [e.a] else []);
  }

  /** Two writes either append to the slice [s, next) or miss it. */
  lemma WriteTwo(before: seq<nat>, i: nat, x: nat, j: nat, y: nat, after: seq<nat>, s: nat, next: nat,
                 l: seq<nat>, r: seq<nat>)
    requires i < |before| && j < |before| && after == before[i := x][j := y]
    requires s <= next && next + |l| + |r| <= |before|
    requires (l == [x] && i == next) || (l == [] && (i < s || i >= next + |r|))
    requires (r == [y] && j == next + |l|) || (r == [] && (j < s || j >= next + |l|))
    ensures after[s..next + |l| + |r|] == before[s..next] + l + r
  {}
}
