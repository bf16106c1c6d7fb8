/** The adjacency array of a directed edge list, built by counting, adding up and filling. */
module AdjacencyArray {
  import opened Counting
  import opened Graphs
  import opened Csr

  /** The heads of the arcs out of u, in the order of the list. */
  function Heads(arcs: seq<Edge>, u: nat): seq<nat> {
    if arcs == [] then []
    else
      var last := arcs[|arcs| - 1];
      Heads(arcs[..|arcs| - 1], u) + if last.a == u then [last.b] else []
  }

  function OutDegree(arcs: seq<Edge>, u: nat): nat { |Heads(arcs, u)| }

  function OutDegrees(arcs: seq<Edge>): nat -> nat { u => OutDegree(arcs, u) }

  lemma NextHead(arcs: seq<Edge>, i: nat, u: nat)
    requires i < |arcs|
    ensures Heads(arcs[..i + 1], u) == Heads(arcs[..i], u) + if arcs[i].a == u then [arcs[i].b] else []
    ensures OutDegree(arcs[..i + 1], u) == OutDegree(arcs[..i], u) + if arcs[i].a == u then 1 else 0
  {
    assert arcs[..i + 1][..i] == arcs[..i];
  }

  lemma {:induction false} OutDegreeGrows(arcs: seq<Edge>, i: nat, u: nat)
    requires i <= |arcs|
    ensures OutDegree(arcs[..i], u) <= OutDegree(arcs, u)
    decreases |arcs| - i
  {
    hide Heads, OutDegree;
    if i < |arcs| {
      NextHead(arcs, i, u);
      OutDegreeGrows(arcs, i + 1, u);
    } else {
      assert arcs[..i] == arcs;
    }
  }

  /** The segments of all nodes together have one slot for every arc. */
  lemma {:induction false} AllArcs(arcs: seq<Edge>, n: nat)
    requires EdgesBelow(arcs, n)
    ensures Offset(OutDegrees(arcs), n) == |arcs|
  {
    if arcs == [] {
      OffsetZero(OutDegrees(arcs), n);
    } else {
      var last := |arcs| - 1;
      AllArcs(arcs[..last], n);
      hide Heads, OutDegree;
      assert arcs[..last + 1] == arcs;
      forall u | 0 <= u < n
        ensures OutDegrees(arcs)(u) == OutDegrees(arcs[..last])(u) + if u == arcs[last].a then 1 else 0
      {
        NextHead(arcs, last, u);
      }
      OffsetBump(OutDegrees(arcs[..last]), OutDegrees(arcs), arcs[last].a, n);
    }
  }

  /** The part of u's segment that the first i arcs have filled. */
  predicate Listed(arcs: seq<Edge>, i: nat, u: nat, next: nat, heads: seq<nat>)
    requires i <= |arcs|
  {
    var first := Offset(OutDegrees(arcs), u);
    next == first + OutDegree(arcs[..i], u) && next <= |heads| && heads[first..next] == Heads(arcs[..i], u)
  }

  lemma NothingListed(arcs: seq<Edge>, n: nat, u: nat, heads: seq<nat>)
    requires EdgesBelow(arcs, n) && u <= n && |heads| == |arcs|
    ensures Offset(OutDegrees(arcs), u) <= |heads| && Listed(arcs, 0, u, Offset(OutDegrees(arcs), u), heads)
  {
    AllArcs(arcs, n);
    OffsetMonotone(OutDegrees(arcs), u, n);
    assert arcs[..0] == [];
  }

  /** The next slot of the i-th arc's tail lies in its segment. */
  lemma Room(arcs: seq<Edge>, i: nat, u: nat, next: nat, heads: seq<nat>)
    requires i <= |arcs| && Listed(arcs, i, u, next, heads)
    ensures Offset(OutDegrees(arcs), u) <= next <= Offset(OutDegrees(arcs), u + 1)
    ensures i < |arcs| && arcs[i].a == u ==> next < Offset(OutDegrees(arcs), u + 1)
  {
    hide Heads;
    OutDegreeGrows(arcs, i, u);
    if i < |arcs| {
      NextHead(arcs, i, u);
      OutDegreeGrows(arcs, i + 1, u);
    }
  }

  lemma ListOne(arcs: seq<Edge>, i: nat, u: nat, next: nat, w: nat, slot: nat, heads: seq<nat>)
    requires i < |arcs| && w == arcs[i].a && slot < |heads| && (u == w ==> next == slot)
    requires Listed(arcs, i, u, next, heads) && Listed(arcs, i, w, slot, heads)
    ensures Listed(arcs, i + 1, u, if u == w then slot + 1 else next, heads[slot := arcs[i].b])
  {
    hide Heads, OutDegree, OutDegrees, Offset;
    NextHead(arcs, i, u);
    Room(arcs, i, u, next, heads);
    Room(arcs, i, w, slot, heads);
    if u < w { OffsetMonotone(OutDegrees(arcs), u + 1, w); }
    if w < u { OffsetMonotone(OutDegrees(arcs), w + 1, u); }
    var first, after := Offset(OutDegrees(arcs), u), heads[slot := arcs[i].b];
    if u == w { assert after[first..slot + 1] == heads[first..slot] + [arcs[i].b]; }
    else { assert after[first..next] == heads[first..next]; }
  }

  /** The segment of u holds the heads of all its arcs. */
  predicate Complete(arcs: seq<Edge>, u: nat, heads: seq<nat>) {
    Listed(arcs, |arcs|, u, Offset(OutDegrees(arcs), u + 1), heads)
  }

  class AdjacencyArray {
    const index: array<nat>
    const heads: array<nat>

    /** Every node's segment lists the heads of its arcs, in order. */
    ghost predicate Built(n: nat, arcs: seq<Edge>)
      reads index, heads
    {
      && index.Length == n + 1 && heads.Length == |arcs|
      && (forall u {:trigger index[u]} :: 0 <= u <= n ==> index[u] == Offset(OutDegrees(arcs), u))
      && (forall u :: 0 <= u < n ==> Complete(arcs, u, heads[..]))
    }

    constructor (n: nat, arcs: seq<Edge>)
      requires EdgesBelow(arcs, n)
      ensures Built(n, arcs) && fresh(index) && fresh(heads)
    {
      hide Heads, OutDegree, Offset, Listed;
      index := new nat[n + 1];
      heads := new nat[|arcs|];
      new;
      var c := new nat[n + 1](_ => 0);
      CountOut(n, arcs, c);
      PrefixSums(OutDegrees(arcs), c);
      CopyTo(c, index);
      assert forall u {:trigger index[u]} :: 0 <= u <= n ==> index[..][u] == c[..][u];
      forall u | 0 <= u < n ensures Listed(arcs, 0, u, c[u], heads[..]) { NothingListed(arcs, n, u, heads[..]); }
      for i := 0 to |arcs|
        invariant forall u :: 0 <= u < n ==> Listed(arcs, i, u, c[u], heads[..])
        invariant forall u {:trigger index[u]} :: 0 <= u <= n ==> index[u] == Offset(OutDegrees(arcs), u)
      {
        var e := arcs[i];
        ghost var before: seq<nat>, starts: seq<nat> := heads[..], c[..];
        SlotExists(arcs, n, i, c[e.a], heads[..]);
        heads[c[e.a]] := e.b;
        c[e.a] := c[e.a] + 1;
        assert heads[..] == before[starts[e.a] := e.b];
        forall u | 0 <= u < n ensures Listed(arcs, i + 1, u, c[u], heads[..]) {
          ListOne(arcs, i, u, starts[u], e.a, starts[e.a], before);
        }
      }
      forall u | 0 <= u < n ensures Complete(arcs, u, heads[..]) {
        AllListed(arcs, u, c[u], heads[..]);
      }
    }
  }

  method CountOut(n: nat, arcs: seq<Edge>, c: array<nat>)
    requires EdgesBelow(arcs, n) && c.Length == n + 1
    requires forall v {:trigger c[v]} :: 0 <= v <= n ==> c[v] == 0
    modifies c
    ensures forall v {:trigger c[v]} :: 0 <= v <= n ==> c[v] == Before(OutDegrees(arcs), v)
  {
    for i := 0 to |arcs|
      invariant forall v {:trigger c[v]} :: 0 <= v <= n ==> c[v] == Before(OutDegrees(arcs[..i]), v)
    {
      assert arcs[..i + 1][..i] == arcs[..i];
      c[arcs[i].a + 1] := c[arcs[i].a + 1] + 1;
    }
    assert arcs[..|arcs|] == arcs;
  }

  lemma SlotExists(arcs: seq<Edge>, n: nat, i: nat, next: nat, heads: seq<nat>)
    requires EdgesBelow(arcs, n) && i < |arcs| && |heads| == |arcs| && Listed(arcs, i, arcs[i].a, next, heads)
    ensures next < |heads|
  {
    hide Heads, OutDegree, Offset;
    Room(arcs, i, arcs[i].a, next, heads);
    OffsetMonotone(OutDegrees(arcs), arcs[i].a + 1, n);
    AllArcs(arcs, n);
  }

  lemma AllListed(arcs: seq<Edge>, u: nat, next: nat, heads: seq<nat>)
    requires Listed(arcs, |arcs|, u, next, heads)
    ensures Complete(arcs, u, heads)
  {
    assert arcs[..|arcs|] == arcs;
  }

  // ---------- Undirected graphs ----------

  /** Every edge followed by its reverse. */
  function Doubled(edges: seq<Edge>): seq<Edge> {
    if edges == [] then []
    else
      var e := edges[|edges| - 1];
      Doubled(edges[..|edges| - 1]) + [e, Edge(e.b, e.a)]
  }

  lemma DoubledMore(edges: seq<Edge>, e: Edge)
    ensures Doubled(edges + [e]) == Doubled(edges) + [e, Edge(e.b, e.a)]
  {
    assert (edges + [e])[..|edges|] == edges;
  }

  lemma {:induction false} DoubledBelow(edges: seq<Edge>, n: nat)
    requires EdgesBelow(edges, n)
    ensures EdgesBelow(Doubled(edges), n)
  {
    if edges != [] { DoubledBelow(edges[..|edges| - 1], n); }
  }

  lemma HeadsOfTwo(arcs: seq<Edge>, e: Edge, d: Edge, u: nat)
    ensures Heads(arcs + [e, d], u)
      == Heads(arcs, u) + (if e.a == u then [e.b] else []) + (if d.a == u then [d.b] else [])
  {
    assert (arcs + [e, d])[..|arcs| + 1] == arcs + [e];
    assert (arcs + [e])[..|arcs|] == arcs;
  }

  /** With both directions listed, the heads out of a node are its neighbours. */
  lemma {:induction false} HeadsAreNeighbours(edges: seq<Edge>, u: nat)
    ensures Heads(Doubled(edges), u) == Neighbours(edges, u)
  {
    if edges != [] {
      var before, e := edges[..|edges| - 1], edges[|edges| - 1];
      HeadsAreNeighbours(before, u);
      HeadsOfTwo(Doubled(before), e, Edge(e.b, e.a), u);
    }
  }

  /** The array of the doubled list is an adjacency array of the undirected edges. */
  lemma DoubledIsCsr(n: nat, edges: seq<Edge>, graph: AdjacencyArray)
    requires EdgesBelow(edges, n) && graph.Built(n, Doubled(edges))
    ensures IsCsr(n, edges, graph.index[..], graph.heads[..])
  {
    hide Heads, Neighbours, Doubled, Offset;
    var arcs := Doubled(edges);
    DoubledBelow(edges, n);
    forall u | 0 <= u <= n ensures Offset(OutDegrees(arcs), u) == Start(edges, u) <= graph.heads.Length {
      forall v | 0 <= v < u ensures Degrees(edges)(v) == OutDegrees(arcs)(v) { HeadsAreNeighbours(edges, v); }
      OffsetSame(OutDegrees(arcs), Degrees(edges), u);
      NothingListed(arcs, n, u, graph.heads[..]);
    }
    forall u | 0 <= u < n ensures Lists(edges, graph.index[..], graph.heads[..], u) {
      assert arcs[..|arcs|] == arcs;
      assert Complete(arcs, u, graph.heads[..]);
      HeadsAreNeighbours(edges, u);
      OffsetMonotone(OutDegrees(arcs), u, u + 1);
      assert graph.index[u] == Offset(OutDegrees(arcs), u) && graph.index[u + 1] == Offset(OutDegrees(arcs), u + 1);
    }
  }
}
