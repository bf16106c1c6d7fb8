/** Shortest distances in a graph with non-negative weights, over the indexed heap with the smallest value on top. */
module Dijkstra {
  import opened Sets
  import opened IndexedHeap

  datatype Edge = Edge(head: nat, weight: real)

  /** A distance: a real number, or infinity. */
  datatype Dist = Finite(value: real) | Infinity

  predicate Less(a: real, d: Dist) { d.Infinity? || a < d.value }

  /** Out-edges of every node. */
  predicate WellFormed(g: seq<seq<Edge>>) {
    forall u, e :: 0 <= u < |g| && 0 <= e < |g[u]| ==> EdgeOk(g, u, e)
  }

  predicate EdgeOk(g: seq<seq<Edge>>, u: nat, e: nat)
    requires u < |g| && e < |g[u]|
  {
    g[u][e].head < |g| && g[u][e].weight >= 0.0
  }

  /** The e-th edge out of u. */
  datatype Hop = Hop(u: nat, e: nat)

  predicate IsHop(g: seq<seq<Edge>>, h: Hop) { h.u < |g| && h.e < |g[h.u]| }

  predicate IsPath(g: seq<seq<Edge>>, start: nat, path: seq<Hop>, v: nat) {
    if path == [] then v == start
    else
      var h := path[|path| - 1];
      IsHop(g, h) && g[h.u][h.e].head == v && IsPath(g, start, path[..|path| - 1], h.u)
  }

  function Length(g: seq<seq<Edge>>, path: seq<Hop>): real {
    if path == [] then 0.0
    else
      var h := path[|path| - 1];
      Length(g, path[..|path| - 1]) + if IsHop(g, h) then g[h.u][h.e].weight else 0.0
  }

  /** Some path from start to v has length d. */
  ghost predicate Attained(g: seq<seq<Edge>>, start: nat, v: nat, d: real) {
    exists path :: IsPath(g, start, path, v) && Length(g, path) == d
  }

  /** No path from start to v is shorter than d. */
  ghost predicate Bounded(g: seq<seq<Edge>>, start: nat, v: nat, d: real) {
    forall path :: IsPath(g, start, path, v) ==> Length(g, path) >= d
  }

  /** d is the distance from start to v: infinity if there is no path, and the length of a shortest one otherwise. */
  ghost predicate IsDistance(g: seq<seq<Edge>>, start: nat, v: nat, d: Dist) {
    match d
    case Infinity => forall path :: !IsPath(g, start, path, v)
    case Finite(value) => Attained(g, start, v, value) && Bounded(g, start, v, value)
  }

  // ---------- The invariant ----------

  predicate RelaxedAt(g: seq<seq<Edge>>, dist: seq<Dist>, u: nat, e: nat)
    requires u < |g| == |dist| && e < |g[u]| && dist[u].Finite?
  {
    var edge := g[u][e];
    edge.head < |dist| && dist[edge.head].Finite? && dist[edge.head].value <= dist[u].value + edge.weight
  }

  predicate Relaxed(g: seq<seq<Edge>>, dist: seq<Dist>, u: nat, k: nat)
    requires u < |g| == |dist| && k <= |g[u]| && dist[u].Finite?
  {
    forall e :: 0 <= e < k ==> RelaxedAt(g, dist, u, e)
  }

  /** Queued are exactly the nodes that were reached and not removed, with their distances. */
  predicate QueueOk(dist: seq<Dist>, queue: map<nat, real>, settled: set<nat>) {
    && (forall v :: v in queue ==> v < |dist|)
    && (forall v :: 0 <= v < |dist| ==> (v in queue <==> dist[v].Finite? && v !in settled))
    && (forall v :: v in queue ==> v < |dist| && dist[v] == Finite(queue[v]))
    && (forall u, v :: u in settled && v in queue ==> u < |dist| && dist[u].Finite? && dist[u].value <= queue[v])
  }

  /** Nodes other than u that were removed have been relaxed; k edges of u have. */
  ghost predicate Inv(g: seq<seq<Edge>>, start: nat, dist: seq<Dist>, queue: map<nat, real>, settled: set<nat>,
                      u: nat, k: nat)
  {
    && |dist| == |g| && start < |g| && dist[start].Finite? && dist[start].value <= 0.0
    && (forall v :: 0 <= v < |g| && dist[v].Finite? ==> Attained(g, start, v, dist[v].value))
    && QueueOk(dist, queue, settled)
    && (forall v :: v in settled ==> v < |g| && dist[v].Finite? && Bounded(g, start, v, dist[v].value))
    && (forall v :: v in settled && v != u ==> Relaxed(g, dist, v, |g[v]|))
    && (u in settled ==>
          && k <= |g[u]| && Relaxed(g, dist, u, k)
          && forall v :: v in settled ==> dist[v].value <= dist[u].value)
  }

  lemma StartInv(g: seq<seq<Edge>>, start: nat, dist: seq<Dist>)
    requires start < |g| == |dist|
    requires forall v :: 0 <= v < |g| ==> dist[v] == if v == start then Finite(0.0) else Infinity
    ensures Inv(g, start, dist, map[start := 0.0], {}, start, 0)
  {
    assert IsPath(g, start, [], start) && Length(g, []) == 0.0;
  }

  /** Every path to a node that was not removed is at least as long as the smallest queued distance. */
  lemma {:induction false} PathsAreLonger(g: seq<seq<Edge>>, start: nat, dist: seq<Dist>, queue: map<nat, real>,
                                          settled: set<nat>, u: nat, min: real, path: seq<Hop>, v: nat)
    requires WellFormed(g) && Inv(g, start, dist, queue, settled, u, if u < |g| then |g[u]| else 0)
    requires forall w :: w in queue ==> min <= queue[w]
    requires IsPath(g, start, path, v) && v < |g| && v !in settled
    ensures Length(g, path) >= min
  {
    hide Attained;
    if path == [] {
      assert start in queue;
    } else {
      var h, before := path[|path| - 1], path[..|path| - 1];
      assert EdgeOk(g, h.u, h.e);
      if h.u in settled {
        assert Bounded(g, start, h.u, dist[h.u].value);
        assert Relaxed(g, dist, h.u, |g[h.u]|) && RelaxedAt(g, dist, h.u, h.e);
        assert v in queue;
      } else {
        PathsAreLonger(g, start, dist, queue, settled, u, min, before, h.u);
      }
    }
  }

  /** The removed node has its final distance. */
  lemma RemovalIsFinal(g: seq<seq<Edge>>, start: nat, dist: seq<Dist>, queue: map<nat, real>, settled: set<nat>,
                       u: nat, r: nat)
    requires WellFormed(g) && Inv(g, start, dist, queue, settled, u, if u < |g| then |g[u]| else 0)
    requires r in queue && forall w :: w in queue ==> queue[r] <= queue[w]
    ensures r < |g| && r !in settled && IsDistance(g, start, r, Finite(queue[r])) && dist[r] == Finite(queue[r])
    ensures Inv(g, start, dist, queue - {r}, settled + {r}, r, 0)
  {
    hide Attained, IsPath;
    assert r < |dist| && dist[r] == Finite(queue[r]) && r !in settled;
    forall path | IsPath(g, start, path, r) ensures Length(g, path) >= queue[r] {
      PathsAreLonger(g, start, dist, queue, settled, u, queue[r], path, r);
    }
    assert Bounded(g, start, r, queue[r]);
    hide Bounded, Relaxed;
    RelaxedNothing(g, dist, r);
    assert forall v :: v in settled ==> Relaxed(g, dist, v, |g[v]|);
  }

  lemma RelaxedNothing(g: seq<seq<Edge>>, dist: seq<Dist>, r: nat)
    requires r < |g| == |dist| && dist[r].Finite?
    ensures Relaxed(g, dist, r, 0)
  {}

  lemma Extend(g: seq<seq<Edge>>, start: nat, u: nat, e: nat, d: real)
    requires u < |g| && e < |g[u]| && Attained(g, start, u, d)
    ensures Attained(g, start, g[u][e].head, d + g[u][e].weight)
  {
    var path :| IsPath(g, start, path, u) && Length(g, path) == d;
    assert (path + [Hop(u, e)])[..|path|] == path;
    assert IsPath(g, start, path + [Hop(u, e)], g[u][e].head);
  }

  /** The distance through the k-th edge of u is not shorter. */
  lemma KeepEdge(g: seq<seq<Edge>>, start: nat, dist: seq<Dist>, queue: map<nat, real>, settled: set<nat>, u: nat,
                 k: nat)
    requires WellFormed(g) && Inv(g, start, dist, queue, settled, u, k) && u in settled && k < |g[u]|
    requires EdgeOk(g, u, k) && !Less(dist[u].value + g[u][k].weight, dist[g[u][k].head])
    ensures Inv(g, start, dist, queue, settled, u, k + 1)
  {
    hide Attained, Bounded;
    assert RelaxedAt(g, dist, u, k);
  }

  /** A shorter distance through the k-th edge of u: its head has not been removed. */
  lemma RelaxEdge(g: seq<seq<Edge>>, start: nat, dist: seq<Dist>, queue: map<nat, real>, settled: set<nat>, u: nat,
                  k: nat)
    requires WellFormed(g) && Inv(g, start, dist, queue, settled, u, k) && u in settled && k < |g[u]|
    requires EdgeOk(g, u, k) && Less(dist[u].value + g[u][k].weight, dist[g[u][k].head])
    ensures var v, d := g[u][k].head, dist[u].value + g[u][k].weight;
      && v !in settled && (v in queue ==> d < queue[v])
      && Inv(g, start, dist[v := Finite(d)], queue[v := d], settled, u, k + 1)
  {
    hide Attained, Bounded, Relaxed;
    var v, d := g[u][k].head, dist[u].value + g[u][k].weight;
    Extend(g, start, u, k, dist[u].value);
    var dist' := dist[v := Finite(d)];
    forall w | w in settled && w != u ensures Relaxed(g, dist', w, |g[w]|) { StillRelaxed(g, dist, v, d, w, |g[w]|); }
    StillRelaxed(g, dist, v, d, u, k);
    OneMoreRelaxed(g, dist', u, k);
  }

  lemma StillRelaxed(g: seq<seq<Edge>>, dist: seq<Dist>, v: nat, d: real, w: nat, k: nat)
    requires w < |g| == |dist| && v < |dist| && k <= |g[w]| && w != v && dist[w].Finite? && Relaxed(g, dist, w, k)
    requires Less(d, dist[v])
    ensures Relaxed(g, dist[v := Finite(d)], w, k)
  {
    var dist' := dist[v := Finite(d)];
    forall e | 0 <= e < k ensures RelaxedAt(g, dist', w, e) { assert RelaxedAt(g, dist, w, e); }
  }

  lemma OneMoreRelaxed(g: seq<seq<Edge>>, dist: seq<Dist>, u: nat, k: nat)
    requires u < |g| == |dist| && k < |g[u]| && dist[u].Finite? && Relaxed(g, dist, u, k) && RelaxedAt(g, dist, u, k)
    ensures Relaxed(g, dist, u, k + 1)
  {}

  /** With an empty queue every node that a path leads to has been removed. */
  lemma {:induction false} ReachedIsSettled(g: seq<seq<Edge>>, start: nat, dist: seq<Dist>, settled: set<nat>, u: nat,
                                            path: seq<Hop>, v: nat)
    requires WellFormed(g) && Inv(g, start, dist, map[], settled, u, if u < |g| then |g[u]| else 0)
    requires IsPath(g, start, path, v)
    ensures v in settled
  {
    hide Attained, Bounded;
    if path != [] {
      var h := path[|path| - 1];
      ReachedIsSettled(g, start, dist, settled, u, path[..|path| - 1], h.u);
      assert Relaxed(g, dist, h.u, |g[h.u]|) && RelaxedAt(g, dist, h.u, h.e);
    }
  }

  class DijkstraHelper {
    const graph: seq<seq<Edge>>
    var distance: seq<Dist>
    const queue: IndexedHeap

    ghost predicate Ready()
      reads this, queue
    {
      WellFormed(graph) && queue.greater && |queue.index| == |graph|
    }

    constructor (graph: seq<seq<Edge>>)
      requires WellFormed(graph)
      ensures Ready() && this.graph == graph && fresh(queue)
    {
      this.graph := graph;
      distance := [];
      queue := new IndexedHeap(0, true);
      new;
      queue.Reserve(|graph|);
    }

    /** The distance from start to end; `popped` lists the nodes taken from the queue, none of them twice. */
    method Dijkstra(start: nat, end: nat) returns (d: Dist, ghost popped: seq<nat>)
      requires Ready() && start < |graph| && end < |graph|
      modifies this, queue
      ensures Ready() && IsDistance(graph, start, end, d)
      ensures Distinct(popped)
    {
      hide Inv, IsDistance, IsPath, WellFormed, Indexed, Ordered, Contents, Lists, Distinct, Upto;
      popped := [];
      NoneListed();
      if start == end {
        NoDistance(graph, start);
        return Finite(0.0), popped;
      }
      Begin(start);
      ghost var settled: set<nat>, last: nat := {}, start;
      while !queue.Empty()
        invariant Ready() && queue.Valid() && |distance| == |graph|
        invariant last < |graph| && Inv(graph, start, distance, queue.Priorities(), settled, last, |graph[last]|)
        invariant end !in settled && settled <= Upto(|graph|) && Lists(popped, settled) && Distinct(popped)
        decreases |Upto(|graph|) - settled|
      {
        var r := TakeMin(start, settled, last);
        OneMore(popped, settled, r.key, |graph|);
        popped, settled, last := popped + [r.key], settled + {r.key}, r.key;
        if r.key == end { return Finite(r.value), popped; }
        RelaxAll(start, r.key, r.value, settled);
      }
      queue.EmptyIsEmpty();
      Unreached(graph, start, distance, settled, last, end);
      d := Infinity;
    }

    /** Takes the nearest queued node; its distance is final. */
    method TakeMin(start: nat, ghost settled: set<nat>, ghost last: nat) returns (r: Entry)
      requires Ready() && queue.Valid() && !queue.Empty() && |distance| == |graph| && last < |graph|
      requires Inv(graph, start, distance, queue.Priorities(), settled, last, |graph[last]|)
      modifies queue
      ensures Ready() && queue.Valid() && r.key < |graph| && r.key !in settled
      ensures IsDistance(graph, start, r.key, Finite(r.value)) && distance[r.key] == Finite(r.value)
      ensures Inv(graph, start, distance, queue.Priorities(), settled + {r.key}, r.key, 0)
    {
      hide Inv, IsDistance, IsPath, WellFormed, Indexed, Ordered, Contents;
      ghost var before := queue.Priorities();
      queue.EmptyIsEmpty();
      r := queue.Pop();
      RemovalIsFinal(graph, start, distance, before, settled, last, r.key);
    }

    method Begin(start: nat)
      requires Ready() && start < |graph|
      modifies this, queue
      ensures Ready() && queue.Valid() && |distance| == |graph|
      ensures Inv(graph, start, distance, queue.Priorities(), {}, start, |graph[start]|)
    {
      hide Inv, WellFormed, Indexed, Ordered, Contents;
      queue.Clear();
      queue.Push(start, 0.0);
      distance := seq(|graph|, _ => Infinity);
      distance := distance[start := Finite(0.0)];
      StartInv(graph, start, distance);
      WholeNode(graph, start, distance, queue.Priorities(), {}, start, 0);
    }

    /** Offers every out-edge of u to its head. */
    method RelaxAll(start: nat, u: nat, d: real, ghost settled: set<nat>)
      requires Ready() && queue.Valid() && u < |graph| == |distance| && u in settled && distance[u] == Finite(d)
      requires Inv(graph, start, distance, queue.Priorities(), settled, u, 0)
      modifies this, queue
      ensures Ready() && queue.Valid() && |distance| == |graph|
      ensures Inv(graph, start, distance, queue.Priorities(), settled, u, |graph[u]|)
    {
      hide Inv, IsPath, WellFormed, Indexed, Ordered, Contents;
      for k := 0 to |graph[u]|
        invariant Ready() && queue.Valid() && |distance| == |graph| && distance[u] == Finite(d)
        invariant Inv(graph, start, distance, queue.Priorities(), settled, u, k)
      {
        EdgeIsOk(graph, u, k);
        var v, w := graph[u][k].head, graph[u][k].weight;
        if Less(d + w, distance[v]) {
          RelaxEdge(graph, start, distance, queue.Priorities(), settled, u, k);
          queue.PushOrChangePriority(v, d + w);
          distance := distance[v := Finite(d + w)];
        } else {
          KeepEdge(graph, start, distance, queue.Priorities(), settled, u, k);
        }
      }
    }
  }

  ghost predicate Lists(list: seq<nat>, elements: set<nat>) {
    Distinct(list) && forall v :: v in list <==> v in elements
  }

  lemma NoneListed()
    ensures Lists([], {}) && Distinct<nat>([])
  {}

  lemma OneMore(list: seq<nat>, elements: set<nat>, v: nat, n: nat)
    requires Lists(list, elements) && v !in elements && v < n && elements <= Upto(n)
    ensures Lists(list + [v], elements + {v}) && Distinct(list + [v]) && elements + {v} <= Upto(n)
    ensures |Upto(n) - (elements + {v})| < |Upto(n) - elements|
  {
    assert Upto(n) - (elements + {v}) == Upto(n) - elements - {v};
  }

  lemma EdgeIsOk(g: seq<seq<Edge>>, u: nat, k: nat)
    requires WellFormed(g) && u < |g| && k < |g[u]|
    ensures EdgeOk(g, u, k)
  {}

  lemma NoDistance(g: seq<seq<Edge>>, start: nat)
    requires WellFormed(g)
    ensures IsDistance(g, start, start, Finite(0.0))
  {
    assert IsPath(g, start, [], start) && Length(g, []) == 0.0;
    forall path | IsPath(g, start, path, start) ensures Length(g, path) >= 0.0 { LengthIsPositive(g, path); }
  }

  lemma {:induction false} LengthIsPositive(g: seq<seq<Edge>>, path: seq<Hop>)
    requires WellFormed(g)
    ensures Length(g, path) >= 0.0
  {
    if path != [] {
      var h := path[|path| - 1];
      LengthIsPositive(g, path[..|path| - 1]);
      if IsHop(g, h) { assert EdgeOk(g, h.u, h.e); }
    }
  }

  lemma WholeNode(g: seq<seq<Edge>>, start: nat, dist: seq<Dist>, queue: map<nat, real>, settled: set<nat>, u: nat,
                  k: nat)
    requires Inv(g, start, dist, queue, settled, u, k) && u !in settled && u < |g|
    ensures Inv(g, start, dist, queue, settled, u, |g[u]|)
  {}

  lemma Unreached(g: seq<seq<Edge>>, start: nat, dist: seq<Dist>, settled: set<nat>, u: nat, v: nat)
    requires WellFormed(g) && u < |g| && Inv(g, start, dist, map[], settled, u, |g[u]|) && v !in settled
    ensures IsDistance(g, start, v, Infinity)
  {
    forall path ensures !IsPath(g, start, path, v) {
      if IsPath(g, start, path, v) { ReachedIsSettled(g, start, dist, settled, u, path, v); }
    }
  }
}
