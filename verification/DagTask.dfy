/** A task graph: its out-lists, the reverse adjacency array derived from them, and the guards around a node's work. */
module DagTask {
  import opened Counting

  datatype Arc = Arc(src: nat, dst: nat)

  function OutArcs(v: nat, targets: seq<nat>): seq<Arc> {
    seq(|targets|, j requires 0 <= j < |targets| => Arc(v, targets[j]))
  }

  /** All arcs, in the order of the input. */
  function Arcs(children: seq<seq<nat>>): seq<Arc> {
    if children == [] then []
    else
      var v := |children| - 1;
      Arcs(children[..v]) + OutArcs(v, children[v])
  }

  /** The sources of the arcs into v, last arc first. */
  function Incoming(arcs: seq<Arc>, v: nat): seq<nat> {
    if arcs == [] then []
    else
      var last := |arcs| - 1;
      (if arcs[last].dst == v then [arcs[last].src] else []) + Incoming(arcs[..last], v)
  }

  function InDegree(arcs: seq<Arc>, v: nat): nat { |Incoming(arcs, v)| }

  /** Where the segment of v starts is Offset(InDegrees(arcs), v). */
  function InDegrees(arcs: seq<Arc>): nat -> nat { v => InDegree(arcs, v) }

  predicate Below(children: seq<seq<nat>>, n: nat) {
    forall v, j :: 0 <= v < |children| && 0 <= j < |children[v]| ==> children[v][j] < n
  }

  predicate ArcsBelow(arcs: seq<Arc>, n: nat) {
    forall i :: 0 <= i < |arcs| ==> arcs[i].dst < n
  }

  // ---------- The reverse lists are the predecessors, with multiplicity ----------

  lemma AppendArc(arcs: seq<Arc>, a: Arc, b: Arc)
    ensures multiset(arcs + [a])[b] == multiset(arcs)[b] + if a == b then 1 else 0
  {}

  lemma {:induction false} IncomingCount(arcs: seq<Arc>, v: nat, p: nat)
    ensures multiset(Incoming(arcs, v))[p] == multiset(arcs)[Arc(p, v)]
  {
    if arcs != [] {
      var last := |arcs| - 1;
      IncomingCount(arcs[..last], v, p);
      assert arcs == arcs[..last] + [arcs[last]];
      AppendArc(arcs[..last], arcs[last], Arc(p, v));
    }
  }

  lemma {:induction false} OutCount(v: nat, targets: seq<nat>, p: nat, w: nat)
    ensures multiset(OutArcs(v, targets))[Arc(p, w)] == if p == v then multiset(targets)[w] else 0
  {
    if targets != [] {
      var last := |targets| - 1;
      OutCount(v, targets[..last], p, w);
      assert OutArcs(v, targets) == OutArcs(v, targets[..last]) + [Arc(v, targets[last])];
      AppendArc(OutArcs(v, targets[..last]), Arc(v, targets[last]), Arc(p, w));
      assert targets == targets[..last] + [targets[last]];
    }
  }

  lemma {:induction false} ArcsCount(children: seq<seq<nat>>, p: nat, v: nat)
    ensures multiset(Arcs(children))[Arc(p, v)] == if p < |children| then multiset(children[p])[v] else 0
  {
    if children != [] {
      var last := |children| - 1;
      ArcsCount(children[..last], p, v);
      OutCount(last, children[last], p, v);
      assert multiset(Arcs(children)) == multiset(Arcs(children[..last])) + multiset(OutArcs(last, children[last]));
    }
  }

  /** p is listed before v exactly as often as v is listed after p. */
  lemma IncomingIsPredecessors(children: seq<seq<nat>>, v: nat, p: nat)
    ensures multiset(Incoming(Arcs(children), v))[p] == if p < |children| then multiset(children[p])[v] else 0
    ensures p in Incoming(Arcs(children), v) <==> p < |children| && v in children[p]
  {
    IncomingCount(Arcs(children), v, p);
    ArcsCount(children, p, v);
    assert p in Incoming(Arcs(children), v) <==> p in multiset(Incoming(Arcs(children), v));
    if p < |children| { assert v in children[p] <==> v in multiset(children[p]); }
  }

  // ---------- Paths from node 0 ----------

  predicate PathStep(children: seq<seq<nat>>, w: seq<nat>, i: nat)
    requires i + 1 < |w|
  {
    w[i] < |children| && w[i + 1] in children[w[i]]
  }

  ghost predicate Reachable(children: seq<seq<nat>>, v: nat) {
    exists w: seq<nat> :: Path(children, w, v)
  }

  ghost predicate Path(children: seq<seq<nat>>, w: seq<nat>, v: nat) {
    w != [] && w[0] == 0 && w[|w| - 1] == v && forall i :: 0 <= i < |w| - 1 ==> PathStep(children, w, i)
  }

  lemma HasParent(children: seq<seq<nat>>, v: nat)
    requires Reachable(children, v) && v != 0
    ensures exists p :: 0 <= p < |children| && v in children[p]
  {
    var w :| Path(children, w, v);
    assert PathStep(children, w, |w| - 2);
  }

  // ---------- Layout of the arrays ----------

  lemma StartOfAppended(arcs: seq<Arc>, a: Arc, v: nat)
    ensures Offset(InDegrees(arcs + [a]), v) == Offset(InDegrees(arcs), v) + if a.dst < v then 1 else 0
  {
    hide Incoming, InDegree;
    forall u | 0 <= u < v ensures InDegrees(arcs + [a])(u) == InDegrees(arcs)(u) + if u == a.dst then 1 else 0 {
      InDegreeOfAppended(arcs, a, u);
    }
    OffsetBump(InDegrees(arcs), InDegrees(arcs + [a]), a.dst, v);
  }

  lemma InDegreeOfAppended(arcs: seq<Arc>, a: Arc, v: nat)
    ensures InDegree(arcs + [a], v) == InDegree(arcs, v) + if a.dst == v then 1 else 0
  {
    assert (arcs + [a])[..|arcs|] == arcs;
  }

  lemma {:induction false} StartTotal(arcs: seq<Arc>, n: nat)
    requires ArcsBelow(arcs, n)
    ensures Offset(InDegrees(arcs), n) == |arcs|
  {
    if arcs == [] {
      OffsetZero(InDegrees(arcs), n);
    } else {
      var last := |arcs| - 1;
      StartTotal(arcs[..last], n);
      assert arcs == arcs[..last] + [arcs[last]];
      StartOfAppended(arcs[..last], arcs[last], n);
    }
  }

  lemma {:induction false} InDegreeGrows(arcs: seq<Arc>, i: nat, v: nat)
    requires i <= |arcs|
    ensures InDegree(arcs[..i], v) <= InDegree(arcs, v)
    decreases |arcs| - i
  {
    if i < |arcs| {
      InDegreeGrows(arcs, i + 1, v);
      assert arcs[..i + 1][..i] == arcs[..i];
    } else {
      assert arcs[..i] == arcs;
    }
  }

  lemma NextArc(arcs: seq<Arc>, i: nat, v: nat)
    requires i < |arcs|
    ensures Incoming(arcs[..i + 1], v) == (if arcs[i].dst == v then [arcs[i].src] else []) + Incoming(arcs[..i], v)
    ensures InDegree(arcs[..i + 1], v) == InDegree(arcs[..i], v) + if arcs[i].dst == v then 1 else 0
  {
    assert arcs[..i + 1][..i] == arcs[..i];
  }

  /** Where the arcs of node v lie in the whole list. */
  lemma {:induction false} ArcsOfNode(children: seq<seq<nat>>, v: nat)
    requires v < |children|
    ensures |Arcs(children[..v + 1])| == |Arcs(children[..v])| + |children[v]| <= |Arcs(children)|
    ensures forall j :: 0 <= j < |children[v]| ==> Arcs(children)[|Arcs(children[..v])| + j] == Arc(v, children[v][j])
    decreases |children|
  {
    var last := |children| - 1;
    if v < last {
      ArcsOfNode(children[..last], v);
      assert children[..last][..v] == children[..v] && children[..last][..v + 1] == children[..v + 1];
    } else {
      assert children[..v + 1] == children;
      forall j | 0 <= j < |children[v]|
        ensures Arcs(children)[|Arcs(children[..v])| + j] == Arc(v, children[v][j])
      {
        assert OutArcs(v, children[v])[j] == Arc(v, children[v][j]);
      }
    }
  }

  lemma {:induction false} AllArcsBelow(children: seq<seq<nat>>, n: nat)
    requires Below(children, n)
    ensures ArcsBelow(Arcs(children), n)
  {
    if children != [] {
      var last := |children| - 1;
      AllArcsBelow(children[..last], n);
    }
  }

  // ---------- Construction ----------

  /** Reads the out-lists one after the other, counting in-degrees. */
  method ReadOutLists(children: seq<seq<nat>>, nodes: array<nat>, edges: array<nat>, reverse: array<nat>)
    requires Below(children, |children|) && nodes.Length == reverse.Length == |children| + 1
    requires edges.Length == |Arcs(children)| && nodes != edges && edges != reverse && nodes != reverse
    requires forall v {:trigger reverse[v]} :: 0 <= v <= |children| ==> reverse[v] == 0
    modifies nodes, edges, reverse
    ensures forall v {:trigger nodes[v]} :: 0 <= v < |children| ==> nodes[v] == |Arcs(children[..v])|
    ensures forall i {:trigger edges[i]} :: 0 <= i < edges.Length ==> edges[i] == Arcs(children)[i].dst
    ensures forall v {:trigger reverse[v]} :: 0 <= v < |children| ==> reverse[v] == InDegree(Arcs(children), v)
    ensures reverse[|children|] == 0
  {
    hide Arcs, Incoming, InDegree;
    var cur: nat := 0;
    ghost var arcs := Arcs(children);
    assert children[..0] == [] && arcs[..0] == [];
    EmptyCase();
    for ni := 0 to |children|
      invariant cur == |Arcs(children[..ni])| <= |arcs|
      invariant forall v {:trigger nodes[v]} :: 0 <= v < ni ==> nodes[v] == |Arcs(children[..v])|
      invariant forall i {:trigger edges[i]} :: 0 <= i < cur ==> edges[i] == arcs[i].dst
      invariant forall v {:trigger reverse[v]} :: 0 <= v < |children| ==> reverse[v] == InDegree(arcs[..cur], v)
      invariant reverse[|children|] == 0
    {
      ArcsOfNode(children, ni);
      nodes[ni] := cur;
      while cur < nodes[ni] + |children[ni]|
        invariant nodes[ni] <= cur <= nodes[ni] + |children[ni]|
        invariant forall v {:trigger nodes[v]} :: 0 <= v <= ni ==> nodes[v] == |Arcs(children[..v])|
        invariant forall i {:trigger edges[i]} :: 0 <= i < cur ==> edges[i] == arcs[i].dst
        invariant forall v {:trigger reverse[v]} :: 0 <= v < |children| ==> reverse[v] == InDegree(arcs[..cur], v)
        invariant reverse[|children|] == 0
      {
        var temp := children[ni][cur - nodes[ni]];
        assert arcs[cur] == Arc(ni, temp);
        edges[cur] := temp;
        reverse[temp] := reverse[temp] + 1;
        forall v | 0 <= v < |children|
          ensures InDegree(arcs[..cur + 1], v) == InDegree(arcs[..cur], v) + if temp == v then 1 else 0
        {
          NextArc(arcs, cur, v);
        }
        cur := cur + 1;
      }
    }
    assert children[..|children|] == children && arcs[..|arcs|] == arcs;
  }

  lemma EmptyCase()
    ensures Arcs([]) == [] && forall v :: InDegree([], v) == 0
  {}

  /** Adds up the in-degrees: every entry becomes the end of its node's segment. */
  method Accumulate(ghost arcs: seq<Arc>, n: nat, reverse: array<nat>, e: nat)
    requires reverse.Length == n + 1 && ArcsBelow(arcs, n) && e == |arcs| && reverse[n] == 0
    requires forall v {:trigger reverse[v]} :: 0 <= v < n ==> reverse[v] == InDegree(arcs, v)
    modifies reverse
    ensures forall v {:trigger reverse[v]} :: 0 <= v < n ==> reverse[v] == Offset(InDegrees(arcs), v + 1)
    ensures reverse[n] == |arcs|
  {
    hide Incoming, InDegree;
    StartTotal(arcs, n);
    for ni := 0 to n
      invariant forall v {:trigger reverse[v]} :: 0 <= v < ni ==> reverse[v] == Offset(InDegrees(arcs), v + 1)
      invariant reverse[ni] == if ni == n then Offset(InDegrees(arcs), n) else Offset(InDegrees(arcs), ni + 1)
      invariant forall v {:trigger reverse[v]} :: ni < v < n ==> reverse[v] == InDegree(arcs, v)
      invariant ni < n ==> reverse[n] == 0
    {
      reverse[ni + 1] := reverse[ni + 1] + reverse[ni];
    }
    reverse[n] := e;
  }

  /** The part of v's segment that the first i arcs have filled, from the back. */
  predicate Filled(arcs: seq<Arc>, i: nat, v: nat, next: nat, parent: seq<nat>)
    requires i <= |arcs|
  {
    && next + InDegree(arcs[..i], v) == Offset(InDegrees(arcs), v + 1) <= |parent|
    && parent[next..Offset(InDegrees(arcs), v + 1)] == Incoming(arcs[..i], v)
  }

  lemma Room(arcs: seq<Arc>, i: nat, v: nat, next: nat, parent: seq<nat>)
    requires i <= |arcs| && Filled(arcs, i, v, next, parent)
    ensures Offset(InDegrees(arcs), v) <= next <= Offset(InDegrees(arcs), v + 1)
    ensures i < |arcs| && arcs[i].dst == v ==> Offset(InDegrees(arcs), v) < next
  {
    InDegreeGrows(arcs, i, v);
    if i < |arcs| {
      NextArc(arcs, i, v);
      InDegreeGrows(arcs, i + 1, v);
    }
  }

  lemma FillOne(arcs: seq<Arc>, i: nat, v: nat, next: nat, w: nat, slot: nat, before: seq<nat>)
    requires i < |arcs| && Filled(arcs, i, v, next, before) && Filled(arcs, i, w, slot + 1, before)
    requires w == arcs[i].dst && slot < |before| && (v == w ==> next == slot + 1)
    ensures Filled(arcs, i + 1, v, if v == w then slot else next, before[slot := arcs[i].src])
  {
    hide Incoming, InDegree, InDegrees, Offset;
    NextArc(arcs, i, v);
    Room(arcs, i, v, next, before);
    Room(arcs, i, w, slot + 1, before);
    var after, end := before[slot := arcs[i].src], Offset(InDegrees(arcs), v + 1);
    if v < w { OffsetMonotone(InDegrees(arcs), v + 1, w); }
    if w < v { OffsetMonotone(InDegrees(arcs), w + 1, v); }
    if v == w { assert after[slot..end] == [arcs[i].src] + before[next..end]; }
    else { assert after[next..end] == before[next..end]; }
  }

  method FillParents(children: seq<seq<nat>>, nodes: array<nat>, edges: array<nat>, reverse: array<nat>,
                     parent: array<nat>)
    requires Below(children, |children|) && nodes.Length == reverse.Length == |children| + 1
    requires edges.Length == parent.Length == |Arcs(children)|
    requires parent != reverse && parent != edges && parent != nodes
    requires reverse != nodes && reverse != edges
    requires forall v {:trigger nodes[v]} :: 0 <= v <= |children| ==> nodes[v] == |Arcs(children[..v])|
    requires forall i {:trigger edges[i]} :: 0 <= i < edges.Length ==> edges[i] == Arcs(children)[i].dst
    requires forall v {:trigger reverse[v]} :: 0 <= v < |children| ==>
      reverse[v] == Offset(InDegrees(Arcs(children)), v + 1)
    requires reverse[|children|] == |Arcs(children)|
    modifies reverse, parent
    ensures forall v :: 0 <= v < |children| ==> Filled(Arcs(children), |Arcs(children)|, v, reverse[v], parent[..])
    ensures reverse[|children|] == |Arcs(children)|
  {
    hide Arcs, Incoming, InDegree, InDegrees, Offset, Filled;
    ghost var arcs, n := Arcs(children), |children|;
    AllArcsBelow(children, n);
    assert children[..0] == [];
    EmptyCase();
    forall v | 0 <= v < n ensures Filled(arcs, 0, v, reverse[v], parent[..]) { NothingFilled(arcs, n, v, parent[..]); }
    for ni := 0 to |children|
      invariant nodes[ni] <= |arcs|
      invariant forall v :: 0 <= v < n ==> Filled(arcs, nodes[ni], v, reverse[v], parent[..])
      invariant reverse[n] == |arcs|
    {
      ArcsOfNode(children, ni);
      for ne := nodes[ni] to nodes[ni + 1]
        invariant forall v :: 0 <= v < n ==> Filled(arcs, ne, v, reverse[v], parent[..])
        invariant reverse[n] == |arcs|
      {
        assert arcs[ne] == Arc(ni, children[ni][ne - nodes[ni]]);
        ghost var before: seq<nat>, ends: seq<nat> := parent[..], reverse[..];
        var w := edges[ne];
        SlotExists(arcs, n, ne, w, reverse[w], before);
        reverse[w] := reverse[w] - 1;
        parent[reverse[w]] := ni;
        assert parent[..] == before[reverse[w] := ni];
        forall v | 0 <= v < n ensures Filled(arcs, ne + 1, v, reverse[v], parent[..]) {
          FillOne(arcs, ne, v, ends[v], w, reverse[w], before);
        }
      }
    }
    assert children[..n] == children;
  }

  lemma SlotExists(arcs: seq<Arc>, n: nat, i: nat, w: nat, next: nat, parent: seq<nat>)
    requires i < |arcs| && w == arcs[i].dst && Filled(arcs, i, w, next, parent)
    ensures 0 < next <= |parent|
  {
    Room(arcs, i, w, next, parent);
  }

  lemma NothingFilled(arcs: seq<Arc>, n: nat, v: nat, parent: seq<nat>)
    requires ArcsBelow(arcs, n) && v < n && |parent| == |arcs|
    ensures Filled(arcs, 0, v, Offset(InDegrees(arcs), v + 1), parent)
  {
    StartTotal(arcs, n);
    OffsetMonotone(InDegrees(arcs), v + 1, n);
    assert arcs[..0] == [];
  }

  lemma AllFilled(arcs: seq<Arc>, n: nat, v: nat, reverse: seq<nat>, parent: seq<nat>)
    requires ArcsBelow(arcs, n) && v < n && |parent| == |arcs| && |reverse| == n + 1 && reverse[n] == |arcs|
    requires forall u :: 0 <= u < n ==> Filled(arcs, |arcs|, u, reverse[u], parent)
    ensures reverse[v] <= reverse[v + 1] <= |parent| && parent[reverse[v]..reverse[v + 1]] == Incoming(arcs, v)
  {
    hide Incoming, InDegree;
    assert arcs[..|arcs|] == arcs;
    assert Filled(arcs, |arcs|, v, reverse[v], parent);
    StartTotal(arcs, n);
    OffsetMonotone(InDegrees(arcs), v + 1, n);
    if v + 1 < n { assert Filled(arcs, |arcs|, v + 1, reverse[v + 1], parent); }
  }

  datatype Outcome = Worked | AlreadyWorked | ParentNotWorked

  /** The slots between the starts of v and of the next node. */
  predicate Segment(starts: seq<nat>, slots: seq<nat>, v: nat, list: seq<nat>)
    requires v + 1 < |starts|
  {
    starts[v] <= starts[v + 1] <= |slots| && slots[starts[v]..starts[v + 1]] == list
  }

  class DagTask {
    ghost const children: seq<seq<nat>>
    const n: nat
    const nodes: array<nat>
    const reverseNodes: array<nat>
    const edges: array<nat>
    const parent: array<nat>
    const done: array<bool>

    /** outgoing lists the input's children in order; incoming lists exactly the predecessors, last first. */
    ghost predicate Built()
      reads nodes, reverseNodes, edges, parent
    {
      && |children| == n && nodes.Length == reverseNodes.Length == n + 1 && done.Length == n && Below(children, n)
      && (forall v :: 0 <= v < n ==> Segment(nodes[..], edges[..], v, children[v]))
      && (forall v :: 0 <= v < n ==> Segment(reverseNodes[..], parent[..], v, Incoming(Arcs(children), v)))
    }

    constructor (input: seq<seq<nat>>, numEdges: nat)
      requires Below(input, |input|) && numEdges == |Arcs(input)|
      ensures Built() && children == input && fresh(done)
      ensures forall v :: 0 <= v < n ==> !done[v]
    {
      hide Arcs, Incoming, Filled;
      children, n := input, |input|;
      nodes := new nat[|input| + 1];
      reverseNodes := new nat[|input| + 1](_ => 0);
      edges := new nat[numEdges];
      parent := new nat[numEdges];
      done := new bool[|input|](_ => false);
      new;
      ghost var arcs := Arcs(input);
      AllArcsBelow(input, n);
      ReadOutLists(input, nodes, edges, reverseNodes);
      Accumulate(arcs, n, reverseNodes, numEdges);
      nodes[n] := numEdges;
      assert input[..n] == input;
      FillParents(input, nodes, edges, reverseNodes, parent);
      forall v | 0 <= v < n ensures Segment(nodes[..], edges[..], v, children[v]) {
        ArcsOfNode(children, v);
      }
      forall v | 0 <= v < n ensures Segment(reverseNodes[..], parent[..], v, Incoming(arcs, v)) {
        AllFilled(arcs, n, v, reverseNodes[..], parent[..]);
      }
    }

    /** A node can be worked on once, and only when all its predecessors have been. */
    method Work(id: nat) returns (outcome: Outcome)
      requires Built() && id < n
      modifies done
      ensures Built()
      ensures outcome == AlreadyWorked <==> old(done[id])
      ensures outcome == Worked <==> !old(done[id]) && forall p :: 0 <= p < n && id in children[p] ==> old(done[p])
      ensures done[..] == if outcome == Worked then old(done[..])[id := true] else old(done[..])
    {
      hide Arcs, Incoming;
      if done[id] { return AlreadyWorked; }
      ghost var list := Incoming(Arcs(children), id);
      assert Segment(reverseNodes[..], parent[..], id, list);
      var first := reverseNodes[id];
      for i := first to reverseNodes[id + 1]
        invariant done[..] == old(done[..])
        invariant forall k :: 0 <= k < i - first ==> list[k] < n && done[list[k]]
      {
        var p := parent[i];
        assert list[i - first] == p;
        IncomingIsPredecessors(children, id, p);
        if !done[p] { return ParentNotWorked; }
      }
      forall p | 0 <= p < n && id in children[p] ensures done[p] { IncomingIsPredecessors(children, id, p); }
      done[id] := true;
      return Worked;
    }
  }
}
