/**
 The reference solution's depth-first search. It keeps no visited marks: it only refuses to step back to the parent it
 came from. That terminates, and assigns every parent once, exactly because the kept edges form a forest.
 */
module Dfs {
  import opened Writes
  import opened Sets
  import opened Graphs
  import opened Forest
  import opened Csr
  import opened Bfs

  /** A pending visit: `a` is the node it was pushed from, `b` the node to visit. */
  type Frame = Edge

  function Pending(stack: seq<Frame>): set<nat> { set i | 0 <= i < |stack| :: stack[i].b }

  predicate FrameOk(E: multiset<Edge>, visited: set<nat>, n: nat, frame: Frame) {
    frame.b < n && frame.a in visited && frame.b !in visited && Adjacent(E, frame.a, frame.b)
  }

  predicate NodeOk(f: Forest, E: multiset<Edge>, visited: set<nat>, parents: seq<int>, depth: seq<nat>, root: nat,
                   v: nat)
    requires Shaped(f) && |parents| == |depth| == |f.words|
  {
    && v < |f.words| && Root(f, v) == root && ParentOk(f, E, parents, depth, v)
    && (parents[v] >= 0 ==> parents[v] in visited)
  }

  /** All neighbours of v, except possibly those listed in `todo`, have been visited or are pending. */
  predicate Explored(E: multiset<Edge>, visited: set<nat>, pending: set<nat>, todo: set<nat>, v: nat) {
    forall e :: e in E ==>
      && (e.a == v ==> e.b in visited || e.b in pending || e.b in todo)
      && (e.b == v ==> e.a in visited || e.a in pending || e.a in todo)
  }

  /** The tree grown so far: a part of E that connects the root to every visited node and to nothing else. */
  ghost predicate Grown(E: multiset<Edge>, tree: multiset<Edge>, visited: set<nat>, root: nat) {
    && (forall e :: e in tree ==> e in E && e.a in visited && e.b in visited)
    && (forall v :: v in visited ==> Conn(tree, root, v))
  }

  predicate DistinctTargets(stack: seq<Frame>) {
    forall i, j :: 0 <= i < j < |stack| ==> stack[i].b != stack[j].b
  }

  ghost predicate Inv(f: Forest, E: multiset<Edge>, tree: multiset<Edge>, visited: set<nat>, stack: seq<Frame>,
                      parents: seq<int>, depth: seq<nat>, root: nat, before: seq<int>)
  {
    && Shaped(f) && |parents| == |depth| == |before| == |f.words|
    && root in visited
    && Grown(E, tree, visited, root)
    && (forall v :: v in visited ==> NodeOk(f, E, visited, parents, depth, root, v))
    && (forall i :: 0 <= i < |stack| ==> FrameOk(E, visited, |f.words|, stack[i]))
    && DistinctTargets(stack)
    && (forall v :: 0 <= v < |f.words| && v !in visited ==> parents[v] == before[v])
  }

  ghost predicate AllExplored(E: multiset<Edge>, visited: set<nat>, pending: set<nat>) {
    forall v :: v in visited ==> Explored(E, visited, pending, {}, v)
  }

  /** The edge used to enter v becomes part of the tree. */
  function TreeEdge(E: multiset<Edge>, p: nat, v: nat): Edge {
    if Edge(p, v) in E then Edge(p, v) else Edge(v, p)
  }

  lemma Enter(f: Forest, E: multiset<Edge>, tree: multiset<Edge>, visited: set<nat>, stack: seq<Frame>,
              parents: seq<int>, depth: seq<nat>, root: nat, before: seq<int>)
    requires Matches(f, E) && Inv(f, E, tree, visited, stack, parents, depth, root, before) && stack != []
    requires IsRoot(f, root)
    ensures var Edge(p, v) := stack[|stack| - 1];
      && p < |depth| && v < |f.words| && v !in visited
      && Inv(f, E, tree + multiset{TreeEdge(E, p, v)}, visited + {v}, stack[..|stack| - 1],
             parents[v := p], depth[v := depth[p] + 1], root, before)
  {
    hide NodeOk, FrameOk, Matches, Root, Grown, Conn;
    var Edge(p, v) := stack[|stack| - 1];
    assert FrameOk(E, visited, |f.words|, stack[|stack| - 1]);
    InFrame(E, visited, |f.words|, stack[|stack| - 1]);
    assert NodeOk(f, E, visited, parents, depth, root, p) && NodeOk(f, E, visited, parents, depth, root, root);
    IsNode(f, E, visited, parents, depth, root, p);
    IsNode(f, E, visited, parents, depth, root, root);
    var rest, marks, pointers, levels := stack[..|stack| - 1], visited + {v}, parents[v := p], depth[v := depth[p] + 1];
    NodeEntered(f, E, visited, parents, depth, root, p, v);
    GrowTree(E, tree, visited, root, p, v);
    forall u | u in marks ensures NodeOk(f, E, marks, pointers, levels, root, u) {
      if u != v { NodeStays(f, E, visited, parents, depth, root, p, v, u); }
    }
    forall i | 0 <= i < |rest| ensures FrameOk(E, marks, |f.words|, rest[i]) {
      assert FrameOk(E, visited, |f.words|, stack[i]);
      FrameStays(E, visited, |f.words|, stack[i], v);
    }
  }

  lemma IsNode(f: Forest, E: multiset<Edge>, visited: set<nat>, parents: seq<int>, depth: seq<nat>, root: nat, v: nat)
    requires Shaped(f) && |parents| == |depth| == |f.words| && NodeOk(f, E, visited, parents, depth, root, v)
    ensures v < |f.words|
  {}

  lemma InFrame(E: multiset<Edge>, visited: set<nat>, n: nat, frame: Frame)
    requires FrameOk(E, visited, n, frame)
    ensures frame.b < n && frame.a in visited && frame.b !in visited && Adjacent(E, frame.a, frame.b)
  {}

  lemma FrameStays(E: multiset<Edge>, visited: set<nat>, n: nat, frame: Frame, v: nat)
    requires FrameOk(E, visited, n, frame) && frame.b != v
    ensures FrameOk(E, visited + {v}, n, frame)
  {}

  /** The node just entered has its parent one level up. */
  lemma NodeEntered(f: Forest, E: multiset<Edge>, visited: set<nat>, parents: seq<int>, depth: seq<nat>, root: nat,
                    p: nat, v: nat)
    requires Matches(f, E) && |parents| == |depth| == |f.words| && v < |f.words| && v !in visited && Adjacent(E, p, v)
    requires p in visited && root in visited && root < |f.words| && IsRoot(f, root)
    requires NodeOk(f, E, visited, parents, depth, root, p)
    ensures NodeOk(f, E, visited + {v}, parents[v := p], depth[v := depth[p] + 1], root, v)
  {
    ConnStep(E, p, v);
    assert Same(f, p, v);
  }

  lemma NodeStays(f: Forest, E: multiset<Edge>, visited: set<nat>, parents: seq<int>, depth: seq<nat>, root: nat,
                  p: nat, v: nat, u: nat)
    requires Shaped(f) && |parents| == |depth| == |f.words| && v < |f.words| && p < |f.words| && v !in visited && u != v
    requires NodeOk(f, E, visited, parents, depth, root, u)
    ensures NodeOk(f, E, visited + {v}, parents[v := p], depth[v := depth[p] + 1], root, u)
  {}

  lemma GrowTree(E: multiset<Edge>, tree: multiset<Edge>, visited: set<nat>, root: nat, p: nat, v: nat)
    requires Grown(E, tree, visited, root) && p in visited && Adjacent(E, p, v)
    ensures Grown(E, tree + multiset{TreeEdge(E, p, v)}, visited + {v}, root)
  {
    var bigger := tree + multiset{TreeEdge(E, p, v)};
    forall u | u in visited + {v} ensures Conn(bigger, root, u) {
      if u in visited { ConnMono(tree, bigger, root, u); }
      else {
        ConnMono(tree, bigger, root, p);
        ConnStep(bigger, p, v);
        ConnTrans(bigger, root, p, v);
      }
    }
  }

  /** A second way from v back to the tree, or to a node next to it, would close a cycle. */
  lemma NoShortcut(E: multiset<Edge>, tree: multiset<Edge>, visited: set<nat>, root: nat, p: nat, v: nat, w: nat,
                   q: nat)
    requires Grown(E, tree, visited, root) && p in visited && v !in visited && Adjacent(E, p, v)
    requires Adjacent(E, v, w) && w != p
    requires q in visited && (w == q || Adjacent(E, q, w))
    ensures !Acyclic(E)
  {
    var e := if Edge(v, w) in E then Edge(v, w) else Edge(w, v);
    var rest := E - multiset{e};
    forall d | d in tree ensures d in rest { assert d != e; }
    ConnMono(tree, rest, root, p);
    ConnMono(tree, rest, root, q);
    assert Adjacent(rest, p, v);
    ConnStep(rest, p, v);
    ConnTrans(rest, root, p, v);
    if w != q {
      assert Adjacent(rest, q, w);
      ConnStep(rest, q, w);
      ConnTrans(rest, root, q, w);
    }
    ConnSym(rest, root, v);
    ConnTrans(rest, v, root, w);
    ConnSym(rest, v, w);
  }

  /** A neighbour of the node just entered, other than its parent, is neither visited nor pending. */
  lemma Fresh(f: Forest, E: multiset<Edge>, tree: multiset<Edge>, visited: set<nat>, stack: seq<Frame>,
              parents: seq<int>, depth: seq<nat>, root: nat, before: seq<int>, w: nat)
    requires Acyclic(E) && Inv(f, E, tree, visited, stack, parents, depth, root, before) && stack != []
    requires var Edge(p, v) := stack[|stack| - 1]; Adjacent(E, v, w) && w != p && w != v
    ensures w !in visited && w !in Pending(stack)
  {
    var Edge(p, v) := stack[|stack| - 1];
    assert FrameOk(E, visited, |f.words|, stack[|stack| - 1]);
    if w in visited { NoShortcut(E, tree, visited, root, p, v, w, w); }
    if w in Pending(stack) {
      var i :| 0 <= i < |stack| && stack[i].b == w;
      assert FrameOk(E, visited, |f.words|, stack[i]);
      NoShortcut(E, tree, visited, root, p, v, w, stack[i].a);
    }
  }

  lemma Push(f: Forest, E: multiset<Edge>, tree: multiset<Edge>, visited: set<nat>, stack: seq<Frame>,
             parents: seq<int>, depth: seq<nat>, root: nat, before: seq<int>, frame: Frame)
    requires Inv(f, E, tree, visited, stack, parents, depth, root, before)
    requires FrameOk(E, visited, |f.words|, frame) && frame.b !in Pending(stack)
    ensures Inv(f, E, tree, visited, stack + [frame], parents, depth, root, before)
    ensures Pending(stack + [frame]) == Pending(stack) + {frame.b}
  {
    assert forall i :: 0 <= i < |stack| ==> stack[i].b in Pending(stack);
    forall x | x in Pending(stack) + {frame.b} ensures x in Pending(stack + [frame]) {
      if x in Pending(stack) { var i :| 0 <= i < |stack| && stack[i].b == x; assert (stack + [frame])[i].b == x; }
      else { assert (stack + [frame])[|stack|].b == x; }
    }
  }

  // ---------- The same search as a function ----------

  /** The pending visits, and the assignments made so far. */
  datatype Progress = Progress(stack: seq<Frame>, log: seq<Write>)

  function Pushed(adj: seq<nat>, i: nat, end: nat, v: nat, from: int, stack: seq<Frame>): seq<Frame>
    decreases end - i
  {
    if i >= end || i >= |adj| then stack
    else Pushed(adj, i + 1, end, v, from, if adj[i] != from then stack + [Edge(v, adj[i])] else stack)
  }

  function Opened(index: seq<nat>, adj: seq<nat>, v: nat, from: int, stack: seq<Frame>): seq<Frame> {
    if v + 1 < |index| then Pushed(adj, index[v], index[v + 1], v, from, stack) else stack
  }

  /** The search from `root` after k visits. It reads nothing that any search writes. */
  function Visits(index: seq<nat>, adj: seq<nat>, root: nat, k: nat): Progress {
    if k == 0 then Progress(Opened(index, adj, root, -1, []), [Write(root, -1)])
    else
      var p := Visits(index, adj, root, k - 1);
      if p.stack == [] then p
      else
        var top, rest := p.stack[|p.stack| - 1], p.stack[..|p.stack| - 1];
        Progress(Opened(index, adj, top.b, top.a, rest), p.log + [Write(top.b, top.a)])
  }

  function NodesOf(log: seq<Write>): seq<nat> { seq(|log|, i requires 0 <= i < |log| => log[i].node) }

  /** The log of a search that has reached `visited`, with `stack` still to do. */
  ghost predicate LogOk(index: seq<nat>, adj: seq<nat>, root: nat, stack: seq<Frame>, log: seq<Write>,
                        visited: set<nat>, before: seq<int>, parents: seq<int>)
  {
    && Distinct(NodesOf(log)) && Elements(NodesOf(log)) == visited && parents == Written(before, log)
    && log != [] && Visits(index, adj, root, |log| - 1) == Progress(stack, log)
  }

  lemma LogFirst(index: seq<nat>, adj: seq<nat>, root: nat, stack: seq<Frame>, before: seq<int>)
    requires root < |before| && stack == Opened(index, adj, root, -1, [])
    ensures LogOk(index, adj, root, stack, [Write(root, -1)], {root}, before, before[root := -1])
  {
    assert [Write(root, -1)][..0] == [];
    assert NodesOf([Write(root, -1)]) == [root];
  }

  lemma LogMore(index: seq<nat>, adj: seq<nat>, root: nat, stack: seq<Frame>, stack': seq<Frame>, log: seq<Write>,
                visited: set<nat>, before: seq<int>, parents: seq<int>, w: Write)
    requires LogOk(index, adj, root, stack, log, visited, before, parents) && w.node < |before| && w.node !in visited
    requires stack != [] && w == Write(stack[|stack| - 1].b, stack[|stack| - 1].a)
    requires stack' == Opened(index, adj, w.node, w.parent, stack[..|stack| - 1])
    ensures w.node < |parents|
    ensures LogOk(index, adj, root, stack', log + [w], visited + {w.node}, before, parents[w.node := w.parent])
  {
    hide Opened, Written;
    WrittenMore(before, log, w);
    assert NodesOf(log + [w]) == NodesOf(log) + [w.node];
    assert forall v :: v in NodesOf(log) <==> v in Elements(NodesOf(log));
    assert Elements(NodesOf(log + [w])) == visited + {w.node};
  }

  lemma LogLast(index: seq<nat>, adj: seq<nat>, root: nat, log: seq<Write>, visited: set<nat>, before: seq<int>,
                parents: seq<int>)
    requires LogOk(index, adj, root, [], log, visited, before, parents)
    ensures Distinct(NodesOf(log)) && (forall v: nat :: v in NodesOf(log) <==> v in visited)
    ensures parents == Written(before, log) && log != [] && Visits(index, adj, root, |log| - 1) == Progress([], log)
  {
    assert forall v: nat :: v in NodesOf(log) <==> v in Elements(NodesOf(log));
  }

  // ---------- The search ----------

  /** Push all neighbours of v but `from`; the frames pushed so far lead to what has been read of v's segment. */
  method PushNeighbours(ghost f: Forest, ghost edges: seq<Edge>, index: seq<nat>, adj: seq<nat>, v: nat,
                        ghost skip: set<nat>,
                        from: int, stack0: seq<Frame>, ghost tree: multiset<Edge>, ghost visited: set<nat>,
                        ghost parents: seq<int>, ghost depth: seq<nat>, ghost root: nat, ghost before: seq<int>)
    returns (stack: seq<Frame>)
    requires Ready(f, edges, index, adj) && Acyclic(multiset(edges)) && v in visited && v < |f.words|
    requires Inv(f, multiset(edges), tree, visited, stack0, parents, depth, root, before)
    requires skip == if from >= 0 then {from} else {}
    requires forall w: nat :: Adjacent(multiset(edges), v, w) && w != from && w != v ==>
      w !in visited && w !in Pending(stack0)
    ensures Inv(f, multiset(edges), tree, visited, stack, parents, depth, root, before)
    ensures Pending(stack0) <= Pending(stack)
    ensures stack == Opened(index, adj, v, from, stack0)
    ensures forall w: nat :: Adjacent(multiset(edges), v, w) && w != from ==> w in Pending(stack)
  {
    hide Ready, Inv, Acyclic, Adjacent, Lists, Pending;
    ghost var E := multiset(edges);
    stack := stack0;
    SegmentBounds(f, edges, index, adj, v);
    for i := index[v] to index[v + 1]
      invariant Inv(f, E, tree, visited, stack, parents, depth, root, before)
      invariant Pending(stack) == Pending(stack0) + (Elements(adj[index[v]..i]) - skip)
      invariant Pushed(adj, i, index[v + 1], v, from, stack) == Opened(index, adj, v, from, stack0)
    {
      NeighbourInRange(f, edges, index, adj, v, i);
      var w := adj[i];
      ghost var seen := adj[index[v]..i];
      assert adj[index[v]..i + 1] == seen + [w];
      ListedMore(seen, w);
      NotListedBefore(f, edges, index, adj, v, i);
      if w != from {
        assert FrameOk(E, visited, |f.words|, Edge(v, w));
        Push(f, E, tree, visited, stack, parents, depth, root, before, Edge(v, w));
        stack := stack + [Edge(v, w)];
      }
    }
    forall w: nat | Adjacent(E, v, w) && w != from ensures w in Pending(stack) {
      ListsAll(f, edges, index, adj, v, w);
    }
  }

  lemma ListedMore(s: seq<nat>, w: nat)
    ensures Elements(s + [w]) == Elements(s) + {w}
  {}

  lemma NotListedBefore(f: Forest, edges: seq<Edge>, index: seq<nat>, adj: seq<nat>, v: nat, i: nat)
    requires Ready(f, edges, index, adj) && Acyclic(multiset(edges)) && v < |f.words| && |index| == |f.words| + 1
    requires index[v] <= i < index[v + 1] <= |adj|
    ensures adj[i] !in Elements(adj[index[v]..i]) && adj[i] != v
  {
    SegmentHasNoDuplicates(|f.words|, edges, index, adj, v);
    var s := adj[index[v]..i];
    forall k | 0 <= k < |s| ensures s[k] != adj[i] { assert s[k] == adj[index[v] + k]; }
  }

  lemma ListsAll(f: Forest, edges: seq<Edge>, index: seq<nat>, adj: seq<nat>, v: nat, w: nat)
    requires Ready(f, edges, index, adj) && v < |f.words| && Adjacent(multiset(edges), v, w)
    ensures |index| == |f.words| + 1 && index[v] <= index[v + 1] <= |adj| && w in Elements(adj[index[v]..index[v + 1]])
  {
    SegmentBounds(f, edges, index, adj, v);
    SegmentIsAdjacent(|f.words|, edges, index, adj, v, w);
  }

  lemma Covers(f: Forest, E: multiset<Edge>, tree: multiset<Edge>, visited: set<nat>,
               parents: seq<int>, depth: seq<nat>, root: nat, before: seq<int>, v: nat)
    requires Matches(f, E) && Inv(f, E, tree, visited, [], parents, depth, root, before) && root < |f.words|
    requires AllExplored(E, visited, {}) && v < |f.words|
    ensures v in visited <==> Root(f, v) == Root(f, root)
  {
    assert NodeOk(f, E, visited, parents, depth, root, root);
    if v in visited {
      assert NodeOk(f, E, visited, parents, depth, root, v);
    } else if Root(f, v) == Root(f, root) {
      assert Same(f, root, v);
      var marks := seq(|f.words|, u requires 0 <= u < |f.words| => u in visited);
      forall e | e in E ensures marks[e.a] == marks[e.b] {
        if e.a in visited { assert Explored(E, visited, {}, {}, e.a); }
        if e.b in visited { assert Explored(E, visited, {}, {}, e.b); }
      }
      ConnLabels(E, |f.words|, root, v, marks);
    }
  }

  /**
   The search from one root. It ends although nothing is marked; `log` lists the assignments it makes to
   parent_of_: each node of the component exactly once and no other node. It is fixed by the adjacency array and
   the root.
   */
  method SearchFrom(ghost f: Forest, ghost edges: seq<Edge>, index: seq<nat>, adj: seq<nat>, root: nat,
                    parents: array<int>, ghost depth0: seq<nat>)
    returns (ghost depth: seq<nat>, ghost log: seq<Write>)
    requires Ready(f, edges, index, adj) && Acyclic(multiset(edges))
    requires root < |f.words| && IsRoot(f, root) && parents.Length == |f.words| == |depth0|
    modifies parents
    ensures |depth| == |f.words|
    ensures forall v :: 0 <= v < |f.words| && Root(f, v) == root ==> ParentOk(f, multiset(edges), parents[..], depth, v)
    ensures forall v :: 0 <= v < |f.words| && Root(f, v) != root ==>
      parents[v] == old(parents[v]) && depth[v] == depth0[v]
    ensures Distinct(NodesOf(log)) && forall v: nat :: v in NodesOf(log) <==> v < |f.words| && Root(f, v) == root
    ensures parents[..] == Written(old(parents[..]), log)
    ensures log != [] && Visits(index, adj, root, |log| - 1) == Progress([], log)
  {
    hide Ready, Inv, Acyclic, Adjacent, Lists, Matches, AllExplored, Pending, ParentOk, Shaped, Distinct, NodesOf,
      Written, Opened, LogOk, Visits, Upto, Root, SameOutside;
    ghost var E, before := multiset(edges), parents[..];
    MatchesReady(f, edges, index, adj);
    var stack: seq<Frame>;
    stack, depth := OpenRoot(f, edges, index, adj, root, parents, depth0);
    log := [Write(root, -1)];
    ghost var visited, tree: multiset<Edge> := {root}, multiset{};
    while stack != []
      invariant Inv(f, E, tree, visited, stack, parents[..], depth, root, before)
      invariant AllExplored(E, visited, Pending(stack))
      invariant visited <= Upto(|f.words|) && SameOutside(depth0, depth, visited) && |depth| == |f.words|
      invariant LogOk(index, adj, root, stack, log, visited, before, parents[..])
      decreases |Upto(|f.words|) - visited|
    {
      ghost var top, stack0, pointers, levels := stack[|stack| - 1], stack, parents[..], depth;
      stack, depth, tree := VisitNext(f, edges, index, adj, stack, tree, visited, parents, depth, root, before);
      LogMore(index, adj, root, stack0, stack, log, visited, before, pointers, Write(top.b, top.a));
      OneMoreVisited(depth0, levels, depth, visited, top.b, |f.words|);
      visited := visited + {top.b};
      log := log + [Write(top.b, top.a)];
    }
    NonePending();
    Finish(f, E, tree, visited, parents[..], depth0, depth, root, before);
    LogLast(index, adj, root, log, visited, before, parents[..]);
  }

  /** Marks the root and pushes all its neighbours. */
  method OpenRoot(ghost f: Forest, ghost edges: seq<Edge>, index: seq<nat>, adj: seq<nat>, root: nat,
                  parents: array<int>, ghost depth0: seq<nat>)
    returns (stack: seq<Frame>, ghost depth: seq<nat>)
    requires Ready(f, edges, index, adj) && Acyclic(multiset(edges)) && Matches(f, multiset(edges))
    requires root < |f.words| && IsRoot(f, root) && parents.Length == |f.words| == |depth0|
    modifies parents
    ensures |depth| == |f.words| && SameOutside(depth0, depth, {root}) && {root} <= Upto(|f.words|)
    ensures Inv(f, multiset(edges), multiset{}, {root}, stack, parents[..], depth, root, old(parents[..]))
    ensures AllExplored(multiset(edges), {root}, Pending(stack))
    ensures LogOk(index, adj, root, stack, [Write(root, -1)], {root}, old(parents[..]), parents[..])
  {
    hide Ready, Inv, Acyclic, Adjacent, Lists, Matches, AllExplored, Pending, Shaped, Opened, LogOk;
    ghost var E, before := multiset(edges), parents[..];
    parents[root] := -1;
    depth := depth0[root := 0];
    stack := [];
    Begin(f, E, parents[..], depth, root, before);
    NonePending();
    stack := PushNeighbours(f, edges, index, adj, root, {}, -1, stack, multiset{}, {root}, parents[..], depth, root,
                            before);
    FirstExplored(E, root, Pending(stack));
    LogFirst(index, adj, root, stack, before);
  }

  predicate SameOutside(depth0: seq<nat>, depth: seq<nat>, visited: set<nat>) {
    |depth| == |depth0| && forall v :: 0 <= v < |depth| && v !in visited ==> depth[v] == depth0[v]
  }

  lemma OneMoreVisited(depth0: seq<nat>, levels: seq<nat>, depth: seq<nat>, visited: set<nat>, v: nat, n: nat)
    requires SameOutside(depth0, levels, visited) && |depth| == |levels| == n && visited <= Upto(n)
    requires v < n && v !in visited && depth == levels[v := depth[v]]
    ensures SameOutside(depth0, depth, visited + {v}) && visited + {v} <= Upto(n)
    ensures |Upto(n) - (visited + {v})| < |Upto(n) - visited|
  {
    assert Upto(n) - (visited + {v}) == Upto(n) - visited - {v};
  }

  /** When nothing is pending, the search has visited its component and touched nothing else. */
  lemma Finish(f: Forest, E: multiset<Edge>, tree: multiset<Edge>, visited: set<nat>, parents: seq<int>,
               depth0: seq<nat>, depth: seq<nat>, root: nat, before: seq<int>)
    requires Inv(f, E, tree, visited, [], parents, depth, root, before) && AllExplored(E, visited, {})
    requires Matches(f, E) && SameOutside(depth0, depth, visited) && visited <= Upto(|f.words|)
    requires root < |f.words| && IsRoot(f, root)
    ensures |parents| == |depth| == |before| == |f.words|
    ensures forall v :: 0 <= v < |f.words| && Root(f, v) == root ==> ParentOk(f, E, parents, depth, v)
    ensures forall v :: 0 <= v < |f.words| && Root(f, v) != root ==> parents[v] == before[v] && depth[v] == depth0[v]
    ensures forall v: nat :: v in visited <==> v < |f.words| && Root(f, v) == root
  {
    hide Inv, AllExplored, Matches, ParentOk;
    MatchesShaped(f, E);
    forall v | 0 <= v < |f.words| ensures v in visited <==> Root(f, v) == root {
      Covers(f, E, tree, visited, parents, depth, root, before, v);
    }
    Results(f, E, tree, visited, parents, depth, root, before);
  }

  /** Pop one frame, record the parent and push the other neighbours. */
  method VisitNext(ghost f: Forest, ghost edges: seq<Edge>, index: seq<nat>, adj: seq<nat>, stack0: seq<Frame>,
                   ghost tree0: multiset<Edge>, ghost visited: set<nat>, parents: array<int>,
                   ghost depth0: seq<nat>, ghost root: nat, ghost before: seq<int>)
    returns (stack: seq<Frame>, ghost depth: seq<nat>, ghost tree: multiset<Edge>)
    requires Ready(f, edges, index, adj) && Acyclic(multiset(edges)) && Matches(f, multiset(edges))
    requires parents.Length == |f.words| == |depth0| && root < |f.words| && IsRoot(f, root) && stack0 != []
    requires Inv(f, multiset(edges), tree0, visited, stack0, parents[..], depth0, root, before)
    requires AllExplored(multiset(edges), visited, Pending(stack0))
    modifies parents
    ensures var Edge(p, v) := stack0[|stack0| - 1];
      && v < |f.words| && v !in visited && parents[..] == old(parents[..])[v := p]
      && stack == Opened(index, adj, v, p, stack0[..|stack0| - 1])
      && |depth| == |f.words| && depth == depth0[v := depth[v]]
      && Inv(f, multiset(edges), tree, visited + {v}, stack, parents[..], depth, root, before)
      && AllExplored(multiset(edges), visited + {v}, Pending(stack))
  {
    hide Ready, Inv, Acyclic, Adjacent, Matches, AllExplored, Pending, TreeEdge, Opened;
    ghost var E := multiset(edges);
    var Edge(p, node) := stack0[|stack0| - 1];
    ghost var pointers := parents[..];
    Enter(f, E, tree0, visited, stack0, parents[..], depth0, root, before);
    TopFrame(f, E, tree0, visited, stack0, parents[..], depth0, root, before);
    forall w: nat | Adjacent(E, node, w) && w != p && w != node ensures w !in visited && w !in Pending(stack0) {
      Fresh(f, E, tree0, visited, stack0, parents[..], depth0, root, before, w);
    }
    PopPending(stack0);
    parents[node] := p;
    assert parents[..] == pointers[node := p];
    depth := depth0[node := depth0[p] + 1];
    tree := tree0 + multiset{TreeEdge(E, p, node)};
    stack := PushNeighbours(f, edges, index, adj, node, {p}, p, stack0[..|stack0| - 1], tree, visited + {node},
                            parents[..], depth, root, before);
    StillExplored(E, visited, Pending(stack0), p, node, Pending(stack));
  }

  lemma TopFrame(f: Forest, E: multiset<Edge>, tree: multiset<Edge>, visited: set<nat>, stack: seq<Frame>,
                 parents: seq<int>, depth: seq<nat>, root: nat, before: seq<int>)
    requires Inv(f, E, tree, visited, stack, parents, depth, root, before) && stack != []
    ensures FrameOk(E, visited, |f.words|, stack[|stack| - 1])
  {}

  lemma NonePending()
    ensures Pending([]) == {}
  {}

  lemma Begin(f: Forest, E: multiset<Edge>, parents: seq<int>, depth: seq<nat>, root: nat, before: seq<int>)
    requires Matches(f, E) && root < |f.words| == |parents| == |depth| == |before| && IsRoot(f, root)
    requires parents == before[root := -1] && depth[root] == 0
    ensures Inv(f, E, multiset{}, {root}, [], parents, depth, root, before)
  {
    ConnRefl(multiset{}, root);
  }

  lemma FirstExplored(E: multiset<Edge>, root: nat, pending: set<nat>)
    requires forall w: nat :: Adjacent(E, root, w) && w != -1 ==> w in pending
    ensures AllExplored(E, {root}, pending)
  {
    forall e | e in E && e.a == root ensures e.b in pending { assert Adjacent(E, root, e.b); }
    forall e | e in E && e.b == root ensures e.a in pending { assert Adjacent(E, root, e.a); }
  }

  lemma PopPending(stack: seq<Frame>)
    requires stack != []
    ensures Pending(stack) == Pending(stack[..|stack| - 1]) + {stack[|stack| - 1].b}
  {
    var rest := stack[..|stack| - 1];
    forall x | x in Pending(stack) ensures x in Pending(rest) + {stack[|stack| - 1].b} {
      var i :| 0 <= i < |stack| && stack[i].b == x;
      if i < |rest| { assert rest[i].b == x; }
    }
    forall x | x in Pending(rest) ensures x in Pending(stack) {
      var i :| 0 <= i < |rest| && rest[i].b == x;
      assert stack[i].b == x;
    }
  }

  lemma StillExplored(E: multiset<Edge>, visited: set<nat>, pending: set<nat>, p: nat, v: nat, after: set<nat>)
    requires AllExplored(E, visited, pending) && p in visited
    requires forall x :: x in pending ==> x == v || x in after
    requires forall w: nat :: Adjacent(E, v, w) && w != p ==> w in after
    ensures AllExplored(E, visited + {v}, after)
  {
    forall u | u in visited + {v} ensures Explored(E, visited + {v}, after, {}, u) {
      if u in visited { assert Explored(E, visited, pending, {}, u); }
      forall e | e in E && u == v
        ensures e.a == v ==> e.b in visited + {v} || e.b in after
        ensures e.b == v ==> e.a in visited + {v} || e.a in after
      {
        if e.a == v { assert Adjacent(E, v, e.b); }
        if e.b == v { assert Adjacent(E, v, e.a); }
      }
    }
  }

  lemma Results(f: Forest, E: multiset<Edge>, tree: multiset<Edge>, visited: set<nat>, parents: seq<int>,
                depth: seq<nat>, root: nat, before: seq<int>)
    requires Inv(f, E, tree, visited, [], parents, depth, root, before)
    ensures |parents| == |depth| == |before| == |f.words|
    ensures forall v :: v in visited ==> v < |f.words| && ParentOk(f, E, parents, depth, v)
    ensures forall v :: 0 <= v < |f.words| && v !in visited ==> parents[v] == before[v]
  {
    forall v | v in visited ensures v < |f.words| && ParentOk(f, E, parents, depth, v) {
      assert NodeOk(f, E, visited, parents, depth, root, v);
    }
  }

  // ---------- All roots ----------

  /** Every root is a share of its own. */
  function Singletons(roots: seq<nat>): seq<seq<nat>> { seq(|roots|, k requires 0 <= k < |roots| => [roots[k]]) }

  /** What a completed search from the root wrote. */
  predicate IsLog(index: seq<nat>, adj: seq<nat>, root: nat, log: seq<Write>) {
    log != [] && Visits(index, adj, root, |log| - 1) == Progress([], log)
  }

  ghost predicate AreRoots(f: Forest, roots: seq<nat>) {
    Distinct(roots) && forall r: nat :: r in roots <==> r < |f.words| && IsRoot(f, r)
  }

  lemma SingletonsDealt(f: Forest, roots: seq<nat>)
    requires AreRoots(f, roots)
    ensures RootsDealt(f, Singletons(roots))
  {
    var shares := Singletons(roots);
    forall u: nat | u < |f.words| && IsRoot(f, u) ensures Handled(shares, |shares|, u) {
      var k :| 0 <= k < |roots| && roots[k] == u;
      assert u in shares[k];
    }
  }

  /**
   rebuild_parent_array: a search from every root leaves the same kind of parent forest as the breadth-first one. The
   roots' searches run in parallel: whatever the interleaving of their assignments, the array ends up the same.
   */
  method RebuildParents(ghost f: Forest, ghost edges: seq<Edge>, isRoot: nat -> bool, index: seq<nat>, adj: seq<nat>,
                        parents: array<int>)
    returns (ghost depth: seq<nat>, ghost roots: seq<nat>, ghost logs: seq<seq<Write>>)
    requires Ready(f, edges, index, adj) && Acyclic(multiset(edges)) && parents.Length == |f.words|
    requires TellsRoots(isRoot, f)
    modifies parents
    ensures ParentForest(f, multiset(edges), parents[..], depth)
    ensures AreRoots(f, roots) && |logs| == |roots|
    ensures forall k :: 0 <= k < |roots| ==> IsLog(index, adj, roots[k], logs[k])
    ensures forall turns :: Interleaves(turns, logs) ==> Written(old(parents[..]), AllWrites(turns)) == parents[..]
  {
    hide Ready, Acyclic, LogHolds, Visits, Matches, Distinct;
    MatchesReady(f, edges, index, adj);
    assert Shaped(f) by { MatchesShaped(f, multiset(edges)); }
    ghost var base := parents[..];
    var list := CollectRoots(f, isRoot, parents.Length);
    roots, logs, depth := list, [], seq(|f.words|, _ => 0);
    for k := 0 to |list|
      invariant |depth| == |f.words| && |logs| == k
      invariant forall v :: 0 <= v < |f.words| && Root(f, v) in list[..k] ==>
        ParentOk(f, multiset(edges), parents[..], depth, v)
      invariant forall v :: 0 <= v < |f.words| && Root(f, v) !in list[..k] ==> parents[v] == base[v]
      invariant forall i :: 0 <= i < k ==> IsLog(index, adj, list[i], logs[i])
      invariant forall i :: 0 <= i < k ==> LogHolds(f, base, [list[i]], logs[i], parents[..])
    {
      depth, logs := SearchNext(f, edges, index, adj, list, k, parents, depth, base, logs);
    }
    assert list[..|list|] == list;
    forall v | 0 <= v < |f.words| ensures ParentOk(f, multiset(edges), parents[..], depth, v) {
      assert Root(f, v) in list;
    }
    SingletonsDealt(f, list);
    forall turns | Interleaves(turns, logs) ensures Written(base, AllWrites(turns)) == parents[..] {
      AnyInterleaving(f, base, Singletons(list), logs, parents[..], turns);
    }
  }

  method CollectRoots(ghost f: Forest, isRoot: nat -> bool, n: nat) returns (roots: seq<nat>)
    requires n == |f.words| && TellsRoots(isRoot, f)
    ensures AreRoots(f, roots)
  {
    roots := [];
    for u := 0 to n
      invariant forall r: nat :: r in roots <==> r < u && IsRoot(f, r)
      invariant Distinct(roots)
    {
      if isRoot(u) {
        assert u !in roots;
        roots := roots + [u];
      }
    }
  }

  /** The search from the next root, after those from the roots before it. */
  method SearchNext(ghost f: Forest, ghost edges: seq<Edge>, index: seq<nat>, adj: seq<nat>, roots: seq<nat>, k: nat,
                    parents: array<int>, ghost depth0: seq<nat>, ghost base: seq<int>, ghost logs0: seq<seq<Write>>)
    returns (ghost depth: seq<nat>, ghost logs: seq<seq<Write>>)
    requires Ready(f, edges, index, adj) && Acyclic(multiset(edges)) && Matches(f, multiset(edges)) && Shaped(f)
    requires AreRoots(f, roots) && k < |roots| && |logs0| == k
    requires parents.Length == |f.words| == |depth0| == |base|
    requires forall v :: 0 <= v < |f.words| && Root(f, v) in roots[..k] ==>
      ParentOk(f, multiset(edges), parents[..], depth0, v)
    requires forall v :: 0 <= v < |f.words| && Root(f, v) !in roots[..k] ==> parents[v] == base[v]
    requires forall i :: 0 <= i < k ==> IsLog(index, adj, roots[i], logs0[i])
    requires forall i :: 0 <= i < k ==> LogHolds(f, base, [roots[i]], logs0[i], parents[..])
    modifies parents
    ensures |depth| == |f.words| && |logs| == k + 1
    ensures forall v :: 0 <= v < |f.words| && Root(f, v) in roots[..k + 1] ==>
      ParentOk(f, multiset(edges), parents[..], depth, v)
    ensures forall v :: 0 <= v < |f.words| && Root(f, v) !in roots[..k + 1] ==> parents[v] == base[v]
    ensures forall i :: 0 <= i < k + 1 ==> IsLog(index, adj, roots[i], logs[i])
    ensures forall i :: 0 <= i < k + 1 ==> LogHolds(f, base, [roots[i]], logs[i], parents[..])
  {
    hide Ready, Acyclic, LogHolds, Visits, Matches, NodesOf;
    ghost var before, levels := parents[..], depth0;
    ghost var log;
    assert roots[k] in roots && roots[k] !in roots[..k];
    assert roots[..k + 1] == roots[..k] + [roots[k]];
    depth, log := SearchFrom(f, edges, index, adj, roots[k], parents, depth0);
    logs := logs0 + [log];
    forall v | 0 <= v < |f.words| && Root(f, v) in roots[..k + 1]
      ensures ParentOk(f, multiset(edges), parents[..], depth, v)
    {
      if Root(f, v) != roots[k] { KeptForest(f, multiset(edges), before, levels, parents[..], depth, roots[k], v); }
    }
    OwnLog(f, base, roots[k], log, before, parents[..]);
    forall i | 0 <= i < k ensures LogHolds(f, base, [roots[i]], logs[i], parents[..]) {
      assert roots[i] in roots[..k];
      OtherLogHolds(f, base, [roots[k]], [roots[i]], logs0[i], before, parents[..]);
    }
  }

  lemma OwnLog(f: Forest, base: seq<int>, root: nat, log: seq<Write>, before: seq<int>, parents: seq<int>)
    requires Shaped(f) && |before| == |base| == |f.words| && parents == Written(before, log)
    requires forall v :: 0 <= v < |f.words| && Root(f, v) == root ==> before[v] == base[v]
    requires forall v: nat :: v in NodesOf(log) <==> v < |f.words| && Root(f, v) == root
    ensures LogHolds(f, base, [root], log, parents)
  {
    hide Written, Root;
    forall w | w in log ensures w.node < |f.words| && Root(f, w.node) in [root] {
      var i :| 0 <= i < |log| && log[i] == w;
      assert NodesOf(log)[i] == w.node && w.node in NodesOf(log);
    }
    forall v | 0 <= v < |f.words| && Root(f, v) in [root] ensures parents[v] == Written(base, log)[v] {
      WrittenAt(before, base, log, v);
    }
  }

  lemma KeptForest(f: Forest, E: multiset<Edge>, before: seq<int>, levels: seq<nat>, parents: seq<int>, depth: seq<nat>,
                   root: nat, v: nat)
    requires Matches(f, E) && |before| == |levels| == |parents| == |depth| == |f.words| && v < |f.words|
    requires ParentOk(f, E, before, levels, v) && Root(f, v) != root
    requires forall u :: 0 <= u < |f.words| && Root(f, u) != root ==> parents[u] == before[u] && depth[u] == levels[u]
    ensures ParentOk(f, E, parents, depth, v)
  {
    if !IsRoot(f, v) {
      ConnStep(E, before[v], v);
      assert Same(f, before[v], v);
    }
  }
}
