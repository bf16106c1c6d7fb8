/**
 The breadth-first searches that turn the kept edges into parent pointers: one search per union-find root, the roots
 dealt out to threads in any way, every thread with its own visited marks and all of them writing one parent array.
 */
module Bfs {
  import opened Writes
  import opened Sets
  import opened Graphs
  import opened Forest
  import opened Spanning
  import opened Csr

  /** The graph's components are those of the union-find, and (index, adj) is its adjacency array. */
  ghost predicate Ready(f: Forest, edges: seq<Edge>, index: seq<nat>, adj: seq<nat>) {
    && Shaped(f) && EdgesBelow(edges, |f.words|) && IsCsr(|f.words|, edges, index, adj)
    && forall x, y :: 0 <= x < |f.words| && 0 <= y < |f.words| ==> (Same(f, x, y) <==> Conn(multiset(edges), x, y))
  }

  /** Roots have no parent; any other node hangs below a neighbour one level up. */
  predicate ParentOk(f: Forest, E: multiset<Edge>, parents: seq<int>, depth: seq<nat>, v: nat)
    requires |parents| == |depth| == |f.words| && v < |f.words|
  {
    if IsRoot(f, v) then parents[v] == -1 && depth[v] == 0
    else
      && 0 <= parents[v] < |f.words| && Adjacent(E, parents[v], v)
      && depth[v] == depth[parents[v]] + 1
  }

  predicate Closed(E: multiset<Edge>, visited: seq<bool>, v: nat) {
    forall e :: e in E ==>
      && (e.a == v ==> e.b < |visited| && visited[e.b])
      && (e.b == v ==> e.a < |visited| && visited[e.a])
  }

  predicate Seen(f: Forest, E: multiset<Edge>, visited: seq<bool>, parents: seq<int>, depth: seq<nat>,
                 started: set<nat>, v: nat)
    requires Shaped(f) && |parents| == |depth| == |visited| == |f.words| && v < |f.words|
  {
    && Root(f, v) in started && ParentOk(f, E, parents, depth, v)
    && (parents[v] >= 0 ==> parents[v] < |visited| && visited[parents[v]])
  }

  /** The state of one thread's searches; `open` are the nodes whose neighbours have not all been looked at. */
  predicate Explored(f: Forest, E: multiset<Edge>, visited: seq<bool>, open: set<nat>,
                     parents: seq<int>, depth: seq<nat>, started: set<nat>, before: seq<int>)
  {
    && Shaped(f) && |parents| == |depth| == |visited| == |before| == |f.words|
    && (forall v :: v in open ==> v < |visited| && visited[v])
    && (forall v :: 0 <= v < |visited| && visited[v] && v !in open ==> Closed(E, visited, v))
    && (forall v :: 0 <= v < |visited| && visited[v] ==> Seen(f, E, visited, parents, depth, started, v))
    && (forall r :: r in started ==> r < |visited| && visited[r] && IsRoot(f, r))
    && (forall v :: 0 <= v < |visited| && !visited[v] ==> parents[v] == before[v])
  }

  ghost predicate Matches(f: Forest, E: multiset<Edge>) {
    && Shaped(f) && Within(E, |f.words|)
    && forall x, y :: 0 <= x < |f.words| && 0 <= y < |f.words| ==> (Same(f, x, y) <==> Conn(E, x, y))
  }

  /** A new root opens its own component. */
  lemma StartSearch(f: Forest, E: multiset<Edge>, visited: seq<bool>, open: set<nat>, parents: seq<int>,
                    depth: seq<nat>, started: set<nat>, before: seq<int>, u: nat)
    requires Explored(f, E, visited, open, parents, depth, started, before)
    requires u < |f.words| && IsRoot(f, u) && before[u] == -1
    ensures Explored(f, E, visited[u := true], open + {u}, parents, depth[u := 0], started + {u}, before)
  {
    hide Seen, Closed, Root;
    var marks, levels := visited[u := true], depth[u := 0];
    forall v | 0 <= v < |marks| && marks[v] ensures Seen(f, E, marks, parents, levels, started + {u}, v) {
      if v == u {
        if visited[u] { SeenRoot(f, E, visited, parents, depth, started, u); }
        FirstSeen(f, E, visited, parents, depth, started, u);
      } else {
        StillSeenAfterStart(f, E, visited, parents, depth, started, v, u);
      }
    }
    forall v | 0 <= v < |marks| && marks[v] && v !in open + {u} ensures Closed(E, marks, v) {
      StillClosed(E, visited, v, u);
    }
  }

  lemma SeenRoot(f: Forest, E: multiset<Edge>, visited: seq<bool>, parents: seq<int>, depth: seq<nat>,
                 started: set<nat>, u: nat)
    requires Shaped(f) && |parents| == |depth| == |visited| == |f.words| && u < |f.words| && IsRoot(f, u)
    requires Seen(f, E, visited, parents, depth, started, u)
    ensures parents[u] == -1
  {}

  lemma FirstSeen(f: Forest, E: multiset<Edge>, visited: seq<bool>, parents: seq<int>, depth: seq<nat>,
                  started: set<nat>, u: nat)
    requires Shaped(f) && |parents| == |depth| == |visited| == |f.words| && u < |f.words| && IsRoot(f, u)
    requires parents[u] == -1
    ensures Seen(f, E, visited[u := true], parents, depth[u := 0], started + {u}, u)
  {}

  lemma StillSeenAfterStart(f: Forest, E: multiset<Edge>, visited: seq<bool>, parents: seq<int>, depth: seq<nat>,
                            started: set<nat>, v: nat, u: nat)
    requires Shaped(f) && |parents| == |depth| == |visited| == |f.words| && v < |f.words| && u < |f.words| && u != v
    requires Seen(f, E, visited, parents, depth, started, v) && IsRoot(f, u)
    requires visited[u] ==> Seen(f, E, visited, parents, depth, started, u)
    ensures Seen(f, E, visited[u := true], parents, depth[u := 0], started + {u}, v)
  {}

  lemma StillClosed(E: multiset<Edge>, visited: seq<bool>, v: nat, u: nat)
    requires Closed(E, visited, v) && u < |visited|
    ensures Closed(E, visited[u := true], v)
  {}

  /** An unvisited neighbour belongs to the same component and is no root. */
  lemma Discover(f: Forest, E: multiset<Edge>, visited: seq<bool>, open: set<nat>, parents: seq<int>,
                 depth: seq<nat>, started: set<nat>, before: seq<int>, node: nat, w: nat)
    requires Explored(f, E, visited, open, parents, depth, started, before) && Matches(f, E)
    requires node < |f.words| && visited[node] && w < |f.words| && !visited[w] && Adjacent(E, node, w)
    ensures Explored(f, E, visited[w := true], open + {w}, parents[w := node], depth[w := depth[node] + 1], started,
                     before)
    ensures Root(f, w) == Root(f, node) && !IsRoot(f, w)
  {
    hide Seen, Closed, Root, Conn;
    assert Seen(f, E, visited, parents, depth, started, node);
    NewNeighbour(f, E, visited, parents, depth, started, node, w);
    hide Matches;
    var marks, pointers, levels := visited[w := true], parents[w := node], depth[w := depth[node] + 1];
    forall v | 0 <= v < |marks| && marks[v] ensures Seen(f, E, marks, pointers, levels, started, v) {
      if v != w { StillSeen(f, E, visited, parents, depth, started, v, node, w); }
    }
    forall v | 0 <= v < |marks| && marks[v] && v !in open + {w} ensures Closed(E, marks, v) {
      StillClosed(E, visited, v, w);
    }
  }

  lemma NewNeighbour(f: Forest, E: multiset<Edge>, visited: seq<bool>, parents: seq<int>, depth: seq<nat>,
                     started: set<nat>, node: nat, w: nat)
    requires Matches(f, E) && |parents| == |depth| == |visited| == |f.words| && node < |f.words| && w < |f.words|
    requires Seen(f, E, visited, parents, depth, started, node) && visited[node] && !visited[w] && Adjacent(E, node, w)
    requires forall r :: r in started ==> r < |visited| && visited[r]
    ensures Root(f, w) == Root(f, node) && !IsRoot(f, w)
    ensures Seen(f, E, visited[w := true], parents[w := node], depth[w := depth[node] + 1], started, w)
  {
    ConnStep(E, node, w);
    assert Same(f, node, w);
  }

  lemma StillSeen(f: Forest, E: multiset<Edge>, visited: seq<bool>, parents: seq<int>, depth: seq<nat>,
                  started: set<nat>, v: nat, node: nat, w: nat)
    requires Shaped(f) && |parents| == |depth| == |visited| == |f.words| && v < |f.words| && w < |f.words| && v != w
    requires Seen(f, E, visited, parents, depth, started, v) && !visited[w] && node < |f.words|
    ensures Seen(f, E, visited[w := true], parents[w := node], depth[w := depth[node] + 1], started, v)
  {}

  /** Once nothing is open, every node of a started component has been visited. */
  lemma Covered(f: Forest, E: multiset<Edge>, visited: seq<bool>, parents: seq<int>,
                depth: seq<nat>, started: set<nat>, before: seq<int>, v: nat)
    requires Explored(f, E, visited, {}, parents, depth, started, before) && Matches(f, E)
    requires v < |f.words| && Root(f, v) in started
    ensures visited[v] && ParentOk(f, E, parents, depth, v)
  {
    var r := Root(f, v);
    assert Same(f, r, v);
    forall e | e in E ensures visited[e.a] == visited[e.b] {
      if visited[e.a] { assert Closed(E, visited, e.a); }
      if visited[e.b] { assert Closed(E, visited, e.b); }
    }
    ConnLabels(E, |f.words|, r, v, visited);
    assert Seen(f, E, visited, parents, depth, started, v);
  }

  function Unvisited(visited: seq<bool>): set<nat> {
    set v | 0 <= v < |visited| && !visited[v]
  }

  lemma VisitShrinks(visited: seq<bool>, w: nat)
    requires w < |visited| && !visited[w]
    ensures |Unvisited(visited[w := true])| == |Unvisited(visited)| - 1
  {
    assert Unvisited(visited[w := true]) == Unvisited(visited) - {w};
  }

  // ---------- The writes of one thread ----------

  /** The log tells what was written since `before`, and only nodes of started components were. */
  predicate Logged(f: Forest, before: seq<int>, log: seq<Write>, parents: seq<int>, started: set<nat>) {
    && Shaped(f) && parents == Written(before, log)
    && forall w :: w in log ==> w.node < |f.words| && Root(f, w.node) in started
  }

  lemma LogWrite(f: Forest, before: seq<int>, log: seq<Write>, parents: seq<int>, started: set<nat>, w: nat, node: int)
    requires Logged(f, before, log, parents, started) && w < |f.words| && w < |parents| && Root(f, w) in started
    ensures Logged(f, before, log + [Write(w, node)], parents[w := node], started)
  {
    assert (log + [Write(w, node)])[..|log|] == log;
  }

  lemma LogMoreRoots(f: Forest, before: seq<int>, log: seq<Write>, parents: seq<int>, started: set<nat>, u: nat)
    requires Logged(f, before, log, parents, started)
    ensures Logged(f, before, log, parents, started + {u})
  {}

  // ---------- The same searches as functions: what a thread does depends on nothing another thread writes ----------

  /** A thread's marks, the nodes it has found for the next level, and what it has written. */
  datatype Marks = Marks(visited: seq<bool>, next: seq<nat>, log: seq<Write>)

  function Bulk(m: Marks): nat { 2 * |Unvisited(m.visited)| + |m.next| }

  function Scanned(adj: seq<nat>, i: nat, end: nat, node: nat, m: Marks): (after: Marks)
    ensures Bulk(after) <= Bulk(m)
    decreases end - i
  {
    if i >= end || i >= |adj| then m
    else if adj[i] < |m.visited| && !m.visited[adj[i]] then
      VisitShrinks(m.visited, adj[i]);
      Scanned(adj, i + 1, end, node, Found(m, adj[i], node))
    else Scanned(adj, i + 1, end, node, m)
  }

  function Found(m: Marks, w: nat, node: nat): Marks
    requires w < |m.visited|
  {
    Marks(m.visited[w := true], m.next + [w], m.log + [Write(w, node)])
  }

  function Searched(index: seq<nat>, adj: seq<nat>, frontier: seq<nat>, m: Marks): Marks
    decreases Bulk(m) + |frontier|, |m.next|
  {
    if frontier != [] then
      var node, rest := frontier[|frontier| - 1], frontier[..|frontier| - 1];
      Searched(index, adj, rest, if node + 1 < |index| then Scanned(adj, index[node], index[node + 1], node, m) else m)
    else if m.next != [] then Searched(index, adj, m.next, m.(next := []))
    else m
  }

  /** All searches of a thread to which the nodes `mine` are handed. */
  function ThreadMarks(isRoot: nat -> bool, index: seq<nat>, adj: seq<nat>, n: nat, mine: seq<nat>): Marks {
    if mine == [] then Marks(seq(n, _ => false), [], [])
    else
      var u, m := mine[|mine| - 1], ThreadMarks(isRoot, index, adj, n, mine[..|mine| - 1]);
      if isRoot(u) && u < |m.visited| then Searched(index, adj, [u], Marks(m.visited[u := true], [], m.log)) else m
  }

  function ThreadLog(isRoot: nat -> bool, index: seq<nat>, adj: seq<nat>, n: nat, mine: seq<nat>): seq<Write> {
    ThreadMarks(isRoot, index, adj, n, mine).log
  }

  // ---------- The searches ----------

  /** Look at the neighbours of one node: visit and queue those not visited yet. */
  method Scan(ghost f: Forest, ghost edges: seq<Edge>, index: seq<nat>, adj: seq<nat>, node: nat,
              visited0: seq<bool>, next0: seq<nat>, ghost frontier: seq<nat>, parents: array<int>,
              ghost depth0: seq<nat>, ghost started: set<nat>, ghost before: seq<int>, ghost log0: seq<Write>)
    returns (visited: seq<bool>, next: seq<nat>, ghost depth: seq<nat>, ghost log: seq<Write>)
    requires Ready(f, edges, index, adj) && node < |f.words| && parents.Length == |f.words|
    requires Explored(f, multiset(edges), visited0, Elements(frontier) + Elements(next0) + {node},
                      parents[..], depth0, started, before)
    requires Logged(f, before, log0, parents[..], started)
    modifies parents
    ensures Logged(f, before, log, parents[..], started)
    ensures |index| == |f.words| + 1
    ensures Marks(visited, next, log) == Scanned(adj, index[node], index[node + 1], node, Marks(visited0, next0, log0))
    ensures Explored(f, multiset(edges), visited, Elements(frontier) + Elements(next), parents[..], depth, started,
                     before)
    ensures 2 * |Unvisited(visited)| + |next| <= 2 * |Unvisited(visited0)| + |next0|
  {
    hide Ready, Explored, Matches, Unvisited, Elements, Adjacent, Logged, Bulk;
    ghost var E := multiset(edges);
    visited, next, depth, log := visited0, next0, depth0, log0;
    MatchesReady(f, edges, index, adj);
    SegmentBounds(f, edges, index, adj, node);
    Lengths(f, E, visited, Elements(frontier) + Elements(next) + {node}, parents[..], depth, started, before);
    for i := index[node] to index[node + 1]
      invariant |visited| == |depth| == |f.words|
      invariant Explored(f, E, visited, Elements(frontier) + Elements(next) + {node}, parents[..], depth, started,
        before)
      invariant Logged(f, before, log, parents[..], started)
      invariant AllVisited(adj[index[node]..i], visited)
      invariant Scanned(adj, i, index[node + 1], node, Marks(visited, next, log))
             == Scanned(adj, index[node], index[node + 1], node, Marks(visited0, next0, log0))
      invariant 2 * |Unvisited(visited)| + |next| <= 2 * |Unvisited(visited0)| + |next0|
    {
      NeighbourInRange(f, edges, index, adj, node, i);
      var neighbour := adj[i];
      if !visited[neighbour] {
        ghost var pointers := parents[..];
        VisitStep(f, E, visited, frontier, next, parents[..], depth, started, before, node, neighbour);
        LogWrite(f, before, log, parents[..], started, neighbour, node);
        log := log + [Write(neighbour, node)];
        depth := depth[neighbour := depth[node] + 1];
        visited := visited[neighbour := true];
        parents[neighbour] := node;
        next := next + [neighbour];
        assert parents[..] == pointers[neighbour := node];
      }
      assert adj[index[node]..i + 1] == adj[index[node]..i] + [neighbour];
    }
    NowClosed(f, edges, index, adj, node, visited);
    CloseNode(f, E, visited, Elements(frontier) + Elements(next), parents[..], depth, started, before, node);
  }

  lemma VisitStep(f: Forest, E: multiset<Edge>, visited: seq<bool>, frontier: seq<nat>, next: seq<nat>,
                  parents: seq<int>, depth: seq<nat>, started: set<nat>, before: seq<int>, node: nat, w: nat)
    requires Explored(f, E, visited, Elements(frontier) + Elements(next) + {node}, parents, depth, started, before)
    requires Matches(f, E) && w < |f.words| == |visited| && !visited[w] && Adjacent(E, node, w)
    ensures node < |depth| == |parents| == |f.words|
    ensures Explored(f, E, visited[w := true], Elements(frontier) + Elements(next + [w]) + {node},
                     parents[w := node], depth[w := depth[node] + 1], started, before)
    ensures 2 * |Unvisited(visited[w := true])| + |next + [w]| < 2 * |Unvisited(visited)| + |next|
    ensures Root(f, w) in started
  {
    var open := Elements(frontier) + Elements(next) + {node};
    Lengths(f, E, visited, open, parents, depth, started, before);
    IsVisited(f, E, visited, open, parents, depth, started, before, node);
    Discover(f, E, visited, open, parents, depth, started, before, node, w);
    IsVisited(f, E, visited, open, parents, depth, started, before, node);
    VisitShrinks(visited, w);
    AddLast(next, w);
    hide Explored, Matches, Elements;
    assert Elements(frontier) + Elements(next + [w]) + {node} == open + {w};
  }

  lemma AddLast(s: seq<nat>, x: nat)
    ensures Elements(s + [x]) == Elements(s) + {x}
  {}

  lemma Lengths(f: Forest, E: multiset<Edge>, visited: seq<bool>, open: set<nat>, parents: seq<int>,
                depth: seq<nat>, started: set<nat>, before: seq<int>)
    requires Explored(f, E, visited, open, parents, depth, started, before)
    ensures |visited| == |parents| == |depth| == |before| == |f.words|
  {}

  lemma IsVisited(f: Forest, E: multiset<Edge>, visited: seq<bool>, open: set<nat>, parents: seq<int>,
                  depth: seq<nat>, started: set<nat>, before: seq<int>, v: nat)
    requires Explored(f, E, visited, open, parents, depth, started, before)
    ensures v in open ==> v < |visited| && visited[v]
    ensures v < |visited| && visited[v] ==> v < |f.words| && Root(f, v) in started
    ensures v < |visited| && !visited[v] ==> v < |parents| == |before| && parents[v] == before[v]
  {
    if v < |visited| && visited[v] { assert Seen(f, E, visited, parents, depth, started, v); }
  }

  lemma MatchesReady(f: Forest, edges: seq<Edge>, index: seq<nat>, adj: seq<nat>)
    requires Ready(f, edges, index, adj)
    ensures Matches(f, multiset(edges))
  {
    forall e | e in multiset(edges) ensures e.a < |f.words| && e.b < |f.words| { assert e in edges; }
  }

  lemma NeighbourInRange(f: Forest, edges: seq<Edge>, index: seq<nat>, adj: seq<nat>, node: nat, i: nat)
    requires Ready(f, edges, index, adj) && node < |f.words| && |index| == |f.words| + 1
    requires index[node] <= i < index[node + 1]
    ensures i < |adj| && adj[i] < |f.words| && Adjacent(multiset(edges), node, adj[i])
  {
    assert Lists(edges, index, adj, node);
    var s := adj[index[node]..index[node + 1]];
    assert s[i - index[node]] == adj[i];
    SegmentIsAdjacent(|f.words|, edges, index, adj, node, adj[i]);
    MatchesReady(f, edges, index, adj);
  }

  lemma SegmentBounds(f: Forest, edges: seq<Edge>, index: seq<nat>, adj: seq<nat>, node: nat)
    requires Ready(f, edges, index, adj) && node < |f.words|
    ensures |index| == |f.words| + 1 && index[node] <= index[node + 1] <= |adj|
  {
    assert Lists(edges, index, adj, node);
  }

  predicate AllVisited(s: seq<nat>, visited: seq<bool>) {
    forall w :: w in s ==> w < |visited| && visited[w]
  }

  lemma NowClosed(f: Forest, edges: seq<Edge>, index: seq<nat>, adj: seq<nat>, node: nat, visited: seq<bool>)
    requires Ready(f, edges, index, adj) && node < |f.words| && |index| == |f.words| + 1
    requires index[node] <= index[node + 1] <= |adj|
    requires AllVisited(adj[index[node]..index[node + 1]], visited)
    ensures Closed(multiset(edges), visited, node)
  {
    forall w: nat | Adjacent(multiset(edges), node, w) ensures w < |visited| && visited[w] {
      SegmentIsAdjacent(|f.words|, edges, index, adj, node, w);
    }
    forall e | e in multiset(edges)
      ensures e.a == node ==> e.b < |visited| && visited[e.b]
      ensures e.b == node ==> e.a < |visited| && visited[e.a]
    {
      if e.a == node { assert Adjacent(multiset(edges), node, e.b); }
      if e.b == node { assert Adjacent(multiset(edges), node, e.a); }
    }
  }

  lemma CloseNode(f: Forest, E: multiset<Edge>, visited: seq<bool>, open: set<nat>, parents: seq<int>,
                  depth: seq<nat>, started: set<nat>, before: seq<int>, node: nat)
    requires Explored(f, E, visited, open + {node}, parents, depth, started, before) && Closed(E, visited, node)
    ensures Explored(f, E, visited, open, parents, depth, started, before)
  {}

  /** One thread's share of parallel_bfs_from_roots: `mine` are the nodes the loop hands to it, in any order. */
  method SearchThread(ghost f: Forest, ghost edges: seq<Edge>, isRoot: nat -> bool, index: seq<nat>, adj: seq<nat>,
                      mine: seq<nat>, parents: array<int>)
    returns (ghost depth: seq<nat>, ghost log: seq<Write>)
    requires Ready(f, edges, index, adj) && parents.Length == |f.words| && TellsRoots(isRoot, f)
    requires forall i :: 0 <= i < |mine| ==> mine[i] < |f.words|
    requires forall i :: 0 <= i < |mine| && IsRoot(f, mine[i]) ==> parents[mine[i]] == -1
    modifies parents
    ensures |depth| == |f.words|
    ensures forall v :: 0 <= v < |f.words| && Root(f, v) in mine ==> ParentOk(f, multiset(edges), parents[..], depth, v)
    ensures forall v :: 0 <= v < |f.words| && Root(f, v) !in mine ==> parents[v] == old(parents[v])
    ensures parents[..] == Written(old(parents[..]), log)
    ensures forall w :: w in log ==> w.node < |f.words| && Root(f, w.node) in mine
    ensures log == ThreadLog(isRoot, index, adj, |f.words|, mine)
  {
    hide Ready, Explored, Logged, Matches, Unvisited, Written, Searched, ThreadMarks, ParentOk;
    ghost var E, before, started: set<nat> := multiset(edges), parents[..], {};
    log := [];
    var n := parents.Length;
    var visited := seq(n, _ => false);
    depth := seq(n, _ => 0);
    MatchesReady(f, edges, index, adj);
    NothingSearched(f, E, before, isRoot, index, adj);
    for k := 0 to |mine|
      invariant Explored(f, E, visited, {}, parents[..], depth, started, before)
      invariant Logged(f, before, log, parents[..], started)
      invariant started == set i | 0 <= i < k && IsRoot(f, mine[i]) :: mine[i]
      invariant |visited| == n && Marks(visited, [], log) == ThreadMarks(isRoot, index, adj, n, mine[..k])
    {
      var u := mine[k];
      NextSearched(isRoot, index, adj, n, mine, k);
      if isRoot(u) {
        visited, depth, log := SearchFrom(f, edges, index, adj, u, visited, parents, depth, started, before, log);
        started := started + {u};
        Lengths(f, E, visited, {}, parents[..], depth, started, before);
      }
    }
    assert mine[..|mine|] == mine;
    ShareSearched(f, E, visited, parents[..], depth, started, before, log, mine);
  }

  lemma NothingSearched(f: Forest, E: multiset<Edge>, before: seq<int>, isRoot: nat -> bool, index: seq<nat>,
                        adj: seq<nat>)
    requires Matches(f, E) && |before| == |f.words|
    ensures var visited, depth := seq(|f.words|, _ => false), seq(|f.words|, _ => 0);
      && Explored(f, E, visited, {}, before, depth, {}, before) && Logged(f, before, [], before, {})
      && Marks(visited, [], []) == ThreadMarks(isRoot, index, adj, |f.words|, [])
  {}

  lemma NextSearched(isRoot: nat -> bool, index: seq<nat>, adj: seq<nat>, n: nat, mine: seq<nat>, k: nat)
    requires k < |mine|
    ensures var m, u := ThreadMarks(isRoot, index, adj, n, mine[..k]), mine[k];
      ThreadMarks(isRoot, index, adj, n, mine[..k + 1])
        == if isRoot(u) && u < |m.visited| then Searched(index, adj, [u], Marks(m.visited[u := true], [], m.log)) else m
  {
    assert mine[..k + 1][..k] == mine[..k];
  }

  /** What the searches of all roots of a share amount to. */
  lemma ShareSearched(f: Forest, E: multiset<Edge>, visited: seq<bool>, parents: seq<int>, depth: seq<nat>,
                      started: set<nat>, before: seq<int>, log: seq<Write>, mine: seq<nat>)
    requires Explored(f, E, visited, {}, parents, depth, started, before) && Matches(f, E)
    requires Logged(f, before, log, parents, started) && forall i :: 0 <= i < |mine| ==> mine[i] < |f.words|
    requires started == set i | 0 <= i < |mine| && IsRoot(f, mine[i]) :: mine[i]
    ensures |depth| == |parents| == |before| == |f.words| && parents == Written(before, log)
    ensures forall v :: 0 <= v < |f.words| && Root(f, v) in mine ==> ParentOk(f, E, parents, depth, v)
    ensures forall v :: 0 <= v < |f.words| && Root(f, v) !in mine ==> parents[v] == before[v]
    ensures forall w :: w in log ==> w.node < |f.words| && Root(f, w.node) in mine
  {
    hide Explored, Matches, Written, ParentOk;
    Lengths(f, E, visited, {}, parents, depth, started, before);
    forall v | 0 <= v < |f.words| && Root(f, v) in mine ensures ParentOk(f, E, parents, depth, v) {
      var i :| 0 <= i < |mine| && mine[i] == Root(f, v);
      Covered(f, E, visited, parents, depth, started, before, v);
    }
    forall v | 0 <= v < |f.words| && Root(f, v) !in mine ensures parents[v] == before[v] {
      IsVisited(f, E, visited, {}, parents, depth, started, before, v);
    }
  }

  /** The search from one root, level by level. */
  method SearchFrom(ghost f: Forest, ghost edges: seq<Edge>, index: seq<nat>, adj: seq<nat>, u: nat,
                    visited0: seq<bool>,
                    parents: array<int>, ghost depth0: seq<nat>, ghost started: set<nat>, ghost before: seq<int>,
                    ghost log0: seq<Write>)
    returns (visited: seq<bool>, ghost depth: seq<nat>, ghost log: seq<Write>)
    requires Ready(f, edges, index, adj) && u < |f.words| && IsRoot(f, u) && parents.Length == |f.words|
    requires Explored(f, multiset(edges), visited0, {}, parents[..], depth0, started, before) && before[u] == -1
    requires Logged(f, before, log0, parents[..], started)
    modifies parents
    ensures Logged(f, before, log, parents[..], started + {u})
    ensures u < |visited0|
    ensures Marks(visited, [], log) == Searched(index, adj, [u], Marks(visited0[u := true], [], log0))
    ensures Explored(f, multiset(edges), visited, {}, parents[..], depth, started + {u}, before)
  {
    hide Ready, Explored, Unvisited, Matches, Logged, Scanned, Bulk;
    ghost var E := multiset(edges);
    log := log0;
    LogMoreRoots(f, before, log, parents[..], started, u);
    Lengths(f, E, visited0, {}, parents[..], depth0, started, before);
    ghost var all := Searched(index, adj, [u], Marks(visited0[u := true], [], log0));
    StartSearch(f, E, visited0, {}, parents[..], depth0, started, before, u);
    var frontier, next: seq<nat> := [u], [];
    visited, depth := visited0[u := true], depth0[u := 0];
    assert Elements(frontier) + Elements(next) == {} + {u};
    while frontier != []
      invariant next == []
      invariant Searched(index, adj, frontier, Marks(visited, next, log)) == all
      invariant Logged(f, before, log, parents[..], started + {u})
      invariant Explored(f, E, visited, Elements(frontier) + Elements(next), parents[..], depth, started + {u}, before)
      decreases 2 * |Unvisited(visited)| + |frontier| + |next|
    {
      ghost var size := 2 * |Unvisited(visited)| + |frontier| + |next|;
      ghost var first := true;
      while frontier != []
        invariant Searched(index, adj, frontier, Marks(visited, next, log)) == all
        invariant Logged(f, before, log, parents[..], started + {u})
        invariant Explored(f, E, visited, Elements(frontier) + Elements(next), parents[..], depth, started + {u},
          before)
        invariant 2 * |Unvisited(visited)| + |frontier| + |next| <= if first then size else size - 1
        invariant first ==> frontier != []
        decreases 2 * |Unvisited(visited)| + |frontier| + |next|
      {
        var node := frontier[|frontier| - 1];
        ghost var open := Elements(frontier) + Elements(next);
        frontier := frontier[..|frontier| - 1];
        assert Elements(frontier) + Elements(next) + {node} == open;
        Lengths(f, E, visited, open, parents[..], depth, started + {u}, before);
        IsVisited(f, E, visited, open, parents[..], depth, started + {u}, before, node);
        visited, next, depth, log :=
          Scan(f, edges, index, adj, node, visited, next, frontier, parents, depth, started + {u}, before, log);
        first := false;
      }
      ghost var open := Elements(frontier) + Elements(next);
      frontier, next := next, frontier;
      assert Elements(frontier) + Elements(next) == open;
    }
    assert Elements(frontier) + Elements(next) == {};
  }

  /** The test for roots that the searches are given. */
  predicate TellsRoots(isRoot: nat -> bool, f: Forest) {
    forall u: nat :: u < |f.words| ==> (isRoot(u) <==> IsRoot(f, u))
  }

  /** Every node is handed to exactly one thread. */
  ghost predicate Dealt(shares: seq<seq<nat>>, n: nat) {
    && (forall t, i :: 0 <= t < |shares| && 0 <= i < |shares[t]| ==> shares[t][i] < n)
    && (forall u: nat {:trigger Handled(shares, |shares|, u)} :: u < n ==> Handled(shares, |shares|, u))
    && (forall t, v, u :: 0 <= t < v < |shares| && u in shares[t] ==> u !in shares[v])
  }

  ghost predicate Handled(shares: seq<seq<nat>>, k: nat, u: nat) {
    exists t :: 0 <= t < k && t < |shares| && u in shares[t]
  }

  ghost predicate ParentForest(f: Forest, E: multiset<Edge>, parents: seq<int>, depth: seq<nat>) {
    && |parents| == |depth| == |f.words|
    && forall v :: 0 <= v < |f.words| ==> ParentOk(f, E, parents, depth, v)
  }

  // ---------- All threads together ----------

  function Cleared(n: nat): seq<int> { seq(n, _ => -1) }

  /** Every root belongs to exactly one share. */
  ghost predicate RootsDealt(f: Forest, shares: seq<seq<nat>>) {
    && (forall u: nat :: u < |f.words| && IsRoot(f, u) ==> Handled(shares, |shares|, u))
    && (forall t, v, u :: 0 <= t < v < |shares| && u in shares[t] ==> u !in shares[v])
  }

  lemma DealtRoots(f: Forest, shares: seq<seq<nat>>)
    requires Dealt(shares, |f.words|)
    ensures RootsDealt(f, shares)
  {}

  /** The thread wrote only in its own components, and what it wrote there is still there. */
  predicate LogHolds(f: Forest, base: seq<int>, share: seq<nat>, log: seq<Write>, parents: seq<int>) {
    && Shaped(f) && |parents| == |base| == |f.words|
    && (forall w :: w in log ==> w.node < |f.words| && Root(f, w.node) in share)
    && forall v :: 0 <= v < |f.words| && Root(f, v) in share ==> parents[v] == Written(base, log)[v]
  }

  /** Whatever the interleaving of the threads' writes, the array ends up the same. */
  lemma AnyInterleaving(f: Forest, base: seq<int>, shares: seq<seq<nat>>, logs: seq<seq<Write>>, parents: seq<int>,
                        turns: seq<Turn>)
    requires Shaped(f) && RootsDealt(f, shares) && |logs| == |shares| && |parents| == |base| == |f.words|
    requires forall t :: 0 <= t < |shares| ==> LogHolds(f, base, shares[t], logs[t], parents)
    requires Interleaves(turns, logs)
    ensures Written(base, AllWrites(turns)) == parents
  {
    hide Root, Written, AllWrites, WritesOf;
    forall v | 0 <= v < |f.words| ensures Written(base, AllWrites(turns))[v] == parents[v] {
      assert Handled(shares, |shares|, Root(f, v));
      var t :| 0 <= t < |shares| && Root(f, v) in shares[t];
      forall i | 0 <= i < |turns| && turns[i].t != t ensures turns[i].w.node != v {
        WriteOfTurn(turns, i);
        assert LogHolds(f, base, shares[turns[i].t], logs[turns[i].t], parents);
        NotBoth(f, shares, t, turns[i].t, Root(f, v));
      }
      OnlyOwnerWrites(base, turns, t, v);
      assert LogHolds(f, base, shares[t], logs[t], parents);
    }
  }

  lemma NotBoth(f: Forest, shares: seq<seq<nat>>, t: nat, u: nat, r: nat)
    requires RootsDealt(f, shares) && t < |shares| && u < |shares| && t != u && r in shares[t]
    ensures r !in shares[u]
  {}

  /** What each thread writes. */
  function Logs(isRoot: nat -> bool, index: seq<nat>, adj: seq<nat>, n: nat, shares: seq<seq<nat>>): seq<seq<Write>> {
    seq(|shares|, t requires 0 <= t < |shares| => ThreadLog(isRoot, index, adj, n, shares[t]))
  }

  /**
   parallel_bfs_from_roots for any way of dealing the nodes to threads. What a thread writes is a function of its share
   and of what no thread changes; running the searches one after the other gives one result, and every interleaving of
   the threads' writes leaves the same array.
   */
  method ParallelSearch(ghost f: Forest, ghost edges: seq<Edge>, isRoot: nat -> bool, index: seq<nat>, adj: seq<nat>,
                        shares: seq<seq<nat>>, parents: array<int>)
    returns (ghost depth: seq<nat>)
    requires Ready(f, edges, index, adj) && TellsRoots(isRoot, f)
    requires parents.Length == |f.words| && Dealt(shares, |f.words|)
    modifies parents
    ensures ParentForest(f, multiset(edges), parents[..], depth)
    ensures forall turns :: Interleaves(turns, Logs(isRoot, index, adj, |f.words|, shares)) ==>
      Written(Cleared(|f.words|), AllWrites(turns)) == parents[..]
  {
    hide Ready, Matches, Explored, LogHolds, Dealt, ThreadLog;
    ghost var E := multiset(edges);
    for u := 0 to parents.Length
      invariant forall v :: 0 <= v < u ==> parents[v] == -1
    {
      parents[u] := -1;
    }
    depth := seq(|f.words|, _ => 0);
    ghost var n, logs := |f.words|, Logs(isRoot, index, adj, |f.words|, shares);
    MatchesReady(f, edges, index, adj);
    assert Shaped(f) by { MatchesShaped(f, E); }
    for t := 0 to |shares|
      invariant |depth| == n
      invariant forall v :: 0 <= v < n && Handled(shares, t, Root(f, v)) ==> ParentOk(f, E, parents[..], depth, v)
      invariant forall v :: 0 <= v < n && !Handled(shares, t, Root(f, v)) ==> parents[v] == -1
      invariant forall u :: 0 <= u < t ==> LogHolds(f, Cleared(n), shares[u], logs[u], parents[..])
    {
      depth := SearchShare(f, edges, isRoot, index, adj, shares, t, parents, depth);
    }
    forall v | 0 <= v < n ensures ParentOk(f, E, parents[..], depth, v) {
      EveryNodeHandled(shares, n, Root(f, v));
    }
    DealtRoots(f, shares);
    forall turns | Interleaves(turns, logs) ensures Written(Cleared(n), AllWrites(turns)) == parents[..] {
      AnyInterleaving(f, Cleared(n), shares, logs, parents[..], turns);
    }
  }

  lemma EveryNodeHandled(shares: seq<seq<nat>>, n: nat, u: nat)
    requires Dealt(shares, n) && u < n
    ensures Handled(shares, |shares|, u)
  {}

  /** The next thread's searches, after those of the threads before it. */
  method SearchShare(ghost f: Forest, ghost edges: seq<Edge>, isRoot: nat -> bool, index: seq<nat>, adj: seq<nat>,
                     shares: seq<seq<nat>>, t: nat, parents: array<int>, ghost depth0: seq<nat>)
    returns (ghost depth: seq<nat>)
    requires Ready(f, edges, index, adj) && Shaped(f) && TellsRoots(isRoot, f)
    requires parents.Length == |f.words| && Dealt(shares, |f.words|) && t < |shares| && |depth0| == |f.words|
    requires forall v :: 0 <= v < |f.words| && Handled(shares, t, Root(f, v)) ==>
      ParentOk(f, multiset(edges), parents[..], depth0, v)
    requires forall v :: 0 <= v < |f.words| && !Handled(shares, t, Root(f, v)) ==> parents[v] == -1
    requires forall u :: 0 <= u < t ==>
      LogHolds(f, Cleared(|f.words|), shares[u], ThreadLog(isRoot, index, adj, |f.words|, shares[u]), parents[..])
    modifies parents
    ensures |depth| == |f.words|
    ensures forall v :: 0 <= v < |f.words| && Handled(shares, t + 1, Root(f, v)) ==>
      ParentOk(f, multiset(edges), parents[..], depth, v)
    ensures forall v :: 0 <= v < |f.words| && !Handled(shares, t + 1, Root(f, v)) ==> parents[v] == -1
    ensures forall u :: 0 <= u < t + 1 ==>
      LogHolds(f, Cleared(|f.words|), shares[u], ThreadLog(isRoot, index, adj, |f.words|, shares[u]), parents[..])
  {
    hide Ready, Matches, LogHolds, ThreadLog;
    ghost var E := multiset(edges);
    MatchesReady(f, edges, index, adj);
    ghost var before, levels := parents[..], depth0;
    forall i | 0 <= i < |shares[t]| && IsRoot(f, shares[t][i]) ensures parents[shares[t][i]] == -1 {
      Untouched(f, E, shares, t, i, before, depth0);
    }
    ghost var mine, log := SearchThread(f, edges, isRoot, index, adj, shares[t], parents);
    depth := seq(|f.words|, v requires 0 <= v < |f.words| => if Root(f, v) in shares[t] then mine[v] else levels[v]);
    forall v | 0 <= v < |f.words| && Handled(shares, t + 1, Root(f, v)) ensures ParentOk(f, E, parents[..], depth, v) {
      MergeLevels(f, E, shares, t, before, levels, parents[..], mine, depth, v);
    }
    OwnLogHolds(f, shares, t, log, before, parents[..]);
    forall u | 0 <= u < t
      ensures LogHolds(f, Cleared(|f.words|), shares[u], ThreadLog(isRoot, index, adj, |f.words|, shares[u]),
                       parents[..])
    {
      OtherLogHolds(f, Cleared(|f.words|), shares[t], shares[u], ThreadLog(isRoot, index, adj, |f.words|, shares[u]),
                    before, parents[..]);
    }
  }

  lemma OwnLogHolds(f: Forest, shares: seq<seq<nat>>, t: nat, log: seq<Write>, before: seq<int>, parents: seq<int>)
    requires Shaped(f) && Dealt(shares, |f.words|) && t < |shares| && |before| == |f.words|
    requires forall v :: 0 <= v < |f.words| && !Handled(shares, t, Root(f, v)) ==> before[v] == -1
    requires parents == Written(before, log)
    requires forall w :: w in log ==> w.node < |f.words| && Root(f, w.node) in shares[t]
    ensures LogHolds(f, Cleared(|f.words|), shares[t], log, parents)
  {
    hide Written, Root;
    forall v | 0 <= v < |f.words| && Root(f, v) in shares[t]
      ensures parents[v] == Written(Cleared(|f.words|), log)[v]
    {
      assert !Handled(shares, t, Root(f, v));
      WrittenAt(before, Cleared(|f.words|), log, v);
    }
  }

  /** Writes in the components of `other` do not disturb those of a different share. */
  lemma OtherLogHolds(f: Forest, base: seq<int>, other: seq<nat>, share: seq<nat>, log: seq<Write>, before: seq<int>,
                      parents: seq<int>)
    requires LogHolds(f, base, share, log, before) && forall r :: r in share ==> r !in other
    requires |parents| == |f.words|
    requires forall v :: 0 <= v < |f.words| && Root(f, v) !in other ==> parents[v] == before[v]
    ensures LogHolds(f, base, share, log, parents)
  {
    hide Root, Written;
  }

  lemma MatchesShaped(f: Forest, E: multiset<Edge>)
    requires Matches(f, E)
    ensures Shaped(f)
  {}

  /** A node handed out only now still has no parent: its root's component was not handled, or it is that root. */
  lemma Untouched(f: Forest, E: multiset<Edge>, shares: seq<seq<nat>>, t: nat, i: nat, parents: seq<int>,
                  depth: seq<nat>)
    requires Shaped(f) && Dealt(shares, |f.words|) && t < |shares| && i < |shares[t]|
    requires |parents| == |depth| == |f.words|
    requires forall v :: 0 <= v < |f.words| && !Handled(shares, t, Root(f, v)) ==> parents[v] == -1
    requires forall v :: 0 <= v < |f.words| && Handled(shares, t, Root(f, v)) ==> ParentOk(f, E, parents, depth, v)
    ensures IsRoot(f, shares[t][i]) ==> parents[shares[t][i]] == -1
  {}

  lemma MergeLevels(f: Forest, E: multiset<Edge>, shares: seq<seq<nat>>, t: nat, before: seq<int>, levels: seq<nat>,
                    parents: seq<int>, mine: seq<nat>, depth: seq<nat>, v: nat)
    requires Matches(f, E) && t < |shares| && v < |f.words|
    requires |before| == |levels| == |parents| == |mine| == |depth| == |f.words|
    requires forall u :: 0 <= u < |f.words| ==> depth[u] == if Root(f, u) in shares[t] then mine[u] else levels[u]
    requires forall u :: 0 <= u < |f.words| && Root(f, u) !in shares[t] ==> parents[u] == before[u]
    requires Root(f, v) in shares[t] ==> ParentOk(f, E, parents, mine, v)
    requires Root(f, v) !in shares[t] ==> ParentOk(f, E, before, levels, v)
    ensures ParentOk(f, E, parents, depth, v)
  {
    if !IsRoot(f, v) {
      var p := if Root(f, v) in shares[t] then parents[v] else before[v];
      ConnStep(E, p, v);
      assert Same(f, p, v);
    }
  }

  /** The node reached from v by following k parent pointers. */
  function Follow(parents: seq<int>, v: int, k: nat): int
    decreases k
  {
    if k == 0 || v < 0 || v >= |parents| then v else Follow(parents, parents[v], k - 1)
  }

  /** Every parent chain ends, after as many steps as the node's level, at its component's root. */
  lemma {:induction false} ChainEndsAtRoot(f: Forest, E: multiset<Edge>, parents: seq<int>, depth: seq<nat>, v: nat)
    requires Matches(f, E) && ParentForest(f, E, parents, depth) && v < |f.words|
    ensures Follow(parents, v, depth[v]) == Root(f, v)
    decreases depth[v]
  {
    assert ParentOk(f, E, parents, depth, v);
    if !IsRoot(f, v) {
      var p := parents[v];
      ConnStep(E, p, v);
      assert Same(f, p, v);
      ChainEndsAtRoot(f, E, parents, depth, p);
    }
  }

  // ---------- What the parents mean for the given graph ----------

  /** What a call of addEdges promises about the parent array, for all edges given so far. */
  ghost predicate Rooted(n: nat, given: multiset<Edge>, f: Forest, parents: seq<int>, depth: seq<nat>) {
    && Shaped(f) && |f.words| == |parents| == |depth| == n
    && (forall v :: 0 <= v < n ==> (parents[v] == -1 <==> IsRoot(f, v)))
    && (forall v :: 0 <= v < n && parents[v] != -1 ==> 0 <= parents[v] < n && Adjacent(given, parents[v], v))
    && (forall v :: 0 <= v < n ==> Follow(parents, v, depth[v]) == Root(f, v))
    && (forall x, y :: 0 <= x < n && 0 <= y < n ==>
          (Follow(parents, x, depth[x]) == Follow(parents, y, depth[y]) <==> Conn(given, x, y)))
  }

  lemma ReadyWhenSpanning(f: Forest, kept: seq<Edge>, given: multiset<Edge>, index: seq<nat>, adj: seq<nat>)
    requires SpansGiven(f, kept, given) && IsCsr(|f.words|, kept, index, adj)
    ensures Ready(f, kept, index, adj) && Acyclic(multiset(kept))
  {
    hide Acyclic, Conn, Root;
    KeptBelow(f, kept, given);
  }

  lemma KeptBelow(f: Forest, kept: seq<Edge>, given: multiset<Edge>)
    requires SpansGiven(f, kept, given)
    ensures EdgesBelow(kept, |f.words|)
  {
    hide Acyclic, Conn, Root;
    forall i | 0 <= i < |kept| ensures kept[i].a < |f.words| && kept[i].b < |f.words| {
      assert kept[i] in multiset(kept);
    }
  }

  lemma ParentsMean(f: Forest, kept: seq<Edge>, given: multiset<Edge>, parents: seq<int>, depth: seq<nat>)
    requires SpansGiven(f, kept, given) && ParentForest(f, multiset(kept), parents, depth)
    ensures Rooted(|f.words|, given, f, parents, depth)
  {
    SpansRepresents(f, kept, given);
    MatchesRepresented(f, kept);
    hide Conn, Follow, Root, SpansGiven, Represents, Matches;
    MatchesShaped(f, multiset(kept));
    forall v | 0 <= v < |f.words|
      ensures parents[v] == -1 <==> IsRoot(f, v)
      ensures parents[v] != -1 ==> 0 <= parents[v] < |f.words| && Adjacent(given, parents[v], v)
      ensures Follow(parents, v, depth[v]) == Root(f, v)
    {
      assert ParentOk(f, multiset(kept), parents, depth, v);
      ChainEndsAtRoot(f, multiset(kept), parents, depth, v);
    }
    forall x, y | 0 <= x < |f.words| && 0 <= y < |f.words|
      ensures Follow(parents, x, depth[x]) == Follow(parents, y, depth[y]) <==> Conn(given, x, y)
    {
      ComponentsAreGiven(f, kept, given, x, y);
    }
  }

  lemma MatchesRepresented(f: Forest, kept: seq<Edge>)
    requires Represents(f, kept)
    ensures Matches(f, multiset(kept))
  {}
}
