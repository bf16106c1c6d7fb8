/** addEdges from the racing links to the parent array a caller reads, for every schedule of all three phases. */
module Pipeline {
  import opened Graphs
  import opened Forest
  import opened Spanning
  import UniteMachine
  import opened UniteRuns
  import opened Csr
  import CsrParallel
  import ReferenceGraph
  import opened Writes
  import opened Bfs
  import Dfs

  function KeptEdges(s: UniteMachine.State): seq<Edge>
    requires s.num <= |s.buffer|
  {
    s.buffer[..s.num]
  }

  function RootTest(f: Forest): nat -> bool { (u: nat) => u < |f.words| && f.words[u] < 0 }

  /** What a call leaves is what the sequential union-find promises. */
  lemma KeptSpans(s: UniteMachine.State, n: nat, given: multiset<Edge>)
    requires Spanned(s, n, given)
    ensures s.num <= |s.buffer| && |s.f.words| == n && 2 * |KeptEdges(s)| <= 2 * n
    ensures SpansGiven(s.f, KeptEdges(s), given)
  {
    hide Root, Conn, Acyclic;
    forall e | e in multiset(KeptEdges(s)) ensures e.a < n && e.b < n { assert e in Kept(s); }
    forall e | e in KeptEdges(s) ensures e in given { assert e in Kept(s); }
    forall e | e in given ensures OnNodes(e, n) && Same(s.f, e.a, e.b) { ConnStep(given, e.a, e.b); }
  }

  /** Whatever the interleaving of the searches' writes, they leave these parents. */
  ghost predicate SearchesAgree(s: UniteMachine.State, n: nat, room: seq<nat>, ops: seq<CsrParallel.Op>,
                                shares: seq<seq<nat>>, parents: seq<int>)
  {
    && s.num <= |s.buffer|
    && var r := CsrParallel.Run(KeptEdges(s), n, room, ops);
       forall turns :: Interleaves(turns, Logs(RootTest(s.f), r.index, r.adj, n, shares)) ==>
         Written(Cleared(n), AllWrites(turns)) == parents
  }

  /**
   The rest of a call once all edges were offered: the parallel adjacency build under any interleaving `ops`, into a
   buffer of 2n slots holding anything, then the searches under any dealing of the roots and any interleaving of their
   writes. `life` is any number of earlier calls and this one, under any schedules.
   */
  method FinishCall(life: Life, room: seq<nat>, ops: seq<CsrParallel.Op>, shares: seq<seq<nat>>, parents: array<int>)
    returns (ghost depth: seq<nat>)
    requires Proper(life) && UniteRuns.Completed(StateOf(life))
    requires |room| == 2 * Size(life) && parents.Length == Size(life) && Dealt(shares, Size(life))
    requires StateOf(life).num <= |StateOf(life).buffer| ==>
      CsrParallel.Completed(KeptEdges(StateOf(life)), CsrParallel.Run(KeptEdges(StateOf(life)), Size(life), room, ops))
    modifies parents
    ensures Rooted(Size(life), Given(life), StateOf(life).f, parents[..], depth)
    ensures SearchesAgree(StateOf(life), Size(life), room, ops, shares, parents[..])
  {
    hide Spanned, Rooted, IsCsr, Ready, ParentForest, Proper, StateOf, UniteRuns.Completed, Dealt, SpansGiven,
         CsrParallel.Run, CsrParallel.Completed, Logs;
    var s, n := StateOf(life), Size(life);
    SpanningForest(life);
    KeptSpans(s, n, Given(life));
    var edges := KeptEdges(s);
    KeptBelow(s.f, edges, Given(life));
    ParallelBuildIsCsr(edges, n, room, ops);
    var r := CsrParallel.Run(edges, n, room, ops);
    ReadyWhenSpanning(s.f, edges, Given(life), r.index, r.adj);
    depth := ParallelSearch(s.f, edges, RootTest(s.f), r.index, r.adj, shares, parents);
    ParentsMean(s.f, edges, Given(life), parents[..], depth);
  }

  lemma ParallelBuildIsCsr(edges: seq<Edge>, n: nat, room: seq<nat>, ops: seq<CsrParallel.Op>)
    requires EdgesBelow(edges, n) && 2 * |edges| <= |room|
    requires CsrParallel.Completed(edges, CsrParallel.Run(edges, n, room, ops))
    ensures IsCsr(n, edges, CsrParallel.Run(edges, n, room, ops).index, CsrParallel.Run(edges, n, room, ops).adj)
  {
    CsrParallel.ParallelBuild(edges, n, room, ops);
  }

  /**
   The reference solution's rest of a call, whatever union-find produced the forest f and the kept edges: the graph
   built under any interleaving `ops`, then the searches without visited marks, under any interleaving of their writes.
   */
  method FinishReference(ghost f: Forest, isRoot: nat -> bool, kept: seq<Edge>, ghost given: multiset<Edge>,
                         room: seq<nat>, ops: seq<CsrParallel.Op>, parents: array<int>)
    returns (ghost depth: seq<nat>, ghost roots: seq<nat>, ghost logs: seq<seq<Write>>)
    requires SpansGiven(f, kept, given) && TellsRoots(isRoot, f)
    requires parents.Length == |f.words| && |room| == 2 * |kept|
    requires ReferenceGraph.Built(kept, ReferenceGraph.Build(kept, |f.words|, room, ops))
    modifies parents
    ensures Rooted(|f.words|, given, f, parents[..], depth)
    ensures Dfs.AreRoots(f, roots) && |logs| == |roots|
    ensures var g := ReferenceGraph.Build(kept, |f.words|, room, ops);
      forall k :: 0 <= k < |roots| ==> Dfs.IsLog(g.index, g.adj, roots[k], logs[k])
    ensures forall turns :: Interleaves(turns, logs) ==> Written(old(parents[..]), AllWrites(turns)) == parents[..]
  {
    hide Rooted, IsCsr, Ready, ParentForest, SpansGiven, ReferenceGraph.Build, ReferenceGraph.Built, Dfs.IsLog;
    var n := parents.Length;
    KeptBelow(f, kept, given);
    ReferenceGraph.ReferenceBuild(kept, n, room, ops);
    var g := ReferenceGraph.Build(kept, n, room, ops);
    ReadyWhenSpanning(f, kept, given, g.index, g.adj);
    depth, roots, logs := Dfs.RebuildParents(f, kept, isRoot, g.index, g.adj, parents);
    ParentsMean(f, kept, given, parents[..], depth);
  }

  /**
   The racing threads refine the sequential union-find: fed the same edges, whatever their order and whatever the
   schedules, the components agree and equally many edges are kept.
   */
  lemma AgreesWithSequential(life: Life, g: Forest, kept: seq<Edge>)
    requires Proper(life) && UniteRuns.Completed(StateOf(life))
    requires SpansGiven(g, kept, Given(life)) && |g.words| == Size(life)
    ensures var s := StateOf(life);
      && s.num == |kept| && Shaped(s.f) && Shaped(g) && |s.f.words| == Size(life)
      && (forall x, y :: 0 <= x < Size(life) && 0 <= y < Size(life) ==> (Same(s.f, x, y) <==> Same(g, x, y)))
  {
    hide StateOf, Proper, UniteRuns.Completed, Root, Conn, Acyclic, SpansGiven, Represents, Spanned;
    var s := StateOf(life);
    SpanningForest(life);
    KeptSpans(s, Size(life), Given(life));
    SpansAsGiven(s.f, KeptEdges(s), Given(life));
    SpansAsGiven(g, kept, Given(life));
    SameGivenSameResult(s.f, KeptEdges(s), g, kept, Given(life));
  }

  lemma SpansAsGiven(g: Forest, kept: seq<Edge>, given: multiset<Edge>)
    requires SpansGiven(g, kept, given)
    ensures Represents(g, kept) && Shaped(g)
    ensures forall x, y :: 0 <= x < |g.words| && 0 <= y < |g.words| ==> (Same(g, x, y) <==> Conn(given, x, y))
  {
    hide Represents, Root, Conn;
    ShapedGiven(g, kept, given);
    forall x, y | 0 <= x < |g.words| && 0 <= y < |g.words| ensures Same(g, x, y) <==> Conn(given, x, y) {
      ComponentsAreGiven(g, kept, given, x, y);
    }
  }
}
