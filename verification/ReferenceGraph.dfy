/**
 The reference solution's adjacency array, built by many threads: inclusive prefix sums leave the end of every segment
 in the index, and every half-edge then takes the slot before the one taken last. The build mirrors the one of
 CsrParallel step by step, which is how it is proved.
 */
module ReferenceGraph {
  import opened Sets
  import opened Counting
  import opened Graphs
  import opened Csr
  import opened CsrParallel

  datatype Graph = Graph(
    phase: Phase, index: seq<nat>, adj: seq<nat>,
    counted: set<nat>,        // half-edges whose fetch_add has happened
    slot: map<nat, nat>,      // the slot below what the fetch_sub of a half-edge returned
    written: set<nat>)        // half-edges whose entry is stored

  predicate Ready(edges: seq<Edge>, g: Graph, op: Op) {
    match op
    case Count(h) => g.phase.Counting? && h < 2 * |edges| && h !in g.counted && Src(edges, h) + 1 < |g.index|
    case Prefix => g.phase.Counting? && g.index != [] && forall h :: 0 <= h < 2 * |edges| ==> h in g.counted
    case Fetch(h) =>
      && g.phase.Filling? && h < 2 * |edges| && h !in g.slot && Src(edges, h) + 1 < |g.index|
      && g.index[Src(edges, h)] > 0
    case Write(h) => g.phase.Filling? && h < 2 * |edges| && h in g.slot && h !in g.written && g.slot[h] < |g.adj|
  }

  /** The degrees, one entry per node, become the ends of the segments; the last entry becomes the total. */
  function Ends(index: seq<nat>): (ends: seq<nat>)
    requires index != []
    ensures |ends| == |index|
  {
    var sums := Sums(index[..|index| - 1]);
    sums + [if sums == [] then 0 else sums[|sums| - 1]]
  }

  function Do(edges: seq<Edge>, g: Graph, op: Op): Graph
    requires Ready(edges, g, op)
  {
    match op
    case Count(h) =>
      var u := Src(edges, h);
      g.(index := g.index[u := g.index[u] + 1], counted := g.counted + {h})
    case Prefix => g.(phase := Filling, index := Ends(g.index))
    case Fetch(h) =>
      var u := Src(edges, h);
      g.(index := g.index[u := g.index[u] - 1], slot := g.slot[h := g.index[u] - 1])
    case Write(h) => g.(adj := g.adj[g.slot[h] := Dst(edges, h)], written := g.written + {h})
  }

  function Build(edges: seq<Edge>, n: nat, room: seq<nat>, ops: seq<Op>): Graph {
    if ops == [] then Graph(Phase.Counting, seq(n + 1, _ => 0), room, {}, map[], {})
    else
      var last := |ops| - 1;
      var g := Build(edges, n, room, ops[..last]);
      if Ready(edges, g, ops[last]) then Do(edges, g, ops[last]) else g
  }

  predicate Built(edges: seq<Edge>, g: Graph) {
    g.phase.Filling? && forall h :: 0 <= h < 2 * |edges| ==> h in g.written
  }

  // ---------- The mirror ----------

  /** Slot j of a segment seen from the other end. */
  predicate MirrorSlots(edges: seq<Edge>, u: nat, i: nat, j: nat) {
    i + j + 1 == Start(edges, u) + Start(edges, u + 1)
  }

  predicate CountingMirror(n: nat, s: State, g: Graph) {
    && |g.index| == n + 1 && |s.counter| == n + 1 && s.counter[0] == 0 && g.index[n] == 0
    && (forall u {:trigger g.index[u]} :: 0 <= u < n ==> g.index[u] == s.counter[u + 1])
    && g.slot == map[] && g.written == {} && s.slot == map[] && s.written == {}
  }

  predicate SlotMirror(edges: seq<Edge>, s: State, g: Graph, h: nat)
    requires h in s.slot && h in g.slot
  {
    && h < 2 * |edges| && MirrorSlots(edges, Src(edges, h), s.slot[h], g.slot[h])
    && (h in g.written ==> g.slot[h] < |g.adj| && g.adj[g.slot[h]] == Dst(edges, h))
  }

  predicate FillingMirror(edges: seq<Edge>, n: nat, s: State, g: Graph) {
    && |g.index| == n + 1 && |s.counter| == n + 1 && g.index[n] == Start(edges, n)
    && (forall u {:trigger g.index[u]} :: 0 <= u < n ==>
          g.index[u] + s.counter[u] == Start(edges, u) + Start(edges, u + 1))
    && g.slot.Keys == s.slot.Keys && g.written == s.written
    && (forall h :: h in s.slot ==> SlotMirror(edges, s, g, h))
  }

  predicate Mirror(edges: seq<Edge>, n: nat, s: State, g: Graph) {
    && g.phase == s.phase && g.counted == s.counted && |g.adj| == |s.adj|
    && if s.phase.Counting? then CountingMirror(n, s, g) else FillingMirror(edges, n, s, g)
  }

  /** Corresponding states allow the same operations. */
  lemma SameOps(edges: seq<Edge>, n: nat, s: State, g: Graph, op: Op)
    requires Inv(edges, n, s) && Mirror(edges, n, s, g)
    ensures Enabled(edges, n, s, op) <==> Ready(edges, g, op)
  {
    hide Start;
    match op
    case Count(h) => if h < 2 * |edges| { SrcBelow(edges, n, h); }
    case Prefix =>
    case Fetch(h) =>
      if s.phase.Filling? && h < 2 * |edges| && h !in s.slot {
        SrcBelow(edges, n, h);
        RoomInSegment(edges, n, s, h, Src(edges, h));
      }
    case Write(h) =>
      if s.phase.Filling? && h in s.slot { MirroredSlot(edges, n, s, g, h); }
  }

  lemma MirroredSlot(edges: seq<Edge>, n: nat, s: State, g: Graph, h: nat)
    requires Inv(edges, n, s) && Mirror(edges, n, s, g) && s.phase.Filling? && h in s.slot
    ensures h in g.slot && h < 2 * |edges| && Src(edges, h) < n
    ensures Start(edges, Src(edges, h)) <= g.slot[h] < Start(edges, Src(edges, h) + 1) <= 2 * |edges| <= |g.adj|
    ensures s.slot[h] < |s.adj| && s.slot[h] < |s.writes|
  {
    hide Start;
    SlotInSegment(edges, n, s, h);
    assert SlotMirror(edges, s, g, h);
    StartMonotone(edges, Src(edges, h) + 1, n);
    StartTotal(edges, n);
  }

  lemma {:induction false} SumsShift(c: seq<nat>)
    ensures Sums([0] + c) == [0] + Sums(c)
  {
    if c != [] {
      var last := |c| - 1;
      SumsShift(c[..last]);
      assert ([0] + c)[..|c|] == [0] + c[..last];
    } else {
      assert [0] + c == [0] && [0][..0] == [];
    }
  }

  lemma PrefixMirrors(edges: seq<Edge>, n: nat, s: State, g: Graph)
    requires Inv(edges, n, s) && Mirror(edges, n, s, g) && Enabled(edges, n, s, Prefix)
    ensures Ready(edges, g, Prefix) && Mirror(edges, n, CsrParallel.Do(edges, n, s, Prefix), Do(edges, g, Prefix))
  {
    hide Start;
    SameOps(edges, n, s, g, Prefix);
    PrefixStep(edges, n, s);
    var s', g' := CsrParallel.Do(edges, n, s, Prefix), Do(edges, g, Prefix);
    assert s.counter == [0] + g.index[..n];
    SumsShift(g.index[..n]);
    forall u | 0 <= u <= n ensures s'.index[u] == Start(edges, u) {}
    forall u | 0 <= u < n ensures g'.index[u] + s'.counter[u] == Start(edges, u) + Start(edges, u + 1) {
      assert g'.index[u] == s'.counter[u + 1] == s'.index[u + 1];
      assert s'.counter[u] == s'.index[u];
    }
    assert g'.index[n] == s'.index[n];
  }

  lemma FetchMirrors(edges: seq<Edge>, n: nat, s: State, g: Graph, h: nat)
    requires Inv(edges, n, s) && Mirror(edges, n, s, g) && Enabled(edges, n, s, Fetch(h))
    ensures Ready(edges, g, Fetch(h)) && Mirror(edges, n, CsrParallel.Do(edges, n, s, Fetch(h)), Do(edges, g, Fetch(h)))
  {
    hide Start, Inv;
    SameOps(edges, n, s, g, Fetch(h));
    var s', g' := CsrParallel.Do(edges, n, s, Fetch(h)), Do(edges, g, Fetch(h));
    forall i | i in s'.slot ensures SlotMirror(edges, s', g', i) {
      if i != h {
        assert SlotMirror(edges, s, g, i);
      } else {
        assert h !in g.written by { FetchedLater(edges, n, s, h); }
      }
    }
  }

  lemma FetchedLater(edges: seq<Edge>, n: nat, s: State, h: nat)
    requires Inv(edges, n, s) && s.phase.Filling? && h !in s.slot
    ensures h !in s.written
  {}

  lemma WriteMirrors(edges: seq<Edge>, n: nat, s: State, g: Graph, h: nat)
    requires Inv(edges, n, s) && Mirror(edges, n, s, g) && Enabled(edges, n, s, Write(h))
    ensures Ready(edges, g, Write(h)) && Mirror(edges, n, CsrParallel.Do(edges, n, s, Write(h)), Do(edges, g, Write(h)))
  {
    hide Start, Inv;
    SameOps(edges, n, s, g, Write(h));
    var s', g' := CsrParallel.Do(edges, n, s, Write(h)), Do(edges, g, Write(h));
    forall i | i in s'.slot ensures SlotMirror(edges, s', g', i) {
      assert SlotMirror(edges, s, g, i);
      if i != h { MirrorsDiffer(edges, n, s, g, i, h); }
    }
  }

  lemma MirrorsDiffer(edges: seq<Edge>, n: nat, s: State, g: Graph, i: nat, h: nat)
    requires Inv(edges, n, s) && Mirror(edges, n, s, g) && s.phase.Filling? && i in s.slot && h in s.slot && i != h
    ensures i in g.slot && h in g.slot && g.slot[i] != g.slot[h]
  {
    hide Start, Inv;
    SlotsDiffer(edges, n, s, i, h);
    MirroredSlot(edges, n, s, g, i);
    MirroredSlot(edges, n, s, g, h);
    assert SlotMirror(edges, s, g, i) && SlotMirror(edges, s, g, h);
    var u, v := Src(edges, i), Src(edges, h);
    if u < v { StartMonotone(edges, u + 1, v); }
    if v < u { StartMonotone(edges, v + 1, u); }
  }

  lemma StepMirrors(edges: seq<Edge>, n: nat, s: State, g: Graph, op: Op)
    requires Inv(edges, n, s) && Mirror(edges, n, s, g) && Enabled(edges, n, s, op)
    ensures Ready(edges, g, op) && Mirror(edges, n, CsrParallel.Do(edges, n, s, op), Do(edges, g, op))
  {
    match op
    case Count(h) =>
      SrcBelow(edges, n, h);
      hide Start;
      SameOps(edges, n, s, g, op);
    case Prefix => PrefixMirrors(edges, n, s, g);
    case Fetch(h) => FetchMirrors(edges, n, s, g, h);
    case Write(h) => WriteMirrors(edges, n, s, g, h);
  }

  lemma {:induction false} BuildMirrors(edges: seq<Edge>, n: nat, room: seq<nat>, ops: seq<Op>)
    requires EdgesBelow(edges, n) && 2 * |edges| <= |room|
    ensures Inv(edges, n, Run(edges, n, room, ops))
    ensures Mirror(edges, n, Run(edges, n, room, ops), Build(edges, n, room, ops))
  {
    RunInv(edges, n, room, ops);
    if ops != [] {
      hide Inv, Mirror, Enabled, Ready, CsrParallel.Do, Do;
      var last := |ops| - 1;
      BuildMirrors(edges, n, room, ops[..last]);
      var s, g, op := Run(edges, n, room, ops[..last]), Build(edges, n, room, ops[..last]), ops[last];
      SameOps(edges, n, s, g, op);
      if Enabled(edges, n, s, op) { StepMirrors(edges, n, s, g, op); }
    }
  }

  // ---------- The finished array ----------

  lemma {:induction false} SameBackwards(s: seq<nat>, t: seq<nat>)
    requires |s| == |t| && forall k :: 0 <= k < |s| ==> t[k] == s[|s| - 1 - k]
    ensures multiset(t) == multiset(s)
  {
    if s != [] {
      var last := |s| - 1;
      SameBackwards(s[..last], t[1..]);
      assert s == s[..last] + [s[last]];
      assert t == [t[0]] + t[1..];
    }
  }

  /** The j-th entry of a segment of one array is the j-th from the end in the other. */
  lemma EntryMirrors(edges: seq<Edge>, n: nat, s: State, g: Graph, u: nat, j: nat)
    requires Inv(edges, n, s) && Mirror(edges, n, s, g) && Built(edges, g) && u < n
    requires Start(edges, u) + j < Start(edges, u + 1)
    ensures Start(edges, u + 1) <= |s.adj| == |g.adj|
    ensures g.adj[Start(edges, u + 1) - 1 - j] == s.adj[Start(edges, u) + j]
  {
    hide Start, Neighbours, Degree, Mirror, Inv, Built, SlotMirror, OrderOk;
    IsCompleted(edges, n, s, g);
    AllTaken(edges, n, s, u);
    var h := EntryOf(edges, n, s, u, j);
    EntryIn(edges, n, s, g, h);
  }

  lemma EntryOf(edges: seq<Edge>, n: nat, s: State, u: nat, j: nat) returns (h: nat)
    requires Inv(edges, n, s) && Completed(edges, s) && u < n && u < |s.order| && j < |s.order[u]|
    ensures 2 * |edges| <= |s.adj| && h < 2 * |edges| && h in s.slot && s.slot[h] == Start(edges, u) + j < |s.adj|
    ensures Src(edges, h) == u && s.adj[s.slot[h]] == Dst(edges, h) && Start(edges, u + 1) <= |s.adj|
  {
    hide Start, Neighbours, Degree;
    StartMonotone(edges, u + 1, n);
    StartTotal(edges, n);
    assert OrderOk(edges, s, u);
    h := s.order[u][j];
    assert SlotOk(edges, n, s, h);
  }

  lemma EntryIn(edges: seq<Edge>, n: nat, s: State, g: Graph, h: nat)
    requires Inv(edges, n, s) && Mirror(edges, n, s, g) && Built(edges, g) && h < 2 * |edges| && h in s.slot
    ensures h in g.slot && MirrorSlots(edges, Src(edges, h), s.slot[h], g.slot[h])
    ensures g.slot[h] < |g.adj| && g.adj[g.slot[h]] == Dst(edges, h)
  {
    hide Start;
    assert SlotMirror(edges, s, g, h);
  }

  lemma EndsReached(edges: seq<Edge>, n: nat, s: State, g: Graph, u: nat)
    requires Inv(edges, n, s) && Mirror(edges, n, s, g) && Built(edges, g) && u <= n
    ensures |g.index| == |s.index| == n + 1 && g.index[u] == Start(edges, u) == s.index[u]
  {
    if u < n { AllTaken(edges, n, s, u); }
    hide Start;
  }

  /** A segment of the finished array is the mirrored one backwards. */
  lemma SegmentMirrors(edges: seq<Edge>, n: nat, s: State, g: Graph, u: nat)
    requires Inv(edges, n, s) && Mirror(edges, n, s, g) && Built(edges, g) && u < n
    ensures |g.index| == n + 1 && g.index[u] == Start(edges, u) && Lists(edges, g.index, g.adj, u)
  {
    hide Start, Neighbours, Mirror, Inv, Built;
    IsCompleted(edges, n, s, g);
    SegmentComplete(edges, n, s, u);
    EndsReached(edges, n, s, g, u);
    EndsReached(edges, n, s, g, u + 1);
    var a, b := Start(edges, u), Start(edges, u + 1);
    var x, y := s.adj[a..b], g.adj[a..b];
    forall k | 0 <= k < |x| ensures y[k] == x[|x| - 1 - k] { EntryMirrors(edges, n, s, g, u, |x| - 1 - k); }
    SameBackwards(x, y);
  }

  lemma IsCompleted(edges: seq<Edge>, n: nat, s: State, g: Graph)
    requires Mirror(edges, n, s, g) && Built(edges, g)
    ensures Completed(edges, s) && |g.adj| == |s.adj|
  {}

  /** All slots of a segment have been taken. */
  lemma AllTaken(edges: seq<Edge>, n: nat, s: State, u: nat)
    requires Inv(edges, n, s) && Completed(edges, s) && u < n
    ensures u < |s.counter| && u < |s.order|
    ensures s.counter[u] == Start(edges, u + 1) && |s.order[u]| == Start(edges, u + 1) - Start(edges, u)
  {
    hide Neighbours, Degree, HalfEdges, Start;
    var o: seq<nat>, half: seq<nat> := s.order[u], HalfEdges(edges, u);
    assert OrderOk(edges, s, u);
    HalfEdgesMirror(edges, u);
    HalfEdgesDistinct(edges, u);
    OrderFits(edges, n, s, u);
    forall h | h in half ensures h in o {
      HalfEdgesIn(edges, u, h);
      assert h in s.slot;
      assert SlotOk(edges, n, s, h);
    }
    DistinctAmong(half, o);
    StartNext(edges, u);
    DegreeIsLength(edges, u);
  }

  /** However the threads interleave, the finished graph is an adjacency array of the edges. */
  lemma ReferenceBuild(edges: seq<Edge>, n: nat, room: seq<nat>, ops: seq<Op>)
    requires EdgesBelow(edges, n) && 2 * |edges| <= |room| && Built(edges, Build(edges, n, room, ops))
    ensures var g := Build(edges, n, room, ops); IsCsr(n, edges, g.index, g.adj)
  {
    hide Run, Build, Inv, Built, Start, Neighbours;
    BuildMirrors(edges, n, room, ops);
    var s, g := Run(edges, n, room, ops), Build(edges, n, room, ops);
    forall u | 0 <= u < n
      ensures Lists(edges, g.index, g.adj, u) && g.index[u] == Start(edges, u)
    {
      SegmentMirrors(edges, n, s, g, u);
    }
    StartTotal(edges, n);
    AtTheEnd(edges, n, s, g);
    forall u | 0 <= u <= n ensures Start(edges, u) <= |g.adj| { StartMonotone(edges, u, n); }
  }

  lemma AtTheEnd(edges: seq<Edge>, n: nat, s: State, g: Graph)
    requires Inv(edges, n, s) && Mirror(edges, n, s, g) && Built(edges, g)
    ensures |g.index| == n + 1 && g.index[n] == Start(edges, n) && 2 * |edges| <= |g.adj|
  {
    hide Start;
  }
}
