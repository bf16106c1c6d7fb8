/**
 The adjacency array built by many threads at once. An edge contributes two half-edges; every half-edge increments a
 counter, later draws a slot with a fetch_add and later writes its entry. All of these may interleave in any order;
 only the prefix sums stand alone between barriers. `order` and `writes` are history variables.
 */
module CsrParallel {
  import opened Sets
  import opened Graphs
  import opened Csr
  import opened Forest

  function Src(edges: seq<Edge>, h: nat): nat
    requires h < 2 * |edges|
  {
    if h % 2 == 0 then edges[h / 2].a else edges[h / 2].b
  }

  function Dst(edges: seq<Edge>, h: nat): nat
    requires h < 2 * |edges|
  {
    if h % 2 == 0 then edges[h / 2].b else edges[h / 2].a
  }

  datatype Phase = Counting | Filling

  datatype State = State(
    phase: Phase,
    counter: seq<nat>, index: seq<nat>, adj: seq<nat>,
    counted: set<nat>,        // half-edges whose first fetch_add has happened
    slot: map<nat, nat>,      // what the second fetch_add of a half-edge returned
    written: set<nat>,        // half-edges whose entry is stored
    order: seq<seq<nat>>,     // history: the half-edges of each node, in the order they drew slots
    writes: seq<nat>)         // history: how often each slot was stored to

  datatype Op = Count(h: nat) | Prefix | Fetch(h: nat) | Write(h: nat)

  function Sums(c: seq<nat>): (s: seq<nat>)
    ensures |s| == |c|
  {
    if c == [] then []
    else
      var s := Sums(c[..|c| - 1]);
      s + [c[|c| - 1] + if s == [] then 0 else s[|s| - 1]]
  }

  predicate Enabled(edges: seq<Edge>, n: nat, s: State, op: Op)
  {
    match op
    case Count(h) => s.phase.Counting? && h < 2 * |edges| && h !in s.counted && Src(edges, h) + 1 < |s.counter|
    case Prefix => s.phase.Counting? && forall h :: 0 <= h < 2 * |edges| ==> h in s.counted
    case Fetch(h) =>
      s.phase.Filling? && h < 2 * |edges| && h !in s.slot
      && Src(edges, h) < |s.counter| && Src(edges, h) < |s.order|
    case Write(h) =>
      s.phase.Filling? && h < 2 * |edges| && h in s.slot && h !in s.written
      && s.slot[h] < |s.adj| && s.slot[h] < |s.writes|
  }

  function Do(edges: seq<Edge>, n: nat, s: State, op: Op): State
    requires Enabled(edges, n, s, op)
  {
    match op
    case Count(h) =>
      var u := Src(edges, h) + 1;
      s.(counter := s.counter[u := s.counter[u] + 1], counted := s.counted + {h})
    case Prefix =>
      s.(phase := Filling, counter := Sums(s.counter), index := Sums(s.counter))
    case Fetch(h) =>
      var u := Src(edges, h);
      s.(counter := s.counter[u := s.counter[u] + 1], slot := s.slot[h := s.counter[u]],
         order := s.order[u := s.order[u] + [h]])
    case Write(h) =>
      var j := s.slot[h];
      s.(adj := s.adj[j := Dst(edges, h)], written := s.written + {h}, writes := s.writes[j := s.writes[j] + 1])
  }

  function Init(n: nat, room: seq<nat>): State {
    State(Counting, seq(n + 1, _ => 0), seq(n + 1, _ => 0), room, {}, map[], {}, seq(n, _ => []), seq(|room|, _ => 0))
  }

  function Run(edges: seq<Edge>, n: nat, room: seq<nat>, ops: seq<Op>): State {
    if ops == [] then Init(n, room)
    else
      var s := Run(edges, n, room, ops[..|ops| - 1]);
      if Enabled(edges, n, s, ops[|ops| - 1]) then Do(edges, n, s, ops[|ops| - 1]) else s
  }

  predicate Completed(edges: seq<Edge>, s: State) {
    s.phase.Filling? && forall h :: 0 <= h < 2 * |edges| ==> h in s.written
  }

  // ---------- The half-edges of a node ----------

  function HalfEdges(edges: seq<Edge>, u: nat): seq<nat> {
    if edges == [] then [] else
    var m, e := |edges| - 1, edges[|edges| - 1];
    var l := if e.a == u then [2 * m] else [];
    var r := if e.b == u then [2 * m + 1] else [];
    HalfEdges(edges[..m], u) + l + r
  }

  lemma SplitLast(edges: seq<Edge>, h: nat)
    requires edges != [] && h < 2 * |edges|
    ensures var m := |edges| - 1;
      if h < 2 * m then Src(edges, h) == Src(edges[..m], h) && Dst(edges, h) == Dst(edges[..m], h)
      else if h == 2 * m then Src(edges, h) == edges[m].a && Dst(edges, h) == edges[m].b
      else h == 2 * m + 1 && Src(edges, h) == edges[m].b && Dst(edges, h) == edges[m].a
  {}

  lemma {:induction false} HalfEdgesIn(edges: seq<Edge>, u: nat, h: nat)
    ensures h in HalfEdges(edges, u) <==> h < 2 * |edges| && Src(edges, h) == u
  {
    if edges != [] {
      HalfEdgesIn(edges[..|edges| - 1], u, h);
      if h < 2 * |edges| { SplitLast(edges, h); }
    }
  }

  lemma {:induction false} HalfEdgesDistinct(edges: seq<Edge>, u: nat)
    ensures Distinct(HalfEdges(edges, u))
  {
    if edges != [] {
      var m := |edges| - 1;
      HalfEdgesDistinct(edges[..m], u);
      HalfEdgesIn(edges[..m], u, 2 * m);
      HalfEdgesIn(edges[..m], u, 2 * m + 1);
    }
  }

  predicate Mirrors(edges: seq<Edge>, half: seq<nat>, neighbours: seq<nat>) {
    && |half| == |neighbours|
    && forall k :: 0 <= k < |half| ==> half[k] < 2 * |edges| && Dst(edges, half[k]) == neighbours[k]
  }

  lemma {:induction false} HalfEdgesMirror(edges: seq<Edge>, u: nat)
    ensures Mirrors(edges, HalfEdges(edges, u), Neighbours(edges, u))
  {
    if edges != [] {
      var m, e := |edges| - 1, edges[|edges| - 1];
      var before := edges[..m];
      HalfEdgesMirror(before, u);
      var half, list: seq<nat> := HalfEdges(before, u), Neighbours(before, u);
      forall k | 0 <= k < |half| ensures half[k] < 2 * |edges| && Dst(edges, half[k]) == list[k] {
        SplitLast(edges, half[k]);
      }
      SplitLast(edges, 2 * m);
      SplitLast(edges, 2 * m + 1);
      MirrorsAppend(edges, half, list, if e.a == u then [2 * m] else [], if e.a == u then [e.b] else []);
      MirrorsAppend(edges, half + (if e.a == u then [2 * m] else []), list + (if e.a == u then [e.b] else []),
                    if e.b == u then [2 * m + 1] else [], if e.b == u then [e.a] else []);
    }
  }

  lemma MirrorsAppend(edges: seq<Edge>, half: seq<nat>, list: seq<nat>, l: seq<nat>, r: seq<nat>)
    requires Mirrors(edges, half, list) && Mirrors(edges, l, r)
    ensures Mirrors(edges, half + l, list + r)
  {}

  lemma {:induction false} OnceEach(s: seq<nat>)
    requires Distinct(s)
    ensures forall x :: multiset(s)[x] == if x in s then 1 else 0
  {
    if s != [] {
      var t := s[..|s| - 1];
      OnceEach(t);
      assert s == t + [s[|s| - 1]];
    }
  }

  /** Distinct entries among distinct entries: no more of them, and a permutation if none is missing. */
  lemma DistinctAmong(s: seq<nat>, t: seq<nat>)
    requires Distinct(s) && Distinct(t) && forall x :: x in s ==> x in t
    ensures |s| <= |t|
    ensures (forall x :: x in t ==> x in s) ==> multiset(s) == multiset(t)
    ensures |s| == |t| ==> forall x :: x in t ==> x in s
  {
    OnceEach(s);
    OnceEach(t);
    var rest := multiset(t) - multiset(s);
    assert multiset(t) == multiset(s) + rest;
    assert |multiset(s)| == |s| && |multiset(t)| == |t|;
    if |s| == |t| {
      assert rest == multiset{};
      assert forall x :: x in t <==> x in multiset(t);
    }
  }

  predicate AllBelow(s: seq<nat>, k: nat) {
    forall i :: 0 <= i < |s| ==> s[i] < k
  }

  function Targets(edges: seq<Edge>, s: seq<nat>): seq<nat>
    requires AllBelow(s, 2 * |edges|)
  {
    seq(|s|, k requires 0 <= k < |s| => Dst(edges, s[k]))
  }

  lemma {:induction false} PermutedTargets(edges: seq<Edge>, s: seq<nat>, t: seq<nat>)
    requires multiset(s) == multiset(t)
    requires AllBelow(s, 2 * |edges|) && AllBelow(t, 2 * |edges|)
    ensures multiset(Targets(edges, s)) == multiset(Targets(edges, t))
    decreases |s|
  {
    if s == [] {
      assert |multiset(t)| == |t|;
    } else {
      assert s[0] in multiset(t);
      var j :| 0 <= j < |t| && t[j] == s[0];
      var l, r := t[..j], t[j + 1..];
      MoveFront(s, t, j);
      PermutedTargets(edges, s[1..], l + r);
      assert Targets(edges, s) == [Dst(edges, s[0])] + Targets(edges, s[1..]);
      assert Targets(edges, t) == Targets(edges, l) + [Dst(edges, s[0])] + Targets(edges, r);
      assert Targets(edges, l + r) == Targets(edges, l) + Targets(edges, r);
      Regroup(Targets(edges, l), Dst(edges, s[0]), Targets(edges, r));
    }
  }

  lemma MoveFront(s: seq<nat>, t: seq<nat>, j: nat)
    requires s != [] && j < |t| && t[j] == s[0] && multiset(s) == multiset(t)
    ensures multiset(s[1..]) == multiset(t[..j] + t[j + 1..])
  {
    assert s == [s[0]] + s[1..];
    assert t == t[..j] + [t[j]] + t[j + 1..];
    assert multiset(s[1..]) == multiset(s) - multiset{s[0]};
    assert multiset(t[..j] + t[j + 1..]) == multiset(t) - multiset{s[0]};
  }

  lemma Regroup(l: seq<nat>, x: nat, r: seq<nat>)
    ensures multiset(l + [x] + r) == multiset([x] + (l + r)) == multiset{x} + multiset(l + r)
  {}

  // ---------- The invariant ----------

  function CountedAt(edges: seq<Edge>, counted: set<nat>, v: nat): set<nat> {
    set h | h in counted && h < 2 * |edges| && Src(edges, h) + 1 == v
  }

  predicate CountingOk(edges: seq<Edge>, n: nat, s: State) {
    && |s.counter| == n + 1 && |s.order| == n && s.slot == map[] && s.written == {}
    && (forall v {:trigger s.counter[v]} :: 0 <= v <= n ==> s.counter[v] == |CountedAt(edges, s.counted, v)|)
    && (forall u {:trigger s.order[u]} :: 0 <= u < n ==> s.order[u] == [])
    && |s.writes| == |s.adj|
    && (forall j :: 0 <= j < |s.writes| ==> s.writes[j] == 0)
  }

  /** Node u's half-edges have drawn the slots of its segment one after the other. */
  predicate OrderOk(edges: seq<Edge>, s: State, u: nat)
    requires u < |s.order| && u < |s.counter|
  {
    var o: seq<nat> := s.order[u];
    && s.counter[u] == Start(edges, u) + |o|
    && Distinct(o)
    && forall k: nat :: k < |o| ==>
         o[k] < 2 * |edges| && Src(edges, o[k]) == u && o[k] in s.slot && s.slot[o[k]] == Start(edges, u) + k
  }

  /** A half-edge that drew a slot is listed in its node's order; once written, the slot holds its target. */
  predicate SlotOk(edges: seq<Edge>, n: nat, s: State, h: nat)
    requires h in s.slot && |s.order| == n
  {
    && h < 2 * |edges| && Src(edges, h) < n && h in s.order[Src(edges, h)]
    && (h in s.written ==> s.slot[h] < |s.adj| && s.adj[s.slot[h]] == Dst(edges, h))
  }

  predicate FillingOk(edges: seq<Edge>, n: nat, s: State) {
    && |s.counter| == n + 1 && |s.order| == n && |s.index| == n + 1
    && (forall u {:trigger s.index[u]} :: 0 <= u <= n ==> s.index[u] == Start(edges, u))
    && (forall u :: 0 <= u < n ==> OrderOk(edges, s, u))
    && (forall h :: h in s.slot ==> SlotOk(edges, n, s, h))
    && s.written <= s.slot.Keys
    && |s.writes| == |s.adj|
    && (forall j :: 0 <= j < |s.writes| ==> s.writes[j] <= 1)
    && (forall j :: 0 <= j < |s.writes| && s.writes[j] == 1 ==>
          exists h: nat :: h in s.written && h in s.slot && s.slot[h] == j)
    && (forall h: nat :: h in s.written ==> s.slot[h] < |s.writes| && s.writes[s.slot[h]] == 1)
  }

  predicate Inv(edges: seq<Edge>, n: nat, s: State) {
    && EdgesBelow(edges, n) && 2 * |edges| <= |s.adj|
    && if s.phase.Counting? then CountingOk(edges, n, s) else FillingOk(edges, n, s)
  }

  // ---------- Counting ----------

  lemma CountStep(edges: seq<Edge>, n: nat, s: State, h: nat)
    requires Inv(edges, n, s) && s.phase.Counting? && Enabled(edges, n, s, Count(h))
    ensures CountingOk(edges, n, Do(edges, n, s, Count(h)))
  {
    var s' := Do(edges, n, s, Count(h));
    forall v | 0 <= v <= n ensures s'.counter[v] == |CountedAt(edges, s'.counted, v)| {
      var before, after := CountedAt(edges, s.counted, v), CountedAt(edges, s'.counted, v);
      if v == Src(edges, h) + 1 { assert after == before + {h}; } else { assert after == before; }
    }
  }

  lemma AllCounted(edges: seq<Edge>, n: nat, s: State, v: nat)
    requires EdgesBelow(edges, n) && CountingOk(edges, n, s) && Enabled(edges, n, s, Prefix) && v <= n
    ensures s.counter[v] == DegreeBefore(edges, v)
  {
    var c := CountedAt(edges, s.counted, v);
    if v == 0 {
      assert c == {};
    } else {
      var half := HalfEdges(edges, v - 1);
      forall h: nat ensures h in c <==> h in half { HalfEdgesIn(edges, v - 1, h); }
      assert c == Elements(half);
      HalfEdgesDistinct(edges, v - 1);
      HalfEdgesMirror(edges, v - 1);
      DistinctSize(half);
    }
  }

  lemma {:induction false} SumsAre(edges: seq<Edge>, c: seq<nat>, k: nat)
    requires k < |c| && forall v :: 0 <= v < |c| ==> c[v] == DegreeBefore(edges, v)
    ensures Sums(c)[k] == Start(edges, k)
    decreases |c|
  {
    hide Neighbours, Degree;
    var d := c[..|c| - 1];
    assert c[k] == DegreeBefore(edges, k);
    if k < |d| { SumsAre(edges, d, k); }
    else if k > 0 { SumsAre(edges, d, k - 1); }
  }

  lemma PrefixStep(edges: seq<Edge>, n: nat, s: State)
    requires Inv(edges, n, s) && Enabled(edges, n, s, Prefix)
    ensures FillingOk(edges, n, Do(edges, n, s, Prefix))
  {
    hide Start, Degree, DegreeBefore, Neighbours;
    var s' := Do(edges, n, s, Prefix);
    forall v | 0 <= v <= n ensures s.counter[v] == DegreeBefore(edges, v) { AllCounted(edges, n, s, v); }
    forall k | 0 <= k <= n ensures s'.index[k] == Start(edges, k) { SumsAre(edges, s.counter, k); }
  }

  // ---------- Filling ----------

  lemma SrcBelow(edges: seq<Edge>, n: nat, h: nat)
    requires EdgesBelow(edges, n) && h < 2 * |edges|
    ensures Src(edges, h) < n && Dst(edges, h) < n
  {
    assert h / 2 < |edges|;
  }

  lemma StartNext(edges: seq<Edge>, u: nat)
    ensures Start(edges, u + 1) == Start(edges, u) + Degree(edges, u)
  {}

  /** No more half-edges of u can draw slots than u has. */
  lemma OrderFits(edges: seq<Edge>, n: nat, s: State, u: nat)
    requires FillingOk(edges, n, s) && u < n
    ensures |s.order| == n && |s.counter| == n + 1
    ensures |s.order[u]| <= Degree(edges, u) && s.counter[u] == Start(edges, u) + |s.order[u]|
    ensures forall h :: h in s.order[u] ==> h in HalfEdges(edges, u) && h in s.slot
    ensures forall h :: h in HalfEdges(edges, u) && h !in s.slot ==> |s.order[u]| < Degree(edges, u)
  {
    hide Start, HalfEdges, Neighbours;
    assert OrderOk(edges, s, u);
    var o: seq<nat>, half: seq<nat> := s.order[u], HalfEdges(edges, u);
    forall h | h in o ensures h in half && h in s.slot { HalfEdgesIn(edges, u, h); }
    HalfEdgesMirror(edges, u);
    HalfEdgesDistinct(edges, u);
    DistinctAmong(o, half);
  }

  /** A slot drawn now lies in the drawing node's segment. */
  lemma RoomInSegment(edges: seq<Edge>, n: nat, s: State, h: nat, u: nat)
    requires FillingOk(edges, n, s) && EdgesBelow(edges, n) && h < 2 * |edges| && h !in s.slot && u == Src(edges, h)
    ensures u < n && h !in s.order[u] && s.counter[u] < Start(edges, u + 1) <= 2 * |edges|
  {
    hide Start, HalfEdges, Neighbours, Degree, FillingOk;
    SrcBelow(edges, n, h);
    HalfEdgesIn(edges, u, h);
    hide Src, EdgesBelow;
    OrderFits(edges, n, s, u);
    StartNext(edges, u);
    StartMonotone(edges, u + 1, n);
    StartTotal(edges, n);
  }

  lemma FetchStep(edges: seq<Edge>, n: nat, s: State, h: nat)
    requires Inv(edges, n, s) && s.phase.Filling? && Enabled(edges, n, s, Fetch(h))
    ensures FillingOk(edges, n, Do(edges, n, s, Fetch(h)))
  {
    hide Start, Neighbours;
    RoomInSegment(edges, n, s, h, Src(edges, h));
    var s', u := Do(edges, n, s, Fetch(h)), Src(edges, h);
    forall v | 0 <= v < n ensures OrderOk(edges, s', v) { assert OrderOk(edges, s, v); }
    forall g | g in s'.slot ensures SlotOk(edges, n, s', g) {
      if g == h { assert s'.order[u][|s.order[u]|] == h; } else { assert SlotOk(edges, n, s, g); }
    }
  }

  /** Different half-edges draw different slots. */
  lemma SlotsDiffer(edges: seq<Edge>, n: nat, s: State, g: nat, h: nat)
    requires Inv(edges, n, s) && s.phase.Filling? && g in s.slot && h in s.slot && g != h
    ensures s.slot[g] != s.slot[h]
  {
    hide Start;
    assert SlotOk(edges, n, s, g) && SlotOk(edges, n, s, h);
    var u, v := Src(edges, g), Src(edges, h);
    SlotInSegment(edges, n, s, g);
    SlotInSegment(edges, n, s, h);
    if u < v { StartMonotone(edges, u + 1, v); } else if v < u { StartMonotone(edges, v + 1, u); }
    else { assert OrderOk(edges, s, u); }
  }

  lemma SlotInSegment(edges: seq<Edge>, n: nat, s: State, h: nat)
    requires Inv(edges, n, s) && s.phase.Filling? && h in s.slot
    ensures h < 2 * |edges| && Src(edges, h) < n
    ensures Start(edges, Src(edges, h)) <= s.slot[h] < Start(edges, Src(edges, h) + 1)
    ensures s.slot[h] < 2 * |edges|
  {
    hide Start;
    assert SlotOk(edges, n, s, h);
    var u := Src(edges, h);
    assert OrderOk(edges, s, u);
    OrderFits(edges, n, s, u);
    StartNext(edges, u);
    StartMonotone(edges, u + 1, n);
    StartTotal(edges, n);
  }

  lemma WriteStep(edges: seq<Edge>, n: nat, s: State, h: nat)
    requires Inv(edges, n, s) && s.phase.Filling? && Enabled(edges, n, s, Write(h))
    ensures FillingOk(edges, n, Do(edges, n, s, Write(h)))
  {
    hide Start, Neighbours, Degree;
    var s', j := Do(edges, n, s, Write(h)), s.slot[h];
    forall g | g in s.slot && g != h ensures s.slot[g] != j { SlotsDiffer(edges, n, s, g, h); }
    assert s.writes[j] == 0;
    forall u | 0 <= u < n ensures OrderOk(edges, s', u) { assert OrderOk(edges, s, u); }
    forall g | g in s'.slot ensures SlotOk(edges, n, s', g) { assert SlotOk(edges, n, s, g); }
    forall i | 0 <= i < |s'.writes| && s'.writes[i] == 1 ensures exists g: nat :: g in s'.written && s'.slot[g] == i {
      if i == j {
        assert h in s'.written;
      } else {
        var g: nat :| g in s.written && s.slot[g] == i;
        assert g in s'.written;
      }
    }
  }

  lemma {:induction false} RunInv(edges: seq<Edge>, n: nat, room: seq<nat>, ops: seq<Op>)
    requires EdgesBelow(edges, n) && 2 * |edges| <= |room|
    ensures Inv(edges, n, Run(edges, n, room, ops))
  {
    if ops == [] {
      assert forall v :: CountedAt(edges, {}, v) == {};
    } else {
      RunInv(edges, n, room, ops[..|ops| - 1]);
      var s, op := Run(edges, n, room, ops[..|ops| - 1]), ops[|ops| - 1];
      if Enabled(edges, n, s, op) { StepInv(edges, n, s, op); }
    }
  }

  lemma StepInv(edges: seq<Edge>, n: nat, s: State, op: Op)
    requires Inv(edges, n, s) && Enabled(edges, n, s, op)
    ensures Inv(edges, n, Do(edges, n, s, op))
  {
    hide CountingOk, FillingOk;
    match op
    case Count(h) => CountStep(edges, n, s, h);
    case Prefix => PrefixStep(edges, n, s);
    case Fetch(h) => FetchStep(edges, n, s, h);
    case Write(h) => WriteStep(edges, n, s, h);
  }

  lemma SegmentComplete(edges: seq<Edge>, n: nat, s: State, u: nat)
    requires Inv(edges, n, s) && Completed(edges, s) && u < n
    ensures Lists(edges, s.index, s.adj, u)
  {
    hide Neighbours, Degree, HalfEdges;
    var o: seq<nat>, half: seq<nat> := s.order[u], HalfEdges(edges, u);
    assert OrderOk(edges, s, u);
    HalfEdgesMirror(edges, u);
    HalfEdgesDistinct(edges, u);
    OrderFits(edges, n, s, u);
    forall h | h in half ensures h in o {
      HalfEdgesIn(edges, u, h);
      assert h in s.slot;
      assert SlotOk(edges, n, s, h);
    }
    DistinctAmong(o, half);
    DistinctAmong(half, o);
    PermutedTargets(edges, o, half);
    StartMonotone(edges, u + 1, n);
    StartTotal(edges, n);
    assert Start(edges, u + 1) == Start(edges, u) + Degree(edges, u);
    DegreeIsLength(edges, u);
    assert Targets(edges, half) == Neighbours(edges, u);
    var segment := s.adj[s.index[u]..s.index[u + 1]];
    assert |segment| == |o|;
    forall k | 0 <= k < |o| ensures segment[k] == Targets(edges, o)[k] {
      assert o[k] in s.written && SlotOk(edges, n, s, o[k]);
    }
    assert segment == Targets(edges, o);
  }

  lemma DegreeIsLength(edges: seq<Edge>, u: nat)
    ensures Degree(edges, u) == |Neighbours(edges, u)|
  {}

  /**
   However the threads interleave, the finished array is an adjacency array of the edges: every node's segment is a
   permutation of what the sequential build lists, and each of the 2m slots was stored to exactly once.
   */
  lemma ParallelBuild(edges: seq<Edge>, n: nat, room: seq<nat>, ops: seq<Op>)
    requires EdgesBelow(edges, n) && 2 * |edges| <= |room|
    requires Completed(edges, Run(edges, n, room, ops))
    ensures var s := Run(edges, n, room, ops);
      && IsCsr(n, edges, s.index, s.adj)
      && |s.writes| == |s.adj| == |room|
      && (forall j :: 0 <= j < 2 * |edges| ==> s.writes[j] == 1)
  {
    var s, m := Run(edges, n, room, ops), |edges|;
    RunInv(edges, n, room, ops);
    RoomStays(edges, n, room, ops);
    forall u | 0 <= u < n ensures Lists(edges, s.index, s.adj, u) { SegmentComplete(edges, n, s, u); }
    StartTotal(edges, n);
    forall u | 0 <= u <= n ensures Start(edges, u) <= |s.adj| { StartMonotone(edges, u, n); }
    forall j | 0 <= j < 2 * m ensures s.writes[j] == 1 { SlotTaken(edges, n, s, j); }
  }

  lemma {:induction false} RoomStays(edges: seq<Edge>, n: nat, room: seq<nat>, ops: seq<Op>)
    ensures |Run(edges, n, room, ops).adj| == |room|
  {
    if ops != [] { RoomStays(edges, n, room, ops[..|ops| - 1]); }
  }

  function SlotsOf(slot: map<nat, nat>, k: nat): set<nat>
    requires forall h :: 0 <= h < k ==> h in slot
  {
    if k == 0 then {} else SlotsOf(slot, k - 1) + {slot[k - 1]}
  }

  lemma {:induction false} SlotsAre(slot: map<nat, nat>, k: nat)
    requires forall h :: 0 <= h < k ==> h in slot
    ensures forall j :: j in SlotsOf(slot, k) <==> exists h: nat :: h < k && slot[h] == j
  {
    if k > 0 { SlotsAre(slot, k - 1); }
  }

  lemma {:induction false} SlotsCount(edges: seq<Edge>, n: nat, s: State, k: nat)
    requires Inv(edges, n, s) && s.phase.Filling? && forall h :: 0 <= h < k ==> h in s.slot
    ensures |SlotsOf(s.slot, k)| == k
  {
    hide Inv;
    if k > 0 {
      SlotsCount(edges, n, s, k - 1);
      forall h | 0 <= h < k - 1 ensures s.slot[h] != s.slot[k - 1] { SlotsDiffer(edges, n, s, h, k - 1); }
      SlotsAre(s.slot, k - 1);
      assert s.slot[k - 1] !in SlotsOf(s.slot, k - 1);
    }
  }

  lemma SlotTaken(edges: seq<Edge>, n: nat, s: State, j: nat)
    requires Inv(edges, n, s) && Completed(edges, s) && j < 2 * |edges|
    ensures j < |s.writes| && s.writes[j] == 1
  {
    var m2 := 2 * |edges|;
    SlotsCount(edges, n, s, m2);
    SlotsAre(s.slot, m2);
    var taken := SlotsOf(s.slot, m2);
    forall i | i in taken ensures i < m2 {
      var h: nat :| h < m2 && s.slot[h] == i;
      SlotInSegment(edges, n, s, h);
    }
    assert taken <= Upto(m2);
    if j !in taken {
      SubsetSize(taken, Upto(m2) - {j});
    }
    var h: nat :| h < m2 && s.slot[h] == j;
    assert h in s.written;
  }
}
