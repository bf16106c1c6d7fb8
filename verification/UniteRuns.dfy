/** Whole runs of addEdges: what holds after any schedule, after any number of calls, and why every call returns. */
module UniteRuns {
  import opened Counting
  import opened Sets
  import opened Graphs
  import opened Forest
  import opened Spanning
  import opened UniteMachine
  import opened UniteSafety

  /** One scheduling decision: thread t runs; if the loop hands out an index now, it is i. */
  datatype Choice = Choice(t: nat, i: nat)

  function Run(s: State, schedule: seq<Choice>): State {
    if schedule == [] then s
    else
      var last := |schedule| - 1;
      var r, c := Run(s, schedule[..last]), schedule[last];
      if c.t < |r.threads| && InRange(r, r.threads[c.t]) then Next(r, c.t, c.i) else r
  }

  /** Safety over every schedule. */
  lemma {:induction false} RunInv(s: State, schedule: seq<Choice>)
    requires Inv(s)
    ensures Inv(Run(s, schedule))
  {
    if schedule != [] {
      var last := |schedule| - 1;
      RunInv(s, schedule[..last]);
      var r, c := Run(s, schedule[..last]), schedule[last];
      if c.t < |r.threads| { StepInv(r, c.t, c.i); }
    }
  }

  // ---------- Calls of addEdges, one after the other ----------

  /** The object's life: construction, then calls of addEdges, each with its own threads and schedule. */
  datatype Life = Created(n: nat) | Call(before: Life, edges: seq<Edge>, numThreads: nat, schedule: seq<Choice>)

  function Size(life: Life): nat {
    match life case Created(n) => n case Call(before, _, _, _) => Size(before)
  }

  function Given(life: Life): multiset<Edge> {
    match life case Created(_) => multiset{} case Call(before, edges, _, _) => Given(before) + multiset(edges)
  }

  predicate Completed(s: State) {
    && (s.threads != [] || s.edges == [])
    && forall t :: 0 <= t < |s.threads| ==> s.threads[t].pc == Finished
  }

  function Construct(n: nat): State {
    State(Initial(n), [], multiset{}, {}, [], 0, seq(n, _ => Edge(0, 0)), [], 0, [])
  }

  function Start(s: State, edges: seq<Edge>, numThreads: nat): State {
    s.(edges := edges, earlier := s.earlier + multiset(s.edges), pending := Upto(|edges|),
       threads := seq(numThreads, _ => Thread(Idle, 0, Edge(0, 0), [], 0)))
  }

  function StateOf(life: Life): State {
    match life
    case Created(n) => Construct(n)
    case Call(before, edges, numThreads, schedule) => Run(Start(StateOf(before), edges, numThreads), schedule)
  }

  /** Calls do not overlap, run on at least one thread, and name existing nodes. */
  predicate Proper(life: Life) {
    life.Call? ==>
      && Proper(life.before) && Completed(StateOf(life.before)) && life.numThreads > 0
      && forall j :: 0 <= j < |life.edges| ==> life.edges[j].a < Size(life) && life.edges[j].b < Size(life)
  }

  lemma ConstructInv(n: nat)
    ensures Inv(Construct(n)) && Completed(Construct(n))
  {
    var s := Construct(n);
    InitialValid(n);
    InitiallyRepresents(n, s.f);
  }

  lemma PendingIsDone(s: State)
    requires BarrierOk(s) && Completed(s)
    ensures forall j :: 0 <= j < |s.edges| ==> j !in s.pending
  {
    if s.threads != [] { assert s.threads[0].pc == Finished && LoopDone(s); }
  }

  lemma EverythingJoined(s: State, e: Edge)
    requires Inv(s) && Completed(s) && e in s.earlier + multiset(s.edges)
    ensures e.a < |s.f.words| && e.b < |s.f.words| && Same(s.f, e.a, e.b)
  {
    if e !in s.earlier {
      var j :| 0 <= j < |s.edges| && s.edges[j] == e;
      PendingIsDone(s);
      assert forall t :: !Working(s, t, j);
    }
  }

  lemma HeldByIdle(threads: seq<Thread>)
    requires forall t :: 0 <= t < |threads| ==> threads[t].kept == [] && threads[t].pc == Idle
    ensures Held(threads) == multiset{} && Raising(threads) == 0
  {
    HeldNothing(threads);
    TotalZero(threads, Raises);
  }

  lemma CompletedHolds(s: State)
    requires Inv(s) && Completed(s)
    ensures multiset(s.links) == multiset(s.planned) && |s.links| == s.num && s.bumps <= |s.links|
    ensures s.num <= |s.buffer| && s.buffer[..s.num] == s.planned
  {
    hide LinksOk, InputOk, BarrierOk, ThreadOk, CountsOk, BufferOk;
    NothingHeld(s);
    EverythingCopied(s);
  }

  lemma NothingHeld(s: State)
    requires CountsOk(s) && Completed(s)
    ensures multiset(s.links) == multiset(s.planned) && |s.links| == |s.planned| == s.num && s.bumps <= |s.links|
  {
    HeldNothing(s.threads);
    assert |multiset(s.links)| == |s.links| && |multiset(s.planned)| == |s.planned|;
  }

  lemma EverythingCopied(s: State)
    requires BufferOk(s) && Completed(s)
    ensures s.num <= |s.buffer| && s.buffer[..s.num] == s.planned
  {
    hide SliceOk, Disjoint;
    forall j | 0 <= j < s.num ensures s.buffer[j] == s.planned[j] {
      assert forall t :: !ToCopy(s, t, j);
    }
  }

  lemma StartInput(s: State, edges: seq<Edge>, numThreads: nat)
    requires Inv(s) && Completed(s)
    requires forall j :: 0 <= j < |edges| ==> edges[j].a < |s.f.words| && edges[j].b < |s.f.words|
    ensures InputOk(Start(s, edges, numThreads))
  {
    hide Weighted, ThreadOk, BufferOk, BarrierOk, Root, CountsOk, Completed, Represents, InputOk;
    forall e | e in s.earlier + multiset(s.edges)
      ensures e.a < |s.f.words| && e.b < |s.f.words| && Same(s.f, e.a, e.b)
    {
      EverythingJoined(s, e);
    }
    LinksWereGiven(s);
    FreshInput(s, edges, numThreads);
  }

  lemma LinksWereGiven(s: State)
    requires Shaped(s.f) && InputOk(s)
    ensures forall e :: e in s.links ==> e in s.earlier + multiset(s.edges)
  {
    hide Root;
    forall e | e in s.links ensures e in s.earlier + multiset(s.edges) { assert e in s.earlier || e in s.edges; }
  }

  lemma FreshInput(s: State, edges: seq<Edge>, numThreads: nat)
    requires Shaped(s.f)
    requires forall j :: 0 <= j < |edges| ==> edges[j].a < |s.f.words| && edges[j].b < |s.f.words|
    requires forall e :: e in s.earlier + multiset(s.edges) ==>
      e.a < |s.f.words| && e.b < |s.f.words| && Same(s.f, e.a, e.b)
    requires forall e :: e in s.links ==> e in s.earlier + multiset(s.edges)
    ensures InputOk(Start(s, edges, numThreads))
  {
    hide Root;
  }

  lemma StartInv(s: State, edges: seq<Edge>, numThreads: nat)
    requires Inv(s) && Completed(s)
    requires forall j :: 0 <= j < |edges| ==> edges[j].a < |s.f.words| && edges[j].b < |s.f.words|
    ensures Inv(Start(s, edges, numThreads))
  {
    hide Acyclic, Weighted, InputOk, Held, Raising, Conn;
    var s' := Start(s, edges, numThreads);
    StartInput(s, edges, numThreads);
    CompletedHolds(s);
    HeldByIdle(s'.threads);
    assert BufferOk(s');
    assert BarrierOk(s');
  }

  lemma {:induction false} RunConstants(s: State, schedule: seq<Choice>)
    ensures var r := Run(s, schedule);
      && r.edges == s.edges && r.earlier == s.earlier && |r.threads| == |s.threads| && |r.f.words| == |s.f.words|
  {
    hide Next, InRange;
    if schedule != [] {
      var last := |schedule| - 1;
      RunConstants(s, schedule[..last]);
      var r, c := Run(s, schedule[..last]), schedule[last];
      if c.t < |r.threads| && InRange(r, r.threads[c.t]) { NextConstants(r, c.t, c.i); }
    }
  }

  lemma NextConstants(s: State, t: nat, i: nat)
    requires t < |s.threads| && InRange(s, s.threads[t])
    ensures var r := Next(s, t, i);
      && r.edges == s.edges && r.earlier == s.earlier && |r.threads| == |s.threads| && |r.f.words| == |s.f.words|
  {}

  lemma {:induction false} LifeInv(life: Life)
    requires Proper(life)
    ensures var s := StateOf(life);
      Inv(s) && |s.f.words| == Size(life) && s.earlier + multiset(s.edges) == Given(life)
  {
    match life
    case Created(n) => ConstructInv(n);
    case Call(before, edges, numThreads, schedule) =>
      LifeInv(before);
      var s := Start(StateOf(before), edges, numThreads);
      StartInv(StateOf(before), edges, numThreads);
      RunInv(s, schedule);
      RunConstants(s, schedule);
  }

  /** The edges parallel_build_adj_array gets to see. */
  function Kept(s: State): multiset<Edge>
    requires s.num <= |s.buffer|
  {
    multiset(s.buffer[..s.num])
  }

  /** What addEdges leaves behind, given the multiset of all edges it was ever called with. */
  ghost predicate Spanned(s: State, n: nat, given: multiset<Edge>) {
    && Shaped(s.f) && |s.f.words| == n && s.num <= |s.buffer| == n && Within(given, n)
    && (forall e :: e in Kept(s) ==> e in given)
    && Acyclic(Kept(s))
    && s.num + |Roots(s.f)| == n
    && (forall x, y :: 0 <= x < n && 0 <= y < n ==> (Same(s.f, x, y) <==> Conn(Kept(s), x, y)))
    && (forall x, y :: 0 <= x < n && 0 <= y < n ==> (Same(s.f, x, y) <==> Conn(given, x, y)))
  }

  lemma SpannedWhenCompleted(s: State, given: multiset<Edge>)
    requires Inv(s) && Completed(s) && given == s.earlier + multiset(s.edges)
    ensures Spanned(s, |s.f.words|, given)
  {
    hide InputOk, BarrierOk, ThreadOk, Acyclic, Completed, Valid, CountsOk, SliceOk, Disjoint, Conn, Root;
    var n := |s.f.words|;
    CompletedHolds(s);
    KeptIsGiven(s, given);
    forall e | e in given ensures e.a < n && e.b < n && Same(s.f, e.a, e.b) { EverythingJoined(s, e); }
    hide Inv;
    forall x, y | 0 <= x < n && 0 <= y < n ensures Same(s.f, x, y) <==> Conn(given, x, y) {
      GivenMatches(s.f, Kept(s), given, x, y);
    }
  }

  lemma KeptIsGiven(s: State, given: multiset<Edge>)
    requires Inv(s) && Completed(s) && given == s.earlier + multiset(s.edges)
    ensures s.num <= |s.buffer| && Kept(s) == multiset(s.links)
    ensures forall e :: e in Kept(s) ==> e in given
  {
    hide LinksOk, CountsOk, BarrierOk, ThreadOk;
    CompletedHolds(s);
    forall e | e in Kept(s) ensures e in given { assert e in s.links; }
  }

  /**
   When addEdges returns, however its threads were interleaved, the filtered edges are a spanning forest of all the
   edges given so far: given edges only, acyclic, n minus the number of components of them, with the components of the
   union-find, which are the components of the given graph.
   */
  lemma SpanningForest(life: Life)
    requires Proper(life) && Completed(StateOf(life))
    ensures Spanned(StateOf(life), Size(life), Given(life))
  {
    hide Inv, Spanned;
    LifeInv(life);
    SpannedWhenCompleted(StateOf(life), Given(life));
  }

  /** In every reachable state, ranks are at most 1 + log2 n and a root of rank k heads at least 2^(k-1) nodes. */
  lemma RanksAreLogarithmic(life: Life, u: nat)
    requires Proper(life) && u < Size(life)
    ensures var f := StateOf(life).f;
      && Shaped(f) && |f.words| == Size(life)
      && 1 <= f.ranks[u] && Pow2(f.ranks[u] - 1) <= Size(life)
      && (IsRoot(f, u) ==> f.words[u] == ToRankRepr(f.ranks[u]) && |Component(f, u)| >= Pow2(f.ranks[u] - 1))
  {
    hide InputOk, BufferOk, CountsOk, BarrierOk, ThreadOk, Acyclic, StateOf, Proper, Given;
    LifeInv(life);
    assert WeightAt(StateOf(life).f, u);
  }

  // ---------- Progress ----------

  lemma SomeRoot(f: Forest)
    requires Shaped(f) && |f.words| > 0
    ensures |Roots(f)| >= 1
  {
    assert Root(f, 0) in Roots(f);
  }

  /** A whole run changes root words at most 2(n-1) times, links and bumps together. */
  lemma FewChanges(s: State)
    requires Inv(s) && |s.f.words| > 0
    ensures Changes(s) <= 2 * (|s.f.words| - 1)
  {
    hide InputOk, BufferOk, BarrierOk, ThreadOk, Acyclic, Weighted;
    SomeRoot(s.f);
  }

  function Nodes(path: seq<Hop>): set<nat> {
    if path == [] then {} else Nodes(path[1..]) + {path[0].node}
  }

  lemma {:induction false} NodesAre(path: seq<Hop>)
    ensures forall u :: u in Nodes(path) <==> exists i :: 0 <= i < |path| && path[i].node == u
  {
    if path != [] {
      NodesAre(path[1..]);
      forall u ensures u in Nodes(path) <==> exists i :: 0 <= i < |path| && path[i].node == u {
        if u in Nodes(path[1..]) {
          var i :| 0 <= i < |path| - 1 && path[1..][i].node == u;
          assert path[i + 1].node == u;
        }
        if i :| 0 <= i < |path| && path[i].node == u { if i > 0 { assert path[1..][i - 1].node == u; } }
      }
    }
  }

  lemma {:induction false} NodesCount(path: seq<Hop>)
    requires forall i, j :: 0 <= i < j < |path| ==> path[i].node != path[j].node
    ensures |Nodes(path)| == |path|
  {
    if path != [] {
      var rest := path[1..];
      forall i, j | 0 <= i < j < |rest| ensures rest[i].node != rest[j].node {
        assert path[i + 1].node != path[j + 1].node;
      }
      NodesCount(rest);
      NodesAre(rest);
      assert path[0].node !in Nodes(rest);
    }
  }

  /** A find meets no node twice, even while other threads link and compress: its stack stays below n. */
  lemma FindIsSimple(f: Forest, path: seq<Hop>, top: nat)
    requires Shaped(f) && top < |f.words| && Climbs(f, path, top)
    ensures forall i, j :: 0 <= i < j < |path| ==> path[i].node != path[j].node
    ensures forall i :: 0 <= i < |path| ==> path[i].node != top
    ensures |path| < |f.words|
  {
    ClimbsUp(f, path, top);
    NodesAre(path);
    NodesCount(path);
    hide Shaped, Climbs;
    assert Nodes(path) + {top} <= Upto(|f.words|);
    SubsetSize(Nodes(path) + {top}, Upto(|f.words|));
  }

  lemma ClimbsUp(f: Forest, path: seq<Hop>, top: nat)
    requires Shaped(f) && top < |f.words| && Climbs(f, path, top)
    ensures forall i, j :: 0 <= i < j < |path| ==> path[i].node != path[j].node
    ensures forall i :: 0 <= i < |path| ==> path[i].node != top && path[i].node < |f.words|
  {}

  function Phase(pc: Pc, n: nat): int {
    match pc
    case Find(goal, path, _) => n - |path| + if goal.First? then 3 * n + 3 else n + 2
    case Unwind(goal, path, _, _) => |path| + if goal.First? then 2 * n + 3 else 2
    case Decide(_, _, _, _) => 1
    case _ => 0
  }

  /** Bounds the operations a thread can still make inside its current `unite`. */
  function Left(s: State, t: nat): int
    requires t < |s.threads|
  {
    Budget(s.threads[t].seen, Phase(s.threads[t].pc, |s.f.words|), |s.f.words|)
  }

  function Budget(seen: nat, phase: int, n: nat): int {
    (2 * n - seen) * (4 * n + 4) + phase
  }

  lemma BudgetBounds(seen: nat, phase: int, n: nat)
    requires seen <= 2 * n && 0 <= phase < 4 * n + 4
    ensures 0 <= Budget(seen, phase, n) < (2 * n + 1) * (4 * n + 4)
  {
    Scale(2 * n - seen, 2 * n, 4 * n + 4);
  }

  lemma BudgetShrinks(seen: nat, seen': nat, phase: int, phase': int, n: nat)
    requires seen <= seen' <= 2 * n && 0 <= phase && 0 <= phase' < 4 * n + 4
    requires seen < seen' || phase' < phase
    ensures Budget(seen', phase', n) < Budget(seen, phase, n)
  {
    if seen < seen' { Scale(2 * n - seen', 2 * n - seen - 1, 4 * n + 4); }
  }

  lemma Scale(a: nat, b: nat, k: nat)
    requires a <= b
    ensures 0 <= a * k <= b * k && (b + 1) * k == b * k + k
  {}

  /** A thread inside `unite` has a short stack and remembers a count of changes the run really had. */
  lemma StackIsShort(s: State, t: nat)
    requires Inv(s) && t < |s.threads| && Busy(s.threads[t].pc)
    ensures s.threads[t].seen <= Changes(s) <= 2 * |s.f.words|
    ensures 0 <= Phase(s.threads[t].pc, |s.f.words|) < 4 * |s.f.words| + 4
    ensures s.threads[t].pc.Find? || s.threads[t].pc.Unwind? ==> |s.threads[t].pc.path| < |s.f.words|
  {
    hide InputOk, BufferOk, BarrierOk, Acyclic, Weighted, CountsOk, Left, Conn;
    var th := s.threads[t];
    assert ThreadOk(s.f, th, Changes(s));
    FewChanges(s);
    match th.pc
    case Find(goal, path, node) => FindIsSimple(s.f, path, node);
    case Unwind(goal, path, root, rank) => FindIsSimple(s.f, path, root);
    case _ =>
  }

  /** The thread is in a lower phase, or has seen more changes, or is no longer inside `unite`. */
  predicate PhaseMoved(th: Thread, th': Thread, n: nat) {
    Busy(th'.pc) ==>
      || th'.seen > th.seen
      || (th'.seen == th.seen && Phase(th'.pc, n) < Phase(th.pc, n))
  }

  lemma FindMoves(s: State, t: nat, i: nat)
    requires t < |s.threads| && InRange(s, s.threads[t]) && (s.threads[t].pc.Find? || s.threads[t].pc.Unwind?)
    requires |s.threads[t].pc.path| < |s.f.words|
    ensures t < |Next(s, t, i).threads| && |Next(s, t, i).f.words| == |s.f.words|
    ensures PhaseMoved(s.threads[t], Next(s, t, i).threads[t], |s.f.words|)
  {}

  lemma DecideMoves(s: State, t: nat, i: nat)
    requires t < |s.threads| && InRange(s, s.threads[t]) && (s.threads[t].pc.Decide? || s.threads[t].pc.Raise?)
    requires Shaped(s.f) && ThreadOk(s.f, s.threads[t], Changes(s))
    ensures t < |Next(s, t, i).threads| && |Next(s, t, i).f.words| == |s.f.words|
    ensures PhaseMoved(s.threads[t], Next(s, t, i).threads[t], |s.f.words|)
  {
    hide Root, Component, Pow2;
  }

  /** One operation inside `unite` either moves to a lower phase or follows someone else's change of a root word. */
  lemma PhaseMoves(s: State, t: nat, i: nat)
    requires t < |s.threads| && Busy(s.threads[t].pc) && InRange(s, s.threads[t])
    requires Shaped(s.f) && ThreadOk(s.f, s.threads[t], Changes(s))
    requires s.threads[t].pc.Find? || s.threads[t].pc.Unwind? ==> |s.threads[t].pc.path| < |s.f.words|
    ensures t < |Next(s, t, i).threads| && |Next(s, t, i).f.words| == |s.f.words|
    ensures PhaseMoved(s.threads[t], Next(s, t, i).threads[t], |s.f.words|)
  {
    hide Next, PhaseMoved, InRange, ThreadOk, Shaped;
    if s.threads[t].pc.Find? || s.threads[t].pc.Unwind? { FindMoves(s, t, i); } else { DecideMoves(s, t, i); }
  }

  /** Every operation inside `unite` uses up some of the bound. */
  lemma UniteProgress(s: State, t: nat, i: nat)
    requires Inv(s) && t < |s.threads| && Busy(s.threads[t].pc)
    ensures InRange(s, s.threads[t])
    ensures var s' := Next(s, t, i);
      t < |s'.threads| && (Busy(s'.threads[t].pc) ==> Left(s', t) < Left(s, t))
  {
    StepInv(s, t, i);
    StackIsShort(s, t);
    var s', n := Next(s, t, i), |s.f.words|;
    assert Shaped(s.f) && ThreadOk(s.f, s.threads[t], Changes(s));
    PhaseMoves(s, t, i);
    if Busy(s'.threads[t].pc) {
      StackIsShort(s', t);
      hide *;
      BudgetShrinks(s.threads[t].seen, s'.threads[t].seen, Phase(s.threads[t].pc, n), Phase(s'.threads[t].pc, n), n);
    }
  }

  lemma LeftBounds(s: State, t: nat)
    requires Inv(s) && t < |s.threads| && Busy(s.threads[t].pc)
    ensures 0 <= Left(s, t) < (2 * |s.f.words| + 1) * (4 * |s.f.words| + 4)
  {
    hide Inv;
    StackIsShort(s, t);
    BudgetBounds(s.threads[t].seen, Phase(s.threads[t].pc, |s.f.words|), |s.f.words|);
  }

  lemma LeftUntouched(s: State, t: nat, i: nat, v: nat)
    requires t < |s.threads| && InRange(s, s.threads[t]) && v < |s.threads| && v != t
    ensures v < |Next(s, t, i).threads| && Left(Next(s, t, i), v) == Left(s, v)
  {
    NextFrame(s, t, i);
    assert |Next(s, t, i).f.words| == |s.f.words|;
    hide Next;
  }

  function Turns(schedule: seq<Choice>, t: nat): nat {
    if schedule == [] then 0
    else Turns(schedule[..|schedule| - 1], t) + if schedule[|schedule| - 1].t == t then 1 else 0
  }

  predicate BusyAfter(s: State, schedule: seq<Choice>, k: nat, t: nat)
    requires k <= |schedule|
  {
    var r := Run(s, schedule[..k]);
    t < |r.threads| && Busy(r.threads[t].pc)
  }

  lemma {:induction false} BusyTurns(s: State, schedule: seq<Choice>, t: nat)
    requires Inv(s) && t < |s.threads|
    requires forall k :: 0 <= k <= |schedule| ==> BusyAfter(s, schedule, k, t)
    ensures t < |Run(s, schedule).threads|
    ensures Left(Run(s, schedule), t) + Turns(schedule, t) <= Left(s, t)
  {
    hide Inv, Next, Left;
    assert schedule[..|schedule|] == schedule;
    assert BusyAfter(s, schedule, |schedule|, t);
    if schedule != [] {
      var last := |schedule| - 1;
      var before, c := schedule[..last], schedule[last];
      forall k | 0 <= k <= last ensures BusyAfter(s, before, k, t) {
        assert before[..k] == schedule[..k];
        assert BusyAfter(s, schedule, k, t);
      }
      BusyTurns(s, before, t);
      RunInv(s, before);
      var r := Run(s, before);
      if c.t < |r.threads| {
        StepInv(r, c.t, c.i);
        if c.t == t {
          assert before[..last] == before && BusyAfter(s, before, last, t);
          UniteProgress(r, t, c.i);
        } else {
          LeftUntouched(r, c.t, c.i, t);
        }
      }
    }
  }

  /**
   Every `unite` returns under every schedule: once a thread inside `unite` has been scheduled (2n+1)(4n+4) times,
   it has returned at some point, whatever the other threads did in between.
   */
  lemma UniteReturns(s: State, schedule: seq<Choice>, t: nat)
    requires Inv(s) && t < |s.threads|
    requires Turns(schedule, t) >= (2 * |s.f.words| + 1) * (4 * |s.f.words| + 4)
    ensures exists k :: 0 <= k <= |schedule| && !BusyAfter(s, schedule, k, t)
  {
    hide Inv, Next, Left;
    if forall k :: 0 <= k <= |schedule| ==> BusyAfter(s, schedule, k, t) {
      BusyTurns(s, schedule, t);
      RunInv(s, schedule);
      RunConstants(s, schedule);
      assert schedule[..|schedule|] == schedule && schedule[..0] == [];
      assert BusyAfter(s, schedule, |schedule|, t) && BusyAfter(s, schedule, 0, t);
      LeftBounds(Run(s, schedule), t);
      LeftBounds(s, t);
    }
  }

  /** No deadlock, at the end of the loop or anywhere else: until the call is complete, some step changes the state. */
  lemma SomeoneMoves(s: State)
    requires Inv(s) && s.threads != [] && !Completed(s)
    ensures exists t, i :: 0 <= t < |s.threads| && InRange(s, s.threads[t]) && Next(s, t, i) != s
  {
    hide LinksOk, InputOk, BufferOk, CountsOk, ThreadOk;
    if t :| 0 <= t < |s.threads| && s.threads[t].pc != Finished && s.threads[t].pc != Idle {
      InvInRange(s, t);
      var s' := Next(s, t, 0);
      assert s'.threads[t] != s.threads[t];
    } else {
      var t :| 0 <= t < |s.threads| && s.threads[t].pc != Finished;
      InvInRange(s, t);
      if s.pending != {} {
        var j :| j in s.pending;
        assert Next(s, t, j).threads[t].pc != Idle;
      } else {
        assert LoopDone(s);
        assert Next(s, t, 0).threads[t].pc != Idle;
      }
    }
  }
}
