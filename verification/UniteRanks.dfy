/**
 Union by rank: what the rank bumps and the compressions of addEdges achieve. With any number of threads every root
 outranks its children as soon as nobody is about to raise it; with one thread at a time ranks increase strictly along
 all parent pointers, so finds are logarithmic, and each find leaves its start pointing directly at the root.
 */
module UniteRanks {
  import opened Graphs
  import opened Forest
  import opened UniteMachine
  import opened UniteSafety
  import opened UniteRuns

  /** Some thread has linked at a tie and is about to raise the winner w. */
  predicate AboutToRaise(threads: seq<Thread>, w: nat, rank: nat) {
    exists t :: 0 <= t < |threads| && threads[t].pc == Raise(w, rank)
  }

  /** If u's parent is a root, it outranks u, or somebody is about to see to that. */
  predicate Outranked(f: Forest, threads: seq<Thread>, u: nat)
    requires Shaped(f) && u < |f.words|
  {
    f.words[u] >= 0 && IsRoot(f, f.words[u]) ==>
      f.ranks[u] < f.ranks[f.words[u]] || AboutToRaise(threads, f.words[u], f.ranks[u])
  }

  predicate RootsOutrank(s: State)
    requires Shaped(s.f)
  {
    forall u :: 0 <= u < |s.f.words| ==> Outranked(s.f, s.threads, u)
  }

  /** Once its thread has moved on, the winner of a tie no longer shows the rank of the loser. */
  lemma RaiseRises(s: State, t: nat, i: nat)
    requires Valid(s.f) && t < |s.threads| && ThreadOk(s.f, s.threads[t], Changes(s)) && InRange(s, s.threads[t])
    requires s.threads[t].pc.Raise?
    ensures var s', w, rank := Next(s, t, i), s.threads[t].pc.w, s.threads[t].pc.rank;
      && Shaped(s'.f) && |s'.f.words| == |s.f.words| && w < |s.f.words|
      && (IsRoot(s'.f, w) ==> rank < s'.f.ranks[w])
  {
    StepEvolves(s, t, i);
    hide Root, Component, Weighted, Pow2;
  }

  lemma RaiseOutranks(s: State, t: nat, i: nat, u: nat)
    requires Inv(s) && t < |s.threads| && InRange(s, s.threads[t]) && s.threads[t].pc.Raise? && u < |s.f.words|
    requires RootsOutrank(s)
    ensures var s' := Next(s, t, i);
      Shaped(s'.f) && |s'.f.words| == |s.f.words| && Outranked(s'.f, s'.threads, u)
  {
    RaiseRises(s, t, i);
    StepIsAction(s, t, i);
    StepEvolves(s, t, i);
    NextFrame(s, t, i);
    BumpOutranks(s, t, Next(s, t, i), u) by { assert Outranked(s.f, s.threads, u); }
  }

  lemma BumpOutranks(s: State, t: nat, s': State, u: nat)
    requires Shaped(s.f) && t < |s.threads| && s.threads[t].pc.Raise? && u < |s.f.words|
    requires |s'.threads| == |s.threads| && s'.threads == s.threads[t := s'.threads[t]] && Later(s.f, s'.f)
    requires var w := s.threads[t].pc.w;
      && w < |s.f.words| && (IsRoot(s'.f, w) ==> s.threads[t].pc.rank < s'.f.ranks[w])
      && (s'.f == s.f || (IsRoot(s.f, w) && s'.f == Promote(s.f, w)))
    requires Outranked(s.f, s.threads, u)
    ensures Outranked(s'.f, s'.threads, u)
  {
    hide Root, Same;
    var p := s.f.words[u];
    if p >= 0 && IsRoot(s.f, p) && AboutToRaise(s.threads, p, s.f.ranks[u]) {
      var v :| 0 <= v < |s.threads| && s.threads[v].pc == Raise(p, s.f.ranks[u]);
      if v != t { assert s'.threads[v].pc == Raise(p, s.f.ranks[u]); }
    }
  }

  /** The last node before the representative on the way up from x. */
  lemma {:induction false} LastHop(f: Forest, x: nat) returns (q: nat)
    requires Shaped(f) && x < |f.words| && f.words[x] >= 0
    ensures q < |f.words| && f.words[q] == Root(f, x) && f.ranks[x] <= f.ranks[q]
    decreases MaxRank(f.ranks) - f.ranks[x], |f.words| - x
  {
    if f.words[f.words[x]] < 0 { q := x; } else { q := LastHop(f, f.words[x]); }
  }

  lemma StillAboutToRaise(threads: seq<Thread>, t: nat, th: Thread, w: nat, rank: nat)
    requires t < |threads| && !threads[t].pc.Raise? && AboutToRaise(threads, w, rank)
    ensures AboutToRaise(threads[t := th], w, rank)
  {
    var v :| 0 <= v < |threads| && threads[v].pc == Raise(w, rank);
    assert threads[t := th][v].pc == Raise(w, rank);
  }

  /** A compression hangs its node below a root under which the node's path had arrived already. */
  lemma CompressOutranks(f: Forest, threads: seq<Thread>, x: nat, r: nat, u: nat)
    requires Shaped(f) && u < |f.words| && Enabled(f, Compress(x, r))
    requires forall v :: 0 <= v < |f.words| ==> Outranked(f, threads, v)
    ensures Shaped(SetParent(f, x, r)) && Outranked(SetParent(f, x, r), threads, u)
  {
    ApplyShaped(f, Compress(x, r));
    assert Outranked(f, threads, u);
    if u == x && IsRoot(f, r) {
      var q := LastHop(f, x);
      assert Outranked(f, threads, q) && Root(f, r) == r;
    }
  }

  /** A link at a tie leaves its thread about to raise the winner. */
  lemma TieIsRaised(s: State, t: nat, i: nat)
    requires Shaped(s.f) && t < |s.threads| && ThreadOk(s.f, s.threads[t], Changes(s)) && InRange(s, s.threads[t])
    requires ActionOf(s, t).Link?
    ensures var Link(a, b) := ActionOf(s, t);
      && a < |s.f.words| && b < |s.f.words| && IsRoot(s.f, a) && s.threads[t].pc.Decide?
      && t < |Next(s, t, i).threads|
      && (s.f.ranks[a] < s.f.ranks[b] || Next(s, t, i).threads[t].pc == Raise(b, s.f.ranks[a]))
  {
    hide Root, Same;
  }

  lemma LinkOutranks(s: State, t: nat, i: nat, u: nat)
    requires Inv(s) && t < |s.threads| && InRange(s, s.threads[t]) && ActionOf(s, t).Link? && u < |s.f.words|
    requires RootsOutrank(s)
    ensures var s' := Next(s, t, i);
      Shaped(s'.f) && |s'.f.words| == |s.f.words| && Outranked(s'.f, s'.threads, u)
  {
    hide InputOk, BufferOk, BarrierOk, CountsOk, Next, InRange;
    var s', act := Next(s, t, i), ActionOf(s, t);
    StepIsAction(s, t, i);
    ApplyShaped(s.f, act);
    TieIsRaised(s, t, i);
    NextFrame(s, t, i);
    hide Inv, ThreadOk, ActionOf;
    assert Outranked(s.f, s.threads, u);
    var p := s.f.words[u];
    if p >= 0 && AboutToRaise(s.threads, p, s.f.ranks[u]) {
      StillAboutToRaise(s.threads, t, s'.threads[t], p, s.f.ranks[u]);
    }
  }

  lemma OtherOutranks(s: State, t: nat, i: nat, u: nat)
    requires Inv(s) && t < |s.threads| && InRange(s, s.threads[t]) && u < |s.f.words|
    requires !ActionOf(s, t).Link? && !s.threads[t].pc.Raise? && RootsOutrank(s)
    ensures var s' := Next(s, t, i);
      Shaped(s'.f) && |s'.f.words| == |s.f.words| && Outranked(s'.f, s'.threads, u)
  {
    hide InputOk, BufferOk, BarrierOk, CountsOk, Next, InRange;
    var s', act := Next(s, t, i), ActionOf(s, t);
    StepIsAction(s, t, i);
    ApplyShaped(s.f, act);
    NextFrame(s, t, i);
    NoBump(s, t);
    hide Inv, ThreadOk, ActionOf;
    if act.Compress? { CompressOutranks(s.f, s.threads, act.x, act.r, u); }
    assert Outranked(s.f, s.threads, u) && Outranked(s'.f, s.threads, u);
    var p := s'.f.words[u];
    if p >= 0 && AboutToRaise(s.threads, p, s'.f.ranks[u]) {
      StillAboutToRaise(s.threads, t, s'.threads[t], p, s'.f.ranks[u]);
    }
  }

  lemma NoBump(s: State, t: nat)
    requires t < |s.threads| && InRange(s, s.threads[t]) && !s.threads[t].pc.Raise?
    ensures !ActionOf(s, t).Bump?
  {}

  lemma OutrankStep(s: State, t: nat, i: nat)
    requires Inv(s) && t < |s.threads| && InRange(s, s.threads[t]) && RootsOutrank(s)
    ensures Shaped(Next(s, t, i).f) && RootsOutrank(Next(s, t, i))
  {
    hide Inv, InRange, Next, ActionOf, Outranked;
    var s' := Next(s, t, i);
    StepInv(s, t, i);
    SameSize(s, t, i);
    forall u | 0 <= u < |s'.f.words| ensures Outranked(s'.f, s'.threads, u) {
      if s.threads[t].pc.Raise? { RaiseOutranks(s, t, i, u); }
      else if ActionOf(s, t).Link? { LinkOutranks(s, t, i, u); }
      else { OtherOutranks(s, t, i, u); }
    }
  }

  lemma SameSize(s: State, t: nat, i: nat)
    requires Inv(s) && t < |s.threads| && InRange(s, s.threads[t])
    ensures Shaped(s.f) && Shaped(Next(s, t, i).f) && |Next(s, t, i).f.words| == |s.f.words|
  {
    hide InputOk, BufferOk, BarrierOk, CountsOk, Next;
    StepEvolves(s, t, i);
  }

  lemma InvShaped(s: State)
    requires Inv(s)
    ensures Shaped(s.f)
  {}

  lemma {:induction false} RunOutranks(s: State, schedule: seq<Choice>)
    requires Inv(s) && RootsOutrank(s)
    ensures Shaped(Run(s, schedule).f) && RootsOutrank(Run(s, schedule))
  {
    hide Inv, RootsOutrank, Next, InRange;
    InvShaped(s);
    if schedule != [] {
      var last := |schedule| - 1;
      RunInv(s, schedule[..last]);
      RunOutranks(s, schedule[..last]);
      var r, c := Run(s, schedule[..last]), schedule[last];
      if c.t < |r.threads| && InRange(r, r.threads[c.t]) { OutrankStep(r, c.t, c.i); }
    }
  }

  lemma StartOutranks(s: State, edges: seq<Edge>, numThreads: nat)
    requires Inv(s) && Completed(s) && RootsOutrank(s)
    ensures Shaped(s.f) && RootsOutrank(Start(s, edges, numThreads))
  {
    hide LinksOk, InputOk, BufferOk, BarrierOk, CountsOk, ThreadOk, Shaped;
    InvShaped(s);
    forall u | 0 <= u < |s.f.words| ensures Outranked(s.f, Start(s, edges, numThreads).threads, u) {
      assert Outranked(s.f, s.threads, u);
    }
  }

  lemma {:induction false} LifeOutranks(life: Life)
    requires Proper(life)
    ensures Shaped(StateOf(life).f) && RootsOutrank(StateOf(life))
  {
    hide Inv, RootsOutrank, Start;
    LifeInv(life);
    InvShaped(StateOf(life));
    match life
    case Created(n) => FirstOutranks(n);
    case Call(before, edges, numThreads, schedule) =>
      LifeInv(before);
      LifeOutranks(before);
      StartOutranks(StateOf(before), edges, numThreads);
      StartInv(StateOf(before), edges, numThreads);
      RunOutranks(Start(StateOf(before), edges, numThreads), schedule);
  }

  lemma FirstOutranks(n: nat)
    ensures Shaped(Construct(n).f) && RootsOutrank(Construct(n))
  {}

  /**
   With any number of threads under any schedule, every root ranks above all its children, but for a tie that a thread
   is just about to break; in particular above all of them once the call is complete.
   */
  lemma RootsOutrankChildren(life: Life, u: nat)
    requires Proper(life) && u < Size(life)
    ensures var s := StateOf(life); var f := s.f;
      && |f.words| == |f.ranks| == Size(life)
      && (f.words[u] >= 0 ==> f.words[u] < |f.words|)
      && (f.words[u] >= 0 && IsRoot(f, f.words[u]) ==>
            f.ranks[u] < f.ranks[f.words[u]] || AboutToRaise(s.threads, f.words[u], f.ranks[u]))
      && (Completed(s) && f.words[u] >= 0 && IsRoot(f, f.words[u]) ==> f.ranks[u] < f.ranks[f.words[u]])
  {
    hide Inv, StateOf, Proper;
    LifeInv(life);
    LifeOutranks(life);
    assert Outranked(StateOf(life).f, StateOf(life).threads, u);
  }

  // ---------- One thread at a time ----------

  /** Every call of the life ran on one thread. */
  predicate Lone(life: Life) {
    life.Call? ==> life.numThreads == 1 && Lone(life.before)
  }

  /** Nodes whose parent is no root either rank strictly below it. */
  predicate InnerRanked(f: Forest)
    requires Shaped(f)
  {
    forall u :: 0 <= u < |f.words| && f.words[u] >= 0 && f.words[f.words[u]] >= 0 ==> f.ranks[u] < f.ranks[f.words[u]]
  }

  /** The stack starts at `start`, and every frame's word still is what was read there. */
  predicate AsRead(f: Forest, path: seq<Hop>, start: nat) {
    && (path != [] ==> path[0].node == start)
    && forall i :: 0 <= i < |path| ==> path[i].node < |f.words| && f.words[path[i].node] == path[i].parent
  }

  /** Each frame leads to the next one, and the last to `node`. */
  predicate Chained(path: seq<Hop>, node: nat) {
    forall i {:trigger path[i]} :: 0 <= i < |path| ==>
      path[i].parent == if i + 1 < |path| then path[i + 1].node else node
  }

  /** The first find is over: the edge's first end is at the root found, or points at it. */
  predicate FirstDone(f: Forest, th: Thread, goal: Goal) {
    match goal
    case First(b) => b == th.edge.b
    case Second(a, _) => Near(f, th.edge.a, a)
  }

  /** A thread that runs alone finds its words as it left them. */
  predicate Tracks(f: Forest, th: Thread) {
    match th.pc
    case Find(goal, path, node) =>
      && FirstDone(f, th, goal) && AsRead(f, path, Target(goal, th.edge)) && Chained(path, node)
      && (path == [] ==> node == Target(goal, th.edge))
    case Unwind(goal, path, root, _) =>
      && FirstDone(f, th, goal) && AsRead(f, path, Target(goal, th.edge))
      && (path == [] ==> Near(f, Target(goal, th.edge), root))
    case Decide(a, _, b, _) => Near(f, th.edge.a, a) && Near(f, th.edge.b, b)
    case _ => true
  }

  predicate Alone(s: State)
    requires Shaped(s.f)
  {
    && |s.threads| == 1 && InnerRanked(s.f) && Tracks(s.f, s.threads[0])
    && (Busy(s.threads[0].pc) && !s.threads[0].pc.Raise? ==> s.threads[0].seen == Changes(s))
  }

  lemma AloneRanked(s: State)
    requires Shaped(s.f) && Alone(s) && RootsOutrank(s) && !s.threads[0].pc.Raise?
    ensures Ranked(s.f)
  {
    forall u | 0 <= u < |s.f.words| && s.f.words[u] >= 0 ensures s.f.ranks[u] < s.f.ranks[s.f.words[u]] {
      assert Outranked(s.f, s.threads, u);
    }
  }

  lemma InnerStep(s: State, i: nat)
    requires Inv(s) && RootsOutrank(s) && Alone(s) && InRange(s, s.threads[0])
    ensures Shaped(Next(s, 0, i).f) && InnerRanked(Next(s, 0, i).f)
  {
    hide InputOk, BufferOk, BarrierOk, CountsOk, Next, InRange, ActionOf, Tracks, RootsOutrank, Ranked, InnerRanked;
    var act := ActionOf(s, 0);
    StepIsAction(s, 0, i);
    if s.threads[0].pc.Raise? { NoLinkHere(s); } else { AloneRanked(s); }
    RootIsFresh(s);
    InnerApply(s.f, act);
  }

  lemma InnerApply(f: Forest, act: Action)
    requires Shaped(f) && Enabled(f, act) && InnerRanked(f)
    requires act.Link? ==> Ranked(f) && act.b < |f.words| && IsRoot(f, act.b)
    requires act.Compress? ==> act.r < |f.words| && IsRoot(f, act.r)
    ensures Shaped(Apply(f, act)) && InnerRanked(Apply(f, act))
  {
    hide Root, Same, Component;
    ApplyShaped(f, act);
    var g := Apply(f, act);
    forall u | 0 <= u < |g.words| && g.words[u] >= 0 && g.words[g.words[u]] >= 0
      ensures g.ranks[u] < g.ranks[g.words[u]]
    {
      if g.words[u] == f.words[u] { assert f.words[f.words[u]] >= 0 || act.Link?; }
    }
  }

  lemma NoLinkHere(s: State)
    requires |s.threads| == 1 && InRange(s, s.threads[0]) && s.threads[0].pc.Raise?
    ensures ActionOf(s, 0).Stay? || ActionOf(s, 0).Bump?
  {}

  /** What a lone thread compresses to or links below still is a root. */
  lemma RootIsFresh(s: State)
    requires Shaped(s.f) && Alone(s) && ThreadOk(s.f, s.threads[0], Changes(s)) && InRange(s, s.threads[0])
    ensures var act := ActionOf(s, 0);
      && (act.Compress? ==> act.r < |s.f.words| && IsRoot(s.f, act.r))
      && (act.Link? ==> act.b < |s.f.words| && IsRoot(s.f, act.b))
  {
    hide Root, Same, Tracks, InnerRanked, Climbs;
  }

  lemma TrackFind(s: State, i: nat)
    requires |s.threads| == 1 && InRange(s, s.threads[0]) && s.threads[0].pc.Find? && Tracks(s.f, s.threads[0])
    ensures |Next(s, 0, i).threads| == 1 && Tracks(Next(s, 0, i).f, Next(s, 0, i).threads[0])
  {
    var Find(goal, path, node) := s.threads[0].pc;
    var w := s.f.words[node];
    if w >= 0 {
      ChainedMore(path, node, w);
      assert AsRead(s.f, path + [Hop(node, w)], Target(goal, s.threads[0].edge));
    }
  }

  lemma ChainedMore(path: seq<Hop>, node: nat, w: nat)
    requires Chained(path, node)
    ensures Chained(path + [Hop(node, w)], w)
  {
    var more := path + [Hop(node, w)];
    forall i | 0 <= i < |more| ensures more[i].parent == if i + 1 < |more| then more[i + 1].node else w {
      if i < |path| { assert path[i] == more[i]; }
    }
  }

  /** What a lone thread relies on when it compresses its last frame. */
  lemma FrameIsFresh(s: State)
    requires Shaped(s.f) && Alone(s) && ThreadOk(s.f, s.threads[0], Changes(s)) && InRange(s, s.threads[0])
    requires s.threads[0].pc.Unwind? && s.threads[0].pc.path != []
    ensures var Unwind(goal, path, root, _) := s.threads[0].pc; var h := path[|path| - 1];
      && h.node < |s.f.words| && root < |s.f.words| && s.f.words[h.node] == h.parent < |s.f.words|
      && (IsRoot(s.f, h.parent) ==> h.parent == root)
      && (forall k :: 0 <= k < |path| - 1 ==> path[k].node != h.node)
      && (goal.Second? ==> goal.a < |s.f.words| && IsRoot(s.f, goal.a))
  {
    hide InnerRanked;
    var path := s.threads[0].pc.path;
    var h := path[|path| - 1];
    ClimbsUp(s.f, path, s.threads[0].pc.root);
    assert Same(s.f, h.node, s.threads[0].pc.root) && Root(s.f, h.node) == Root(s.f, h.parent);
    assert Root(s.f, s.threads[0].pc.root) == s.threads[0].pc.root;
  }

  lemma TrackUnwind(s: State, i: nat)
    requires Shaped(s.f) && Alone(s) && ThreadOk(s.f, s.threads[0], Changes(s)) && InRange(s, s.threads[0])
    requires s.threads[0].pc.Unwind?
    ensures |Next(s, 0, i).threads| == 1 && Tracks(Next(s, 0, i).f, Next(s, 0, i).threads[0])
  {
    hide Climbs, Root, InnerRanked, ThreadOk;
    if s.threads[0].pc.path != [] { FrameIsFresh(s); }
    hide Shaped;
  }

  /** A lone thread's link never fails, so it never starts over. */
  lemma DecideGoesOn(s: State, i: nat)
    requires Shaped(s.f) && Alone(s) && ThreadOk(s.f, s.threads[0], Changes(s)) && InRange(s, s.threads[0])
    requires s.threads[0].pc.Decide?
    ensures |Next(s, 0, i).threads| == 1 && (Next(s, 0, i).threads[0].pc.Idle? || Next(s, 0, i).threads[0].pc.Raise?)
    ensures Tracks(Next(s, 0, i).f, Next(s, 0, i).threads[0])
  {
    hide Root, InnerRanked, Near;
  }

  lemma TrackOther(s: State, i: nat)
    requires |s.threads| == 1 && InRange(s, s.threads[0])
    requires var pc := s.threads[0].pc; !pc.Find? && !pc.Unwind? && !pc.Decide?
    ensures |Next(s, 0, i).threads| == 1 && Tracks(Next(s, 0, i).f, Next(s, 0, i).threads[0])
  {}

  lemma SeenStep(s: State, i: nat)
    requires Shaped(s.f) && Alone(s) && ThreadOk(s.f, s.threads[0], Changes(s)) && InRange(s, s.threads[0])
    ensures var s' := Next(s, 0, i);
      && |s'.threads| == 1
      && (Busy(s'.threads[0].pc) && !s'.threads[0].pc.Raise? ==> s'.threads[0].seen == Changes(s'))
  {
    hide Root, InnerRanked, Tracks, ThreadOk, Next, InRange;
    if s.threads[0].pc.Decide? { DecideGoesOn(s, i); } else { SeenOther(s, i); }
  }

  lemma SeenOther(s: State, i: nat)
    requires |s.threads| == 1 && InRange(s, s.threads[0]) && !s.threads[0].pc.Decide?
    requires Busy(s.threads[0].pc) && !s.threads[0].pc.Raise? ==> s.threads[0].seen == Changes(s)
    ensures var s' := Next(s, 0, i);
      && |s'.threads| == 1
      && (Busy(s'.threads[0].pc) && !s'.threads[0].pc.Raise? ==> s'.threads[0].seen == Changes(s'))
  {}

  lemma AloneStep(s: State, i: nat)
    requires Inv(s) && RootsOutrank(s) && Alone(s) && InRange(s, s.threads[0])
    ensures Shaped(Next(s, 0, i).f) && Alone(Next(s, 0, i))
  {
    hide InputOk, BufferOk, BarrierOk, CountsOk, Next, InRange, Tracks, RootsOutrank, InnerRanked, ThreadOk;
    assert ThreadOk(s.f, s.threads[0], Changes(s));
    InnerStep(s, i);
    SeenStep(s, i);
    match s.threads[0].pc
    case Find(_, _, _) => TrackFind(s, i);
    case Unwind(_, _, _, _) => TrackUnwind(s, i);
    case Decide(_, _, _, _) => DecideGoesOn(s, i);
    case _ => TrackOther(s, i);
  }

  lemma {:induction false} RunAlone(s: State, schedule: seq<Choice>)
    requires Inv(s) && RootsOutrank(s) && Alone(s)
    ensures Shaped(Run(s, schedule).f) && Alone(Run(s, schedule))
  {
    hide Inv, RootsOutrank, Next, InRange, Tracks, InnerRanked;
    InvShaped(s);
    if schedule != [] {
      var last := |schedule| - 1;
      RunInv(s, schedule[..last]);
      RunOutranks(s, schedule[..last]);
      RunAlone(s, schedule[..last]);
      var r, c := Run(s, schedule[..last]), schedule[last];
      if c.t < |r.threads| && InRange(r, r.threads[c.t]) { AloneStep(r, c.i); }
    }
  }

  lemma StartAlone(s: State, edges: seq<Edge>)
    requires Inv(s) && Completed(s) && RootsOutrank(s) && InnerRanked(s.f)
    ensures Shaped(s.f) && Alone(Start(s, edges, 1))
  {
    hide LinksOk, InputOk, BufferOk, BarrierOk, CountsOk, ThreadOk, RootsOutrank;
    InvShaped(s);
  }

  lemma {:induction false} LifeAlone(life: Life)
    requires Proper(life) && Lone(life)
    ensures Shaped(StateOf(life).f) && InnerRanked(StateOf(life).f) && (life.Call? ==> Alone(StateOf(life)))
  {
    hide Inv, RootsOutrank, Start, Alone, InnerRanked;
    LifeInv(life);
    InvShaped(StateOf(life));
    match life
    case Created(n) => FirstInner(n);
    case Call(before, edges, numThreads, schedule) =>
      LifeInv(before);
      LifeAlone(before);
      LifeOutranks(before);
      StartAlone(StateOf(before), edges);
      StartInv(StateOf(before), edges, 1);
      StartOutranks(StateOf(before), edges, 1);
      RunAlone(Start(StateOf(before), edges, 1), schedule);
      AloneInner(StateOf(life));
  }

  lemma FirstInner(n: nat)
    ensures Shaped(Construct(n).f) && InnerRanked(Construct(n).f)
  {}

  lemma AloneInner(s: State)
    requires Shaped(s.f) && Alone(s)
    ensures InnerRanked(s.f)
  {}

  /** The node the running find started from. */
  function Started(th: Thread): nat
    requires th.pc.Find?
  {
    Target(th.pc.goal, th.edge)
  }

  lemma {:induction false} DepthOfPath(f: Forest, path: seq<Hop>, start: nat, node: nat)
    requires Shaped(f) && node < |f.words| && AsRead(f, path, start) && Chained(path, node)
    requires path == [] ==> node == start
    ensures start < |f.words| && Depth(f, start) == |path| + Depth(f, node)
    ensures Root(f, start) == Root(f, node)
  {
    hide Shaped;
    if path != [] {
      var last := |path| - 1;
      assert path[last].parent == node;
      DepthOfPath(f, path[..last], start, path[last].node);
    }
  }

  /**
   When calls run on one thread each, ranks increase strictly along all parent pointers unless that thread is about to
   raise one; every node's representative is then fewer steps away than its rank, and at most log2 n steps.
   */
  lemma LoneRanks(life: Life, u: nat)
    requires Proper(life) && Lone(life) && u < Size(life)
    requires forall t :: 0 <= t < |StateOf(life).threads| ==> !StateOf(life).threads[t].pc.Raise?
    ensures var f := StateOf(life).f;
      && Shaped(f) && Ranked(f) && u < |f.words|
      && Depth(f, u) < f.ranks[Root(f, u)] && Pow2(Depth(f, u)) <= Size(life)
  {
    hide InputOk, BufferOk, BarrierOk, CountsOk, ThreadOk, StateOf, Alone, InnerRanked, Depth;
    LifeInv(life);
    LifeAlone(life);
    LifeOutranks(life);
    InnerIsRanked(StateOf(life));
    ShortPaths(StateOf(life).f, u);
  }

  lemma InnerIsRanked(s: State)
    requires Shaped(s.f) && RootsOutrank(s) && InnerRanked(s.f)
    requires forall t :: 0 <= t < |s.threads| ==> !s.threads[t].pc.Raise?
    ensures Ranked(s.f)
  {
    forall u | 0 <= u < |s.f.words| && s.f.words[u] >= 0 ensures s.f.ranks[u] < s.f.ranks[s.f.words[u]] {
      assert Outranked(s.f, s.threads, u);
    }
  }

  /** A find of a lone thread has read `path` words and reads Depth more before it is at the root: at most log2 n. */
  lemma LoneFind(life: Life)
    requires Proper(life) && Lone(life) && life.Call? && |StateOf(life).threads| == 1
    requires StateOf(life).threads[0].pc.Find?
    ensures var s := StateOf(life); var th := s.threads[0];
      && Shaped(s.f) && Started(th) < |s.f.words| && th.pc.node < |s.f.words|
      && Root(s.f, Started(th)) == Root(s.f, th.pc.node)
      && Depth(s.f, Started(th)) == |th.pc.path| + Depth(s.f, th.pc.node)
      && Depth(s.f, Started(th)) < s.f.ranks[Root(s.f, Started(th))]
      && Pow2(Depth(s.f, Started(th))) <= Size(life)
  {
    hide InputOk, BufferOk, BarrierOk, CountsOk, StateOf, InnerRanked, Depth, Proper, Root, Ranked;
    LifeInv(life);
    LifeAlone(life);
    var s := StateOf(life);
    assert ThreadOk(s.f, s.threads[0], Changes(s));
    DepthOfPath(s.f, s.threads[0].pc.path, Started(s.threads[0]), s.threads[0].pc.node);
    LoneRanks(life, Started(s.threads[0]));
  }

  /** When a lone thread decides, its two finds have left each end of the edge at its root or pointing at it. */
  lemma LoneFindsCompress(life: Life)
    requires Proper(life) && Lone(life) && life.Call? && |StateOf(life).threads| == 1
    requires StateOf(life).threads[0].pc.Decide?
    ensures var s := StateOf(life); var Decide(a, _, b, _) := s.threads[0].pc;
      Near(s.f, s.threads[0].edge.a, a) && Near(s.f, s.threads[0].edge.b, b)
  {
    hide StateOf, InnerRanked, Near, Proper;
    LifeAlone(life);
  }
}
