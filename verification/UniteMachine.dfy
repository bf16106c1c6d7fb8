/**
 One call of addEdges, executed by any number of threads. Every step is one atomic operation (or local work) of one
 thread, and a schedule may interleave the threads in any order.
 `links`, `bumps`, `planned`, `seen` and `Forest.ranks` are history variables: no step reads them to decide what to do.
 */
module UniteMachine {
  import opened Graphs
  import opened Forest

  /** A stack frame of the recursive find: the node and the parent that was read for it. */
  datatype Hop = Hop(node: nat, parent: nat)

  /** Which of the two finds of `unite` is running. */
  datatype Goal = First(b: nat) | Second(a: nat, rankA: nat)

  datatype Pc =
    | Idle                                                  // about to ask the loop for an edge
    | Find(goal: Goal, path: seq<Hop>, node: nat)           // about to load the word of `node`
    | Unwind(goal: Goal, path: seq<Hop>, root: nat, rank: nat)  // about to compress the last frame of `path`
    | Decide(a: nat, rankA: nat, b: nat, rankB: nat)        // about to compare the roots and try to link
    | Raise(w: nat, rank: nat)                              // about to raise the winner's rank
    | Copy(pos: nat, k: nat)                                // about to write kept[k] to slot pos + k
    | Finished

  datatype Thread = Thread(pc: Pc, index: nat, edge: Edge, kept: seq<Edge>, seen: nat)

  datatype State = State(
    f: Forest,
    edges: seq<Edge>,            // the edges of this call
    earlier: multiset<Edge>,     // the edges of all calls before
    pending: set<nat>,           // indices no thread has taken yet
    threads: seq<Thread>,
    num: nat,                    // num_filtered_edges
    buffer: seq<Edge>,           // filtered_edges
    links: seq<Edge>,            // history: edges whose link succeeded, in that order
    bumps: nat,                  // history: successful rank bumps
    planned: seq<Edge>)          // history: what the reserved part of the buffer is to hold

  function Changes(s: State): nat { |s.links| + s.bumps }

  predicate Busy(pc: Pc) { pc.Find? || pc.Unwind? || pc.Decide? || pc.Raise? }

  predicate LoopDone(s: State) {
    s.pending == {} && forall t :: 0 <= t < |s.threads| ==> !Busy(s.threads[t].pc)
  }

  predicate GoalInRange(goal: Goal, n: nat) {
    match goal case First(b) => b < n case Second(a, _) => a < n
  }

  predicate InRange(s: State, th: Thread) {
    var n := |s.f.words|;
    && |s.f.ranks| == n
    && match th.pc
       case Find(goal, path, node) => GoalInRange(goal, n) && node < n && forall h :: h in path ==> h.node < n
       case Unwind(goal, path, root, rank) => GoalInRange(goal, n) && root < n && forall h :: h in path ==> h.node < n
       case Decide(a, _, b, _) => a < n && b < n
       case Raise(w, _) => w < n
       case Copy(pos, k) => pos + |th.kept| <= |s.buffer|
       case _ => true
  }

  /** Compare-and-swap on one word; the rank history follows the words of roots. */
  function Cas(f: Forest, u: nat, expected: int, desired: int): Forest
    requires u < |f.words| == |f.ranks|
  {
    if f.words[u] != expected then f
    else Forest(f.words[u := desired], if desired < 0 then f.ranks[u := FromRankRepr(desired)] else f.ranks)
  }

  function Goto(s: State, t: nat, pc: Pc): State
    requires t < |s.threads|
  {
    s.(threads := s.threads[t := s.threads[t].(pc := pc)])
  }

  /** The call returned true: the edge goes to the thread's own list. */
  function Keep(s: State, t: nat): State
    requires t < |s.threads|
  {
    var th := s.threads[t];
    s.(threads := s.threads[t := th.(pc := Idle, kept := th.kept + [th.edge])])
  }

  function Retry(s: State, t: nat, a: nat, b: nat): State
    requires t < |s.threads|
  {
    s.(threads := s.threads[t := s.threads[t].(pc := Find(First(b), [], a), seen := Changes(s))])
  }

  function Linked(s: State, t: nat, child: nat, parent: nat): State
    requires t < |s.threads| && child < |s.f.words| == |s.f.ranks|
  {
    s.(f := Cas(s.f, child, s.f.words[child], parent), links := s.links + [s.threads[t].edge])
  }

  /** Which root is to be hung below which: the lower rank, or the smaller id if the ranks tie. */
  datatype Verdict = SameRoot | Hang(child: nat, childRank: nat, parent: nat, parentRank: nat)

  function Choose(a: nat, rankA: nat, b: nat, rankB: nat): Verdict {
    if a == b then SameRoot
    else if rankA < rankB then Hang(a, rankA, b, rankB)
    else if rankA > rankB then Hang(b, rankB, a, rankA)
    else if a < b then Hang(a, rankA, b, rankB)
    else Hang(b, rankB, a, rankA)
  }

  function DecideStep(s: State, t: nat, a: nat, rankA: nat, b: nat, rankB: nat): State
    requires t < |s.threads| && a < |s.f.words| == |s.f.ranks| && b < |s.f.words|
  {
    match Choose(a, rankA, b, rankB)
    case SameRoot => Goto(s, t, Idle)
    case Hang(child, childRank, parent, parentRank) =>
      if s.f.words[child] != ToRankRepr(childRank) then Retry(s, t, a, b)
      else if childRank == parentRank then Goto(Linked(s, t, child, parent), t, Raise(parent, parentRank))
      else Keep(Linked(s, t, child, parent), t)
  }

  /** What thread t does next; i is the edge index the loop hands out, if it hands one out now. */
  function Next(s: State, t: nat, i: nat): State
    requires t < |s.threads| && InRange(s, s.threads[t])
  {
    var th := s.threads[t];
    match th.pc
    case Idle =>
      if i in s.pending && i < |s.edges| then
        var e := s.edges[i];
        s.(pending := s.pending - {i},
           threads := s.threads[t := th.(pc := Find(First(e.b), [], e.a), index := i, edge := e, seen := Changes(s))])
      else if LoopDone(s) then
        Goto(s, t, Copy(s.num, 0)).(num := s.num + |th.kept|, planned := s.planned + th.kept)
      else s
    case Find(goal, path, node) =>
      var w := s.f.words[node];
      if w < 0 then Goto(s, t, Unwind(goal, path, node, FromRankRepr(w)))
      else Goto(s, t, Find(goal, path + [Hop(node, w)], w))
    case Unwind(goal, path, root, rank) =>
      if path == [] then
        match goal
        case First(b) => Goto(s, t, Find(Second(root, rank), [], b))
        case Second(a, rankA) => Goto(s, t, Decide(a, rankA, root, rank))
      else
        var h := path[|path| - 1];
        Goto(s, t, Unwind(goal, path[..|path| - 1], root, rank))
          .(f := if h.parent != root then Cas(s.f, h.node, h.parent, root) else s.f)
    case Decide(a, rankA, b, rankB) => DecideStep(s, t, a, rankA, b, rankB)
    case Raise(w, rank) =>
      Keep(s, t).(f := Cas(s.f, w, ToRankRepr(rank), ToRankRepr(rank + 1)),
                  bumps := s.bumps + if s.f.words[w] == ToRankRepr(rank) then 1 else 0)
    case Copy(pos, k) =>
      if k < |th.kept| then Goto(s, t, Copy(pos, k + 1)).(buffer := s.buffer[pos + k := th.kept[k]])
      else s.(threads := s.threads[t := th.(pc := Finished, kept := [])])
    case Finished => s
  }

  // ---------- What one thread knows, whoever runs in between ----------

  /** The thread read rank k at u; if no root word has changed since, u still is a root of that rank. */
  predicate Known(f: Forest, u: nat, k: nat, stale: bool)
    requires |f.ranks| == |f.words|
  {
    u < |f.words| && 1 <= k <= f.ranks[u] && (stale || f.words[u] == ToRankRepr(k))
  }

  /** Frames climb strictly in the (rank, id) order up to `top`, inside one component. */
  predicate Climbs(f: Forest, path: seq<Hop>, top: nat)
    requires Shaped(f) && top < |f.words|
  {
    && (forall i :: 0 <= i < |path| ==>
          var u := path[i].node;
          u < |f.words| && f.words[u] >= 0 && Same(f, u, top) && Below(f, u, top))
    && (forall i, j :: 0 <= i < j < |path| ==> Below(f, path[i].node, path[j].node))
  }

  function Target(goal: Goal, e: Edge): nat { if goal.First? then e.a else e.b }

  predicate GoalOk(f: Forest, goal: Goal, e: Edge, stale: bool)
    requires Shaped(f) && e.a < |f.words| && e.b < |f.words|
  {
    match goal
    case First(b) => b < |f.words| && Same(f, b, e.b)
    case Second(a, rankA) => Known(f, a, rankA, stale) && Same(f, a, e.a)
  }

  ghost predicate ThreadOk(f: Forest, th: Thread, changes: nat)
    requires Shaped(f)
  {
    var e := th.edge;
    var stale := changes > th.seen;
    && (Busy(th.pc) ==> e.a < |f.words| && e.b < |f.words| && th.seen <= changes)
    && match th.pc
       case Find(goal, path, node) =>
         GoalOk(f, goal, e, stale) && node < |f.words| && Same(f, node, Target(goal, e)) && Climbs(f, path, node)
       case Unwind(goal, path, root, rank) =>
         && GoalOk(f, goal, e, stale) && Known(f, root, rank, stale)
         && Same(f, root, Target(goal, e)) && Climbs(f, path, root)
       case Decide(a, rankA, b, rankB) =>
         Known(f, a, rankA, stale) && Known(f, b, rankB, stale) && Same(f, a, e.a) && Same(f, b, e.b)
       case Raise(w, rank) =>
         && w < |f.words| && 1 <= rank <= f.ranks[w] && Same(f, e.a, e.b)
         && (f.words[w] == ToRankRepr(rank) ==> |Component(f, w)| >= Pow2(rank))
       case _ => true
  }

  /** What a thread may rely on about the steps of the others. */
  ghost predicate Evolves(f: Forest, c: nat, g: Forest, d: nat) {
    && Later(f, g) && c <= d
    && (c == d ==> forall u :: 0 <= u < |f.words| && f.words[u] < 0 ==> g.words[u] == f.words[u])
  }

  lemma KnownStable(f: Forest, c: nat, g: Forest, d: nat, u: nat, k: nat, seen: nat)
    requires Evolves(f, c, g, d) && seen <= c && Known(f, u, k, c > seen)
    ensures Known(g, u, k, d > seen)
  {}

  lemma ClimbsStable(f: Forest, g: Forest, path: seq<Hop>, top: nat)
    requires Later(f, g) && top < |f.words| && Climbs(f, path, top)
    ensures Climbs(g, path, top)
  {
    hide Root;
    forall i | 0 <= i < |path| ensures Same(g, path[i].node, top) { assert Same(f, path[i].node, top); }
  }

  lemma GoalStable(f: Forest, c: nat, g: Forest, d: nat, goal: Goal, e: Edge, seen: nat)
    requires Evolves(f, c, g, d) && seen <= c && e.a < |f.words| && e.b < |f.words| && GoalOk(f, goal, e, c > seen)
    ensures GoalOk(g, goal, e, d > seen)
  {
    if goal.Second? { KnownStable(f, c, g, d, goal.a, goal.rankA, seen); }
  }

  lemma ThreadStable(f: Forest, c: nat, g: Forest, d: nat, th: Thread)
    requires Evolves(f, c, g, d) && ThreadOk(f, th, c)
    ensures ThreadOk(g, th, d)
  {
    match th.pc
    case Find(goal, path, node) =>
      GoalStable(f, c, g, d, goal, th.edge, th.seen);
      ClimbsStable(f, g, path, node);
    case Unwind(goal, path, root, rank) =>
      GoalStable(f, c, g, d, goal, th.edge, th.seen);
      KnownStable(f, c, g, d, root, rank, th.seen);
      ClimbsStable(f, g, path, root);
    case Decide(a, rankA, b, rankB) =>
      KnownStable(f, c, g, d, a, rankA, th.seen);
      KnownStable(f, c, g, d, b, rankB, th.seen);
    case Raise(w, rank) =>
      if g.words[w] == ToRankRepr(rank) { LaterComponent(f, g, w); }
    case _ =>
  }

  // ---------- The effect of one step on the words ----------

  /** The action a step performs on the words. */
  function ActionOf(s: State, t: nat): Action
    requires t < |s.threads| && InRange(s, s.threads[t])
  {
    match s.threads[t].pc
    case Unwind(goal, path, root, rank) =>
      if path != [] && path[|path| - 1].parent != root
         && s.f.words[path[|path| - 1].node] == path[|path| - 1].parent
      then Compress(path[|path| - 1].node, root) else Stay
    case Decide(a, rankA, b, rankB) =>
      var v := Choose(a, rankA, b, rankB);
      if v.Hang? && s.f.words[v.child] == ToRankRepr(v.childRank) then Link(v.child, v.parent) else Stay
    case Raise(w, rank) => if s.f.words[w] == ToRankRepr(rank) then Bump(w) else Stay
    case _ => Stay
  }

  /** The compare-and-swap due at pc has been made: the word it was for no longer is the expected one. */
  predicate Attempted(pc: Pc, g: Forest) {
    match pc
    case Unwind(_, path, root, _) =>
      path == [] ||
        var h := path[|path| - 1];
        h.parent == root || (h.node < |g.words| && g.words[h.node] != h.parent)
    case Decide(a, rankA, b, rankB) =>
      (match Choose(a, rankA, b, rankB)
       case SameRoot => true
       case Hang(child, childRank, _, _) => child < |g.words| && g.words[child] != ToRankRepr(childRank))
    case Raise(w, rank) => w < |g.words| && g.words[w] != ToRankRepr(rank)
    case _ => true
  }

  lemma ThreadInRange(s: State, t: nat)
    requires Shaped(s.f) && t < |s.threads| && ThreadOk(s.f, s.threads[t], Changes(s))
    requires s.threads[t].pc.Copy? ==> s.threads[t].pc.pos + |s.threads[t].kept| <= |s.buffer|
    ensures InRange(s, s.threads[t])
  {}

  /**
   Whatever the thread remembers, the compare-and-swap that is due is made, and either fails because the word has
   changed or is a legal action.
   */
  lemma StepIsAction(s: State, t: nat, i: nat)
    requires Valid(s.f) && t < |s.threads| && ThreadOk(s.f, s.threads[t], Changes(s)) && InRange(s, s.threads[t])
    ensures Enabled(s.f, ActionOf(s, t))
    ensures Next(s, t, i).f == Apply(s.f, ActionOf(s, t)) && Attempted(s.threads[t].pc, Next(s, t, i).f)
    ensures Next(s, t, i).links == if ActionOf(s, t).Link? then s.links + [s.threads[t].edge] else s.links
    ensures Next(s, t, i).bumps == if ActionOf(s, t).Bump? then s.bumps + 1 else s.bumps
  {
    hide Next, ActionOf, ThreadOk, Enabled, Apply, InRange, Weighted, Choose;
    match s.threads[t].pc
    case Unwind(goal, path, root, rank) => UnwindIsAction(s, t, i);
    case Decide(a, rankA, b, rankB) => DecideIsAction(s, t, i);
    case Raise(w, rank) => RaiseIsAction(s, t, i);
    case _ => OtherIsAction(s, t, i);
  }

  lemma UnwindIsAction(s: State, t: nat, i: nat)
    requires Shaped(s.f) && t < |s.threads| && ThreadOk(s.f, s.threads[t], Changes(s)) && InRange(s, s.threads[t])
    requires s.threads[t].pc.Unwind?
    ensures var act := ActionOf(s, t);
      && Enabled(s.f, act) && !act.Link? && !act.Bump? && Next(s, t, i).f == Apply(s.f, act)
      && Next(s, t, i).links == s.links && Next(s, t, i).bumps == s.bumps
      && Attempted(s.threads[t].pc, Next(s, t, i).f)
  {
    hide Root;
  }

  lemma DecideIsAction(s: State, t: nat, i: nat)
    requires Shaped(s.f) && t < |s.threads| && ThreadOk(s.f, s.threads[t], Changes(s)) && InRange(s, s.threads[t])
    requires s.threads[t].pc.Decide?
    ensures var act := ActionOf(s, t);
      && Enabled(s.f, act) && !act.Bump? && Next(s, t, i).f == Apply(s.f, act) && Next(s, t, i).bumps == s.bumps
      && Next(s, t, i).links == (if act.Link? then s.links + [s.threads[t].edge] else s.links)
      && Attempted(s.threads[t].pc, Next(s, t, i).f)
  {
    hide Root, Same;
  }

  lemma RaiseIsAction(s: State, t: nat, i: nat)
    requires Shaped(s.f) && t < |s.threads| && ThreadOk(s.f, s.threads[t], Changes(s)) && InRange(s, s.threads[t])
    requires s.threads[t].pc.Raise?
    ensures var act := ActionOf(s, t);
      && Enabled(s.f, act) && !act.Link? && Next(s, t, i).f == Apply(s.f, act) && Next(s, t, i).links == s.links
      && Next(s, t, i).bumps == (if act.Bump? then s.bumps + 1 else s.bumps)
      && Attempted(s.threads[t].pc, Next(s, t, i).f)
  {
    hide Root, Component, Pow2;
    var w, rank := s.threads[t].pc.w, s.threads[t].pc.rank;
    if s.f.words[w] == ToRankRepr(rank) { assert s.f.ranks[w] == rank; }
  }

  lemma OtherIsAction(s: State, t: nat, i: nat)
    requires Shaped(s.f) && t < |s.threads| && InRange(s, s.threads[t])
    requires var pc := s.threads[t].pc; !pc.Unwind? && !pc.Decide? && !pc.Raise?
    ensures ActionOf(s, t) == Stay && Enabled(s.f, Stay) && Next(s, t, i).f == s.f == Apply(s.f, Stay)
    ensures Next(s, t, i).links == s.links && Next(s, t, i).bumps == s.bumps
  {}

  lemma StepEvolves(s: State, t: nat, i: nat)
    requires Valid(s.f) && t < |s.threads| && ThreadOk(s.f, s.threads[t], Changes(s)) && InRange(s, s.threads[t])
    ensures Valid(Next(s, t, i).f)
    ensures Evolves(s.f, Changes(s), Next(s, t, i).f, Changes(Next(s, t, i)))
  {
    StepIsAction(s, t, i);
    ApplyValid(s.f, ActionOf(s, t));
    ApplyLater(s.f, ActionOf(s, t));
  }
}
