/** Safety of addEdges over every schedule: the kept edges are a spanning forest of all edges given so far. */
module UniteSafety {
  import opened Counting
  import opened Graphs
  import opened Forest
  import opened Spanning
  import opened UniteMachine

  /** After its own step the thread again knows what its next operation needs. */
  lemma OwnStepOk(s: State, t: nat, i: nat)
    requires Valid(s.f) && t < |s.threads| && InRange(s, s.threads[t])
    requires ThreadOk(s.f, s.threads[t], Changes(s))
    requires forall j :: 0 <= j < |s.edges| ==> s.edges[j].a < |s.f.words| && s.edges[j].b < |s.f.words|
    ensures var s' := Next(s, t, i); Shaped(s'.f) && ThreadOk(s'.f, s'.threads[t], Changes(s'))
  {
    StepEvolves(s, t, i);
    StepIsAction(s, t, i);
    var s' := Next(s, t, i);
    var th := s.threads[t];
    match th.pc
    case Find(goal, path, node) => FindStepOk(s, t, i);
    case Unwind(goal, path, root, rank) => UnwindStepOk(s, t, i);
    case Decide(a, rankA, b, rankB) => DecideStepOk(s, t, i);
    case _ =>
  }

  lemma FindStepOk(s: State, t: nat, i: nat)
    requires Valid(s.f) && t < |s.threads| && InRange(s, s.threads[t])
    requires ThreadOk(s.f, s.threads[t], Changes(s)) && s.threads[t].pc.Find?
    ensures var s' := Next(s, t, i); Shaped(s'.f) && ThreadOk(s'.f, s'.threads[t], Changes(s'))
  {
    var f := s.f;
    var Find(goal, path, node) := s.threads[t].pc;
    var w := f.words[node];
    if w >= 0 {
      var path' := path + [Hop(node, w)];
      forall k | 0 <= k < |path'| ensures
        var u := path'[k].node; u < |f.words| && f.words[u] >= 0 && Same(f, u, w) && Below(f, u, w)
      {
        if k < |path| { assert path'[k] == path[k]; BelowTrans(f, path[k].node, node, w); }
      }
      assert Climbs(f, path', w);
    }
  }

  lemma PopFrame(f: Forest, th: Thread, changes: nat)
    requires Shaped(f) && ThreadOk(f, th, changes) && th.pc.Unwind? && th.pc.path != []
    ensures ThreadOk(f, th.(pc := Unwind(th.pc.goal, th.pc.path[..|th.pc.path| - 1], th.pc.root, th.pc.rank)), changes)
  {
    assert Climbs(f, th.pc.path[..|th.pc.path| - 1], th.pc.root);
  }

  lemma UnwindStepOk(s: State, t: nat, i: nat)
    requires Valid(s.f) && t < |s.threads| && InRange(s, s.threads[t])
    requires ThreadOk(s.f, s.threads[t], Changes(s)) && s.threads[t].pc.Unwind?
    ensures var s' := Next(s, t, i); Shaped(s'.f) && ThreadOk(s'.f, s'.threads[t], Changes(s'))
  {
    var th := s.threads[t];
    if th.pc.path != [] {
      StepEvolves(s, t, i);
      PopFrame(s.f, th, Changes(s));
      var s' := Next(s, t, i);
      assert s'.threads[t] == th.(pc := Unwind(th.pc.goal, th.pc.path[..|th.pc.path| - 1], th.pc.root, th.pc.rank));
      ThreadStable(s.f, Changes(s), s'.f, Changes(s'), s'.threads[t]);
    }
  }

  lemma DecideStepOk(s: State, t: nat, i: nat)
    requires Valid(s.f) && t < |s.threads| && InRange(s, s.threads[t])
    requires ThreadOk(s.f, s.threads[t], Changes(s)) && s.threads[t].pc.Decide?
    ensures var s' := Next(s, t, i); Shaped(s'.f) && ThreadOk(s'.f, s'.threads[t], Changes(s'))
  {
    hide Weighted, Pow2, Root, Component, ThreadOk, Next;
    StepIsAction(s, t, i);
    ApplyShaped(s.f, ActionOf(s, t));
    if ActionOf(s, t).Link? { DecideLinks(s, t, i); } else { DecideStays(s, t, i); }
  }

  /** Equal roots end the call; a failed link starts it again from the roots found. */
  lemma DecideStays(s: State, t: nat, i: nat)
    requires Shaped(s.f) && t < |s.threads| && InRange(s, s.threads[t])
    requires ThreadOk(s.f, s.threads[t], Changes(s)) && s.threads[t].pc.Decide? && !ActionOf(s, t).Link?
    ensures var s' := Next(s, t, i); Shaped(s'.f) && ThreadOk(s'.f, s'.threads[t], Changes(s'))
  {
    hide Pow2, Root, Component;
  }

  /** A link that ties leaves a bump that has been earned. */
  lemma DecideLinks(s: State, t: nat, i: nat)
    requires Valid(s.f) && t < |s.threads| && InRange(s, s.threads[t])
    requires ThreadOk(s.f, s.threads[t], Changes(s)) && s.threads[t].pc.Decide? && ActionOf(s, t).Link?
    requires Enabled(s.f, ActionOf(s, t)) && Shaped(Next(s, t, i).f) && Next(s, t, i).f == Apply(s.f, ActionOf(s, t))
    ensures ThreadOk(Next(s, t, i).f, Next(s, t, i).threads[t], Changes(Next(s, t, i)))
  {
    hide Weighted, Pow2, Root, Component, Shaped, Apply, Same;
    var e, act := s.threads[t].edge, ActionOf(s, t);
    DecidedLink(s, t);
    LinkMerges(s.f, act.a, act.b, e.a, e.b);
    LinkEarns(s.f, act.a, act.b, e);
  }

  lemma DecidedLink(s: State, t: nat)
    requires Shaped(s.f) && t < |s.threads| && InRange(s, s.threads[t])
    requires ThreadOk(s.f, s.threads[t], Changes(s)) && s.threads[t].pc.Decide? && ActionOf(s, t).Link?
    ensures var Link(a, b) := ActionOf(s, t); var e := s.threads[t].edge;
      && a < |s.f.words| && b < |s.f.words| && e.a < |s.f.words| && e.b < |s.f.words|
      && ((Same(s.f, a, e.a) && Same(s.f, b, e.b)) || (Same(s.f, a, e.b) && Same(s.f, b, e.a)))
      && s.f.words[a] == ToRankRepr(s.f.ranks[a]) && s.threads[t].seen <= Changes(s)
  {
    hide Root;
  }

  /** After a link across e its ends are together, and a tied winner has earned its bump. */
  lemma LinkEarns(f: Forest, a: nat, b: nat, e: Edge)
    requires Valid(f) && Enabled(f, Link(a, b)) && e.a < |f.words| && e.b < |f.words|
    requires (Same(f, a, e.a) && Same(f, b, e.b)) || (Same(f, a, e.b) && Same(f, b, e.a))
    ensures var g := Apply(f, Link(a, b));
      && Shaped(g) && |g.words| == |f.words| && g.ranks == f.ranks && Same(g, e.a, e.b)
      && (g.words[b] == ToRankRepr(f.ranks[a]) ==> |Component(g, b)| >= Pow2(f.ranks[a]))
  {
    LinkMerges(f, a, b, e.a, e.b);
    WinnerEarned(f, a, b);
  }

  // ---------- The edges held by threads ----------

  function Holding(th: Thread): multiset<Edge> {
    if th.pc.Copy? || th.pc.Finished? then multiset{}
    else multiset(th.kept) + if th.pc.Raise? then multiset{th.edge} else multiset{}
  }

  function Held(threads: seq<Thread>): multiset<Edge> {
    if threads == [] then multiset{} else Holding(threads[0]) + Held(threads[1..])
  }

  function Raises(th: Thread): nat { if th.pc.Raise? then 1 else 0 }

  function Raising(threads: seq<Thread>): nat { Total(threads, Raises) }

  lemma Assoc(a: multiset<Edge>, b: multiset<Edge>, c: multiset<Edge>)
    ensures (a + b) + c == a + (b + c)
  {}

  lemma Swap(a: multiset<Edge>, b: multiset<Edge>, c: multiset<Edge>)
    ensures (a + b) + c == (c + b) + a
  {}

  lemma {:induction false} HeldUpdate(threads: seq<Thread>, t: nat, th: Thread)
    requires t < |threads|
    ensures Held(threads[t := th]) + Holding(threads[t]) == Held(threads) + Holding(th)
  {
    var rest, x := threads[1..], Holding(threads[0]);
    if t > 0 {
      HeldUpdate(rest, t - 1, th);
      assert threads[t := th][1..] == rest[t - 1 := th];
      Assoc(x, Held(rest[t - 1 := th]), Holding(threads[t]));
      Assoc(x, Held(rest), Holding(th));
    } else {
      assert threads[t := th][1..] == rest;
      Swap(Holding(th), Held(rest), x);
    }
  }

  lemma {:induction false} HeldNothing(threads: seq<Thread>)
    requires forall t :: 0 <= t < |threads| ==> Holding(threads[t]) == multiset{}
    ensures Held(threads) == multiset{}
  {
    if threads != [] { HeldNothing(threads[1..]); }
  }

  // ---------- The invariant ----------

  /** The links made so far are a forest with exactly the components of the union-find. */
  ghost predicate LinksOk(f: Forest, links: seq<Edge>) {
    Valid(f) && Represents(f, links)
  }

  /** No edge is lost: a link's edge is kept by exactly one thread until it gets its slot. */
  ghost predicate CountsOk(s: State) {
    && multiset(s.links) == multiset(s.planned) + Held(s.threads)
    && s.bumps + Raising(s.threads) <= |s.links|
    && |s.planned| == s.num
  }

  /** Every edge taken from the loop is joined or still being worked on; every link is a given edge. */
  ghost predicate InputOk(s: State)
    requires Shaped(s.f)
  {
    var n := |s.f.words|;
    && (forall j :: 0 <= j < |s.edges| ==> s.edges[j].a < n && s.edges[j].b < n)
    && Within(s.earlier, n)
    && (forall e :: e in s.earlier ==> Same(s.f, e.a, e.b))
    && (forall j :: 0 <= j < |s.edges| && j !in s.pending ==>
          Same(s.f, s.edges[j].a, s.edges[j].b) || exists t :: Working(s, t, j))
    && (forall e :: e in s.links ==> e in s.earlier || e in s.edges)
    && (forall t :: 0 <= t < |s.threads| && Busy(s.threads[t].pc) ==>
          s.threads[t].index < |s.edges| && s.threads[t].edge == s.edges[s.threads[t].index])
  }

  predicate Working(s: State, t: int, j: nat) {
    0 <= t < |s.threads| && Busy(s.threads[t].pc) && s.threads[t].index == j
  }

  /**
   Reserved slices lie inside the buffer, do not overlap, and the unwritten slots are exactly what is left to copy.
   */
  predicate SliceOk(s: State, t: nat)
    requires t < |s.threads|
  {
    var th := s.threads[t];
    th.pc.Copy? ==>
      && th.pc.k <= |th.kept| && th.pc.pos + |th.kept| <= s.num
      && |s.planned| == s.num
      && s.planned[th.pc.pos..th.pc.pos + |th.kept|] == th.kept
  }

  predicate Disjoint(s: State, t: nat, v: nat)
    requires t < |s.threads| && v < |s.threads|
  {
    var a, b := s.threads[t], s.threads[v];
    a.pc.Copy? && b.pc.Copy? ==> a.pc.pos + |a.kept| <= b.pc.pos || b.pc.pos + |b.kept| <= a.pc.pos
  }

  predicate ToCopy(s: State, t: int, j: nat) {
    0 <= t < |s.threads| && s.threads[t].pc.Copy?
    && s.threads[t].pc.pos + s.threads[t].pc.k <= j < s.threads[t].pc.pos + |s.threads[t].kept|
  }

  ghost predicate BufferOk(s: State) {
    && |s.buffer| == |s.f.words| && s.num <= |s.buffer| && |s.planned| == s.num
    && (forall t :: 0 <= t < |s.threads| ==> SliceOk(s, t))
    && (forall t, v :: 0 <= t < v < |s.threads| ==> Disjoint(s, t, v))
    && (forall j :: 0 <= j < s.num ==> s.buffer[j] == s.planned[j] || exists t :: ToCopy(s, t, j))
  }

  /** Nobody copies before the loop is exhausted, and no index is handed out that the call does not have. */
  predicate BarrierOk(s: State) {
    && (forall t :: 0 <= t < |s.threads| && (s.threads[t].pc.Copy? || s.threads[t].pc.Finished?) ==> LoopDone(s))
    && (forall j :: j in s.pending ==> j < |s.edges|)
  }

  ghost predicate Inv(s: State) {
    && LinksOk(s.f, s.links)
    && BarrierOk(s)
    && CountsOk(s)
    && InputOk(s)
    && BufferOk(s)
    && forall t :: 0 <= t < |s.threads| ==> ThreadOk(s.f, s.threads[t], Changes(s))
  }

  lemma InvInRange(s: State, t: nat)
    requires Inv(s) && t < |s.threads|
    ensures InRange(s, s.threads[t])
  {
    assert SliceOk(s, t);
    ThreadInRange(s, t);
  }

  // ---------- Every step keeps the invariant ----------

  lemma LinkLinks(f: Forest, links: seq<Edge>, a: nat, b: nat, e: Edge)
    requires LinksOk(f, links) && Enabled(f, Link(a, b)) && e.a < |f.words| && e.b < |f.words|
    requires (Same(f, a, e.a) && Same(f, b, e.b)) || (Same(f, a, e.b) && Same(f, b, e.a))
    ensures LinksOk(SetParent(f, a, b), links + [e])
  {
    var g := SetParent(f, a, b);
    ApplyValid(f, Link(a, b));
    hide Represents, Weighted;
    LinkMerges(f, a, b, e.a, e.b);
    LinkDropsRoot(f, a, b);
    forall x, y | 0 <= x < |f.words| && 0 <= y < |f.words| ensures Same(g, x, y) <==> Merged(f, e, x, y) {
      LinkMerges(f, a, b, x, y);
    }
    RepresentsLink(f, links, e, g);
  }

  lemma OtherLinks(f: Forest, links: seq<Edge>, act: Action)
    requires LinksOk(f, links) && Enabled(f, act) && !act.Link?
    ensures LinksOk(Apply(f, act), links)
  {
    hide Weighted;
    var g := Apply(f, act);
    ApplyValid(f, act);
    forall x, y | 0 <= x < |f.words| && 0 <= y < |f.words| ensures Same(g, x, y) <==> Same(f, x, y) {
      OthersKeepPartition(f, act, x, y);
    }
    assert Roots(g) == Roots(f);
  }

  lemma LinksStep(s: State, t: nat, i: nat)
    requires LinksOk(s.f, s.links) && t < |s.threads| && InRange(s, s.threads[t])
    requires ThreadOk(s.f, s.threads[t], Changes(s))
    ensures LinksOk(Next(s, t, i).f, Next(s, t, i).links)
  {
    var act, e := ActionOf(s, t), s.threads[t].edge;
    StepIsAction(s, t, i);
    if act.Link? {
      LinkLinks(s.f, s.links, act.a, act.b, e);
    } else {
      OtherLinks(s.f, s.links, act);
    }
  }

  /** The bookkeeping of one step, seen from the thread that makes it. */
  ghost predicate Balanced(s: State, t: nat, s': State)
    requires t < |s.threads| == |s'.threads|
  {
    && s'.threads == s.threads[t := s'.threads[t]]
    && multiset(s'.links) + multiset(s.planned) + Holding(s.threads[t])
       == multiset(s.links) + multiset(s'.planned) + Holding(s'.threads[t])
    && s'.bumps + (if s'.threads[t].pc.Raise? then 1 else 0) - |s'.links|
       <= s.bumps + (if s.threads[t].pc.Raise? then 1 else 0) - |s.links|
    && |s'.planned| == s'.num
  }

  lemma CountsLocal(s: State, t: nat, i: nat)
    requires t < |s.threads| && InRange(s, s.threads[t]) && |s.planned| == s.num
    ensures Balanced(s, t, Next(s, t, i))
  {
    match s.threads[t].pc
    case Decide(a, rankA, b, rankB) => CountsDecide(s, t, i);
    case Raise(w, rank) => CountsRaise(s, t, i);
    case Idle => CountsIdle(s, t, i);
    case _ => CountsOther(s, t, i);
  }

  lemma CountsOther(s: State, t: nat, i: nat)
    requires t < |s.threads| && InRange(s, s.threads[t]) && |s.planned| == s.num
    requires s.threads[t].pc.Find? || s.threads[t].pc.Unwind? || s.threads[t].pc.Copy? || s.threads[t].pc.Finished?
    ensures Balanced(s, t, Next(s, t, i))
  {
    QuietStep(s, t, i);
    SameHolding(s.threads[t], Next(s, t, i).threads[t]);
  }

  lemma QuietStep(s: State, t: nat, i: nat)
    requires t < |s.threads| && InRange(s, s.threads[t])
    requires s.threads[t].pc.Find? || s.threads[t].pc.Unwind? || s.threads[t].pc.Copy? || s.threads[t].pc.Finished?
    ensures var s', th := Next(s, t, i), s.threads[t];
      && s'.planned == s.planned && s'.links == s.links && s'.bumps == s.bumps && s'.num == s.num
      && s'.threads == s.threads[t := s'.threads[t]]
      && !s'.threads[t].pc.Raise? && !s'.threads[t].pc.Idle?
      && (if th.pc.Copy? || th.pc.Finished? then s'.threads[t].pc.Copy? || s'.threads[t].pc.Finished?
          else Busy(s'.threads[t].pc) && s'.threads[t].kept == th.kept)
  {}

  lemma SameHolding(th: Thread, th': Thread)
    requires !th.pc.Raise? && !th.pc.Idle? && !th'.pc.Raise? && !th'.pc.Idle?
    requires if th.pc.Copy? || th.pc.Finished? then th'.pc.Copy? || th'.pc.Finished?
             else Busy(th'.pc) && th'.kept == th.kept
    ensures Holding(th') == Holding(th)
  {}

  lemma CountsRaise(s: State, t: nat, i: nat)
    requires t < |s.threads| && InRange(s, s.threads[t]) && |s.planned| == s.num && s.threads[t].pc.Raise?
    ensures Balanced(s, t, Next(s, t, i))
  {
    var th := s.threads[t];
    assert multiset(th.kept + [th.edge]) == multiset(th.kept) + multiset{th.edge};
  }

  lemma IdleMoves(s: State, t: nat, i: nat)
    requires t < |s.threads| && InRange(s, s.threads[t]) && s.threads[t].pc.Idle?
    ensures var s', th := Next(s, t, i), s.threads[t];
      && |s'.threads| == |s.threads| && s'.threads == s.threads[t := s'.threads[t]]
      && s'.links == s.links && s'.bumps == s.bumps && !s'.threads[t].pc.Raise?
      && (s'.threads[t].pc.Copy? ==> s'.planned == s.planned + th.kept && s'.num == s.num + |th.kept|)
      && (!s'.threads[t].pc.Copy? ==>
            && !s'.threads[t].pc.Finished? && s'.threads[t].kept == th.kept
            && s'.planned == s.planned && s'.num == s.num)
  {}

  lemma CountsIdle(s: State, t: nat, i: nat)
    requires t < |s.threads| && InRange(s, s.threads[t]) && |s.planned| == s.num && s.threads[t].pc.Idle?
    ensures Balanced(s, t, Next(s, t, i))
  {
    IdleMoves(s, t, i);
    hide Next, InRange;
    var th := s.threads[t];
    assert multiset(s.planned + th.kept) == multiset(s.planned) + multiset(th.kept);
    Assoc(multiset(s.links), multiset(s.planned), multiset(th.kept));
  }

  /** A decision that links either goes on to raise a rank or keeps the edge at once. */
  predicate Decided(s: State, t: nat, s': State)
    requires t < |s.threads| == |s'.threads|
  {
    var th, th' := s.threads[t], s'.threads[t];
    && s'.threads == s.threads[t := th'] && s'.planned == s.planned && s'.num == s.num && s'.bumps == s.bumps
    && !th'.pc.Copy? && !th'.pc.Finished?
    && if s'.links == s.links then !th'.pc.Raise? && th'.kept == th.kept
       else
         && s'.links == s.links + [th.edge]
         && if th'.pc.Raise? then th'.kept == th.kept && th'.edge == th.edge else th'.kept == th.kept + [th.edge]
  }

  lemma DecideDecides(s: State, t: nat, i: nat)
    requires t < |s.threads| && InRange(s, s.threads[t]) && s.threads[t].pc.Decide?
    ensures |Next(s, t, i).threads| == |s.threads| && Decided(s, t, Next(s, t, i))
  {}

  lemma CountsDecide(s: State, t: nat, i: nat)
    requires t < |s.threads| && InRange(s, s.threads[t]) && |s.planned| == s.num && s.threads[t].pc.Decide?
    ensures Balanced(s, t, Next(s, t, i))
  {
    DecideDecides(s, t, i);
    hide Next, InRange;
    var th := s.threads[t];
    var L, P, K, e := multiset(s.links), multiset(s.planned), multiset(th.kept), multiset{th.edge};
    assert multiset(s.links + [th.edge]) == L + e;
    assert multiset(th.kept + [th.edge]) == K + e;
    Swap3(L, e, P, K);
  }

  lemma Swap3(l: multiset<Edge>, e: multiset<Edge>, p: multiset<Edge>, k: multiset<Edge>)
    ensures ((l + e) + p) + k == (l + p) + (k + e)
  {}

  lemma Cancel(l: multiset<Edge>, l': multiset<Edge>, p: multiset<Edge>, p': multiset<Edge>,
               h: multiset<Edge>, h': multiset<Edge>, x: multiset<Edge>, x': multiset<Edge>)
    requires l == p + h && h' + x == h + x' && l' + p + x == l + p' + x'
    ensures l' == p' + h'
  {
    forall e: Edge ensures l'[e] == (p' + h')[e] {
      assert (h' + x)[e] == (h + x')[e];
      assert (l' + p + x)[e] == (l + p' + x')[e];
    }
  }

  lemma CountsStep(s: State, t: nat, i: nat)
    requires CountsOk(s) && t < |s.threads| && InRange(s, s.threads[t])
    ensures CountsOk(Next(s, t, i))
  {
    CountsLocal(s, t, i);
    CountsCombine(s, t, Next(s, t, i));
  }

  lemma CountsCombine(s: State, t: nat, s': State)
    requires CountsOk(s) && t < |s.threads| == |s'.threads| && Balanced(s, t, s')
    ensures CountsOk(s')
  {
    HeldUpdate(s.threads, t, s'.threads[t]);
    TotalUpdate(s.threads, t, s'.threads[t], Raises);
    Cancel(multiset(s.links), multiset(s'.links), multiset(s.planned), multiset(s'.planned),
           Held(s.threads), Held(s'.threads), Holding(s.threads[t]), Holding(s'.threads[t]));
  }

  /** A thread leaves an edge only once the edge's endpoints are joined. */
  lemma StillWorking(s: State, t: nat, i: nat)
    requires Valid(s.f) && t < |s.threads| && InRange(s, s.threads[t]) && Busy(s.threads[t].pc)
    requires ThreadOk(s.f, s.threads[t], Changes(s))
    ensures var s', e := Next(s, t, i), s.threads[t].edge;
      && Shaped(s'.f) && e.a < |s'.f.words| && e.b < |s'.f.words|
      && (Same(s'.f, e.a, e.b)
          || (Busy(s'.threads[t].pc) && s'.threads[t].index == s.threads[t].index && s'.threads[t].edge == e))
  {
    hide Weighted, Pow2, Root, Component, Climbs, Next, Apply;
    var e, act := s.threads[t].edge, ActionOf(s, t);
    StepIsAction(s, t, i);
    ApplyShaped(s.f, act);
    if s.threads[t].pc.Raise? { OthersKeepPartition(s.f, act, e.a, e.b); }
    else if s.threads[t].pc.Decide? { DecisionJoins(s, t, i); }
    else { FindGoesOn(s, t, i); }
  }

  lemma FindGoesOn(s: State, t: nat, i: nat)
    requires t < |s.threads| && InRange(s, s.threads[t]) && (s.threads[t].pc.Find? || s.threads[t].pc.Unwind?)
    ensures var s', th := Next(s, t, i), s.threads[t];
      t < |s'.threads| && Busy(s'.threads[t].pc) && s'.threads[t].index == th.index && s'.threads[t].edge == th.edge
  {}

  /** A decision joins the ends of the edge, finds them joined, or starts over. */
  lemma DecisionJoins(s: State, t: nat, i: nat)
    requires Valid(s.f) && t < |s.threads| && InRange(s, s.threads[t]) && s.threads[t].pc.Decide?
    requires ThreadOk(s.f, s.threads[t], Changes(s)) && Enabled(s.f, ActionOf(s, t))
    requires Next(s, t, i).f == Apply(s.f, ActionOf(s, t)) && Shaped(Next(s, t, i).f)
    ensures var s', e := Next(s, t, i), s.threads[t].edge;
      && t < |s'.threads| && e.a < |s'.f.words| && e.b < |s'.f.words|
      && (Same(s'.f, e.a, e.b)
          || (Busy(s'.threads[t].pc) && s'.threads[t].index == s.threads[t].index && s'.threads[t].edge == e))
  {
    hide Weighted, Pow2, Root, Component;
    var e, act := s.threads[t].edge, ActionOf(s, t);
    if act.Link? { LinkMerges(s.f, act.a, act.b, e.a, e.b); }
  }

  lemma NextFrame(s: State, t: nat, i: nat)
    requires t < |s.threads| && InRange(s, s.threads[t])
    ensures var s', th := Next(s, t, i), s.threads[t];
      && s'.threads == s.threads[t := s'.threads[t]]
      && s'.edges == s.edges && s'.earlier == s.earlier
      && (Busy(s'.threads[t].pc) ==>
            || (s'.threads[t].index < |s.edges| && s'.threads[t].edge == s.edges[s'.threads[t].index])
            || (Busy(th.pc) && s'.threads[t].index == th.index && s'.threads[t].edge == th.edge))
      && (s'.links == s.links || (Busy(th.pc) && s'.links == s.links + [th.edge]))
      && (s'.pending == s.pending
          || (i < |s.edges| && s'.pending == s.pending - {i} && Working(s', t, i) && !Busy(th.pc)))
  {}

  lemma InputStep(s: State, t: nat, i: nat)
    requires Valid(s.f) && InputOk(s) && t < |s.threads| && InRange(s, s.threads[t])
    requires ThreadOk(s.f, s.threads[t], Changes(s))
    ensures Shaped(Next(s, t, i).f) && InputOk(Next(s, t, i))
  {
    NextFrame(s, t, i);
    StepEvolves(s, t, i);
    if Busy(s.threads[t].pc) { StillWorking(s, t, i); }
    InputCombine(s, t, i, Next(s, t, i));
  }

  lemma InputCombine(s: State, t: nat, i: nat, s': State)
    requires Shaped(s.f) && InputOk(s) && t < |s.threads| == |s'.threads| && Later(s.f, s'.f)
    requires s'.threads == s.threads[t := s'.threads[t]]
    requires s'.edges == s.edges && s'.earlier == s.earlier
    requires var th, th' := s.threads[t], s'.threads[t];
      && (Busy(th'.pc) ==>
            || (th'.index < |s.edges| && th'.edge == s.edges[th'.index])
            || (Busy(th.pc) && th'.index == th.index && th'.edge == th.edge))
      && (s'.links == s.links || (Busy(th.pc) && s'.links == s.links + [th.edge]))
      && (s'.pending == s.pending
          || (i < |s.edges| && s'.pending == s.pending - {i} && Working(s', t, i) && !Busy(th.pc)))
      && (Busy(th.pc) ==> var e := th.edge;
           && e.a < |s.f.words| && e.b < |s.f.words|
           && (Same(s'.f, e.a, e.b) || (Busy(th'.pc) && th'.index == th.index && th'.edge == e)))
    ensures InputOk(s')
  {
    hide Root;
    forall j | 0 <= j < |s'.edges| && j !in s'.pending
      ensures Same(s'.f, s'.edges[j].a, s'.edges[j].b) || exists v :: Working(s', v, j)
    {
      StillCovered(s, t, i, s', j);
    }
    assert forall e :: e in s.links ==> e in s.earlier || e in s.edges;
    forall v | 0 <= v < |s'.threads| && Busy(s'.threads[v].pc)
      ensures s'.threads[v].index < |s'.edges| && s'.threads[v].edge == s'.edges[s'.threads[v].index]
    {
      if v != t { assert s'.threads[v] == s.threads[v]; }
    }
  }

  /** An index taken from the loop is joined, or some thread is still at work on it. */
  lemma StillCovered(s: State, t: nat, i: nat, s': State, j: nat)
    requires Shaped(s.f) && InputOk(s) && t < |s.threads| == |s'.threads| && Later(s.f, s'.f)
    requires s'.threads == s.threads[t := s'.threads[t]] && s'.edges == s.edges
    requires j < |s.edges| && j !in s'.pending
    requires s'.pending == s.pending || (s'.pending == s.pending - {i} && Working(s', t, i) && !Busy(s.threads[t].pc))
    requires Busy(s.threads[t].pc) ==> var e, th, th' := s.threads[t].edge, s.threads[t], s'.threads[t];
      && e.a < |s.f.words| && e.b < |s.f.words|
      && (Same(s'.f, e.a, e.b) || (Busy(th'.pc) && th'.index == th.index && th'.edge == e))
    ensures s.edges[j].a < |s'.f.words| && s.edges[j].b < |s'.f.words|
    ensures Same(s'.f, s.edges[j].a, s.edges[j].b) || exists v :: Working(s', v, j)
  {
    hide Root;
    if j in s.pending {
      assert Working(s', t, j);
    } else if !Same(s.f, s.edges[j].a, s.edges[j].b) {
      var v :| Working(s, v, j);
      if v != t { assert Working(s', v, j); }
      else if Busy(s'.threads[t].pc) && s'.threads[t].index == j { assert Working(s', t, j); }
    }
  }

  /** What a step does to the slices and the buffer: reserve a slice, write one slot, finish, or nothing. */
  predicate BufferMoves(s: State, t: nat, s': State)
    requires t < |s.threads| == |s'.threads|
  {
    var th, th' := s.threads[t], s'.threads[t];
    && s'.threads == s.threads[t := th']
    && (|| (!th.pc.Copy? && !th'.pc.Copy? && s'.planned == s.planned && s'.num == s.num && s'.buffer == s.buffer)
        || (!th.pc.Copy? && th' == th.(pc := Copy(s.num, 0)) && s'.planned == s.planned + th.kept
            && s'.num == s.num + |th.kept| && s'.buffer == s.buffer)
        || (th.pc.Copy? && th.pc.k < |th.kept| && th' == th.(pc := Copy(th.pc.pos, th.pc.k + 1))
            && th.pc.pos + th.pc.k < |s.buffer| && s'.buffer == s.buffer[th.pc.pos + th.pc.k := th.kept[th.pc.k]]
            && s'.planned == s.planned && s'.num == s.num)
        || (th.pc.Copy? && th.pc.k >= |th.kept| && th'.pc.Finished? && s'.buffer == s.buffer
            && s'.planned == s.planned && s'.num == s.num))
  }

  lemma MovesBuffer(s: State, t: nat, i: nat)
    requires t < |s.threads| && InRange(s, s.threads[t])
    ensures |Next(s, t, i).threads| == |s.threads| && BufferMoves(s, t, Next(s, t, i))
  {}

  lemma SliceStep(s: State, t: nat, s': State, v: nat)
    requires t < |s.threads| == |s'.threads| && v < |s.threads| && BufferMoves(s, t, s')
    requires SliceOk(s, v) && |s.planned| == s.num
    ensures SliceOk(s', v)
  {
    var th := s.threads[v];
    assert s'.planned[..s.num] == s.planned;
    if th.pc.Copy? {
      var p, q := th.pc.pos, th.pc.pos + |th.kept|;
      assert s'.planned[p..q] == s.planned[p..q];
    }
  }

  lemma DisjointStep(s: State, t: nat, s': State, u: nat, v: nat)
    requires t < |s.threads| == |s'.threads| && BufferMoves(s, t, s') && u < |s.threads| && v < |s.threads| && u != v
    requires Disjoint(s, u, v) && SliceOk(s, u) && SliceOk(s, v)
    ensures Disjoint(s', u, v)
  {}

  lemma CopyStep(s: State, t: nat, s': State, j: nat)
    requires t < |s.threads| == |s'.threads| && BufferMoves(s, t, s') && SliceOk(s, t)
    requires |s.planned| == s.num <= |s.buffer| && j < s'.num <= |s.buffer| && |s'.planned| == s'.num
    requires j < s.num ==> s.buffer[j] == s.planned[j] || exists v :: ToCopy(s, v, j)
    ensures j < |s'.buffer| && (s'.buffer[j] == s'.planned[j] || exists v :: ToCopy(s', v, j))
  {
    var th := s.threads[t];
    if j >= s.num {
      assert ToCopy(s', t, j);
    } else {
      assert s'.planned[j] == s.planned[j];
      if th.pc.Copy? && th.pc.k < |th.kept| && j == th.pc.pos + th.pc.k {
        assert s.planned[th.pc.pos..th.pc.pos + |th.kept|][th.pc.k] == s.planned[j];
      } else if s.buffer[j] != s.planned[j] {
        var v :| ToCopy(s, v, j);
        assert ToCopy(s', v, j);
      }
    }
  }

  lemma BufferStep(s: State, t: nat, i: nat)
    requires BufferOk(s) && t < |s.threads| && InRange(s, s.threads[t])
    requires |Next(s, t, i).f.words| == |s.f.words|
    requires |Next(s, t, i).planned| == Next(s, t, i).num <= |s.buffer|
    ensures BufferOk(Next(s, t, i))
  {
    MovesBuffer(s, t, i);
    hide Next, SliceOk, Disjoint, InRange;
    var s' := Next(s, t, i);
    assert SliceOk(s, t);
    forall v | 0 <= v < |s'.threads| ensures SliceOk(s', v) { SliceStep(s, t, s', v); }
    forall u, v | 0 <= u < v < |s'.threads| ensures Disjoint(s', u, v) { DisjointStep(s, t, s', u, v); }
    forall j | 0 <= j < s'.num ensures s'.buffer[j] == s'.planned[j] || exists v :: ToCopy(s', v, j) {
      CopyStep(s, t, s', j);
    }
  }

  lemma SlotsFit(s: State)
    requires LinksOk(s.f, s.links) && CountsOk(s)
    ensures s.num <= |s.links| <= |s.f.words|
  {
    assert |multiset(s.links)| == |s.links| && |multiset(s.planned)| == |s.planned|;
  }

  lemma OthersOk(s: State, t: nat, s': State)
    requires t < |s.threads| == |s'.threads| && s'.threads == s.threads[t := s'.threads[t]]
    requires Evolves(s.f, Changes(s), s'.f, Changes(s'))
    requires forall v :: 0 <= v < |s.threads| ==> ThreadOk(s.f, s.threads[v], Changes(s))
    requires ThreadOk(s'.f, s'.threads[t], Changes(s'))
    ensures forall v :: 0 <= v < |s'.threads| ==> ThreadOk(s'.f, s'.threads[v], Changes(s'))
  {
    forall v | 0 <= v < |s'.threads| ensures ThreadOk(s'.f, s'.threads[v], Changes(s')) {
      if v != t { ThreadStable(s.f, Changes(s), s'.f, Changes(s'), s.threads[v]); }
    }
  }

  lemma BarrierStep(s: State, t: nat, i: nat)
    requires BarrierOk(s) && t < |s.threads| && InRange(s, s.threads[t])
    ensures BarrierOk(Next(s, t, i))
  {
    var s' := Next(s, t, i);
    NextFrame(s, t, i);
    if Busy(s.threads[t].pc) { assert !LoopDone(s); }
    forall v | 0 <= v < |s'.threads| && (s'.threads[v].pc.Copy? || s'.threads[v].pc.Finished?)
      ensures LoopDone(s')
    {
      if v != t { assert s'.threads[v] == s.threads[v]; }
      assert LoopDone(s);
      QuietAfterLoop(s, t, i);
    }
  }

  lemma QuietAfterLoop(s: State, t: nat, i: nat)
    requires t < |s.threads| && InRange(s, s.threads[t]) && LoopDone(s)
    ensures LoopDone(Next(s, t, i))
  {}

  /** The invariant holds after any step of any thread. */
  lemma StepInv(s: State, t: nat, i: nat)
    requires Inv(s) && t < |s.threads|
    ensures InRange(s, s.threads[t]) && Inv(Next(s, t, i))
  {
    InvInRange(s, t);
    StepEvolves(s, t, i);
    LinksStep(s, t, i);
    CountsStep(s, t, i);
    SlotsFit(Next(s, t, i));
    InputStep(s, t, i);
    BufferStep(s, t, i);
    BarrierStep(s, t, i);
    OwnStepOk(s, t, i);
    NextFrame(s, t, i);
    OthersOk(s, t, Next(s, t, i));
  }
}
