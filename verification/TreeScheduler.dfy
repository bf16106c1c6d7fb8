/**
 The tree solver in which every worker first draws one of n tickets and then waits for a node. `worked` is a history
 variable: the nodes in the order their work finished.
 */
module TreeScheduler {
  import opened Sets
  import opened Counting
  import opened DagTask
  import opened Fairness

  datatype Pc =
    | Draw                        // about to take a ticket
    | Pop                         // holds a ticket, about to take a node from the queue
    | Start(v: nat)               // about to test that v has not been worked on
    | Guard(v: nat)               // about to test that v's parent has been worked on
    | Push(v: nat, k: nat)        // about to push the k-th child of v
    | Exited
    | Failed                      // an exception left the worker

  datatype State = State(left: int, queue: seq<nat>, done: seq<bool>, threads: seq<Pc>, worked: seq<nat>)

  /** Every node is reachable from node 0, which is nobody's child; any other node is a child once. */
  ghost predicate IsTree(children: seq<seq<nat>>) {
    children != [] && Below(children, |children|) && SingleParents(children) && AllReachable(children)
  }

  predicate SingleParents(children: seq<seq<nat>>) {
    forall v {:trigger Incoming(Arcs(children), v)} :: 0 <= v < |children| ==>
      |Incoming(Arcs(children), v)| == if v == 0 then 0 else 1
  }

  ghost predicate AllReachable(children: seq<seq<nat>>) {
    forall v :: 0 <= v < |children| ==> Reachable(children, v)
  }

  function Parent(children: seq<seq<nat>>, v: nat): (p: nat)
    requires IsTree(children) && 0 < v < |children|
    ensures p < |children| && v in children[p]
  {
    IncomingIsPredecessors(children, v, Incoming(Arcs(children), v)[0]);
    Incoming(Arcs(children), v)[0]
  }

  function Init(children: seq<seq<nat>>, numThreads: nat): State {
    State(|children|, [0], seq(|children|, _ => false), seq(numThreads, _ => Draw), [])
  }

  predicate InRange(children: seq<seq<nat>>, s: State, t: nat) {
    && t < |s.threads| && |s.done| == |children|
    && (s.threads[t].Start? || s.threads[t].Guard? || s.threads[t].Push? ==> s.threads[t].v < |children|)
  }

  function Goto(s: State, t: nat, pc: Pc): State
    requires t < |s.threads|
  {
    s.(threads := s.threads[t := pc])
  }

  /** The root's parent is a dummy that counts as worked on. */
  predicate ParentDone(children: seq<seq<nat>>, s: State, v: nat)
    requires IsTree(children) && v < |children| == |s.done|
  {
    v == 0 || s.done[Parent(children, v)]
  }

  /** What thread t does next. Popping from an empty queue waits. */
  function Next(children: seq<seq<nat>>, s: State, t: nat): State
    requires IsTree(children) && InRange(children, s, t)
  {
    match s.threads[t]
    case Draw => Goto(s, t, if s.left <= 0 then Exited else Pop).(left := s.left - 1)
    case Pop => if s.queue == [] then s else Goto(s, t, Start(s.queue[0])).(queue := s.queue[1..])
    case Start(v) => Goto(s, t, if s.done[v] then Failed else Guard(v))
    case Guard(v) =>
      if ParentDone(children, s, v) then Goto(s, t, Push(v, 0)).(done := s.done[v := true], worked := s.worked + [v])
      else Goto(s, t, Failed)
    case Push(v, k) =>
      if k < |children[v]| then Goto(s, t, Push(v, k + 1)).(queue := s.queue + [children[v][k]])
      else Goto(s, t, Draw)
    case Exited => s
    case Failed => s
  }

  function Run(children: seq<seq<nat>>, s: State, schedule: seq<nat>): State
    requires IsTree(children)
  {
    if schedule == [] then s
    else
      var last := |schedule| - 1;
      var r := Run(children, s, schedule[..last]);
      if InRange(children, r, schedule[last]) then Next(children, r, schedule[last]) else r
  }

  // ---------- Counting tokens and tickets ----------

  /** How many tokens of v a thread holds or still has to push. */
  function Holding(children: seq<seq<nat>>, pc: Pc, v: nat): nat {
    match pc
    case Start(u) => if u == v then 1 else 0
    case Guard(u) => if u == v then 1 else 0
    case Push(u, k) => if u < |children| && k <= |children[u]| then multiset(children[u][k..])[v] else 0
    case _ => 0
  }

  /** A ticket is used once its node is done. */
  function Tickets(pc: Pc): nat { if pc.Pop? || pc.Start? || pc.Guard? then 1 else 0 }

  /** What a thread can still do without drawing again; `size` is the number of edges. */
  function Work(children: seq<seq<nat>>, pc: Pc): nat {
    var size := |Arcs(children)|;
    match pc
    case Draw => 1
    case Pop => size + 5
    case Start(_) => size + 4
    case Guard(_) => size + 3
    case Push(v, k) => if v < |children| && k <= |children[v]| then 2 + |children[v]| - k else 0
    case _ => 0
  }

  function Held(children: seq<seq<nat>>, threads: seq<Pc>, v: nat): nat {
    Total(threads, pc => Holding(children, pc, v))
  }

  function Drawn(threads: seq<Pc>): nat { Total(threads, Tickets) }

  function Count(children: seq<seq<nat>>, s: State, v: nat): nat {
    multiset(s.queue)[v] + Held(children, s.threads, v) + if v < |s.done| && s.done[v] then 1 else 0
  }

  // ---------- The invariant ----------

  predicate ThreadOk(children: seq<seq<nat>>, pc: Pc) {
    match pc
    case Start(v) => v < |children|
    case Guard(v) => v < |children|
    case Push(v, k) => v < |children| && k <= |children[v]|
    case Failed => false
    case _ => true
  }

  /** A node is in circulation or done, and then only once, exactly when its parent is done. */
  ghost predicate TokensOk(children: seq<seq<nat>>, s: State)
    requires IsTree(children) && |s.done| == |children|
  {
    && (forall v {:trigger Count(children, s, v)} :: 0 <= v < |children| ==>
          Count(children, s, v) == if ParentDone(children, s, v) then 1 else 0)
    && (forall v :: v in s.queue ==> v < |children|)
  }

  /** n tickets: on offer, held, or used. */
  predicate TicketsOk(s: State) {
    Drawn(s.threads) + |s.worked| + (if s.left > 0 then s.left else 0) == |s.done|
  }

  predicate WorkedOk(children: seq<seq<nat>>, s: State)
    requires IsTree(children) && |s.done| == |children|
  {
    && (forall v :: v in s.worked ==> v < |s.done|)
    && (forall v :: 0 <= v < |s.done| ==> (s.done[v] <==> v in s.worked))
    && Distinct(s.worked)
    && (forall i :: 0 <= i < |s.worked| ==> ParentBefore(children, s.worked, i))
  }

  predicate ParentBefore(children: seq<seq<nat>>, worked: seq<nat>, i: nat)
    requires IsTree(children) && i < |worked|
  {
    0 < worked[i] < |children| ==> Parent(children, worked[i]) in worked[..i]
  }

  ghost predicate Inv(children: seq<seq<nat>>, s: State)
    requires IsTree(children)
  {
    && |s.done| == |children|
    && TokensOk(children, s) && TicketsOk(s) && WorkedOk(children, s)
    && (forall t :: 0 <= t < |s.threads| ==>
          ThreadOk(children, s.threads[t]) && (s.threads[t] == Exited ==> s.left < 0))
  }

  lemma InitInv(children: seq<seq<nat>>, numThreads: nat)
    requires IsTree(children)
    ensures Inv(children, Init(children, numThreads))
  {
    hide SingleParents, AllReachable;
    var s := Init(children, numThreads);
    TotalZero(s.threads, Tickets);
    forall v | 0 <= v < |children| ensures Count(children, s, v) == if ParentDone(children, s, v) then 1 else 0 {
      TotalZero(s.threads, pc => Holding(children, pc, v));
    }
  }

  /** v is listed among u's children once if u is its parent, and not at all otherwise. */
  lemma ListedOnce(children: seq<seq<nat>>, u: nat, v: nat)
    requires IsTree(children) && u < |children| && v < |children|
    ensures multiset(children[u])[v] == if v > 0 && Parent(children, v) == u then 1 else 0
  {
    hide AllReachable;
    var list := Incoming(Arcs(children), v);
    IncomingIsPredecessors(children, v, u);
    if v > 0 { assert list == [Parent(children, v)]; }
  }

  lemma InvInRange(children: seq<seq<nat>>, s: State, t: nat)
    requires IsTree(children) && Inv(children, s) && t < |s.threads|
    ensures InRange(children, s, t)
  {
    hide SingleParents, AllReachable, Below, TokensOk, TicketsOk, WorkedOk;
  }

  /** Whoever holds a node knows that it is not done and its parent is. */
  lemma HolderKnows(children: seq<seq<nat>>, s: State, t: nat)
    requires IsTree(children) && Inv(children, s) && t < |s.threads|
    ensures s.threads[t].Start? || s.threads[t].Guard? ==>
      var v := s.threads[t].v;
      v < |children| && !s.done[v] && ParentDone(children, s, v)
  {
    hide SingleParents, AllReachable, Below, TicketsOk, WorkedOk, Parent;
    if s.threads[t].Start? || s.threads[t].Guard? {
      var v := s.threads[t].v;
      assert Count(children, s, v) == if ParentDone(children, s, v) then 1 else 0;
      TotalAtLeast(s.threads, t, pc => Holding(children, pc, v));
    }
  }

  lemma TokenUpdate(children: seq<seq<nat>>, s: State, t: nat, v: nat)
    requires IsTree(children) && InRange(children, s, t)
    ensures Held(children, Next(children, s, t).threads, v) + Holding(children, s.threads[t], v)
      == Held(children, s.threads, v)
         + if t < |Next(children, s, t).threads| then Holding(children, Next(children, s, t).threads[t], v) else 0
  {
    hide Holding, IsTree;
    var s' := Next(children, s, t);
    TotalUpdate(s.threads, t, s'.threads[t], x => Holding(children, x, v));
  }

  /** Doing v puts its children into circulation. */
  lemma GuardToken(children: seq<seq<nat>>, s: State, t: nat, v: nat)
    requires IsTree(children) && Inv(children, s) && InRange(children, s, t) && v < |children| && s.threads[t].Guard?
    ensures var s' := Next(children, s, t);
      |s'.done| == |children| && Count(children, s', v) == if ParentDone(children, s', v) then 1 else 0
  {
    hide SingleParents, AllReachable, Below, TicketsOk, WorkedOk, Parent, Total;
    var u := s.threads[t].v;
    HolderKnows(children, s, t);
    assert Count(children, s, v) == if ParentDone(children, s, v) then 1 else 0;
    TokenUpdate(children, s, t, v);
    ListedOnce(children, u, v);
    assert children[u][0..] == children[u];
    hide Inv, Held;
  }

  /** Taking a node from the queue. */
  lemma PopToken(children: seq<seq<nat>>, s: State, t: nat, v: nat)
    requires IsTree(children) && InRange(children, s, t) && v < |children| && s.threads[t].Pop?
    ensures Count(children, Next(children, s, t), v) == Count(children, s, v)
  {
    hide SingleParents, AllReachable, Below, Parent, Held;
    TokenUpdate(children, s, t, v);
    if s.queue != [] { assert s.queue == [s.queue[0]] + s.queue[1..]; }
  }

  /** Pushing a child. */
  lemma PushToken(children: seq<seq<nat>>, s: State, t: nat, v: nat)
    requires IsTree(children) && InRange(children, s, t) && v < |children| && s.threads[t].Push?
    requires ThreadOk(children, s.threads[t])
    ensures Count(children, Next(children, s, t), v) == Count(children, s, v)
  {
    hide SingleParents, AllReachable, Below, Parent, Held;
    TokenUpdate(children, s, t, v);
    var pc := s.threads[t];
    if pc.k < |children[pc.v]| {
      assert children[pc.v][pc.k..] == [children[pc.v][pc.k]] + children[pc.v][pc.k + 1..];
    }
  }

  /** Other operations move a token, or none. */
  lemma MoveToken(children: seq<seq<nat>>, s: State, t: nat, v: nat)
    requires IsTree(children) && Inv(children, s) && InRange(children, s, t) && v < |children| && !s.threads[t].Guard?
    ensures var s' := Next(children, s, t);
      |s'.done| == |children| && Count(children, s', v) == Count(children, s, v)
      && ParentDone(children, s', v) == ParentDone(children, s, v)
  {
    hide SingleParents, AllReachable, Below, TicketsOk, WorkedOk, TokensOk, Parent, Held, Holding;
    var pc := s.threads[t];
    assert ThreadOk(children, pc);
    HolderKnows(children, s, t);
    if pc.Pop? { PopToken(children, s, t, v); }
    else if pc.Push? { PushToken(children, s, t, v); }
    else { StayToken(children, s, t, v); }
  }

  lemma StayToken(children: seq<seq<nat>>, s: State, t: nat, v: nat)
    requires IsTree(children) && InRange(children, s, t) && v < |children|
    requires s.threads[t].Draw? || s.threads[t].Start? || s.threads[t].Exited?
    requires s.threads[t].Start? ==> !s.done[s.threads[t].v]
    ensures Count(children, Next(children, s, t), v) == Count(children, s, v)
  {
    hide SingleParents, AllReachable, Below, Parent, Held;
    TokenUpdate(children, s, t, v);
  }

  lemma TokenStep(children: seq<seq<nat>>, s: State, t: nat, v: nat)
    requires IsTree(children) && Inv(children, s) && InRange(children, s, t) && v < |children|
    ensures var s' := Next(children, s, t);
      |s'.done| == |children| && Count(children, s', v) == if ParentDone(children, s', v) then 1 else 0
  {
    hide SingleParents, AllReachable, Below, TicketsOk, WorkedOk, Parent, Count;
    assert Count(children, s, v) == if ParentDone(children, s, v) then 1 else 0;
    if s.threads[t].Guard? { GuardToken(children, s, t, v); } else { MoveToken(children, s, t, v); }
  }

  lemma TicketStep(children: seq<seq<nat>>, s: State, t: nat)
    requires IsTree(children) && Inv(children, s) && InRange(children, s, t)
    ensures TicketsOk(Next(children, s, t))
  {
    hide SingleParents, AllReachable, Below, TokensOk, WorkedOk, Parent, Total, Arcs;
    HolderKnows(children, s, t);
    TotalUpdate(s.threads, t, Next(children, s, t).threads[t], Tickets);
  }

  lemma WorkedStep(children: seq<seq<nat>>, s: State, t: nat)
    requires IsTree(children) && Inv(children, s) && InRange(children, s, t)
    ensures |Next(children, s, t).done| == |children| && WorkedOk(children, Next(children, s, t))
  {
    hide SingleParents, AllReachable, Below, TokensOk, TicketsOk, Arcs;
    HolderKnows(children, s, t);
    var s', pc := Next(children, s, t), s.threads[t];
    if pc.Guard? {
      assert s'.worked == s.worked + [pc.v] && pc.v !in s.worked;
      forall i | 0 <= i < |s'.worked| ensures ParentBefore(children, s'.worked, i) {
        if i < |s.worked| {
          assert ParentBefore(children, s.worked, i) && s'.worked[..i] == s.worked[..i];
        } else {
          assert s'.worked[..i] == s.worked;
        }
      }
    }
  }

  lemma QueueStep(children: seq<seq<nat>>, s: State, t: nat)
    requires IsTree(children) && InRange(children, s, t) && forall v :: v in s.queue ==> v < |children|
    ensures forall v :: v in Next(children, s, t).queue ==> v < |children|
  {
    hide SingleParents, AllReachable, Below;
    var s', pc := Next(children, s, t), s.threads[t];
    ChildrenBelow(children, pc);
    forall v | v in s'.queue ensures v < |children| {
      assert v in s.queue || (pc.Push? && pc.k < |children[pc.v]| && v == children[pc.v][pc.k]);
    }
  }

  lemma ChildrenBelow(children: seq<seq<nat>>, pc: Pc)
    requires Below(children, |children|)
    ensures pc.Push? && pc.v < |children| && pc.k < |children[pc.v]| ==> children[pc.v][pc.k] < |children|
  {}

  lemma StepInv(children: seq<seq<nat>>, s: State, t: nat)
    requires IsTree(children) && Inv(children, s) && InRange(children, s, t)
    ensures Inv(children, Next(children, s, t))
  {
    hide SingleParents, AllReachable, Below, Count, TicketsOk, ParentDone;
    var s' := Next(children, s, t);
    WorkedStep(children, s, t);
    TicketStep(children, s, t);
    HolderKnows(children, s, t);
    hide WorkedOk;
    assert ThreadOk(children, s.threads[t]);
    QueueStep(children, s, t);
    forall v | 0 <= v < |children| ensures Count(children, s', v) == if ParentDone(children, s', v) then 1 else 0 {
      TokenStep(children, s, t, v);
    }
    assert s.queue != [] ==> s.queue[0] in s.queue;
    assert ThreadOk(children, s'.threads[t]);
  }

  lemma {:induction false} RunInv(children: seq<seq<nat>>, s: State, schedule: seq<nat>)
    requires IsTree(children) && Inv(children, s)
    ensures Inv(children, Run(children, s, schedule)) && |Run(children, s, schedule).threads| == |s.threads|
  {
    hide SingleParents, AllReachable, Below, Inv;
    if schedule != [] {
      var last := |schedule| - 1;
      RunInv(children, s, schedule[..last]);
      var r := Run(children, s, schedule[..last]);
      if InRange(children, r, schedule[last]) { StepInv(children, r, schedule[last]); }
    }
  }

  // ---------- No deadlock, and an end ----------

  /** If no node is in circulation, all have been worked on. */
  lemma {:induction false} DoneAlong(children: seq<seq<nat>>, s: State, w: seq<nat>, v: nat)
    requires IsTree(children) && |s.done| == |children| && Path(children, w, v) && v < |children|
    requires forall u {:trigger ParentDone(children, s, u)} :: 0 <= u < |children| ==>
      (s.done[u] <==> ParentDone(children, s, u))
    ensures s.done[v]
    decreases |w|
  {
    hide SingleParents, AllReachable, Below, Parent;
    if |w| > 1 && v != 0 {
      var shorter, p := w[..|w| - 1], w[|w| - 2];
      assert PathStep(children, w, |w| - 2);
      forall i | 0 <= i < |shorter| - 1 ensures PathStep(children, shorter, i) { assert PathStep(children, w, i); }
      DoneAlong(children, s, shorter, p);
      ListedOnce(children, p, v);
      assert v in multiset(children[p]);
    }
    assert ParentDone(children, s, v);
  }

  /** The thread holds a node, or one of its children. */
  predicate CanPush(children: seq<seq<nat>>, pc: Pc) {
    pc.Start? || pc.Guard? || (pc.Push? && pc.v < |children| && pc.k < |children[pc.v]|)
  }

  lemma AllWorked(children: seq<seq<nat>>, s: State)
    requires IsTree(children) && Inv(children, s) && s.queue == []
    requires forall t :: 0 <= t < |s.threads| ==> !CanPush(children, s.threads[t])
    ensures forall v :: 0 <= v < |children| ==> s.done[v]
    ensures |s.worked| == |children|
  {
    hide Parent, TicketsOk, Arcs, Incoming;
    forall v | 0 <= v < |children| ensures s.done[v] <==> ParentDone(children, s, v) {
      assert Count(children, s, v) == if ParentDone(children, s, v) then 1 else 0;
      forall t | 0 <= t < |s.threads| ensures Holding(children, s.threads[t], v) == 0 {
        assert !CanPush(children, s.threads[t]) && ThreadOk(children, s.threads[t]);
      }
      TotalZero(s.threads, pc => Holding(children, pc, v));
    }
    forall v | 0 <= v < |children| ensures s.done[v] {
      assert Reachable(children, v);
      var w :| Path(children, w, v);
      DoneAlong(children, s, w, v);
    }
    DistinctSize(s.worked);
    assert Elements(s.worked) == Upto(|children|);
  }

  /** A ticket holder waits at an empty queue only while some thread has a node or is about to push one. */
  lemma NeverWaitsInVain(children: seq<seq<nat>>, s: State, t: nat)
    requires IsTree(children) && Inv(children, s) && t < |s.threads| && s.threads[t] == Pop && s.queue == []
    ensures exists u :: 0 <= u < |s.threads| && CanPush(children, s.threads[u])
  {
    hide SingleParents, AllReachable, Below, TokensOk, WorkedOk;
    if forall u :: 0 <= u < |s.threads| ==> !CanPush(children, s.threads[u]) {
      AllWorked(children, s);
      TotalAtLeast(s.threads, t, Tickets);
    }
  }

  /** Once all threads have returned, each node was worked on exactly once and nothing is left in the queue. */
  lemma CompleteAtTheEnd(children: seq<seq<nat>>, s: State)
    requires IsTree(children) && Inv(children, s)
    requires s.threads != [] && forall t :: 0 <= t < |s.threads| ==> s.threads[t] == Exited
    ensures s.queue == [] && |s.worked| == |children| && forall v :: 0 <= v < |children| ==> s.done[v]
  {
    hide SingleParents, AllReachable, Below, Parent, ParentDone;
    assert s.threads[0] == Exited;
    TotalZero(s.threads, Tickets);
    assert |s.worked| == |children|;
    DistinctFull(s.worked, |children|);
    forall v | 0 <= v < |children| ensures s.done[v] && v !in s.queue {
      assert Count(children, s, v) == if ParentDone(children, s, v) then 1 else 0;
      assert v in multiset(s.queue) <==> v in s.queue;
    }
    SomethingQueued(s.queue);
  }

  lemma SomethingQueued(queue: seq<nat>)
    ensures queue != [] ==> exists v :: v in queue
  {
    if queue != [] { assert queue[0] in queue; }
  }

  // ---------- Every run ends ----------

  function Potential(children: seq<seq<nat>>, s: State): nat {
    Total(s.threads, pc => Work(children, pc)) + (|Arcs(children)| + 5) * (if s.left > 0 then s.left else 0)
  }

  /** Any step but waiting uses up some of the potential, so every schedule has a bounded number of such steps. */
  lemma StepsAreBounded(children: seq<seq<nat>>, s: State, t: nat)
    requires IsTree(children) && Inv(children, s) && InRange(children, s, t) && Next(children, s, t) != s
    ensures Potential(children, Next(children, s, t)) < Potential(children, s)
  {
    hide SingleParents, AllReachable, Below, TokensOk, TicketsOk, WorkedOk, Parent, Total, Arcs;
    var s', pc := Next(children, s, t), s.threads[t];
    HolderKnows(children, s, t);
    assert ThreadOk(children, pc);
    TotalUpdate(s.threads, t, s'.threads[t], x => Work(children, x));
    var c := |Arcs(children)| + 5;
    if pc.Draw? && s.left > 0 { assert c * s.left == c * (s.left - 1) + c; }
    if pc.Guard? { ArcsOfNode(children, pc.v); }
  }

  /** How many steps of the schedule did something. */
  function Moves(children: seq<seq<nat>>, s: State, schedule: seq<nat>): nat
    requires IsTree(children)
  {
    if schedule == [] then 0
    else
      var last := |schedule| - 1;
      Moves(children, s, schedule[..last])
        + if Run(children, s, schedule) != Run(children, s, schedule[..last]) then 1 else 0
  }

  lemma {:induction false} MovesBounded(children: seq<seq<nat>>, s: State, schedule: seq<nat>)
    requires IsTree(children) && Inv(children, s)
    ensures Moves(children, s, schedule) + Potential(children, Run(children, s, schedule)) <= Potential(children, s)
  {
    hide SingleParents, AllReachable, Below, Inv, Next, Potential;
    if schedule != [] {
      var last := |schedule| - 1;
      MovesBounded(children, s, schedule[..last]);
      RunInv(children, s, schedule[..last]);
      var r := Run(children, s, schedule[..last]);
      if Run(children, s, schedule) != r { StepsAreBounded(children, r, schedule[last]); }
    }
  }

  lemma {:induction false} InitialPotential(children: seq<seq<nat>>, threads: seq<Pc>)
    requires forall t :: 0 <= t < |threads| ==> threads[t] == Draw
    ensures Total(threads, pc => Work(children, pc)) == |threads|
  {
    if threads != [] { InitialPotential(children, threads[1..]); }
  }

  /**
   Every run: each node is worked on at most once and after its parent, no guard fires, no ticket holder waits in
   vain, and at most (edges + 5) * n + threads steps are not waiting.
   */
  lemma EveryRun(children: seq<seq<nat>>, numThreads: nat, schedule: seq<nat>)
    requires IsTree(children)
    ensures var s := Run(children, Init(children, numThreads), schedule);
      && Distinct(s.worked)
      && (forall i :: 0 <= i < |s.worked| ==> ParentBefore(children, s.worked, i))
      && (forall t :: 0 <= t < |s.threads| ==> s.threads[t] != Failed)
      && (forall t :: 0 <= t < |s.threads| && s.threads[t] == Pop && s.queue == [] ==>
            exists u :: 0 <= u < |s.threads| && CanPush(children, s.threads[u]))
      && Moves(children, Init(children, numThreads), schedule) <= (|Arcs(children)| + 5) * |children| + numThreads
  {
    hide SingleParents, AllReachable, Below, TokensOk, TicketsOk, Next, Run, CanPush, Moves;
    var i := Init(children, numThreads);
    InitInv(children, numThreads);
    RunInv(children, i, schedule);
    MovesBounded(children, i, schedule);
    InitialPotential(children, i.threads);
    var s := Run(children, i, schedule);
    forall t | 0 <= t < |s.threads| && s.threads[t] == Pop && s.queue == []
      ensures exists u :: 0 <= u < |s.threads| && CanPush(children, s.threads[u])
    {
      NeverWaitsInVain(children, s, t);
    }
  }

  // ---------- Fair schedules ----------

  function At(children: seq<seq<nat>>, s: State, sched: nat -> nat, k: nat): State
    requires IsTree(children)
  {
    if k == 0 then s
    else
      var r := At(children, s, sched, k - 1);
      if InRange(children, r, sched(k - 1)) then Next(children, r, sched(k - 1)) else r
  }

  lemma {:induction false} AtInv(children: seq<seq<nat>>, s: State, sched: nat -> nat, k: nat)
    requires IsTree(children) && Inv(children, s)
    ensures Inv(children, At(children, s, sched, k)) && |At(children, s, sched, k).threads| == |s.threads|
  {
    hide SingleParents, AllReachable, Below, Inv;
    if k > 0 {
      AtInv(children, s, sched, k - 1);
      var r := At(children, s, sched, k - 1);
      if InRange(children, r, sched(k - 1)) { StepInv(children, r, sched(k - 1)); }
    }
  }

  predicate AllExited(s: State) { forall t :: 0 <= t < |s.threads| ==> s.threads[t] == Exited }

  predicate Moving(children: seq<seq<nat>>, s: State, t: nat)
    requires IsTree(children)
  {
    InRange(children, s, t) && Next(children, s, t) != s
  }

  lemma SomebodyMoves(children: seq<seq<nat>>, s: State)
    requires IsTree(children) && Inv(children, s) && !AllExited(s)
    ensures exists t: nat :: Moving(children, s, t)
  {
    hide SingleParents, AllReachable, Below, TokensOk, TicketsOk, WorkedOk, Parent;
    var t: nat :| t < |s.threads| && s.threads[t] != Exited;
    if s.threads[t] == Pop && s.queue == [] {
      NeverWaitsInVain(children, s, t);
      var u: nat :| u < |s.threads| && CanPush(children, s.threads[u]);
      NextMoves(children, s, u);
    } else {
      NextMoves(children, s, t);
    }
  }

  lemma NextMoves(children: seq<seq<nat>>, s: State, t: nat)
    requires IsTree(children) && Inv(children, s) && t < |s.threads| && s.threads[t] != Exited
    requires s.threads[t] == Pop ==> s.queue != []
    ensures Moving(children, s, t)
  {
    hide SingleParents, AllReachable, Below, TokensOk, TicketsOk, WorkedOk, Parent;
    InvInRange(children, s, t);
    assert ThreadOk(children, s.threads[t]);
    assert Next(children, s, t).threads[t] != s.threads[t];
  }

  ghost function Helper(children: seq<seq<nat>>, s: State): nat
    requires IsTree(children)
  {
    if exists t: nat :: Moving(children, s, t) then
      var t: nat :| Moving(children, s, t);
      t
    else 0
  }

  lemma StepAdvances(children: seq<seq<nat>>, s: State, sched: nat -> nat, k: nat)
    requires IsTree(children) && Inv(children, s) && !AllExited(At(children, s, sched, k))
    ensures var now, after := At(children, s, sched, k), At(children, s, sched, k + 1);
      && Helper(children, now) < |s.threads|
      && (Potential(children, after) < Potential(children, now) || (after == now && sched(k) != Helper(children, now)))
  {
    hide SingleParents, AllReachable, Below, Inv, Next, Potential;
    var now := At(children, s, sched, k);
    AtInv(children, s, sched, k);
    SomebodyMoves(children, now);
    if Moving(children, now, sched(k)) { StepsAreBounded(children, now, sched(k)); }
  }

  /** Under every fair schedule all threads return (and then, by CompleteAtTheEnd, everything has been worked on). */
  lemma FairRunsEnd(children: seq<seq<nat>>, numThreads: nat, sched: nat -> nat)
    requires IsTree(children) && Fair(sched, numThreads)
    ensures exists k :: AllExited(At(children, Init(children, numThreads), sched, k))
  {
    hide SingleParents, AllReachable, Below, Inv, At, Potential, Helper, AllExited, Fair;
    var s := Init(children, numThreads);
    InitInv(children, numThreads);
    var main, rest := (k: nat) => Potential(children, At(children, s, sched, k)), (k: nat) => 0;
    var helper := (k: nat) => Helper(children, At(children, s, sched, k));
    var done := (k: nat) => AllExited(At(children, s, sched, k));
    forall i: nat | !done(i) ensures helper(i) < numThreads && Advances(sched, main, rest, helper, i) {
      StepAdvances(children, s, sched, i);
    }
    FairEndsFromStart(sched, numThreads, main, rest, helper, done);
    var k :| done(k);
    assert AllExited(At(children, s, sched, k));
  }
}
