/**
 The worker threads that execute a task graph through one blocking queue: every step is one atomic operation of one
 thread. `counted` and `worked` are history variables: the nodes whose completion has been subtracted from the work
 counter, and the nodes in the order their work finished.
 */
module DagScheduler {
  import opened Sets
  import opened Counting
  import opened DagTask

  datatype Status = Initial | InQueue | InProgress | Done

  datatype Item = Task(v: nat) | Stop

  datatype Pc =
    | Pop                                   // about to take an item from the queue
    | Check(v: nat, k: nat)                 // about to load the status of the k-th parent of v
    | Repush(v: nat)                        // about to put v back into the queue
    | Start(v: nat)                         // in progress, about to enter the guarded work
    | Guard(v: nat, k: nat)                 // about to test that the k-th parent has been worked on
    | Finish(v: nat)                        // about to mark v as done
    | Subtract(v: nat)                      // about to decrement the work counter
    | Alarm(v: nat, rest: nat)              // about to push one of the remaining stop items
    | Publish(v: nat, k: nat)               // about to offer the k-th child of v
    | Push(v: nat, k: nat, child: nat)      // won the child, about to push it
    | Exited
    | Failed                                // an exception left the worker

  datatype State = State(
    status: seq<Status>, done: seq<bool>, queue: seq<Item>, left: int, threads: seq<Pc>,
    counted: set<nat>, worked: seq<nat>)

  function Parents(children: seq<seq<nat>>, v: nat): seq<nat> { Incoming(Arcs(children), v) }

  function Init(children: seq<seq<nat>>, numThreads: nat): State
    requires children != []
  {
    State(seq(|children|, _ => Initial)[0 := InQueue], seq(|children|, _ => false), [Task(0)], |children|,
          seq(numThreads, _ => Pop), {}, [])
  }

  predicate NodesInRange(pc: Pc, n: nat) {
    match pc
    case Pop => true
    case Push(v, _, child) => v < n && child < n
    case Exited => true
    case Failed => true
    case _ => pc.v < n
  }

  predicate InRange(children: seq<seq<nat>>, s: State, t: nat) {
    && t < |s.threads| && |s.status| == |s.done| == |children| && Below(children, |children|)
    && NodesInRange(s.threads[t], |children|)
  }

  function Goto(s: State, t: nat, pc: Pc): State
    requires t < |s.threads|
  {
    s.(threads := s.threads[t := pc])
  }

  lemma ParentsAre(children: seq<seq<nat>>, v: nat, p: nat)
    ensures p in Parents(children, v) <==> p < |children| && v in children[p]
  {
    IncomingIsPredecessors(children, v, p);
  }

  function ParentAt(children: seq<seq<nat>>, v: nat, k: nat): (p: nat)
    requires k < |Parents(children, v)|
    ensures p < |children| && p == Parents(children, v)[k]
  {
    var p := Parents(children, v)[k];
    ParentsAre(children, v, p);
    p
  }

  /** What thread t does next. Popping from an empty queue waits. */
  function Next(children: seq<seq<nat>>, s: State, t: nat): State
    requires InRange(children, s, t)
  {
    match s.threads[t]
    case Pop =>
      if s.queue == [] then s
      else if s.queue[0] == Stop then Goto(s, t, Exited).(queue := s.queue[1..])
      else Goto(s, t, Check(s.queue[0].v, 0)).(queue := s.queue[1..])
    case Check(v, k) =>
      if k < |Parents(children, v)| then
        Goto(s, t, if s.status[ParentAt(children, v, k)] == Done then Check(v, k + 1) else Repush(v))
      else Goto(s, t, Start(v)).(status := s.status[v := InProgress])
    case Repush(v) => Goto(s, t, Pop).(queue := s.queue + [Task(v)])
    case Start(v) => Goto(s, t, if s.done[v] then Failed else Guard(v, 0))
    case Guard(v, k) =>
      if k < |Parents(children, v)| then
        Goto(s, t, if s.done[ParentAt(children, v, k)] then Guard(v, k + 1) else Failed)
      else Goto(s, t, Finish(v)).(done := s.done[v := true], worked := s.worked + [v])
    case Finish(v) => Goto(s, t, Subtract(v)).(status := s.status[v := Done])
    case Subtract(v) =>
      Goto(s, t, if s.left <= 1 then Alarm(v, |s.threads|) else Publish(v, 0))
        .(left := s.left - 1, counted := s.counted + {v})
    case Alarm(v, rest) =>
      if rest == 0 then Goto(s, t, Publish(v, 0)) else Goto(s, t, Alarm(v, rest - 1)).(queue := s.queue + [Stop])
    case Publish(v, k) =>
      if k >= |children[v]| then Goto(s, t, Pop)
      else if s.status[children[v][k]] == Initial then
        Goto(s, t, Push(v, k, children[v][k])).(status := s.status[children[v][k] := InQueue])
      else Goto(s, t, Publish(v, k + 1))
    case Push(v, k, child) => Goto(s, t, Publish(v, k + 1)).(queue := s.queue + [Task(child)])
    case Exited => s
    case Failed => s
  }

  function Run(children: seq<seq<nat>>, s: State, schedule: seq<nat>): State {
    if schedule == [] then s
    else
      var last := |schedule| - 1;
      var r := Run(children, s, schedule[..last]);
      if InRange(children, r, schedule[last]) then Next(children, r, schedule[last]) else r
  }

  // ---------- Counting who is responsible for what ----------

  datatype Mark = Token(item: Item) | Running(v: nat) | Finishing(v: nat)

  function Holding(pc: Pc, m: Mark): nat {
    match pc
    case Check(v, _) => if m == Token(Task(v)) then 1 else 0
    case Repush(v) => if m == Token(Task(v)) then 1 else 0
    case Start(v) => if m == Running(v) then 1 else 0
    case Guard(v, _) => if m == Running(v) then 1 else 0
    case Finish(v) => if m == Running(v) then 1 else 0
    case Subtract(v) => if m == Finishing(v) then 1 else 0
    case Alarm(_, rest) => if m == Token(Stop) then rest else 0
    case Push(_, _, child) => if m == Token(Task(child)) then 1 else 0
    case Exited => if m == Token(Stop) then 1 else 0
    case _ => 0
  }

  function Holds(m: Mark): Pc -> nat { pc => Holding(pc, m) }

  function Held(threads: seq<Pc>, m: Mark): nat { Total(threads, Holds(m)) }

  function Queued(queue: seq<Item>, m: Mark): nat {
    match m case Token(item) => multiset(queue)[item] case _ => 0
  }

  /** How often m is queued or held by a thread. */
  function Count(s: State, m: Mark): nat { Queued(s.queue, m) + Held(s.threads, m) }

  predicate Has(s: State, v: nat, status: Status) { v < |s.status| && s.status[v] == status }

  function Expected(s: State, m: Mark): nat {
    match m
    case Token(Task(v)) => if Has(s, v, InQueue) then 1 else 0
    case Token(Stop) => if s.left <= 0 then |s.threads| else 0
    case Running(v) => if Has(s, v, InProgress) then 1 else 0
    case Finishing(v) => if Has(s, v, Done) && v !in s.counted then 1 else 0
  }

  lemma HeldUpdate(threads: seq<Pc>, t: nat, pc: Pc, m: Mark)
    requires t < |threads|
    ensures Held(threads[t := pc], m) + Holding(threads[t], m) == Held(threads, m) + Holding(pc, m)
  {
    TotalUpdate(threads, t, pc, Holds(m));
  }

  lemma SomeHolder(threads: seq<Pc>, m: Mark)
    requires Held(threads, m) > 0
    ensures exists t :: 0 <= t < |threads| && Holding(threads[t], m) > 0
  {
    SomePositive(threads, Holds(m));
    var t :| 0 <= t < |threads| && Holds(m)(threads[t]) > 0;
    assert Holding(threads[t], m) > 0;
  }

  lemma QueuePush(queue: seq<Item>, item: Item, m: Mark)
    ensures Queued(queue + [item], m) == Queued(queue, m) + if m == Token(item) then 1 else 0
  {}

  lemma QueuePop(queue: seq<Item>, m: Mark)
    requires queue != []
    ensures Queued(queue, m) == Queued(queue[1..], m) + if m == Token(queue[0]) then 1 else 0
  {
    assert queue == [queue[0]] + queue[1..];
  }

  // ---------- The invariant ----------

  predicate AllDone(s: State, nodes: seq<nat>) {
    forall p :: p in nodes ==> Has(s, p, Done)
  }

  predicate ThreadOk(children: seq<seq<nat>>, s: State, pc: Pc)
    requires |s.done| == |children|
  {
    && NodesInRange(pc, |children|)
    && match pc
       case Check(v, k) => k <= |Parents(children, v)| && AllDone(s, Parents(children, v)[..k])
       case Start(v) => AllDone(s, Parents(children, v)) && !s.done[v]
       case Guard(v, k) => AllDone(s, Parents(children, v)) && !s.done[v]
       case Finish(v) => s.done[v]
       case Alarm(_, rest) => rest <= |s.threads|
       case Push(v, k, child) => k < |children[v]| && child == children[v][k]
       case Failed => false
       case _ => true
  }

  ghost predicate MarksOk(s: State) {
    forall m {:trigger Count(s, m)} :: Count(s, m) == Expected(s, m)
  }

  predicate CountedOk(s: State) {
    && s.left == |s.status| - |s.counted|
    && forall v :: v in s.counted ==> Has(s, v, Done)
  }

  /** Finished nodes have been worked on; only nodes in progress may be ahead of their status. */
  predicate DoneOk(s: State) {
    && |s.done| == |s.status|
    && forall v :: 0 <= v < |s.done| ==>
         (s.done[v] ==> s.status[v] == Done || s.status[v] == InProgress) && (s.status[v] == Done ==> s.done[v])
  }

  /** Each node once, and only after all its parents. */
  predicate InOrder(children: seq<seq<nat>>, worked: seq<nat>) {
    && Distinct(worked)
    && (forall i {:trigger worked[i]} :: 0 <= i < |worked| ==> ParentsBefore(children, worked, i))
  }

  predicate ParentsBefore(children: seq<seq<nat>>, worked: seq<nat>, i: nat)
    requires i < |worked|
  {
    forall p :: p in Parents(children, worked[i]) ==> p in worked[..i]
  }

  predicate WorkedOk(children: seq<seq<nat>>, s: State) {
    && InOrder(children, s.worked)
    && (forall v :: v in s.worked ==> v < |s.done|)
    && (forall v :: 0 <= v < |s.done| ==> (s.done[v] <==> v in s.worked))
  }

  /** The thread will still offer v on behalf of its parent p. */
  predicate Offers(children: seq<seq<nat>>, pc: Pc, p: nat, v: nat)
    requires p < |children|
  {
    match pc
    case Subtract(q) => q == p
    case Alarm(q, _) => q == p
    case Publish(q, k) => q == p && k <= |children[p]| && v in children[p][k..]
    case Push(q, k, _) => q == p && k < |children[p]| && v in children[p][k + 1..]
    case _ => false
  }

  predicate Offered(children: seq<seq<nat>>, s: State, p: nat, v: nat)
    requires p < |children|
  {
    exists t :: 0 <= t < |s.threads| && Offers(children, s.threads[t], p, v)
  }

  /** A child that nobody has taken up is still to be offered by every finished parent's worker. */
  predicate OfferOk(children: seq<seq<nat>>, s: State) {
    forall p, v :: 0 <= p < |children| && v in children[p] && Has(s, p, Done) && Has(s, v, Initial) ==>
      Offered(children, s, p, v)
  }

  ghost predicate Inv(children: seq<seq<nat>>, s: State) {
    && |s.status| == |children| > 0 && Below(children, |children|)
    && DoneOk(s) && MarksOk(s) && CountedOk(s) && WorkedOk(children, s) && OfferOk(children, s)
    && s.status[0] != Initial
    && forall t :: 0 <= t < |s.threads| ==> ThreadOk(children, s, s.threads[t])
  }

  lemma InitInv(children: seq<seq<nat>>, numThreads: nat)
    requires children != [] && Below(children, |children|)
    ensures Inv(children, Init(children, numThreads))
  {
    hide Arcs, Incoming, InOrder;
    var s := Init(children, numThreads);
    forall m ensures Count(s, m) == Expected(s, m) { TotalZero(s.threads, Holds(m)); }
    assert InOrder(children, s.worked) by { NothingWorked(children); }
  }

  lemma NothingWorked(children: seq<seq<nat>>)
    ensures InOrder(children, [])
  {}

  /** What a thread holds fixes the status of the node it works for. */
  lemma HolderKnows(children: seq<seq<nat>>, s: State, t: nat, m: Mark)
    requires Inv(children, s) && t < |s.threads|
    ensures Holding(s.threads[t], m) <= Held(s.threads, m) <= Expected(s, m)
  {
    hide WorkedOk, OfferOk, ThreadOk, DoneOk;
    TotalAtLeast(s.threads, t, Holds(m));
    assert Count(s, m) == Expected(s, m);
  }

  lemma HoldersDiffer(children: seq<seq<nat>>, s: State, t: nat, u: nat, m: Mark)
    requires Inv(children, s) && t < |s.threads| && u < |s.threads| && t != u && m != Token(Stop)
    ensures Holding(s.threads[t], m) + Holding(s.threads[u], m) <= 1
  {
    hide WorkedOk, OfferOk, ThreadOk, DoneOk, Holding, Total;
    if t < u { TotalTwo(s.threads, t, u, Holds(m)); } else { TotalTwo(s.threads, u, t, Holds(m)); }
    assert Count(s, m) == Expected(s, m);
  }

  // ---------- Steps ----------

  lemma InvInRange(children: seq<seq<nat>>, s: State, t: nat)
    requires Inv(children, s) && t < |s.threads|
    ensures InRange(children, s, t)
  {
    hide WorkedOk, OfferOk, MarksOk, Arcs, Incoming;
    assert ThreadOk(children, s, s.threads[t]);
  }

  /** What the node of a thread's current operation looks like. */
  lemma StatusHeld(children: seq<seq<nat>>, s: State, t: nat)
    requires Inv(children, s) && t < |s.threads|
    ensures match s.threads[t]
      case Check(v, _) => Has(s, v, InQueue)
      case Repush(v) => Has(s, v, InQueue)
      case Start(v) => Has(s, v, InProgress)
      case Guard(v, _) => Has(s, v, InProgress)
      case Finish(v) => Has(s, v, InProgress)
      case Subtract(v) => Has(s, v, Done) && v !in s.counted && s.left >= 1
      case Push(_, _, child) => Has(s, child, InQueue)
      case Pop => s.queue != [] && s.queue[0].Task? ==> Has(s, s.queue[0].v, InQueue)
      case _ => true
  {
    hide WorkedOk, OfferOk, DoneOk, Arcs, Incoming;
    match s.threads[t]
    case Check(v, _) => HolderKnows(children, s, t, Token(Task(v)));
    case Repush(v) => HolderKnows(children, s, t, Token(Task(v)));
    case Start(v) => HolderKnows(children, s, t, Running(v));
    case Guard(v, _) => HolderKnows(children, s, t, Running(v));
    case Finish(v) => HolderKnows(children, s, t, Running(v));
    case Subtract(v) =>
      HolderKnows(children, s, t, Finishing(v));
      FewCounted(s, v);
    case Push(_, _, child) => HolderKnows(children, s, t, Token(Task(child)));
    case Pop =>
      if s.queue != [] && s.queue[0].Task? {
        QueuePop(s.queue, Token(s.queue[0]));
        assert Count(s, Token(s.queue[0])) == Expected(s, Token(s.queue[0]));
      }
    case _ =>
  }

  lemma FewCounted(s: State, v: nat)
    requires CountedOk(s) && v < |s.status| && v !in s.counted
    ensures s.left >= 1
  {
    SubsetSize(s.counted + {v}, Upto(|s.status|));
  }

  /** A status moves only forward, and a finished node stays finished. */
  lemma StatusStep(children: seq<seq<nat>>, s: State, t: nat, v: nat)
    requires Inv(children, s) && InRange(children, s, t) && v < |s.status|
    ensures var s' := Next(children, s, t);
      && |s'.status| == |s.status| == |s'.done| && |s'.threads| == |s.threads|
      && (s.status[v] == Done ==> s'.status[v] == Done)
      && (s'.status[v] == Initial ==> s.status[v] == Initial)
      && (s.done[v] ==> s'.done[v])
      && (s'.status[v] == Done && s.status[v] != Done ==> s.threads[t] == Finish(v))
      && (s.status[v] == Initial && s'.status[v] != Initial ==> s'.threads[t].Push? && s'.threads[t].child == v)
      && (s'.done[v] && !s.done[v] ==> s.threads[t].Guard? && s.threads[t].v == v)
      && (forall u :: 0 <= u < |s.threads| && u != t ==> s'.threads[u] == s.threads[u])
  {
    hide WorkedOk, OfferOk, MarksOk, Arcs, Incoming, CountedOk;
    StatusHeld(children, s, t);
  }

  lemma NoThrow(children: seq<seq<nat>>, s: State, t: nat)
    requires Inv(children, s) && InRange(children, s, t)
    ensures t < |Next(children, s, t).threads| && Next(children, s, t).threads[t] != Failed
  {
    hide WorkedOk, OfferOk, MarksOk, CountedOk, Arcs, Incoming, Parents, AllDone;
    var pc := s.threads[t];
    assert ThreadOk(children, s, pc);
    if pc.Guard? && pc.k < |Parents(children, pc.v)| { ParentIsDone(children, s, pc.v, pc.k); }
  }

  /** Taking up a child creates its token. */
  lemma OfferMarkStep(children: seq<seq<nat>>, s: State, t: nat, m: Mark)
    requires Inv(children, s) && InRange(children, s, t) && s.threads[t].Publish?
    ensures Count(Next(children, s, t), m) == Expected(Next(children, s, t), m)
  {
    hide WorkedOk, OfferOk, Parents, ParentAt, Held, Queued, Below;
    var s' := Next(children, s, t);
    assert Count(s, m) == Expected(s, m);
    BelowHere(children, s.threads[t]);
    assert forall v :: v in s.counted ==> Has(s, v, Done);
    hide Inv, ThreadOk, DoneOk, MarksOk, CountedOk;
    HeldUpdate(s.threads, t, s'.threads[t], m);
  }

  /** Subtracting from the counter is over with the node; the last one owes a stop item to every thread. */
  lemma SubtractMarkStep(children: seq<seq<nat>>, s: State, t: nat, m: Mark)
    requires Inv(children, s) && InRange(children, s, t) && s.threads[t].Subtract?
    ensures Count(Next(children, s, t), m) == Expected(Next(children, s, t), m)
  {
    hide WorkedOk, OfferOk, Parents, ParentAt, Held, Queued, Below;
    var s' := Next(children, s, t);
    StatusHeld(children, s, t);
    assert Count(s, m) == Expected(s, m);
    hide Inv, ThreadOk, DoneOk, MarksOk, CountedOk;
    HeldUpdate(s.threads, t, s'.threads[t], m);
  }

  lemma WorkMarkStep(children: seq<seq<nat>>, s: State, t: nat, m: Mark)
    requires Inv(children, s) && InRange(children, s, t)
    requires s.threads[t].Check? || s.threads[t].Start? || s.threads[t].Guard? || s.threads[t].Finish?
    ensures Count(Next(children, s, t), m) == Expected(Next(children, s, t), m)
  {
    hide WorkedOk, OfferOk, Parents, ParentAt, Held, Queued, Below;
    var s', v := Next(children, s, t), s.threads[t].v;
    StatusHeld(children, s, t);
    NoThrow(children, s, t);
    assert Count(s, m) == Expected(s, m);
    assert v in s.counted ==> Has(s, v, Done);
    hide Inv, ThreadOk, DoneOk, MarksOk, CountedOk;
    HeldUpdate(s.threads, t, s'.threads[t], m);
  }

  lemma NothingNew(children: seq<seq<nat>>, s: State, t: nat, m: Mark)
    requires Inv(children, s) && InRange(children, s, t) && Next(children, s, t) == s
    ensures Count(Next(children, s, t), m) == Expected(Next(children, s, t), m)
  {}

  lemma BelowHere(children: seq<seq<nat>>, pc: Pc)
    requires Below(children, |children|) && NodesInRange(pc, |children|)
    ensures pc.Publish? && pc.k < |children[pc.v]| ==> children[pc.v][pc.k] < |children|
  {}

  lemma PushMarkStep(children: seq<seq<nat>>, s: State, t: nat, m: Mark)
    requires Inv(children, s) && InRange(children, s, t)
    requires s.threads[t].Repush? || s.threads[t].Alarm? || s.threads[t].Push?
    ensures Count(Next(children, s, t), m) == Expected(Next(children, s, t), m)
  {
    hide WorkedOk, OfferOk, Parents, ParentAt, Held, Queued, Below;
    var s' := Next(children, s, t);
    assert Count(s, m) == Expected(s, m);
    hide Inv;
    HeldUpdate(s.threads, t, s'.threads[t], m);
    match s.threads[t]
    case Repush(v) => QueuePush(s.queue, Task(v), m);
    case Alarm(v, rest) => if rest > 0 { QueuePush(s.queue, Stop, m); }
    case Push(v, k, child) => QueuePush(s.queue, Task(child), m);
  }

  lemma PopMarkStep(children: seq<seq<nat>>, s: State, t: nat, m: Mark)
    requires Inv(children, s) && InRange(children, s, t) && s.threads[t].Pop?
    ensures Count(Next(children, s, t), m) == Expected(Next(children, s, t), m)
  {
    hide WorkedOk, OfferOk, Parents, ParentAt, Held, Queued, Below;
    var s' := Next(children, s, t);
    assert Count(s, m) == Expected(s, m);
    hide Inv;
    HeldUpdate(s.threads, t, s'.threads[t], m);
    if s.queue != [] { QueuePop(s.queue, m); }
  }

  lemma MarkStep(children: seq<seq<nat>>, s: State, t: nat, m: Mark)
    requires Inv(children, s) && InRange(children, s, t)
    ensures Count(Next(children, s, t), m) == Expected(Next(children, s, t), m)
  {
    hide Inv, Parents, ParentAt, Count, Expected;
    var pc := s.threads[t];
    if pc.Pop? { PopMarkStep(children, s, t, m); }
    else if pc.Repush? || pc.Alarm? || pc.Push? { PushMarkStep(children, s, t, m); }
    else if pc.Publish? { OfferMarkStep(children, s, t, m); }
    else if pc.Subtract? { SubtractMarkStep(children, s, t, m); }
    else if pc.Check? || pc.Start? || pc.Guard? || pc.Finish? { WorkMarkStep(children, s, t, m); }
    else { NothingNew(children, s, t, m); }
  }

  lemma CountedStep(children: seq<seq<nat>>, s: State, t: nat)
    requires Inv(children, s) && InRange(children, s, t)
    ensures CountedOk(Next(children, s, t))
  {
    hide WorkedOk, OfferOk, MarksOk, Parents, DoneOk;
    var s', pc := Next(children, s, t), s.threads[t];
    StatusHeld(children, s, t);
    assert s'.counted == if pc.Subtract? then s.counted + {pc.v} else s.counted;
    assert |s'.status| == |s.status|;
    assert s.left == |s.status| - |s.counted|;
    assert pc.Subtract? ==> |s.counted + {pc.v}| == |s.counted| + 1;
    assert s'.left == if pc.Subtract? then s.left - 1 else s.left;
    assert s'.left == |s'.status| - |s'.counted|;
    forall v | v in s.counted ensures Has(s', v, Done) { StatusStep(children, s, t, v); }
  }

  lemma DoneStep(children: seq<seq<nat>>, s: State, t: nat)
    requires Inv(children, s) && InRange(children, s, t)
    ensures DoneOk(Next(children, s, t))
  {
    hide WorkedOk, OfferOk, MarksOk, Parents, ParentAt, CountedOk;
    StatusHeld(children, s, t);
    assert ThreadOk(children, s, s.threads[t]);
  }

  lemma AllDoneStays(children: seq<seq<nat>>, s: State, t: nat, nodes: seq<nat>)
    requires Inv(children, s) && InRange(children, s, t) && AllDone(s, nodes)
    ensures AllDone(Next(children, s, t), nodes)
  {
    hide Inv, Next;
    forall p | p in nodes ensures Has(Next(children, s, t), p, Done) {
      assert Has(s, p, Done);
      StatusStep(children, s, t, p);
    }
  }

  lemma OthersOk(children: seq<seq<nat>>, s: State, t: nat, u: nat)
    requires Inv(children, s) && InRange(children, s, t) && u < |s.threads| && u != t
    ensures |Next(children, s, t).done| == |children| && ThreadOk(children, Next(children, s, t), s.threads[u])
  {
    hide Next, Arcs, Incoming, MarksOk, WorkedOk, OfferOk, AllDone;
    var pc := s.threads[u];
    StatusStep(children, s, t, 0);
    assert ThreadOk(children, s, pc);
    match pc
    case Check(v, k) => AllDoneStays(children, s, t, Parents(children, v)[..k]);
    case Start(v) =>
      AllDoneStays(children, s, t, Parents(children, v));
      StatusStep(children, s, t, v);
      HoldersDiffer(children, s, t, u, Running(v));
    case Guard(v, k) =>
      AllDoneStays(children, s, t, Parents(children, v));
      StatusStep(children, s, t, v);
      HoldersDiffer(children, s, t, u, Running(v));
    case Finish(v) => StatusStep(children, s, t, v);
    case _ =>
  }

  lemma CheckOk(children: seq<seq<nat>>, s: State, t: nat)
    requires Inv(children, s) && InRange(children, s, t) && s.threads[t].Check?
    ensures var s' := Next(children, s, t);
      t < |s'.threads| && |s'.done| == |children| && ThreadOk(children, s', s'.threads[t])
  {
    hide Arcs, Incoming, Parents, MarksOk, WorkedOk, OfferOk, AllDone, CountedOk;
    var s', v, k := Next(children, s, t), s.threads[t].v, s.threads[t].k;
    assert ThreadOk(children, s, s.threads[t]);
    StatusHeld(children, s, t);
    AllDoneStays(children, s, t, Parents(children, v)[..k]);
    if k < |Parents(children, v)| {
      if s.status[ParentAt(children, v, k)] == Done { OneMoreDone(children, s', v, k); }
    } else {
      assert Parents(children, v)[..k] == Parents(children, v);
    }
  }

  lemma WorkingOk(children: seq<seq<nat>>, s: State, t: nat)
    requires Inv(children, s) && InRange(children, s, t) && (s.threads[t].Start? || s.threads[t].Guard?)
    ensures var s' := Next(children, s, t);
      t < |s'.threads| && |s'.done| == |children| && ThreadOk(children, s', s'.threads[t])
  {
    hide Arcs, Incoming, Parents, MarksOk, WorkedOk, OfferOk, AllDone, CountedOk;
    assert ThreadOk(children, s, s.threads[t]);
    NoThrow(children, s, t);
    AllDoneStays(children, s, t, Parents(children, s.threads[t].v));
  }

  lemma OwnOk(children: seq<seq<nat>>, s: State, t: nat)
    requires Inv(children, s) && InRange(children, s, t)
    ensures var s' := Next(children, s, t);
      t < |s'.threads| && |s'.done| == |children| && ThreadOk(children, s', s'.threads[t])
  {
    hide Arcs, Incoming, Parents, MarksOk, WorkedOk, OfferOk, AllDone, CountedOk;
    var s', pc := Next(children, s, t), s.threads[t];
    if pc.Check? { CheckOk(children, s, t); }
    else if pc.Start? || pc.Guard? { WorkingOk(children, s, t); }
    else {
      assert ThreadOk(children, s, pc);
      StatusHeld(children, s, t);
      NoneChecked(s');
    }
  }

  lemma NoneChecked(s: State)
    ensures forall nodes: seq<nat> :: AllDone(s, nodes[..0])
  {}

  lemma OneMoreDone(children: seq<seq<nat>>, s: State, v: nat, k: nat)
    requires k < |Parents(children, v)| && AllDone(s, Parents(children, v)[..k])
    requires Has(s, ParentAt(children, v, k), Done)
    ensures AllDone(s, Parents(children, v)[..k + 1])
  {
    hide Arcs, Incoming;
    assert Parents(children, v)[..k + 1] == Parents(children, v)[..k] + [ParentAt(children, v, k)];
  }

  lemma ParentIsDone(children: seq<seq<nat>>, s: State, v: nat, k: nat)
    requires DoneOk(s) && |s.done| == |children| && AllDone(s, Parents(children, v)) && k < |Parents(children, v)|
    ensures s.done[ParentAt(children, v, k)]
  {
    hide Arcs, Incoming;
    assert Has(s, ParentAt(children, v, k), Done);
  }

  lemma WorkedStep(children: seq<seq<nat>>, s: State, t: nat)
    requires Inv(children, s) && InRange(children, s, t)
    ensures WorkedOk(children, Next(children, s, t))
  {
    hide Arcs, Incoming, MarksOk, OfferOk, CountedOk, Parents;
    var s', pc := Next(children, s, t), s.threads[t];
    assert ThreadOk(children, s, pc);
    if pc.Guard? && s'.worked != s.worked {
      forall p | p in Parents(children, pc.v) ensures p in s.worked { assert Has(s, p, Done); }
      WorkedMore(children, s.worked, pc.v);
    }
  }

  lemma WorkedMore(children: seq<seq<nat>>, worked: seq<nat>, v: nat)
    requires InOrder(children, worked) && v !in worked && forall p :: p in Parents(children, v) ==> p in worked
    ensures InOrder(children, worked + [v])
  {
    hide Parents;
    var more := worked + [v];
    forall i | 0 <= i < |more| ensures ParentsBefore(children, more, i) {
      assert more[..i] == worked[..i];
      if i < |worked| { assert ParentsBefore(children, worked, i); } else { assert worked[..i] == worked; }
    }
  }

  /** An offer is only withdrawn by taking the child up. */
  lemma OfferStays(children: seq<seq<nat>>, s: State, t: nat, p: nat, v: nat)
    requires Inv(children, s) && InRange(children, s, t) && p < |children| && Offers(children, s.threads[t], p, v)
    requires v in children[p] && Has(Next(children, s, t), v, Initial)
    ensures t < |Next(children, s, t).threads| && Offers(children, Next(children, s, t).threads[t], p, v)
  {
    hide Arcs, Incoming, MarksOk, OfferOk, WorkedOk, DoneOk, CountedOk;
    var pc, list := s.threads[t], children[p];
    if pc.Publish? { assert list[pc.k..] == [list[pc.k]] + list[pc.k + 1..]; }
    assert list[0..] == list;
  }

  lemma OfferStep(children: seq<seq<nat>>, s: State, t: nat, p: nat, v: nat)
    requires Inv(children, s) && InRange(children, s, t) && p < |children| && v in children[p]
    requires Has(Next(children, s, t), p, Done) && Has(Next(children, s, t), v, Initial)
    ensures Offered(children, Next(children, s, t), p, v)
  {
    hide Arcs, Incoming, MarksOk, WorkedOk, DoneOk, CountedOk, Offers;
    var s' := Next(children, s, t);
    StatusStep(children, s, t, p);
    StatusStep(children, s, t, v);
    if s.status[p] == Done {
      assert Offered(children, s, p, v);
      var u :| 0 <= u < |s.threads| && Offers(children, s.threads[u], p, v);
      if u == t { OfferStays(children, s, t, p, v); }
      assert Offers(children, s'.threads[u], p, v);
    } else {
      assert Offers(children, Subtract(p), p, v) by { NewOffer(children, p, v); }
      assert s'.threads[t] == Subtract(p);
    }
  }

  lemma NewOffer(children: seq<seq<nat>>, p: nat, v: nat)
    requires p < |children|
    ensures Offers(children, Subtract(p), p, v)
  {}

  lemma StepInv(children: seq<seq<nat>>, s: State, t: nat)
    requires Inv(children, s) && InRange(children, s, t)
    ensures Inv(children, Next(children, s, t))
  {
    var s' := Next(children, s, t);
    StatusStep(children, s, t, 0);
    hide Next, Count, Expected, DoneOk, CountedOk, WorkedOk, Offered, ThreadOk;
    CountedStep(children, s, t);
    DoneStep(children, s, t);
    WorkedStep(children, s, t);
    OwnOk(children, s, t);
    forall m ensures Count(s', m) == Expected(s', m) { MarkStep(children, s, t, m); }
    forall u | 0 <= u < |s'.threads| ensures ThreadOk(children, s', s'.threads[u]) {
      if u != t { OthersOk(children, s, t, u); }
    }
    forall p, v | 0 <= p < |children| && v in children[p] && Has(s', p, Done) && Has(s', v, Initial)
      ensures Offered(children, s', p, v)
    {
      OfferStep(children, s, t, p, v);
    }
  }

  lemma {:induction false} RunInv(children: seq<seq<nat>>, s: State, schedule: seq<nat>)
    requires Inv(children, s)
    ensures Inv(children, Run(children, s, schedule))
    ensures |Run(children, s, schedule).threads| == |s.threads|
  {
    hide Inv, Next;
    if schedule != [] {
      var last := |schedule| - 1;
      RunInv(children, s, schedule[..last]);
      var r := Run(children, s, schedule[..last]);
      if InRange(children, r, schedule[last]) {
        StepInv(children, r, schedule[last]);
        SameThreads(children, r, schedule[last]);
      }
    }
  }

  lemma SameThreads(children: seq<seq<nat>>, s: State, t: nat)
    requires InRange(children, s, t)
    ensures |Next(children, s, t).threads| == |s.threads|
  {}

  // ---------- Safety ----------

  /** Every schedule: each node is worked on at most once, after all its parents, and no guard in `work` ever fires. */
  lemma SafeInEveryRun(children: seq<seq<nat>>, numThreads: nat, schedule: seq<nat>)
    requires children != [] && Below(children, |children|)
    ensures var s := Run(children, Init(children, numThreads), schedule);
      && Distinct(s.worked)
      && (forall i, p :: 0 <= i < |s.worked| && 0 <= p < |children| && s.worked[i] in children[p] ==>
            p in s.worked[..i])
      && (forall t :: 0 <= t < |s.threads| ==> s.threads[t] != Failed)
  {
    hide Arcs, Incoming, Parents;
    InitInv(children, numThreads);
    RunInv(children, Init(children, numThreads), schedule);
    var s := Run(children, Init(children, numThreads), schedule);
    forall i, p | 0 <= i < |s.worked| && 0 <= p < |children| && s.worked[i] in children[p] ensures p in s.worked[..i] {
      ParentsAre(children, s.worked[i], p);
      assert ParentsBefore(children, s.worked, i);
    }
    forall t | 0 <= t < |s.threads| ensures s.threads[t] != Failed { assert ThreadOk(children, s, s.threads[t]); }
  }

  // ---------- Shutdown ----------

  lemma AllCounted(children: seq<seq<nat>>, s: State)
    requires Inv(children, s) && s.left <= 0
    ensures forall v :: 0 <= v < |children| ==> s.status[v] == Done && s.done[v] && v in s.counted
  {
    hide MarksOk, WorkedOk, OfferOk, ThreadOk;
    var n := |children|;
    SubsetSize(s.counted, Upto(n));
    forall v | 0 <= v < n ensures s.status[v] == Done && s.done[v] && v in s.counted {
      assert v in Upto(n);
      assert Has(s, v, Done);
    }
  }

  /** A stop item exists only when every node is done, and then there is exactly one for each thread. */
  lemma StopMeansDone(children: seq<seq<nat>>, s: State)
    requires Inv(children, s)
    ensures Count(s, Token(Stop)) == if s.left <= 0 then |s.threads| else 0
    ensures Count(s, Token(Stop)) > 0 ==> forall v :: 0 <= v < |children| ==> s.status[v] == Done && s.done[v]
  {
    hide WorkedOk, OfferOk;
    assert Count(s, Token(Stop)) == Expected(s, Token(Stop));
    if s.left <= 0 { AllCounted(children, s); }
  }

  predicate Finished(s: State) {
    s.threads != [] && forall t :: 0 <= t < |s.threads| ==> s.threads[t] == Exited
  }

  lemma AllExited(threads: seq<Pc>)
    requires forall t :: 0 <= t < |threads| ==> threads[t] == Exited
    ensures Held(threads, Token(Stop)) == |threads|
  {
    TotalAtMost(threads, Holds(Token(Stop)));
  }

  lemma NothingQueued(children: seq<seq<nat>>, s: State)
    requires Inv(children, s) && s.left <= 0 && Held(s.threads, Token(Stop)) == |s.threads|
    ensures s.queue == []
  {
    hide OfferOk, ThreadOk, Parents, WorkedOk, Total;
    AllCounted(children, s);
    forall item ensures multiset(s.queue)[item] == 0 {
      assert Count(s, Token(item)) == Expected(s, Token(item));
    }
    SomethingQueued(s.queue);
  }

  lemma SomethingQueued(queue: seq<Item>)
    ensures queue != [] ==> exists item :: multiset(queue)[item] > 0
  {
    if queue != [] { assert queue[0] in multiset(queue); }
  }

  /** When all threads have returned, every node was worked on exactly once and the queue is empty. */
  lemma CompleteAtTheEnd(children: seq<seq<nat>>, s: State)
    requires Inv(children, s) && Finished(s)
    ensures s.queue == [] && s.left == 0
    ensures forall v :: 0 <= v < |children| ==> multiset(s.worked)[v] == 1
  {
    hide OfferOk, ThreadOk, Parents;
    AllExited(s.threads);
    StopMeansDone(children, s);
    AllCounted(children, s);
    NothingQueued(children, s);
    SubsetSize(s.counted, Upto(|children|));
    forall v | 0 <= v < |children| ensures multiset(s.worked)[v] == 1 { DistinctOnce(s.worked, v); }
  }

  // ---------- Progress ----------

  ghost predicate Acyclic(children: seq<seq<nat>>) {
    exists order: seq<nat> :: Ordered(children, order)
  }

  predicate Ordered(children: seq<seq<nat>>, order: seq<nat>) {
    && |order| == |children| && Below(children, |children|)
    && forall p, j :: 0 <= p < |children| && 0 <= j < |children[p]| ==> order[p] < order[children[p][j]]
  }

  ghost predicate Solvable(children: seq<seq<nat>>) {
    children != [] && Acyclic(children) && forall v :: 0 <= v < |children| ==> Reachable(children, v)
  }

  predicate Undone(s: State, v: nat) { v < |s.status| && s.status[v] != Done }

  /** All parents of v are done and v itself is not. */
  predicate ReadyNode(children: seq<seq<nat>>, s: State, v: nat) {
    && Undone(s, v) && v < |children|
    && forall p :: 0 <= p < |children| && v in children[p] ==> Has(s, p, Done)
  }

  lemma {:induction false} LowestUndone(children: seq<seq<nat>>, s: State, order: seq<nat>, v: nat)
    requires Ordered(children, order) && |s.status| == |children| && Undone(s, v)
    ensures exists r :: 0 <= r < |children| && ReadyNode(children, s, r)
    decreases order[v]
  {
    if p :| 0 <= p < |children| && v in children[p] && !Has(s, p, Done) {
      LowestUndone(children, s, order, p);
    } else {
      assert ReadyNode(children, s, v);
    }
  }

  /** v has exactly one token in the queue or with a thread, or one worker, or a finished parent still offers it. */
  predicate Alive(children: seq<seq<nat>>, s: State, v: nat) {
    || Count(s, Token(Task(v))) == 1
    || Count(s, Running(v)) == 1
    || exists p :: 0 <= p < |children| && v in children[p] && Offered(children, s, p, v)
  }

  /** While some node is undone, some undone node whose parents are all done is being taken care of. */
  lemma SomeReadyNodeIsAlive(children: seq<seq<nat>>, s: State, v: nat)
    requires Inv(children, s) && Solvable(children) && Undone(s, v)
    ensures exists r :: 0 <= r < |children| && ReadyNode(children, s, r) && Alive(children, s, r)
  {
    hide WorkedOk, DoneOk, ThreadOk, Count, Offered;
    var order :| Ordered(children, order);
    LowestUndone(children, s, order, v);
    var r :| 0 <= r < |children| && ReadyNode(children, s, r);
    assert Count(s, Token(Task(r))) == Expected(s, Token(Task(r)));
    assert Count(s, Running(r)) == Expected(s, Running(r));
    if s.status[r] == Initial {
      HasParent(children, r);
      var p :| 0 <= p < |children| && r in children[p];
      assert Offered(children, s, p, r);
    }
    assert Alive(children, s, r);
  }

  predicate Blocked(s: State, t: nat)
    requires t < |s.threads|
  {
    s.threads[t] == Exited || s.threads[t] == Failed || (s.threads[t] == Pop && s.queue == [])
  }

  /** The workers are never all blocked before all have returned. */
  lemma NeverStuck(children: seq<seq<nat>>, s: State)
    requires Inv(children, s) && Solvable(children) && s.threads != [] && !Finished(s)
    ensures exists t :: 0 <= t < |s.threads| && !Blocked(s, t)
  {
    hide WorkedOk, DoneOk, OfferOk, MarksOk, ThreadOk, Solvable, Alive;
    if forall t :: 0 <= t < |s.threads| ==> Blocked(s, t) {
      var t :| 0 <= t < |s.threads| && s.threads[t] != Exited;
      NotFailed(children, s, t);
      assert Blocked(s, t);
      forall u | 0 <= u < |s.threads| ensures Holding(s.threads[u], Token(Stop)) <= 1 { assert Blocked(s, u); }
      StopMeansDone(children, s);
      if s.left <= 0 {
        FewerStops(s.threads, t);
      } else {
        SomeUndone(children, s);
        var v :| 0 <= v < |s.status| && Undone(s, v);
        SomeReadyNodeIsAlive(children, s, v);
        var r :| 0 <= r < |children| && ReadyNode(children, s, r) && Alive(children, s, r);
        BlockedIsDead(children, s, r);
      }
    }
  }

  lemma NotFailed(children: seq<seq<nat>>, s: State, t: nat)
    requires Inv(children, s) && t < |s.threads|
    ensures s.threads[t] != Failed
  {
    hide WorkedOk, OfferOk, MarksOk, Parents;
    assert ThreadOk(children, s, s.threads[t]);
  }

  lemma FewerStops(threads: seq<Pc>, t: nat)
    requires t < |threads| && threads[t] == Pop
    requires forall u :: 0 <= u < |threads| ==> Holding(threads[u], Token(Stop)) <= 1
    ensures Held(threads, Token(Stop)) < |threads|
  {
    TotalAtMost(threads, Holds(Token(Stop)));
    assert Holds(Token(Stop))(threads[t]) == 0;
  }

  lemma SomeUndone(children: seq<seq<nat>>, s: State)
    requires Inv(children, s) && s.left > 0
    requires forall t :: 0 <= t < |s.threads| ==> Blocked(s, t)
    ensures exists v :: 0 <= v < |s.status| && Undone(s, v)
  {
    hide WorkedOk, DoneOk, OfferOk, ThreadOk;
    if forall v :: 0 <= v < |s.status| ==> s.status[v] == Done {
      forall v | 0 <= v < |s.status| ensures v in s.counted {
        BlockedHolds(s, Finishing(v));
        assert Count(s, Finishing(v)) == Expected(s, Finishing(v));
      }
      SubsetSize(Upto(|s.status|), s.counted);
    }
    assert forall v :: 0 <= v < |s.status| ==> (Undone(s, v) <==> s.status[v] != Done);
  }

  lemma BlockedIsDead(children: seq<seq<nat>>, s: State, v: nat)
    requires forall t :: 0 <= t < |s.threads| ==> Blocked(s, t)
    requires s.queue == [] && v < |children|
    ensures !Alive(children, s, v)
  {
    BlockedHolds(s, Token(Task(v)));
    BlockedHolds(s, Running(v));
    forall p, t | 0 <= p < |children| && 0 <= t < |s.threads| ensures !Offers(children, s.threads[t], p, v) {
      assert Blocked(s, t);
    }
  }

  lemma BlockedHolds(s: State, m: Mark)
    requires m != Token(Stop) && forall t :: 0 <= t < |s.threads| ==> Blocked(s, t)
    ensures Held(s.threads, m) == 0
  {
    forall t | 0 <= t < |s.threads| ensures Holding(s.threads[t], m) == 0 { assert Blocked(s, t); }
    TotalZero(s.threads, Holds(m));
  }

  /** Every run on an acyclic graph reachable from node 0 either can go on or has shut down properly. */
  lemma EveryRun(children: seq<seq<nat>>, numThreads: nat, schedule: seq<nat>)
    requires Solvable(children) && numThreads > 0
    ensures var s := Run(children, Init(children, numThreads), schedule);
      if Finished(s) then s.queue == [] && forall v :: 0 <= v < |children| ==> multiset(s.worked)[v] == 1
      else exists t :: 0 <= t < |s.threads| && !Blocked(s, t)
  {
    hide Inv, Next, Run, Reachable, Blocked;
    assert Below(children, |children|) by { var order :| Ordered(children, order); }
    InitInv(children, numThreads);
    RunInv(children, Init(children, numThreads), schedule);
    var s := Run(children, Init(children, numThreads), schedule);
    if Finished(s) { CompleteAtTheEnd(children, s); } else { NeverStuck(children, s); }
  }
}
