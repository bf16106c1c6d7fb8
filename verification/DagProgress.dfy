/**
 The task-graph solver never runs into a trap: re-queueing may go on for as long as the schedule likes, but from every
 reachable state there is a way to finish.
 */
module DagProgress {
  import Sets
  import Counting
  import opened DagTask
  import opened DagScheduler
  import opened Fairness

  // ---------- Steps that count ----------

  function Rank(status: Status): nat {
    match status case Initial => 3 case InQueue => 2 case InProgress => 1 case Done => 0
  }

  /** What is left to do on the nodes. */
  function Remaining(s: State): nat { Counting.Total(s.status, Rank) }

  /** What a thread still has to do before it asks for the next item. */
  function Inner(children: seq<seq<nat>>, numThreads: nat, pc: Pc): nat {
    var e := 2 * |Arcs(children)|;
    match pc
    case Start(v) => 7 + e + numThreads + |Parents(children, v)|
    case Guard(v, k) => 6 + e + numThreads + Left(|Parents(children, v)|, k)
    case Finish(_) => 5 + e + numThreads
    case Subtract(_) => 4 + e + numThreads
    case Alarm(_, rest) => 3 + e + rest
    case Publish(v, k) => 2 + 2 * (if v < |children| then Left(|children[v]|, k) else 0)
    case Push(v, k, _) => 1 + 2 * (if v < |children| then Left(|children[v]|, k) else 0)
    case Exited => 0
    case Failed => 0
    case _ => 1
  }

  function Left(size: nat, k: nat): nat { if k <= size then size - k else 0 }

  function Effort(children: seq<seq<nat>>, s: State): nat {
    Counting.Total(s.threads, pc => Inner(children, |s.threads|, pc))
  }

  /** The thread's next step is more than taking, checking and re-queueing a node that is not ready. */
  predicate Productive(children: seq<seq<nat>>, s: State, t: nat)
    requires t < |s.threads|
  {
    match s.threads[t]
    case Pop => s.queue != [] && s.queue[0] == Stop
    case Check(v, k) => k >= |Parents(children, v)|
    case Repush(_) => false
    case Exited => false
    case Failed => false
    case _ => true
  }

  ghost predicate Less(children: seq<seq<nat>>, s': State, s: State) {
    Remaining(s') < Remaining(s) || (Remaining(s') == Remaining(s) && Effort(children, s') < Effort(children, s))
  }

  lemma EffortStep(children: seq<seq<nat>>, s: State, t: nat)
    requires InRange(children, s, t)
    ensures var s' := Next(children, s, t);
      |s'.threads| == |s.threads| && Effort(children, s') + Inner(children, |s.threads|, s.threads[t])
        == Effort(children, s) + Inner(children, |s.threads|, s'.threads[t])
  {
    hide Inner, Parents, ParentAt;
    var s', n := Next(children, s, t), |s.threads|;
    var f := pc => Inner(children, n, pc);
    Counting.TotalUpdate(s.threads, t, s'.threads[t], f);
    assert s'.threads == s.threads[t := s'.threads[t]];
  }

  lemma RemainingStep(children: seq<seq<nat>>, s: State, t: nat, v: nat, status: Status)
    requires InRange(children, s, t) && v < |s.status| && Next(children, s, t).status == s.status[v := status]
    ensures Remaining(Next(children, s, t)) + Rank(s.status[v]) == Remaining(s) + Rank(status)
  {
    Counting.TotalUpdate(s.status, v, status, Rank);
  }

  lemma FewerArcs(children: seq<seq<nat>>, v: nat)
    requires v < |children|
    ensures |children[v]| <= |Arcs(children)|
  {
    ArcsOfNode(children, v);
  }

  /** Steps that change a status. */
  lemma StatusProgress(children: seq<seq<nat>>, s: State, t: nat)
    requires Inv(children, s) && InRange(children, s, t)
    requires Next(children, s, t).status != s.status
    ensures Remaining(Next(children, s, t)) < Remaining(s)
  {
    hide WorkedOk, OfferOk, MarksOk, Parents, ParentAt, CountedOk, Remaining;
    StatusHeld(children, s, t);
    match s.threads[t]
    case Check(v, _) => RemainingStep(children, s, t, v, InProgress);
    case Finish(v) => RemainingStep(children, s, t, v, Done);
    case Publish(v, k) => RemainingStep(children, s, t, children[v][k], InQueue);
    case _ =>
  }

  lemma ThreadProgress(children: seq<seq<nat>>, s: State, t: nat)
    requires Inv(children, s) && InRange(children, s, t) && Productive(children, s, t)
    requires Next(children, s, t).status == s.status
    ensures t < |Next(children, s, t).threads|
    ensures Inner(children, |s.threads|, Next(children, s, t).threads[t]) < Inner(children, |s.threads|, s.threads[t])
  {
    hide WorkedOk, OfferOk, MarksOk, Arcs, Incoming, Parents, ParentAt, CountedOk;
    var pc := s.threads[t];
    assert ThreadOk(children, s, pc);
    StatusHeld(children, s, t);
    NoThrow(children, s, t);
    if pc.Alarm? || pc.Subtract? { FewerArcs(children, pc.v); }
  }

  /** A productive step gets closer to the end. */
  lemma ProductiveStep(children: seq<seq<nat>>, s: State, t: nat)
    requires Inv(children, s) && InRange(children, s, t) && Productive(children, s, t)
    ensures Less(children, Next(children, s, t), s)
  {
    hide Inv, Next, Inner, Productive, Effort;
    if Next(children, s, t).status != s.status {
      StatusProgress(children, s, t);
    } else {
      ThreadProgress(children, s, t);
      EffortStep(children, s, t);
    }
  }

  /** Any other step of a worker keeps the distance to the end. */
  lemma OtherStep(children: seq<seq<nat>>, s: State, t: nat)
    requires Inv(children, s) && InRange(children, s, t) && !Productive(children, s, t)
    ensures Remaining(Next(children, s, t)) == Remaining(s)
    ensures Effort(children, Next(children, s, t)) == Effort(children, s)
  {
    hide Inv, Effort, Parents, ParentAt;
    EffortStep(children, s, t);
  }

  // ---------- When no thread has a productive step ----------

  ghost predicate Quiet(children: seq<seq<nat>>, s: State) {
    forall t :: 0 <= t < |s.threads| ==> !Productive(children, s, t)
  }

  /** The node the others are waiting for: ready, and its one token is in the queue or being checked. */
  ghost predicate Awaited(children: seq<seq<nat>>, s: State, r: nat) {
    ReadyNode(children, s, r) && Count(s, Token(Task(r))) == 1
  }

  lemma QuietHolds(children: seq<seq<nat>>, s: State, r: nat)
    requires Quiet(children, s)
    ensures Held(s.threads, Running(r)) == 0
    ensures forall p :: 0 <= p < |children| ==> !Offered(children, s, p, r)
  {
    hide Parents;
    forall t | 0 <= t < |s.threads| ensures Holding(s.threads[t], Running(r)) == 0 {
      assert !Productive(children, s, t);
    }
    Counting.TotalZero(s.threads, Holds(Running(r)));
    forall p | 0 <= p < |children| ensures !Offered(children, s, p, r) {
      forall t | 0 <= t < |s.threads| ensures !Offers(children, s.threads[t], p, r) {
        assert !Productive(children, s, t);
      }
    }
  }

  lemma SomeNext(children: seq<seq<nat>>, s: State)
    requires Inv(children, s) && Solvable(children) && Quiet(children, s) && s.left > 0
    ensures exists r :: 0 <= r < |children| && Awaited(children, s, r)
  {
    hide WorkedOk, DoneOk, OfferOk, ThreadOk, Solvable, Offered, Quiet;
    QuietUndone(children, s);
    var v :| 0 <= v < |s.status| && Undone(s, v);
    SomeReadyNodeIsAlive(children, s, v);
    var r :| 0 <= r < |children| && ReadyNode(children, s, r) && Alive(children, s, r);
    QuietHolds(children, s, r);
    assert Awaited(children, s, r);
  }

  lemma QuietUndone(children: seq<seq<nat>>, s: State)
    requires Inv(children, s) && Quiet(children, s) && s.left > 0
    ensures exists v :: 0 <= v < |s.status| && Undone(s, v)
  {
    hide WorkedOk, DoneOk, OfferOk, ThreadOk, Parents;
    if forall v :: 0 <= v < |s.status| ==> s.status[v] == Done {
      forall v | 0 <= v < |s.status| ensures v in s.counted {
        forall t | 0 <= t < |s.threads| ensures Holding(s.threads[t], Finishing(v)) == 0 {
          assert !Productive(children, s, t);
        }
        Counting.TotalZero(s.threads, Holds(Finishing(v)));
        assert Count(s, Finishing(v)) == Expected(s, Finishing(v));
      }
      Sets.SubsetSize(Sets.Upto(|s.status|), s.counted);
    }
    assert forall v :: 0 <= v < |s.status| ==> (Undone(s, v) <==> s.status[v] != Done);
  }

  /** Once the counter has run out, somebody can take a stop item unless all have. */
  lemma QuietEnd(children: seq<seq<nat>>, s: State)
    requires Inv(children, s) && Quiet(children, s) && s.left <= 0 && s.threads != []
    ensures Finished(s)
  {
    hide WorkedOk, DoneOk, OfferOk, Parents, ThreadOk;
    AllCounted(children, s);
    StopMeansDone(children, s);
    forall t | 0 <= t < |s.threads| ensures s.threads[t] == Pop || s.threads[t] == Exited {
      assert !Productive(children, s, t);
      NotFailed(children, s, t);
      var pc := s.threads[t];
      HolderKnows(children, s, t, if pc.Check? || pc.Repush? then Token(Task(pc.v)) else Token(Stop));
    }
    forall t | 0 <= t < |s.threads| ensures s.threads[t] == Exited {
      if s.threads[t] == Pop { StopWaiting(children, s, t); }
    }
  }

  /** A waiting thread finds a stop item: the others have not taken all of them. */
  lemma StopWaiting(children: seq<seq<nat>>, s: State, t: nat)
    requires Inv(children, s) && s.left <= 0 && t < |s.threads| && s.threads[t] == Pop
    requires forall u :: 0 <= u < |s.threads| ==> s.threads[u] == Pop || s.threads[u] == Exited
    ensures Productive(children, s, t)
  {
    hide Inv;
    FewerStops(s.threads, t);
    OnlyStops(children, s);
  }

  lemma OnlyStops(children: seq<seq<nat>>, s: State)
    requires Inv(children, s) && s.left <= 0
    ensures s.queue != [] ==> s.queue[0] == Stop
    ensures s.queue == [] ==> Held(s.threads, Token(Stop)) == |s.threads|
  {
    hide WorkedOk, DoneOk, OfferOk, ThreadOk;
    AllCounted(children, s);
    StopMeansDone(children, s);
    if s.queue != [] {
      var m := Token(s.queue[0]);
      QueuePop(s.queue, m);
      assert Count(s, m) == Expected(s, m);
    }
  }

  // ---------- Bringing the awaited node to the front ----------

  predicate Checked(s: State, r: nat) {
    exists t :: 0 <= t < |s.threads| && s.threads[t].Check? && s.threads[t].v == r
  }

  /** 0: being checked; 1: in the queue; 2: about to go back there. */
  function Place(s: State, r: nat): nat {
    if Checked(s, r) then 0 else if Task(r) in s.queue then 1 else 2
  }

  function IndexOf(queue: seq<Item>, item: Item): nat {
    if queue == [] || queue[0] == item then 0 else 1 + IndexOf(queue[1..], item)
  }

  lemma {:induction false} IndexStays(queue: seq<Item>, item: Item, x: Item)
    requires item in queue
    ensures IndexOf(queue + [x], item) == IndexOf(queue, item)
  {
    if queue[0] != item {
      IndexStays(queue[1..], item, x);
      assert (queue + [x])[1..] == queue[1..] + [x];
    }
  }

  function Before(s: State, r: nat): nat { if Task(r) in s.queue then IndexOf(s.queue, Task(r)) else 0 }

  function ToCheck(children: seq<seq<nat>>, r: nat, pc: Pc): nat {
    if pc.Check? && pc.v == r then Left(|Parents(children, r)|, pc.k) else 0
  }

  /** How far a thread is from taking the next item. */
  function Busy(children: seq<seq<nat>>, pc: Pc): nat {
    match pc
    case Check(v, k) => 2 + Left(|Parents(children, v)|, k)
    case Repush(_) => 1
    case _ => 0
  }

  function Detail(children: seq<seq<nat>>, s: State, r: nat): nat {
    if Checked(s, r) then Counting.Total(s.threads, pc => ToCheck(children, r, pc))
    else if s.threads == [] || Task(r) !in s.queue then 0
    else Busy(children, s.threads[0])
  }

  /** The awaited node r is closer to its check in s' than in s. */
  predicate Closer(children: seq<seq<nat>>, s': State, s: State, r: nat) {
    || Place(s', r) < Place(s, r)
    || (Place(s', r) == Place(s, r) && Before(s', r) < Before(s, r))
    || (AsFar(s', s, r) && Detail(children, s', r) < Detail(children, s, r))
  }

  predicate AsFar(s': State, s: State, r: nat) {
    Place(s', r) == Place(s, r) && Before(s', r) == Before(s, r)
  }

  /** The thread whose turn brings r closer: the one that checks it, has to put it back, or else thread 0. */
  predicate Helps(s: State, r: nat, h: nat) {
    && h < |s.threads|
    && if Checked(s, r) then s.threads[h].Check? && s.threads[h].v == r
       else if Task(r) in s.queue then h == 0
       else s.threads[h] == Repush(r)
  }

  lemma SomeHelper(children: seq<seq<nat>>, s: State, r: nat)
    requires Inv(children, s) && Awaited(children, s, r) && Quiet(children, s) && s.threads != []
    ensures exists h: nat :: Helps(s, r, h)
  {
    hide Inv, Parents, Expected, ReadyNode;
    if Checked(s, r) {
      var t: nat :| t < |s.threads| && s.threads[t].Check? && s.threads[t].v == r;
      assert Helps(s, r, t);
    } else if Task(r) in s.queue {
      assert Helps(s, r, 0);
    } else {
      SomeHolder(s.threads, Token(Task(r)));
      var t: nat :| t < |s.threads| && Holding(s.threads[t], Token(Task(r))) > 0;
      assert !Productive(children, s, t);
      assert Helps(s, r, t);
    }
  }

  /** While a node is undone no thread has returned. */
  lemma QuietThread(children: seq<seq<nat>>, s: State, t: nat, r: nat)
    requires Inv(children, s) && ReadyNode(children, s, r) && t < |s.threads| && !Productive(children, s, t)
    ensures s.threads[t].Pop? || s.threads[t].Check? || s.threads[t].Repush?
  {
    hide WorkedOk, DoneOk, OfferOk, ThreadOk, Parents;
    NotFailed(children, s, t);
    StopMeansDone(children, s);
    HolderKnows(children, s, t, Token(Stop));
  }

  /** Where r's one token is, it is nowhere else. */
  lemma OneToken(children: seq<seq<nat>>, s: State, r: nat, h: nat, u: nat)
    requires Inv(children, s) && Awaited(children, s, r) && h < |s.threads| && u < |s.threads| && u != h
    requires Holding(s.threads[h], Token(Task(r))) == 1
    ensures Task(r) !in s.queue && Holding(s.threads[u], Token(Task(r))) == 0
  {
    hide WorkedOk, DoneOk, OfferOk, ThreadOk, Parents, ReadyNode, Holding, Held;
    HoldersDiffer(children, s, h, u, Token(Task(r)));
    HolderKnows(children, s, h, Token(Task(r)));
    assert Task(r) in s.queue <==> multiset(s.queue)[Task(r)] > 0;
  }

  lemma NotChecked(s: State, s': State, t: nat, r: nat)
    requires t < |s.threads| == |s'.threads| && !Checked(s, r) && s'.threads == s.threads[t := s'.threads[t]]
    requires !(s'.threads[t].Check? && s'.threads[t].v == r)
    ensures !Checked(s', r)
  {}

  // ---------- The helper's turn ----------

  /** A check of the awaited node goes on: all its parents are done. */
  lemma CheckGoesOn(children: seq<seq<nat>>, s: State, t: nat, r: nat)
    requires Inv(children, s) && ReadyNode(children, s, r) && InRange(children, s, t) && !Productive(children, s, t)
    requires s.threads[t].Check? && s.threads[t].v == r
    ensures Closer(children, Next(children, s, t), s, r)
  {
    hide Inv, Parents, Expected;
    var k := s.threads[t].k;
    var p := ParentAt(children, r, k);
    ParentsAre(children, r, p);
    var s' := Next(children, s, t);
    assert s'.threads == s.threads[t := Check(r, k + 1)];
    Counting.TotalUpdate(s.threads, t, Check(r, k + 1), pc => ToCheck(children, r, pc));
    assert s.threads[t].v == r && s'.threads[t].v == r;
  }

  /** Taking an item from the queue brings the token of r forward, or takes it. */
  lemma PopsItem(children: seq<seq<nat>>, s: State, t: nat, r: nat)
    requires InRange(children, s, t) && s.threads[t].Pop? && !Productive(children, s, t)
    requires !Checked(s, r) && Task(r) in s.queue
    ensures Closer(children, Next(children, s, t), s, r)
  {
    hide Parents;
    var s' := Next(children, s, t);
    if s.queue[0] == Task(r) {
      assert s'.threads[t] == Check(r, 0);
      assert Checked(s', r);
    } else {
      NotChecked(s, s', t, r);
      assert s.queue == [s.queue[0]] + s'.queue;
      assert Task(r) in s'.queue;
    }
  }

  /** A worker that checks and re-queues other nodes comes nearer to taking the next item. */
  lemma TakesItems(children: seq<seq<nat>>, s: State, r: nat)
    requires InRange(children, s, 0) && !Productive(children, s, 0)
    requires !Checked(s, r) && Task(r) in s.queue
    requires s.threads[0].Pop? || s.threads[0].Check? || s.threads[0].Repush?
    ensures Closer(children, Next(children, s, 0), s, r)
  {
    hide Parents;
    var s' := Next(children, s, 0);
    match s.threads[0]
    case Pop => PopsItem(children, s, 0, r);
    case Repush(w) =>
      IndexStays(s.queue, Task(r), Task(w));
      NotChecked(s, s', 0, r);
    case Check(w, k) => NotChecked(s, s', 0, r);
  }

  lemma GoesBack(children: seq<seq<nat>>, s: State, t: nat, r: nat)
    requires InRange(children, s, t) && s.threads[t] == Repush(r) && !Checked(s, r) && Task(r) !in s.queue
    ensures Closer(children, Next(children, s, t), s, r)
  {
    hide Parents;
    assert Task(r) in Next(children, s, t).queue;
  }

  lemma HelperStep(children: seq<seq<nat>>, s: State, h: nat, r: nat)
    requires Inv(children, s) && Awaited(children, s, r) && Helps(s, r, h) && !Productive(children, s, h)
    ensures InRange(children, s, h) && Closer(children, Next(children, s, h), s, r)
  {
    InvInRange(children, s, h);
    QuietThread(children, s, h, r);
    hide Inv, Next, Parents, Closer, Expected, Place, ReadyNode, Productive, InRange;
    if Checked(s, r) { CheckGoesOn(children, s, h, r); }
    else if Task(r) in s.queue { TakesItems(children, s, r); }
    else { GoesBack(children, s, h, r); }
  }

  // ---------- The others' turns ----------

  /** What another thread's unproductive step does to the place of r: nothing, or it brings r closer. */
  ghost predicate Harmless(children: seq<seq<nat>>, s': State, s: State, r: nat, h: nat) {
    || Closer(children, s', s, r)
    || (AsFar(s', s, r) && Detail(children, s', r) == Detail(children, s, r) && Helps(s', r, h))
  }

  lemma OthersWhileChecked(children: seq<seq<nat>>, s: State, u: nat, r: nat, h: nat)
    requires InRange(children, s, u) && !Productive(children, s, u) && u != h && Checked(s, r) && Helps(s, r, h)
    requires s.threads[u].Pop? || s.threads[u].Check? || s.threads[u].Repush?
    requires Task(r) !in s.queue && Holding(s.threads[u], Token(Task(r))) == 0
    ensures Harmless(children, Next(children, s, u), s, r, h)
  {
    hide Parents, ParentAt;
    var s' := Next(children, s, u);
    assert s'.threads == s.threads[u := s'.threads[u]] && s'.threads[h] == s.threads[h];
    Counting.TotalUpdate(s.threads, u, s'.threads[u], pc => ToCheck(children, r, pc));
    assert s.threads[u].Pop? && s.queue != [] ==> s.queue[0] in s.queue;
    assert Checked(s', r);
  }

  lemma OthersWhileQueued(children: seq<seq<nat>>, s: State, u: nat, r: nat)
    requires InRange(children, s, u) && !Productive(children, s, u) && u != 0 && !Checked(s, r) && Task(r) in s.queue
    requires s.threads[u].Pop? || s.threads[u].Check? || s.threads[u].Repush?
    ensures Harmless(children, Next(children, s, u), s, r, 0)
  {
    hide Parents;
    var s' := Next(children, s, u);
    match s.threads[u]
    case Pop => PopsItem(children, s, u, r);
    case Repush(w) =>
      IndexStays(s.queue, Task(r), Task(w));
      NotChecked(s, s', u, r);
    case Check(w, k) => NotChecked(s, s', u, r);
  }

  lemma OthersWhileBack(children: seq<seq<nat>>, s: State, u: nat, r: nat, h: nat)
    requires InRange(children, s, u) && !Productive(children, s, u) && u != h && h < |s.threads|
    requires !Checked(s, r) && Task(r) !in s.queue && s.threads[h] == Repush(r)
    requires s.threads[u].Pop? || s.threads[u].Check? || s.threads[u].Repush?
    requires Holding(s.threads[u], Token(Task(r))) == 0
    ensures Harmless(children, Next(children, s, u), s, r, h)
  {
    hide Parents;
    var s' := Next(children, s, u);
    assert s.threads[u].Pop? && s.queue != [] ==> s.queue[0] in s.queue;
    NotChecked(s, s', u, r);
  }

  lemma OthersStep(children: seq<seq<nat>>, s: State, u: nat, r: nat, h: nat)
    requires Inv(children, s) && Awaited(children, s, r) && Helps(s, r, h)
    requires u < |s.threads| && u != h && !Productive(children, s, u)
    ensures InRange(children, s, u) && Harmless(children, Next(children, s, u), s, r, h)
  {
    InvInRange(children, s, u);
    QuietThread(children, s, u, r);
    hide Inv, Next, Parents, Expected, ReadyNode, Productive, InRange, Harmless;
    if Checked(s, r) {
      OneToken(children, s, r, h, u);
      OthersWhileChecked(children, s, u, r, h);
    } else if Task(r) in s.queue {
      OthersWhileQueued(children, s, u, r);
    } else {
      OneToken(children, s, r, h, u);
      OthersWhileBack(children, s, u, r, h);
    }
  }

  /** The awaited node stays awaited. */
  lemma StillAwaited(children: seq<seq<nat>>, s: State, t: nat, r: nat)
    requires Inv(children, s) && InRange(children, s, t) && Awaited(children, s, r) && !Productive(children, s, t)
    ensures Awaited(children, Next(children, s, t), r)
  {
    StepInv(children, s, t);
    hide WorkedOk, DoneOk, OfferOk, ThreadOk, Parents, ParentAt, Count;
    var s', m := Next(children, s, t), Token(Task(r));
    assert s'.status == s.status;
    assert Count(s, m) == Expected(s, m) && Count(s', m) == Expected(s', m);
    assert Expected(s', m) == Expected(s, m);
  }

  /** A productive thread stays so while others take, check and re-queue nodes. */
  lemma StaysProductive(children: seq<seq<nat>>, s: State, u: nat, t: nat)
    requires InRange(children, s, u) && t < |s.threads| && Productive(children, s, t) && !Productive(children, s, u)
    ensures t < |Next(children, s, u).threads| && Productive(children, Next(children, s, u), t)
  {
    hide Parents, ParentAt;
  }

  // ---------- Every fair schedule ends ----------

  /** The state after k steps of an infinite schedule. */
  function At(children: seq<seq<nat>>, s: State, sched: nat -> nat, k: nat): State {
    if k == 0 then s
    else
      var r := At(children, s, sched, k - 1);
      if InRange(children, r, sched(k - 1)) then Next(children, r, sched(k - 1)) else r
  }

  ghost predicate Setting(children: seq<seq<nat>>, s: State, sched: nat -> nat) {
    Inv(children, s) && Solvable(children) && s.threads != [] && Fair(sched, |s.threads|)
  }

  ghost predicate Ends(children: seq<seq<nat>>, s: State, sched: nat -> nat) {
    exists k :: Finished(At(children, s, sched, k))
  }

  lemma {:induction false} AtInv(children: seq<seq<nat>>, s: State, sched: nat -> nat, k: nat)
    requires Setting(children, s, sched)
    ensures Inv(children, At(children, s, sched, k)) && |At(children, s, sched, k).threads| == |s.threads|
  {
    hide Inv, Solvable, Next;
    if k > 0 {
      AtInv(children, s, sched, k - 1);
      var r := At(children, s, sched, k - 1);
      InvInRange(children, r, sched(k - 1));
      StepInv(children, r, sched(k - 1));
      SameThreads(children, r, sched(k - 1));
    }
  }

  /** What the next step of the schedule is. */
  lemma AtNext(children: seq<seq<nat>>, s: State, sched: nat -> nat, k: nat)
    requires Setting(children, s, sched)
    ensures var now, u := At(children, s, sched, k), sched(k);
      && Inv(children, now) && |now.threads| == |s.threads| && u < |s.threads| && InRange(children, now, u)
      && At(children, s, sched, k + 1) == Next(children, now, u)
  {
    hide Inv, Solvable, Next;
    AtInv(children, s, sched, k);
    InvInRange(children, At(children, s, sched, k), sched(k));
  }

  lemma {:induction false} EndsFrom(children: seq<seq<nat>>, s: State, sched: nat -> nat, k: nat)
    requires Setting(children, s, sched)
    ensures Ends(children, s, sched)
    decreases Remaining(At(children, s, sched, k)), Effort(children, At(children, s, sched, k)), 2, 0, 0, 0, 0, 0
  {
    hide Inv, Solvable, Next, Remaining, Effort, Productive, At, Fair;
    AtNext(children, s, sched, k);
    var now := At(children, s, sched, k);
    if Finished(now) {
    } else if t :| 0 <= t < |now.threads| && Productive(children, now, t) {
      WaitFor(children, s, sched, k, t, NextTurn(sched, |s.threads|, k, t));
    } else {
      if now.left <= 0 { QuietEnd(children, now); }
      SomeNext(children, now);
      var r :| 0 <= r < |children| && Awaited(children, now, r);
      Attend(children, s, sched, k, r);
    }
  }

  /** Thread t, whose next turn is at step j, has something productive to do. */
  lemma {:induction false} WaitFor(children: seq<seq<nat>>, s: State, sched: nat -> nat, k: nat, t: nat, j: nat)
    requires Setting(children, s, sched) && t < |At(children, s, sched, k).threads| && k <= j && sched(j) == t
    requires Productive(children, At(children, s, sched, k), t)
    ensures Ends(children, s, sched)
    decreases Remaining(At(children, s, sched, k)), Effort(children, At(children, s, sched, k)), 0, 0, 0, 0, 0, j - k
  {
    hide Inv, Solvable, Next, Remaining, Effort, Productive, At, Fair, Ends;
    AtNext(children, s, sched, k);
    var now, u := At(children, s, sched, k), sched(k);
    if Productive(children, now, u) {
      ProductiveStep(children, now, u);
      EndsFrom(children, s, sched, k + 1);
    } else {
      OtherStep(children, now, u);
      StaysProductive(children, now, u, t);
      WaitFor(children, s, sched, k + 1, t, j);
    }
  }

  /** Node r is ready and has its token. */
  lemma {:induction false} Attend(children: seq<seq<nat>>, s: State, sched: nat -> nat, k: nat, r: nat)
    requires Setting(children, s, sched) && Awaited(children, At(children, s, sched, k), r)
    ensures Ends(children, s, sched)
    decreases Remaining(At(children, s, sched, k)), Effort(children, At(children, s, sched, k)), 1,
      Place(At(children, s, sched, k), r), Before(At(children, s, sched, k), r),
      Detail(children, At(children, s, sched, k), r), 1, 0
  {
    hide Inv, Solvable, Next, Remaining, Effort, Productive, At, Fair, Ends, Awaited, Place, Before, Detail, Helps;
    AtNext(children, s, sched, k);
    var now := At(children, s, sched, k);
    if t :| 0 <= t < |now.threads| && Productive(children, now, t) {
      WaitFor(children, s, sched, k, t, NextTurn(sched, |s.threads|, k, t));
    } else {
      SomeHelper(children, now, r);
      var h: nat :| Helps(now, r, h);
      IsThread(now, r, h);
      Serve(children, s, sched, k, r, h, NextTurn(sched, |s.threads|, k, h));
    }
  }

  lemma IsThread(s: State, r: nat, h: nat)
    requires Helps(s, r, h)
    ensures h < |s.threads|
  {}

  /** Thread h, whose next turn is at step j, can bring r closer. */
  lemma {:induction false} Serve(children: seq<seq<nat>>, s: State, sched: nat -> nat, k: nat, r: nat, h: nat, j: nat)
    requires Setting(children, s, sched) && Awaited(children, At(children, s, sched, k), r)
    requires Helps(At(children, s, sched, k), r, h) && k <= j && sched(j) == h
    ensures Ends(children, s, sched)
    decreases Remaining(At(children, s, sched, k)), Effort(children, At(children, s, sched, k)), 1,
      Place(At(children, s, sched, k), r), Before(At(children, s, sched, k), r),
      Detail(children, At(children, s, sched, k), r), 0, j - k
  {
    hide Inv, Solvable, Next, Remaining, Effort, Productive, At, Fair, Ends, Awaited, Place, Before, Detail, Helps;
    AtNext(children, s, sched, k);
    var now, u := At(children, s, sched, k), sched(k);
    var after := At(children, s, sched, k + 1);
    if Productive(children, now, u) {
      ProductiveStep(children, now, u);
      EndsFrom(children, s, sched, k + 1);
    } else {
      OtherStep(children, now, u);
      StillAwaited(children, now, u, r);
      if u == h { HelperStep(children, now, h, r); } else { OthersStep(children, now, u, r, h); }
      if Closer(children, after, now, r) { Attend(children, s, sched, k + 1, r); }
      else { Serve(children, s, sched, k + 1, r, h, j); }
    }
  }

  /**
   Under every fair schedule all workers return. (Then, by CompleteAtTheEnd, every node has been worked on exactly once
   and the queue is empty.)
   */
  lemma FairRunsEnd(children: seq<seq<nat>>, numThreads: nat, sched: nat -> nat)
    requires Solvable(children) && numThreads > 0 && Fair(sched, numThreads)
    ensures Ends(children, Init(children, numThreads), sched)
  {
    hide Inv, Reachable, Fair, Ends;
    assert Below(children, |children|) by { var order :| Ordered(children, order); }
    InitInv(children, numThreads);
    EndsFrom(children, Init(children, numThreads), sched, 0);
  }

  /** No schedule leads into a trap: whatever has happened so far, the solver can still finish all nodes and return. */
  lemma NoTrap(children: seq<seq<nat>>, numThreads: nat, schedule: seq<nat>)
    requires Solvable(children) && numThreads > 0
    ensures exists more :: Finished(Run(children, Run(children, Init(children, numThreads), schedule), more))
  {
    hide Inv, Next, Reachable, Fair, At, Run, Finished;
    assert Below(children, |children|) by { var order :| Ordered(children, order); }
    InitInv(children, numThreads);
    RunInv(children, Init(children, numThreads), schedule);
    var s, sched := Run(children, Init(children, numThreads), schedule), RoundRobin(numThreads);
    RoundRobinIsFair(numThreads);
    EndsFrom(children, s, sched, 0);
    var k :| Finished(At(children, s, sched, k));
    AtIsRun(children, s, sched, k);
  }

  function Prefix(sched: nat -> nat, k: nat): seq<nat> { seq(k, j requires 0 <= j < k => sched(j)) }

  lemma {:induction false} AtIsRun(children: seq<seq<nat>>, s: State, sched: nat -> nat, k: nat)
    ensures Run(children, s, Prefix(sched, k)) == At(children, s, sched, k)
  {
    hide Next, InRange;
    if k > 0 {
      AtIsRun(children, s, sched, k - 1);
      assert Prefix(sched, k)[..k - 1] == Prefix(sched, k - 1);
    }
  }
}
