/** Finitely many calls on the hand-over-hand list all return under every fair schedule. */
module LockedListFairness {
  import opened Sets
  import opened Counting
  import opened ListSpec
  import opened LockedList
  import opened Fairness

  /** The list together with the calls every thread still has to make. */
  datatype Clients = Clients(s: State, calls: seq<seq<Op>>)

  predicate Fits(c: Clients, t: nat) { InRange(c.s, t) && t < |c.calls| }

  /** Thread t runs: it starts its next call if it is idle and has one, and otherwise goes on with its call. */
  function Step(c: Clients, t: nat): Clients {
    if !Fits(c, t) then c
    else if !c.s.threads[t].Idle? then c.(s := Next(c.s, Choice(t, c.s.threads[t].op)))
    else if c.calls[t] == [] then c
    else Clients(Next(c.s, Choice(t, c.calls[t][0])), c.calls[t := c.calls[t][1..]])
  }

  function At(c: Clients, sched: nat -> nat, k: nat): Clients {
    if k == 0 then c else Step(At(c, sched, k - 1), sched(k - 1))
  }

  predicate AllReturned(c: Clients) {
    && (forall t :: 0 <= t < |c.s.threads| ==> c.s.threads[t].Idle?)
    && (forall t :: 0 <= t < |c.calls| ==> c.calls[t] == [])
  }

  ghost predicate ClientsOk(c: Clients) {
    Inv(c.s) && |c.calls| == |c.s.threads|
  }

  // ---------- What is left to do ----------

  function Unsettled(pc: Pc): nat { if Pending(pc) then 1 else 0 }

  function Twice(calls: seq<Op>): nat { 2 * |calls| }

  /** Calls that have not yet taken effect; one not yet started counts twice. */
  function Main(c: Clients): nat { Total(c.calls, Twice) + Total(c.s.threads, Unsettled) }

  function IndexOf(chain: seq<nat>, x: nat): nat {
    if chain == [] || chain[0] == x then 0 else 1 + IndexOf(chain[1..], x)
  }

  lemma {:induction false} IndexAt(chain: seq<nat>, i: nat)
    requires i < |chain| && Distinct(chain)
    ensures IndexOf(chain, chain[i]) == i
  {
    if i > 0 {
      assert Distinct(chain[1..]);
      IndexAt(chain[1..], i - 1);
    }
  }

  function Ahead(chain: seq<nat>, x: nat): nat {
    var i := IndexOf(chain, x);
    if i < |chain| then 3 * (|chain| - i) else 0
  }

  /** How many steps a call can make before it takes effect or returns, as long as the chain stays. */
  function Distance(chain: seq<nat>, pc: Pc): nat {
    match pc
    case Idle => 0
    case Enter(_) => 3 * |chain| + 3
    case At(_, prev) => Ahead(chain, prev) + 2
    case Lock(_, prev, _) => Ahead(chain, prev) + 1
    case Hand(_, prev, _) => Ahead(chain, prev)
    case Seize(_, prev, _) => Ahead(chain, prev) + 1
    case Unlink(_, prev, _) => Ahead(chain, prev)
    case Drop(_, _, _) => 2
    case Release(_, _, _) => 1
  }

  function Distances(chain: seq<nat>): Pc -> nat { pc => Distance(chain, pc) }

  function Rest(c: Clients): nat { Total(c.s.threads, Distances(c.s.chain)) }

  ghost predicate Lower(c': Clients, c: Clients) {
    Main(c') < Main(c) || (Main(c') == Main(c) && Rest(c') < Rest(c))
  }

  /** The thread waits for a lock that is taken. */
  predicate Blocked(s: State, t: nat)
    requires t < |s.threads|
  {
    match s.threads[t]
    case Enter(op) => !Free(s, t, op, 0)
    case Lock(op, _, node) => !Free(s, t, op, node)
    case Seize(op, _, node) => !Free(s, t, op, node)
    case _ => false
  }

  predicate Moves(c: Clients, t: nat) {
    && t < |c.s.threads| && t < |c.calls|
    && if c.s.threads[t].Idle? then c.calls[t] != [] else !Blocked(c.s, t)
  }

  /** A step of a call that does not take effect leaves the chain and shortens the way. */
  lemma GoesOn(s: State, t: nat, op: Op)
    requires Inv(s) && InRange(s, t) && !s.threads[t].Idle? && !Blocked(s, t)
    requires var pc' := Next(s, Choice(t, op)).threads[t]; Pending(s.threads[t]) ==> Pending(pc')
    ensures var s' := Next(s, Choice(t, op));
      && s'.chain == s.chain && Distance(s.chain, s'.threads[t]) < Distance(s.chain, s.threads[t])
      && Unsettled(s'.threads[t]) == Unsettled(s.threads[t])
  {
    hide Legal, Replay, Passed, LocksOk, Free, Contents, IndexOf;
    var pc := s.threads[t];
    assert ThreadOk(s, pc);
    match pc
    case Enter(_) => IndexAt(s.chain, 0);
    case Hand(o, prev, node) => NextIndex(s, prev, o.value);
    case Release(_, _, result) => assert Settled(pc, result);
    case Drop(_, _, _) => assert Settled(pc, true);
    case _ =>
  }

  /** The node after prev on the chain is one closer to the end. */
  lemma NextIndex(s: State, prev: nat, v: int)
    requires ChainOk(s) && Passed(s, prev, v) && s.next[prev] != 0
    ensures Ahead(s.chain, s.next[prev]) + 3 == Ahead(s.chain, prev)
  {
    var i := Position(s, prev, v);
    assert Distinct(s.chain);
    IndexAt(s.chain, i);
    IndexAt(s.chain, i + 1);
  }

  lemma Threads(s: State, t: nat, op: Op, f: Pc -> nat)
    requires InRange(s, t)
    ensures var s' := Next(s, Choice(t, op));
      && |s'.threads| == |s.threads|
      && Total(s'.threads, f) + f(s.threads[t]) == Total(s.threads, f) + f(s'.threads[t])
  {
    SameOthers(s, Choice(t, op));
    var s' := Next(s, Choice(t, op));
    assert s'.threads == s.threads[t := s'.threads[t]];
    hide Next;
    TotalUpdate(s.threads, t, s'.threads[t], f);
  }

  /** A call under way that is not waiting for a lock. */
  lemma CallLowers(c: Clients, t: nat)
    requires ClientsOk(c) && Fits(c, t) && !c.s.threads[t].Idle? && !Blocked(c.s, t)
    ensures Lower(Step(c, t), c)
  {
    hide Inv, Next, InRange, Distance, Pending, Blocked;
    var op := c.s.threads[t].op;
    var s, s' := c.s, Next(c.s, Choice(t, op));
    Threads(s, t, op, Unsettled);
    Threads(s, t, op, Distances(s.chain));
    StaysSettled(s, t, op);
    if !Pending(s.threads[t]) || Pending(s'.threads[t]) { GoesOn(s, t, op); }
  }

  lemma StaysSettled(s: State, t: nat, op: Op)
    requires InRange(s, t) && !s.threads[t].Idle?
    ensures !Pending(s.threads[t]) ==> !Pending(Next(s, Choice(t, op)).threads[t])
  {}

  /** A new call. */
  lemma CallStarts(c: Clients, t: nat)
    requires ClientsOk(c) && Fits(c, t) && c.s.threads[t].Idle? && c.calls[t] != []
    ensures Lower(Step(c, t), c)
  {
    hide Inv;
    var op := c.calls[t][0];
    Threads(c.s, t, op, Unsettled);
    TotalUpdate(c.calls, t, c.calls[t][1..], Twice);
  }

  lemma MoverLowers(c: Clients, t: nat)
    requires ClientsOk(c) && Moves(c, t)
    ensures Lower(Step(c, t), c)
  {
    hide Inv, Next, Step, Lower, Blocked, InRange;
    assert InRange(c.s, t) by { InvInRange(c.s, t); }
    if c.s.threads[t].Idle? { CallStarts(c, t); } else { CallLowers(c, t); }
  }

  /** Idle threads without calls and threads that wait change nothing. */
  lemma OthersStay(c: Clients, t: nat)
    requires !Moves(c, t)
    ensures Step(c, t) == c
  {
    hide Free;
  }

  lemma SomebodyMovesOn(c: Clients)
    requires ClientsOk(c) && !AllReturned(c)
    ensures exists t: nat :: Moves(c, t)
  {
    hide Inv, Free;
    if t :| 0 <= t < |c.s.threads| && !c.s.threads[t].Idle? {
      SomebodyMoves(c.s, t);
      var u: nat :| u < |c.s.threads| && CanMove(c.s, u);
      NotBlocked(c.s, u);
      assert Moves(c, u);
    } else {
      var t: nat :| t < |c.calls| && c.calls[t] != [];
      assert Moves(c, t);
    }
  }

  lemma NotBlocked(s: State, t: nat)
    requires Inv(s) && t < |s.threads| && CanMove(s, t)
    ensures !Blocked(s, t) && !s.threads[t].Idle?
  {
    hide Legal, Replay, Passed, LocksOk, Free, Contents;
    assert ThreadOk(s, s.threads[t]);
    match s.threads[t]
    case Enter(op) => assert !Waits(s, t, 0);
    case Lock(op, _, node) => assert !Waits(s, t, node);
    case Seize(op, _, node) => assert !Waits(s, t, node);
    case _ =>
  }

  // ---------- Fair schedules ----------

  lemma StepOk(c: Clients, t: nat)
    requires ClientsOk(c)
    ensures ClientsOk(Step(c, t)) && |Step(c, t).calls| == |c.calls|
  {
    hide Inv, Next;
    if Fits(c, t) {
      var op := if !c.s.threads[t].Idle? then c.s.threads[t].op
                else if c.calls[t] == [] then Find(0)
                else c.calls[t][0];
      StepInv(c.s, Choice(t, op));
      Threads(c.s, t, op, Unsettled);
    }
  }

  lemma {:induction false} AtOk(c: Clients, sched: nat -> nat, k: nat)
    requires ClientsOk(c)
    ensures ClientsOk(At(c, sched, k)) && |At(c, sched, k).calls| == |c.calls|
  {
    hide ClientsOk, Step;
    if k > 0 {
      AtOk(c, sched, k - 1);
      StepOk(At(c, sched, k - 1), sched(k - 1));
    }
  }

  ghost function Helper(c: Clients): nat {
    if exists t: nat :: Moves(c, t) then
      var t: nat :| Moves(c, t);
      t
    else 0
  }

  lemma HelperMoves(c: Clients)
    requires ClientsOk(c) && !AllReturned(c)
    ensures Moves(c, Helper(c)) && Helper(c) < |c.calls|
  {
    hide Inv;
    SomebodyMovesOn(c);
  }

  lemma StepAdvances(c: Clients, sched: nat -> nat, k: nat)
    requires ClientsOk(c) && !AllReturned(At(c, sched, k))
    ensures var now, after := At(c, sched, k), At(c, sched, k + 1);
      && Helper(now) < |c.calls|
      && (Lower(after, now) || (after == now && sched(k) != Helper(now)))
  {
    hide ClientsOk, Step, Moves, Lower, Helper;
    var now := At(c, sched, k);
    AtOk(c, sched, k);
    HelperMoves(now);
    if Moves(now, sched(k)) { MoverLowers(now, sched(k)); } else { OthersStay(now, sched(k)); }
  }

  /** Every thread's list of calls is worked off, and every call returns, under every fair schedule. */
  lemma CallsReturn(calls: seq<seq<Op>>, sched: nat -> nat)
    requires Fair(sched, |calls|)
    ensures exists k :: AllReturned(At(Clients(Init(|calls|), calls), sched, k))
  {
    hide Inv, Fair, At, Helper, Main, Rest, AllReturned;
    var c := Clients(Init(|calls|), calls);
    InitInv(|calls|);
    var main, rest := (k: nat) => Main(At(c, sched, k)), (k: nat) => Rest(At(c, sched, k));
    var helper, done := (k: nat) => Helper(At(c, sched, k)), (k: nat) => AllReturned(At(c, sched, k));
    forall i: nat | !done(i) ensures helper(i) < |calls| && Advances(sched, main, rest, helper, i) {
      StepAdvances(c, sched, i);
    }
    FairEndsFromStart(sched, |calls|, main, rest, helper, done);
    var k :| done(k);
    assert AllReturned(At(c, sched, k));
  }
}
