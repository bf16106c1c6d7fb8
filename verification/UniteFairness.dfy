/** Every fair schedule completes the call: the loop, every `unite` in it, the barrier and the copying of all slices. */
module UniteFairness {
  import opened Sets
  import opened Counting
  import opened Graphs
  import opened Forest
  import opened UniteMachine
  import opened UniteSafety
  import opened UniteRuns
  import opened Fairness

  // ---------- What is left to do ----------

  function InsideUnite(n: nat): nat { (2 * n + 1) * (4 * n + 4) }

  function Positive(x: int): nat { if x > 0 then x else 0 }

  function Weight(n: nat, th: Thread): nat {
    match th.pc
    case Idle => n + 2
    case Copy(_, k) => if k <= |th.kept| then 1 + |th.kept| - k else 1
    case Finished => 0
    case _ => n + 3 + Positive(Budget(th.seen, Phase(th.pc, n), n))
  }

  function Weights(n: nat): Thread -> nat { th => Weight(n, th) }

  function Work(s: State): nat {
    var n := |s.f.words|;
    Total(s.threads, Weights(n)) + |s.pending| * (InsideUnite(n) + 2)
  }

  /** The thread's next step changes the state, provided the loop hands out an index while there is one. */
  predicate Ready(s: State, t: nat)
    requires t < |s.threads|
  {
    var pc := s.threads[t].pc;
    Busy(pc) || pc.Copy? || (pc.Idle? && (s.pending != {} || LoopDone(s)))
  }

  predicate HandsOut(s: State, c: Choice) {
    c.t < |s.threads| && s.threads[c.t].pc.Idle? && s.pending != {} ==> c.i in s.pending
  }

  lemma WorkChanges(s: State, t: nat, i: nat)
    requires t < |s.threads| && InRange(s, s.threads[t])
    ensures var s', n := Next(s, t, i), |s.f.words|;
      && |s'.f.words| == n && t < |s'.threads|
      && Total(s'.threads, Weights(n)) + Weight(n, s.threads[t])
           == Total(s.threads, Weights(n)) + Weight(n, s'.threads[t])
  {
    hide Weight;
    NextFrame(s, t, i);
    var s', n := Next(s, t, i), |s.f.words|;
    assert |s'.f.words| == n;
    assert s'.threads == s.threads[t := s'.threads[t]];
    hide Next;
    TotalUpdate(s.threads, t, s'.threads[t], Weights(n));
  }

  /** Operations inside `unite`. */
  lemma BusyLowers(s: State, t: nat, i: nat)
    requires Inv(s) && t < |s.threads| && Busy(s.threads[t].pc)
    ensures InRange(s, s.threads[t]) && t < |Next(s, t, i).threads|
    ensures Next(s, t, i).pending == s.pending
    ensures Weight(|s.f.words|, Next(s, t, i).threads[t]) < Weight(|s.f.words|, s.threads[t])
  {
    hide Inv, Next, Budget, Phase, InRange;
    InvInRange(s, t);
    StepInv(s, t, i);
    UniteProgress(s, t, i);
    LeftBounds(s, t);
    BusyLeads(s, t, i);
    if Busy(Next(s, t, i).threads[t].pc) { LeftBounds(Next(s, t, i), t); }
  }

  lemma BusyLeads(s: State, t: nat, i: nat)
    requires t < |s.threads| && InRange(s, s.threads[t]) && Busy(s.threads[t].pc)
    ensures var s' := Next(s, t, i);
      && s'.pending == s.pending && |s'.f.words| == |s.f.words| && t < |s'.threads|
      && (Busy(s'.threads[t].pc) || s'.threads[t].pc.Idle?)
  {
    hide Climbs;
  }

  /** Taking an index from the loop. */
  lemma TakingLowers(s: State, t: nat, i: nat)
    requires Inv(s) && t < |s.threads| && s.threads[t].pc.Idle? && i in s.pending
    ensures InRange(s, s.threads[t]) && Work(Next(s, t, i)) < Work(s)
  {
    hide Inv, Next, Budget, Phase, InRange, InsideUnite, Weights;
    InvInRange(s, t);
    StepInv(s, t, i);
    WorkChanges(s, t, i);
    var s', n := Next(s, t, i), |s.f.words|;
    IsTaken(s, t, i);
    LeftBounds(s', t);
    assert |s'.pending| == |s.pending| - 1;
    OneFewer(|s.pending|, InsideUnite(n) + 2);
    assert Weight(n, s'.threads[t]) < n + 3 + InsideUnite(n) by { Bound(n); }
  }

  lemma Bound(n: nat)
    ensures InsideUnite(n) == (2 * n + 1) * (4 * n + 4) > 0
  {}

  lemma OneFewer(a: nat, c: nat)
    requires a > 0
    ensures a * c == (a - 1) * c + c
  {}

  lemma IsTaken(s: State, t: nat, i: nat)
    requires Inv(s) && t < |s.threads| && InRange(s, s.threads[t]) && s.threads[t].pc.Idle? && i in s.pending
    ensures var s' := Next(s, t, i);
      && s'.pending == s.pending - {i} && |s'.f.words| == |s.f.words|
      && t < |s'.threads| && s'.threads[t].pc.Find?
  {
    hide LinksOk, InputOk, BufferOk, CountsOk, ThreadOk;
  }

  /** Leaving the loop, and copying. */
  lemma LeavingLowers(s: State, t: nat, i: nat)
    requires Inv(s) && t < |s.threads| && (s.threads[t].pc.Copy? || (s.threads[t].pc.Idle? && LoopDone(s)))
    ensures InRange(s, s.threads[t]) && t < |Next(s, t, i).threads| && Next(s, t, i).pending == s.pending
    ensures Weight(|s.f.words|, Next(s, t, i).threads[t]) < Weight(|s.f.words|, s.threads[t])
  {
    hide Inv, Next, InRange, LoopDone;
    InvInRange(s, t);
    StepInv(s, t, i);
    Leaves(s, t, i);
    if s.threads[t].pc.Copy? { SliceFits(s, t); }
    if Next(s, t, i).threads[t].pc.Copy? { SliceFits(Next(s, t, i), t); }
  }

  lemma Leaves(s: State, t: nat, i: nat)
    requires t < |s.threads| && InRange(s, s.threads[t])
    requires s.threads[t].pc.Copy? || (s.threads[t].pc.Idle? && LoopDone(s))
    ensures var s', th := Next(s, t, i), s.threads[t];
      && s'.pending == s.pending && |s'.f.words| == |s.f.words| && t < |s'.threads|
      && match th.pc
         case Copy(pos, k) =>
           if k < |th.kept| then s'.threads[t] == th.(pc := Copy(pos, k + 1)) else s'.threads[t].pc == Finished
         case _ => s'.threads[t] == th.(pc := Copy(s.num, 0))
  {}

  lemma SliceFits(s: State, t: nat)
    requires Inv(s) && t < |s.threads| && s.threads[t].pc.Copy?
    ensures s.threads[t].pc.k <= |s.threads[t].kept| <= |s.f.words|
  {
    hide LinksOk, InputOk, CountsOk, ThreadOk, BarrierOk;
    assert SliceOk(s, t);
  }

  /** The step of a ready thread lowers what is left to do. */
  lemma ReadyLowers(s: State, c: Choice)
    requires Inv(s) && c.t < |s.threads| && Ready(s, c.t) && HandsOut(s, c)
    ensures InRange(s, s.threads[c.t]) && Work(Next(s, c.t, c.i)) < Work(s)
  {
    hide Inv, Next, InRange, Weight, Weights, LoopDone;
    InvInRange(s, c.t);
    if s.threads[c.t].pc.Idle? && s.pending != {} {
      TakingLowers(s, c.t, c.i);
    } else {
      WorkChanges(s, c.t, c.i);
      if Busy(s.threads[c.t].pc) { BusyLowers(s, c.t, c.i); } else { LeavingLowers(s, c.t, c.i); }
    }
  }

  /** Any other thread leaves the state as it is. */
  lemma OthersWait(s: State, c: Choice)
    requires Inv(s) && c.t < |s.threads| && !Ready(s, c.t)
    ensures InRange(s, s.threads[c.t]) && Next(s, c.t, c.i) == s
  {
    hide LinksOk, InputOk, BufferOk, CountsOk, ThreadOk;
    InvInRange(s, c.t);
  }

  lemma SomebodyReady(s: State)
    requires Inv(s) && s.threads != [] && !Completed(s)
    ensures exists t: nat :: t < |s.threads| && Ready(s, t)
  {
    hide LinksOk, InputOk, BufferOk, CountsOk, ThreadOk;
    var t: nat :| t < |s.threads| && s.threads[t].pc != Finished;
    if s.threads[t].pc.Idle? && s.pending == {} && !LoopDone(s) {
      var u: nat :| u < |s.threads| && Busy(s.threads[u].pc);
      assert Ready(s, u);
    } else {
      assert Ready(s, t);
    }
  }

  // ---------- Fair schedules ----------

  /** The state after k steps of an infinite schedule. */
  function At(s: State, sched: nat -> Choice, k: nat): State {
    if k == 0 then s
    else
      var r, c := At(s, sched, k - 1), sched(k - 1);
      if c.t < |r.threads| && InRange(r, r.threads[c.t]) then Next(r, c.t, c.i) else r
  }

  function Threads(sched: nat -> Choice): nat -> nat { k => sched(k).t }

  /** Every thread runs again and again, and the loop hands out indices as long as it has any. */
  ghost predicate FairCall(s: State, sched: nat -> Choice) {
    Fair(Threads(sched), |s.threads|) && forall k :: HandsOut(At(s, sched, k), sched(k))
  }

  lemma {:induction false} AtInv(s: State, sched: nat -> Choice, k: nat)
    requires Inv(s)
    ensures Inv(At(s, sched, k)) && |At(s, sched, k).threads| == |s.threads|
  {
    hide Inv, Next;
    if k > 0 {
      AtInv(s, sched, k - 1);
      var r, c := At(s, sched, k - 1), sched(k - 1);
      if c.t < |r.threads| && InRange(r, r.threads[c.t]) {
        StepInv(r, c.t, c.i);
        NextFrame(r, c.t, c.i);
      }
    }
  }

  ghost function Helper(s: State): nat {
    if exists t: nat :: t < |s.threads| && Ready(s, t) then
      var t: nat :| t < |s.threads| && Ready(s, t);
      t
    else 0
  }

  lemma StepAdvances(s: State, sched: nat -> Choice, k: nat)
    requires Inv(s) && s.threads != [] && FairCall(s, sched) && !Completed(At(s, sched, k))
    ensures var now, after := At(s, sched, k), At(s, sched, k + 1);
      && Helper(now) < |s.threads|
      && (Work(after) < Work(now) || (after == now && sched(k).t != Helper(now)))
  {
    hide Inv, Next, Work, Completed, Ready, HandsOut, InRange, Fair;
    var now, c := At(s, sched, k), sched(k);
    AtInv(s, sched, k);
    SomebodyReady(now);
    assert Threads(sched)(k) == c.t && c.t < |s.threads| by { Scheduled(s, sched, k); }
    if Ready(now, c.t) { ReadyLowers(now, c); } else { OthersWait(now, c); }
  }

  lemma Scheduled(s: State, sched: nat -> Choice, k: nat)
    requires FairCall(s, sched)
    ensures Threads(sched)(k) < |s.threads|
  {}

  lemma CallEnds(s: State, sched: nat -> Choice)
    requires Inv(s) && s.threads != [] && FairCall(s, sched)
    ensures exists k :: Completed(At(s, sched, k))
  {
    hide Inv, Work, Completed, Fair, At, Helper;
    var main, rest := (k: nat) => Work(At(s, sched, k)), (k: nat) => 0;
    var helper := (k: nat) => Helper(At(s, sched, k));
    var done := (k: nat) => Completed(At(s, sched, k));
    forall i: nat | !done(i)
      ensures helper(i) < |s.threads| && Advances(Threads(sched), main, rest, helper, i)
    {
      StepAdvances(s, sched, i);
    }
    FairEndsFromStart(Threads(sched), |s.threads|, main, rest, helper, done);
    var k :| done(k);
    assert Completed(At(s, sched, k));
  }

  function Prefix(sched: nat -> Choice, k: nat): seq<Choice> { seq(k, j requires 0 <= j < k => sched(j)) }

  lemma {:induction false} AtIsRun(s: State, sched: nat -> Choice, k: nat)
    ensures Run(s, Prefix(sched, k)) == At(s, sched, k)
  {
    hide Next, InRange;
    if k > 0 {
      AtIsRun(s, sched, k - 1);
      assert Prefix(sched, k)[..k - 1] == Prefix(sched, k - 1);
    }
  }

  /**
   After any number of earlier calls, a call with existing nodes and at least one thread returns under every fair
   schedule; what it leaves behind is then what SpanningForest says.
   */
  lemma AddEdgesReturns(before: Life, edges: seq<Edge>, numThreads: nat, sched: nat -> Choice)
    requires Proper(before) && UniteRuns.Completed(StateOf(before)) && numThreads > 0
    requires forall j :: 0 <= j < |edges| ==> edges[j].a < Size(before) && edges[j].b < Size(before)
    requires FairCall(Start(StateOf(before), edges, numThreads), sched)
    ensures exists k :: var life := Call(before, edges, numThreads, Prefix(sched, k));
      Proper(life) && Completed(StateOf(life)) && Spanned(StateOf(life), Size(life), Given(life))
  {
    hide Inv, FairCall, At, Run, Completed, Spanned;
    LifeInv(before);
    var s := Start(StateOf(before), edges, numThreads);
    StartInv(StateOf(before), edges, numThreads);
    CallEnds(s, sched);
    var k :| Completed(At(s, sched, k));
    AtIsRun(s, sched, k);
    var life := Call(before, edges, numThreads, Prefix(sched, k));
    assert StateOf(life) == At(s, sched, k);
    SpanningForest(life);
  }
}
