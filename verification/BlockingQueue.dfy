/**
 The blocking queue of the schedulers: a queue, a mutex and a condition variable. A step is one lock operation or what
 happens while the lock is held; waiting releases the lock and falls asleep in one step. Waking up may be spurious.
 `pushed` and `popped` are history variables: the values in the order in which they entered and left.
 */
module BlockingQueue {
  import opened Counting

  datatype Pc =
    | Idle
    | PushLock(value: int)     // about to lock
    | PushIn(value: int)       // holds the lock, about to enqueue
    | PushUnlock               // holds the lock, about to release it
    | Notify                   // about to notify one sleeper
    | PopLock                  // awake, about to lock
    | PopTest                  // holds the lock, about to test for emptiness
    | PopTake                  // holds the lock, about to dequeue
    | PopUnlock(value: int)    // holds the lock, about to release it and return
    | Asleep                   // waits for a notification

  datatype State = State(queue: seq<int>, threads: seq<Pc>, pushed: seq<int>, popped: seq<int>)

  datatype Call = Push(value: int) | Pop

  /** Thread t moves; from Idle it makes the call; a notification wakes `wake`; a sleeper wakes only spuriously. */
  datatype Choice = Choice(t: nat, call: Call, wake: nat, spurious: bool)

  function Init(numThreads: nat): State {
    State([], seq(numThreads, _ => Idle), [], [])
  }

  predicate Locked(pc: Pc) { pc.PushIn? || pc.PushUnlock? || pc.PopTest? || pc.PopTake? || pc.PopUnlock? }

  predicate Free(s: State) { forall u :: 0 <= u < |s.threads| ==> !Locked(s.threads[u]) }

  predicate NobodyAsleep(s: State) { forall u :: 0 <= u < |s.threads| ==> !s.threads[u].Asleep? }

  predicate InRange(s: State, t: nat) {
    t < |s.threads| && (s.threads[t].PopTake? ==> s.queue != [])
  }

  function Goto(s: State, t: nat, pc: Pc): State
    requires t < |s.threads|
  {
    s.(threads := s.threads[t := pc])
  }

  function Next(s: State, c: Choice): State
    requires InRange(s, c.t)
  {
    var t := c.t;
    match s.threads[t]
    case Idle => Goto(s, t, if c.call.Push? then PushLock(c.call.value) else PopLock)
    case PushLock(value) => if Free(s) then Goto(s, t, PushIn(value)) else s
    case PushIn(value) => Goto(s, t, PushUnlock).(queue := s.queue + [value], pushed := s.pushed + [value])
    case PushUnlock => Goto(s, t, Notify)
    case Notify =>
      if c.wake < |s.threads| && s.threads[c.wake].Asleep? then
        s.(threads := s.threads[c.wake := PopLock][t := Idle])
      else if NobodyAsleep(s) then Goto(s, t, Idle)
      else s
    case PopLock => if Free(s) then Goto(s, t, PopTest) else s
    case PopTest => Goto(s, t, if s.queue == [] then Asleep else PopTake)
    case PopTake =>
      Goto(s, t, PopUnlock(s.queue[0])).(queue := s.queue[1..], popped := s.popped + [s.queue[0]])
    case PopUnlock(_) => Goto(s, t, Idle)
    case Asleep => if c.spurious then Goto(s, t, PopLock) else s
  }

  function Run(s: State, schedule: seq<Choice>): State {
    if schedule == [] then s
    else
      var last := |schedule| - 1;
      var r := Run(s, schedule[..last]);
      if InRange(r, schedule[last].t) then Next(r, schedule[last]) else r
  }

  // ---------- The invariant ----------

  /** One for a thread that will still test the queue, or still notify somebody who will. */
  function Attention(pc: Pc): nat {
    if pc.PushUnlock? || pc.Notify? || pc.PopLock? || pc.PopTest? || pc.PopTake? then 1 else 0
  }

  predicate OneHolder(s: State) {
    forall t, u :: 0 <= t < |s.threads| && 0 <= u < |s.threads| && t != u ==>
      !(Locked(s.threads[t]) && Locked(s.threads[u]))
  }

  /** While anybody sleeps, every queued value has somebody's attention. */
  predicate Attended(s: State) {
    NobodyAsleep(s) || |s.queue| <= Total(s.threads, Attention)
  }

  predicate Inv(s: State) {
    && OneHolder(s) && Attended(s) && s.pushed == s.popped + s.queue
    && forall t :: 0 <= t < |s.threads| && s.threads[t].PopTake? ==> s.queue != []
  }

  lemma InitInv(numThreads: nat)
    ensures Inv(Init(numThreads))
  {}

  /** A thread gets the lock only when it is free, and only the holder changes the queue. */
  lemma LockMoves(s: State, c: Choice)
    requires InRange(s, c.t)
    ensures var s', pc := Next(s, c), s.threads[c.t];
      && |s'.threads| == |s.threads| && (Locked(s'.threads[c.t]) && !Locked(pc) ==> Free(s))
      && (s'.threads[c.t].PopTake? ==> s'.queue != [])
      && (s'.queue != s.queue ==> Locked(pc))
      && (forall u :: 0 <= u < |s.threads| && u != c.t ==>
            s'.threads[u] == s.threads[u] || (s.threads[u].Asleep? && s'.threads[u].PopLock?))
  {}

  lemma HolderStep(s: State, c: Choice)
    requires Inv(s) && InRange(s, c.t)
    ensures OneHolder(Next(s, c))
    ensures forall t :: 0 <= t < |s.threads| && Next(s, c).threads[t].PopTake? ==> Next(s, c).queue != []
  {
    hide Attended, Next;
    LockMoves(s, c);
    var s' := Next(s, c);
    forall t | 0 <= t < |s'.threads| && t != c.t && Locked(s'.threads[t])
      ensures !Locked(s'.threads[c.t]) && s'.queue == s.queue && s'.threads[t] == s.threads[t]
    {
      assert Locked(s.threads[t]);
    }
  }

  lemma AttentionStep(s: State, c: Choice)
    requires Inv(s) && InRange(s, c.t)
    ensures Attended(Next(s, c))
  {
    hide OneHolder, Total;
    var s', pc := Next(s, c), s.threads[c.t];
    if pc.Notify? && c.wake < |s.threads| && s.threads[c.wake].Asleep? {
      var woken := s.threads[c.wake := PopLock];
      TotalUpdate(s.threads, c.wake, PopLock, Attention);
      TotalUpdate(woken, c.t, Idle, Attention);
    } else {
      TotalUpdate(s.threads, c.t, s'.threads[c.t], Attention);
      if NobodyAsleep(s) && !s'.threads[c.t].Asleep? { StillAwake(s, s', c.t); }
    }
  }

  lemma StillAwake(s: State, s': State, t: nat)
    requires t < |s.threads| == |s'.threads| && NobodyAsleep(s) && s'.threads == s.threads[t := s'.threads[t]]
    requires !s'.threads[t].Asleep?
    ensures NobodyAsleep(s')
  {}

  lemma StepInv(s: State, c: Choice)
    requires Inv(s) && InRange(s, c.t)
    ensures Inv(Next(s, c))
  {
    HolderStep(s, c);
    AttentionStep(s, c);
    hide OneHolder, Attended;
    if s.threads[c.t].PopTake? { assert s.queue == [s.queue[0]] + s.queue[1..]; }
  }

  lemma {:induction false} RunInv(s: State, schedule: seq<Choice>)
    requires Inv(s)
    ensures Inv(Run(s, schedule))
  {
    hide Inv, Next;
    if schedule != [] {
      var last := |schedule| - 1;
      RunInv(s, schedule[..last]);
      var r := Run(s, schedule[..last]);
      if InRange(r, schedule[last].t) { StepInv(r, schedule[last]); }
    }
  }

  /** First in, first out, under every schedule: what left is a prefix of what entered, and the queue is the rest. */
  lemma FirstInFirstOut(numThreads: nat, schedule: seq<Choice>)
    ensures var s := Run(Init(numThreads), schedule);
      s.popped <= s.pushed && s.queue == s.pushed[|s.popped|..]
  {
    InitInv(numThreads);
    RunInv(Init(numThreads), schedule);
  }

  // ---------- What callers hand over and get back ----------

  /**
   A pop decides on its value in the step that takes this value from the queue, and a push enters its value in one step;
   both keep it from there to the return, or from the call to there, whatever the other threads do.
   */
  lemma CallsKeepValues(s: State, c: Choice)
    requires Inv(s) && InRange(s, c.t)
    ensures var s', pc := Next(s, c), s.threads[c.t];
      var pc' := s'.threads[c.t];
      && (pc'.PopUnlock? ==> pc.PopTake? && s.queue == [pc'.value] + s'.queue && s'.popped == s.popped + [pc'.value])
      && (!pc'.PopUnlock? ==> s'.popped == s.popped)
      && (pc.PopUnlock? ==> pc' == Idle)
      && (pc.Idle? && c.call.Push? ==> pc' == PushLock(c.call.value))
      && (Carrying(pc) && Carrying(pc') ==> pc'.value == pc.value && s'.pushed == s.pushed)
      && (Carrying(pc) && !Carrying(pc') ==>
            pc' == PushUnlock && s'.queue == s.queue + [pc.value] && s'.pushed == s.pushed + [pc.value])
      && (!Carrying(pc) ==> s'.pushed == s.pushed && (Carrying(pc') ==> pc.Idle? && c.call == Push(pc'.value)))
      && forall u :: 0 <= u < |s.threads| && u != c.t && (s.threads[u].PopUnlock? || Carrying(s.threads[u])) ==>
           s'.threads[u] == s.threads[u]
  {
    hide Attended, OneHolder, Free;
    if s.threads[c.t].PopTake? { assert s.queue == [s.queue[0]] + s.queue[1..]; }
  }

  predicate Carrying(pc: Pc) { pc.PushLock? || pc.PushIn? }

  /** The values the calls of push were made with, in the order of the calls. */
  function Given(s: State, schedule: seq<Choice>): seq<int> {
    if schedule == [] then []
    else
      var last := |schedule| - 1;
      var r, c := Run(s, schedule[..last]), schedule[last];
      Given(s, schedule[..last]) +
        if InRange(r, c.t) && r.threads[c.t].Idle? && c.call.Push? then [c.call.value] else []
  }

  /** The values the calls of pop have returned, in the order of the returns. */
  function Returned(s: State, schedule: seq<Choice>): seq<int> {
    if schedule == [] then []
    else
      var last := |schedule| - 1;
      var r, c := Run(s, schedule[..last]), schedule[last];
      Returned(s, schedule[..last]) +
        if InRange(r, c.t) && r.threads[c.t].PopUnlock? then [r.threads[c.t].value] else []
  }

  /** The value the holder of the lock is about to return, if it is. */
  function InHand(threads: seq<Pc>): seq<int> {
    if threads == [] then []
    else (if threads[0].PopUnlock? then [threads[0].value] else []) + InHand(threads[1..])
  }

  lemma {:induction false} OneInHand(threads: seq<Pc>, t: nat)
    requires t < |threads| && forall u :: 0 <= u < |threads| && u != t ==> !threads[u].PopUnlock?
    ensures InHand(threads) == if threads[t].PopUnlock? then [threads[t].value] else []
  {
    if t > 0 {
      OneInHand(threads[1..], t - 1);
    } else if |threads| > 1 {
      OneInHand(threads[1..], 0);
    }
  }

  lemma {:induction false} SameInHand(p: seq<Pc>, q: seq<Pc>)
    requires |p| == |q|
    requires forall u :: 0 <= u < |p| ==> p[u] == q[u] || (!p[u].PopUnlock? && !q[u].PopUnlock?)
    ensures InHand(p) == InHand(q)
  {
    if p != [] { SameInHand(p[1..], q[1..]); }
  }

  /** A step takes a value in hand and enters it in `popped`, or hands it over, or does neither. */
  lemma InHandStep(s: State, c: Choice)
    requires Inv(s) && InRange(s, c.t)
    ensures var s', pc := Next(s, c), s.threads[c.t];
      exists x: seq<int> ::
        && s'.popped == s.popped + x
        && InHand(s.threads) + x == (if pc.PopUnlock? then [pc.value] else []) + InHand(s'.threads)
  {
    var s', pc := Next(s, c), s.threads[c.t];
    CallsKeepValues(s, c);
    LockMoves(s, c);
    hide Next, Attended;
    var pc' := s'.threads[c.t];
    if pc.PopUnlock? || pc'.PopUnlock? {
      assert Locked(pc);
      forall u | 0 <= u < |s.threads| && u != c.t ensures !s.threads[u].PopUnlock? && !s'.threads[u].PopUnlock? {
        assert !Locked(s.threads[u]);
      }
      OneInHand(s.threads, c.t);
      OneInHand(s'.threads, c.t);
      var x := if pc'.PopUnlock? then [pc'.value] else [];
      assert s'.popped == s.popped + x;
    } else {
      SameInHand(s.threads, s'.threads);
      assert s'.popped == s.popped + [] && InHand(s.threads) + [] == [] + InHand(s'.threads);
    }
  }

  lemma {:induction false} PopsReturn(s: State, schedule: seq<Choice>)
    requires Inv(s) && s.popped == [] && InHand(s.threads) == []
    ensures var r := Run(s, schedule);
      r.popped == Returned(s, schedule) + InHand(r.threads)
  {
    hide Inv, Next, InHand;
    if schedule != [] {
      var last := |schedule| - 1;
      PopsReturn(s, schedule[..last]);
      RunInv(s, schedule[..last]);
      var r, c := Run(s, schedule[..last]), schedule[last];
      if InRange(r, c.t) {
        InHandStep(r, c);
        var x: seq<int> :| Next(r, c).popped == r.popped + x
          && InHand(r.threads) + x
             == (if r.threads[c.t].PopUnlock? then [r.threads[c.t].value] else []) + InHand(Next(r, c).threads);
        Regroup(Returned(s, schedule[..last]), InHand(r.threads), x);
      }
    }
  }

  lemma Regroup(a: seq<int>, b: seq<int>, c: seq<int>)
    ensures (a + b) + c == a + (b + c)
  {}

  function Carries(v: int): Pc -> nat {
    (pc: Pc) => if Carrying(pc) && pc.value == v then 1 else 0
  }

  lemma CarriesStep(s: State, c: Choice, v: int)
    requires Inv(s) && InRange(s, c.t)
    ensures var s', pc := Next(s, c), s.threads[c.t];
      multiset(s'.pushed)[v] + Total(s'.threads, Carries(v)) ==
      multiset(s.pushed)[v] + Total(s.threads, Carries(v)) + if pc.Idle? && c.call == Push(v) then 1 else 0
  {
    var s', pc := Next(s, c), s.threads[c.t];
    CallsKeepValues(s, c);
    LockMoves(s, c);
    hide Attended, OneHolder, Total, Next;
    TotalSame(s.threads[c.t := s'.threads[c.t]], s'.threads, Carries(v));
    TotalUpdate(s.threads, c.t, s'.threads[c.t], Carries(v));
  }

  lemma {:induction false} PushesGiven(s: State, schedule: seq<Choice>, v: int)
    requires Inv(s) && s.pushed == [] && Total(s.threads, Carries(v)) == 0
    ensures var r := Run(s, schedule);
      multiset(Given(s, schedule))[v] == multiset(r.pushed)[v] + Total(r.threads, Carries(v))
  {
    hide Inv, Next, Total;
    if schedule != [] {
      var last := |schedule| - 1;
      PushesGiven(s, schedule[..last], v);
      RunInv(s, schedule[..last]);
      var r, c := Run(s, schedule[..last]), schedule[last];
      if InRange(r, c.t) { CarriesStep(r, c, v); }
    }
  }

  /**
   End to end, under every schedule: what the pops returned, in the order in which they returned, is a prefix of what
   the pushes enqueued, but for the value one pop may hold; and those are the values the pushes were called with, but
   for those still on their way.
   */
  lemma CallersSee(numThreads: nat, schedule: seq<Choice>)
    ensures var i := Init(numThreads); var s := Run(i, schedule);
      && s.pushed == Returned(i, schedule) + InHand(s.threads) + s.queue
      && (Free(s) ==> InHand(s.threads) == [])
      && forall v :: multiset(Given(i, schedule))[v] == multiset(s.pushed)[v] + Total(s.threads, Carries(v))
  {
    hide Next, Returned, Given, Attended, OneHolder, Total, InHand;
    var i := Init(numThreads);
    InitInv(numThreads);
    RunInv(i, schedule);
    var s := Run(i, schedule);
    NothingInHand(i.threads);
    PopsReturn(i, schedule);
    if Free(s) { NothingInHand(s.threads); }
    forall v ensures multiset(Given(i, schedule))[v] == multiset(s.pushed)[v] + Total(s.threads, Carries(v)) {
      TotalZero(i.threads, Carries(v));
      PushesGiven(i, schedule, v);
    }
  }

  lemma NothingInHand(threads: seq<Pc>)
    requires forall u :: 0 <= u < |threads| ==> !threads[u].PopUnlock?
    ensures InHand(threads) == []
  {
    if threads != [] { OneInHand(threads, 0); }
  }

  /** The thread can take a step now, without being woken up. */
  predicate CanMove(s: State, t: nat)
    requires t < |s.threads|
  {
    match s.threads[t]
    case Idle => false
    case Asleep => false
    case PushLock(_) => Free(s)
    case PopLock => Free(s)
    case _ => true
  }

  lemma MoveMoves(s: State, t: nat)
    requires t < |s.threads| && InRange(s, t) && CanMove(s, t)
    ensures exists c: Choice :: c.t == t && Next(s, c) != s
  {
    var pc := s.threads[t];
    if pc.Notify? && !NobodyAsleep(s) {
      var w: nat :| w < |s.threads| && s.threads[w].Asleep?;
      assert Next(s, Choice(t, Pop, w, false)).threads[t] == Idle;
    } else {
      assert Next(s, Choice(t, Pop, |s.threads|, false)).threads[t] != pc;
    }
  }

  /**
   A pop falls asleep exactly when it finds the queue empty; it stays asleep until a push notifies it or it wakes up for
   no reason; and a push that notifies while anybody sleeps wakes exactly one.
   */
  lemma SleepsUntilNotified(s: State, c: Choice)
    requires Inv(s) && InRange(s, c.t)
    ensures var s', pc := Next(s, c), s.threads[c.t];
      var pc' := s'.threads[c.t];
      && (pc.PopTest? ==> (pc'.Asleep? <==> s.queue == []))
      && (pc'.Asleep? && !pc.Asleep? ==> pc.PopTest? && s.queue == [])
      && (forall u :: 0 <= u < |s.threads| && s.threads[u].Asleep? && !s'.threads[u].Asleep? ==>
            s'.threads[u] == PopLock && ((u == c.t && c.spurious) || (pc.Notify? && pc'.Idle? && u == c.wake)))
      && (pc.PushUnlock? ==> pc' == Notify)
      && (pc.Notify? && !pc'.Notify? && !NobodyAsleep(s) ==>
            exists u ::
              && 0 <= u < |s.threads| && s.threads[u].Asleep?
              && s'.threads == s.threads[u := PopLock][c.t := Idle])
  {
    hide Attended, OneHolder, Free;
  }

  /**
   No wake-up is lost: in every reachable state with a call under way, some call can make its next step, unless all
   calls under way are pops asleep at an empty queue.
   */
  lemma NoLostWakeUp(numThreads: nat, schedule: seq<Choice>, t: nat)
    requires var s := Run(Init(numThreads), schedule); t < |s.threads| && !s.threads[t].Idle?
    ensures var s := Run(Init(numThreads), schedule);
      || (exists u :: 0 <= u < |s.threads| && CanMove(s, u))
      || (s.queue == [] && forall u :: 0 <= u < |s.threads| ==> s.threads[u].Idle? || s.threads[u].Asleep?)
  {
    InitInv(numThreads);
    RunInv(Init(numThreads), schedule);
    SomebodyAttends(Run(Init(numThreads), schedule), t);
  }

  lemma SomebodyAttends(s: State, t: nat)
    requires Inv(s) && t < |s.threads| && !s.threads[t].Idle?
    ensures || (exists u :: 0 <= u < |s.threads| && CanMove(s, u))
            || (s.queue == [] && forall u :: 0 <= u < |s.threads| ==> s.threads[u].Idle? || s.threads[u].Asleep?)
  {
    if u :| 0 <= u < |s.threads| && !s.threads[u].Idle? && !s.threads[u].Asleep? {
      if !Free(s) {
        var h :| 0 <= h < |s.threads| && Locked(s.threads[h]);
        assert CanMove(s, h);
      } else {
        assert CanMove(s, u);
      }
    } else {
      TotalZero(s.threads, Attention);
      assert s.threads[t].Asleep?;
    }
  }
}
