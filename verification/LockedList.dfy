/**
 The list with one lock per link, traversed hand over hand. Node 0 stands for the head: its link is m_head and its lock
 m_head_mutex. Pointer 0 is null. Which locks a thread holds is determined by its program counter: shared ones for
 `find`, exclusive ones for `insert` and `erase`.
 `chain` and `log` are history variables: the nodes reachable from the head, and the calls in the order of the steps
 at which they take effect.
 */
module LockedList {
  import opened Sets
  import opened ListSpec

  datatype Pc =
    | Idle
    | Enter(op: Op)                             // about to lock the head
    | At(op: Op, prev: nat)                     // holds prev, about to read its link and compare
    | Lock(op: Op, prev: nat, node: nat)        // holds prev, about to lock node
    | Hand(op: Op, prev: nat, node: nat)        // holds both, about to unlock prev
    | Seize(op: Op, prev: nat, node: nat)       // holds prev, about to lock the node to be erased
    | Unlink(op: Op, prev: nat, node: nat)      // holds both, about to redirect prev's link
    | Drop(op: Op, prev: nat, node: nat)        // unlinked, about to unlock prev
    | Release(op: Op, prev: nat, result: bool)  // about to unlock prev and return

  datatype Event = Event(op: Op, result: bool)

  datatype State = State(values: seq<int>, next: seq<nat>, threads: seq<Pc>, chain: seq<nat>, log: seq<Event>)

  datatype Choice = Choice(t: nat, op: Op)

  function Init(numThreads: nat): State {
    State([0], [0], seq(numThreads, _ => Idle), [0], [])
  }

  // ---------- Locks ----------

  predicate Holds(pc: Pc, x: nat) {
    match pc
    case Idle => false
    case Enter(_) => false
    case At(_, prev) => x == prev
    case Lock(_, prev, _) => x == prev
    case Hand(_, prev, node) => x == prev || x == node
    case Seize(_, prev, _) => x == prev
    case Unlink(_, prev, node) => x == prev || x == node
    case Drop(_, prev, node) => x == prev || x == node
    case Release(_, prev, _) => x == prev
  }

  /** Two calls may hold one lock together if both are lookups. */
  predicate Compatible(op: Op, pc: Pc) { pc.Idle? || (op.Find? && pc.op.Find?) }

  predicate Free(s: State, t: nat, op: Op, x: nat) {
    forall u :: 0 <= u < |s.threads| && u != t ==> (Holds(s.threads[u], x) ==> Compatible(op, s.threads[u]))
  }

  // ---------- Steps ----------

  predicate InRange(s: State, t: nat) {
    && t < |s.threads| && |s.values| == |s.next|
    && match s.threads[t]
       case Idle => true
       case Enter(_) => true
       case At(_, prev) => prev < |s.next| && s.next[prev] < |s.next|
       case Release(_, prev, _) => true
       case pc => pc.prev < |s.next| && pc.node < |s.next|
  }

  function Goto(s: State, t: nat, pc: Pc): State
    requires t < |s.threads|
  {
    s.(threads := s.threads[t := pc])
  }

  /** The call takes effect now, with this answer; what is left is to release the lock. */
  function Settle(s: State, t: nat, op: Op, prev: nat, result: bool): State
    requires t < |s.threads|
  {
    Goto(s, t, Release(op, prev, result)).(log := s.log + [Event(op, result)])
  }

  function Remove(chain: seq<nat>, x: nat): seq<nat> {
    if chain == [] then [] else if chain[0] == x then chain[1..] else [chain[0]] + Remove(chain[1..], x)
  }

  /** One look at prev's link: the end, the value, or another node. */
  function Look(s: State, t: nat, op: Op, prev: nat): State
    requires t < |s.threads| && |s.values| == |s.next| && prev < |s.next| && s.next[prev] < |s.next|
  {
    var node := s.next[prev];
    if node == 0 then
      if op.Insert? then
        Settle(s, t, op, prev, true)
          .(values := s.values + [op.value], next := s.next[prev := |s.next|] + [0], chain := s.chain + [|s.next|])
      else Settle(s, t, op, prev, false)
    else if s.values[node] == op.value then
      match op
      case Insert(_) => Settle(s, t, op, prev, false)
      case Find(_) => Settle(s, t, op, prev, true)
      case Erase(_) => Goto(s, t, Seize(op, prev, node))
    else Goto(s, t, Lock(op, prev, node))
  }

  /** What thread c.t does next; from Idle it calls c.op. A lock that is taken is waited for. */
  function Next(s: State, c: Choice): State
    requires InRange(s, c.t)
  {
    var t := c.t;
    match s.threads[t]
    case Idle => Goto(s, t, Enter(c.op))
    case Enter(op) => if Free(s, t, op, 0) then Goto(s, t, At(op, 0)) else s
    case At(op, prev) => Look(s, t, op, prev)
    case Lock(op, prev, node) => if Free(s, t, op, node) then Goto(s, t, Hand(op, prev, node)) else s
    case Hand(op, prev, node) => Goto(s, t, At(op, node))
    case Seize(op, prev, node) => if Free(s, t, op, node) then Goto(s, t, Unlink(op, prev, node)) else s
    case Unlink(op, prev, node) =>
      Goto(s, t, Drop(op, prev, node))
        .(next := s.next[prev := s.next[node]], chain := Remove(s.chain, node), log := s.log + [Event(op, true)])
    case Drop(op, prev, node) => Goto(s, t, Release(op, node, true))
    case Release(_, _, _) => Goto(s, t, Idle)
  }

  function Run(s: State, schedule: seq<Choice>): State {
    if schedule == [] then s
    else
      var last := |schedule| - 1;
      var r := Run(s, schedule[..last]);
      if InRange(r, schedule[last].t) then Next(r, schedule[last]) else r
  }

  // ---------- The invariant ----------

  /** The chain follows the links from the head to null, without repetition. */
  predicate ChainOk(s: State) {
    && |s.values| == |s.next| && s.chain != [] && s.chain[0] == 0
    && (forall i :: 0 <= i < |s.chain| ==> s.chain[i] < |s.next|)
    && (forall i, j :: 0 <= i < j < |s.chain| ==> s.chain[i] != s.chain[j])
    && (forall i {:trigger Succ(s.chain, i)} :: 0 <= i < |s.chain| ==> s.next[s.chain[i]] == Succ(s.chain, i))
  }

  /** What the i-th node of the chain points to. */
  function Succ(chain: seq<nat>, i: nat): nat
    requires i < |chain|
  {
    if i + 1 < |chain| then chain[i + 1] else 0
  }

  function Contents(s: State): (contents: seq<int>)
    requires ChainOk(s)
    ensures |contents| == |s.chain| - 1
  {
    seq(|s.chain| - 1, i requires 0 <= i < |s.chain| - 1 => s.values[s.chain[i + 1]])
  }

  /** x is on the chain, and no node of the chain up to x has the value v. */
  ghost predicate Passed(s: State, x: nat, v: int)
    requires ChainOk(s)
  {
    exists i :: 0 <= i < |s.chain| && s.chain[i] == x && v !in Contents(s)[..i]
  }

  ghost predicate ThreadOk(s: State, pc: Pc)
    requires ChainOk(s)
  {
    match pc
    case Idle => true
    case Enter(_) => true
    case At(op, prev) => Passed(s, prev, op.value)
    case Lock(op, prev, node) =>
      && Passed(s, prev, op.value) && prev < |s.next| && s.next[prev] == node && 0 < node < |s.next|
      && s.values[node] != op.value
    case Hand(op, prev, node) =>
      && Passed(s, prev, op.value) && prev < |s.next| && s.next[prev] == node && 0 < node < |s.next|
      && s.values[node] != op.value
    case Seize(op, prev, node) =>
      && op.Erase? && Passed(s, prev, op.value) && prev < |s.next| && s.next[prev] == node && 0 < node < |s.next|
      && s.values[node] == op.value
    case Unlink(op, prev, node) =>
      && op.Erase? && Passed(s, prev, op.value) && prev < |s.next| && s.next[prev] == node && 0 < node < |s.next|
      && s.values[node] == op.value
    case Drop(_, prev, node) => prev < |s.next| && node < |s.next|
    case Release(_, _, _) => true
  }

  ghost predicate Exclusive(p: Pc, q: Pc) {
    forall x: nat :: Holds(p, x) && Holds(q, x) ==> !p.Idle? && !q.Idle? && p.op.Find? && q.op.Find?
  }

  ghost predicate LocksOk(s: State) {
    forall t, u :: 0 <= t < |s.threads| && 0 <= u < |s.threads| && t != u ==> Exclusive(s.threads[t], s.threads[u])
  }

  /** The contents after the logged calls, one after the other, on the sequential list. */
  function Replay(log: seq<Event>): seq<int> {
    if log == [] then [] else After(Replay(log[..|log| - 1]), log[|log| - 1].op)
  }

  /** Every logged answer is the one the sequential list gives at that point. */
  predicate Legal(log: seq<Event>) {
    log == [] ||
      var before, e := log[..|log| - 1], log[|log| - 1];
      Legal(before) && e.result == Answer(Replay(before), e.op)
  }

  ghost predicate Inv(s: State) {
    && ChainOk(s) && LocksOk(s) && Legal(s.log) && Replay(s.log) == Contents(s)
    && forall t :: 0 <= t < |s.threads| ==> ThreadOk(s, s.threads[t])
  }

  lemma InitInv(numThreads: nat)
    ensures Inv(Init(numThreads))
  {
    var s := Init(numThreads);
    assert Succ(s.chain, 0) == 0;
  }

  // ---------- The chain ----------

  /** The position of a node on the chain. */
  lemma Position(s: State, x: nat, v: int) returns (i: nat)
    requires ChainOk(s) && Passed(s, x, v)
    ensures i < |s.chain| && s.chain[i] == x && v !in Contents(s)[..i] && s.next[x] == Succ(s.chain, i)
    ensures i + 1 < |s.chain| ==> s.next[x] == s.chain[i + 1] != 0 && Contents(s)[i] == s.values[s.next[x]]
    ensures i + 1 == |s.chain| ==> s.next[x] == 0 && v !in Contents(s)
  {
    i :| 0 <= i < |s.chain| && s.chain[i] == x && v !in Contents(s)[..i];
    assert s.next[s.chain[i]] == Succ(s.chain, i);
    if i + 1 == |s.chain| { assert Contents(s)[..i] == Contents(s); }
  }

  lemma {:induction false} RemoveAt(chain: seq<nat>, k: nat)
    requires k < |chain| && forall j :: 0 <= j < k ==> chain[j] != chain[k]
    ensures Remove(chain, chain[k]) == chain[..k] + chain[k + 1..]
  {
    if k > 0 { RemoveAt(chain[1..], k - 1); }
  }

  /** Appending a node to the end. */
  lemma AppendChain(s: State, s': State, prev: nat, v: int)
    requires ChainOk(s) && Passed(s, prev, v) && s.next[prev] == 0
    requires s'.values == s.values + [v] && s'.chain == s.chain + [|s.next|]
    requires s'.next == s.next[prev := |s.next|] + [0]
    ensures ChainOk(s') && Contents(s') == Contents(s) + [v] && v !in Contents(s)
  {
    hide ChainOk, Contents;
    var i := Position(s, prev, v);
    LongerChain(s, s', i, v);
  }

  lemma LongerChain(s: State, s': State, i: nat, v: int)
    requires ChainOk(s) && i + 1 == |s.chain| && s'.values == s.values + [v]
    requires s'.next == s.next[s.chain[i] := |s.next|] + [0] && s'.chain == s.chain + [|s.next|]
    ensures ChainOk(s') && Contents(s') == Contents(s) + [v]
  {
    hide Contents;
    forall j | 0 <= j < |s'.chain| ensures s'.next[s'.chain[j]] == Succ(s'.chain, j) {
      if j < |s.chain| { assert s.next[s.chain[j]] == Succ(s.chain, j); }
    }
    LongerContents(s, s', v);
  }

  lemma LongerContents(s: State, s': State, v: int)
    requires ChainOk(s) && ChainOk(s') && s'.values == s.values + [v] && s'.chain == s.chain + [|s.next|]
    ensures Contents(s') == Contents(s) + [v]
  {}

  predicate CutAt(chain: seq<nat>, chain': seq<nat>, prev: nat, node: nat, i: nat) {
    i + 1 < |chain| && chain[i] == prev && chain[i + 1] == node && chain' == chain[..i + 1] + chain[i + 2..]
  }

  /** Taking out the node after prev. */
  lemma UnlinkChain(s: State, s': State, prev: nat, node: nat, v: int)
    requires ChainOk(s) && Passed(s, prev, v) && s.next[prev] == node != 0 && node < |s.next| && s.values[node] == v
    requires s'.values == s.values && s'.next == s.next[prev := s.next[node]] && s'.chain == Remove(s.chain, node)
    ensures ChainOk(s') && Contents(s') == Without(Contents(s), v) && v in Contents(s)
    ensures exists i :: 0 <= i < |s.chain| - 1 && CutAt(s.chain, s'.chain, prev, node, i)
  {
    hide Succ, Without;
    var i := Position(s, prev, v);
    assert s.next[s.chain[i]] == Succ(s.chain, i);
    IsNext(s, i);
    RemoveAt(s.chain, i + 1);
    assert CutAt(s.chain, s'.chain, prev, node, i);
    CutLinks(s, s', prev, node, i);
    CutContents(s, s', prev, node, i, v);
  }

  lemma IsNext(s: State, i: nat)
    requires ChainOk(s) && i < |s.chain| && s.next[s.chain[i]] != 0
    ensures i + 1 < |s.chain| && s.chain[i + 1] == s.next[s.chain[i]]
  {
    assert s.next[s.chain[i]] == Succ(s.chain, i);
  }

  lemma CutLinks(s: State, s': State, prev: nat, node: nat, i: nat)
    requires ChainOk(s) && CutAt(s.chain, s'.chain, prev, node, i) && prev < |s.next| && node < |s.next|
    requires s'.values == s.values && s'.next == s.next[prev := s.next[node]]
    ensures ChainOk(s')
  {
    CutNodes(s.chain, s'.chain, prev, node, i, |s.next|);
    assert s.next[node] == Succ(s.chain, i + 1);
    forall j | 0 <= j < |s'.chain| ensures s'.next[s'.chain[j]] == Succ(s'.chain, j) {
      var was := if j <= i then j else j + 1;
      assert s.next[s.chain[was]] == Succ(s.chain, was) && s'.chain[j] == s.chain[was];
      CutSucc(s.chain, s'.chain, prev, node, i, j);
    }
  }

  lemma CutNodes(chain: seq<nat>, chain': seq<nat>, prev: nat, node: nat, i: nat, n: nat)
    requires CutAt(chain, chain', prev, node, i)
    requires forall j :: 0 <= j < |chain| ==> chain[j] < n
    requires forall j, k :: 0 <= j < k < |chain| ==> chain[j] != chain[k]
    ensures forall j :: 0 <= j < |chain'| ==> chain'[j] < n
    ensures forall j, k :: 0 <= j < k < |chain'| ==> chain'[j] != chain'[k]
    ensures chain' != [] && chain'[0] == chain[0]
  {}

  lemma CutSucc(chain: seq<nat>, chain': seq<nat>, prev: nat, node: nat, i: nat, j: nat)
    requires CutAt(chain, chain', prev, node, i) && j < |chain'|
    ensures var was := if j <= i then j else j + 1;
      was < |chain| && Succ(chain', j) == if j == i then Succ(chain, i + 1) else Succ(chain, was)
  {}

  lemma CutContents(s: State, s': State, prev: nat, node: nat, i: nat, v: int)
    requires ChainOk(s) && ChainOk(s') && CutAt(s.chain, s'.chain, prev, node, i) && s'.values == s.values
    requires node < |s.values| && s.values[node] == v && v !in Contents(s)[..i]
    ensures Contents(s') == Without(Contents(s), v) && v in Contents(s)
  {
    assert Contents(s)[i] == v;
    WithoutAt(Contents(s), i, v);
    assert Contents(s') == Contents(s)[..i] + Contents(s)[i + 1..];
  }

  /** What another thread has passed stays passed. */
  lemma PassedAppend(s: State, s': State, prev: nat, v: int, x: nat, w: int)
    requires ChainOk(s) && ChainOk(s') && Passed(s, x, w) && Contents(s') == Contents(s) + [v]
    requires s'.chain == s.chain + [|s.next|]
    ensures Passed(s', x, w)
  {
    var i := Position(s, x, w);
    assert Contents(s')[..i] == Contents(s)[..i];
    assert s'.chain[i] == x;
  }

  lemma PassedUnlink(s: State, s': State, node: nat, i: nat, x: nat, w: int)
    requires ChainOk(s) && ChainOk(s') && Passed(s, x, w) && x != node && i + 1 < |s.chain| && s.chain[i + 1] == node
    requires s'.chain == s.chain[..i + 1] + s.chain[i + 2..] && s'.values == s.values
    ensures Passed(s', x, w)
  {
    hide ChainOk, Contents;
    var k := Position(s, x, w);
    var k' := if k <= i then k else k - 1;
    assert s'.chain[k'] == x;
    ContentsWithout(s, s', i);
    FewerBefore(Contents(s), Contents(s'), i, k, k', w);
  }

  lemma ContentsWithout(s: State, s': State, i: nat)
    requires ChainOk(s) && ChainOk(s') && i + 1 < |s.chain| && s'.values == s.values
    requires s'.chain == s.chain[..i + 1] + s.chain[i + 2..]
    ensures i < |Contents(s)| && Contents(s') == Contents(s)[..i] + Contents(s)[i + 1..]
  {}

  lemma FewerBefore(c: seq<int>, c': seq<int>, i: nat, k: nat, k': nat, w: int)
    requires i < |c| && c' == c[..i] + c[i + 1..] && k <= |c| && k' == (if k <= i then k else k - 1) && w !in c[..k]
    ensures w !in c'[..k']
  {
    if k <= i { assert c'[..k'] == c[..k]; }
    else { assert c[..k] == c[..i] + [c[i]] + c[i + 1..k] && c'[..k'] == c[..i] + c[i + 1..k]; }
  }

  // ---------- Every step keeps the invariant ----------

  lemma InvInRange(s: State, t: nat)
    requires Inv(s) && t < |s.threads|
    ensures InRange(s, t)
  {
    hide Passed, Legal, Replay, LocksOk;
    assert ThreadOk(s, s.threads[t]);
    match s.threads[t]
    case At(op, prev) => LinkInRange(s, prev, op.value);
    case _ =>
  }

  lemma LinkInRange(s: State, prev: nat, v: int)
    requires ChainOk(s) && Passed(s, prev, v)
    ensures prev < |s.next| && s.next[prev] < |s.next|
  {
    var i := Position(s, prev, v);
  }

  lemma LogMore(log: seq<Event>, e: Event)
    requires Legal(log) && e.result == Answer(Replay(log), e.op)
    ensures Legal(log + [e]) && Replay(log + [e]) == After(Replay(log), e.op)
  {
    assert (log + [e])[..|log|] == log;
  }

  /** What a look at prev's link tells about the whole list. */
  lemma LookTells(s: State, prev: nat, v: int)
    requires ChainOk(s) && Passed(s, prev, v)
    ensures prev < |s.next| && s.next[prev] < |s.next|
    ensures s.next[prev] == 0 ==> v !in Contents(s)
    ensures s.next[prev] != 0 && s.values[s.next[prev]] == v ==> v in Contents(s)
  {
    var i := Position(s, prev, v);
    if i + 1 < |s.chain| { assert Contents(s)[i] in Contents(s); }
  }

  /** The memory and the log after a step, for every operation that takes effect. */
  lemma EffectStep(s: State, c: Choice)
    requires Inv(s) && InRange(s, c.t)
    ensures var s' := Next(s, c);
      ChainOk(s') && Legal(s'.log) && Replay(s'.log) == Contents(s')
  {
    hide LocksOk, Legal, Replay, Passed, Without, Free;
    var s', pc := Next(s, c), s.threads[c.t];
    assert ThreadOk(s, pc);
    match pc
    case At(op, prev) =>
      LookTells(s, prev, op.value);
      WithoutAbsentHere(s, op);
      if s'.log != s.log { LogMore(s.log, s'.log[|s.log|]); }
      if s.next[prev] == 0 && op.Insert? { AppendChain(s, s', prev, op.value); } else { SameChain(s, s'); }
    case Unlink(op, prev, node) =>
      UnlinkChain(s, s', prev, node, op.value);
      LogMore(s.log, Event(op, true));
    case _ => SameChain(s, s');
  }

  lemma SameChain(s: State, s': State)
    requires ChainOk(s) && s'.values == s.values && s'.next == s.next && s'.chain == s.chain
    ensures ChainOk(s') && Contents(s') == Contents(s)
    ensures forall x, v :: Passed(s, x, v) <==> Passed(s', x, v)
  {}

  lemma WithoutAbsentHere(s: State, op: Op)
    requires ChainOk(s)
    ensures op.value !in Contents(s) ==> Without(Contents(s), op.value) == Contents(s)
  {
    if op.value !in Contents(s) { WithoutAbsent(Contents(s), op.value); }
  }

  /** The links of nodes that a thread holds exclusively change only by its own steps. */
  lemma LinksStep(s: State, c: Choice, u: nat, x: nat)
    requires Inv(s) && InRange(s, c.t) && u < |s.threads| && u != c.t && Holds(s.threads[u], x) && x < |s.next|
    ensures |Next(s, c).next| >= |s.next| && Next(s, c).next[x] == s.next[x]
    ensures |Next(s, c).values| == |Next(s, c).next| && Next(s, c).values[..|s.next|] == s.values
  {
    hide Legal, Replay, Passed, ChainOk, Free;
    assert ThreadOk(s, s.threads[c.t]) && Exclusive(s.threads[c.t], s.threads[u]);
  }

  /** What another thread has passed under its lock stays passed. */
  lemma PassedStep(s: State, c: Choice, u: nat, x: nat, w: int)
    requires Inv(s) && InRange(s, c.t) && u < |s.threads| && u != c.t && Holds(s.threads[u], x) && Passed(s, x, w)
    ensures ChainOk(Next(s, c)) && Passed(Next(s, c), x, w)
  {
    hide Legal, Replay, Free, Passed;
    var s', pc := Next(s, c), s.threads[c.t];
    EffectStep(s, c);
    assert ThreadOk(s, pc);
    match pc
    case At(op, prev) =>
      if s.next[prev] == 0 && op.Insert? {
        AppendChain(s, s', prev, op.value);
        PassedAppend(s, s', prev, op.value, x, w);
      } else {
        SameChain(s, s');
      }
    case Unlink(op, prev, node) =>
      UnlinkChain(s, s', prev, node, op.value);
      assert Exclusive(pc, s.threads[u]);
      var i :| 0 <= i < |s.chain| - 1 && CutAt(s.chain, s'.chain, prev, node, i);
      PassedUnlink(s, s', node, i, x, w);
    case _ => SameChain(s, s');
  }

  lemma OthersOk(s: State, c: Choice, u: nat)
    requires Inv(s) && InRange(s, c.t) && u < |s.threads| && u != c.t
    ensures ChainOk(Next(s, c)) && ThreadOk(Next(s, c), s.threads[u])
  {
    EffectStep(s, c);
    hide Legal, Replay, Passed, Next, ChainOk, Exclusive;
    var pc := s.threads[u];
    assert ThreadOk(s, pc);
    if !pc.Idle? && !pc.Enter? && !pc.Release? && !pc.Drop? {
      PassedStep(s, c, u, pc.prev, pc.op.value);
      PassedIsNode(s, pc.prev, pc.op.value);
      LinksStep(s, c, u, pc.prev);
    }
    if pc.Drop? { LinksStep(s, c, u, pc.prev); }
    if pc.Lock? || pc.Hand? || pc.Seize? || pc.Unlink? {
      assert Next(s, c).values[..|s.next|][pc.node] == s.values[pc.node];
    }
  }

  lemma PassedIsNode(s: State, x: nat, v: int)
    requires ChainOk(s) && Passed(s, x, v)
    ensures x < |s.next|
  {}

  /** Moving on to the next node, whose value was compared. */
  lemma PassedOne(s: State, prev: nat, node: nat, v: int)
    requires ChainOk(s) && Passed(s, prev, v) && s.next[prev] == node != 0 && node < |s.next| && s.values[node] != v
    ensures Passed(s, node, v)
  {
    var i := Position(s, prev, v);
    assert Contents(s)[..i + 1] == Contents(s)[..i] + [Contents(s)[i]];
    assert s.chain[i + 1] == node;
  }

  lemma PassedHead(s: State, v: int)
    requires ChainOk(s)
    ensures Passed(s, 0, v)
  {
    assert Contents(s)[..0] == [];
  }

  lemma OwnOk(s: State, c: Choice)
    requires Inv(s) && InRange(s, c.t)
    ensures ChainOk(Next(s, c)) && c.t < |Next(s, c).threads| && ThreadOk(Next(s, c), Next(s, c).threads[c.t])
  {
    hide Legal, Replay, Passed, Free, LocksOk;
    EffectStep(s, c);
    var s', pc := Next(s, c), s.threads[c.t];
    assert ThreadOk(s, pc);
    if s'.next == s.next && s'.values == s.values && s'.chain == s.chain { SameChain(s, s'); }
    match pc
    case Enter(op) => PassedHead(s', op.value);
    case Hand(op, prev, node) => PassedOne(s, prev, node, op.value);
    case _ =>
  }

  lemma LocksStep(s: State, c: Choice)
    requires Inv(s) && InRange(s, c.t)
    ensures LocksOk(Next(s, c))
  {
    hide Legal, Replay, Passed, ChainOk, Contents, Exclusive;
    var s' := Next(s, c);
    forall t, u | 0 <= t < |s'.threads| && 0 <= u < |s'.threads| && t != u
      ensures Exclusive(s'.threads[t], s'.threads[u])
    {
      assert Exclusive(s.threads[t], s.threads[u]);
      if t == c.t { StaysExclusive(s, c, u); }
      if u == c.t {
        ExclusiveSym(s.threads[t], s.threads[u]);
        StaysExclusive(s, c, t);
        ExclusiveSym(s'.threads[u], s'.threads[t]);
      }
    }
  }

  lemma ExclusiveSym(p: Pc, q: Pc)
    requires Exclusive(p, q)
    ensures Exclusive(q, p)
  {}

  /** A thread only adds a lock that is free. */
  lemma StaysExclusive(s: State, c: Choice, u: nat)
    requires InRange(s, c.t) && u < |s.threads| && u != c.t && Exclusive(s.threads[c.t], s.threads[u])
    ensures |Next(s, c).threads| == |s.threads| && Next(s, c).threads[u] == s.threads[u]
    ensures Exclusive(Next(s, c).threads[c.t], s.threads[u])
  {
    hide ChainOk, Contents;
  }

  lemma StepInv(s: State, c: Choice)
    requires Inv(s) && InRange(s, c.t)
    ensures Inv(Next(s, c))
  {
    EffectStep(s, c);
    LocksStep(s, c);
    SameOthers(s, c);
    OwnOk(s, c);
    hide Next, ChainOk, LocksOk, Legal, Replay, Contents, ThreadOk;
    var s' := Next(s, c);
    forall u | 0 <= u < |s'.threads| ensures ThreadOk(s', s'.threads[u]) {
      if u != c.t { OthersOk(s, c, u); }
    }
  }

  lemma SameOthers(s: State, c: Choice)
    requires InRange(s, c.t)
    ensures var s' := Next(s, c);
      |s'.threads| == |s.threads| && forall u :: 0 <= u < |s.threads| && u != c.t ==> s'.threads[u] == s.threads[u]
  {}

  lemma {:induction false} RunInv(s: State, schedule: seq<Choice>)
    requires Inv(s)
    ensures Inv(Run(s, schedule))
  {
    hide Inv, Next;
    if schedule != [] {
      var last := |schedule| - 1;
      RunInv(s, schedule[..last]);
      var r := Run(s, schedule[..last]);
      if InRange(r, schedule[last].t) { StepInv(r, schedule[last]); }
    }
  }

  // ---------- Linearizability ----------

  /** The call has taken effect, with this answer. */
  predicate Settled(pc: Pc, result: bool) {
    (pc.Release? && pc.result == result) || (pc.Drop? && result)
  }

  predicate Pending(pc: Pc) { !pc.Idle? && !Settled(pc, true) && !Settled(pc, false) }

  /**
   A call takes effect in exactly one step between its start and its return, and answers what was logged there: the
   log grows exactly when a pending call becomes settled, by that call and its answer.
   */
  lemma TakesEffectOnce(s: State, c: Choice)
    requires Inv(s) && InRange(s, c.t)
    ensures var s', pc := Next(s, c), s.threads[c.t];
      var pc' := s'.threads[c.t];
      && (Pending(pc) && !Pending(pc') ==>
            exists result :: Settled(pc', result) && pc'.op == pc.op && s'.log == s.log + [Event(pc.op, result)])
      && (!(Pending(pc) && !Pending(pc')) ==> s'.log == s.log)
      && (pc.Idle? ==> pc' == Enter(c.op))
      && (forall result :: Settled(pc, result) && !pc'.Idle? ==> Settled(pc', result) && pc'.op == pc.op)
      && (Pending(pc) && Pending(pc') ==> pc'.op == pc.op)
  {
    hide Legal, Replay, Passed, LocksOk, Free;
    assert ThreadOk(s, s.threads[c.t]);
    var pc' := Next(s, c).threads[c.t];
    assert pc'.Release? ==> Settled(pc', pc'.result);
    assert pc'.Drop? ==> Settled(pc', true);
  }

  /**
   Under every schedule the calls, in the order in which they took effect, got the answers of the sequential list, whose
   contents are what the links spell out; no value is reachable twice.
   */
  lemma Linearizable(numThreads: nat, schedule: seq<Choice>)
    ensures var s := Run(Init(numThreads), schedule);
      Legal(s.log) && ChainOk(s) && Contents(s) == Replay(s.log) && Distinct(Contents(s))
  {
    hide LocksOk, ThreadOk;
    InitInv(numThreads);
    RunInv(Init(numThreads), schedule);
    ReplayDistinct(Run(Init(numThreads), schedule).log);
  }

  lemma {:induction false} ReplayDistinct(log: seq<Event>)
    ensures Distinct(Replay(log))
  {
    if log != [] {
      ReplayDistinct(log[..|log| - 1]);
      SetSemantics(Replay(log[..|log| - 1]), log[|log| - 1].op, 0);
    }
  }

  /** How many calls of op were answered true. */
  function Successes(log: seq<Event>, op: Op): nat {
    if log == [] then 0
    else Successes(log[..|log| - 1], op) + if log[|log| - 1] == Event(op, true) then 1 else 0
  }

  /** Successful insertions of v outnumber successful erasures by one exactly while v is in the list. */
  lemma {:induction false} SuccessesBalance(log: seq<Event>, v: int)
    requires Legal(log)
    ensures Successes(log, Insert(v)) - Successes(log, Erase(v)) == if v in Replay(log) then 1 else 0
  {
    if log != [] {
      var before, op := log[..|log| - 1], log[|log| - 1].op;
      SuccessesBalance(before, v);
      ReplayDistinct(before);
      SetSemantics(Replay(before), op, v);
    }
  }

  lemma {:induction false} LegalPrefix(log: seq<Event>, k: nat)
    requires Legal(log) && k < |log|
    ensures Legal(log[..k]) && log[k].result == Answer(Replay(log[..k]), log[k].op)
  {
    if k < |log| - 1 {
      LegalPrefix(log[..|log| - 1], k);
      assert log[..|log| - 1][..k] == log[..k];
    }
  }

  /** v has been inserted once more than it has been erased, as the callers were told. */
  predicate Present(log: seq<Event>, v: int) {
    Successes(log, Insert(v)) == Successes(log, Erase(v)) + 1
  }

  /**
   What callers can tell from the answers alone, under every schedule: a value's successful insertions and erasures
   alternate, lookups answer true exactly in between, and the list holds what has been inserted and not erased since.
   */
  lemma AnswersAlone(numThreads: nat, schedule: seq<Choice>, k: nat)
    requires k < |Run(Init(numThreads), schedule).log|
    ensures var log := Run(Init(numThreads), schedule).log;
      var Event(op, result) := log[k];
      result <==> if op.Insert? then !Present(log[..k], op.value) else Present(log[..k], op.value)
  {
    hide Legal, Replay, Successes, Run, Distinct;
    Linearizable(numThreads, schedule);
    var log := Run(Init(numThreads), schedule).log;
    LegalPrefix(log, k);
    SuccessesBalance(log[..k], log[k].op.value);
  }

  lemma InsertedNotErased(numThreads: nat, schedule: seq<Choice>, v: int)
    ensures var s := Run(Init(numThreads), schedule);
      && ChainOk(s) && (v in Contents(s) <==> Present(s.log, v))
      && Successes(s.log, Insert(v)) - Successes(s.log, Erase(v)) == if v in Contents(s) then 1 else 0
  {
    hide Legal, Replay, Successes, Run, Distinct;
    Linearizable(numThreads, schedule);
    SuccessesBalance(Run(Init(numThreads), schedule).log, v);
  }

  // ---------- No deadlock ----------

  predicate Waits(s: State, t: nat, x: nat)
    requires t < |s.threads|
  {
    match s.threads[t]
    case Enter(op) => x == 0 && !Free(s, t, op, x)
    case Lock(op, _, node) => x == node && !Free(s, t, op, x)
    case Seize(op, _, node) => x == node && !Free(s, t, op, x)
    case _ => false
  }

  /** Lookups share locks: a lookup waits only for an insertion or an erasure, and these wait for whoever is there. */
  lemma WaitsOnlyFor(s: State, t: nat, x: nat)
    requires t < |s.threads|
    ensures Waits(s, t, x) <==>
      && Wants(s.threads[t], x)
      && exists u :: 0 <= u < |s.threads| && u != t && Holds(s.threads[u], x)
           && !(s.threads[t].op.Find? && s.threads[u].op.Find?)
  {}

  /** The thread is about to lock x. */
  predicate Wants(pc: Pc, x: nat) {
    (pc.Enter? && x == 0) || ((pc.Lock? || pc.Seize?) && x == pc.node)
  }

  predicate CanMove(s: State, t: nat) {
    t < |s.threads| && !s.threads[t].Idle? && !exists x :: 0 <= x < |s.next| && Waits(s, t, x)
  }

  lemma MoveMoves(s: State, t: nat, op: Op)
    requires Inv(s) && CanMove(s, t)
    ensures InRange(s, t) && Next(s, Choice(t, op)) != s
  {
    InvInRange(s, t);
    hide Legal, Replay, Passed, LocksOk, Free;
    assert ThreadOk(s, s.threads[t]);
    var pc := s.threads[t];
    match pc
    case Enter(o) => assert !Waits(s, t, 0);
    case Lock(o, prev, node) => assert !Waits(s, t, node);
    case Seize(o, prev, node) => assert !Waits(s, t, node);
    case At(o, prev) => assert Next(s, Choice(t, op)).threads[t] != pc;
    case _ =>
  }

  /** Whoever waits for a node further down the chain is waiting for somebody who can move. */
  lemma {:induction false} SomebodyAhead(s: State, t: nat, x: nat, i: nat)
    requires Inv(s) && t < |s.threads| && Waits(s, t, x) && i < |s.chain| && s.chain[i] == x
    ensures exists u :: 0 <= u < |s.threads| && CanMove(s, u)
    decreases |s.chain| - i
  {
    hide Legal, Replay, Passed, LocksOk;
    var u :| 0 <= u < |s.threads| && u != t && Holds(s.threads[u], x);
    if !CanMove(s, u) {
      var y :| 0 <= y < |s.next| && Waits(s, u, y);
      assert ThreadOk(s, s.threads[u]);
      NextOnChain(s, s.threads[u].prev, s.threads[u].op.value, i);
      SomebodyAhead(s, u, y, i + 1);
    }
  }

  lemma NextOnChain(s: State, x: nat, v: int, i: nat)
    requires ChainOk(s) && Passed(s, x, v) && i < |s.chain| && s.chain[i] == x && s.next[x] != 0
    ensures i + 1 < |s.chain| && s.chain[i + 1] == s.next[x]
  {
    var k := Position(s, x, v);
  }

  lemma SomebodyMoves(s: State, t: nat)
    requires Inv(s) && t < |s.threads| && !s.threads[t].Idle?
    ensures exists u :: 0 <= u < |s.threads| && CanMove(s, u)
  {
    hide Legal, Replay, Passed, LocksOk, Holds, Free;
    if !CanMove(s, t) {
      var x :| 0 <= x < |s.next| && Waits(s, t, x);
      assert ThreadOk(s, s.threads[t]);
      if s.threads[t].Enter? {
        SomebodyAhead(s, t, x, 0);
      } else {
        var i := Position(s, s.threads[t].prev, s.threads[t].op.value);
        SomebodyAhead(s, t, x, i + 1);
      }
    }
  }

  /** In every reachable state with a call under way, some call can make its next step. */
  lemma NoDeadlock(numThreads: nat, schedule: seq<Choice>, t: nat)
    requires var s := Run(Init(numThreads), schedule); t < |s.threads| && !s.threads[t].Idle?
    ensures var s := Run(Init(numThreads), schedule);
      exists u :: 0 <= u < |s.threads| && CanMove(s, u)
  {
    InitInv(numThreads);
    RunInv(Init(numThreads), schedule);
    SomebodyMoves(Run(Init(numThreads), schedule), t);
  }
}
