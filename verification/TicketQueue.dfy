/**
 The bounded queue with four monotone indices. Threads reserve a ticket by compare-and-swap, touch their slot, and
 publish their ticket in turn. A step is one atomic operation; loads may be stale by the time they are used, and a weak
 compare-and-swap may fail without reason. Indices do not overflow, as the queue's own comments assume.
 `pushed` and `popped` are history variables: the value each push ticket carries, and the value each pop ticket read.
 */
module TicketQueue {

  datatype Pc =
    | Outside
    | PushCheck(head: nat, value: int)      // about to load producer_tail
    | PushReserve(head: nat, value: int)    // about to advance producer_head
    | PushStore(ticket: nat, value: int)    // about to write the slot
    | PushPublish(ticket: nat)              // about to advance consumer_head
    | PopCheck(tail: nat)                   // about to load consumer_head
    | PopReserve(tail: nat)                 // about to advance consumer_tail
    | PopLoad(ticket: nat)                  // about to read the slot
    | PopPublish(ticket: nat, value: int)   // about to advance producer_tail

  datatype State = State(
    capacity: nat, slots: seq<int>,
    producerHead: nat, producerTail: nat, consumerHead: nat, consumerTail: nat,
    threads: seq<Pc>,
    pushed: seq<int>, popped: map<nat, int>)

  /** What a thread outside the queue calls next. */
  datatype Call = TryPush(value: int) | TryPop

  datatype Choice = Choice(t: nat, call: Call, spurious: bool)

  function Init(capacity: nat, numThreads: nat): State {
    State(capacity, seq(capacity, _ => 0), 0, 0, 0, 0, seq(numThreads, _ => Outside), [], map[])
  }

  predicate InRange(s: State, t: nat) {
    && t < |s.threads| && |s.slots| == s.capacity
    && (s.threads[t].PushStore? || s.threads[t].PopLoad? ==> s.capacity > 0)
  }

  function Goto(s: State, t: nat, pc: Pc): State
    requires t < |s.threads|
  {
    s.(threads := s.threads[t := pc])
  }

  function Next(s: State, c: Choice): State
    requires InRange(s, c.t)
  {
    var t := c.t;
    match s.threads[t]
    case Outside =>
      (match c.call
       case TryPush(value) => Goto(s, t, PushCheck(s.producerHead, value))
       case TryPop => Goto(s, t, PopCheck(s.consumerTail)))
    case PushCheck(head, value) =>
      Goto(s, t, if head + 1 > s.producerTail + s.capacity then Outside else PushReserve(head, value))
    case PushReserve(head, value) =>
      if s.producerHead != head || c.spurious then Goto(s, t, PushCheck(s.producerHead, value))
      else Goto(s, t, PushStore(head, value)).(producerHead := head + 1, pushed := s.pushed + [value])
    case PushStore(ticket, value) =>
      Goto(s, t, PushPublish(ticket)).(slots := s.slots[ticket % s.capacity := value])
    case PushPublish(ticket) =>
      if s.consumerHead != ticket || c.spurious then s
      else Goto(s, t, Outside).(consumerHead := ticket + 1)
    case PopCheck(tail) =>
      Goto(s, t, if tail + 1 > s.consumerHead then Outside else PopReserve(tail))
    case PopReserve(tail) =>
      if s.consumerTail != tail || c.spurious then Goto(s, t, PopCheck(s.consumerTail))
      else Goto(s, t, PopLoad(tail)).(consumerTail := tail + 1)
    case PopLoad(ticket) =>
      var value := s.slots[(ticket + 1) % s.capacity];
      Goto(s, t, PopPublish(ticket, value)).(popped := s.popped[ticket := value])
    case PopPublish(ticket, _) =>
      if s.producerTail != ticket || c.spurious then s
      else Goto(s, t, Outside).(producerTail := ticket + 1)
  }

  function Run(s: State, schedule: seq<Choice>): State {
    if schedule == [] then s
    else
      var last := |schedule| - 1;
      var r := Run(s, schedule[..last]);
      if InRange(r, schedule[last].t) then Next(r, schedule[last]) else r
  }

  // ---------- The invariant ----------

  function PushTicket(pc: Pc): int {
    if pc.PushStore? || pc.PushPublish? then pc.ticket else -1
  }

  function PopTicket(pc: Pc): int {
    if pc.PopLoad? || pc.PopPublish? then pc.ticket else -1
  }

  predicate Order(s: State) {
    s.producerTail <= s.consumerTail <= s.consumerHead <= s.producerHead <= s.producerTail + s.capacity
  }

  /** A stale index is a lower bound, and what the check established stays true. */
  predicate PcOk(s: State, pc: Pc) {
    match pc
    case Outside => true
    case PushCheck(head, _) => head <= s.producerHead
    case PushReserve(head, _) => head <= s.producerHead && head + 1 <= s.producerTail + s.capacity
    case PushStore(ticket, value) =>
      s.consumerHead <= ticket < |s.pushed| == s.producerHead && s.pushed[ticket] == value
    case PushPublish(ticket) => s.consumerHead <= ticket < s.producerHead
    case PopCheck(tail) => tail <= s.consumerTail
    case PopReserve(tail) => tail <= s.consumerTail && tail + 1 <= s.consumerHead
    case PopLoad(ticket) => s.producerTail <= ticket < s.consumerTail
    case PopPublish(ticket, _) => s.producerTail <= ticket < s.consumerTail
  }

  predicate PushOwned(s: State, h: nat) {
    exists t :: 0 <= t < |s.threads| && PushTicket(s.threads[t]) == h
  }

  predicate PopOwned(s: State, h: nat) {
    exists t :: 0 <= t < |s.threads| && PopTicket(s.threads[t]) == h
  }

  /** Every reserved and unpublished ticket has exactly one owner. */
  predicate Tickets(s: State) {
    && (forall h {:trigger PushOwned(s, h)} :: s.consumerHead <= h < s.producerHead ==> PushOwned(s, h))
    && (forall h {:trigger PopOwned(s, h)} :: s.producerTail <= h < s.consumerTail ==> PopOwned(s, h))
    && (forall t, u :: 0 <= t < |s.threads| && 0 <= u < |s.threads| && t != u ==> Apart(s.threads[t], s.threads[u]))
  }

  predicate Apart(p: Pc, q: Pc) {
    && (PushTicket(p) >= 0 ==> PushTicket(p) != PushTicket(q))
    && (PopTicket(p) >= 0 ==> PopTicket(p) != PopTicket(q))
  }

  /** Ticket h has been reserved and its value written. */
  predicate Stored(s: State, h: nat) {
    h < s.producerHead && forall t :: 0 <= t < |s.threads| ==> !(s.threads[t].PushStore? && s.threads[t].ticket == h)
  }

  /** A slot holds the value of the last ticket that was written there, or its initial value. */
  predicate SlotHolds(s: State, h: nat)
    requires s.capacity > 0 && |s.slots| == s.capacity && |s.pushed| == s.producerHead
  {
    && (Stored(s, h) && !Stored(s, h + s.capacity) ==> s.slots[h % s.capacity] == s.pushed[h])
    && (h < s.capacity && !Stored(s, h) ==> s.slots[h] == 0)
  }

  ghost predicate SlotsOk(s: State) {
    && |s.slots| == s.capacity && |s.pushed| == s.producerHead
    && (s.capacity > 0 ==> forall h :: 0 <= h ==> SlotHolds(s, h))
  }

  /** What a pop ticket can have read: it looks one slot further than the push with its number wrote. */
  predicate ReadOk(s: State, h: nat)
    requires h in s.popped
  {
    && s.capacity > 0
    && (|| (h + 1 < |s.pushed| && s.capacity > 1 && s.popped[h] == s.pushed[h + 1])
        || (h + 1 >= s.capacity && h + 1 - s.capacity < |s.pushed| && s.popped[h] == s.pushed[h + 1 - s.capacity])
        || (h + 1 < s.capacity && s.popped[h] == 0))
  }

  predicate PoppedOk(s: State) {
    && (forall h :: h in s.popped ==> h < s.consumerTail && ReadOk(s, h))
    && (forall t :: 0 <= t < |s.threads| ==> HasRead(s, s.threads[t]))
    && (forall h :: 0 <= h < s.producerTail ==> h in s.popped)
  }

  /** A ticket is read once, and its owner keeps the value. */
  predicate HasRead(s: State, pc: Pc) {
    && (pc.PopLoad? ==> pc.ticket !in s.popped)
    && (pc.PopPublish? ==> pc.ticket in s.popped && s.popped[pc.ticket] == pc.value)
  }

  ghost predicate Inv(s: State) {
    && Order(s) && Tickets(s) && SlotsOk(s) && PoppedOk(s)
    && forall t :: 0 <= t < |s.threads| ==> PcOk(s, s.threads[t])
  }

  lemma InitInv(capacity: nat, numThreads: nat)
    ensures Inv(Init(capacity, numThreads))
  {}

  lemma InvInRange(s: State, t: nat)
    requires Inv(s) && t < |s.threads|
    ensures InRange(s, t)
  {
    hide Tickets, PoppedOk;
    assert PcOk(s, s.threads[t]);
  }

  lemma OrderStep(s: State, c: Choice)
    requires Order(s) && InRange(s, c.t) && PcOk(s, s.threads[c.t])
    ensures var s' := Next(s, c);
      && Order(s') && s.producerTail <= s'.producerTail && s.consumerTail <= s'.consumerTail
      && s.consumerHead <= s'.consumerHead && s.producerHead <= s'.producerHead
  {}

  lemma SizesStep(s: State, c: Choice)
    requires InRange(s, c.t) && |s.pushed| == s.producerHead
    ensures var s' := Next(s, c);
      && |s'.pushed| == s'.producerHead && |s'.slots| == s'.capacity == s.capacity
      && |s.pushed| <= |s'.pushed| && s'.pushed[..|s.pushed|] == s.pushed
      && |s'.threads| == |s.threads| && (forall u :: 0 <= u < |s.threads| && u != c.t ==> s'.threads[u] == s.threads[u])
  {}

  lemma IndicesStep(s: State, c: Choice)
    requires Inv(s) && InRange(s, c.t)
    ensures var s' := Next(s, c);
      && Order(s') && |s'.pushed| == s'.producerHead && |s'.slots| == s'.capacity == s.capacity
      && s.producerTail <= s'.producerTail && s.consumerTail <= s'.consumerTail
      && s.consumerHead <= s'.consumerHead && s.producerHead <= s'.producerHead
      && |s.pushed| <= |s'.pushed| && s'.pushed[..|s.pushed|] == s.pushed
      && |s'.threads| == |s.threads| && (forall u :: 0 <= u < |s.threads| && u != c.t ==> s'.threads[u] == s.threads[u])
  {
    hide Next, Tickets, PoppedOk, Order, PcOk;
    assert PcOk(s, s.threads[c.t]);
    OrderStep(s, c);
    SizesStep(s, c);
  }

  predicate IsPush(pc: Pc) { pc.PushCheck? || pc.PushReserve? || pc.PushStore? || pc.PushPublish? }

  lemma OwnPushOk(s: State, c: Choice)
    requires Order(s) && InRange(s, c.t) && |s.pushed| == s.producerHead && PcOk(s, s.threads[c.t])
    requires IsPush(s.threads[c.t])
    ensures c.t < |Next(s, c).threads| && PcOk(Next(s, c), Next(s, c).threads[c.t])
  {}

  lemma OwnPopOk(s: State, c: Choice)
    requires Order(s) && InRange(s, c.t) && PcOk(s, s.threads[c.t]) && !IsPush(s.threads[c.t])
    ensures c.t < |Next(s, c).threads| && PcOk(Next(s, c), Next(s, c).threads[c.t])
  {}

  /** The thread that moves: what it needs for its next operation. */
  lemma OwnOk(s: State, c: Choice)
    requires Order(s) && InRange(s, c.t) && |s.pushed| == s.producerHead && PcOk(s, s.threads[c.t])
    ensures c.t < |Next(s, c).threads| && PcOk(Next(s, c), Next(s, c).threads[c.t])
  {
    hide Next, PcOk, Order;
    if IsPush(s.threads[c.t]) { OwnPushOk(s, c); } else { OwnPopOk(s, c); }
  }

  /** A step moves at most one index, by one, from the ticket of the thread that moves. */
  lemma IndexMoves(s: State, c: Choice)
    requires InRange(s, c.t)
    ensures var s', pc := Next(s, c), s.threads[c.t];
      && s'.capacity == s.capacity
      && (s'.consumerHead != s.consumerHead ==> PushTicket(pc) == s.consumerHead == s'.consumerHead - 1)
      && (s'.producerTail != s.producerTail ==> PopTicket(pc) == s.producerTail == s'.producerTail - 1)
  {}

  lemma OtherPcOk(s: State, s': State, p: Pc, q: Pc)
    requires PcOk(s, q) && Apart(q, p) && |s.pushed| == s.producerHead && |s'.pushed| == s'.producerHead
    requires s.producerTail <= s'.producerTail && s.consumerTail <= s'.consumerTail
    requires s.consumerHead <= s'.consumerHead && s.producerHead <= s'.producerHead && s'.capacity == s.capacity
    requires |s.pushed| <= |s'.pushed| && s'.pushed[..|s.pushed|] == s.pushed
    requires s'.consumerHead != s.consumerHead ==> PushTicket(p) == s.consumerHead == s'.consumerHead - 1
    requires s'.producerTail != s.producerTail ==> PopTicket(p) == s.producerTail == s'.producerTail - 1
    ensures PcOk(s', q)
  {
    if q.PushStore? { assert s'.pushed[..|s.pushed|][q.ticket] == s'.pushed[q.ticket]; }
  }

  lemma OthersOk(s: State, c: Choice, u: nat)
    requires Inv(s) && InRange(s, c.t) && u < |s.threads|
    ensures u < |Next(s, c).threads| && PcOk(Next(s, c), Next(s, c).threads[u])
  {
    hide Next, PoppedOk, PcOk, Order, PushOwned, PopOwned, SlotHolds, Apart;
    IndicesStep(s, c);
    assert PcOk(s, s.threads[c.t]) && PcOk(s, s.threads[u]);
    if u == c.t {
      OwnOk(s, c);
    } else {
      assert Apart(s.threads[u], s.threads[c.t]);
      IndexMoves(s, c);
      OtherPcOk(s, Next(s, c), s.threads[c.t], s.threads[u]);
    }
  }

  lemma PushesOwned(s: State, c: Choice, h: nat)
    requires Tickets(s) && InRange(s, c.t) && PcOk(s, s.threads[c.t]) && s.consumerHead <= s.producerHead
    ensures Next(s, c).consumerHead <= h < Next(s, c).producerHead ==> PushOwned(Next(s, c), h)
  {
    hide Apart, Run;
    var s', t := Next(s, c), c.t;
    if s'.consumerHead <= h < s'.producerHead {
      if h == s.producerHead {
        assert PushTicket(s'.threads[t]) == h;
      } else {
        assert PushOwned(s, h);
        var u :| 0 <= u < |s.threads| && PushTicket(s.threads[u]) == h;
        assert PushTicket(s'.threads[u]) == h;
      }
    }
  }

  lemma PopsOwned(s: State, c: Choice, h: nat)
    requires Tickets(s) && InRange(s, c.t) && PcOk(s, s.threads[c.t]) && s.producerTail <= s.consumerTail
    ensures Next(s, c).producerTail <= h < Next(s, c).consumerTail ==> PopOwned(Next(s, c), h)
  {
    hide Apart, Run;
    var s', t := Next(s, c), c.t;
    if s'.producerTail <= h < s'.consumerTail {
      if h == s.consumerTail {
        assert PopTicket(s'.threads[t]) == h;
      } else {
        assert PopOwned(s, h);
        var u :| 0 <= u < |s.threads| && PopTicket(s.threads[u]) == h;
        assert PopTicket(s'.threads[u]) == h;
      }
    }
  }

  /** The tickets a thread has after its step: none, the same, or the next one. */
  lemma NewTickets(s: State, c: Choice)
    requires InRange(s, c.t)
    ensures c.t < |Next(s, c).threads|
    ensures var pc, pc' := s.threads[c.t], Next(s, c).threads[c.t];
      && (PushTicket(pc') == -1 || PushTicket(pc') == PushTicket(pc) || PushTicket(pc') == s.producerHead)
      && (PopTicket(pc') == -1 || PopTicket(pc') == PopTicket(pc) || PopTicket(pc') == s.consumerTail)
  {}

  lemma TicketBounds(s: State, pc: Pc)
    requires PcOk(s, pc)
    ensures PushTicket(pc) < s.producerHead && PopTicket(pc) < s.consumerTail
  {}

  /** Whatever t does, it does not take a ticket that a thread already has. */
  lemma StaysApart(s: State, c: Choice, v: nat)
    requires InRange(s, c.t) && v < |s.threads| && v != c.t
    requires Apart(s.threads[c.t], s.threads[v]) && PcOk(s, s.threads[v])
    ensures c.t < |Next(s, c).threads| && Apart(Next(s, c).threads[c.t], s.threads[v])
  {
    NewTickets(s, c);
    TicketBounds(s, s.threads[v]);
    hide Next, PcOk, InRange;
  }

  lemma TicketsStep(s: State, c: Choice)
    requires Inv(s) && InRange(s, c.t)
    ensures Tickets(Next(s, c))
  {
    hide SlotsOk, PoppedOk, PcOk, PushOwned, PopOwned, Next, Apart;
    var s' := Next(s, c);
    IndicesStep(s, c);
    assert PcOk(s, s.threads[c.t]);
    forall h | s'.consumerHead <= h < s'.producerHead ensures PushOwned(s', h) { PushesOwned(s, c, h); }
    forall h | s'.producerTail <= h < s'.consumerTail ensures PopOwned(s', h) { PopsOwned(s, c, h); }
    forall u, v | 0 <= u < |s'.threads| && 0 <= v < |s'.threads| && u != v
      ensures Apart(s'.threads[u], s'.threads[v])
    {
      assert Apart(s.threads[u], s.threads[v]) && PcOk(s, s.threads[u]) && PcOk(s, s.threads[v]);
      if u == c.t { StaysApart(s, c, v); }
      if v == c.t {
        assert Apart(s.threads[v], s.threads[u]);
        StaysApart(s, c, u);
        ApartSym(s'.threads[v], s'.threads[u]);
      }
    }
  }

  lemma ApartSym(p: Pc, q: Pc)
    requires Apart(p, q)
    ensures Apart(q, p)
  {}

  // ---------- Slots ----------

  lemma Multiples(k: int, d: int)
    requires k > 0
    ensures d >= 1 ==> k * d >= k
    ensures d <= -1 ==> k * d <= -k
  {}

  lemma Remainders(k: int, p: int, x: nat, q: int, y: nat, d: int)
    requires x < k && y < k && k * p + x == k * q + y + d && -k < d < k
    ensures d == 0 ==> x == y
    ensures d != 0 ==> x != y
  {
    assert k * (p - q) == y - x + d by { assert k * (p - q) == k * p - k * q; }
    Multiples(k, p - q);
  }

  lemma ModDiffers(g: nat, h: nat, k: nat)
    requires g < h < g + k
    ensures g % k != h % k
  {
    Remainders(k, h / k, h % k, g / k, g % k, h - g);
  }

  lemma ModShift(g: nat, k: nat)
    requires k > 0
    ensures (g + k) % k == g % k
  {
    assert k * (g / k + 1) == k * (g / k) + k;
    Remainders(k, (g + k) / k, (g + k) % k, g / k + 1, g % k, 0);
  }

  /** Whatever was published has been stored; what is stored can only grow. */
  lemma PublishedStored(s: State, h: nat)
    requires Inv(s) && h < s.consumerHead
    ensures Stored(s, h)
  {
    hide SlotsOk, PoppedOk, Tickets;
    forall t | 0 <= t < |s.threads| ensures !(s.threads[t].PushStore? && s.threads[t].ticket == h) {
      assert PcOk(s, s.threads[t]);
    }
  }

  /** Who is about to store, and how far tickets have been reserved, after a step. */
  lemma StoresStep(s: State, c: Choice)
    requires InRange(s, c.t) && |s.pushed| == s.producerHead
    ensures var s', pc := Next(s, c), s.threads[c.t];
      && |s'.threads| == |s.threads| && (forall u :: 0 <= u < |s.threads| && u != c.t ==> s'.threads[u] == s.threads[u])
      && (s'.threads[c.t].PushStore? ==>
            s'.threads[c.t].ticket == s.producerHead && s'.producerHead == s.producerHead + 1)
      && (!s'.threads[c.t].PushStore? ==> s'.producerHead == s.producerHead)
  {}

  lemma StoredStep(s: State, c: Choice, h: nat)
    requires Inv(s) && InRange(s, c.t)
    ensures Stored(Next(s, c), h) <==>
      Stored(s, h) || (s.threads[c.t].PushStore? && s.threads[c.t].ticket == h)
  {
    hide PoppedOk, Order, Next, SlotHolds, PushOwned, PopOwned;
    StoresStep(s, c);
    var s', t := Next(s, c), c.t;
    assert PcOk(s, s.threads[t]);
    if s.threads[t].PushStore? && s.threads[t].ticket == h {
      forall u | 0 <= u < |s'.threads| ensures !(s'.threads[u].PushStore? && s'.threads[u].ticket == h) {
        if u != t { assert Apart(s.threads[t], s.threads[u]); }
      }
    } else if Stored(s, h) {
      forall u | 0 <= u < |s'.threads| ensures !(s'.threads[u].PushStore? && s'.threads[u].ticket == h) {
        if u != t { assert s'.threads[u] == s.threads[u]; }
      }
    } else if h < s.producerHead {
      var u :| 0 <= u < |s.threads| && s.threads[u].PushStore? && s.threads[u].ticket == h;
      assert s'.threads[u] == s.threads[u];
    }
  }

  lemma SlotsStep(s: State, c: Choice, h: nat)
    requires Inv(s) && InRange(s, c.t) && s.capacity > 0
    ensures var s' := Next(s, c);
      s'.capacity > 0 && |s'.slots| == s'.capacity && |s'.pushed| == s'.producerHead && SlotHolds(s', h)
  {
    hide Tickets, PoppedOk;
    var s', pc, k := Next(s, c), s.threads[c.t], s.capacity;
    IndicesStep(s, c);
    StoredStep(s, c, h);
    StoredStep(s, c, h + k);
    assert SlotHolds(s, h) && PcOk(s, pc);
    if pc.PushStore? && s.threads[c.t].ticket != h {
      SlotKept(s, c, h);
    }
    assert Stored(s', h) ==> s'.pushed[h] == s'.pushed[..|s.pushed|][h] || h == |s.pushed|;
  }

  /** A store touches no slot whose content is still accounted to another ticket. */
  lemma SlotKept(s: State, c: Choice, h: nat)
    requires Inv(s) && InRange(s, c.t) && s.capacity > 0
    requires s.threads[c.t].PushStore? && s.threads[c.t].ticket != h
    ensures Stored(s, h) && !Stored(Next(s, c), h + s.capacity) ==>
      Next(s, c).slots[h % s.capacity] == s.slots[h % s.capacity]
    ensures h < s.capacity && !Stored(s, h) ==> Next(s, c).slots[h] == s.slots[h]
  {
    hide SlotsOk, Tickets, PoppedOk;
    var g, k := s.threads[c.t].ticket, s.capacity;
    assert PcOk(s, s.threads[c.t]);
    StoredStep(s, c, h + k);
    if h + k < s.consumerHead { PublishedStored(s, h + k); }
    else if h + k < g { ModShift(h, k); ModDiffers(h + k, g, k); }
    else if h < g < h + k { ModDiffers(h, g, k); }
    else if g < h < g + k { ModDiffers(g, h, k); }
    if h < s.consumerHead { PublishedStored(s, h); }
    if h < k { SmallMod(h, k); }
  }

  lemma SmallMod(h: nat, k: nat)
    requires h < k
    ensures h % k == h
  {}

  /** The value a pop reads is that of ticket t+1 if that was stored, and otherwise what was in its slot before. */
  lemma LoadReads(s: State, h: nat)
    requires Inv(s) && s.capacity > 0 && s.producerTail <= h < s.consumerTail
    ensures var x := s.slots[(h + 1) % s.capacity];
      || (h + 1 < |s.pushed| && s.capacity > 1 && x == s.pushed[h + 1])
      || (h + 1 >= s.capacity && h + 1 - s.capacity < |s.pushed| && x == s.pushed[h + 1 - s.capacity])
      || (h + 1 < s.capacity && x == 0)
  {
    hide Tickets, PoppedOk;
    var k := s.capacity;
    assert SlotHolds(s, h + 1);
    if !Stored(s, h + 1) {
      if h + 1 >= k {
        var g := h + 1 - k;
        assert SlotHolds(s, g);
        PublishedStored(s, g);
        ModShift(g, k);
      } else {
        SmallMod(h + 1, k);
      }
    }
  }

  lemma ReadStays(s: State, c: Choice, h: nat)
    requires h in s.popped && ReadOk(s, h) && InRange(s, c.t)
    requires h in Next(s, c).popped && Next(s, c).popped[h] == s.popped[h]
    ensures ReadOk(Next(s, c), h)
  {}

  lemma PoppedStep(s: State, c: Choice)
    requires Inv(s) && InRange(s, c.t)
    ensures PoppedOk(Next(s, c))
  {
    hide Tickets, SlotsOk, ReadOk;
    var s', pc := Next(s, c), s.threads[c.t];
    IndicesStep(s, c);
    assert PcOk(s, pc);
    if pc.PopLoad? { NowRead(s, c); }
    PoppedTickets(s, c);
    hide Inv, PcOk;
    forall h | h in s'.popped ensures h < s'.consumerTail && ReadOk(s', h) {
      if !(pc.PopLoad? && h == pc.ticket) { ReadStays(s, c, h); }
    }
  }

  lemma PoppedTickets(s: State, c: Choice)
    requires Inv(s) && InRange(s, c.t)
    ensures var s' := Next(s, c);
      && (forall t :: 0 <= t < |s'.threads| ==> HasRead(s', s'.threads[t]))
      && (forall h :: 0 <= h < s'.producerTail ==> h in s'.popped)
  {
    hide ReadOk, Order, PushOwned, PopOwned, SlotsOk, Next, HasRead, Apart;
    var s' := Next(s, c);
    assert PcOk(s, s.threads[c.t]) && HasRead(s, s.threads[c.t]);
    ReadsStep(s, c);
    AddsOne(s, c);
    PublishedReads(s, c);
    IndicesStep(s, c);
    forall t | 0 <= t < |s'.threads| ensures HasRead(s', s'.threads[t]) {
      assert HasRead(s, s.threads[t]) && PcOk(s, s.threads[t]);
      if t != c.t {
        assert Apart(s.threads[c.t], s.threads[t]);
        OthersReads(s, s', s.threads[c.t], s.threads[t]);
      }
    }
  }

  lemma ReadsStep(s: State, c: Choice)
    requires InRange(s, c.t) && HasRead(s, s.threads[c.t])
    requires forall h :: h in s.popped ==> h < s.consumerTail
    ensures c.t < |Next(s, c).threads| && HasRead(Next(s, c), Next(s, c).threads[c.t])
  {}

  /** At most one entry is added, under the ticket of the thread that reads. */
  lemma AddsOne(s: State, c: Choice)
    requires InRange(s, c.t)
    ensures Added(s, Next(s, c), s.threads[c.t])
  {}

  /** The index moves past a ticket once it was read. */
  lemma PublishedReads(s: State, c: Choice)
    requires PoppedOk(s) && InRange(s, c.t) && HasRead(s, s.threads[c.t])
    ensures forall h :: 0 <= h < Next(s, c).producerTail ==> h in Next(s, c).popped
  {
    hide ReadOk;
  }

  predicate Added(s: State, s': State, pc: Pc) {
    s'.popped == s.popped
    || (pc.PopLoad? && pc.ticket in s'.popped && s'.popped == s.popped[pc.ticket := s'.popped[pc.ticket]])
  }

  lemma OthersReads(s: State, s': State, p: Pc, q: Pc)
    requires Added(s, s', p) && Apart(p, q) && HasRead(s, q)
    ensures HasRead(s', q)
  {}

  lemma NowRead(s: State, c: Choice)
    requires Inv(s) && InRange(s, c.t) && s.threads[c.t].PopLoad?
    ensures s.threads[c.t].ticket in Next(s, c).popped && ReadOk(Next(s, c), s.threads[c.t].ticket)
  {
    hide Tickets, SlotsOk, PoppedOk;
    assert PcOk(s, s.threads[c.t]);
    LoadReads(s, s.threads[c.t].ticket);
  }

  /** Safety over every schedule. */
  lemma StepInv(s: State, c: Choice)
    requires Inv(s) && InRange(s, c.t)
    ensures Inv(Next(s, c))
  {
    hide Next, Tickets, PoppedOk, SlotHolds, Stored, PcOk;
    IndicesStep(s, c);
    TicketsStep(s, c);
    PoppedStep(s, c);
    var s' := Next(s, c);
    if s.capacity > 0 {
      forall h | 0 <= h ensures SlotHolds(s', h) { SlotsStep(s, c, h); }
    }
    forall u | 0 <= u < |s'.threads| ensures PcOk(s', s'.threads[u]) { OthersOk(s, c, u); }
  }

  lemma {:induction false} RunInv(s: State, schedule: seq<Choice>)
    requires Inv(s)
    ensures Inv(Run(s, schedule)) && Run(s, schedule).capacity == s.capacity
  {
    hide Inv;
    if schedule != [] {
      var last := |schedule| - 1;
      RunInv(s, schedule[..last]);
      var r := Run(s, schedule[..last]);
      if InRange(r, schedule[last].t) { StepInv(r, schedule[last]); }
    }
  }

  // ---------- What follows ----------

  /** The stated index invariant, and the bound by the capacity, in every reachable state. */
  lemma IndexInvariant(capacity: nat, numThreads: nat, schedule: seq<Choice>)
    ensures Order(Run(Init(capacity, numThreads), schedule))
  {
    InitInv(capacity, numThreads);
    RunInv(Init(capacity, numThreads), schedule);
  }

  /** Each reserved ticket has one owner, and pushes in flight write to different slots. */
  lemma OneOwner(s: State, t: nat, u: nat)
    requires Inv(s) && t < |s.threads| && u < |s.threads| && t != u
    requires PushTicket(s.threads[t]) >= 0 && PushTicket(s.threads[u]) >= 0
    ensures PushTicket(s.threads[t]) != PushTicket(s.threads[u])
    ensures s.capacity > 0 && PushTicket(s.threads[t]) % s.capacity != PushTicket(s.threads[u]) % s.capacity
  {
    hide SlotsOk, PoppedOk;
    assert Apart(s.threads[t], s.threads[u]);
    assert PcOk(s, s.threads[t]) && PcOk(s, s.threads[u]);
    var g, h := PushTicket(s.threads[t]), PushTicket(s.threads[u]);
    if g < h { ModDiffers(g, h, s.capacity); } else { ModDiffers(h, g, s.capacity); }
  }

  /** Tickets are published in order: an index moves by one, by the owner of the ticket it stood at, work done. */
  lemma PublishedInOrder(s: State, c: Choice)
    requires Inv(s) && InRange(s, c.t)
    ensures var s', pc := Next(s, c), s.threads[c.t];
      && (s'.consumerHead != s.consumerHead ==>
            s'.consumerHead == s.consumerHead + 1 && pc == PushPublish(s.consumerHead) && Stored(s, s.consumerHead))
      && (s'.producerTail != s.producerTail ==>
            s'.producerTail == s.producerTail + 1 && PopTicket(pc) == s.producerTail && pc.PopPublish?
            && s.producerTail in s.popped && s.popped[s.producerTail] == pc.value)
  {
    hide SlotsOk, Order;
    var pc := s.threads[c.t];
    assert PcOk(s, pc);
    if pc == PushPublish(s.consumerHead) {
      forall u | 0 <= u < |s.threads| ensures !(s.threads[u].PushStore? && s.threads[u].ticket == s.consumerHead) {
        if u != c.t { assert Apart(pc, s.threads[u]); }
      }
    }
  }

  /** A call that holds no ticket yet. */
  predicate Undecided(pc: Pc) { pc.PushCheck? || pc.PushReserve? || pc.PopCheck? || pc.PopReserve? }

  /**
   A call fails only at an instant when all slots are reserved, or nothing is published, and it does fail when its check
   finds that. A reservation that fails leads back to the check with the index as it is now; a call that has a ticket
   can leave only by publishing it.
   */
  lemma GivesUpOnlyWhen(s: State, c: Choice)
    requires Inv(s) && InRange(s, c.t)
    ensures var s', pc := Next(s, c), s.threads[c.t];
      var pc' := s'.threads[c.t];
      && (IsPush(pc) && Undecided(pc) && pc' == Outside ==> s.producerHead == s.producerTail + s.capacity)
      && (!IsPush(pc) && Undecided(pc) && pc' == Outside ==> s.consumerTail == s.consumerHead)
      && (pc.PushCheck? ==>
            (pc' == Outside <==> s.producerHead == s.producerTail + s.capacity && pc.head == s.producerHead))
      && (pc.PopCheck? ==> (pc' == Outside <==> s.consumerTail == s.consumerHead && pc.tail == s.consumerTail))
      && (pc.PushReserve? && PushTicket(pc') < 0 ==> pc' == PushCheck(s.producerHead, pc.value))
      && (pc.PopReserve? && PopTicket(pc') < 0 ==> pc' == PopCheck(s.consumerTail))
      && (PushTicket(pc) >= 0 && PushTicket(pc') < 0 ==> pc' == Outside && s'.consumerHead == pc.ticket + 1)
      && (PopTicket(pc) >= 0 && PopTicket(pc') < 0 ==> pc' == Outside && s'.producerTail == pc.ticket + 1)
  {
    hide SlotsOk, PoppedOk, Tickets;
    assert PcOk(s, s.threads[c.t]);
  }

  /** A reservation succeeds unless another thread was first or the compare-and-swap is spurious. */
  lemma ReservesUnless(s: State, c: Choice)
    requires Inv(s) && InRange(s, c.t)
    ensures var s', pc := Next(s, c), s.threads[c.t];
      var pc' := s'.threads[c.t];
      && (pc.PushReserve? ==> (PushTicket(pc') >= 0 <==> pc.head == s.producerHead && !c.spurious))
      && (pc.PopReserve? ==> (PopTicket(pc') >= 0 <==> pc.tail == s.consumerTail && !c.spurious))
  {
    hide SlotsOk, PoppedOk, Tickets;
    assert PcOk(s, s.threads[c.t]);
  }

  /** The value of a push until it is stored. */
  predicate Brings(pc: Pc, value: int) { (pc.PushCheck? || pc.PushReserve? || pc.PushStore?) && pc.value == value }

  /**
   A push carries the value it was called with until it has stored it, and enters it under its ticket; a pop enters what
   it reads, once, under its ticket and carries it until it returns. No other step touches the two records.
   */
  lemma CallsKeepValues(s: State, c: Choice)
    requires Inv(s) && InRange(s, c.t)
    ensures var s', pc := Next(s, c), s.threads[c.t];
      var pc' := s'.threads[c.t];
      && (pc == Outside && c.call.TryPush? ==> Brings(pc', c.call.value))
      && (forall v :: Brings(pc, v) ==>
            Brings(pc', v) || (PushTicket(pc) < 0 && pc' == Outside)
            || (pc' == PushPublish(pc.ticket) && s'.slots == s.slots[pc.ticket % s.capacity := v]))
      && (PushTicket(pc) < 0 <= PushTicket(pc') ==>
            PushTicket(pc') == |s.pushed| && pc'.PushStore? && s'.pushed == s.pushed + [pc'.value])
      && (!(PushTicket(pc) < 0 <= PushTicket(pc')) ==> s'.pushed == s.pushed)
      && (pc'.PopPublish? && pc' != pc ==>
            && pc == PopLoad(pc'.ticket) && pc'.ticket !in s.popped && s'.popped == s.popped[pc'.ticket := pc'.value]
            && pc'.value == s.slots[(pc'.ticket + 1) % s.capacity])
      && (!(pc'.PopPublish? && pc' != pc) ==> s'.popped == s.popped)
      && (pc.PopPublish? ==> (pc' == pc || pc' == Outside) && pc.ticket in s.popped && s.popped[pc.ticket] == pc.value)
  {
    hide Tickets, SlotHolds, Order;
    assert PcOk(s, s.threads[c.t]) && HasRead(s, s.threads[c.t]);
  }

  /**
   The owner of the ticket whose turn it is stores its value or publishes, unless its compare-and-swap is spurious.
   */
  predicate PushTurn(s: State, t: nat) {
    && InRange(s, t) && PushTicket(s.threads[t]) == s.consumerHead
    && var s' := Next(s, Choice(t, TryPop, false));
       || (s'.threads[t] == PushPublish(s.consumerHead) && s.threads[t].PushStore?)
       || s'.consumerHead == s.consumerHead + 1
  }

  predicate PopTurn(s: State, t: nat) {
    && InRange(s, t) && PopTicket(s.threads[t]) == s.producerTail
    && var s' := Next(s, Choice(t, TryPop, false));
       || (s'.threads[t].PopPublish? && s.threads[t].PopLoad? && PopTicket(s'.threads[t]) == s.producerTail)
       || s'.producerTail == s.producerTail + 1
  }

  /** No publisher waits in vain: while a ticket is unpublished, the thread whose turn it is can move. */
  lemma TurnCanBeTaken(s: State)
    requires Inv(s)
    ensures s.consumerHead < s.producerHead ==> exists t :: 0 <= t < |s.threads| && PushTurn(s, t)
    ensures s.producerTail < s.consumerTail ==> exists t :: 0 <= t < |s.threads| && PopTurn(s, t)
  {
    hide SlotHolds, PoppedOk, PcOk, Order;
    if s.consumerHead < s.producerHead {
      assert PushOwned(s, s.consumerHead);
      var t :| 0 <= t < |s.threads| && PushTicket(s.threads[t]) == s.consumerHead;
      InvInRange(s, t);
      assert PushTurn(s, t);
    }
    if s.producerTail < s.consumerTail {
      assert PopOwned(s, s.producerTail);
      var t :| 0 <= t < |s.threads| && PopTicket(s.threads[t]) == s.producerTail;
      InvInRange(s, t);
      assert PopTurn(s, t);
    }
  }

  // ---------- Values ----------

  /** First in, first out: what a pop ticket read is what the push ticket of the same number brought. */
  predicate Fifo(s: State) {
    forall h :: h in s.popped ==> h < |s.pushed| && s.popped[h] == s.pushed[h]
  }

  /** The first k operations of one thread that pushes 7 and then pops. */
  function PushThenPop(k: nat): seq<Choice> {
    if k == 0 then []
    else PushThenPop(k - 1) + [Choice(0, if k == 1 then TryPush(7) else TryPop, false)]
  }

  lemma ThenNext(s: State, k: nat)
    requires k > 0 && InRange(Run(s, PushThenPop(k - 1)), 0)
    ensures Run(s, PushThenPop(k)) ==
      Next(Run(s, PushThenPop(k - 1)), Choice(0, if k == 1 then TryPush(7) else TryPop, false))
  {
    assert PushThenPop(k)[..k - 1] == PushThenPop(k - 1) by { ScriptLength(k - 1); ScriptLength(k); }
    ScriptLength(k);
    ScriptLength(k - 1);
  }

  lemma {:induction false} ScriptLength(k: nat)
    ensures |PushThenPop(k)| == k
  {
    if k > 0 { ScriptLength(k - 1); }
  }

  /** With two slots or more the pop reads the slot after the one the push wrote, and finds it empty. */
  lemma WrongSlot(capacity: nat, numThreads: nat)
    requires capacity >= 2 && numThreads >= 1
    ensures var s := Run(Init(capacity, numThreads), PushThenPop(9));
      s.pushed == [7] && 0 in s.popped && s.popped[0] == 0
  {
    hide Run, PushThenPop;
    var i := Init(capacity, numThreads);
    PushPart(capacity, numThreads);
    var pushed := i.(slots := i.slots[0 := 7], producerHead := 1, consumerHead := 1, pushed := [7]);
    ThenNext(i, 6);
    ThenNext(i, 7);
    assert Run(i, PushThenPop(7)) == Goto(pushed, 0, PopReserve(0));
    ThenNext(i, 8);
    ThenNext(i, 9);
    SmallMod(1, capacity);
  }

  lemma PushPart(capacity: nat, numThreads: nat)
    requires capacity >= 2 && numThreads >= 1
    ensures var i := Init(capacity, numThreads);
      Run(i, PushThenPop(5)) == i.(slots := i.slots[0 := 7], producerHead := 1, consumerHead := 1, pushed := [7])
  {
    var i := Init(capacity, numThreads);
    assert Run(i, PushThenPop(0)) == i;
    hide Run, PushThenPop;
    ThenNext(i, 1);
    ThenNext(i, 2);
    assert Run(i, PushThenPop(2)) == Goto(i, 0, PushReserve(0, 7));
    ThenNext(i, 3);
    ThenNext(i, 4);
    SmallMod(0, capacity);
    assert Run(i, PushThenPop(4)) ==
      Goto(i, 0, PushPublish(0)).(slots := i.slots[0 := 7], producerHead := 1, pushed := [7]);
    ThenNext(i, 5);
    assert Run(i, PushThenPop(5)).threads == i.threads;
  }

  /** Values come out first in, first out under every schedule exactly when there is at most one slot. */
  lemma FifoIffOneSlot(capacity: nat, numThreads: nat)
    requires numThreads >= 1
    ensures (forall schedule :: Fifo(Run(Init(capacity, numThreads), schedule))) <==> capacity <= 1
  {
    var i := Init(capacity, numThreads);
    if capacity >= 2 {
      WrongSlot(capacity, numThreads);
      assert !Fifo(Run(i, PushThenPop(9)));
    } else {
      forall schedule ensures Fifo(Run(i, schedule)) {
        InitInv(capacity, numThreads);
        RunInv(i, schedule);
        var s := Run(i, schedule);
        forall h | h in s.popped ensures h < |s.pushed| && s.popped[h] == s.pushed[h] { assert ReadOk(s, h); }
      }
    }
  }
}
