/**
 The priority queue addressable by key: a binary heap whose slot 0 is unused, and an index from keys to slots, where 0
 means absent. `greater` picks the comparison: std::greater puts the smallest value on top, std::less the largest.
 */
module IndexedHeap {

  datatype Entry = Entry(key: nat, value: real)

  datatype Slots = Slots(heap: seq<Entry>, index: seq<nat>)

  /** a comes after b in the order of removal. */
  predicate Comp(greater: bool, a: real, b: real) { if greater then a > b else a < b }

  predicate KeysOk(s: Slots) {
    s.heap != [] && forall i :: 1 <= i < |s.heap| ==> s.heap[i].key < |s.index|
  }

  /** The index is the exact inverse of the heap's keys. */
  predicate Indexed(s: Slots) {
    && KeysOk(s)
    && (forall i :: 1 <= i < |s.heap| ==> s.index[s.heap[i].key] == i)
    && (forall k {:trigger s.index[k]} :: 0 <= k < |s.index| && s.index[k] != 0 ==>
          s.index[k] < |s.heap| && s.heap[s.index[k]].key == k)
  }

  /** The queue as a map from keys to priorities. */
  ghost function Contents(s: Slots): map<nat, real>
    requires Indexed(s)
  {
    map k | 0 <= k < |s.index| && s.index[k] != 0 :: s.heap[s.index[k]].value
  }

  predicate OrderedAt(greater: bool, heap: seq<Entry>, j: nat)
    requires 2 <= j < |heap|
  {
    !Comp(greater, heap[j / 2].value, heap[j].value)
  }

  /** No entry should be removed before its parent. */
  predicate Ordered(greater: bool, heap: seq<Entry>) {
    forall j :: 2 <= j < |heap| ==> OrderedAt(greater, heap, j)
  }

  function Put(s: Slots, i: nat, e: Entry): Slots
    requires i < |s.heap| && e.key < |s.index|
  {
    Slots(s.heap[i := e], s.index[e.key := i])
  }

  /** What sift-up leaves behind: the hole at i moves up until e fits. */
  function Up(greater: bool, s: Slots, i: nat, e: Entry): (r: Slots)
    requires KeysOk(s) && 0 < i < |s.heap| && e.key < |s.index|
    ensures |r.heap| == |s.heap| && |r.index| == |s.index|
    decreases i
  {
    if i / 2 > 0 && Comp(greater, s.heap[i / 2].value, e.value) then Up(greater, Put(s, i, s.heap[i / 2]), i / 2, e)
    else Put(s, i, e)
  }

  function BetterChild(greater: bool, heap: seq<Entry>, i: nat): (c: nat)
    requires 2 * i + 1 < |heap|
    ensures c == 2 * i || c == 2 * i + 1
  {
    if Comp(greater, heap[2 * i].value, heap[2 * i + 1].value) then 2 * i + 1 else 2 * i
  }

  /**
   What sift-down leaves behind: the hole at i moves down until e fits. A lone child in the last slot is not looked at.
   */
  function Down(greater: bool, s: Slots, i: nat, e: Entry): (r: Slots)
    requires KeysOk(s) && 0 < i < |s.heap| && e.key < |s.index|
    ensures |r.heap| == |s.heap| && |r.index| == |s.index|
    decreases |s.heap| - i
  {
    if 2 * i < |s.heap| - 1 then
      var c := BetterChild(greater, s.heap, i);
      if !Comp(greater, e.value, s.heap[c].value) then Put(s, i, e)
      else Down(greater, Put(s, i, s.heap[c]), c, e)
    else Put(s, i, e)
  }

  // ---------- A hole filled with e behaves like a swap ----------

  /** Moving the entry of slot p into the hole at i, and the hole to p, keeps the index and the contents. */
  lemma MoveHole(s: Slots, i: nat, p: nat, e: Entry)
    requires KeysOk(s) && 0 < i < |s.heap| && 0 < p < |s.heap| && p != i && e.key < |s.index|
    requires Indexed(Put(s, i, e))
    ensures var t := Put(s, i, s.heap[p]);
      KeysOk(t) && Indexed(Put(t, p, e)) && Contents(Put(t, p, e)) == Contents(Put(s, i, e))
  {
    var v, t := Put(s, i, e), Put(s, i, s.heap[p]);
    var w := Put(t, p, e);
    assert v.heap[i] == e && v.heap[p] == s.heap[p] && v.heap[p].key != e.key;
    forall j | 1 <= j < |w.heap| ensures w.heap[j].key < |w.index| && w.index[w.heap[j].key] == j {
      assert v.index[v.heap[j].key] == j;
    }
    forall k | 0 <= k < |w.index| && w.index[k] != 0
      ensures w.index[k] < |w.heap| && w.heap[w.index[k]].key == k && v.index[k] != 0
      ensures w.heap[w.index[k]].value == v.heap[v.index[k]].value
    {
      assert v.index[k] == if k == e.key then i else if k == s.heap[p].key then p else w.index[k];
    }
    forall k | 0 <= k < |v.index| && v.index[k] != 0 ensures w.index[k] != 0 {}
  }

  // ---------- Sift-up ----------

  /** Only the pair of the hole and its parent may be out of order, and the parent goes before the hole's children. */
  predicate UpHole(greater: bool, v: seq<Entry>, i: nat) {
    && 0 < i < |v|
    && (forall j :: 2 <= j < |v| && j != i ==> OrderedAt(greater, v, j))
    && (forall c :: 2 <= c < |v| && c / 2 == i && i >= 2 ==> !Comp(greater, v[i / 2].value, v[c].value))
  }

  lemma UpHoleMoves(greater: bool, v: seq<Entry>, i: nat)
    requires UpHole(greater, v, i) && i / 2 > 0 && Comp(greater, v[i / 2].value, v[i].value)
    ensures UpHole(greater, v[i := v[i / 2]][i / 2 := v[i]], i / 2)
  {
    var p := i / 2;
    var w := v[i := v[p]][p := v[i]];
    assert p >= 2 ==> OrderedAt(greater, v, p);
    forall j | 2 <= j < |w| && j != p ensures OrderedAt(greater, w, j) {
      if j != i { assert OrderedAt(greater, v, j); }
    }
    forall c | 2 <= c < |w| && c / 2 == p && p >= 2 ensures !Comp(greater, w[p / 2].value, w[c].value) {
      if c != i { assert OrderedAt(greater, v, c); }
    }
  }

  lemma {:induction false} UpRestores(greater: bool, s: Slots, i: nat, e: Entry)
    requires KeysOk(s) && 0 < i < |s.heap| && e.key < |s.index|
    requires Indexed(Put(s, i, e)) && UpHole(greater, Put(s, i, e).heap, i)
    ensures var r := Up(greater, s, i, e);
      Indexed(r) && Ordered(greater, r.heap) && Contents(r) == Contents(Put(s, i, e))
    decreases i
  {
    hide Indexed, Contents, UpHole;
    var p := i / 2;
    if p > 0 && Comp(greater, s.heap[p].value, e.value) {
      var t, v := Put(s, i, s.heap[p]), Put(s, i, e).heap;
      MoveHole(s, i, p, e);
      UpHoleMoves(greater, v, i);
      assert Put(t, p, e).heap == v[i := v[p]][p := v[i]];
      UpRestores(greater, t, p, e);
    } else {
      UpFits(greater, Put(s, i, e).heap, i);
    }
  }

  lemma UpFits(greater: bool, v: seq<Entry>, i: nat)
    requires UpHole(greater, v, i) && (i / 2 > 0 ==> !Comp(greater, v[i / 2].value, v[i].value))
    ensures Ordered(greater, v)
  {
    forall j | 2 <= j < |v| ensures OrderedAt(greater, v, j) {}
  }

  // ---------- Sift-down ----------

  /** Only the hole and its children may be out of order, and the hole's parent goes before those children. */
  predicate DownHole(greater: bool, v: seq<Entry>, i: nat) {
    && 0 < i < |v|
    && (forall j :: 2 <= j < |v| && j / 2 != i ==> OrderedAt(greater, v, j))
    && (forall c :: 2 <= c < |v| && c / 2 == i && i >= 2 ==> !Comp(greater, v[i / 2].value, v[c].value))
  }

  lemma DownHoleMoves(greater: bool, v: seq<Entry>, i: nat, c: nat)
    requires DownHole(greater, v, i) && 2 <= c < |v| && c / 2 == i && Comp(greater, v[i].value, v[c].value)
    requires forall d :: 2 <= d < |v| && d / 2 == i ==> !Comp(greater, v[c].value, v[d].value)
    ensures DownHole(greater, v[i := v[c]][c := v[i]], c)
  {
    var w := v[i := v[c]][c := v[i]];
    forall j | 2 <= j < |w| && j / 2 != c ensures OrderedAt(greater, w, j) {
      if j / 2 != i { assert OrderedAt(greater, v, j); }
    }
    forall d | 2 <= d < |w| && d / 2 == c ensures !Comp(greater, w[c / 2].value, w[d].value) {
      assert OrderedAt(greater, v, d);
    }
  }

  lemma DownFits(greater: bool, v: seq<Entry>, i: nat)
    requires DownHole(greater, v, i)
    ensures Ordered(greater, v) <==> forall c :: 2 <= c < |v| && c / 2 == i ==> !Comp(greater, v[i].value, v[c].value)
  {
    if forall c :: 2 <= c < |v| && c / 2 == i ==> !Comp(greater, v[i].value, v[c].value) {
      forall j | 2 <= j < |v| ensures OrderedAt(greater, v, j) {}
    } else {
      var c :| 2 <= c < |v| && c / 2 == i && Comp(greater, v[i].value, v[c].value);
      assert !OrderedAt(greater, v, c);
    }
  }

  /** No child of i goes before the child that was picked. */
  lemma BetterThanBoth(greater: bool, heap: seq<Entry>, i: nat, c: nat, d: nat)
    requires 2 * i + 1 < |heap| && c == BetterChild(greater, heap, i) && d / 2 == i
    ensures !Comp(greater, heap[c].value, heap[d].value)
  {}

  /** The heap without its last slot, and without the key that is being removed. */
  function Cut(s: Slots, removed: nat): Slots
    requires s.heap != [] && removed < |s.index|
  {
    Slots(s.heap[..|s.heap| - 1], s.index[removed := 0])
  }

  /** Sifting the last entry down while it still occupies the last slot, as `pop` does. */
  lemma {:induction false} DownForPop(greater: bool, s: Slots, i: nat, e: Entry, removed: nat)
    requires KeysOk(s) && 0 < i < |s.heap| - 1 && e.key < |s.index| && removed < |s.index| && e.key != removed
    requires s.heap[|s.heap| - 1] == e
    requires Indexed(Put(Cut(s, removed), i, e)) && DownHole(greater, Put(Cut(s, removed), i, e).heap, i)
    ensures var r := Cut(Down(greater, s, i, e), removed);
      Indexed(r) && Ordered(greater, r.heap) && Contents(r) == Contents(Put(Cut(s, removed), i, e))
    decreases |s.heap| - i
  {
    hide Indexed, Contents, DownHole, Ordered;
    var end, cut := |s.heap| - 1, Cut(s, removed);
    if 2 * i < end && Comp(greater, e.value, s.heap[BetterChild(greater, s.heap, i)].value) {
      var c := BetterChild(greater, s.heap, i);
      var t := Put(s, i, s.heap[c]);
      PassesDown(greater, s, i, c, e, removed);
      OtherKey(cut, i, e, removed, c);
      MoveHole(cut, i, c, e);
      DownForPop(greater, t, c, e, removed);
    } else {
      CutOfPut(s, i, e, removed);
      StopsInCut(greater, s.heap, i, e);
    }
  }

  lemma CutOfPut(s: Slots, i: nat, e: Entry, removed: nat)
    requires 0 < i < |s.heap| - 1 && e.key < |s.index| && removed < |s.index| && e.key != removed
    ensures Cut(Put(s, i, e), removed) == Put(Cut(s, removed), i, e)
  {}

  /** The hole passes down to the better child, which is not the last slot. */
  lemma PassesDown(greater: bool, s: Slots, i: nat, c: nat, e: Entry, removed: nat)
    requires KeysOk(s) && 0 < i && 2 * i < |s.heap| - 1 && c == BetterChild(greater, s.heap, i)
    requires e.key < |s.index| && removed < |s.index| && e.key != removed && s.heap[|s.heap| - 1] == e
    requires Indexed(Put(Cut(s, removed), i, e)) && DownHole(greater, Put(Cut(s, removed), i, e).heap, i)
    requires Comp(greater, e.value, s.heap[c].value)
    ensures c < |s.heap| - 1 && s.heap[c].key < |s.index| && s.heap[c].key != removed
    ensures Cut(Put(s, i, s.heap[c]), removed) == Put(Cut(s, removed), i, s.heap[c])
    ensures DownHole(greater, Put(Cut(Put(s, i, s.heap[c]), removed), c, e).heap, c)
  {
    hide Indexed, DownHole;
    var cut := Cut(s, removed);
    var v := Put(cut, i, e).heap;
    OtherKey(cut, i, e, removed, c);
    CutKeys(s, removed);
    CutOfPut(s, i, s.heap[c], removed);
    forall d | 2 <= d < |v| && d / 2 == i ensures !Comp(greater, v[c].value, v[d].value) {
      BetterThanBoth(greater, s.heap, i, c, d);
    }
    DownHoleMoves(greater, v, i, c);
    assert Put(Put(cut, i, s.heap[c]), c, e).heap == v[i := v[c]][c := v[i]];
  }

  lemma CutKeys(s: Slots, removed: nat)
    requires KeysOk(s) && |s.heap| > 1 && removed < |s.index|
    ensures KeysOk(Cut(s, removed))
  {}

  /** Where the loop stops, the heap without its last slot is ordered. */
  lemma StopsInCut(greater: bool, heap: seq<Entry>, i: nat, e: Entry)
    requires 0 < i < |heap| - 1 && DownHole(greater, heap[..|heap| - 1][i := e], i)
    requires 2 * i < |heap| - 1 ==> !Comp(greater, e.value, heap[BetterChild(greater, heap, i)].value)
    ensures Ordered(greater, heap[..|heap| - 1][i := e])
  {
    hide DownHole, Ordered;
    var v := heap[..|heap| - 1][i := e];
    forall d | 2 <= d < |v| && d / 2 == i ensures !Comp(greater, v[i].value, v[d].value) {
      BetterThanBoth(greater, heap, i, BetterChild(greater, heap, i), d);
    }
    DownFits(greater, v, i);
  }

  lemma OtherKey(cut: Slots, i: nat, e: Entry, removed: nat, c: nat)
    requires i < |cut.heap| && e.key < |cut.index| && Indexed(Put(cut, i, e)) && 0 < c < |cut.heap| && c != i
    requires removed < |cut.index| && cut.index[removed] == 0 && e.key != removed
    ensures KeysOk(cut) ==> cut.heap[c].key != removed
    ensures 0 < i ==> KeysOk(cut) || cut.heap[i].key >= |cut.index|
  {
    var v := Put(cut, i, e);
    assert v.index[v.heap[c].key] == c && v.index[removed] == 0;
    if 0 < i && cut.heap[i].key < |cut.index| {
      forall j | 1 <= j < |cut.heap| ensures cut.heap[j].key < |cut.index| { assert v.heap[j].key < |v.index|; }
    }
  }

  /** The slots the hole can pass from i on, always following the better child. */
  predicate OnDescent(greater: bool, heap: seq<Entry>, i: nat, target: nat)
    decreases |heap| - i
  {
    i == target || (0 < i && 2 * i < |heap| - 1 && OnDescent(greater, heap, BetterChild(greater, heap, i), target))
  }

  /**
   When sift-down misses the last slot: the number of entries is even, so that slot is a lone child; its parent lies on
   the descent from slot i; and the new value belongs below it.
   */
  predicate SkipsLast(greater: bool, heap: seq<Entry>, i: nat, value: real) {
    && |heap| >= 3 && (|heap| - 1) % 2 == 0
    && OnDescent(greater, heap, i, (|heap| - 1) / 2)
    && Comp(greater, value, heap[|heap| - 1].value)
  }

  lemma {:induction false} DescentKeepsOrder(greater: bool, heap: seq<Entry>, i: nat, target: nat)
    requires Ordered(greater, heap) && 0 < i < |heap| && OnDescent(greater, heap, i, target)
    ensures target < |heap| && !Comp(greater, heap[i].value, heap[target].value)
    decreases |heap| - i
  {
    if i != target {
      var c := BetterChild(greater, heap, i);
      assert OrderedAt(greater, heap, c);
      DescentKeepsOrder(greater, heap, c, target);
    }
  }

  /** The descent does not depend on slots above its start. */
  lemma {:induction false} DescentSame(greater: bool, heap: seq<Entry>, heap': seq<Entry>, i: nat, target: nat)
    requires |heap'| == |heap| && forall j :: i < j < |heap| ==> heap'[j] == heap[j]
    ensures OnDescent(greater, heap', i, target) == OnDescent(greater, heap, i, target)
    decreases |heap| - i
  {
    if i != target && 0 < i && 2 * i < |heap| - 1 {
      DescentSame(greater, heap, heap', BetterChild(greater, heap, i), target);
    }
  }

  lemma OpenHole(greater: bool, heap: seq<Entry>, i: nat, e: Entry)
    requires Ordered(greater, heap) && 0 < i < |heap| && Comp(greater, e.value, heap[i].value)
    ensures DownHole(greater, heap[i := e], i)
  {
    var v := heap[i := e];
    assert i >= 2 ==> OrderedAt(greater, heap, i);
    forall j | 2 <= j < |v| && j / 2 != i ensures OrderedAt(greater, v, j) { assert OrderedAt(greater, heap, j); }
    forall c | 2 <= c < |v| && c / 2 == i && i >= 2 ensures !Comp(greater, v[i / 2].value, v[c].value) {
      assert OrderedAt(greater, heap, c);
    }
  }

  /** The better child moved up leaves an ordered heap, in which its value stands twice. */
  lemma ChildUp(greater: bool, heap: seq<Entry>, i: nat, c: nat)
    requires Ordered(greater, heap) && 0 < i && 2 * i + 1 < |heap| && c == BetterChild(greater, heap, i)
    ensures Ordered(greater, heap[i := heap[c]])
  {
    var v := heap[i := heap[c]];
    assert i >= 2 ==> OrderedAt(greater, heap, i);
    assert OrderedAt(greater, heap, c);
    forall j | 2 <= j < |v| ensures OrderedAt(greater, v, j) { assert OrderedAt(greater, heap, j); }
  }

  /** Sifting down in place restores the order exactly when it does not miss the last slot. */
  lemma {:induction false} DownForChange(greater: bool, s: Slots, i: nat, e: Entry)
    requires KeysOk(s) && 0 < i < |s.heap| && e.key < |s.index|
    requires Indexed(Put(s, i, e)) && Ordered(greater, s.heap) && Comp(greater, e.value, s.heap[i].value)
    ensures var r := Down(greater, s, i, e);
      && Indexed(r) && Contents(r) == Contents(Put(s, i, e))
      && (Ordered(greater, r.heap) <==> !SkipsLast(greater, s.heap, i, e.value))
    decreases |s.heap| - i
  {
    hide Indexed, Contents, DownHole, Ordered, SkipsLast;
    var end := |s.heap| - 1;
    if 2 * i < end && Comp(greater, e.value, s.heap[BetterChild(greater, s.heap, i)].value) {
      var c := BetterChild(greater, s.heap, i);
      MoveHole(s, i, c, e);
      ChildUp(greater, s.heap, i, c);
      SkipsBelow(greater, s.heap, i, c, e.value);
      DownForChange(greater, Put(s, i, s.heap[c]), c, e);
    } else {
      StopsHere(greater, s.heap, i, e);
    }
  }

  /** One step of the descent does not change whether the last slot is missed. */
  lemma SkipsBelow(greater: bool, heap: seq<Entry>, i: nat, c: nat, value: real)
    requires 0 < i && 2 * i < |heap| - 1 && c == BetterChild(greater, heap, i)
    ensures SkipsLast(greater, heap[i := heap[c]], c, value) <==> SkipsLast(greater, heap, i, value)
  {
    DescentSame(greater, heap, heap[i := heap[c]], c, (|heap| - 1) / 2);
  }

  /** Where the loop stops, the order is restored unless the last slot was missed. */
  lemma StopsHere(greater: bool, heap: seq<Entry>, i: nat, e: Entry)
    requires Ordered(greater, heap) && 0 < i < |heap| && Comp(greater, e.value, heap[i].value)
    requires 2 * i < |heap| - 1 ==> !Comp(greater, e.value, heap[BetterChild(greater, heap, i)].value)
    ensures Ordered(greater, heap[i := e]) <==> !SkipsLast(greater, heap, i, e.value)
  {
    hide DownHole, Ordered;
    var end, v := |heap| - 1, heap[i := e];
    OpenHole(greater, heap, i, e);
    DownFits(greater, v, i);
    if 2 * i < end {
      var c := BetterChild(greater, heap, i);
      forall d | 2 <= d < |v| && d / 2 == i ensures !Comp(greater, heap[c].value, v[d].value) {
        BetterThanBoth(greater, heap, i, c, d);
      }
      assert Ordered(greater, v);
      if OnDescent(greater, heap, c, end / 2) { LastBelow(greater, heap, c); }
      assert end % 2 == 0 ==> i != end / 2;
    } else {
      assert 2 * i == end ==> v[end] == heap[end] && end / 2 == i && 2 <= end < |v|;
      assert forall d :: 2 <= d < |v| && d / 2 == i ==> d == end;
    }
  }

  lemma LastBelow(greater: bool, heap: seq<Entry>, c: nat)
    requires Ordered(greater, heap) && 0 < c < |heap| && OnDescent(greater, heap, c, (|heap| - 1) / 2) && |heap| >= 3
    ensures !Comp(greater, heap[c].value, heap[|heap| - 1].value)
  {
    DescentKeepsOrder(greater, heap, c, (|heap| - 1) / 2);
    assert OrderedAt(greater, heap, |heap| - 1);
  }

  // ---------- The top ----------

  /** Nothing in an ordered heap goes before its top. */
  lemma {:induction false} TopIsExtremal(greater: bool, heap: seq<Entry>, i: nat)
    requires Ordered(greater, heap) && 1 <= i < |heap|
    ensures !Comp(greater, heap[1].value, heap[i].value)
  {
    if i > 1 {
      assert OrderedAt(greater, heap, i);
      TopIsExtremal(greater, heap, i / 2);
    }
  }

  /** Two entries in a max-heap; lowering the top one below the other leaves it on top. */
  lemma LoweredTopStays()
    ensures var s := Slots([Entry(0, 0.0), Entry(0, 5.0), Entry(1, 3.0)], [1, 2]);
      && Indexed(s) && Ordered(false, s.heap) && SkipsLast(false, s.heap, 1, 1.0)
      && var r := Down(false, s, 1, Entry(0, 1.0));
         !Ordered(false, r.heap) && r.heap[1] == Entry(0, 1.0) && Comp(false, r.heap[1].value, r.heap[2].value)
  {
    var s := Slots([Entry(0, 0.0), Entry(0, 5.0), Entry(1, 3.0)], [1, 2]);
    var r := Down(false, s, 1, Entry(0, 1.0));
    assert OnDescent(false, s.heap, 1, 1);
    assert !OrderedAt(false, r.heap, 2);
  }

  // ---------- Starting points ----------

  lemma PushStart(greater: bool, s: Slots, e: Entry)
    requires Indexed(s) && Ordered(greater, s.heap) && e.key < |s.index| && s.index[e.key] == 0
    ensures var t, i := Slots(s.heap + [Entry(0, 0.0)], s.index), |s.heap|;
      && KeysOk(t) && Indexed(Put(t, i, e)) && UpHole(greater, Put(t, i, e).heap, i)
      && Contents(Put(t, i, e)) == Contents(s)[e.key := e.value]
  {
    var t := Slots(s.heap + [Entry(0, 0.0)], s.index);
    PushKeys(s, t, e);
    AppendedHole(greater, s.heap, Put(t, |s.heap|, e).heap);
  }

  lemma PushKeys(s: Slots, t: Slots, e: Entry)
    requires Indexed(s) && e.key < |s.index| && s.index[e.key] == 0
    requires t == Slots(s.heap + [Entry(0, 0.0)], s.index)
    ensures KeysOk(t) && Indexed(Put(t, |s.heap|, e))
    ensures Contents(Put(t, |s.heap|, e)) == Contents(s)[e.key := e.value]
  {
    var i := |s.heap|;
    var v := Put(t, i, e);
    assert v.heap == s.heap + [e];
    forall j | 1 <= j < |v.heap| ensures v.heap[j].key < |v.index| && v.index[v.heap[j].key] == j {
      if j < i { assert s.index[s.heap[j].key] == j; }
    }
    forall k | 0 <= k < |v.index| && v.index[k] != 0 ensures v.index[k] < |v.heap| && v.heap[v.index[k]].key == k {
      if k != e.key { assert s.index[k] != 0; }
    }
  }

  lemma AppendedHole(greater: bool, heap: seq<Entry>, v: seq<Entry>)
    requires heap != [] && Ordered(greater, heap) && |v| == |heap| + 1 && v[..|heap|] == heap
    ensures UpHole(greater, v, |heap|)
  {
    forall j | 2 <= j < |v| && j != |heap| ensures OrderedAt(greater, v, j) {
      assert OrderedAt(greater, heap, j) && v[..|heap|][j] == v[j] && v[..|heap|][j / 2] == v[j / 2];
    }
  }

  lemma ChangeStart(s: Slots, e: Entry)
    requires Indexed(s) && e.key < |s.index| && s.index[e.key] != 0
    ensures var i := s.index[e.key];
      0 < i < |s.heap| && Indexed(Put(s, i, e)) && Contents(Put(s, i, e)) == Contents(s)[e.key := e.value]
  {
    var i := s.index[e.key];
    var v := Put(s, i, e);
    forall k | 0 <= k < |v.index| && v.index[k] != 0 ensures v.index[k] < |v.heap| && v.heap[v.index[k]].key == k {
      assert s.index[k] != 0;
    }
  }

  lemma ChangeUpStart(greater: bool, s: Slots, i: nat, e: Entry)
    requires Ordered(greater, s.heap) && 0 < i < |s.heap| && !Comp(greater, e.value, s.heap[i].value)
    ensures UpHole(greater, s.heap[i := e], i)
  {
    var v := s.heap[i := e];
    assert i >= 2 ==> OrderedAt(greater, s.heap, i);
    forall j | 2 <= j < |v| && j != i ensures OrderedAt(greater, v, j) { assert OrderedAt(greater, s.heap, j); }
    forall c | 2 <= c < |v| && c / 2 == i && i >= 2 ensures !Comp(greater, v[i / 2].value, v[c].value) {
      assert OrderedAt(greater, s.heap, c);
    }
  }

  lemma PopStart(greater: bool, s: Slots)
    requires Indexed(s) && Ordered(greater, s.heap) && |s.heap| > 2
    ensures var end := |s.heap| - 1;
      var e, removed := s.heap[end], s.heap[1].key;
      && removed < |s.index| && e.key < |s.index| && e.key != removed && KeysOk(s)
      && Indexed(Put(Cut(s, removed), 1, e)) && DownHole(greater, Put(Cut(s, removed), 1, e).heap, 1)
      && Contents(Put(Cut(s, removed), 1, e)) == Contents(s) - {removed}
  {
    PopKeys(s);
    PopHole(greater, s.heap);
  }

  lemma PopKeys(s: Slots)
    requires Indexed(s) && |s.heap| > 2
    ensures var end := |s.heap| - 1;
      var e, removed := s.heap[end], s.heap[1].key;
      && removed < |s.index| && e.key < |s.index| && e.key != removed
      && Indexed(Put(Cut(s, removed), 1, e))
      && Contents(Put(Cut(s, removed), 1, e)) == Contents(s) - {removed}
  {
    var end := |s.heap| - 1;
    var e, removed := s.heap[end], s.heap[1].key;
    assert s.index[removed] == 1 && s.index[e.key] == end;
    var v := Put(Cut(s, removed), 1, e);
    forall j | 1 <= j < |v.heap| ensures v.heap[j].key < |v.index| && v.index[v.heap[j].key] == j {
      assert s.index[s.heap[j].key] == j;
    }
    forall k | 0 <= k < |v.index| && v.index[k] != 0 ensures v.index[k] < |v.heap| && v.heap[v.index[k]].key == k {
      assert s.index[k] != 0;
    }
  }

  lemma PopHole(greater: bool, heap: seq<Entry>)
    requires Ordered(greater, heap) && |heap| > 2
    ensures DownHole(greater, heap[..|heap| - 1][1 := heap[|heap| - 1]], 1)
  {
    var v := heap[..|heap| - 1][1 := heap[|heap| - 1]];
    forall j | 2 <= j < |v| && j / 2 != 1 ensures OrderedAt(greater, v, j) { assert OrderedAt(greater, heap, j); }
  }

  lemma PopLast(s: Slots)
    requires Indexed(s) && |s.heap| == 2
    ensures s.heap[1].key < |s.index| && Put(s, 1, s.heap[1]) == s
    ensures var r := Cut(s, s.heap[1].key);
      Indexed(r) && Contents(r) == map[] && Contents(s) - {s.heap[1].key} == map[]
  {
    assert s.index[s.heap[1].key] == 1;
    forall k | 0 <= k < |s.index| && s.index[k] != 0 ensures k == s.heap[1].key {}
  }

  /** Sifting down the last entry and then cutting its slot removes the top. */
  lemma Popped(greater: bool, s: Slots)
    requires Indexed(s) && Ordered(greater, s.heap) && |s.heap| >= 2
    ensures var last, removed := s.heap[|s.heap| - 1], s.heap[1].key;
      && KeysOk(s) && last.key < |s.index| && removed < |s.index|
      && var r := Cut(Down(greater, s, 1, last), removed);
         Indexed(r) && Ordered(greater, r.heap) && Contents(r) == Contents(s) - {removed}
  {
    if |s.heap| == 2 {
      PopLast(s);
    } else {
      PopStart(greater, s);
      hide Indexed, Ordered, Contents, DownHole, Put, Down;
      DownForPop(greater, s, 1, s.heap[|s.heap| - 1], s.heap[1].key);
    }
  }

  // ---------- The queue ----------

  class IndexedHeap {
    var heap: seq<Entry>
    var index: seq<nat>
    const greater: bool

    ghost function State(): Slots
      reads this
    {
      Slots(heap, index)
    }

    /** The index is the inverse of the heap, and the heap is ordered. */
    ghost predicate Valid()
      reads this
    {
      Indexed(State()) && Ordered(greater, heap)
    }

    ghost function Priorities(): map<nat, real>
      reads this
      requires Indexed(State())
    {
      Contents(State())
    }

    constructor (capacity: nat, greater: bool)
      ensures Valid() && Priorities() == map[] && |index| == capacity && this.greater == greater
    {
      heap := [Entry(0, 0.0)];
      index := seq(capacity, _ => 0);
      this.greater := greater;
    }

    method Reserve(capacity: nat)
      requires Valid()
      modifies this
      ensures Valid() && Priorities() == old(Priorities())
      ensures |index| == if capacity > old(|index|) then capacity else old(|index|)
    {
      if capacity > |index| { index := index + seq(capacity - |index|, _ => 0); }
    }

    function Empty(): bool
      reads this
    {
      |heap| == 1
    }

    lemma EmptyIsEmpty()
      requires Valid()
      ensures Empty() <==> Priorities() == map[]
    {
      if |heap| > 1 { assert index[heap[1].key] == 1 && heap[1].key in Priorities(); }
    }

    function HasKey(key: nat): (h: bool)
      reads this
      requires Indexed(State()) && key < |index|
      ensures h <==> key in Priorities()
    {
      index[key] != 0
    }

    function Priority(key: nat): (p: real)
      reads this
      requires Indexed(State()) && key < |index| && key in Priorities()
      ensures p == Priorities()[key]
    {
      heap[index[key]].value
    }

    method SiftUp(start: nat, key: nat, value: real)
      requires KeysOk(State()) && 0 < start < |heap| && key < |index|
      modifies this
      ensures State() == Up(greater, old(State()), start, Entry(key, value))
    {
      var i := start;
      var parent := i / 2;
      while parent > 0 && Comp(greater, heap[parent].value, value)
        invariant KeysOk(State()) && 0 < i < |heap| && parent == i / 2 && key < |index|
        invariant Up(greater, State(), i, Entry(key, value)) == Up(greater, old(State()), start, Entry(key, value))
      {
        heap := heap[i := heap[parent]];
        index := index[heap[i].key := i];
        i := parent;
        parent := i / 2;
      }
      heap := heap[i := Entry(key, value)];
      index := index[key := i];
    }

    method SiftDown(start: nat, key: nat, value: real)
      requires KeysOk(State()) && 0 < start < |heap| && key < |index|
      modifies this
      ensures State() == Down(greater, old(State()), start, Entry(key, value))
    {
      hide KeysOk, Comp, Down, Put;
      var i := start;
      var child := i * 2;
      var end := |heap| - 1;
      ghost var e, all := Entry(key, value), Down(greater, State(), start, Entry(key, value));
      while child < end
        invariant KeysOk(State()) && 0 < i < |heap| && child == 2 * i && end == |heap| - 1 && key < |index|
        invariant Down(greater, State(), i, e) == all
        decreases |heap| - i
      {
        if Comp(greater, heap[child].value, heap[child + 1].value) { child := child + 1; }
        ghost var now := State();
        DownStep(greater, now, i, e, child);
        if !Comp(greater, value, heap[child].value) { break; }
        heap := heap[i := heap[child]];
        index := index[heap[i].key := i];
        assert State() == Put(now, i, now.heap[child]) by { PutIs(now, i, now.heap[child]); }
        i := child;
        child := 2 * i;
      }
      if 2 * i >= end { DownEnds(greater, State(), i, e); }
      PutIs(State(), i, e);
      heap := heap[i := Entry(key, value)];
      index := index[key := i];
    }

    method Push(key: nat, value: real)
      requires Valid() && key < |index| && key !in Priorities()
      modifies this
      ensures Valid() && |index| == old(|index|) && Priorities() == old(Priorities())[key := value]
    {
      hide Indexed, Ordered, Contents, UpHole, Up, Put, KeysOk;
      ghost var s, e := State(), Entry(key, value);
      ghost var t := Slots(heap + [Entry(0, 0.0)], index);
      NotQueued(s, key);
      PushStart(greater, s, e);
      UpRestores(greater, t, |heap|, e);
      heap := heap + [Entry(0, 0.0)];
      assert State() == t;
      SiftUp(|heap| - 1, key, value);
    }

    /** Towards the top the order is restored; away from it, exactly when the last slot is not missed. */
    method ChangePriority(key: nat, value: real)
      requires Valid() && key < |index| && key in Priorities()
      modifies this
      ensures |index| == old(|index|) && Indexed(State()) && Priorities() == old(Priorities())[key := value]
      ensures Ordered(greater, heap) <==>
        !(Comp(greater, value, old(Priorities()[key])) && SkipsLast(greater, old(heap), old(index[key]), value))
    {
      var e := Entry(key, value);
      ghost var s := State();
      ChangeStart(s, e);
      if Comp(greater, value, Priority(key)) {
        DownForChange(greater, s, index[key], e);
        SiftDown(index[key], key, value);
      } else {
        ChangeUpStart(greater, s, index[key], e);
        UpRestores(greater, s, index[key], e);
        SiftUp(index[key], key, value);
      }
    }

    method PushOrChangePriority(key: nat, value: real)
      requires Valid() && key < |index|
      modifies this
      ensures |index| == old(|index|) && Indexed(State()) && Priorities() == old(Priorities())[key := value]
      ensures old(key !in Priorities() || !Comp(greater, value, Priorities()[key])) ==> Valid()
      ensures Ordered(greater, heap) <==>
        !old(key in Priorities() && Comp(greater, value, Priorities()[key])
             && SkipsLast(greater, heap, index[key], value))
    {
      if HasKey(key) { ChangePriority(key, value); } else { Push(key, value); }
    }

    /** Removes an entry that no other one goes before. */
    method Pop() returns (r: Entry)
      requires Valid() && Priorities() != map[]
      modifies this
      ensures Valid() && |index| == old(|index|)
      ensures old(r.key in Priorities() && Priorities()[r.key] == r.value)
      ensures Priorities() == old(Priorities()) - {r.key}
      ensures forall k :: k in old(Priorities()) ==> !Comp(greater, r.value, old(Priorities())[k])
    {
      hide Indexed, Ordered, Contents, Down, KeysOk;
      ghost var s := State();
      SomeEntry(s);
      TopOfAll(greater, s);
      Popped(greater, s);
      r := heap[1];
      var last := heap[|heap| - 1];
      SiftDown(1, last.key, last.value);
      index := index[r.key := 0];
      heap := heap[..|heap| - 1];
    }

    method Clear()
      modifies this
      ensures Valid() && Priorities() == map[] && |index| == old(|index|)
    {
      heap := if heap == [] then [Entry(0, 0.0)] else heap[..1];
      for i := 0 to |index|
        invariant |heap| == 1 && |index| == old(|index|)
        invariant forall k :: 0 <= k < i ==> index[k] == 0
      {
        index := index[i := 0];
      }
    }
  }

  lemma PutIs(s: Slots, i: nat, e: Entry)
    requires i < |s.heap| && e.key < |s.index|
    ensures Put(s, i, e) == Slots(s.heap[i := e], s.index[e.key := i])
  {}

  /** One round of sift-down. */
  lemma DownStep(greater: bool, s: Slots, i: nat, e: Entry, c: nat)
    requires KeysOk(s) && 0 < i && 2 * i < |s.heap| - 1 && e.key < |s.index|
    requires c == if Comp(greater, s.heap[2 * i].value, s.heap[2 * i + 1].value) then 2 * i + 1 else 2 * i
    ensures s.heap[c].key < |s.index| && KeysOk(Put(s, i, s.heap[c]))
    ensures Down(greater, s, i, e) ==
      if Comp(greater, e.value, s.heap[c].value) then Down(greater, Put(s, i, s.heap[c]), c, e) else Put(s, i, e)
  {}

  lemma DownEnds(greater: bool, s: Slots, i: nat, e: Entry)
    requires KeysOk(s) && 0 < i < |s.heap| && 2 * i >= |s.heap| - 1 && e.key < |s.index|
    ensures Down(greater, s, i, e) == Put(s, i, e)
  {}

  lemma SomeEntry(s: Slots)
    requires Indexed(s) && Contents(s) != map[]
    ensures |s.heap| >= 2
  {
    var k :| k in Contents(s);
    assert 1 <= s.index[k] < |s.heap|;
  }

  lemma NotQueued(s: Slots, key: nat)
    requires Indexed(s) && key < |s.index| && key !in Contents(s)
    ensures s.index[key] == 0
  {}

  lemma TopOfAll(greater: bool, s: Slots)
    requires Indexed(s) && Ordered(greater, s.heap) && |s.heap| > 1
    ensures s.heap[1].key in Contents(s) && Contents(s)[s.heap[1].key] == s.heap[1].value
    ensures forall k :: k in Contents(s) ==> !Comp(greater, s.heap[1].value, Contents(s)[k])
  {
    assert s.index[s.heap[1].key] == 1;
    forall k | k in Contents(s) ensures !Comp(greater, s.heap[1].value, Contents(s)[k]) {
      TopIsExtremal(greater, s.heap, s.index[k]);
    }
  }
}
