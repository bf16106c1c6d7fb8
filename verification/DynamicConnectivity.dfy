/**
 The concurrent union-find as its source writes it: one array of words, changed by loads and compare-and-swaps only.
 Before every atomic operation `Interfere` lets all other threads run: they may extend the history of states by any
 number of legal actions. `history` lists every state of the words since construction, so a contract can say what
 held at some instant between call and return.
 */
module DynamicConnectivity {
  import opened Sets
  import opened Forest

  /** Each state follows from the one before it by one action of some thread. */
  ghost predicate Run(history: seq<Forest>, n: nat) {
    && history != []
    && (forall i :: 0 <= i < |history| ==> Valid(history[i]) && |history[i].words| == n)
    && (forall i :: 0 < i < |history| ==> Follows(history, i))
  }

  ghost predicate Follows(history: seq<Forest>, i: nat)
    requires 0 < i < |history|
  {
    Shaped(history[i - 1]) && Step(history[i - 1], history[i])
  }

  lemma LastIsValid(history: seq<Forest>, n: nat)
    requires Run(history, n)
    ensures history != [] && Valid(history[|history| - 1]) && Shaped(history[|history| - 1])
    ensures |history[|history| - 1].words| == n
  {}

  lemma RunExtend(history: seq<Forest>, n: nat, act: Action)
    requires Run(history, n) && Enabled(history[|history| - 1], act)
    ensures Run(history + [Apply(history[|history| - 1], act)], n)
  {
    var g := Apply(history[|history| - 1], act);
    ApplyValid(history[|history| - 1], act);
    forall i | 0 < i < |history| + 1 ensures Follows(history + [g], i) {
      if i < |history| { assert Follows(history, i); }
    }
  }

  lemma {:induction false} RunLater(history: seq<Forest>, n: nat, i: nat, j: nat)
    requires Run(history, n) && i <= j < |history|
    ensures Later(history[i], history[j])
    decreases j - i
  {
    hide Weighted, Root, Component, Later, Enabled, Apply, Shaped;
    assert Valid(history[i]) && Valid(history[j]);
    if i == j {
      LaterRefl(history[i]);
    } else {
      RunLater(history, n, i, j - 1);
      assert Follows(history, j);
      var act :| Enabled(history[j - 1], act) && history[j] == Apply(history[j - 1], act);
      ApplyLater(history[j - 1], act);
      LaterTrans(history[i], history[j - 1], history[j]);
    }
  }

  // ---------- How often root words can still change ----------

  lemma RankAtMostSize(f: Forest, u: nat)
    requires Valid(f) && u < |f.words|
    ensures 1 <= f.ranks[u] <= |f.words|
  {
    assert WeightAt(f, u);
  }

  function Room(f: Forest, u: nat): int
    requires Shaped(f) && u < |f.words|
  {
    if IsRoot(f, u) then |f.words| + 1 - f.ranks[u] else 0
  }

  function RoomUpto(f: Forest, k: nat): int
    requires Shaped(f) && k <= |f.words|
  {
    if k == 0 then 0 else RoomUpto(f, k - 1) + Room(f, k - 1)
  }

  function Potential(f: Forest): int
    requires Shaped(f)
  {
    RoomUpto(f, |f.words|)
  }

  lemma RoomOfNode(f: Forest, g: Forest, u: nat)
    requires Valid(f) && Valid(g) && Later(f, g) && u < |f.words|
    ensures 0 <= Room(g, u) <= Room(f, u)
    ensures IsRoot(f, u) && g.words[u] != f.words[u] ==> Room(g, u) < Room(f, u)
  {
    RankAtMostSize(f, u);
    RankAtMostSize(g, u);
    hide Weighted, Root, Component, Same;
  }

  lemma {:induction false} RoomShrinks(f: Forest, g: Forest, k: nat)
    requires Valid(f) && Valid(g) && Later(f, g) && k <= |f.words|
    ensures 0 <= RoomUpto(g, k) <= RoomUpto(f, k)
    ensures (exists u :: 0 <= u < k && IsRoot(f, u) && g.words[u] != f.words[u]) ==> RoomUpto(g, k) < RoomUpto(f, k)
  {
    hide Weighted, Room, Same;
    if k > 0 {
      RoomShrinks(f, g, k - 1);
      RoomOfNode(f, g, k - 1);
    }
  }

  /** A root word that changed between two states has used up potential. */
  lemma PotentialDrops(f: Forest, g: Forest, u: nat)
    requires Valid(f) && Valid(g) && Later(f, g) && u < |f.words|
    ensures 0 <= Potential(g) <= Potential(f)
    ensures IsRoot(f, u) && g.words[u] != f.words[u] ==> Potential(g) < Potential(f)
  {
    RoomShrinks(f, g, |f.words|);
  }

  // ---------- Why each compare-and-swap is legal when it succeeds ----------

  /** Whatever happened since f, if the word still is `expected`, storing `desired` is the action `act`. */
  ghost predicate Justified(f: Forest, u: nat, expected: int, desired: int, act: Action)
    requires u < |f.words|
  {
    forall g: Forest :: Valid(g) && Later(f, g) && g.words[u] == expected ==>
      Enabled(g, act) && Apply(g, act).words == g.words[u := desired]
  }

  lemma CompressJustified(f: Forest, node: nat, p: nat, root: nat)
    requires Shaped(f) && node < |f.words| && p < |f.words| && root < |f.words|
    requires f.words[p] >= 0 && Below(f, p, root) && Same(f, node, root)
    ensures Justified(f, node, p, root, Compress(node, root))
  {
    forall g: Forest | Valid(g) && Later(f, g) && g.words[node] == p
      ensures Enabled(g, Compress(node, root)) && Apply(g, Compress(node, root)).words == g.words[node := root]
    {
      BelowTrans(g, node, p, root);
    }
  }

  lemma LinkJustified(f: Forest, a: nat, rankA: nat, b: nat, rankB: nat)
    requires Shaped(f) && a < |f.words| && b < |f.words| && 1 <= rankA && rankB <= f.ranks[b]
    requires rankA < rankB || (rankA == rankB && a < b)
    ensures Justified(f, a, ToRankRepr(rankA), b, Link(a, b))
  {}

  lemma BumpJustified(f: Forest, w: nat, rank: nat)
    requires Shaped(f) && w < |f.words| && 1 <= rank <= f.ranks[w]
    requires f.words[w] == ToRankRepr(rank) ==> |Component(f, w)| >= Pow2(rank)
    ensures Justified(f, w, ToRankRepr(rank), ToRankRepr(rank + 1), Bump(w))
  {
    forall g: Forest | Valid(g) && Later(f, g) && g.words[w] == ToRankRepr(rank)
      ensures Enabled(g, Bump(w)) && Apply(g, Bump(w)).words == g.words[w := ToRankRepr(rank + 1)]
    {
      LaterComponent(f, g, w);
    }
  }

  /** The step to history[at] hung the root a below b. */
  ghost predicate HungAt(history: seq<Forest>, at: nat, a: nat, b: nat) {
    && 0 < at < |history| && Shaped(history[at - 1]) && Enabled(history[at - 1], Link(a, b))
    && history[at] == SetParent(history[at - 1], a, b)
  }

  /** A link at h[at] by this operation joined the components of x and y, which were apart until then. */
  ghost predicate JoinedAt(history: seq<Forest>, at: nat, x: nat, y: nat) {
    && 0 < at < |history| && Shaped(history[at - 1]) && Shaped(history[at])
    && x < |history[at - 1].words| == |history[at].words| && y < |history[at].words|
    && !Same(history[at - 1], x, y)
    && Same(history[at], x, y)
    && exists a, b ::
      && HungAt(history, at, a, b)
      && ((Same(history[at - 1], a, x) && Same(history[at - 1], b, y))
          || (Same(history[at - 1], a, y) && Same(history[at - 1], b, x)))
  }

  lemma LinkJoins(history: seq<Forest>, n: nat, at: nat, a: nat, b: nat, x: nat, y: nat)
    requires Run(history, n) && HungAt(history, at, a, b) && x < n && y < n
    requires || (Same(history[at - 1], a, x) && Same(history[at - 1], b, y))
             || (Same(history[at - 1], a, y) && Same(history[at - 1], b, x))
    ensures JoinedAt(history, at, x, y)
  {
    LinkMerges(history[at - 1], a, b, x, y);
  }

  lemma HangEffect(history: seq<Forest>, n: nat, before: Forest, child: nat, childRank: nat, parent: nat, x: nat,
                   y: nat)
    requires Run(history, n) && |history| >= 2 && Shaped(before) && |before.words| == n
    requires child < n && parent < n && x < n && y < n
    requires Same(before, child, x) && Same(before, parent, y)
    requires Later(before, history[|history| - 2]) && history[|history| - 2].words[child] == ToRankRepr(childRank)
    requires Enabled(history[|history| - 2], Link(child, parent))
    requires history[|history| - 1] == Apply(history[|history| - 2], Link(child, parent))
    ensures JoinedAt(history, |history| - 1, x, y) && JoinedAt(history, |history| - 1, y, x)
    ensures HungAt(history, |history| - 1, child, parent) && history[|history| - 2].ranks[child] == childRank
    ensures history[|history| - 1].words[parent] == ToRankRepr(childRank) ==>
      |Component(history[|history| - 1], parent)| >= Pow2(childRank)
  {
    hide Weighted, Root, Component, Pow2, JoinedAt;
    var g := history[|history| - 2];
    assert Same(g, child, x) && Same(g, parent, y) && g.ranks[child] == childRank;
    assert HungAt(history, |history| - 1, child, parent);
    hide Later;
    LinkJoins(history, n, |history| - 1, child, parent, x, y);
    JoinedSym(history, |history| - 1, x, y);
    WinnerEarned(g, child, parent);
  }

  /** By now the winner of the link at history[at] ranks above the loser, unless it has been hung below another root. */
  ghost predicate Topped(history: seq<Forest>, at: nat) {
    forall a: nat, b: nat :: HungAt(history, at, a, b) ==>
      var now := history[|history| - 1];
      && a < |now.ranks| && b < |now.words| == |now.ranks|
      && (now.words[b] >= 0 || now.ranks[a] < now.ranks[b])
  }

  lemma TieSettled(history: seq<Forest>, n: nat, at: nat, child: nat, parent: nat)
    requires Run(history, n) && HungAt(history, at, child, parent) && child < n && parent < n
    requires history[|history| - 1].words[parent] != ToRankRepr(history[at - 1].ranks[child])
    ensures Topped(history, at)
  {
    hide Root, Weighted, Component;
    RunLater(history, n, at, |history| - 1);
    forall a: nat, b: nat | HungAt(history, at, a, b) ensures a == child && b == parent {
      assert history[at].words[child] == parent && history[at].words[a] == b;
    }
  }

  lemma JoinedStays(before: seq<Forest>, history: seq<Forest>, n: nat, at: nat, x: nat, y: nat)
    requires Run(history, n) && before <= history && JoinedAt(before, at, x, y) && x < n && y < n
    ensures JoinedAt(history, at, x, y)
    ensures Shaped(history[|history| - 1]) && Same(history[|history| - 1], x, y)
  {
    hide Weighted, Root, Component, Enabled, HungAt;
    assert history[at - 1] == before[at - 1] && history[at] == before[at];
    forall a, b | HungAt(before, at, a, b) ensures HungAt(history, at, a, b) { HungStays(before, history, at, a, b); }
    RunLater(history, n, at, |history| - 1);
  }

  lemma JoinedSym(history: seq<Forest>, at: nat, x: nat, y: nat)
    requires JoinedAt(history, at, x, y)
    ensures JoinedAt(history, at, y, x)
  {}

  lemma HungStays(before: seq<Forest>, history: seq<Forest>, at: nat, a: nat, b: nat)
    requires before <= history && HungAt(before, at, a, b)
    ensures HungAt(history, at, a, b) && history[at - 1] == before[at - 1]
  {
    assert history[at - 1] == before[at - 1] && history[at] == before[at];
  }

  /** f is a state of the run, not before `start` and not after `now`. */
  ghost predicate Between(start: Forest, f: Forest, now: Forest) {
    Valid(f) && Later(start, f) && Later(f, now)
  }

  lemma BetweenNow(start: Forest, now: Forest)
    requires Valid(now) && Later(start, now)
    ensures Between(start, now, now)
  {
    LaterRefl(now);
  }

  lemma LaterRank(f: Forest, g: Forest, u: nat)
    requires Later(f, g) && u < |f.words|
    ensures f.ranks[u] <= g.ranks[u]
  {}

  lemma ShowsItsRank(f: Forest, u: nat)
    requires Shaped(f) && u < |f.words|
    ensures f.words[u] < 0 ==> f.words[u] == ToRankRepr(f.ranks[u])
  {}

  lemma Widen(start: Forest, mid: Forest, f: Forest, now: Forest, end: Forest)
    requires Later(start, mid) && Between(mid, f, now) && Later(now, end)
    ensures Between(start, f, end)
  {
    LaterTrans(start, mid, f);
    LaterTrans(f, now, end);
  }

  /** A retry is paid for: another thread changed the root word that was read. */
  lemma RetryIsPaid(start: Forest, f: Forest, now: Forest, u: nat)
    requires Valid(start) && Valid(now) && Between(start, f, now) && u < |f.words|
    requires IsRoot(f, u) && now.words[u] != f.words[u]
    ensures 0 <= Potential(now) < Potential(start)
  {
    PotentialDrops(start, f, u);
    PotentialDrops(f, now, u);
  }

  /** Two finds, one after the other, from a state in which a0 is with x and b0 is with y. */
  ghost predicate Found(start: Forest, f: Forest, mid: Forest, g: Forest, now: Forest,
                        a0: nat, a: nat, b0: nat, b: nat, x: nat, y: nat) {
    && Between(start, f, mid) && Between(mid, g, now)
    && a0 < |f.words| && b0 < |f.words| && x < |f.words| && y < |f.words| && a < |f.words| && b < |f.words|
    && Same(start, a0, x) && Same(start, b0, y) && Root(f, a0) == a && Root(g, b0) == b
  }

  lemma BothFound(start: Forest, f: Forest, mid: Forest, g: Forest, now: Forest,
                  a0: nat, a: nat, b0: nat, b: nat, x: nat, y: nat)
    requires Found(start, f, mid, g, now, a0, a, b0, b, x, y)
    ensures Between(start, f, now) && Between(start, g, now)
    ensures Same(now, a, x) && Same(now, b, y)
    ensures f.ranks[a] <= now.ranks[a] && g.ranks[b] <= now.ranks[b] && IsRoot(f, a) && IsRoot(g, b)
  {
    LaterTrans(start, f, mid);
    LaterTrans(f, mid, g);
    LaterTrans(f, g, now);
    LaterTrans(start, mid, g);
    LaterTrans(start, f, now);
    LaterTrans(start, g, now);
    assert Same(f, a, a0) && Same(now, a, a0) && Same(now, a0, x);
    assert Same(g, b, b0) && Same(now, b, b0) && Same(now, b0, y);
  }

  /** The next iteration starts from the same components, with less potential. */
  lemma NextRound(start: Forest, f: Forest, before: Forest, now: Forest, u: nat, a: nat, b: nat, x: nat, y: nat)
    requires Valid(start) && Valid(now) && Between(start, f, before) && Later(before, now)
    requires u < |f.words| && a < |f.words| && b < |f.words| && x < |f.words| && y < |f.words|
    requires IsRoot(f, u) && now.words[u] != f.words[u]
    requires Same(before, a, x) && Same(before, b, y)
    ensures 0 <= Potential(now) < Potential(start)
    ensures Same(now, a, x) && Same(now, b, y)
  {
    LaterTrans(f, before, now);
    RetryIsPaid(start, f, now, u);
  }

  /** A root seen twice was a root in between, so two different representatives meant two components. */
  lemma ApartWhenFound(start: Forest, f: Forest, mid: Forest, g: Forest, before: Forest, now: Forest,
                       a0: nat, a: nat, b0: nat, b: nat, x: nat, y: nat)
    requires Found(start, f, mid, g, before, a0, a, b0, b, x, y) && Later(before, now)
    requires a != b && now.words[a] < 0
    ensures !Same(g, x, y)
  {
    LaterTrans(f, mid, g);
    LaterTrans(start, mid, g) by { LaterTrans(start, f, mid); }
    LaterTrans(g, before, now);
    assert Same(f, a0, a) && Same(g, a0, a) && Root(g, a) == a;
    assert Same(g, a0, x) && Same(g, b0, y);
  }

  lemma SameRefl(f: Forest, x: nat, y: nat)
    requires Shaped(f) && x < |f.words| && y < |f.words|
    ensures Same(f, x, x) && Same(f, y, y)
  {}

  lemma SameJoins(f: Forest, a: nat, b: nat, x: nat, y: nat)
    requires Shaped(f) && a < |f.words| && b < |f.words| && x < |f.words| && y < |f.words|
    requires Same(f, a, x) && Same(f, b, y)
    ensures a == b ==> Same(f, x, y)
  {}

  lemma HeadsItself(f: Forest, u: nat)
    requires Shaped(f) && u < |f.words| && f.words[u] < 0
    ensures Root(f, u) == u && f.words[u] == ToRankRepr(FromRankRepr(f.words[u]))
    ensures f.ranks[u] == FromRankRepr(f.words[u]) >= 1
  {}

  /** Following a parent read now climbs in the (rank, id) order, which ends at rank n. */
  lemma ClimbsOn(f: Forest, g: Forest, node: nat, p: nat)
    requires Valid(f) && Valid(g) && Later(f, g) && node < |f.words| && p < |f.words| && g.words[node] == p
    ensures f.ranks[node] < g.ranks[p] || (f.ranks[node] == g.ranks[p] && node < p)
    ensures f.ranks[node] <= |f.words| && g.ranks[p] <= |f.words|
  {
    RankAtMostSize(f, node);
    RankAtMostSize(g, p);
  }

  /** The representative found from the parent is the representative of the node itself. */
  lemma FoundFromParent(history: seq<Forest>, n: nat, k: nat, at: nat, node: nat, p: nat, root: nat)
    requires Run(history, n) && k <= at < |history| && node < n && p < n && root < n
    requires history[k].words[node] == p && Root(history[at], p) == root
    ensures Root(history[at], node) == root
    ensures p != root ==> Justified(history[|history| - 1], node, p, root, Compress(node, root))
  {
    hide Weighted, Justified, Enabled, Component;
    RunLater(history, n, k, at);
    assert Same(history[k], node, p);
    assert Same(history[at], node, p);
    if p != root {
      var now := history[|history| - 1];
      RunLater(history, n, at, |history| - 1);
      assert Same(history[at], node, root);
      assert Below(history[at], p, root);
      hide Root;
      CompressJustified(now, node, p, root);
    }
  }

  // ---------- A thread's own deeds ----------

  /** A successful compare-and-swap of this caller: the state it led to, and its effect. */
  datatype Deed = Deed(at: nat, act: Action)

  /** When this caller's links happened. */
  function Links(deeds: seq<Deed>): seq<nat> {
    if deeds == [] then []
    else Links(deeds[..|deeds| - 1]) + if deeds[|deeds| - 1].act.Link? then [deeds[|deeds| - 1].at] else []
  }

  lemma {:induction false} LinksKept(before: seq<Deed>, deeds: seq<Deed>)
    requires before <= deeds && forall j :: |before| <= j < |deeds| ==> !deeds[j].act.Link?
    ensures Links(deeds) == Links(before)
  {
    if |before| < |deeds| {
      LinksKept(before, deeds[..|deeds| - 1]);
    } else {
      assert deeds == before;
    }
  }

  lemma LinksOne(before: seq<Deed>, d: Deed)
    ensures Links(before + [d]) == Links(before) + if d.act.Link? then [d.at] else []
  {
    assert (before + [d])[..|before|] == before;
  }

  /** The word of u was another one at some instant since history[from]. */
  ghost predicate Reworded(history: seq<Forest>, from: nat, u: nat) {
    exists k :: from <= k < |history| && Differs(history[k], history[|history| - 1], u)
  }

  predicate Differs(f: Forest, now: Forest, u: nat) {
    u < |f.words| && u < |now.words| && f.words[u] != now.words[u]
  }

  /** Since history[from], u was headed by the root it is at or points at now; or else its word has changed. */
  ghost predicate Shortened(history: seq<Forest>, from: nat, u: nat) {
    || Reworded(history, from, u)
    || exists k :: from <= k < |history| && Heads(history[k], history[|history| - 1], u)
  }

  ghost predicate Heads(f: Forest, now: Forest, u: nat) {
    Shaped(f) && u < |f.words| && Near(now, u, Root(f, u))
  }

  /** The word p was read for u, whose representative is root: it has been replaced, or need not be. */
  lemma WordReplaced(history: seq<Forest>, n: nat, from: nat, k: nat, at: nat, u: nat, p: int, root: nat)
    requires Run(history, n) && u < n && from <= k < |history| && history[k].words[u] == p
    requires from <= at < |history| && Root(history[at], u) == root
    requires history[|history| - 1].words[u] == root || p == root || history[|history| - 1].words[u] != p
    ensures Shortened(history, from, u)
  {
    var now := history[|history| - 1];
    if now.words[u] == root { assert Heads(history[at], now, u); } else { assert Differs(history[k], now, u); }
  }

  lemma AtItsRoot(history: seq<Forest>, n: nat, from: nat, u: nat)
    requires Run(history, n) && u < n && from < |history| && history[|history| - 1].words[u] < 0
    ensures Shortened(history, from, u)
  {
    assert Heads(history[|history| - 1], history[|history| - 1], u);
  }

  lemma ShortenedStays(before: seq<Forest>, history: seq<Forest>, n: nat, start: nat, from: nat, u: nat)
    requires before != [] && before <= history && Run(history, n) && u < n && start <= from
    requires Shortened(before, from, u)
    ensures Shortened(history, start, u)
  {
    hide Root;
    var was, now := before[|before| - 1], history[|history| - 1];
    assert history[|before| - 1] == was;
    if was.words[u] != now.words[u] {
      assert Differs(history[|before| - 1], now, u);
    } else if Reworded(before, from, u) {
      var k :| from <= k < |before| && Differs(before[k], was, u);
      assert Differs(history[k], now, u);
    } else {
      var k :| from <= k < |before| && Heads(before[k], was, u);
      assert Heads(history[k], now, u);
    }
  }

  /** The finds of the round to come start from x and y, or earlier ones did. */
  ghost predicate Sought(history: seq<Forest>, start: nat, a: nat, b: nat, x: nat, y: nat) {
    (a == x && b == y) || (Shortened(history, start, x) && Shortened(history, start, y))
  }

  lemma Seek(history: seq<Forest>, start: nat, x: nat, y: nat)
    ensures Sought(history, start, x, y, x, y)
  {}

  lemma SoughtBefore(history: seq<Forest>, start: nat, a: nat, b: nat, x: nat, y: nat)
    requires Shortened(history, start, x) && Shortened(history, start, y)
    ensures Sought(history, start, a, b, x, y)
  {}

  lemma RoundShortens(h: seq<Forest>, mid: seq<Forest>, history: seq<Forest>, n: nat, start: nat, a: nat, b: nat,
                      x: nat, y: nat)
    requires h != [] && h <= mid <= history && Run(history, n) && start < |h| && x < n && y < n
    requires Sought(h, start, a, b, x, y) && Shortened(mid, |h| - 1, a) && Shortened(history, |mid| - 1, b)
    ensures Shortened(history, start, x) && Shortened(history, start, y)
  {
    hide Run, Shortened;
    if a == x && b == y {
      ShortenedStays(mid, history, n, start, |h| - 1, x);
      ShortenedStays(history, history, n, start, |mid| - 1, y);
    } else {
      ShortenedStays(h, history, n, start, start, x);
      ShortenedStays(h, history, n, start, start, y);
    }
  }

  lemma BothStay(before: seq<Forest>, history: seq<Forest>, n: nat, start: nat, x: nat, y: nat)
    requires before != [] && before <= history && Run(history, n) && x < n && y < n
    requires Shortened(before, start, x) && Shortened(before, start, y)
    ensures Shortened(history, start, x) && Shortened(history, start, y)
  {
    hide Run, Shortened;
    ShortenedStays(before, history, n, start, start, x);
    ShortenedStays(before, history, n, start, start, y);
  }

  lemma StillRoot(f: Forest, g: Forest, u: nat)
    requires Later(f, g) && Roots(f) == Roots(g) && u < |f.words|
    ensures Root(g, u) == Root(f, u)
  {
    var r := Root(f, u);
    assert Same(f, u, r) && Same(g, u, r);
    assert r in Roots(f);
  }

  /** As long as there are as many roots as before, nothing was joined. */
  lemma NothingJoined(f: Forest, g: Forest, x: nat, y: nat)
    requires Later(f, g) && |Roots(f)| == |Roots(g)| && x < |f.words| && y < |f.words|
    ensures Same(g, x, y) <==> Same(f, x, y)
  {
    assert Roots(g) <= Roots(f);
    SubsetSize(Roots(g), Roots(f));
    StillRoot(f, g, x);
    StillRoot(f, g, y);
  }

  /** What was apart just before a link of this call was apart when it began. */
  lemma ApartBefore(history: seq<Forest>, n: nat, start: nat, at: nat, x: nat, y: nat)
    requires Run(history, n) && start < at < |history| && JoinedAt(history, at, x, y) && x < n && y < n
    ensures Shaped(history[start]) && |history[start].words| == n && !Same(history[start], x, y)
  {
    hide Root, Weighted, Component;
    RunLater(history, n, start, at - 1);
  }

  lemma NoLinkNoJoin(history: seq<Forest>, n: nat, start: nat, x: nat, y: nat)
    requires Run(history, n) && start < |history| && x < n && y < n
    ensures var f, g := history[start], history[|history| - 1];
      && Shaped(f) && Shaped(g) && |f.words| == |g.words| == n
      && (|Roots(f)| == |Roots(g)| && Same(g, x, y) ==> Same(f, x, y))
  {
    hide Root, Weighted, Component, Roots;
    RunLater(history, n, start, |history| - 1);
    if |Roots(history[start])| == |Roots(history[|history| - 1])| {
      NothingJoined(history[start], history[|history| - 1], x, y);
    }
  }

  class DynamicConnectivity {
    const n: nat
    const unionFind: array<int>
    ghost var history: seq<Forest>
    ghost var deeds: seq<Deed>    // of the methods called on this object, not of other threads

    ghost predicate Consistent()
      reads this, unionFind
    {
      && history != [] && Run(history, n)
      && Shaped(Now()) && unionFind.Length == n && unionFind[..] == Now().words
    }

    ghost function Now(): Forest
      reads this
      requires history != []
    {
      history[|history| - 1]
    }

    constructor (numNodes: nat)
      ensures Consistent() && n == numNodes && history == [Initial(numNodes)] && deeds == []
    {
      n := numNodes;
      unionFind := new int[numNodes](_ => -1);
      history, deeds := [Initial(numNodes)], [];
      new;
      InitialValid(numNodes);
    }

    /**
     Any number of atomic operations of other threads. A caller knows only this contract: the history may have been
     extended by any enabled actions, which is also all that CompareExchange itself does to it.
     */
    method Interfere()
      requires Consistent()
      modifies unionFind, this`history
      ensures Consistent() && old(history) <= history
    {}

    method Load(u: nat) returns (w: int)
      requires Consistent() && u < n
      modifies unionFind, this`history
      ensures Consistent() && old(history) <= history
      ensures w == Now().words[u] && w < n && Later(old(Now()), Now())
    {
      Interfere();
      RunLater(history, n, |old(history)| - 1, |history| - 1);
      w := unionFind[u];
    }

    /** A strong compare-and-swap: it fails only if the word differs from `expected` at that instant. */
    method CompareExchange(u: nat, expected: int, desired: int, ghost act: Action) returns (ok: bool)
      requires Consistent() && u < n && Justified(Now(), u, expected, desired, act)
      modifies unionFind, this`history, this`deeds
      ensures Consistent() && old(history) <= history && Later(old(Now()), Now())
      ensures ok ==>
        && |old(history)| < |history|
        && Later(old(Now()), history[|history| - 2])
        && history[|history| - 2].words[u] == expected
        && Enabled(history[|history| - 2], act) && Now() == Apply(history[|history| - 2], act)
        && Now().words[u] == desired
      ensures !ok ==> Now().words[u] != expected
      ensures deeds == old(deeds) + if ok then [Deed(|history| - 1, act)] else []
    {
      hide Run, Later, Weighted, Root;
      Interfere();
      RunLater(history, n, |old(history)| - 1, |history| - 1);
      LastIsValid(history, n);
      if unionFind[u] == expected {
        ghost var g := Now();
        unionFind[u] := desired;
        RunExtend(history, n, act);
        ApplyLater(g, act);
        LaterTrans(old(Now()), g, Apply(g, act));
        history := history + [Apply(g, act)];
        deeds := deeds + [Deed(|history| - 1, act)];
        return true;
      }
      return false;
    }

    /** At instant `at` of this call, r was the representative of node. */
    method FindRepresentative(node: nat) returns (r: nat, ghost at: nat)
      requires Consistent() && node < n
      modifies unionFind, this`history
      ensures Consistent() && old(history) <= history
      ensures |old(history)| <= at + 1 && at < |history| && |history[at].words| == n
      ensures Between(old(Now()), history[at], Now())
      ensures r < n && Root(history[at], node) == r
      decreases n - Now().ranks[node], n - node
    {
      hide Run, Later, Valid, Root;
      LastIsValid(history, n);
      ghost var start := Now();
      var p := Load(node);
      LastIsValid(history, n);
      if p < 0 { HeadsItself(Now(), node); LaterRefl(Now()); return node, |history| - 1; }
      ghost var k := |history| - 1;
      ClimbsOn(start, Now(), node, p);
      ghost var mid := Now();
      r, at := FindRepresentative(p);
      Widen(start, mid, history[at], Now(), Now()) by { LaterRefl(Now()); }
      FoundFromParent(history, n, k, at, node, p, r);
    }

    /** At instant `at` of this call, root was the representative of node and had that rank. */
    method FindRepresentativeAndCompress(node: nat) returns (root: nat, rank: nat, ghost at: nat)
      requires Consistent() && node < n
      modifies unionFind, this`history, this`deeds
      ensures Consistent() && old(history) <= history
      ensures |old(history)| <= at + 1 && at < |history| && |history[at].words| == n
      ensures Between(old(Now()), history[at], Now())
      ensures root < n && Root(history[at], node) == root
      ensures history[at].words[root] == ToRankRepr(rank) && history[at].ranks[root] == rank >= 1
      ensures Shortened(history, |old(history)| - 1, node)
      ensures old(deeds) <= deeds
      ensures forall j :: |old(deeds)| <= j < |deeds| ==> deeds[j].act.Compress? && deeds[j].act.r == root
      decreases n - Now().ranks[node], n - node
    {
      hide Run, Later, Valid, Root, Justified, Apply, Enabled, Shortened, Between, Same, Below, IsRoot, Shaped;
      LastIsValid(history, n);
      ghost var start := Now();
      var p := Load(node);
      LastIsValid(history, n);
      if p < 0 {
        HeadsItself(Now(), node);
        BetweenNow(start, Now());
        AtItsRoot(history, n, |old(history)| - 1, node);
        return node, FromRankRepr(p), |history| - 1;
      }
      ghost var k := |history| - 1;
      ClimbsOn(start, Now(), node, p);
      ghost var mid := Now();
      root, rank, at := FindRepresentativeAndCompress(p);
      ghost var f, found := history[at], Now();
      FoundFromParent(history, n, k, at, node, p, root);
      LaterRefl(found);
      if p != root {
        var _ := CompareExchange(node, p, root, Compress(node, root));
      }
      WordReplaced(history, n, |old(history)| - 1, k, at, node, p, root);
      Widen(start, mid, f, found, Now());
    }

    /** The link of `unite`: hang one root below the other unless its word has changed. */
    method Hang(child: nat, childRank: nat, parent: nat, parentRank: nat, ghost x: nat, ghost y: nat) returns (ok: bool)
      requires Consistent() && child < n && parent < n && x < n && y < n
      requires 1 <= childRank && parentRank <= Now().ranks[parent]
      requires childRank < parentRank || (childRank == parentRank && child < parent)
      requires Same(Now(), child, x) && Same(Now(), parent, y)
      modifies unionFind, this`history, this`deeds
      ensures Consistent() && old(history) <= history && Later(old(Now()), Now())
      ensures ok ==>
        && |old(history)| < |history|
        && JoinedAt(history, |history| - 1, x, y) && JoinedAt(history, |history| - 1, y, x)
        && HungAt(history, |history| - 1, child, parent) && history[|history| - 2].ranks[child] == childRank
      ensures ok && childRank < parentRank ==> Topped(history, |history| - 1)
      ensures deeds == old(deeds) + if ok then [Deed(|history| - 1, Link(child, parent))] else []
      ensures ok && Now().words[parent] == ToRankRepr(childRank) ==> |Component(Now(), parent)| >= Pow2(childRank)
      ensures !ok ==> Now().words[child] != ToRankRepr(childRank)
      ensures parentRank <= Now().ranks[parent]
    {
      hide Run, Later, Valid, Root, Justified, JoinedAt, Pow2, Component;
      ghost var before := Now();
      LastIsValid(history, n);
      LinkJustified(before, child, childRank, parent, parentRank);
      ok := CompareExchange(child, ToRankRepr(childRank), parent, Link(child, parent));
      LaterRank(before, Now(), parent);
      if ok {
        HangEffect(history, n, before, child, childRank, parent, x, y);
        if childRank < parentRank {
          ShowsItsRank(Now(), parent);
          TieSettled(history, n, |history| - 1, child, parent);
        }
      }
    }

    /** The winner of the tie at history[at] gains a rank, unless its word has changed meanwhile. */
    method RaiseRank(w: nat, rank: nat, ghost at: nat, ghost child: nat, ghost x: nat, ghost y: nat)
      requires Consistent() && w < n && 1 <= rank <= Now().ranks[w] && x < n && y < n && child < n
      requires Now().words[w] == ToRankRepr(rank) ==> |Component(Now(), w)| >= Pow2(rank)
      requires JoinedAt(history, at, x, y) && HungAt(history, at, child, w) && history[at - 1].ranks[child] == rank
      modifies unionFind, this`history, this`deeds
      ensures Consistent() && old(history) <= history && Later(old(Now()), Now())
      ensures JoinedAt(history, at, x, y) && Same(Now(), x, y)
      ensures Now().words[w] != ToRankRepr(rank) && Topped(history, at)
      ensures Links(deeds) == Links(old(deeds))
    {
      hide Run, Later, Valid, Root, JoinedAt, Pow2, Component, Justified, Enabled, Apply, HungAt, Topped, Links;
      ghost var before := history;
      BumpJustified(Now(), w, rank);
      var _ := CompareExchange(w, ToRankRepr(rank), ToRankRepr(rank + 1), Bump(w));
      LinksKept(old(deeds), deeds);
      JoinedStays(before, history, n, at, x, y);
      HungStays(before, history, at, child, w);
      TieSettled(history, n, at, child, w);
    }

    /** One round of `unite` after the two finds: false only if the word of the root to be hung has changed. */
    method TryLink(a: nat, rankA: nat, b: nat, rankB: nat, ghost x: nat, ghost y: nat) returns (ok: bool, ghost at: nat)
      requires Consistent() && a < n && b < n && a != b && x < n && y < n
      requires 1 <= rankA <= Now().ranks[a] && 1 <= rankB <= Now().ranks[b]
      requires Same(Now(), a, x) && Same(Now(), b, y)
      modifies unionFind, this`history, this`deeds
      ensures Consistent() && old(history) <= history
      ensures ok ==>
        |old(history)| <= at < |history| && JoinedAt(history, at, x, y) && Same(Now(), x, y) && Topped(history, at)
      ensures Links(deeds) == Links(old(deeds)) + if ok then [at] else []
      ensures !ok ==>
        && Later(old(Now()), Now())
        && if rankA < rankB || (rankA == rankB && a < b) then Now().words[a] != ToRankRepr(rankA)
           else Now().words[b] != ToRankRepr(rankB)
    {
      hide Run, Later, Valid, Root, Pow2, Component, Shaped, JoinedAt, HungAt, Topped, Links, Same, Enabled;
      at := 0;
      if rankA < rankB {
        ok := Hang(a, rankA, b, rankB, x, y);
        if ok {
          LinksOne(old(deeds), Deed(|history| - 1, Link(a, b)));
          JoinedStays(history, history, n, |history| - 1, x, y);
          return true, |history| - 1;
        }
      } else if rankA > rankB {
        ok := Hang(b, rankB, a, rankA, y, x);
        if ok {
          LinksOne(old(deeds), Deed(|history| - 1, Link(b, a)));
          JoinedStays(history, history, n, |history| - 1, x, y);
          return true, |history| - 1;
        }
      } else {
        if a < b {
          ok := Hang(a, rankA, b, rankB, x, y);
          if ok {
            at := |history| - 1;
            LinksOne(old(deeds), Deed(at, Link(a, b)));
            RaiseRank(b, rankB, at, a, x, y);
            return true, at;
          }
        }
        if a > b {
          ok := Hang(b, rankB, a, rankA, y, x);
          if ok {
            at := |history| - 1;
            LinksOne(old(deeds), Deed(at, Link(b, a)));
            RaiseRank(a, rankA, at, b, x, y);
            return true, at;
          }
        }
      }
      assert deeds == old(deeds);
      return false, 0;
    }

    /** The two finds of one round: the roots and ranks at two instants of the round. */
    method FindBoth(a0: nat, b0: nat, ghost x: nat, ghost y: nat, ghost from: nat)
      returns (a: nat, rankA: nat, b: nat, rankB: nat, ghost atA: nat, ghost atB: nat)
      requires Consistent() && a0 < n && b0 < n && x < n && y < n && from < |history|
      requires Same(Now(), a0, x) && Same(Now(), b0, y) && Sought(history, from, a0, b0, x, y)
      modifies unionFind, this`history, this`deeds
      ensures Consistent() && old(history) <= history && a < n && b < n
      ensures atA < |history| && atB < |history| && |history[atA].words| == |history[atB].words| == n
      ensures Between(old(Now()), history[atA], Now()) && Between(old(Now()), history[atB], Now())
      ensures IsRoot(history[atA], a) && history[atA].words[a] == ToRankRepr(rankA) && 1 <= rankA <= Now().ranks[a]
      ensures IsRoot(history[atB], b) && history[atB].words[b] == ToRankRepr(rankB) && 1 <= rankB <= Now().ranks[b]
      ensures Same(Now(), a, x) && Same(Now(), b, y)
      ensures Shortened(history, from, x) && Shortened(history, from, y) && Links(deeds) == Links(old(deeds))
    {
      hide Run, Later, Valid, Between, Root, Shaped, Same, Found, Links, Shortened, Sought, IsRoot, Enabled, Apply;
      ghost var start, h := Now(), history;
      a, rankA, atA := FindRepresentativeAndCompress(a0);
      ghost var f, mid, h1 := history[atA], Now(), history;
      b, rankB, atB := FindRepresentativeAndCompress(b0);
      BothFound(start, f, mid, history[atB], Now(), a0, a, b0, b, x, y);
      LinksKept(old(deeds), deeds);
      RoundShortens(h, h1, history, n, from, a0, b0, x, y);
    }

    /**
     True: this call made one link, at `at`; it joined exactly the two components, which were apart before, and the
     winner's rank was seen to. False: this call made no link, and the two nodes are in one component already. If no
     other thread linked meanwhile, the answer tells whether the nodes were apart. Returns whatever the others do.
     */
    method Unite(x: nat, y: nat) returns (joined: bool, ghost at: nat)
      requires Consistent() && x < n && y < n
      modifies unionFind, this`history, this`deeds
      ensures Consistent() && old(history) <= history
      ensures Same(Now(), x, y)
      ensures joined ==> |old(history)| <= at < |history| && JoinedAt(history, at, x, y) && Topped(history, at)
      ensures joined ==> !old(Same(Now(), x, y))
      ensures Shortened(history, |old(history)| - 1, x) && Shortened(history, |old(history)| - 1, y)
      ensures Links(deeds) == Links(old(deeds)) + if joined then [at] else []
      ensures |Roots(old(Now()))| - |Roots(Now())| == |Links(deeds)| - |Links(old(deeds))| ==>
        (joined <==> !old(Same(Now(), x, y)))
    {
      hide Run, Later, Valid, Between, Root, JoinedAt, Topped, Potential, Pow2, Component, Shaped, Same, Found, Links,
        Roots, Shortened, Sought, IsRoot, Enabled, Apply;
      SameRefl(Now(), x, y);
      Seek(history, |history| - 1, x, y);
      var a: nat, b: nat := x, y;
      at := 0;
      while true
        invariant Consistent() && old(history) <= history && a < n && b < n
        invariant Same(Now(), a, x) && Same(Now(), b, y) && Links(deeds) == Links(old(deeds))
        invariant Sought(history, |old(history)| - 1, a, b, x, y)
        decreases Potential(Now())
      {
        ghost var start := Now();
        LastIsValid(history, n);
        var rankA: nat, rankB: nat;
        ghost var atA: nat, atB: nat;
        a, rankA, b, rankB, atA, atB := FindBoth(a, b, x, y, |old(history)| - 1);
        ghost var f, g, before, found := history[atA], history[atB], Now(), history;
        SameJoins(Now(), a, b, x, y);
        if a == b {
          NoLinkNoJoin(history, n, |old(history)| - 1, x, y);
          return false, 0;
        }
        joined, at := TryLink(a, rankA, b, rankB, x, y);
        BothStay(found, history, n, |old(history)| - 1, x, y);
        if joined {
          ApartBefore(history, n, |old(history)| - 1, at, x, y);
          return true, at;
        }
        LastIsValid(history, n);
        SoughtBefore(history, |old(history)| - 1, a, b, x, y);
        if rankA < rankB || (rankA == rankB && a < b) {
          NextRound(start, f, before, Now(), a, a, b, x, y);
        } else {
          NextRound(start, g, before, Now(), b, a, b, x, y);
        }
      }
    }

    /** Linearizable: the answer was right at some instant between call and return, whatever the other threads do. */
    method Connected(x: nat, y: nat) returns (c: bool, ghost at: nat)
      requires Consistent() && x < n && y < n
      modifies unionFind, this`history
      ensures Consistent() && old(history) <= history
      ensures |old(history)| <= at + 1 && at < |history|
      ensures c == Same(history[at], x, y)
    {
      hide Run, Later, Valid, Between, Root, Potential, Shaped, Same, Found, IsRoot, Enabled, Apply, Weighted;
      SameRefl(Now(), x, y);
      var a: nat, b: nat := x, y;
      while true
        invariant Consistent() && old(history) <= history && a < n && b < n
        invariant Same(Now(), a, x) && Same(Now(), b, y)
        decreases Potential(Now())
      {
        ghost var start, a0, b0 := Now(), a, b;
        LastIsValid(history, n);
        ghost var atA: nat, atB: nat;
        a, atA := FindRepresentative(a);
        ghost var f, mid := history[atA], Now();
        b, atB := FindRepresentative(b);
        ghost var g := history[atB];
        BothFound(start, f, mid, g, Now(), a0, a, b0, b, x, y);
        SameJoins(Now(), a, b, x, y);
        if a == b { return true, |history| - 1; }
        ghost var before := Now();
        var w := Load(a);
        LastIsValid(history, n);
        if w < 0 {
          ApartWhenFound(start, f, mid, g, before, Now(), a0, a, b0, b, x, y);
          return false, atB;
        }
        NextRound(start, f, before, Now(), a, a, b, x, y);
      }
    }
  }
}
