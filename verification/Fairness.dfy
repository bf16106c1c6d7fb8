/** Fair schedules: nobody is left out for ever. */
module Fairness {

  ghost predicate Again(sched: nat -> nat, i: nat, t: nat) {
    exists j :: i <= j && sched(j) == t
  }

  /** Only threads below n are scheduled, and each of them again and again. */
  ghost predicate Fair(sched: nat -> nat, n: nat) {
    && (forall j :: sched(j) < n)
    && forall i: nat, t: nat :: t < n ==> Again(sched, i, t)
  }

  /** When thread t runs next, from step i on. */
  ghost function NextTurn(sched: nat -> nat, n: nat, i: nat, t: nat): (j: nat)
    requires Fair(sched, n) && t < n
    ensures i <= j && sched(j) == t
  {
    assert Again(sched, i, t);
    var j :| i <= j && sched(j) == t;
    j
  }

  /** 0, 1, ..., n - 1, 0, 1, ... */
  function Turn(n: nat, j: nat): (t: nat)
    requires n > 0
    ensures t < n
  {
    if j == 0 || Turn(n, j - 1) + 1 == n then 0 else Turn(n, j - 1) + 1
  }

  function RoundRobin(n: nat): nat -> nat
    requires n > 0
  {
    j => Turn(n, j)
  }

  lemma {:induction false} TurnsFollow(n: nat, j: nat, d: nat)
    requires n > 0 && Turn(n, j) + d < n
    ensures Turn(n, j + d) == Turn(n, j) + d
  {
    if d > 0 { TurnsFollow(n, j, d - 1); }
  }

  lemma RoundRobinIsFair(n: nat)
    requires n > 0
    ensures Fair(RoundRobin(n), n)
  {
    forall i: nat, t: nat | t < n ensures Again(RoundRobin(n), i, t) {
      var p := Turn(n, i);
      TurnsFollow(n, i, n - 1 - p);
      var start := i + n - p;
      assert Turn(n, start) == 0;
      TurnsFollow(n, start, t);
      assert RoundRobin(n)(start + t) == t;
    }
  }

  /** Between steps k and k + 1 the measure (main, rest) falls, or nothing changes and the helper was not scheduled. */
  ghost predicate Advances(sched: nat -> nat, main: nat -> nat, rest: nat -> nat, helper: nat -> nat, k: nat) {
    || main(k + 1) < main(k)
    || (main(k + 1) == main(k) && rest(k + 1) < rest(k))
    || (main(k + 1) == main(k) && rest(k + 1) == rest(k) && helper(k + 1) == helper(k) && sched(k) != helper(k))
  }

  ghost predicate Eventually(done: nat -> bool) { exists k :: done(k) }

  /** A fair run ends if in every unfinished state there is a helper whose turn, when it comes, lowers the measure. */
  lemma {:induction false} FairEnds(sched: nat -> nat, n: nat, main: nat -> nat, rest: nat -> nat, helper: nat -> nat,
                                    done: nat -> bool, k: nat, j: nat)
    requires Fair(sched, n) && k <= j && (done(k) || sched(j) == helper(k))
    requires forall i {:trigger done(i)} :: done(i) || (helper(i) < n && Advances(sched, main, rest, helper, i))
    ensures Eventually(done)
    decreases main(k), rest(k), j - k
  {
    hide Fair;
    if done(k) || done(k + 1) {
    } else if main(k + 1) == main(k) && rest(k + 1) == rest(k) {
      FairEnds(sched, n, main, rest, helper, done, k + 1, j);
    } else {
      FairEnds(sched, n, main, rest, helper, done, k + 1, NextTurn(sched, n, k + 1, helper(k + 1)));
    }
  }

  lemma FairEndsFromStart(sched: nat -> nat, n: nat, main: nat -> nat, rest: nat -> nat, helper: nat -> nat,
                          done: nat -> bool)
    requires Fair(sched, n)
    requires forall i {:trigger done(i)} :: done(i) || (helper(i) < n && Advances(sched, main, rest, helper, i))
    ensures Eventually(done)
  {
    hide Fair;
    if !done(0) { FairEnds(sched, n, main, rest, helper, done, 0, NextTurn(sched, n, 0, helper(0))); }
  }
}
