/** Assignments to a shared array, logged thread by thread, and what every interleaving of the logs leaves behind. */
module Writes {

  datatype Write = Write(node: nat, parent: int)

  function Written(parents: seq<int>, log: seq<Write>): (after: seq<int>)
    ensures |after| == |parents|
  {
    if log == [] then parents
    else
      var w, after := log[|log| - 1], Written(parents, log[..|log| - 1]);
      if w.node < |after| then after[w.node := w.parent] else after
  }

  lemma WrittenMore(parents: seq<int>, log: seq<Write>, w: Write)
    ensures var after := Written(parents, log);
      Written(parents, log + [w]) == if w.node < |after| then after[w.node := w.parent] else after
  {
    assert (log + [w])[..|log|] == log;
  }

  lemma {:induction false} WrittenAt(p: seq<int>, q: seq<int>, log: seq<Write>, v: nat)
    requires |p| == |q| && v < |p| && p[v] == q[v]
    ensures Written(p, log)[v] == Written(q, log)[v]
  {
    if log != [] { WrittenAt(p, q, log[..|log| - 1], v); }
  }

  /** A write of thread t. */
  datatype Turn = Turn(t: nat, w: Write)

  function WritesOf(turns: seq<Turn>, t: nat): seq<Write> {
    if turns == [] then []
    else
      var last := turns[|turns| - 1];
      WritesOf(turns[..|turns| - 1], t) + if last.t == t then [last.w] else []
  }

  function AllWrites(turns: seq<Turn>): seq<Write> {
    if turns == [] then [] else AllWrites(turns[..|turns| - 1]) + [turns[|turns| - 1].w]
  }

  /** The turns are some interleaving of the threads' writes. */
  predicate Interleaves(turns: seq<Turn>, logs: seq<seq<Write>>) {
    && (forall i :: 0 <= i < |turns| ==> turns[i].t < |logs|)
    && forall t :: 0 <= t < |logs| ==> WritesOf(turns, t) == logs[t]
  }

  lemma {:induction false} WriteOfTurn(turns: seq<Turn>, i: nat)
    requires i < |turns|
    ensures turns[i].w in WritesOf(turns, turns[i].t)
  {
    if i < |turns| - 1 { WriteOfTurn(turns[..|turns| - 1], i); }
  }

  /** If only thread t writes node v, the interleaving does not matter for v. */
  lemma {:induction false} OnlyOwnerWrites(parents: seq<int>, turns: seq<Turn>, t: nat, v: nat)
    requires v < |parents| && forall i :: 0 <= i < |turns| && turns[i].t != t ==> turns[i].w.node != v
    ensures Written(parents, AllWrites(turns))[v] == Written(parents, WritesOf(turns, t))[v]
  {
    if turns != [] {
      var before, last := turns[..|turns| - 1], turns[|turns| - 1];
      OnlyOwnerWrites(parents, before, t, v);
      WrittenMore(parents, AllWrites(before), last.w);
      WrittenMore(parents, WritesOf(before, t), last.w);
      assert turns[|turns| - 1].t != t ==> turns[|turns| - 1].w.node != v;
      assert AllWrites(turns) == AllWrites(before) + [last.w];
      assert WritesOf(turns, t) == if last.t == t then WritesOf(before, t) + [last.w] else WritesOf(before, t);
      hide Written;
    }
  }
}
