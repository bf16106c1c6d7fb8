/** The list behind one lock: each call runs alone, so the class and its contract are the sequential list. */
module SingleMutexList {

  import opened ListSpec

  class Node {
    const value: int
    var next: Node?

    constructor (v: int)
      ensures value == v && next == null
    {
      value := v;
      next := null;
    }
  }

  class SingleMutexList {
    var head: Node?
    ghost var chain: seq<Node>

    ghost predicate Valid()
      reads this, chain
    {
      && (head == if chain == [] then null else chain[0])
      && (forall i, j :: 0 <= i < j < |chain| ==> chain[i] != chain[j])
      && (forall i {:trigger Succ(chain, i)} :: 0 <= i < |chain| ==> chain[i].next == Succ(chain, i))
    }

    ghost function Contents(): (contents: seq<int>)
      reads this
    {
      Values(chain)
    }

    constructor ()
      ensures Valid() && Contents() == []
    {
      head := null;
      chain := [];
    }

    method Insert(value: int) returns (inserted: bool)
      requires Valid()
      modifies this, chain
      ensures Valid() && fresh(set x | x in chain && x !in old(chain))
      ensures Contents() == After(old(Contents()), Op.Insert(value))
      ensures inserted == Answer(old(Contents()), Op.Insert(value))
      ensures inserted <==> Contents() != old(Contents())
    {
      var node := head;
      if node != null {
        ghost var i: nat := 0;
        while node.next != null
          invariant i < |chain| && node == chain[i]
          invariant forall j :: 0 <= j < i ==> chain[j].value != value
          decreases |chain| - i
        {
          if node.value == value {
            assert Contents()[i] == value;
            return false;
          }
          assert node.next == Succ(chain, i);
          node := node.next;
          i := i + 1;
        }
        if node.value == value {
          assert Contents()[i] == value;
          return false;
        }
        assert node.next == Succ(chain, i);
        Append(node, i, value);
        Appended(old(chain), chain, value);
      } else {
        head := new Node(value);
        chain := [head];
      }
      return true;
    }

    method Append(node: Node, ghost i: nat, value: int)
      requires Valid() && i < |chain| && node == chain[i] && node.next == null
      modifies this, chain
      ensures Valid() && |chain| == old(|chain|) + 1 && chain[..old(|chain|)] == old(chain)
      ensures fresh(chain[old(|chain|)]) && chain[old(|chain|)].value == value
    {
      assert node.next == Succ(chain, i);
      ghost var before := chain;
      forall j | 0 <= j < |before| ensures before[j].next == Succ(before, j) {}
      var last := new Node(value);
      node.next := last;
      chain := before + [last];
      forall j | 0 <= j < |chain| ensures chain[j].next == Succ(chain, j) {
        if j < i { assert before[j] != before[i] && before[j].next == Succ(before, j); }
      }
    }

    method Find(value: int) returns (found: bool)
      requires Valid()
      ensures found == Answer(Contents(), Op.Find(value))
      ensures found <==> value in Contents()
    {
      var node := head;
      ghost var i: nat := 0;
      while node != null
        invariant i <= |chain| && node == (if i < |chain| then chain[i] else null)
        invariant forall j :: 0 <= j < i ==> chain[j].value != value
        decreases |chain| - i
      {
        if node.value == value {
          assert Contents()[i] == value;
          return true;
        }
        assert node.next == Succ(chain, i);
        node := node.next;
        i := i + 1;
      }
      return false;
    }

    method Erase(value: int) returns (erased: bool)
      requires Valid()
      modifies this, chain
      ensures Valid() && (forall x :: x in chain ==> x in old(chain))
      ensures Contents() == After(old(Contents()), Op.Erase(value))
      ensures erased == Answer(old(Contents()), Op.Erase(value))
      ensures erased <==> Contents() != old(Contents())
    {
      var prev: Node? := null;
      var node := head;
      ghost var i: nat := 0;
      while node != null && node.value != value
        invariant i <= |chain| && node == (if i < |chain| then chain[i] else null)
        invariant prev == (if i == 0 then null else chain[i - 1])
        invariant forall j :: 0 <= j < i ==> chain[j].value != value
        decreases |chain| - i
      {
        assert node.next == Succ(chain, i);
        prev := node;
        node := node.next;
        i := i + 1;
      }
      if node == null {
        WithoutAbsent(Contents(), value);
        return false;
      }
      Unlinked(chain, i, value);
      Splice(prev, node, i);
      return true;
    }

    method Splice(prev: Node?, node: Node, ghost i: nat)
      requires Valid() && i < |chain| && node == chain[i] && prev == (if i == 0 then null else chain[i - 1])
      modifies this, chain
      ensures Valid() && chain == old(chain[..i] + chain[i + 1..])
    {
      ghost var before := chain;
      assert node.next == Succ(before, i);
      forall j | 0 <= j < |before| ensures before[j].next == Succ(before, j) {}
      if prev != null { prev.next := node.next; } else { head := node.next; }
      chain := before[..i] + before[i + 1..];
      forall j | 0 <= j < |chain| ensures chain[j].next == Succ(chain, j) {
        var was := if j < i then j else j + 1;
        assert before[was].next == if was + 1 == i then Succ(before, i) else Succ(before, was);
        SuccOfRest(before, i, j);
      }
    }
  }

  /** What the i-th node of the chain points to. */
  ghost function Succ(chain: seq<Node>, i: nat): Node?
    requires i < |chain|
  {
    if i + 1 < |chain| then chain[i + 1] else null
  }

  lemma SuccOfRest(chain: seq<Node>, i: nat, j: nat)
    requires i < |chain| && j < |chain| - 1
    ensures var rest, was := chain[..i] + chain[i + 1..], if j < i then j else j + 1;
      rest[j] == chain[was] && Succ(rest, j) == if was + 1 == i then Succ(chain, i) else Succ(chain, was)
  {}

  ghost function Values(chain: seq<Node>): (values: seq<int>)
    ensures |values| == |chain| && forall i :: 0 <= i < |chain| ==> values[i] == chain[i].value
  {
    seq(|chain|, i requires 0 <= i < |chain| => chain[i].value)
  }

  lemma Appended(chain: seq<Node>, more: seq<Node>, v: int)
    requires |more| == |chain| + 1 && more[..|chain|] == chain && more[|chain|].value == v
    ensures Values(more) == Values(chain) + [v]
  {
    forall i | 0 <= i < |chain| ensures more[i] == chain[i] { assert more[..|chain|][i] == chain[i]; }
  }

  lemma Unlinked(chain: seq<Node>, i: nat, v: int)
    requires i < |chain| && chain[i].value == v && forall j :: 0 <= j < i ==> chain[j].value != v
    ensures Without(Values(chain), v) == Values(chain[..i] + chain[i + 1..]) && v in Values(chain)
  {
    assert Values(chain)[i] == v;
    WithoutAt(Values(chain), i, v);
    assert Values(chain[..i] + chain[i + 1..]) == Values(chain)[..i] + Values(chain)[i + 1..];
  }
}
