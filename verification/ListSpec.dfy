/** The sequential list: what a call does to the contents and what it answers. */
module ListSpec {
  import opened Sets

  datatype Op = Insert(value: int) | Find(value: int) | Erase(value: int)

  /** The contents with the first occurrence of v taken out. */
  function Without(contents: seq<int>, v: int): seq<int> {
    if contents == [] then []
    else if contents[0] == v then contents[1..]
    else [contents[0]] + Without(contents[1..], v)
  }

  /** The sequential list: what a call leaves behind. */
  function After(contents: seq<int>, op: Op): seq<int> {
    match op
    case Insert(v) => if v in contents then contents else contents + [v]
    case Find(_) => contents
    case Erase(v) => Without(contents, v)
  }

  /** The sequential list: what a call answers. */
  predicate Answer(contents: seq<int>, op: Op) {
    match op
    case Insert(v) => v !in contents
    case Find(v) => v in contents
    case Erase(v) => v in contents
  }

  lemma {:induction false} WithoutAt(contents: seq<int>, k: nat, v: int)
    requires k < |contents| && contents[k] == v && v !in contents[..k]
    ensures Without(contents, v) == contents[..k] + contents[k + 1..]
  {
    if k > 0 {
      assert contents[0] in contents[..k];
      assert contents[1..][..k - 1] == contents[1..k];
      assert v !in contents[1..k] by { assert forall x :: x in contents[1..k] ==> x in contents[..k]; }
      WithoutAt(contents[1..], k - 1, v);
      assert contents[1..][k..] == contents[k + 1..];
      assert contents[..k] == [contents[0]] + contents[1..k];
    }
  }

  lemma {:induction false} WithoutAbsent(contents: seq<int>, v: int)
    requires v !in contents
    ensures Without(contents, v) == contents
  {
    if contents != [] { WithoutAbsent(contents[1..], v); }
  }

  lemma {:induction false} WithoutMembers(contents: seq<int>, v: int)
    requires Distinct(contents)
    ensures Distinct(Without(contents, v))
    ensures forall x :: x in Without(contents, v) <==> x in contents && x != v
  {
    if contents != [] {
      var c, rest := contents[0], contents[1..];
      assert c !in rest && forall x :: x in contents <==> x == c || x in rest;
      assert Distinct(rest);
      WithoutMembers(rest, v);
    }
  }

  /** The list is a set: no value twice, and the operations add, look up and remove one element. */
  lemma SetSemantics(contents: seq<int>, op: Op, x: int)
    requires Distinct(contents)
    ensures Distinct(After(contents, op))
    ensures x in After(contents, op) <==>
      (op.Insert? && x == op.value) || (x in contents && !(op.Erase? && x == op.value))
  {
    match op
    case Insert(v) =>
      if v !in contents { DistinctMore(contents, v); }
    case Find(_) =>
    case Erase(v) => WithoutMembers(contents, v);
  }

  lemma {:induction false} WithoutShorter(contents: seq<int>, v: int)
    requires v in contents
    ensures |Without(contents, v)| == |contents| - 1
  {
    if contents[0] != v { WithoutShorter(contents[1..], v); }
  }

  /**
   Answers tell effects: an insertion or erasure says true exactly if it changes the list, and a lookup exactly if
   inserting the value would change nothing.
   */
  lemma AnswersTellEffects(contents: seq<int>, op: Op)
    ensures !op.Find? ==> (Answer(contents, op) <==> After(contents, op) != contents)
    ensures op.Find? ==> (Answer(contents, op) <==> After(contents, Insert(op.value)) == contents)
  {
    var v := op.value;
    if v in contents { WithoutShorter(contents, v); } else { WithoutAbsent(contents, v); }
  }

  lemma DistinctMore(contents: seq<int>, v: int)
    requires Distinct(contents) && v !in contents
    ensures Distinct(contents + [v])
  {}
}
