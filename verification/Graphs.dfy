/** Undirected multigraphs on natural-number nodes: connectivity, and what it means to be a forest. */
module Graphs {

  datatype Edge = Edge(a: nat, b: nat)

  predicate Adjacent(E: multiset<Edge>, x: nat, y: nat) {
    Edge(x, y) in E || Edge(y, x) in E
  }

  predicate StepAt(E: multiset<Edge>, w: seq<nat>, i: nat)
    requires i + 1 < |w|
  {
    Adjacent(E, w[i], w[i + 1])
  }

  ghost predicate Walk(E: multiset<Edge>, w: seq<nat>, x: nat, y: nat) {
    && w != [] && w[0] == x && w[|w| - 1] == y
    && forall i :: 0 <= i < |w| - 1 ==> StepAt(E, w, i)
  }

  /** x and y are joined by a walk along the edges of E. */
  ghost predicate Conn(E: multiset<Edge>, x: nat, y: nat) {
    exists w :: Walk(E, w, x, y)
  }

  /** No edge is redundant: deleting one occurrence of an edge always separates its endpoints. */
  ghost predicate Acyclic(E: multiset<Edge>) {
    forall e :: e in E ==> !Conn(E - multiset{e}, e.a, e.b)
  }

  predicate Within(E: multiset<Edge>, n: nat) {
    forall e :: e in E ==> e.a < n && e.b < n
  }

  lemma ConnRefl(E: multiset<Edge>, x: nat)
    ensures Conn(E, x, x)
  {
    assert Walk(E, [x], x, x);
  }

  lemma ConnStep(E: multiset<Edge>, x: nat, y: nat)
    requires Adjacent(E, x, y)
    ensures Conn(E, x, y)
  {
    assert Walk(E, [x, y], x, y);
  }

  lemma ConnTrans(E: multiset<Edge>, x: nat, y: nat, z: nat)
    requires Conn(E, x, y) && Conn(E, y, z)
    ensures Conn(E, x, z)
  {
    var v, w :| Walk(E, v, x, y) && Walk(E, w, y, z);
    var u := v + w[1..];
    assert u[|u| - 1] == z by { if |w| > 1 { assert u[|u| - 1] == w[|w| - 1]; } }
    forall i | 0 <= i < |u| - 1 ensures StepAt(E, u, i) {
      if i < |v| - 1 {
        assert StepAt(E, v, i);
      } else {
        assert StepAt(E, w, i - |v| + 1);
        assert u[i + 1] == w[i - |v| + 2] && u[i] == w[i - |v| + 1];
      }
    }
    assert Walk(E, u, x, z);
  }

  lemma ConnSym(E: multiset<Edge>, x: nat, y: nat)
    requires Conn(E, x, y)
    ensures Conn(E, y, x)
  {
    var w :| Walk(E, w, x, y);
    var u := seq(|w|, i requires 0 <= i < |w| => w[|w| - 1 - i]);
    forall i | 0 <= i < |u| - 1 ensures StepAt(E, u, i) {
      assert StepAt(E, w, |w| - 2 - i);
    }
    assert Walk(E, u, y, x);
  }

  lemma ConnMono(E: multiset<Edge>, F: multiset<Edge>, x: nat, y: nat)
    requires Conn(E, x, y)
    requires forall e :: e in E ==> e in F
    ensures Conn(F, x, y)
  {
    var w :| Walk(E, w, x, y);
    forall i | 0 <= i < |w| - 1 ensures StepAt(F, w, i) { assert StepAt(E, w, i); }
    assert Walk(F, w, x, y);
  }

  /** A labelling that every edge respects is constant on connected nodes. */
  lemma {:induction false} WalkLabels<L>(E: multiset<Edge>, n: nat, w: seq<nat>, x: nat, y: nat, tag: seq<L>)
    requires Walk(E, w, x, y) && Within(E, n) && |tag| == n && x < n
    requires forall e :: e in E ==> tag[e.a] == tag[e.b]
    ensures y < n && tag[x] == tag[y]
    decreases |w|
  {
    if |w| > 1 {
      assert StepAt(E, w, 0);
      forall i | 0 <= i < |w| - 2 ensures StepAt(E, w[1..], i) { assert StepAt(E, w, i + 1); }
      WalkLabels(E, n, w[1..], w[1], y, tag);
    }
  }

  lemma ConnLabels<L>(E: multiset<Edge>, n: nat, x: nat, y: nat, tag: seq<L>)
    requires Conn(E, x, y) && Within(E, n) && |tag| == n && x < n
    requires forall e :: e in E ==> tag[e.a] == tag[e.b]
    ensures y < n && tag[x] == tag[y]
  {
    var w :| Walk(E, w, x, y);
    WalkLabels(E, n, w, x, y, tag);
  }

  ghost predicate Across(E: multiset<Edge>, e: Edge, x: nat, y: nat) {
    || Conn(E, x, y)
    || (Conn(E, x, e.a) && Conn(E, e.b, y))
    || (Conn(E, x, e.b) && Conn(E, e.a, y))
  }

  lemma {:induction false} WalkAcross(E: multiset<Edge>, e: Edge, w: seq<nat>, x: nat, y: nat)
    requires Walk(E + multiset{e}, w, x, y)
    ensures Across(E, e, x, y)
    decreases |w|
  {
    if |w| == 1 {
      ConnRefl(E, x);
    } else {
      var z := w[1];
      assert StepAt(E + multiset{e}, w, 0);
      forall i | 0 <= i < |w| - 2 ensures StepAt(E + multiset{e}, w[1..], i) {
        assert StepAt(E + multiset{e}, w, i + 1);
      }
      WalkAcross(E, e, w[1..], z, y);
      ConnRefl(E, x);
      ConnRefl(E, z);
      if Adjacent(E, x, z) {
        ConnStep(E, x, z);
        AcrossPrepend(E, e, x, z, y);
      }
    }
  }

  lemma AcrossPrepend(E: multiset<Edge>, e: Edge, x: nat, z: nat, y: nat)
    requires Conn(E, x, z) && Across(E, e, z, y)
    ensures Across(E, e, x, y)
  {
    if Conn(E, z, y) { ConnTrans(E, x, z, y); }
    else if Conn(E, z, e.a) && Conn(E, e.b, y) { ConnTrans(E, x, z, e.a); }
    else { ConnTrans(E, x, z, e.b); }
  }

  /** Adding one edge connects exactly what it bridges. */
  lemma ConnAdd(E: multiset<Edge>, e: Edge, x: nat, y: nat)
    ensures Conn(E + multiset{e}, x, y) <==> Across(E, e, x, y)
  {
    var F := E + multiset{e};
    if Conn(F, x, y) {
      var w :| Walk(F, w, x, y);
      WalkAcross(E, e, w, x, y);
    }
    if Across(E, e, x, y) {
      ConnStep(F, e.a, e.b);
      ConnStep(F, e.b, e.a);
      if Conn(E, x, y) { ConnMono(E, F, x, y); }
      else if Conn(E, x, e.a) && Conn(E, e.b, y) {
        ConnMono(E, F, x, e.a); ConnMono(E, F, e.b, y);
        ConnTrans(F, x, e.a, e.b); ConnTrans(F, x, e.b, y);
      } else {
        ConnMono(E, F, x, e.b); ConnMono(E, F, e.a, y);
        ConnTrans(F, x, e.b, e.a); ConnTrans(F, x, e.a, y);
      }
    }
  }

  /** An edge between two components keeps a forest a forest. */
  lemma AcyclicAdd(E: multiset<Edge>, e: Edge)
    requires Acyclic(E) && !Conn(E, e.a, e.b)
    ensures Acyclic(E + multiset{e})
  {
    var F := E + multiset{e};
    assert F - multiset{e} == E;
    forall d | d in F ensures !Conn(F - multiset{d}, d.a, d.b) {
      if d != e && Conn(F - multiset{d}, d.a, d.b) {
        var D := E - multiset{d};
        assert F - multiset{d} == D + multiset{e};
        ConnAdd(D, e, d.a, d.b);
        ConnStep(E, d.a, d.b);
        ConnStep(E, d.b, d.a);
        if Conn(D, d.a, e.a) && Conn(D, e.b, d.b) {
          ConnMono(D, E, d.a, e.a); ConnMono(D, E, e.b, d.b);
          ConnSym(E, d.a, e.a); ConnSym(E, e.b, d.b);
          ConnTrans(E, e.a, d.a, d.b); ConnTrans(E, e.a, d.b, e.b);
        } else if Conn(D, d.a, e.b) && Conn(D, e.a, d.b) {
          ConnMono(D, E, d.a, e.b); ConnMono(D, E, e.a, d.b);
          ConnTrans(E, e.a, d.b, d.a); ConnTrans(E, e.a, d.a, e.b);
        }
      }
    }
  }
}
