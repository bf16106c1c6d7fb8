/** What ties a union-find to the edges that were linked: they form a forest with the same components. */
module Spanning {
  import opened Sets
  import opened Graphs
  import opened Forest

  predicate OnNodes(e: Edge, n: nat) { e.a < n && e.b < n }

  ghost predicate Represents(f: Forest, links: seq<Edge>) {
    && Shaped(f)
    && Within(multiset(links), |f.words|)
    && Acyclic(multiset(links))
    && (forall x, y :: 0 <= x < |f.words| && 0 <= y < |f.words| ==> (Same(f, x, y) <==> Conn(multiset(links), x, y)))
    && |Roots(f)| + |links| == |f.words|
  }

  /** x and y are together once the components of e's endpoints are merged. */
  predicate Merged(f: Forest, e: Edge, x: nat, y: nat)
    requires Shaped(f) && OnNodes(e, |f.words|) && x < |f.words| && y < |f.words|
  {
    || Same(f, x, y)
    || (Same(f, x, e.a) && Same(f, e.b, y))
    || (Same(f, x, e.b) && Same(f, e.a, y))
  }

  /** g is f with the components of e merged. */
  ghost predicate Merges(f: Forest, e: Edge, g: Forest)
    requires Shaped(f) && OnNodes(e, |f.words|)
  {
    && Shaped(g) && |g.words| == |f.words|
    && (forall x, y :: 0 <= x < |f.words| && 0 <= y < |f.words| ==> (Same(g, x, y) <==> Merged(f, e, x, y)))
    && |Roots(g)| == |Roots(f)| - 1
  }

  lemma RepresentsLink(f: Forest, links: seq<Edge>, e: Edge, g: Forest)
    requires Represents(f, links) && OnNodes(e, |f.words|) && !Same(f, e.a, e.b) && Merges(f, e, g)
    ensures Represents(g, links + [e])
  {
    var L := multiset(links);
    assert multiset(links + [e]) == L + multiset{e};
    AcyclicAdd(L, e);
    forall x, y | 0 <= x < |f.words| && 0 <= y < |f.words|
      ensures Same(g, x, y) <==> Conn(L + multiset{e}, x, y)
    {
      ConnAdd(L, e, x, y);
    }
  }

  lemma InitiallyRepresents(n: nat, f: Forest)
    requires Shaped(f) && |f.words| == n && forall u :: 0 <= u < n ==> f.words[u] < 0
    ensures Represents(f, [])
  {
    forall x, y | 0 <= x < n && 0 <= y < n ensures Same(f, x, y) <==> Conn(multiset([]), x, y) {
      if Same(f, x, y) { ConnRefl(multiset([]), x); }
      if Conn(multiset([]), x, y) { ConnLabels(multiset([]), n, x, y, seq(n, i => i)); }
    }
    assert Roots(f) == Upto(n);
  }

  /** If every given edge is joined and only given edges were linked, the components are those of the given graph. */
  lemma GivenMatches(f: Forest, kept: multiset<Edge>, given: multiset<Edge>, x: nat, y: nat)
    requires Shaped(f) && x < |f.words| && y < |f.words|
    requires Same(f, x, y) <==> Conn(kept, x, y)
    requires forall e :: e in kept ==> e in given
    requires forall e :: e in given ==> OnNodes(e, |f.words|) && Same(f, e.a, e.b)
    ensures Same(f, x, y) <==> Conn(given, x, y)
  {
    var n := |f.words|;
    if Same(f, x, y) { ConnMono(kept, given, x, y); }
    if Conn(given, x, y) { ConnLabels(given, n, x, y, seq(n, u requires 0 <= u < n => Root(f, u))); }
  }

  ghost function Image(f: Forest, s: set<nat>): (t: set<nat>)
    requires Shaped(f) && forall u :: u in s ==> u < |f.words|
  {
    set u | u in s :: Root(f, u)
  }

  lemma {:induction false} InjectiveImage(f: Forest, s: set<nat>)
    requires Shaped(f) && forall u :: u in s ==> u < |f.words|
    requires forall u, v :: u in s && v in s && Same(f, u, v) ==> u == v
    ensures |Image(f, s)| == |s|
  {
    hide Root;
    if s != {} {
      var u :| u in s;
      var rest := s - {u};
      InjectiveImage(f, rest);
      assert Root(f, u) !in Image(f, rest) by {
        forall v | v in rest ensures Root(f, v) != Root(f, u) { assert !Same(f, u, v); }
      }
      assert Image(f, s) == Image(f, rest) + {Root(f, u)};
    }
  }

  lemma AtMostAsManyRoots(f: Forest, g: Forest)
    requires Shaped(f) && Shaped(g) && |f.words| == |g.words|
    requires forall x, y :: 0 <= x < |f.words| && 0 <= y < |f.words| && Same(g, x, y) ==> Same(f, x, y)
    ensures |Roots(f)| <= |Roots(g)|
  {
    forall u, v | u in Roots(f) && v in Roots(f) && Same(g, u, v) ensures u == v {
      assert Same(f, u, v);
    }
    InjectiveImage(g, Roots(f));
    SubsetSize(Image(g, Roots(f)), Roots(g));
  }

  /** Two union-finds fed the same edges have the same components and kept equally many edges. */
  lemma SameGivenSameResult(f: Forest, links: seq<Edge>, g: Forest, links': seq<Edge>, given: multiset<Edge>)
    requires Represents(f, links) && Represents(g, links') && |f.words| == |g.words|
    requires forall x, y :: 0 <= x < |f.words| && 0 <= y < |f.words| ==> (Same(f, x, y) <==> Conn(given, x, y))
    requires forall x, y :: 0 <= x < |f.words| && 0 <= y < |f.words| ==> (Same(g, x, y) <==> Conn(given, x, y))
    ensures forall x, y :: 0 <= x < |f.words| && 0 <= y < |f.words| ==> (Same(f, x, y) <==> Same(g, x, y))
    ensures |links| == |links'| && |Roots(f)| == |Roots(g)|
  {
    hide Represents;
    ShapedOf(f, links);
    ShapedOf(g, links');
    AtMostAsManyRoots(f, g);
    AtMostAsManyRoots(g, f);
    RootsOf(f, links);
    RootsOf(g, links');
  }

  lemma ShapedOf(f: Forest, links: seq<Edge>)
    requires Represents(f, links)
    ensures Shaped(f)
  {}

  lemma RootsOf(f: Forest, links: seq<Edge>)
    requires Represents(f, links)
    ensures |Roots(f)| + |links| == |f.words|
  {}

  /** The kept edges are a spanning forest of the given ones. */
  ghost predicate SpansGiven(f: Forest, kept: seq<Edge>, given: multiset<Edge>) {
    && Represents(f, kept)
    && (forall e :: e in kept ==> e in given)
    && (forall e :: e in given ==> OnNodes(e, |f.words|) && Same(f, e.a, e.b))
  }

  lemma ShapedGiven(f: Forest, kept: seq<Edge>, given: multiset<Edge>)
    requires SpansGiven(f, kept, given)
    ensures Shaped(f)
  {}

  lemma ComponentsAreGiven(f: Forest, kept: seq<Edge>, given: multiset<Edge>, x: nat, y: nat)
    requires SpansGiven(f, kept, given) && x < |f.words| && y < |f.words|
    ensures Same(f, x, y) <==> Conn(given, x, y)
  {
    GivenMatches(f, multiset(kept), given, x, y);
  }

  lemma SpansRepresents(f: Forest, kept: seq<Edge>, given: multiset<Edge>)
    requires SpansGiven(f, kept, given)
    ensures Represents(f, kept) && forall e :: e in kept ==> e in given
  {}
}
