/** Relabelling a graph by a vertex permutation, and what it keeps. */
module Relabeling {
  import opened Wrappers
  import opened Graphs
  import opened Sorting
  import opened Models
  import opened CubicGraphs
  import ToyBackend
  import opened Permutations
  import opened Isomorphism

  predicate IsPermutation(p: seq<int>, n: int)
    ensures IsPermutation(p, n) <==> n >= 0 && Permutation(p, n)
  {
    if n >= 0 && |p| == n then
      PermutationBySet(p, n);
      Vertices(p) == UpTo(n)
    else false
  }

  lemma PermutationBySet(p: seq<int>, n: nat)
    requires |p| == n
    ensures Vertices(p) == UpTo(n) <==> Permutation(p, n)
  {
    if Vertices(p) == UpTo(n) {
      assert forall i :: 0 <= i < n ==> p[i] in Vertices(p);
      VerticesShrink(p);
    } else if Permutation(p, n) {
      DistinctCount(p);
      SubsetCount(Vertices(p), UpTo(n));
    }
  }

  lemma {:induction false} VerticesShrink(p: seq<int>)
    ensures |Vertices(p)| <= |p|
    ensures |Vertices(p)| == |p| ==> Distinct(p)
  {
    if p != [] {
      var n := |p| - 1;
      var front := p[..n];
      VerticesShrink(front);
      assert p == front + [p[n]];
      AppendedVertex(front, p[n]);
      assert Distinct(front) && p[n] !in front ==> Distinct(p) by {
        assert forall i :: 0 <= i < n ==> front[i] == p[i] && front[i] in front;
      }
    }
  }

  /** The edge map of a permutation, left alone outside the vertex range. */
  function EdgeMap(p: seq<int>): Edge -> Edge {
    (e: Edge) => if IsEdge(|p|, e) then MappedEdge(e, p) else e
  }

  function Relabelled(g: GraphState, p: seq<int>): GraphState {
    MakeState(g.order, Map(EdgeMap(p), g.edges))
  }

  lemma RelabelledEdges(g: GraphState, p: seq<int>)
    requires EndpointsInRange(g) && Permutation(p, g.order)
    ensures Canonical(Relabelled(g, p))
    ensures multiset(Relabelled(g, p).edges) == multiset(Map(EdgeMap(p), g.edges))
  {
    assert Normalized(Map(EdgeMap(p), g.edges)) == Map(EdgeMap(p), g.edges);
    MadeCanonical(g.order, Map(EdgeMap(p), g.edges));
  }

  /** Fails exactly when p is not a permutation; otherwise every edge is renamed, and nothing else changes. */
  function ApplyPermutation(g: GraphState, p: seq<int>): (r: Option<GraphState>)
    requires EndpointsInRange(g)
    ensures r.Some? <==> Permutation(p, g.order)
    ensures r.Some? ==> r.value.order == g.order && Canonical(r.value)
                        && multiset(r.value.edges) == multiset(Map(EdgeMap(p), g.edges))
  {
    if IsPermutation(p, g.order) then
      RelabelledEdges(g, p);
      Some(Relabelled(g, p))
    else None
  }

  /** The image of an edge is an edge of the relabelled graph. */
  lemma EdgeForth(g: GraphState, p: seq<int>, e: Edge)
    requires EndpointsInRange(g) && Permutation(p, g.order) && e in g.edges
    ensures IsEdge(g.order, e) && MappedEdge(e, p) in Relabelled(g, p).edges
  {
    var mapped := Map(EdgeMap(p), g.edges);
    var i :| 0 <= i < |g.edges| && g.edges[i] == e;
    assert mapped[i] == MappedEdge(e, p) && mapped[i] in multiset(mapped);
    RelabelledEdges(g, p);
  }

  /** Every edge of the relabelled graph is the image of an edge. */
  lemma EdgeBack(g: GraphState, p: seq<int>, f: Edge) returns (e: Edge)
    requires EndpointsInRange(g) && Permutation(p, g.order) && f in Relabelled(g, p).edges
    ensures e in g.edges && IsEdge(g.order, e) && MappedEdge(e, p) == f
  {
    var mapped := Map(EdgeMap(p), g.edges);
    RelabelledEdges(g, p);
    assert f in multiset(mapped);
    var i :| 0 <= i < |mapped| && mapped[i] == f;
    e := g.edges[i];
  }

  lemma RelabelledInRange(g: GraphState, p: seq<int>)
    requires EndpointsInRange(g) && Permutation(p, g.order)
    ensures EndpointsInRange(Relabelled(g, p))
  {
    var h := Relabelled(g, p);
    forall i | 0 <= i < |h.edges| ensures IsEdge(h.order, h.edges[i]) {
      var e := EdgeBack(g, p, h.edges[i]);
    }
  }

  lemma JoinsImage(g: GraphState, p: seq<int>, u: int, v: int)
    requires EndpointsInRange(g) && Permutation(p, g.order) && 0 <= u < g.order && 0 <= v < g.order
    ensures Joins(g.edges, u, v) ==> Joins(Relabelled(g, p).edges, p[u], p[v])
  {
    if (u, v) in g.edges {
      EdgeForth(g, p, (u, v));
    } else if (v, u) in g.edges {
      EdgeForth(g, p, (v, u));
    }
  }

  lemma JoinsPreimage(g: GraphState, p: seq<int>, u: int, v: int)
    requires EndpointsInRange(g) && Permutation(p, g.order) && 0 <= u < g.order && 0 <= v < g.order
    ensures Joins(Relabelled(g, p).edges, p[u], p[v]) ==> Joins(g.edges, u, v)
  {
    if Joins(Relabelled(g, p).edges, p[u], p[v]) {
      var f := if (p[u], p[v]) in Relabelled(g, p).edges then (p[u], p[v]) else (p[v], p[u]);
      var e := EdgeBack(g, p, f);
      assert e == (u, v) || e == (v, u);
    }
  }

  /** Relabelling is an isomorphism of the adjacency. */
  lemma RelabelIso(g: GraphState, p: seq<int>)
    requires EndpointsInRange(g) && Permutation(p, g.order)
    ensures Iso(Links(g), Links(Relabelled(g, p)), p)
  {
    forall u, v | 0 <= u < g.order && 0 <= v < g.order
      ensures v in Links(g)[u] <==> p[v] in Links(Relabelled(g, p))[p[u]]
    {
      JoinsImage(g, p, u, v);
      JoinsPreimage(g, p, u, v);
    }
  }

  /** Relabelling is undone by the inverse permutation. */
  lemma RelabelUndone(g: GraphState, p: seq<int>)
    requires Canonical(g) && EndpointsInRange(g) && Permutation(p, g.order)
    ensures EndpointsInRange(Relabelled(g, p))
    ensures ApplyPermutation(Relabelled(g, p), Inverse(p, g.order)) == Some(g)
  {
    var q, h := Inverse(p, g.order), Relabelled(g, p);
    RelabelledInRange(g, p);
    RelabelledEdges(g, p);
    RelabelledEdges(h, q);
    MapMultiset(EdgeMap(q), h.edges, Map(EdgeMap(p), g.edges));
    MappedTwice(g, p);
    CanonicalUnique(Relabelled(h, q), g);
  }

  lemma MappedTwice(g: GraphState, p: seq<int>)
    requires Canonical(g) && EndpointsInRange(g) && Permutation(p, g.order)
    ensures Map(EdgeMap(Inverse(p, g.order)), Map(EdgeMap(p), g.edges)) == g.edges
  {
    var q := Inverse(p, g.order);
    var back := Map(EdgeMap(q), Map(EdgeMap(p), g.edges));
    forall i | 0 <= i < |g.edges| ensures back[i] == g.edges[i] {
      MappedBack(p, g.order, g.edges[i]);
    }
  }

  lemma RelabelledDistinct(g: GraphState, p: seq<int>)
    requires Canonical(g) && EndpointsInRange(g) && Permutation(p, g.order) && Distinct(g.edges)
    ensures Distinct(Relabelled(g, p).edges)
  {
    var mapped := Map(EdgeMap(p), g.edges);
    forall i, j | 0 <= i < j < |mapped| ensures mapped[i] != mapped[j] {
      MappedBack(p, g.order, g.edges[i]);
      MappedBack(p, g.order, g.edges[j]);
    }
    RelabelledEdges(g, p);
    DistinctPermuted(mapped, Relabelled(g, p).edges);
  }

  lemma RelabelValid(g: GraphState, p: seq<int>)
    requires Canonical(g) && ValidCubic(g) && Permutation(p, g.order)
    ensures ValidCubic(Relabelled(g, p))
  {
    var h := Relabelled(g, p);
    RelabelledInRange(g, p);
    RelabelledDistinct(g, p);
    RelabelIso(g, p);
    ValidSimple(g);
    ConnectedImage(Links(g), Links(h), p);
    forall i | 0 <= i < |h.edges| ensures h.edges[i].0 != h.edges[i].1 {
      var e := EdgeBack(g, p, h.edges[i]);
    }
    forall w | 0 <= w < h.order ensures |Links(h)[w]| == 3 {
      var u := Inverse(p, g.order)[w];
      assert p[u] == w;
      NeighbourImage(Links(g), Links(h), p, u);
    }
  }

  lemma RelabelValidIff(g: GraphState, p: seq<int>)
    requires Canonical(g) && EndpointsInRange(g) && Permutation(p, g.order)
    ensures ValidCubic(Relabelled(g, p)) <==> ValidCubic(g)
  {
    if ValidCubic(g) {
      RelabelValid(g, p);
    }
    if ValidCubic(Relabelled(g, p)) {
      RelabelledEdges(g, p);
      RelabelUndone(g, p);
      RelabelValid(Relabelled(g, p), Inverse(p, g.order));
    }
  }

  lemma RelabelledSize(g: GraphState, p: seq<int>)
    requires EndpointsInRange(g) && Permutation(p, g.order)
    ensures |Relabelled(g, p).edges| == |g.edges|
  {
    RelabelledEdges(g, p);
    assert |multiset(Relabelled(g, p).edges)| == |multiset(Map(EdgeMap(p), g.edges))|;
  }

  /** Relabelling keeps validity and the whole score, and with it the verdict of the exact verifier. */
  lemma RelabelKeepsScore(g: GraphState, p: seq<int>, cap: int)
    requires Canonical(g) && EndpointsInRange(g) && Permutation(p, g.order)
    ensures ValidCubic(Relabelled(g, p)) <==> ValidCubic(g)
    ensures ToyBackend.FullScore(Relabelled(g, p), cap) == ToyBackend.FullScore(g, cap)
  {
    RelabelValidIff(g, p);
    RelabelledSize(g, p);
    RelabelIso(g, p);
    SquaresPreserved(Links(g), Links(Relabelled(g, p)), p);
  }
}
