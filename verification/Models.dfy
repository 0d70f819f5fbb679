/** The immutable graph state shared by every backend: an order and a normalised, sorted edge list. */
module Models {
  import opened Graphs
  import opened Sorting

  type Edge = (int, int)

  function NormalizedEdge(e: Edge): (r: Edge)
    ensures r == e || r == (e.1, e.0)
    ensures r.0 <= r.1
  {
    if e.0 < e.1 then e else (e.1, e.0)
  }

  datatype GraphState = GraphState(order: int, edges: seq<Edge>)

  function Normalized(edges: seq<Edge>): (r: seq<Edge>)
    ensures |r| == |edges| && forall i :: 0 <= i < |edges| ==> r[i] == NormalizedEdge(edges[i])
  {
    seq(|edges|, i requires 0 <= i < |edges| => NormalizedEdge(edges[i]))
  }

  /** The state built from any edge list: every edge normalised, the list sorted. */
  function MakeState(order: int, edges: seq<Edge>): GraphState {
    GraphState(order, Sort(Normalized(edges), PairLeq))
  }

  /** What every state built by MakeState satisfies. */
  ghost predicate Canonical(g: GraphState) {
    Sorted(g.edges, PairLeq) && forall i :: 0 <= i < |g.edges| ==> g.edges[i].0 <= g.edges[i].1
  }

  ghost function EdgeSet(edges: seq<Edge>): set<Edge> {
    set e | e in edges
  }

  /** Every endpoint is a vertex of the graph. */
  ghost predicate EndpointsInRange(g: GraphState) {
    g.order >= 0 && forall i :: 0 <= i < |g.edges| ==> IsEdge(g.order, g.edges[i])
  }

  predicate IsEdge(order: int, e: Edge) {
    0 <= e.0 < order && 0 <= e.1 < order
  }

  lemma PairOrder()
    ensures TotalOrder(PairLeq)
  {}

  lemma MadeCanonical(order: int, edges: seq<Edge>)
    ensures Canonical(MakeState(order, edges))
    ensures multiset(MakeState(order, edges).edges) == multiset(Normalized(edges))
  {
    var n, r := Normalized(edges), MakeState(order, edges).edges;
    PairOrder();
    SortSorts(n, PairLeq);
    SortPermutes(n, PairLeq);
    forall i | 0 <= i < |r| ensures r[i].0 <= r[i].1 {
      assert r[i] in multiset(r) && r[i] in multiset(n) && r[i] in n;
    }
  }

  /** A canonical state is determined by its order and the multiset of its edges. */
  lemma CanonicalUnique(g: GraphState, h: GraphState)
    requires Canonical(g) && Canonical(h) && g.order == h.order && multiset(g.edges) == multiset(h.edges)
    ensures g == h
  {
    PairOrder();
    SortedUnique(g.edges, h.edges, PairLeq);
  }

  /** Edge lists without repetition are equal as multisets as soon as they are equal as sets. */
  lemma DistinctMultiset(a: seq<Edge>, b: seq<Edge>)
    requires Distinct(a) && Distinct(b) && EdgeSet(a) == EdgeSet(b)
    ensures multiset(a) == multiset(b)
  {
    forall e ensures e in a <==> e in b {
      assert e in EdgeSet(a) <==> e in EdgeSet(b);
    }
    SameElements(a, b);
  }

  lemma {:induction false} EdgeSetSize(a: seq<Edge>)
    requires Distinct(a)
    ensures |EdgeSet(a)| == |a|
  {
    if a != [] {
      var n := |a| - 1;
      EdgeSetSize(a[..n]);
      assert a == a[..n] + [a[n]];
      assert EdgeSet(a) == EdgeSet(a[..n]) + {a[n]};
    }
  }

  // --- Adjacency ----------------------------------------------------------------------------

  ghost predicate Joins(edges: seq<Edge>, u: int, v: int) {
    (u, v) in edges || (v, u) in edges
  }

  /** The adjacency sets of an edge list; endpoints out of range are ignored. */
  ghost function LinksOf(order: nat, edges: seq<Edge>): (g: Adjacency)
    ensures |g| == order && NeighboursInRange(g)
    ensures forall u, v :: 0 <= u < order ==> (v in g[u] <==> 0 <= v < order && Joins(edges, u, v))
  {
    seq(order, u requires 0 <= u < order => set v | v in UpTo(order) && Joins(edges, u, v))
  }

  function WithEdge(g: Adjacency, e: Edge): (h: Adjacency)
    requires IsEdge(|g|, e)
    ensures |h| == |g|
  {
    var h := g[e.0 := g[e.0] + {e.1}];
    h[e.1 := h[e.1] + {e.0}]
  }

  lemma LinksOfAppended(order: nat, edges: seq<Edge>, e: Edge)
    ensures IsEdge(order, e) ==> LinksOf(order, edges + [e]) == WithEdge(LinksOf(order, edges), e)
    ensures !IsEdge(order, e) ==> LinksOf(order, edges + [e]) == LinksOf(order, edges)
  {
    var g, h := LinksOf(order, edges), LinksOf(order, edges + [e]);
    forall u, v ensures Joins(edges + [e], u, v) <==> Joins(edges, u, v) || e == (u, v) || e == (v, u) {
      assert forall x :: x in edges + [e] <==> x in edges || x == e;
    }
    if IsEdge(order, e) {
      var w := WithEdge(g, e);
      forall u | 0 <= u < order ensures h[u] == w[u] {
        assert forall v :: v in h[u] <==> v in w[u];
      }
    } else {
      forall u | 0 <= u < order ensures h[u] == g[u] {
        assert forall v :: v in h[u] <==> v in g[u];
      }
    }
  }

  /** The adjacency loop: two insertions for each edge. */
  method BuildAdjacency(g: GraphState) returns (adjacency: Adjacency)
    requires EndpointsInRange(g)
    ensures adjacency == LinksOf(g.order, g.edges)
  {
    adjacency := seq(g.order, _ => {});
    forall u | 0 <= u < g.order ensures adjacency[u] == LinksOf(g.order, [])[u] {
      assert forall v :: v !in LinksOf(g.order, [])[u];
    }
    assert g.edges[..0] == [];
    for i := 0 to |g.edges|
      invariant adjacency == LinksOf(g.order, g.edges[..i])
    {
      LinksOfAppended(g.order, g.edges[..i], g.edges[i]);
      assert g.edges[..i + 1] == g.edges[..i] + [g.edges[i]];
      adjacency := WithEdge(adjacency, g.edges[i]);
    }
    assert g.edges[..|g.edges|] == g.edges;
  }
}
