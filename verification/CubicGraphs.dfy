/** Valid graphs of the toy backend: connected, cubic, without loops or repeated edges. */
module CubicGraphs {
  import opened Graphs
  import opened Models
  import FourCycles

  ghost function Links(g: GraphState): (r: Adjacency)
    requires g.order >= 0
    ensures |r| == g.order && NeighboursInRange(r)
    ensures forall u, v :: 0 <= u < g.order ==> (v in r[u] <==> 0 <= v < g.order && Joins(g.edges, u, v))
  {
    LinksOf(g.order, g.edges)
  }

  ghost predicate LoopFree(edges: seq<Edge>) {
    forall i :: 0 <= i < |edges| ==> edges[i].0 != edges[i].1
  }

  ghost predicate Cubic(g: Adjacency) {
    forall u :: 0 <= u < |g| ==> |g[u]| == 3
  }

  ghost predicate ValidCubic(g: GraphState) {
    && g.order >= 1
    && Distinct(g.edges)
    && EndpointsInRange(g)
    && LoopFree(g.edges)
    && Cubic(Links(g))
    && Connected(Links(g))
  }

  lemma ValidSimple(g: GraphState)
    requires g.order >= 0 && LoopFree(g.edges)
    ensures Simple(Links(g))
  {
    forall u | 0 <= u < g.order ensures u !in Links(g)[u] {
      assert (u, u) !in g.edges;
    }
  }

  // --- Validation ---------------------------------------------------------------------------

  datatype GraphError =
    | OrderNotPositive
    | DuplicateEdges
    | EndpointOutOfRange
    | LoopForbidden
    | DegreeNotThree
    | NotConnected

  /** The edge loop of validate: an edge that is out of range or a loop is reported and skipped. */
  method ScanEdges(g: GraphState) returns (adjacency: Adjacency, errors: seq<GraphError>)
    ensures |adjacency| == (if g.order < 0 then 0 else g.order) && NeighboursInRange(adjacency)
    ensures errors == [] <==> (g.edges == [] || EndpointsInRange(g)) && LoopFree(g.edges)
    ensures errors == [] && g.order >= 0 ==> adjacency == Links(g)
  {
    adjacency, errors := seq(if g.order < 0 then 0 else g.order, _ => {}), [];
    if g.order >= 0 {
      NoLinks(g.order);
    }
    for i := 0 to |g.edges|
      invariant |adjacency| == (if g.order < 0 then 0 else g.order) && NeighboursInRange(adjacency)
      invariant errors == [] <==> forall j :: 0 <= j < i ==> IsEdge(g.order, g.edges[j]) && g.edges[j].0 != g.edges[j].1
      invariant errors == [] && g.order >= 0 ==> adjacency == LinksOf(g.order, g.edges[..i])
    {
      var e := g.edges[i];
      assert g.edges[..i + 1] == g.edges[..i] + [e];
      if !IsEdge(g.order, e) {
        errors := errors + [EndpointOutOfRange];
      } else if e.0 == e.1 {
        errors := errors + [LoopForbidden];
      } else {
        LinksOfAppended(g.order, g.edges[..i], e);
        adjacency := WithEdge(adjacency, e);
      }
    }
    assert g.edges[..|g.edges|] == g.edges;
    assert g.order < 0 && g.edges != [] ==> !IsEdge(g.order, g.edges[0]);
  }

  lemma NoLinks(order: nat)
    ensures LinksOf(order, []) == seq(order, _ => {})
  {
    forall u | 0 <= u < order ensures LinksOf(order, [])[u] == {} {
      assert forall v :: v !in LinksOf(order, [])[u];
    }
  }

  lemma {:induction false} RepeatsShrink(edges: seq<Edge>)
    ensures |EdgeSet(edges)| <= |edges|
    ensures |EdgeSet(edges)| == |edges| <==> Distinct(edges)
  {
    if edges != [] {
      var n := |edges| - 1;
      var front := edges[..n];
      RepeatsShrink(front);
      assert edges == front + [edges[n]];
      assert EdgeSet(edges) == EdgeSet(front) + {edges[n]};
      assert Distinct(edges) <==> Distinct(front) && edges[n] !in front by {
        assert edges[n] in front ==> exists i :: 0 <= i < n && edges[i] == edges[n];
        assert forall i :: 0 <= i < n ==> front[i] == edges[i] && edges[i] in front;
      }
    }
  }

  predicate HasRepeats(edges: seq<Edge>)
    ensures HasRepeats(edges) <==> !Distinct(edges)
  {
    RepeatsShrink(edges);
    |set e | e in edges| != |edges|
  }

  /** No error is reported exactly for connected cubic graphs without loops and repeated edges. */
  method Validate(g: GraphState) returns (errors: seq<GraphError>)
    ensures errors == [] <==> ValidCubic(g)
  {
    errors := [];
    if g.order < 1 {
      errors := errors + [OrderNotPositive];
    }
    if HasRepeats(g.edges) {
      errors := errors + [DuplicateEdges];
    }
    var adjacency, found := ScanEdges(g);
    errors := errors + found;
    if exists u :: 0 <= u < |adjacency| && |adjacency[u]| != 3 {
      errors := errors + [DegreeNotThree];
    }
    if adjacency != [] {
      var seen := Span(adjacency, 0);
      SeenAll(adjacency, seen);
      if |seen| != g.order {
        errors := errors + [NotConnected];
      }
    }
  }

  // --- Handshake ----------------------------------------------------------------------------

  /** The ordered pairs (u, v) with v adjacent to u and u < n. */
  ghost function Arcs(g: Adjacency, n: int): set<Edge> {
    set u, v | u in UpTo(|g|) && v in UpTo(|g|) && u < n && v in g[u] :: (u, v)
  }

  ghost function ArcsFrom(g: Adjacency, u: int): set<Edge>
    requires 0 <= u < |g|
  {
    set v | v in g[u] :: (u, v)
  }

  lemma ArcsFromSize(g: Adjacency, u: int)
    requires 0 <= u < |g|
    ensures |ArcsFrom(g, u)| == |g[u]|
  {
    var f := (v: int) => (u, v);
    forall v | v in g[u] ensures f(v) in ArcsFrom(g, u) {
      assert f(v) == (u, v);
    }
    FourCycles.ImageSize(g[u], f, ArcsFrom(g, u));
  }

  lemma ArcsStep(g: Adjacency, m: int, n: int)
    requires NeighboursInRange(g) && 0 <= m < |g| && n == m + 1
    ensures |Arcs(g, n)| == |Arcs(g, m)| + |g[m]|
  {
    var a, b := Arcs(g, m), ArcsFrom(g, m);
    ArcsFromSize(g, m);
    assert Arcs(g, n) == a + b;
    assert a * b == {};
    UnionSize(a, b, Arcs(g, n));
  }

  lemma NoArcs(g: Adjacency)
    ensures |Arcs(g, 0)| == 0
  {
    assert Arcs(g, 0) == {};
  }

  lemma {:induction false} CubicArcs(g: Adjacency, n: nat)
    requires NeighboursInRange(g) && Cubic(g) && n <= |g|
    ensures |Arcs(g, n)| == 3 * n
  {
    if n == 0 {
      NoArcs(g);
    } else {
      CubicArcs(g, n - 1);
      ArcsStep(g, n - 1, n);
    }
  }

  function Flipped(e: Edge): Edge {
    (e.1, e.0)
  }

  ghost function FlippedSet(s: set<Edge>): set<Edge> {
    set x | x in s :: Flipped(x)
  }

  lemma ArcsAreEdges(g: GraphState)
    requires g.order >= 0 && EndpointsInRange(g)
    ensures Arcs(Links(g), g.order) == EdgeSet(g.edges) + FlippedSet(EdgeSet(g.edges))
  {
    var e, f := EdgeSet(g.edges), FlippedSet(EdgeSet(g.edges));
    forall x ensures x in f <==> Flipped(x) in e {
      if Flipped(x) in e {
        assert Flipped(Flipped(x)) == x;
      }
    }
    forall x ensures x in Arcs(Links(g), g.order) <==> x in e || x in f {
      assert Joins(g.edges, x.0, x.1) <==> x in e || Flipped(x) in e;
      if x in e || Flipped(x) in e {
        assert IsEdge(g.order, x);
      }
    }
  }

  /** Every edge of a canonical loop-free list is two arcs. */
  lemma EdgeArcs(g: GraphState)
    requires Canonical(g) && g.order >= 0 && EndpointsInRange(g) && LoopFree(g.edges)
    ensures |Arcs(Links(g), g.order)| == 2 * |EdgeSet(g.edges)|
  {
    var e, f := EdgeSet(g.edges), FlippedSet(EdgeSet(g.edges));
    ArcsAreEdges(g);
    FourCycles.ImageSize(e, Flipped, f);
    assert e * f == {} by {
      assert forall x :: x in e ==> x.0 < x.1;
    }
    UnionSize(e, f, Arcs(Links(g), g.order));
  }

  /** The handshake lemma for cubic graphs: 2 |E| = 3 n, so n is even and |E| depends on n alone. */
  lemma Handshake(g: GraphState)
    requires Canonical(g) && ValidCubic(g)
    ensures 2 * |g.edges| == 3 * g.order
  {
    CubicArcs(Links(g), g.order);
    EdgeArcs(g);
    EdgeSetSize(g.edges);
  }
}
