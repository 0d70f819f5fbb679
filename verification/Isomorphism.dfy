/** What a vertex permutation carries from one graph to another. */
module Isomorphism {
  import opened Graphs
  import opened Models
  import opened FourCycles
  import opened Permutations

  /** p maps the vertices of g onto those of h and carries adjacency both ways. */
  ghost predicate Iso(g: Adjacency, h: Adjacency, p: seq<int>) {
    && |g| == |h| && Permutation(p, |g|) && NeighboursInRange(g) && NeighboursInRange(h)
    && forall u, v :: 0 <= u < |g| && 0 <= v < |g| ==> (v in g[u] <==> p[v] in h[p[u]])
  }

  lemma IsoInverse(g: Adjacency, h: Adjacency, p: seq<int>)
    requires Iso(g, h, p)
    ensures Iso(h, g, Inverse(p, |g|))
  {
    var q := Inverse(p, |g|);
    forall u, v | 0 <= u < |g| && 0 <= v < |g| ensures v in h[u] <==> q[v] in g[q[u]] {
      assert p[q[u]] == u && p[q[v]] == v;
    }
  }

  ghost function Image(s: set<int>, p: seq<int>): set<int>
    requires forall v :: v in s ==> 0 <= v < |p|
  {
    set v | v in s :: p[v]
  }

  lemma NeighbourImage(g: Adjacency, h: Adjacency, p: seq<int>, u: int)
    requires Iso(g, h, p) && 0 <= u < |g|
    ensures h[p[u]] == Image(g[u], p) && |h[p[u]]| == |g[u]|
  {
    var q := Inverse(p, |g|);
    forall w | w in h[p[u]] ensures w in Image(g[u], p) {
      assert p[q[w]] == w && q[w] in g[u];
    }
    forall w | w in Image(g[u], p) ensures w in h[p[u]] {
      var v :| v in g[u] && p[v] == w;
    }
    assert h[p[u]] == Image(g[u], p);
    ImageCount(g[u], p);
  }

  lemma ImageCount(s: set<int>, p: seq<int>)
    requires Distinct(p) && forall v :: v in s ==> 0 <= v < |p|
    ensures |Image(s, p)| == |s|
  {
    ImageSize(s, (v: int) => if 0 <= v < |p| then p[v] else v, Image(s, p));
  }

  // --- Walks --------------------------------------------------------------------------------

  lemma {:induction false} WalkImage(g: Adjacency, h: Adjacency, p: seq<int>, s: int, v: int, k: nat)
    requires Iso(g, h, p) && 0 <= s < |g| && 0 <= v < |g| && Walk(g, s, v, k)
    ensures Walk(h, p[s], p[v], k)
    decreases k
  {
    if k > 0 {
      var u :| 0 <= u < |g| && v in g[u] && Walk(g, s, u, k - 1);
      WalkImage(g, h, p, s, u, k - 1);
    }
  }

  /** Walks of every length correspond. */
  lemma WalkIff(g: Adjacency, h: Adjacency, p: seq<int>, s: int, v: int, k: nat)
    requires Iso(g, h, p) && 0 <= s < |g| && 0 <= v < |g|
    ensures Walk(g, s, v, k) <==> Walk(h, p[s], p[v], k)
  {
    if Walk(g, s, v, k) {
      WalkImage(g, h, p, s, v, k);
    }
    if Walk(h, p[s], p[v], k) {
      IsoInverse(g, h, p);
      WalkImage(h, g, Inverse(p, |g|), p[s], p[v], k);
    }
  }

  ghost predicate Symmetric(g: Adjacency) {
    forall u, v :: 0 <= u < |g| && 0 <= v < |g| && v in g[u] ==> u in g[v]
  }

  lemma {:induction false} WalkJoin(g: Adjacency, a: int, b: int, c: int, j: nat, k: nat)
    requires Walk(g, a, b, j) && Walk(g, b, c, k)
    ensures Walk(g, a, c, j + k)
    decreases k
  {
    if k > 0 {
      var u :| 0 <= u < |g| && c in g[u] && Walk(g, b, u, k - 1);
      WalkJoin(g, a, b, u, j, k - 1);
    }
  }

  lemma {:induction false} WalkBack(g: Adjacency, a: int, b: int, k: nat)
    requires NeighboursInRange(g) && Symmetric(g) && Walk(g, a, b, k)
    ensures Walk(g, b, a, k)
    decreases k
  {
    if k > 0 {
      var u :| 0 <= u < |g| && b in g[u] && Walk(g, a, u, k - 1);
      WalkBack(g, a, u, k - 1);
      assert Walk(g, b, b, 0) && u in g[b];
      assert Walk(g, b, u, 1);
      WalkJoin(g, b, u, a, 1, k - 1);
    }
  }

  lemma ReachableFromAny(g: Adjacency, s: int, v: int)
    requires NeighboursInRange(g) && Symmetric(g) && Connected(g) && 0 <= s < |g| && 0 <= v < |g|
    ensures Reachable(g, s, v)
  {
    assert Reachable(g, 0, s) && Reachable(g, 0, v);
    var j: nat :| Walk(g, 0, s, j);
    var k: nat :| Walk(g, 0, v, k);
    WalkBack(g, 0, s, j);
    WalkJoin(g, s, 0, v, j, k);
  }

  lemma ConnectedImage(g: Adjacency, h: Adjacency, p: seq<int>)
    requires Iso(g, h, p) && Symmetric(g) && Connected(g)
    ensures Connected(h)
  {
    var q := Inverse(p, |g|);
    forall v | 0 <= v < |h| ensures Reachable(h, 0, v) {
      ReachableFromAny(g, q[0], q[v]);
      var k: nat :| Walk(g, q[0], q[v], k);
      WalkImage(g, h, p, q[0], q[v], k);
    }
  }

  // --- Cycles -------------------------------------------------------------------------------

  ghost function Mapped(c: seq<int>, p: seq<int>): (r: seq<int>)
    requires forall i :: 0 <= i < |c| ==> 0 <= c[i] < |p|
    ensures |r| == |c| && forall i :: 0 <= i < |c| ==> r[i] == p[c[i]]
  {
    seq(|c|, i requires 0 <= i < |c| => p[c[i]])
  }

  lemma CycleImage(g: Adjacency, h: Adjacency, p: seq<int>, c: seq<int>)
    requires Iso(g, h, p) && Cycle(g, c)
    ensures Cycle(h, Mapped(c, p))
  {
    var r := Mapped(c, p);
    forall i | 0 <= i < |r| - 1 ensures r[i + 1] in h[r[i]] {
      assert c[i + 1] in g[c[i]];
    }
  }

  function MappedEdge(e: Edge, p: seq<int>): Edge
    requires IsEdge(|p|, e)
  {
    NormalizedEdge((p[e.0], p[e.1]))
  }

  ghost function MappedEdges(s: set<Edge>, p: seq<int>): set<Edge> {
    set e | e in s && IsEdge(|p|, e) :: MappedEdge(e, p)
  }

  /** Mapping an edge forth and back gives the edge, normalised. */
  lemma MappedBack(p: seq<int>, n: nat, e: Edge)
    requires Permutation(p, n) && IsEdge(n, e)
    ensures IsEdge(n, MappedEdge(e, p))
    ensures MappedEdge(MappedEdge(e, p), Inverse(p, n)) == NormalizedEdge(e)
  {}

  lemma CornersInRange(g: Adjacency, a: int, b: int, c: int, d: int)
    requires Cycle(g, [a, b, c, d])
    ensures 0 <= a < |g| && 0 <= b < |g| && 0 <= c < |g| && 0 <= d < |g|
  {
    var v := [a, b, c, d];
    assert v[0] == a && v[1] == b && v[2] == c && v[3] == d;
  }

  lemma SquareImage(g: Adjacency, h: Adjacency, p: seq<int>, s: set<Edge>)
    requires Iso(g, h, p) && s in Squares(g)
    ensures MappedEdges(s, p) in Squares(h)
    ensures MappedEdges(MappedEdges(s, p), Inverse(p, |g|)) == s
  {
    var a, b, c, d :| Cycle(g, [a, b, c, d]) && Square(a, b, c, d) == s;
    CornersInRange(g, a, b, c, d);
    SquareForth(p, |g|, a, b, c, d);
    SquareForth(Inverse(p, |g|), |g|, p[a], p[b], p[c], p[d]);
    CycleImage(g, h, p, [a, b, c, d]);
    MappedCorners(p, a, b, c, d);
    SquareListed(h, p[a], p[b], p[c], p[d]);
  }

  lemma MappedCorners(p: seq<int>, a: int, b: int, c: int, d: int)
    requires 0 <= a < |p| && 0 <= b < |p| && 0 <= c < |p| && 0 <= d < |p|
    ensures Mapped([a, b, c, d], p) == [p[a], p[b], p[c], p[d]]
  {}

  lemma SquareListed(g: Adjacency, a: int, b: int, c: int, d: int)
    requires Cycle(g, [a, b, c, d])
    ensures Square(a, b, c, d) in Squares(g)
  {
    CornersInRange(g, a, b, c, d);
    assert a in UpTo(|g|) && b in UpTo(|g|) && c in UpTo(|g|) && d in UpTo(|g|);
  }

  lemma SquareForth(p: seq<int>, n: nat, a: int, b: int, c: int, d: int)
    requires Permutation(p, n) && 0 <= a < n && 0 <= b < n && 0 <= c < n && 0 <= d < n
    ensures MappedEdges(Square(a, b, c, d), p) == Square(p[a], p[b], p[c], p[d])
  {
    assert MappedEdge(NormalizedEdge((a, b)), p) == NormalizedEdge((p[a], p[b]));
    assert MappedEdge(NormalizedEdge((b, c)), p) == NormalizedEdge((p[b], p[c]));
    assert MappedEdge(NormalizedEdge((c, d)), p) == NormalizedEdge((p[c], p[d]));
    assert MappedEdge(NormalizedEdge((d, a)), p) == NormalizedEdge((p[d], p[a]));
  }

  /** Mapping edge sets is injective where it can be undone. */
  lemma {:induction false} MappedAtMost(s: set<set<Edge>>, t: set<set<Edge>>, p: seq<int>, q: seq<int>)
    requires forall x :: x in s ==> MappedEdges(x, p) in t && MappedEdges(MappedEdges(x, p), q) == x
    ensures |s| <= |t|
  {
    if s != {} {
      var x :| x in s;
      MappedAtMost(s - {x}, t - {MappedEdges(x, p)}, p, q);
    }
  }

  lemma SquaresAtMost(g: Adjacency, h: Adjacency, p: seq<int>)
    requires Iso(g, h, p)
    ensures |Squares(g)| <= |Squares(h)|
  {
    forall s | s in Squares(g)
      ensures MappedEdges(s, p) in Squares(h) && MappedEdges(MappedEdges(s, p), Inverse(p, |g|)) == s
    {
      SquareImage(g, h, p, s);
    }
    MappedAtMost(Squares(g), Squares(h), p, Inverse(p, |g|));
  }

  /** Isomorphic graphs have the same number of 4-cycles. */
  lemma SquaresPreserved(g: Adjacency, h: Adjacency, p: seq<int>)
    requires Iso(g, h, p)
    ensures |Squares(g)| == |Squares(h)|
  {
    SquaresAtMost(g, h, p);
    IsoInverse(g, h, p);
    SquaresAtMost(h, g, Inverse(p, |g|));
  }
}
