/** Undirected graphs as adjacency sets: simple paths, cycles and walks. */
module Graphs {
  // Vertex v of a graph of order n is an index 0 <= v < n; g[v] is its set of neighbours.
  type Adjacency = seq<set<int>>

  ghost predicate NeighboursInRange(g: Adjacency) {
    forall u, v :: 0 <= u < |g| && v in g[u] ==> 0 <= v < |g|
  }

  /** Loop-free, symmetric and with every neighbour in range. */
  ghost predicate Simple(g: Adjacency) {
    && NeighboursInRange(g)
    && (forall u :: 0 <= u < |g| ==> u !in g[u])
    && forall u, v :: 0 <= u < |g| && 0 <= v < |g| && v in g[u] ==> u in g[v]
  }

  ghost predicate InRange(g: Adjacency, p: seq<int>) {
    forall i :: 0 <= i < |p| ==> 0 <= p[i] < |g|
  }

  ghost predicate Distinct<T(!new)>(p: seq<T>) {
    forall i, j :: 0 <= i < j < |p| ==> p[i] != p[j]
  }

  ghost predicate Linked(g: Adjacency, p: seq<int>)
    requires InRange(g, p)
  {
    forall i :: 0 <= i < |p| - 1 ==> p[i + 1] in g[p[i]]
  }

  /** A simple path: distinct vertices, each adjacent to the next. */
  ghost predicate Path(g: Adjacency, p: seq<int>) {
    |p| >= 1 && InRange(g, p) && Distinct(p) && Linked(g, p)
  }

  /** A simple cycle, written without repeating its first vertex. */
  ghost predicate Cycle(g: Adjacency, c: seq<int>) {
    |c| >= 3 && Path(g, c) && c[0] in g[c[|c| - 1]]
  }

  ghost predicate HasCycle(g: Adjacency, length: nat) {
    exists c :: Cycle(g, c) && |c| == length
  }

  function Vertices(p: seq<int>): set<int> {
    set v | v in p
  }

  function Reversed<T>(s: seq<T>): (r: seq<T>)
    ensures |r| == |s| && forall i :: 0 <= i < |s| ==> r[i] == s[|s| - 1 - i]
  {
    seq(|s|, i requires 0 <= i < |s| => s[|s| - 1 - i])
  }

  /** The vertex set {0, ..., n - 1}. */
  function UpTo(n: nat): (r: set<int>)
    ensures |r| == n && forall v :: v in r <==> 0 <= v < n
  {
    var range := seq(n, i => i);
    assert forall v :: 0 <= v < n ==> range[v] == v && v in range;
    DistinctCount(range);
    Vertices(range)
  }

  /** A sequence of distinct numbers below n has at most n entries. */
  lemma {:induction false} DistinctBound(p: seq<int>, n: nat)
    requires Distinct(p) && forall i :: 0 <= i < |p| ==> 0 <= p[i] < n
    ensures |p| <= n
  {
    DistinctCount(p);
    SubsetCount(Vertices(p), UpTo(n));
  }

  lemma {:induction false} DistinctCount(p: seq<int>)
    requires Distinct(p)
    ensures |Vertices(p)| == |p|
  {
    if p != [] {
      var q := p[..|p| - 1];
      DistinctCount(q);
      assert Vertices(p) == Vertices(q) + {p[|p| - 1]};
    }
  }

  lemma {:induction false} SubsetCount<T>(a: set<T>, b: set<T>)
    requires a <= b
    ensures |a| <= |b|
    ensures |a| == |b| ==> a == b
  {
    if a != {} {
      var x :| x in a;
      SubsetCount(a - {x}, b - {x});
      assert a == (a - {x}) + {x} && b == (b - {x}) + {x};
    }
  }

  lemma UnionSize<T>(a: set<T>, b: set<T>, c: set<T>)
    requires c == a + b && a * b == {}
    ensures |c| == |a| + |b|
  {}

  /** The number of pairs below n. */
  function PairCount(n: nat): nat {
    if n == 0 then 0 else PairCount(n - 1) + (n - 1)
  }

  lemma {:induction false} PairCountFormula(n: nat)
    ensures PairCount(n) == n * (n - 1) / 2
  {
    if n > 0 {
      PairCountFormula(n - 1);
      assert n * (n - 1) == (n - 1) * (n - 2) + 2 * (n - 1);
    }
  }

  ghost predicate Ascending(s: seq<int>) {
    forall i, j :: 0 <= i < j < |s| ==> s[i] < s[j]
  }

  /** sorted(neighbors) for a set of vertices below n. */
  function SortedSet(s: set<int>, n: nat): seq<int> {
    if n == 0 then []
    else if n - 1 in s then SortedSet(s, n - 1) + [n - 1]
    else SortedSet(s, n - 1)
  }

  lemma {:induction false} SortedSetSorts(s: set<int>, n: nat)
    ensures Ascending(SortedSet(s, n))
    ensures forall v :: v in SortedSet(s, n) <==> v in s && 0 <= v < n
  {
    if n > 0 {
      SortedSetSorts(s, n - 1);
      var r := SortedSet(s, n - 1);
      assert forall i :: 0 <= i < |r| ==> r[i] in r;
    }
  }

  lemma {:induction false} Occurrences<T(!new)>(a: seq<T>, x: T)
    requires Distinct(a)
    ensures multiset(a)[x] == if x in a then 1 else 0
  {
    if a != [] {
      var n := |a| - 1;
      Occurrences(a[..n], x);
      assert a == a[..n] + [a[n]];
    }
  }

  /** Lists without repetition and with the same elements are equal as multisets. */
  lemma SameElements<T(!new)>(a: seq<T>, b: seq<T>)
    requires Distinct(a) && Distinct(b) && forall x :: x in a <==> x in b
    ensures multiset(a) == multiset(b)
  {
    forall x ensures multiset(a)[x] == multiset(b)[x] {
      Occurrences(a, x);
      Occurrences(b, x);
    }
  }

  lemma DistinctPermuted<T(!new)>(a: seq<T>, b: seq<T>)
    requires Distinct(a) && multiset(a) == multiset(b)
    ensures Distinct(b)
  {
    forall i, j | 0 <= i < j < |b| ensures b[i] != b[j] {
      Occurrences(a, b[i]);
      TwiceInside(b, i, j);
    }
  }

  lemma TwiceInside<T(!new)>(b: seq<T>, i: nat, j: nat)
    requires i < j < |b|
    ensures b[i] == b[j] ==> multiset(b)[b[i]] >= 2
  {
    assert b == b[..j] + [b[j]] + b[j + 1..];
    assert b[..j][i] == b[i] && b[i] in multiset(b[..j]);
  }

  // --- Rotating a cycle ---------------------------------------------------------------------

  function Rotated<T>(c: seq<T>, k: nat): (r: seq<T>)
    requires k <= |c|
    ensures |r| == |c|
    ensures forall i :: 0 <= i < |c| ==> r[i] == if i + k < |c| then c[i + k] else c[i + k - |c|]
  {
    c[k..] + c[..k]
  }

  lemma RotatedCycle(g: Adjacency, c: seq<int>, k: nat)
    requires Cycle(g, c) && k < |c|
    ensures Cycle(g, Rotated(c, k))
  {
    var r := Rotated(c, k);
    forall i | 0 <= i < |r| - 1 ensures r[i + 1] in g[r[i]] {
      if i + k == |c| - 1 {
        assert r[i] == c[|c| - 1] && r[i + 1] == c[0];
      }
    }
    assert r[0] in g[r[|r| - 1]];
  }

  /** Index of the least entry. */
  function LeastAt(p: seq<int>): (k: nat)
    requires p != []
    ensures k < |p| && forall i :: 0 <= i < |p| ==> p[k] <= p[i]
  {
    if |p| == 1 then 0
    else
      var k := LeastAt(p[..|p| - 1]);
      if p[k] <= p[|p| - 1] then k else |p| - 1
  }

  // --- Walks and reachability ---------------------------------------------------------------

  /** There is a walk of exactly k edges from s to v. */
  ghost predicate Walk(g: Adjacency, s: int, v: int, k: nat)
    decreases k
  {
    if k == 0 then s == v && 0 <= s < |g|
    else exists u :: 0 <= u < |g| && v in g[u] && Walk(g, s, u, k - 1)
  }

  ghost predicate Reachable(g: Adjacency, s: int, v: int) {
    exists k: nat :: Walk(g, s, v, k)
  }

  ghost predicate Connected(g: Adjacency) {
    |g| > 0 && forall v :: 0 <= v < |g| ==> Reachable(g, 0, v)
  }

  /** A set that holds s and is closed under neighbours holds every vertex reachable from s. */
  lemma {:induction false} ClosedHoldsWalk(g: Adjacency, s: int, v: int, k: nat, closed: set<int>)
    requires s in closed && Walk(g, s, v, k)
    requires forall u :: u in closed && 0 <= u < |g| ==> g[u] <= closed
    ensures v in closed
    decreases k
  {
    if k > 0 {
      var u :| 0 <= u < |g| && v in g[u] && Walk(g, s, u, k - 1);
      ClosedHoldsWalk(g, s, u, k - 1, closed);
    }
  }

  ghost function Member<T>(s: set<T>): (x: T)
    requires s != {}
    ensures x in s
  {
    var x :| x in s; x
  }

  /** The inner loop of the search: every unseen neighbour is seen and put on the stack. */
  method Discover(neighbors: set<int>, seen: set<int>, pending: seq<int>)
    returns (seen': set<int>, pending': seq<int>)
    ensures seen' == seen + neighbors
    ensures Vertices(pending') == Vertices(pending) + (neighbors - seen)
    ensures neighbors <= seen ==> pending' == pending
  {
    seen', pending' := seen, pending;
    var todo := neighbors;
    while todo != {}
      invariant todo <= neighbors && seen' == seen + (neighbors - todo)
      invariant Vertices(pending') == Vertices(pending) + (neighbors - todo - seen)
      invariant neighbors <= seen ==> pending' == pending
      decreases todo
    {
      ghost var some := Member(todo);
      var neighbor :| neighbor in todo;
      todo := todo - {neighbor};
      if neighbor !in seen' {
        seen' := seen' + {neighbor};
        AppendedVertex(pending', neighbor);
        pending' := pending' + [neighbor];
      }
    }
  }

  lemma AppendedVertex(p: seq<int>, v: int)
    ensures Vertices(p + [v]) == Vertices(p) + {v}
  {
    forall x | x in Vertices(p) + {v} ensures x in p + [v] {
      if x in p {
        var i :| 0 <= i < |p| && p[i] == x;
        assert (p + [v])[i] == x;
      } else {
        assert (p + [v])[|p|] == x;
      }
    }
  }

  /** Only the neighbours of stacked vertices may still be unseen, and all seen ones are reachable. */
  ghost predicate Spanning(g: Adjacency, s: int, seen: set<int>, pending: set<int>) {
    && s in seen && pending <= seen <= UpTo(|g|)
    && (forall v :: v in seen ==> Reachable(g, s, v))
    && (forall u :: u in seen && u !in pending ==> g[u] <= seen)
  }

  ghost function Unseen(g: Adjacency, seen: set<int>): nat {
    |UpTo(|g|) - seen|
  }

  lemma SpanStep(g: Adjacency, s: int, seen: set<int>, rest: set<int>, vertex: int)
    requires NeighboursInRange(g) && Spanning(g, s, seen, rest + {vertex})
    ensures Spanning(g, s, seen + g[vertex], rest + (g[vertex] - seen))
    ensures if g[vertex] <= seen then seen + g[vertex] == seen
            else Unseen(g, seen + g[vertex]) < Unseen(g, seen)
  {
    Neighbours(g, s, vertex);
    var left, left' := UpTo(|g|) - seen, UpTo(|g|) - (seen + g[vertex]);
    SubsetCount(left', left);
    assert left == left' ==> g[vertex] <= seen by {
      assert forall v :: v in g[vertex] && v !in seen ==> v in left;
    }
  }

  lemma SpanComplete(g: Adjacency, s: int, seen: set<int>)
    requires Spanning(g, s, seen, {})
    ensures forall v :: v in seen <==> Reachable(g, s, v)
  {
    forall v | Reachable(g, s, v) ensures v in seen {
      var k: nat :| Walk(g, s, v, k);
      ClosedHoldsWalk(g, s, v, k, seen);
    }
  }

  /** One round of the search: the top of the stack is replaced by its unseen neighbours. */
  method Visit(g: Adjacency, s: int, seen: set<int>, pending: seq<int>)
    returns (seen': set<int>, pending': seq<int>)
    requires NeighboursInRange(g) && Spanning(g, s, seen, Vertices(pending)) && pending != []
    ensures Spanning(g, s, seen', Vertices(pending'))
    ensures Unseen(g, seen') < Unseen(g, seen) || (seen' == seen && |pending'| < |pending|)
  {
    var vertex, rest := pending[|pending| - 1], pending[..|pending| - 1];
    assert pending == rest + [vertex];
    AppendedVertex(rest, vertex);
    SpanStep(g, s, seen, Vertices(rest), vertex);
    seen', pending' := Discover(g[vertex], seen, rest);
  }

  /** The search shared by the verifier, the toy validator and the evidence pipeline. */
  method Span(g: Adjacency, s: int) returns (seen: set<int>)
    requires 0 <= s < |g| && NeighboursInRange(g)
    ensures forall v :: v in seen <==> Reachable(g, s, v)
    ensures seen <= UpTo(|g|)
  {
    seen := {s};
    var pending := [s];
    assert Walk(g, s, s, 0);
    while pending != []
      invariant Spanning(g, s, seen, Vertices(pending))
      decreases Unseen(g, seen), |pending|
    {
      seen, pending := Visit(g, s, seen, pending);
    }
    assert Vertices(pending) == {};
    SpanComplete(g, s, seen);
  }

  /** The count of seen vertices tells whether the graph is connected. */
  lemma SeenAll(g: Adjacency, seen: set<int>)
    requires |g| > 0 && seen <= UpTo(|g|) && forall v :: v in seen <==> Reachable(g, 0, v)
    ensures |seen| == |g| <==> Connected(g)
  {
    SubsetCount(seen, UpTo(|g|));
    if Connected(g) {
      assert seen == UpTo(|g|);
    }
  }

  lemma Neighbours(g: Adjacency, s: int, u: int)
    requires 0 <= u < |g| && Reachable(g, s, u)
    ensures forall v :: v in g[u] ==> Reachable(g, s, v)
  {
    var k: nat :| Walk(g, s, u, k);
    assert forall v :: v in g[u] ==> Walk(g, s, v, k + 1);
  }
}
