/** Breadth-first search computes true graph distances. */
module Distances {
  import opened Graphs

  /** d is the distance from s to v: the length of a shortest walk, or -1 when there is none. */
  ghost predicate IsDistance(g: Adjacency, s: int, v: int, d: int) {
    if d == -1 then !Reachable(g, s, v)
    else d >= 0 && Walk(g, s, v, d) && forall k: nat :: Walk(g, s, v, k) ==> d <= k
  }

  lemma DistanceUnique(g: Adjacency, s: int, v: int, c: int, d: int)
    requires IsDistance(g, s, v, c) && IsDistance(g, s, v, d)
    ensures c == d
  {
    if c != -1 {
      assert Reachable(g, s, v);
    }
    if d != -1 {
      assert Reachable(g, s, v);
    }
  }

  /** The length of a shortest walk, given one of length k. */
  ghost function Shortest(g: Adjacency, s: int, v: int, k: nat): (d: nat)
    requires Walk(g, s, v, k)
    ensures Walk(g, s, v, d) && forall j: nat :: Walk(g, s, v, j) ==> d <= j
  {
    if j: nat :| j < k && Walk(g, s, v, j) then Shortest(g, s, v, j) else k
  }

  ghost function Distance(g: Adjacency, s: int, v: int): (d: int)
    ensures IsDistance(g, s, v, d)
  {
    if k: nat :| Walk(g, s, v, k) then Shortest(g, s, v, k) else -1
  }

  /** All distances from s. */
  ghost predicate AreDistances(g: Adjacency, s: int, distances: seq<int>) {
    |distances| == |g| && forall v :: 0 <= v < |g| ==> distances[v] == Distance(g, s, v)
  }

  // --- The search ---------------------------------------------------------------------------

  /** A vertex whose neighbours have all been given a distance at most one larger. */
  ghost predicate Expanded(g: Adjacency, distances: seq<int>, u: int)
    requires 0 <= u < |g| == |distances| && NeighboursInRange(g)
  {
    forall v :: v in g[u] ==> 0 <= distances[v] <= distances[u] + 1
  }

  /** The queue is ordered by distance and every distance given so far is at most one above its head. */
  ghost predicate Ordered(distances: seq<int>, frontier: seq<int>) {
    && (forall i :: 0 <= i < |frontier| ==> 0 <= frontier[i] < |distances| && distances[frontier[i]] >= 0)
    && (forall i, j :: 0 <= i < j < |frontier| ==> distances[frontier[i]] <= distances[frontier[j]])
    && (frontier != [] ==> forall v :: 0 <= v < |distances| ==> distances[v] <= distances[frontier[0]] + 1)
  }

  ghost predicate Searching(g: Adjacency, s: int, distances: seq<int>, frontier: seq<int>)
    requires NeighboursInRange(g)
  {
    && |distances| == |g| && 0 <= s < |g| && distances[s] == 0
    && (forall v :: 0 <= v < |g| ==> distances[v] >= -1)
    && (forall v :: 0 <= v < |g| && distances[v] >= 0 ==> Walk(g, s, v, distances[v]))
    && Ordered(distances, frontier)
    && (forall u :: 0 <= u < |g| && distances[u] >= 0 && u !in frontier ==> Expanded(g, distances, u))
  }

  /** The vertices without a distance. */
  ghost function Unreached(distances: seq<int>): set<int> {
    set v | v in UpTo(|distances|) && distances[v] == -1
  }

  // While the neighbours of the popped vertex are visited, next holds the queue behind it.
  ghost predicate Visiting(g: Adjacency, s: int, distances: seq<int>, vertex: int, next: seq<int>, todo: set<int>)
    requires NeighboursInRange(g)
  {
    && |distances| == |g| && 0 <= s < |g| && 0 <= vertex < |g| && distances[s] == 0 && distances[vertex] >= 0
    && (forall v :: 0 <= v < |g| ==> -1 <= distances[v] <= distances[vertex] + 1)
    && (forall v :: 0 <= v < |g| && distances[v] >= 0 ==> Walk(g, s, v, distances[v]))
    && (forall i :: 0 <= i < |next| ==> 0 <= next[i] < |g| && distances[next[i]] >= distances[vertex])
    && (forall i, j :: 0 <= i < j < |next| ==> distances[next[i]] <= distances[next[j]])
    && (forall u :: 0 <= u < |g| && distances[u] >= 0 && u !in next && u != vertex ==> Expanded(g, distances, u))
    && todo <= g[vertex]
    && (forall v :: v in g[vertex] && v !in todo ==> distances[v] >= 0)
  }

  lemma VisitStep(g: Adjacency, s: int, distances: seq<int>, vertex: int, next: seq<int>, todo: set<int>, w: int)
    requires NeighboursInRange(g) && Visiting(g, s, distances, vertex, next, todo) && w in todo && distances[w] == -1
    ensures Visiting(g, s, distances[w := distances[vertex] + 1], vertex, next + [w], todo - {w})
    ensures Unreached(distances[w := distances[vertex] + 1]) == Unreached(distances) - {w}
  {
    var d, n := distances[w := distances[vertex] + 1], next + [w];
    assert Walk(g, s, w, d[w]);
    assert w in n && forall x :: x in next ==> x in n;
    forall u | 0 <= u < |g| && d[u] >= 0 && u !in n && u != vertex ensures Expanded(g, d, u) {
      assert Expanded(g, distances, u);
    }
  }

  lemma VisitDone(g: Adjacency, s: int, distances: seq<int>, vertex: int, next: seq<int>)
    requires NeighboursInRange(g) && Visiting(g, s, distances, vertex, next, {})
    ensures Searching(g, s, distances, next)
  {
    assert Expanded(g, distances, vertex);
  }

  lemma VisitStart(g: Adjacency, s: int, distances: seq<int>, frontier: seq<int>)
    requires NeighboursInRange(g) && Searching(g, s, distances, frontier) && frontier != []
    ensures Visiting(g, s, distances, frontier[0], frontier[1..], g[frontier[0]])
  {
    assert frontier == [frontier[0]] + frontier[1..];
    assert forall i :: 0 <= i < |frontier| - 1 ==> frontier[1..][i] == frontier[i + 1];
  }

  /** At the end of the search every given distance is a shortest one. */
  lemma {:induction false} WalkReached(g: Adjacency, s: int, distances: seq<int>, v: int, k: nat)
    requires NeighboursInRange(g) && Searching(g, s, distances, []) && Walk(g, s, v, k)
    ensures 0 <= v < |g| && 0 <= distances[v] <= k
    decreases k
  {
    if k > 0 {
      var u :| 0 <= u < |g| && v in g[u] && Walk(g, s, u, k - 1);
      WalkReached(g, s, distances, u, k - 1);
      assert Expanded(g, distances, u);
    }
  }

  lemma SearchDone(g: Adjacency, s: int, distances: seq<int>)
    requires NeighboursInRange(g) && Searching(g, s, distances, [])
    ensures AreDistances(g, s, distances)
  {
    forall v | 0 <= v < |g| ensures distances[v] == Distance(g, s, v) {
      forall k: nat | Walk(g, s, v, k) ensures 0 <= distances[v] <= k {
        WalkReached(g, s, distances, v, k);
      }
      DistanceUnique(g, s, v, distances[v], Distance(g, s, v));
    }
  }

  // A neighbour that already has a distance needs no step.
  lemma VisitSkip(g: Adjacency, s: int, distances: seq<int>, vertex: int, next: seq<int>, todo: set<int>, w: int)
    requires NeighboursInRange(g) && Visiting(g, s, distances, vertex, next, todo) && w in todo && distances[w] != -1
    ensures Visiting(g, s, distances, vertex, next, todo - {w})
  {
  }

  /** One neighbour: it joins the queue exactly when it has no distance yet. */
  method VisitOne(g: Adjacency, ghost s: int, distances: seq<int>, vertex: int, next: seq<int>, ghost todo: set<int>,
                  w: int)
    returns (distances': seq<int>, next': seq<int>)
    requires NeighboursInRange(g) && Visiting(g, s, distances, vertex, next, todo) && w in todo
    ensures Visiting(g, s, distances', vertex, next', todo - {w})
    ensures Unreached(distances') < Unreached(distances) || (distances' == distances && next' == next)
  {
    if distances[w] == -1 {
      VisitStep(g, s, distances, vertex, next, todo, w);
      assert w in Unreached(distances);
      distances', next' := distances[w := distances[vertex] + 1], next + [w];
    } else {
      VisitSkip(g, s, distances, vertex, next, todo, w);
      distances', next' := distances, next;
    }
  }

  // What is left of a duplicate-free list after its head.
  lemma RestOf(list: seq<int>, i: nat, todo: set<int>)
    requires i < |list| && Distinct(list) && forall v :: v in todo <==> v in list[i..]
    ensures list[i] in todo && forall v :: v in todo - {list[i]} <==> v in list[i + 1..]
  {
    assert list[i..][0] == list[i] && list[i] in list[i..];
    assert list[i..] == [list[i]] + list[i + 1..];
    assert forall j :: i < j < |list| ==> list[j] != list[i];
  }

  /** One round: the head of the queue is popped and its neighbours without a distance join the queue. */
  method Visit(g: Adjacency, ghost s: int, distances: seq<int>, frontier: seq<int>)
    returns (distances': seq<int>, frontier': seq<int>)
    requires NeighboursInRange(g) && Searching(g, s, distances, frontier) && frontier != []
    ensures Searching(g, s, distances', frontier')
    ensures Unreached(distances') < Unreached(distances)
            || (distances' == distances && |frontier'| < |frontier|)
  {
    var vertex := frontier[0];
    distances', frontier' := distances, frontier[1..];
    VisitStart(g, s, distances, frontier);
    var neighbors := SortedSet(g[vertex], |g|);
    SortedSetSorts(g[vertex], |g|);
    assert neighbors[0..] == neighbors;
    ghost var todo := g[vertex];
    for i := 0 to |neighbors|
      invariant Visiting(g, s, distances', vertex, frontier', todo)
      invariant forall v :: v in todo <==> v in neighbors[i..]
      invariant Unreached(distances') < Unreached(distances)
                || (distances' == distances && frontier' == frontier[1..])
    {
      RestOf(neighbors, i, todo);
      distances', frontier' := VisitOne(g, s, distances', vertex, frontier', todo, neighbors[i]);
      todo := todo - {neighbors[i]};
    }
    assert todo == {};
    VisitDone(g, s, distances', vertex, frontier');
  }

  /** The distance list of one start vertex. */
  method DistancesFrom(g: Adjacency, s: int) returns (distances: seq<int>)
    requires NeighboursInRange(g) && 0 <= s < |g|
    ensures AreDistances(g, s, distances)
  {
    distances := seq(|g|, v => -1);
    distances := distances[s := 0];
    var frontier := [s];
    assert Walk(g, s, s, 0) && s in frontier;
    while frontier != []
      invariant Searching(g, s, distances, frontier)
      decreases Unreached(distances), |frontier|
    {
      distances, frontier := Visit(g, s, distances, frontier);
    }
    SearchDone(g, s, distances);
  }
}
