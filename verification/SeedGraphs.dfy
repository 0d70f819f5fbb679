/** Seeds of the toy backend: relabelled Moebius ladders. */
module SeedGraphs {
  import opened Wrappers
  import opened Graphs
  import Sorting
  import opened Models
  import opened CubicGraphs
  import ToyBackend
  import Permutations
  import Isomorphism

  // --- The ladder on positions --------------------------------------------------------------

  ghost predicate SeedOrder(n: int) {
    n >= 4 && n % 2 == 0
  }

  function Next(n: nat, u: int): int {
    if u + 1 == n then 0 else u + 1
  }

  function Previous(n: nat, u: int): int {
    if u == 0 then n - 1 else u - 1
  }

  function Opposite(n: nat, u: int): int {
    if u < n / 2 then u + n / 2 else u - n / 2
  }

  /** Position u is joined to the next, the previous and the opposite position. */
  ghost function Ladder(n: nat): (g: Adjacency)
    ensures |g| == n
  {
    seq(n, u => {Next(n, u), Previous(n, u), Opposite(n, u)})
  }

  /** The three neighbours of a position are different positions. */
  lemma LadderTriple(n: nat, u: int)
    requires SeedOrder(n) && 0 <= u < n
    ensures 0 <= Next(n, u) < n && 0 <= Previous(n, u) < n && 0 <= Opposite(n, u) < n
    ensures Next(n, u) != Previous(n, u) && Previous(n, u) != Opposite(n, u) && Next(n, u) != Opposite(n, u)
  {}

  lemma LadderBack(n: nat, u: int, v: int)
    requires SeedOrder(n) && 0 <= u < n && v in Ladder(n)[u]
    ensures 0 <= v < n && v != u && u in Ladder(n)[v]
  {
    assert Ladder(n)[u] == {Next(n, u), Previous(n, u), Opposite(n, u)};
    assert v == Next(n, u) || v == Previous(n, u) || v == Opposite(n, u);
    assert Ladder(n)[v] == {Next(n, v), Previous(n, v), Opposite(n, v)};
  }

  lemma LadderCubic(n: nat)
    requires SeedOrder(n)
    ensures NeighboursInRange(Ladder(n)) && Cubic(Ladder(n)) && Isomorphism.Symmetric(Ladder(n))
  {
    forall u | 0 <= u < n ensures |Ladder(n)[u]| == 3 {
      LadderTriple(n, u);
      assert Ladder(n)[u] == {Next(n, u), Previous(n, u), Opposite(n, u)};
    }
    forall u, v | 0 <= u < n && v in Ladder(n)[u] ensures 0 <= v < n && u in Ladder(n)[v] {
      LadderBack(n, u, v);
    }
  }

  lemma {:induction false} LadderWalk(n: nat, v: nat)
    requires v < n
    ensures Walk(Ladder(n), 0, v, v)
    decreases v
  {
    if v > 0 {
      LadderWalk(n, v - 1);
      assert v in Ladder(n)[v - 1];
    }
  }

  lemma LadderConnected(n: nat)
    requires SeedOrder(n)
    ensures Connected(Ladder(n))
  {
    forall v | 0 <= v < n ensures Reachable(Ladder(n), 0, v) {
      LadderWalk(n, v);
    }
  }

  // --- The relabelled ladder ----------------------------------------------------------------

  /** The edge from position i around the ring. */
  function RingEdge(n: nat, labels: seq<int>, i: nat): Edge
    requires |labels| == n && i < n
  {
    NormalizedEdge((labels[i], labels[(i + 1) % n]))
  }

  function RingEdges(n: nat, labels: seq<int>): (r: seq<Edge>)
    requires |labels| == n
    ensures |r| == n
  {
    seq(n, i requires 0 <= i < n => RingEdge(n, labels, i))
  }

  /** The edges across the ring. */
  function RungEdges(n: nat, labels: seq<int>): (r: seq<Edge>)
    requires |labels| == n
    ensures |r| == n / 2
  {
    seq(n / 2, i requires 0 <= i < n / 2 => NormalizedEdge((labels[i], labels[i + n / 2])))
  }

  /** The edges of the seed: the image of the ladder under the labels. */
  ghost function LadderEdges(n: nat, labels: seq<int>): set<Edge>
    requires |labels| == n
  {
    set u, v | u in UpTo(n) && v in UpTo(n) && v in Ladder(n)[u] :: NormalizedEdge((labels[u], labels[v]))
  }

  lemma NextIsModular(n: nat, i: nat)
    requires i < n
    ensures (i + 1) % n == Next(n, i)
  {
    if i + 1 < n {
      Permutations.SmallRemainder(i + 1, n);
    }
  }

  lemma EdgeOfLadder(n: nat, labels: seq<int>, u: int, v: int)
    requires |labels| == n && 0 <= u < n && 0 <= v < n && v in Ladder(n)[u]
    ensures NormalizedEdge((labels[u], labels[v])) in LadderEdges(n, labels)
  {
    assert u in UpTo(n) && v in UpTo(n);
  }

  lemma NextInLadder(n: nat, u: nat)
    requires SeedOrder(n) && u < n
    ensures 0 <= Next(n, u) < n && Next(n, u) in Ladder(n)[u]
  {}

  lemma RingEdgeIs(n: nat, labels: seq<int>, i: nat)
    requires SeedOrder(n) && |labels| == n && i < n
    ensures 0 <= Next(n, i) < n
    ensures RingEdge(n, labels, i) == NormalizedEdge((labels[i], labels[Next(n, i)]))
  {
    NextIsModular(n, i);
  }

  lemma RingIsLadder(n: nat, labels: seq<int>, i: nat)
    requires SeedOrder(n) && |labels| == n && i < n
    ensures 0 <= Next(n, i) < n
    ensures RingEdges(n, labels)[i] == NormalizedEdge((labels[i], labels[Next(n, i)]))
    ensures RingEdges(n, labels)[i] in LadderEdges(n, labels)
  {
    RingEdgeIs(n, labels, i);
    NextInLadder(n, i);
    EdgeOfLadder(n, labels, i, Next(n, i));
  }

  lemma RungIsLadder(n: nat, labels: seq<int>, i: nat)
    requires SeedOrder(n) && |labels| == n && i < n / 2
    ensures RungEdges(n, labels)[i] == NormalizedEdge((labels[i], labels[Opposite(n, i)]))
    ensures RungEdges(n, labels)[i] in LadderEdges(n, labels)
  {
    EdgeOfLadder(n, labels, i, Opposite(n, i));
  }

  lemma NormalizedFlip(a: int, b: int)
    ensures NormalizedEdge((a, b)) == NormalizedEdge((b, a))
  {}

  lemma LadderCases(n: nat, u: int, v: int)
    requires SeedOrder(n) && 0 <= u < n && v in Ladder(n)[u]
    ensures 0 <= v < n
    ensures v == Next(n, u) || u == Next(n, v) || (u < n / 2 && v == Opposite(n, u))
            || (v < n / 2 && u == Opposite(n, v))
  {}

  lemma ListedRing(n: nat, labels: seq<int>, i: nat)
    requires SeedOrder(n) && |labels| == n && i < n
    ensures 0 <= Next(n, i) < n
    ensures NormalizedEdge((labels[i], labels[Next(n, i)])) in RingEdges(n, labels) + RungEdges(n, labels)
  {
    RingIsLadder(n, labels, i);
    assert (RingEdges(n, labels) + RungEdges(n, labels))[i] == RingEdges(n, labels)[i];
  }

  lemma ListedRung(n: nat, labels: seq<int>, i: nat)
    requires SeedOrder(n) && |labels| == n && i < n / 2
    ensures NormalizedEdge((labels[i], labels[Opposite(n, i)])) in RingEdges(n, labels) + RungEdges(n, labels)
  {
    RungIsLadder(n, labels, i);
    assert (RingEdges(n, labels) + RungEdges(n, labels))[n + i] == RungEdges(n, labels)[i];
  }

  /** Every ladder edge is a ring edge or a rung. */
  lemma LadderIsListed(n: nat, labels: seq<int>, u: int, v: int)
    requires SeedOrder(n) && |labels| == n && 0 <= u < n && v in Ladder(n)[u]
    ensures 0 <= v < n
    ensures NormalizedEdge((labels[u], labels[v])) in RingEdges(n, labels) + RungEdges(n, labels)
  {
    LadderCases(n, u, v);
    NormalizedFlip(labels[u], labels[v]);
    if v == Next(n, u) {
      ListedRing(n, labels, u);
    } else if u == Next(n, v) {
      ListedRing(n, labels, v);
    } else if u < n / 2 {
      ListedRung(n, labels, u);
    } else {
      ListedRung(n, labels, v);
    }
  }

  lemma ListedEdges(n: nat, labels: seq<int>)
    requires SeedOrder(n) && |labels| == n
    ensures EdgeSet(RingEdges(n, labels) + RungEdges(n, labels)) == LadderEdges(n, labels)
  {
    var all := RingEdges(n, labels) + RungEdges(n, labels);
    forall e | e in EdgeSet(all) ensures e in LadderEdges(n, labels) {
      var i :| 0 <= i < |all| && all[i] == e;
      if i < n {
        RingIsLadder(n, labels, i);
      } else {
        RungIsLadder(n, labels, i - n);
      }
    }
    forall e | e in LadderEdges(n, labels) ensures e in EdgeSet(all) {
      var u, v :| u in UpTo(n) && v in UpTo(n) && v in Ladder(n)[u] && NormalizedEdge((labels[u], labels[v])) == e;
      LadderIsListed(n, labels, u, v);
    }
  }

  // --- Validity -----------------------------------------------------------------------------

  /** A state on the ladder edges has its endpoints in range and no loop. */
  lemma SeedEdges(g: GraphState, n: nat, labels: seq<int>)
    requires SeedOrder(n) && Permutations.Permutation(labels, n) && ToyBackend.IsState(g, n, LadderEdges(n, labels))
    ensures EndpointsInRange(g) && LoopFree(g.edges)
  {
    LadderCubic(n);
    forall i | 0 <= i < |g.edges| ensures IsEdge(n, g.edges[i]) && g.edges[i].0 != g.edges[i].1 {
      assert g.edges[i] in EdgeSet(g.edges);
      var u, v :| u in UpTo(n) && v in UpTo(n) && v in Ladder(n)[u]
          && NormalizedEdge((labels[u], labels[v])) == g.edges[i];
      assert u != v;
    }
  }

  /** An edge of the state comes from one pair of positions. */
  lemma EdgeFrom(g: GraphState, n: nat, labels: seq<int>, u: int, v: int, e: Edge)
    requires SeedOrder(n) && Permutations.Permutation(labels, n) && EdgeSet(g.edges) == LadderEdges(n, labels)
    requires 0 <= u < n && 0 <= v < n && e in g.edges && (e == (labels[u], labels[v]) || e == (labels[v], labels[u]))
    ensures v in Ladder(n)[u]
  {
    assert e in EdgeSet(g.edges);
    var a, b :| a in UpTo(n) && b in UpTo(n) && b in Ladder(n)[a] && NormalizedEdge((labels[a], labels[b])) == e;
    assert (a == u && b == v) || (a == v && b == u);
    LadderBack(n, a, b);
  }

  lemma SeedJoins(g: GraphState, n: nat, labels: seq<int>, u: int, v: int)
    requires SeedOrder(n) && Permutations.Permutation(labels, n) && EdgeSet(g.edges) == LadderEdges(n, labels)
    requires 0 <= u < n && 0 <= v < n
    ensures v in Ladder(n)[u] <==> Joins(g.edges, labels[u], labels[v])
  {
    if v in Ladder(n)[u] {
      EdgeOfLadder(n, labels, u, v);
      assert NormalizedEdge((labels[u], labels[v])) in EdgeSet(g.edges);
    }
    if Joins(g.edges, labels[u], labels[v]) {
      EdgeFrom(g, n, labels, u, v,
               if (labels[u], labels[v]) in g.edges then (labels[u], labels[v]) else (labels[v], labels[u]));
    }
  }

  /** Every labelling of the ladder is a valid graph with three edges for every two vertices. */
  lemma SeedValid(g: GraphState, n: nat, labels: seq<int>)
    requires SeedOrder(n) && Permutations.Permutation(labels, n) && ToyBackend.IsState(g, n, LadderEdges(n, labels))
    ensures Isomorphism.Iso(Ladder(n), Links(g), labels)
    ensures ValidCubic(g) && 2 * |g.edges| == 3 * n
  {
    SeedEdges(g, n, labels);
    LadderCubic(n);
    LadderConnected(n);
    forall u, v | 0 <= u < n && 0 <= v < n ensures v in Ladder(n)[u] <==> labels[v] in Links(g)[labels[u]] {
      SeedJoins(g, n, labels, u, v);
    }
    Isomorphism.ConnectedImage(Ladder(n), Links(g), labels);
    forall w | 0 <= w < n ensures |Links(g)[w]| == 3 {
      var u := Permutations.Inverse(labels, n)[w];
      assert labels[u] == w;
      Isomorphism.NeighbourImage(Ladder(n), Links(g), labels, u);
    }
    Handshake(g);
  }

  datatype SeedError = OrderRejected | InvalidSeed

  /**
    The seed for any outcome of the shuffle. The only failure is an order that is odd or below four: the
    validation at the end never fails.
   */
  method GenerateSeed(order: int, draws: nat -> nat) returns (r: Result<GraphState, SeedError>)
    ensures r.Failure? <==> !SeedOrder(order)
    ensures r.Failure? ==> r.error == OrderRejected
    ensures r.Success? ==> Canonical(r.value) && ValidCubic(r.value)
                           && r.value.order == order && 2 * |r.value.edges| == 3 * order
    ensures r.Success? ==> Isomorphism.Iso(Ladder(order), Links(r.value),
                                           Permutations.Shuffled(Permutations.Identity(order), order - 1, draws))
  {
    if order < 4 || order % 2 != 0 {
      return Failure(OrderRejected);
    }
    var labels := Permutations.DeterministicPermutation(order, draws);
    var edges := RingEdges(order, labels) + RungEdges(order, labels);
    var graph := MakeState(order, Sorting.Elements(edges));
    SeedState(order, labels);
    SeedValid(graph, order, labels);
    var errors := Validate(graph);
    if errors != [] {
      return Failure(InvalidSeed);
    }
    r := Success(graph);
  }

  /** Every labelling of the ladder is the seed for some draws. */
  lemma SeedReached(order: int, labels: seq<int>) returns (draws: nat -> nat)
    requires SeedOrder(order) && Permutations.Permutation(labels, order)
    ensures Permutations.Shuffled(Permutations.Identity(order), order - 1, draws) == labels
  {
    draws := Permutations.ShuffleReaches(Permutations.Identity(order), order - 1, labels, order);
  }

  lemma ListedNormalized(n: nat, labels: seq<int>, e: Edge)
    requires SeedOrder(n) && |labels| == n && e in RingEdges(n, labels) + RungEdges(n, labels)
    ensures e.0 <= e.1
  {
    ListedEdges(n, labels);
    assert e in EdgeSet(RingEdges(n, labels) + RungEdges(n, labels));
  }

  lemma SeedState(n: nat, labels: seq<int>)
    requires SeedOrder(n) && |labels| == n
    ensures ToyBackend.IsState(MakeState(n, Sorting.Elements(RingEdges(n, labels) + RungEdges(n, labels))), n,
                               LadderEdges(n, labels))
  {
    var all := RingEdges(n, labels) + RungEdges(n, labels);
    ListedEdges(n, labels);
    forall e | e in all ensures e.0 <= e.1 {
      ListedNormalized(n, labels, e);
    }
    StateOfElements(n, all);
  }

  lemma StateOfElements(n: nat, all: seq<Edge>)
    requires forall e :: e in all ==> e.0 <= e.1
    ensures ToyBackend.IsState(MakeState(n, Sorting.Elements(all)), n, EdgeSet(all))
  {
    var edges := Sorting.Elements(all);
    assert EdgeSet(edges) == EdgeSet(all);
    ToyBackend.SortedState(n, edges);
  }
}
