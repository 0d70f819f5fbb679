/** A graph from which an episode of the toy backend can record a rising curve. */
module RisingCurves {
  import opened Graphs
  import opened Models
  import opened FourCycles
  import opened CubicGraphs
  import opened ToyBackend
  import opened SeedGraphs
  import Permutations
  import Isomorphism
  import Sorting
  import AcceleratedEpisode

  // --- The 4-cycles of the ladder -----------------------------------------------------------

  /** Two neighbouring rungs and the ring edges between them. */
  function RungSquare(h: nat): int -> set<Edge> {
    (i: int) => Square(i, i + 1, i + 1 + h, i + h)
  }

  lemma RungLinks(n: nat, h: nat, i: int)
    requires SeedOrder(n) && n == 2 * h && 0 <= i < h - 1
    ensures var g := Ladder(n); i + 1 in g[i] && i + 1 + h in g[i + 1] && i + h in g[i + 1 + h] && i in g[i + h]
  {
    assert i + 1 == Next(n, i) && i + 1 + h == Opposite(n, i + 1);
    assert i + h == Previous(n, i + 1 + h) && i == Opposite(n, i + h);
  }

  lemma FourSteps(g: Adjacency, e: set<Edge>, a: int, b: int, c: int, d: int)
    requires e == Square(a, b, c, d) && 0 <= a < b < |g| && 0 <= d < c < |g| && b < d
    requires b in g[a] && c in g[b] && d in g[c] && a in g[d]
    ensures e in Squares(g)
  {
    assert Cycle(g, [a, b, c, d]);
  }

  lemma RungCycle(g: Adjacency, n: nat, h: nat, i: int)
    requires g == Ladder(n) && SeedOrder(n) && n == 2 * h && 0 <= i < h - 1
    ensures RungSquare(h)(i) in Squares(g)
  {
    RungLinks(n, h, i);
    FourSteps(g, RungSquare(h)(i), i, i + 1, i + 1 + h, i + h);
  }

  lemma RungSquareIs(h: nat, i: int)
    requires 0 <= i < h - 1
    ensures RungSquare(h)(i) == {(i, i + 1), (i + 1, i + 1 + h), (i + h, i + 1 + h), (i, i + h)}
  {
    assert NormalizedEdge((i, i + 1)) == (i, i + 1) && NormalizedEdge((i + h, i)) == (i, i + h);
    assert NormalizedEdge((i + 1 + h, i + h)) == (i + h, i + 1 + h);
  }

  lemma RungSquaresDiffer(h: nat, i: int, j: int)
    requires 0 <= i < h - 1 && 0 <= j < h - 1 && RungSquare(h)(i) == RungSquare(h)(j)
    ensures i == j
  {
    RungSquareIs(h, i);
    RungSquareIs(h, j);
    assert (i, i + 1) in RungSquare(h)(j);
  }

  /** A ladder with h rungs has at least h - 1 cycles of length four. */
  lemma LadderSquares(n: nat, h: nat)
    requires SeedOrder(n) && n == 2 * h
    ensures |Squares(Ladder(n))| >= h - 1
  {
    var f, found := RungSquare(h), set i | i in UpTo(h - 1) :: RungSquare(h)(i);
    forall i, j | i in UpTo(h - 1) && j in UpTo(h - 1) && f(i) == f(j) ensures i == j {
      RungSquaresDiffer(h, i, j);
    }
    ImageSize(UpTo(h - 1), f, found);
    forall e | e in found ensures e in Squares(Ladder(n)) {
      var i :| i in UpTo(h - 1) && e == f(i);
      RungCycle(Ladder(n), n, h, i);
    }
    SubsetCount(found, Squares(Ladder(n)));
  }

  // --- The ladder ---------------------------------------------------------------------------

  /** The ladder with its positions as labels. */
  function LadderState(n: nat): GraphState {
    var labels := Permutations.Identity(n);
    MakeState(n, Sorting.Elements(RingEdges(n, labels) + RungEdges(n, labels)))
  }

  lemma LadderStateValid(n: nat, h: nat)
    requires SeedOrder(n) && n == 2 * h
    ensures LadderState(n).order == n && Canonical(LadderState(n)) && ValidCubic(LadderState(n))
    ensures |Squares(Links(LadderState(n)))| >= h - 1
  {
    var labels := Permutations.Identity(n);
    SeedState(n, labels);
    SeedValid(LadderState(n), n, labels);
    Isomorphism.SquaresPreserved(Ladder(n), Links(LadderState(n)), labels);
    LadderSquares(n, h);
  }

  /** An edge of the ladder joins neighbouring positions, and all of them are joined. */
  lemma LadderStateEdge(n: nat, u: int, v: int)
    requires SeedOrder(n) && 0 <= u < v < n
    ensures (u, v) in LadderState(n).edges <==> v in Ladder(n)[u]
  {
    var labels := Permutations.Identity(n);
    SeedState(n, labels);
    SeedJoins(LadderState(n), n, labels, u, v);
    LadderStateValid(n, n / 2);
    assert (v, u) !in LadderState(n).edges;
  }

  // --- A ladder with one switch and a repeated edge -----------------------------------------

  /** The edges after the switch of (0, 1) and (2, 3) to (0, 2) and (1, 3), with (0, 2) listed twice. */
  function Listed(n: nat): seq<Edge> {
    [(0, 2), (0, 2), (1, 3)] + Remaining(LadderState(n).edges, [(0, 1), (2, 3)])
  }

  function Switched(n: nat): GraphState {
    MakeState(n, Listed(n))
  }

  const BACK := RewritePlan([(0, 2), (1, 3)], [(0, 1), (2, 3)])

  lemma FourEdges(n: nat)
    requires SeedOrder(n) && n >= 10
    ensures (0, 1) in LadderState(n).edges && (2, 3) in LadderState(n).edges
    ensures (0, 2) !in LadderState(n).edges && (1, 3) !in LadderState(n).edges
  {
    LadderStateEdge(n, 0, 1);
    LadderStateEdge(n, 2, 3);
    LadderStateEdge(n, 0, 2);
    LadderStateEdge(n, 1, 3);
  }

  lemma PairOfEdges(e: Edge, f: Edge)
    ensures EdgeSet([e, f]) == {e, f}
  {
    assert [e, f][0] == e && [e, f][1] == f;
  }

  lemma RemainingNormalized(g: GraphState, removed: seq<Edge>)
    requires Canonical(g)
    ensures forall i :: 0 <= i < |Remaining(g.edges, removed)| ==>
                          Remaining(g.edges, removed)[i].0 <= Remaining(g.edges, removed)[i].1
  {
    var kept := Remaining(g.edges, removed);
    forall i | 0 <= i < |kept| ensures kept[i].0 <= kept[i].1 {
      assert kept[i] in EdgeSet(kept) && kept[i] in EdgeSet(g.edges);
    }
  }

  lemma SameEdges(edges: seq<Edge>, listed: seq<Edge>)
    requires multiset(edges) == multiset(listed)
    ensures EdgeSet(edges) == EdgeSet(listed)
  {
    forall e ensures e in edges <==> e in listed {
      assert e in multiset(edges) <==> e in multiset(listed);
    }
  }

  lemma ListedSet(e: Edge, f: Edge, kept: seq<Edge>)
    ensures EdgeSet([e, e, f] + kept) == EdgeSet(kept) + {e, f}
  {
    var listed := [e, e, f] + kept;
    assert listed[0] == e && listed[2] == f;
    forall x ensures x in listed <==> x in kept || x == e || x == f {
      if x in kept {
        var i :| 0 <= i < |kept| && kept[i] == x;
        assert listed[i + 3] == x;
      }
    }
  }

  lemma TwiceListed(listed: seq<Edge>, edges: seq<Edge>)
    requires |listed| >= 2 && listed[0] == listed[1] && multiset(edges) == multiset(listed)
    ensures !Distinct(edges)
  {
    if Distinct(edges) {
      DistinctPermuted(edges, listed);
      assert false;
    }
  }

  /** A state whose first edge is listed twice. */
  lemma RepeatedState(order: int, e: Edge, f: Edge, kept: seq<Edge>)
    requires e.0 <= e.1 && f.0 <= f.1 && forall i :: 0 <= i < |kept| ==> kept[i].0 <= kept[i].1
    ensures var g := MakeState(order, [e, e, f] + kept);
            Canonical(g) && !Distinct(g.edges) && EdgeSet(g.edges) == EdgeSet(kept) + {e, f}
  {
    var listed := [e, e, f] + kept;
    assert Normalized(listed) == listed;
    MadeCanonical(order, listed);
    TwiceListed(listed, MakeState(order, listed).edges);
    SameEdges(MakeState(order, listed).edges, listed);
    ListedSet(e, f, kept);
  }

  /** The switched state holds exactly the switched edges, one of them twice. */
  lemma SwitchedEdges(n: nat)
    requires SeedOrder(n)
    ensures Switched(n).order == n && Canonical(Switched(n)) && !Distinct(Switched(n).edges)
    ensures EdgeSet(Switched(n).edges) == (EdgeSet(LadderState(n).edges) - {(0, 1), (2, 3)}) + {(0, 2), (1, 3)}
  {
    LadderStateValid(n, n / 2);
    RemainingNormalized(LadderState(n), [(0, 1), (2, 3)]);
    RepeatedState(n, (0, 2), (1, 3), Remaining(LadderState(n).edges, [(0, 1), (2, 3)]));
    PairOfEdges((0, 1), (2, 3));
  }

  /** The switch back is accepted and gives the ladder. */
  lemma SwitchBack(n: nat)
    requires SeedOrder(n) && n >= 10
    ensures TwoSwitch(Switched(n), BACK) && Exchanges(Switched(n), BACK, LadderState(n))
  {
    var g, h := Switched(n), LadderState(n);
    SwitchedEdges(n);
    FourEdges(n);
    LadderStateValid(n, n / 2);
    BackNormalized();
    PairOfEdges((0, 1), (2, 3));
    PairOfEdges((0, 2), (1, 3));
    assert forall e :: e in EdgeSet(g.edges) <==> e in g.edges;
    assert forall e :: e in EdgeSet(h.edges) <==> e in h.edges;
    assert EdgeSet(h.edges) == (EdgeSet(g.edges) - {(0, 2), (1, 3)}) + {(0, 1), (2, 3)};
    SwitchOfFour(g);
  }

  lemma BackNormalized()
    ensures Normalized(BACK.removed) == BACK.removed && Normalized(BACK.added) == BACK.added
    ensures Distinct(BACK.removed) && Distinct(BACK.added) && LoopFree(BACK.added)
  {}

  lemma SwitchOfFour(g: GraphState)
    requires (0, 2) in g.edges && (1, 3) in g.edges
    ensures TwoSwitch(g, BACK)
  {
    var a, b, c, d := 0, 2, 1, 3;
    assert |{a, b, c, d}| == 4;
    assert NormalizedEdge((a, c)) == (0, 1) && NormalizedEdge((b, d)) == (2, 3);
  }

  /**
    With a cap above 10^9 there is a graph and there are draws with which the curve of an episode rises: the
    repeated edge makes the graph invalid, and the exchange that undoes the switch drops it.
   */
  lemma CurveCanRise(cap: int) returns (g: GraphState)
    requires cap > WORST
    ensures Canonical(g) && !AcceleratedEpisode.CalmStart(cap, g) && !AcceleratedEpisode.CurvesFall(cap, g)
  {
    var h := WORST + 2;
    var n := 2 * h;
    LadderStateValid(n, h);
    SwitchedEdges(n);
    SwitchBack(n);
    g := Switched(n);
    AcceleratedEpisode.WildStart(cap, g, BACK, LadderState(n));
    AcceleratedEpisode.ToyCurveExact(cap, g);
  }
}
