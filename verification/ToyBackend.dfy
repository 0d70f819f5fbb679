/** The toy backend: scoring by 4-cycles, exact verification and guarded edge exchanges. */
module ToyBackend {
  import opened Wrappers
  import opened Graphs
  import Sorting
  import opened Models
  import FourCycles
  import opened CubicGraphs

  // --- Scores -------------------------------------------------------------------------------

  datatype GraphScore = GraphScore(valid: bool, counts: seq<(int, int)>, total: int, penalty: int,
                                   complete: bool, key: seq<int>)

  const WORST := 1_000_000_000

  function Min(a: int, b: int): int {
    if a <= b then a else b
  }

  /** The score of a graph, told by the number of its 4-cycles. */
  ghost function FullScore(g: GraphState, cap: int): GraphScore {
    if ValidCubic(g) then
      var squares := |FourCycles.Squares(Links(g))|;
      var capped := Min(squares, cap);
      GraphScore(true, [(4, capped)], capped, capped * 16, squares <= cap, [0, capped, capped * 16, 0, |g.edges|])
    else
      GraphScore(false, [], WORST, WORST, true, [1, WORST, WORST])
  }

  /** A valid score no better than a cutoff that still has witnesses. */
  predicate Dominated(score: GraphScore, cutoff: Option<GraphScore>) {
    score.valid && cutoff.Some? && cutoff.value.total > 0 && Sorting.SeqLeq(cutoff.value.key, score.key)
  }

  /**
    Rates a valid graph by its 4-cycles, as many as the cap lets count, and says whether all were counted;
    every other graph has the worst score.
   */
  ghost predicate Rates(g: GraphState, cap: int, score: GraphScore) {
    && (score.valid <==> ValidCubic(g))
    && (ValidCubic(g) ==> CountsSquares(|FourCycles.Squares(Links(g))|, cap, score)
                          && score.key == [0, score.total, score.penalty, 0, |g.edges|])
    && (!score.valid ==>
          score.counts == [] && score.total == score.penalty == 1_000_000_000 && score.complete
          && score.key == [1, score.total, score.penalty])
  }

  predicate CountsSquares(squares: int, cap: int, score: GraphScore) {
    && score.total <= squares && score.total <= cap && (score.total == squares || score.total == cap)
    && (score.complete <==> squares <= cap)
    && score.counts == [(4, score.total)] && score.penalty == 16 * score.total
  }

  lemma ScoreRates(g: GraphState, cap: int)
    ensures Rates(g, cap, FullScore(g, cap))
  {}

  /** Keys put valid graphs first, then those with fewer counted 4-cycles, then those with fewer edges. */
  lemma KeysRank(g: GraphState, h: GraphState, cap: int, s: GraphScore, t: GraphScore)
    requires Rates(g, cap, s) && Rates(h, cap, t)
    ensures Sorting.SeqLeq(s.key, t.key) <==>
            !t.valid || (s.valid && (s.total < t.total || (s.total == t.total && |g.edges| <= |h.edges|)))
  {
    var a, b := s.key, t.key;
    Heads(a, b);
    if s.valid && t.valid {
      Heads(a[1..], b[1..]);
      Heads(a[2..], b[2..]);
      Heads(a[3..], b[3..]);
      Heads(a[4..], b[4..]);
    }
    if !s.valid && !t.valid {
      Sorting.SeqTotal(a, b);
    }
  }

  lemma Heads(a: seq<int>, b: seq<int>)
    requires a != [] && b != []
    ensures Sorting.SeqLeq(a, b) <==> a[0] < b[0] || (a[0] == b[0] && Sorting.SeqLeq(a[1..], b[1..]))
    ensures |a| > 1 ==> a[1..][1..] == a[2..] && a[1..][0] == a[1]
  {}

  method Score(g: GraphState, cap: int, cutoff: Option<GraphScore>) returns (r: Option<GraphScore>)
    ensures r == if Dominated(FullScore(g, cap), cutoff) then None else Some(FullScore(g, cap))
    ensures r.Some? ==> Rates(g, cap, r.value)
    ensures r.None? <==> ValidCubic(g) && cutoff.Some? && cutoff.value.total > 0
                         && Sorting.SeqLeq(cutoff.value.key, FullScore(g, cap).key)
  {
    ScoreRates(g, cap);
    var errors := Validate(g);
    if errors != [] {
      return Some(GraphScore(false, [], WORST, WORST, true, [1, WORST, WORST]));
    }
    var adjacency := BuildAdjacency(g);
    ValidSimple(g);
    var squares := FourCycles.CountSquares(adjacency);
    var capped := Min(squares, cap);
    var complete := squares <= cap;
    var result := GraphScore(true, [(4, capped)], capped, capped * 16, complete,
                             [0, capped, capped * 16, 0, |g.edges|]);
    if cutoff.Some? && cutoff.value.total > 0 && Sorting.SeqLeq(cutoff.value.key, result.key) {
      return None;
    }
    r := Some(result);
  }

  const EXACT_CAP := 0x7fff_ffff

  /** Verified exactly for valid graphs in which no search finds a cycle of length four. */
  method ExactVerify(g: GraphState) returns (verified: bool)
    ensures verified <==> ValidCubic(g) && !HasCycle(Links(g), 4)
  {
    var score := Score(g, EXACT_CAP, None);
    verified := score.value.total == 0;
    if ValidCubic(g) {
      ValidSimple(g);
      FourCycles.NoSquareIffNoCycle(Links(g));
    }
  }

  // --- Rewrites -----------------------------------------------------------------------------

  datatype RewritePlan = RewritePlan(removed: seq<Edge>, added: seq<Edge>)

  datatype RewriteError = TooManyEdges | RepeatedEdges | MissingEdge | AddsLoop | ExistingEdge | InvalidGraph

  /** What the guards allow: h is g with the removed edges exchanged for the added ones, and h is valid. */
  ghost predicate Exchanges(g: GraphState, plan: RewritePlan, h: GraphState) {
    var removed, added := Normalized(plan.removed), Normalized(plan.added);
    && |removed| <= 4 && |added| <= 4 && Distinct(removed) && Distinct(added)
    && EdgeSet(removed) <= EdgeSet(g.edges)
    && LoopFree(added)
    && (forall e :: e in EdgeSet(added) && e in EdgeSet(g.edges) ==> e in EdgeSet(removed))
    && IsState(h, g.order, (EdgeSet(g.edges) - EdgeSet(removed)) + EdgeSet(added))
    && ValidCubic(h)
  }

  /** The canonical state with this order and this set of edges. */
  ghost predicate IsState(h: GraphState, order: int, edges: set<Edge>) {
    h.order == order && Canonical(h) && Distinct(h.edges) && EdgeSet(h.edges) == edges
  }

  lemma StateUnique(g: GraphState, h: GraphState, order: int, edges: set<Edge>)
    requires IsState(g, order, edges) && IsState(h, order, edges)
    ensures g == h
  {
    DistinctMultiset(g.edges, h.edges);
    CanonicalUnique(g, h);
  }

  /** The edges that are not removed, each once. */
  function Remaining(edges: seq<Edge>, removed: seq<Edge>): (r: seq<Edge>)
    ensures Distinct(r) && EdgeSet(r) == EdgeSet(edges) - EdgeSet(removed)
  {
    if edges == [] then []
    else
      var n := |edges| - 1;
      var r := Remaining(edges[..n], removed);
      assert edges == edges[..n] + [edges[n]];
      assert EdgeSet(edges) == EdgeSet(edges[..n]) + {edges[n]};
      if edges[n] in removed || edges[n] in r then r
      else
        assert edges[n] !in EdgeSet(r);
        assert EdgeSet(r + [edges[n]]) == EdgeSet(r) + {edges[n]};
        r + [edges[n]]
  }

  lemma ConcatenatedEdges(a: seq<Edge>, b: seq<Edge>)
    requires Distinct(a) && Distinct(b) && forall i :: 0 <= i < |b| ==> b[i] !in a
    ensures Distinct(a + b) && EdgeSet(a + b) == EdgeSet(a) + EdgeSet(b)
  {
    forall i, j | 0 <= i < |a| && 0 <= j < |b| ensures a[i] != b[j] {
      assert a[i] in a && b[j] !in a;
    }
  }

  lemma SortedState(order: int, edges: seq<Edge>)
    requires Distinct(edges) && forall i :: 0 <= i < |edges| ==> edges[i].0 <= edges[i].1
    ensures IsState(MakeState(order, edges), order, EdgeSet(edges))
  {
    assert Normalized(edges) == edges;
    MadeCanonical(order, edges);
    var r := MakeState(order, edges).edges;
    forall e ensures e in r <==> e in edges {
      assert e in multiset(r) <==> e in multiset(edges);
    }
    assert EdgeSet(r) == EdgeSet(edges);
    EdgeSetSize(edges);
    RepeatsShrink(r);
  }

  /** The first guard that an exchange fails. */
  ghost predicate Refuses(g: GraphState, plan: RewritePlan, error: RewriteError) {
    var removed, added := Normalized(plan.removed), Normalized(plan.added);
    var small := |removed| <= 4 && |added| <= 4;
    var distinct := small && Distinct(removed) && Distinct(added);
    var present := distinct && EdgeSet(removed) <= EdgeSet(g.edges);
    var loopFree := present && LoopFree(added);
    var unused := loopFree && forall e :: e in EdgeSet(added) && e in EdgeSet(g.edges) ==> e in EdgeSet(removed);
    match error
    case TooManyEdges => !small
    case RepeatedEdges => small && !distinct
    case MissingEdge => distinct && !present
    case AddsLoop => present && !loopFree
    case ExistingEdge => loopFree && !unused
    case InvalidGraph =>
      unused && forall h :: IsState(h, g.order, (EdgeSet(g.edges) - EdgeSet(removed)) + EdgeSet(added)) ==>
          !ValidCubic(h)
  }

  /** A refused exchange is not one the guards allow. */
  lemma RefusedIsNone(g: GraphState, plan: RewritePlan, error: RewriteError)
    requires Refuses(g, plan, error)
    ensures forall h :: !Exchanges(g, plan, h)
  {}

  /** Succeeds exactly when the guards allow the exchange, and otherwise names the first guard that does not. */
  method ApplyRewrite(g: GraphState, plan: RewritePlan) returns (r: Result<GraphState, RewriteError>)
    requires Canonical(g)
    ensures r.Success? ==> Exchanges(g, plan, r.value)
    ensures r.Failure? ==> Refuses(g, plan, r.error) && forall h :: !Exchanges(g, plan, h)
  {
    r := Exchange(g, plan);
    if r.Failure? {
      RefusedIsNone(g, plan, r.error);
    }
  }

  method Exchange(g: GraphState, plan: RewritePlan) returns (r: Result<GraphState, RewriteError>)
    requires Canonical(g)
    ensures r.Success? ==> Exchanges(g, plan, r.value)
    ensures r.Failure? ==> Refuses(g, plan, r.error)
  {
    var removed, added := Normalized(plan.removed), Normalized(plan.added);
    if |removed| > 4 || |added| > 4 {
      return Failure(TooManyEdges);
    }
    if HasRepeats(removed) || HasRepeats(added) {
      return Failure(RepeatedEdges);
    }
    if exists i :: 0 <= i < |removed| && removed[i] !in g.edges {
      assert forall i :: 0 <= i < |removed| ==> removed[i] in EdgeSet(removed);
      return Failure(MissingEdge);
    }
    assert EdgeSet(removed) <= EdgeSet(g.edges);
    var remaining := Remaining(g.edges, removed);
    if exists i :: 0 <= i < |added| && added[i].0 == added[i].1 {
      return Failure(AddsLoop);
    }
    if exists i :: 0 <= i < |added| && added[i] in remaining {
      ghost var i :| 0 <= i < |added| && added[i] in remaining;
      assert added[i] in EdgeSet(added) && added[i] in EdgeSet(remaining);
      return Failure(ExistingEdge);
    }
    var candidate := MakeState(g.order, remaining + added);
    CandidateState(g, removed, added);
    var errors := Validate(candidate);
    if errors != [] {
      forall h | IsState(h, g.order, (EdgeSet(g.edges) - EdgeSet(removed)) + EdgeSet(added)) ensures h == candidate {
        StateUnique(h, candidate, g.order, EdgeSet(remaining) + EdgeSet(added));
      }
      return Failure(InvalidGraph);
    }
    r := Success(candidate);
  }

  lemma CandidateState(g: GraphState, removed: seq<Edge>, added: seq<Edge>)
    requires Canonical(g) && Distinct(added) && forall i :: 0 <= i < |added| ==> added[i].0 <= added[i].1
    requires forall i :: 0 <= i < |added| ==> added[i] !in Remaining(g.edges, removed)
    ensures forall e :: e in EdgeSet(added) && e in EdgeSet(g.edges) ==> e in EdgeSet(removed)
    ensures IsState(MakeState(g.order, Remaining(g.edges, removed) + added), g.order,
                    (EdgeSet(g.edges) - EdgeSet(removed)) + EdgeSet(added))
  {
    var kept := Remaining(g.edges, removed);
    forall i | 0 <= i < |kept| ensures kept[i].0 <= kept[i].1 {
      assert kept[i] in EdgeSet(kept) && kept[i] in EdgeSet(g.edges);
    }
    ConcatenatedEdges(kept, added);
    SortedState(g.order, kept + added);
  }

  /** An accepted rewrite of a valid graph keeps the number of edges, so it removes as many as it adds. */
  lemma ExchangeKeepsSize(g: GraphState, plan: RewritePlan, h: GraphState)
    requires Canonical(g) && ValidCubic(g) && Exchanges(g, plan, h)
    ensures ValidCubic(h) && h.order == g.order && |h.edges| == |g.edges|
    ensures |plan.removed| == |plan.added|
  {
    Handshake(g);
    Handshake(h);
    var e, r, a := EdgeSet(g.edges), EdgeSet(Normalized(plan.removed)), EdgeSet(Normalized(plan.added));
    EdgeSetSize(g.edges);
    EdgeSetSize(h.edges);
    EdgeSetSize(Normalized(plan.removed));
    EdgeSetSize(Normalized(plan.added));
    UnionSize(e - r, r, e);
    UnionSize(e - r, a, EdgeSet(h.edges));
  }

  /** Swapping removed and added edges is accepted and restores the graph. */
  lemma ExchangeReverses(g: GraphState, plan: RewritePlan, h: GraphState)
    requires Canonical(g) && ValidCubic(g) && Exchanges(g, plan, h)
    ensures Exchanges(h, RewritePlan(plan.added, plan.removed), g)
    ensures forall k :: Exchanges(h, RewritePlan(plan.added, plan.removed), k) ==> k == g
  {
    var removed, added := Normalized(plan.removed), Normalized(plan.added);
    var e, r, a := EdgeSet(g.edges), EdgeSet(removed), EdgeSet(added);
    assert EdgeSet(h.edges) - a == e - r;
    assert (EdgeSet(h.edges) - a) + r == e;
    forall i | 0 <= i < |removed| ensures removed[i].0 != removed[i].1 {
      assert removed[i] in r && removed[i] in e;
    }
    assert IsState(g, h.order, e);
    forall k | Exchanges(h, RewritePlan(plan.added, plan.removed), k) ensures k == g {
      StateUnique(k, g, g.order, e);
    }
  }

  // --- Proposals ----------------------------------------------------------------------------

  /** One round of the generator: the positions of two distinct edges and a coin. */
  datatype Draw = Draw(first: nat, second: nat, coin: bool)

  const ROUNDS := 64

  ghost predicate GoodDraws(g: GraphState, draws: seq<Draw>) {
    |draws| == ROUNDS && forall d :: d in draws ==> d.first < |g.edges| && d.second < |g.edges| && d.first != d.second
  }

  /** Two disjoint edges of g are exchanged for two others on the same four vertices. */
  ghost predicate TwoSwitch(g: GraphState, plan: RewritePlan) {
    exists a, b, c, d ::
      && |{a, b, c, d}| == 4 && (a, b) in g.edges && (c, d) in g.edges && plan.removed == [(a, b), (c, d)]
      && (plan.added == [NormalizedEdge((a, c)), NormalizedEdge((b, d))]
          || plan.added == [NormalizedEdge((a, d)), NormalizedEdge((b, c))])
  }

  /** The exchange of the two edges drawn for others on their four vertices, in the way the coin says. */
  function SwitchOf(first: Edge, second: Edge, coin: bool): RewritePlan {
    var (a, b) := first;
    var (c, d) := second;
    RewritePlan([first, second], if coin then [NormalizedEdge((a, c)), NormalizedEdge((b, d))]
                                 else [NormalizedEdge((a, d)), NormalizedEdge((b, c))])
  }

  function Proposed(g: GraphState, draw: Draw): RewritePlan
    requires draw.first < |g.edges| && draw.second < |g.edges|
  {
    SwitchOf(g.edges[draw.first], g.edges[draw.second], draw.coin)
  }

  predicate Disjoint(e: Edge, f: Edge) {
    |{e.0, e.1, f.0, f.1}| == 4
  }

  /** The edges drawn are disjoint and their exchange is allowed. */
  ghost predicate Acceptable(g: GraphState, draw: Draw)
    requires draw.first < |g.edges| && draw.second < |g.edges|
  {
    Disjoint(g.edges[draw.first], g.edges[draw.second]) && exists h :: Exchanges(g, Proposed(g, draw), h)
  }

  lemma AcceptableSwitches(g: GraphState, draw: Draw)
    requires draw.first < |g.edges| && draw.second < |g.edges| && Acceptable(g, draw)
    ensures TwoSwitch(g, Proposed(g, draw))
  {
    var (a, b) := g.edges[draw.first];
    var (c, d) := g.edges[draw.second];
    assert |{a, b, c, d}| == 4 && (a, b) in g.edges && (c, d) in g.edges;
  }

  const NOTHING := RewritePlan([], [])

  ghost predicate FirstAcceptable(g: GraphState, draws: seq<Draw>, k: nat)
    requires GoodDraws(g, draws)
  {
    k < ROUNDS && Acceptable(g, draws[k]) && forall i :: 0 <= i < k ==> !Acceptable(g, draws[i])
  }

  /** The proposal of the first acceptable draw. */
  ghost function Chosen(g: GraphState, draws: seq<Draw>): RewritePlan
    requires GoodDraws(g, draws)
  {
    if k: nat :| FirstAcceptable(g, draws, k) then Proposed(g, draws[k]) else NOTHING
  }

  lemma ChosenIs(g: GraphState, draws: seq<Draw>, k: nat)
    requires GoodDraws(g, draws) && FirstAcceptable(g, draws, k)
    ensures Chosen(g, draws) == Proposed(g, draws[k])
  {
    forall j: nat | FirstAcceptable(g, draws, j) ensures j == k {}
  }

  lemma ChosenNone(g: GraphState, draws: seq<Draw>)
    requires GoodDraws(g, draws) && forall i :: 0 <= i < ROUNDS ==> !Acceptable(g, draws[i])
    ensures Chosen(g, draws) == NOTHING
  {}

  /** Whatever is drawn, the proposal is empty or an accepted exchange of two disjoint edges. */
  lemma ChosenSwitches(g: GraphState, draws: seq<Draw>)
    requires GoodDraws(g, draws)
    ensures Chosen(g, draws) == NOTHING
            || (TwoSwitch(g, Chosen(g, draws)) && exists h :: Exchanges(g, Chosen(g, draws), h))
  {
    if k: nat :| FirstAcceptable(g, draws, k) && Chosen(g, draws) == Proposed(g, draws[k]) {
      AcceptableSwitches(g, draws[k]);
    }
  }

  /** Every accepted exchange of two disjoint edges is proposed on some draws. */
  lemma SwitchDrawn(g: GraphState, plan: RewritePlan, h: GraphState) returns (draws: seq<Draw>)
    requires TwoSwitch(g, plan) && Exchanges(g, plan, h)
    ensures GoodDraws(g, draws) && Chosen(g, draws) == plan
  {
    var a, b, c, d :|
      && |{a, b, c, d}| == 4 && (a, b) in g.edges && (c, d) in g.edges && plan.removed == [(a, b), (c, d)]
      && (plan.added == [NormalizedEdge((a, c)), NormalizedEdge((b, d))]
          || plan.added == [NormalizedEdge((a, d)), NormalizedEdge((b, c))]);
    var i :| 0 <= i < |g.edges| && g.edges[i] == (a, b);
    var j :| 0 <= j < |g.edges| && g.edges[j] == (c, d);
    assert |{a, b}| <= 2 && {a, b, a, b} == {a, b};
    var draw := Draw(i, j, plan.added == [NormalizedEdge((a, c)), NormalizedEdge((b, d))]);
    draws := seq(ROUNDS, _ => draw);
    assert Proposed(g, draw) == plan;
    ChosenIs(g, draws, 0);
  }

  /** One round: the exchange drawn, if its edges are disjoint and it is accepted. */
  method TryDraw(g: GraphState, draw: Draw) returns (r: Option<RewritePlan>)
    requires Canonical(g) && draw.first < |g.edges| && draw.second < |g.edges|
    ensures r == if Acceptable(g, draw) then Some(Proposed(g, draw)) else None
  {
    var first, second := g.edges[draw.first], g.edges[draw.second];
    if |{first.0, first.1, second.0, second.1}| != 4 {
      return None;
    }
    var rewrite := SwitchOf(first, second, draw.coin);
    assert rewrite == Proposed(g, draw);
    var applied := ApplyRewrite(g, rewrite);
    r := if applied.Success? then Some(rewrite) else None;
  }

  /** The first draw whose exchange is accepted, or the empty plan when there is none. */
  method ProposeRewrite(g: GraphState, draws: seq<Draw>) returns (plan: RewritePlan)
    requires Canonical(g) && |g.edges| >= 2 && GoodDraws(g, draws)
    ensures plan == NOTHING || (TwoSwitch(g, plan) && exists h :: Exchanges(g, plan, h))
    ensures if forall i :: 0 <= i < ROUNDS ==> !Acceptable(g, draws[i]) then plan == NOTHING
            else exists k :: 0 <= k < ROUNDS && FirstAcceptable(g, draws, k) && plan == Proposed(g, draws[k])
    ensures plan == Chosen(g, draws)
  {
    ChosenSwitches(g, draws);
    for round := 0 to ROUNDS
      invariant forall i :: 0 <= i < round ==> !Acceptable(g, draws[i])
    {
      var tried := TryDraw(g, draws[round]);
      if tried.Some? {
        ChosenIs(g, draws, round);
        return tried.value;
      }
    }
    ChosenNone(g, draws);
    plan := NOTHING;
  }
}
