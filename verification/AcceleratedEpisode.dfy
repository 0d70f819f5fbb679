/** The episode loop on the toy backend: score cache and cutoff change nothing but the work done. */
module AcceleratedEpisode {
  import opened Wrappers
  import Sorting
  import opened Models
  import FourCycles
  import opened CubicGraphs
  import opened ToyBackend
  import opened Episode
  import opened EpisodeHistory

  // --- The toy backend ----------------------------------------------------------------------

  /** The graph of an accepted plan. */
  ghost function Applied(g: GraphState, plan: RewritePlan): (r: Option<GraphState>)
    ensures r.Some? ==> Exchanges(g, plan, r.value)
    ensures r.None? ==> forall h :: !Exchanges(g, plan, h)
  {
    if h :| Exchanges(g, plan, h) then Some(h) else None
  }

  lemma AppliedIs(g: GraphState, plan: RewritePlan, h: GraphState)
    requires Exchanges(g, plan, h)
    ensures Applied(g, plan) == Some(h)
  {
    var removed, added := Normalized(plan.removed), Normalized(plan.added);
    StateUnique(Applied(g, plan).value, h, g.order, (EdgeSet(g.edges) - EdgeSet(removed)) + EdgeSet(added));
  }

  ghost function Toy(cap: int): Backend {
    Backend((g: GraphState) => FullScore(g, cap), (g: GraphState, plan: RewritePlan) => Applied(g, plan))
  }

  // --- The accelerated loop -----------------------------------------------------------------

  ghost predicate Cached(cap: int, cache: map<GraphState, GraphScore>) {
    forall g :: g in cache ==> cache[g] == FullScore(g, cap)
  }

  function Cutoff(score: GraphScore): Option<GraphScore> {
    if score.total > 0 then Some(score) else None
  }

  /** A cached score, or a score with the current one as cutoff; None when the candidate is dominated. */
  method Evaluate(cap: int, current: GraphScore, h: GraphState, cache: map<GraphState, GraphScore>, cacheEnabled: bool)
    returns (score: Option<GraphScore>, cache': map<GraphState, GraphScore>)
    requires Cached(cap, cache)
    ensures Cached(cap, cache')
    ensures score.Some? ==> score.value == FullScore(h, cap)
    ensures score.None? ==> Dominated(FullScore(h, cap), Some(current))
  {
    cache' := cache;
    if cacheEnabled && h in cache {
      score := Some(cache[h]);
    } else {
      score := Score(h, cap, Cutoff(current));
      if cacheEnabled && score.Some? {
        cache' := cache[h := score.value];
      }
    }
  }

  /** A dominated graph has witnesses. */
  lemma DominatedHasWitnesses(g: GraphState, h: GraphState, cap: int)
    requires Dominated(FullScore(h, cap), Some(FullScore(g, cap)))
    ensures FullScore(h, cap).total != 0
  {
    var a, b := FullScore(g, cap), FullScore(h, cap);
    assert b.key[0] == 0 && b.key[1] == b.total;
    assert a.key[0] == 0 ==> a.key[1] == a.total;
    assert Sorting.SeqLeq(a.key[1..], b.key[1..]);
  }

  /** A dominated candidate would neither be moved to nor be submitted. */
  lemma DominatedChangesNothing(config: Config, s: State, h: GraphState, score: GraphScore, evaluation: nat)
    requires s.currentScore == s.bestScore && !s.halted && Dominated(score, Some(s.currentScore)) && score.total != 0
    ensures Scored(config, s, h, score, evaluation) == Recorded(s, evaluation)
  {}

  method Move(s: State, h: GraphState, score: GraphScore, evaluation: nat) returns (s': State)
    ensures s' == Moved(s, h, score, evaluation)
  {
    s' := s;
    if Below(score, s.currentScore) {
      s' := s'.(current := h, currentScore := score);
    }
    if Below(score, s.bestScore) {
      s' := s'.(best := h, bestScore := score);
      if s'.firstImprovement.None? {
        s' := s'.(firstImprovement := Some(evaluation));
      }
    }
  }

  method Count(s: State, h: GraphState) returns (s': State)
    ensures s' == Counted(s, h)
  {
    s' := s.(legal := s.legal + 1);
    if h in s.seen {
      s' := s'.(duplicate := s.duplicate + 1);
    }
    s' := s'.(seen := s.seen + {h});
  }

  /** One accepted candidate. */
  method Advance(cap: int, config: Config, s: State, h: GraphState, evaluation: nat,
                 cache: map<GraphState, GraphScore>, cacheEnabled: bool)
    returns (s': State, cache': map<GraphState, GraphScore>)
    requires s.currentScore == s.bestScore == FullScore(s.current, cap) && !s.halted && Cached(cap, cache)
    ensures Cached(cap, cache')
    ensures s' == Scored(config, Counted(s, h), h, FullScore(h, cap), evaluation)
  {
    s' := Count(s, h);
    var score;
    score, cache' := Evaluate(cap, s.currentScore, h, cache, cacheEnabled);
    if score.None? {
      DominatedHasWitnesses(s.current, h, cap);
      DominatedChangesNothing(config, s', h, FullScore(h, cap), evaluation);
      s' := Recorded(s', evaluation);
    } else {
      s' := Move(s', h, score.value, evaluation);
      s' := Inspected(config, s', h, score.value, evaluation);
      if !s'.halted {
        s' := Recorded(s', evaluation);
      }
    }
  }

  /** One evaluation. */
  method Evaluation(cap: int, config: Config, s: State, evaluation: nat, cache: map<GraphState, GraphScore>,
                    cacheEnabled: bool)
    returns (s': State, cache': map<GraphState, GraphScore>)
    requires Greedy(Toy(cap), s) && !s.halted && Cached(cap, cache) && Canonical(s.current)
    ensures Cached(cap, cache') && Canonical(s'.current)
    ensures s' == Step(Toy(cap), config, s, evaluation)
  {
    cache' := cache;
    var plan := config.propose(s.current, evaluation);
    if plan.removed == [] && plan.added == [] {
      s' := Recorded(s.(noop := s.noop + 1), evaluation);
      return;
    }
    var candidate := ApplyRewrite(s.current, plan);
    if candidate.Failure? {
      s' := Recorded(s.(invalid := s.invalid + 1), evaluation);
      return;
    }
    AppliedIs(s.current, plan, candidate.value);
    s', cache' := Advance(cap, config, s, candidate.value, evaluation, cache, cacheEnabled);
  }

  /**
    With or without the cache, the loop with cutoffs ends in exactly the state of the naive loop: the same
    current and best graph, curve, first improvement, counters and submissions.
   */
  method RunEpisode(cap: int, config: Config, initial: GraphState, evaluations: nat, cacheEnabled: bool)
    returns (s: State)
    requires Canonical(initial)
    ensures s == Run(Toy(cap), config, initial, evaluations)
    ensures Told(Toy(cap), config, initial, evaluations, s)
  {
    var initialScore := Score(initial, cap, None);
    s := Fresh(config, initial, initialScore.value);
    var cache := if cacheEnabled then map[initial := initialScore.value] else map[];
    var evaluation := 0;
    while evaluation < evaluations && !s.halted
      invariant evaluation <= evaluations && s == Run(Toy(cap), config, initial, evaluation)
      invariant Cached(cap, cache) && Canonical(s.current)
    {
      RunGreedy(Toy(cap), config, initial, evaluation);
      evaluation := evaluation + 1;
      s, cache := Evaluation(cap, config, s, evaluation, cache, cacheEnabled);
    }
    HaltedStays(Toy(cap), config, initial, evaluation, evaluations);
    ghost var events := RunTells(Toy(cap), config, initial, evaluations);
  }

  // --- The curve on the toy backend ---------------------------------------------------------

  lemma KeyToTotal(g: GraphState, h: GraphState, cap: int)
    requires (ValidCubic(g) && ValidCubic(h)) || cap <= WORST
    requires Sorting.SeqLeq(FullScore(g, cap).key, FullScore(h, cap).key)
    ensures FullScore(g, cap).total <= FullScore(h, cap).total
  {
    var a, b := FullScore(g, cap), FullScore(h, cap);
    assert ValidCubic(g) ==> a.key[0] == 0 && a.key[1] == a.total;
    assert ValidCubic(h) ==> b.key[0] == 0 && b.key[1] == b.total;
    assert ValidCubic(g) == ValidCubic(h) ==> Sorting.SeqLeq(a.key[1..], b.key[1..]);
  }

  /** No graph proposed next to g and accepted has more 4-cycles than the score of an invalid graph. */
  ghost predicate ProposalsBounded(config: Config, g: GraphState) {
    forall i: nat, h :: config.propose(g, i) != NOTHING && Exchanges(g, config.propose(g, i), h) ==>
           |FourCycles.Squares(Links(h))| <= WORST
  }

  /** The initial graph is valid, or no valid graph proposed next to it can score more than an invalid one. */
  ghost predicate TameStart(cap: int, config: Config, g: GraphState) {
    ValidCubic(g) || cap <= WORST || ProposalsBounded(config, g)
  }

  /** From a tame start a better graph has no higher total. */
  lemma BetterLowers(cap: int, config: Config, g: GraphState, best: GraphState, evaluation: nat, h: GraphState)
    requires TameStart(cap, config, g) && (ValidCubic(best) || best == g)
    requires config.propose(best, evaluation) != NOTHING && Exchanges(best, config.propose(best, evaluation), h)
    requires Below(FullScore(h, cap), FullScore(best, cap))
    ensures FullScore(h, cap).total <= FullScore(best, cap).total
  {
    if ValidCubic(best) {
      Sorting.SeqTotal(FullScore(h, cap).key, FullScore(best, cap).key);
      KeyToTotal(h, best, cap);
    }
  }

  /** The best graph is the initial one or valid, and the curve has not risen. */
  ghost predicate Tame(cap: int, g: GraphState, s: State) {
    (ValidCubic(s.best) || s.best == g) && CurveBetween(s, FullScore(g, cap).total)
  }

  lemma TameStep(backend: Backend, cap: int, config: Config, g: GraphState, s: State, t: State, evaluation: nat)
    requires backend == Toy(cap) && t == Step(backend, config, s, evaluation)
    requires TameStart(cap, config, g) && Greedy(backend, s) && Tame(cap, g, s)
    ensures Tame(cap, g, t)
  {
    StepReplaces(backend, config, s, evaluation);
    if t.best != s.best {
      BetterLowers(cap, config, g, s.best, evaluation, t.best);
    }
    StepRecords(backend, config, s, evaluation);
    LoweredCurve(s, t, FullScore(g, cap).total);
  }

  lemma TameFresh(backend: Backend, cap: int, config: Config, g: GraphState)
    requires backend == Toy(cap)
    ensures Greedy(backend, Fresh(config, g, backend.score(g))) && Tame(cap, g, Fresh(config, g, backend.score(g)))
  {
    RunGreedy(backend, config, g, 0);
  }

  lemma TameRun(backend: Backend, cap: int, config: Config, g: GraphState, evaluations: nat)
    requires backend == Toy(cap) && TameStart(cap, config, g)
    ensures Tame(cap, g, Run(backend, config, g, evaluations))
  {
    var keeps := (s: State) => Greedy(backend, s) && Tame(cap, g, s);
    TameFresh(backend, cap, config, g);
    forall s, n: nat | keeps(s) ensures keeps(Step(backend, config, s, n)) {
      StepGreedy(backend, config, s, n);
      TameStep(backend, cap, config, g, s, Step(backend, config, s, n), n);
    }
    RunKeeps(backend, config, g, evaluations, keeps);
  }

  /** From a tame start, whatever the proposal source, the curve never rises and its area is in [0, 1]. */
  lemma ToyCurve(cap: int, config: Config, g: GraphState, evaluations: nat)
    requires TameStart(cap, config, g)
    ensures CurveBetween(Run(Toy(cap), config, g, evaluations), FullScore(g, cap).total)
    ensures cap >= 0 ==>
            0.0 <= NormalizedAuc(Run(Toy(cap), config, g, evaluations).curve, FullScore(g, cap).total) <= 1.0
  {
    TameRun(Toy(cap), cap, config, g, evaluations);
    RunGreedy(Toy(cap), config, g, evaluations);
    if cap >= 0 {
      AreaBetween(Run(Toy(cap), config, g, evaluations).curve, FullScore(g, cap).total);
    }
  }

  // --- The proposals of the episode ---------------------------------------------------------

  /** What is drawn for a graph at an evaluation. */
  type Draws = (GraphState, nat) -> seq<Draw>

  /** The proposals of ProposeRewrite on these draws; there are none where two edges cannot be drawn. */
  ghost function Proposals(draws: Draws): (GraphState, nat) -> RewritePlan {
    (g: GraphState, i: nat) => if GoodDraws(g, draws(g, i)) then Chosen(g, draws(g, i)) else NOTHING
  }

  lemma ProposalsSwitch(draws: Draws, g: GraphState, i: nat)
    ensures var plan := Proposals(draws)(g, i); plan == NOTHING || TwoSwitch(g, plan)
  {
    if GoodDraws(g, draws(g, i)) {
      ChosenSwitches(g, draws(g, i));
    }
  }

  /** No exchange of two disjoint edges of g leads to more 4-cycles than the score of an invalid graph. */
  ghost predicate SwitchesBounded(g: GraphState) {
    forall plan, h :: TwoSwitch(g, plan) && Exchanges(g, plan, h) ==> |FourCycles.Squares(Links(h))| <= WORST
  }

  /** The initial graph is valid, the cap low, or no valid graph one switch away can score more than an invalid one. */
  ghost predicate CalmStart(cap: int, g: GraphState) {
    ValidCubic(g) || cap <= WORST || SwitchesBounded(g)
  }

  /** Whatever is drawn and however the pipeline answers, no episode from this graph has a curve that rises. */
  ghost predicate CurvesFall(cap: int, g: GraphState) {
    forall draws, pipeline :: FallsUnder(cap, Config(Proposals(draws), pipeline), g)
  }

  ghost predicate FallsUnder(cap: int, config: Config, g: GraphState) {
    forall evaluations: nat :: CurveBetween(Run(Toy(cap), config, g, evaluations), FullScore(g, cap).total)
  }

  lemma CalmIsTame(cap: int, g: GraphState, draws: Draws, pipeline: Option<seq<Inspection> -> bool>)
    requires CalmStart(cap, g)
    ensures TameStart(cap, Config(Proposals(draws), pipeline), g)
  {
    var config := Config(Proposals(draws), pipeline);
    forall i: nat, h | config.propose(g, i) != NOTHING && Exchanges(g, config.propose(g, i), h)
      ensures SwitchesBounded(g) ==> |FourCycles.Squares(Links(h))| <= WORST
    {
      ProposalsSwitch(draws, g, i);
    }
  }

  lemma TameFalls(cap: int, config: Config, g: GraphState)
    requires TameStart(cap, config, g)
    ensures FallsUnder(cap, config, g)
  {
    forall evaluations: nat ensures CurveBetween(Run(Toy(cap), config, g, evaluations), FullScore(g, cap).total) {
      TameRun(Toy(cap), cap, config, g, evaluations);
    }
  }

  /** A move away from an invalid graph to one with more 4-cycles than its score raises the curve. */
  lemma FirstMoveRises(cap: int, config: Config, g: GraphState, plan: RewritePlan, h: GraphState)
    requires !ValidCubic(g) && cap > WORST && config.propose(g, 1) == plan != NOTHING && config.pipeline.None?
    requires Exchanges(g, plan, h) && |FourCycles.Squares(Links(h))| > WORST
    ensures !FallsUnder(cap, config, g)
  {
    AppliedIs(g, plan, h);
    var s := Run(Toy(cap), config, g, 0);
    var t := Step(Toy(cap), config, s, 1);
    assert Run(Toy(cap), config, g, 1) == t;
    assert Below(FullScore(h, cap), FullScore(g, cap));
    assert t.curve == [FullScore(h, cap).total];
    assert t.curve[0] > FullScore(g, cap).total;
  }

  function Always(drawn: seq<Draw>): Draws {
    (x: GraphState, i: nat) => drawn
  }

  lemma ProposedAlways(drawn: seq<Draw>, g: GraphState, i: nat)
    requires GoodDraws(g, drawn)
    ensures Proposals(Always(drawn))(g, i) == Chosen(g, drawn)
  {}

  /** Some draws propose the move. */
  lemma WildStart(cap: int, g: GraphState, plan: RewritePlan, h: GraphState)
    requires !ValidCubic(g) && cap > WORST
    requires TwoSwitch(g, plan) && Exchanges(g, plan, h) && |FourCycles.Squares(Links(h))| > WORST
    ensures !CurvesFall(cap, g)
  {
    var drawn := SwitchDrawn(g, plan, h);
    var draws := Always(drawn);
    ProposedAlways(drawn, g, 1);
    FirstMoveRises(cap, Config(Proposals(draws), None), g, plan, h);
  }

  /** The exact condition for curves that never rise. */
  lemma ToyCurveExact(cap: int, g: GraphState)
    ensures CurvesFall(cap, g) <==> CalmStart(cap, g)
  {
    if CalmStart(cap, g) {
      forall draws, pipeline ensures FallsUnder(cap, Config(Proposals(draws), pipeline), g) {
        CalmIsTame(cap, g, draws, pipeline);
        TameFalls(cap, Config(Proposals(draws), pipeline), g);
      }
    } else {
      var plan, h :| TwoSwitch(g, plan) && Exchanges(g, plan, h) && |FourCycles.Squares(Links(h))| > WORST;
      WildStart(cap, g, plan, h);
    }
  }
}
