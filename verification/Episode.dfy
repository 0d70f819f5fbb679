/** The greedy search of one episode, every candidate scored in full: what every run keeps. */
module Episode {
  import opened Wrappers
  import opened Sorting
  import opened Models
  import opened ToyBackend

  /** What a backend answers: the score in full, and the graph of an accepted plan. */
  datatype Backend = Backend(score: GraphState -> GraphScore, apply: (GraphState, RewritePlan) -> Option<GraphState>)

  /** One submission to the counterexample pipeline. */
  datatype Inspection = Inspection(graph: GraphState, score: GraphScore, evaluation: nat)

  /**
    The proposal source is any function of the current graph and the evaluation number. The pipeline, if
    there is one, is any function that tells from the submissions so far whether the last one stops the run.
   */
  datatype Config = Config(propose: (GraphState, nat) -> RewritePlan, pipeline: Option<seq<Inspection> -> bool>)

  datatype State = State(current: GraphState, currentScore: GraphScore, best: GraphState, bestScore: GraphScore,
                         curve: seq<int>, firstImprovement: Option<nat>, seen: set<GraphState>,
                         submitted: set<GraphState>, inspections: seq<Inspection>,
                         legal: nat, invalid: nat, noop: nat, duplicate: nat, completed: nat, halted: bool)

  /** ordering_key < ordering_key */
  predicate Below(a: GraphScore, b: GraphScore) {
    !SeqLeq(b.key, a.key)
  }

  /** A graph without witnesses is submitted once; the pipeline may stop the run there. */
  function Inspected(config: Config, s: State, g: GraphState, score: GraphScore, evaluation: nat): State {
    if config.pipeline.None? || score.total != 0 || g in s.submitted then s
    else
      var log := s.inspections + [Inspection(g, score, evaluation)];
      s.(submitted := s.submitted + {g}, inspections := log, halted := config.pipeline.value(log))
  }

  function Recorded(s: State, evaluation: nat): State {
    s.(curve := s.curve + [s.bestScore.total], completed := evaluation)
  }

  function Fresh(config: Config, g: GraphState, score: GraphScore): State {
    Inspected(config, State(g, score, g, score, [], None, {g}, {}, [], 0, 0, 0, 0, 0, false), g, score, 0)
  }

  /** A new graph replaces the current one and the best one whenever its score is below theirs. */
  ghost function Moved(s: State, h: GraphState, score: GraphScore, evaluation: nat): State {
    var t := if Below(score, s.currentScore) then s.(current := h, currentScore := score) else s;
    if Below(score, s.bestScore) then
      t.(best := h, bestScore := score,
         firstImprovement := if s.firstImprovement.None? then Some(evaluation) else s.firstImprovement)
    else t
  }

  ghost function Counted(s: State, h: GraphState): State {
    s.(legal := s.legal + 1, duplicate := if h in s.seen then s.duplicate + 1 else s.duplicate, seen := s.seen + {h})
  }

  /** Every candidate is scored in full, moved to if it is better, and submitted if it has no witness. */
  ghost function Scored(config: Config, s: State, h: GraphState, score: GraphScore, evaluation: nat): State {
    var t := Inspected(config, Moved(s, h, score, evaluation), h, score, evaluation);
    if t.halted then t else Recorded(t, evaluation)
  }

  ghost function Step(backend: Backend, config: Config, s: State, evaluation: nat): State {
    if s.halted then s
    else
      var plan := config.propose(s.current, evaluation);
      if plan.removed == [] && plan.added == [] then Recorded(s.(noop := s.noop + 1), evaluation)
      else
        match backend.apply(s.current, plan)
        case None => Recorded(s.(invalid := s.invalid + 1), evaluation)
        case Some(h) => Scored(config, Counted(s, h), h, backend.score(h), evaluation)
  }

  ghost function Run(backend: Backend, config: Config, g: GraphState, evaluations: nat): State {
    if evaluations == 0 then Fresh(config, g, backend.score(g))
    else Step(backend, config, Run(backend, config, g, evaluations - 1), evaluations)
  }

  /** What a fresh state has and every step keeps holds after every run. */
  lemma {:induction false} RunKeeps(backend: Backend, config: Config, g: GraphState, evaluations: nat,
                                    keeps: State -> bool)
    requires keeps(Fresh(config, g, backend.score(g)))
    requires forall s, n: nat :: keeps(s) ==> keeps(Step(backend, config, s, n))
    ensures keeps(Run(backend, config, g, evaluations))
  {
    if evaluations > 0 {
      RunKeeps(backend, config, g, evaluations - 1, keeps);
    }
  }

  lemma {:induction false} HaltedStays(backend: Backend, config: Config, g: GraphState, m: nat, n: nat)
    requires m <= n && (m == n || Run(backend, config, g, m).halted)
    ensures Run(backend, config, g, n) == Run(backend, config, g, m)
    decreases n
  {
    if m < n {
      HaltedStays(backend, config, g, m, n - 1);
    }
  }

  // --- The current graph is the best one ----------------------------------------------------

  /** The current graph is the best one, and no graph seen scores below it. */
  ghost predicate Greedy(backend: Backend, s: State) {
    && s.current == s.best && s.currentScore == s.bestScore == backend.score(s.current) && s.current in s.seen
    && forall h :: h in s.seen ==> SeqLeq(s.bestScore.key, backend.score(h).key)
  }

  lemma KeyReflexive(a: seq<int>)
    ensures SeqLeq(a, a)
  {
    SeqTotal(a, a);
  }

  lemma {:induction false} RunGreedy(backend: Backend, config: Config, g: GraphState, evaluations: nat)
    ensures Greedy(backend, Run(backend, config, g, evaluations))
  {
    if evaluations == 0 {
      KeyReflexive(backend.score(g).key);
    } else {
      RunGreedy(backend, config, g, evaluations - 1);
      StepGreedy(backend, config, Run(backend, config, g, evaluations - 1), evaluations);
    }
  }

  lemma StepGreedy(backend: Backend, config: Config, s: State, evaluation: nat)
    requires Greedy(backend, s)
    ensures Greedy(backend, Step(backend, config, s, evaluation))
  {
    var plan := config.propose(s.current, evaluation);
    if !s.halted && (plan.removed != [] || plan.added != []) && backend.apply(s.current, plan).Some? {
      MoveGreedy(backend, s, backend.apply(s.current, plan).value, evaluation);
    }
  }

  lemma MoveGreedy(backend: Backend, s: State, h: GraphState, evaluation: nat)
    requires Greedy(backend, s)
    ensures Greedy(backend, Moved(Counted(s, h), h, backend.score(h), evaluation))
  {
    var score := backend.score(h);
    SeqTotal(score.key, s.bestScore.key);
    KeyReflexive(score.key);
    if Below(score, s.bestScore) {
      forall x | x in s.seen ensures SeqLeq(score.key, backend.score(x).key) {
        SeqTransitive(score.key, s.bestScore.key, backend.score(x).key);
      }
    }
  }

  // --- Submissions --------------------------------------------------------------------------

  /** With a pipeline, the graphs submitted are the graphs seen without a witness, each once. */
  ghost predicate Complete(backend: Backend, config: Config, s: State) {
    && (config.pipeline.Some? ==> forall h :: h in s.submitted <==> h in s.seen && backend.score(h).total == 0)
    && (config.pipeline.None? ==> s.submitted == {} && !s.halted)
    && (forall h :: h in s.submitted <==> exists i :: 0 <= i < |s.inspections| && s.inspections[i].graph == h)
    && (forall i, j :: 0 <= i < j < |s.inspections| ==> s.inspections[i].graph != s.inspections[j].graph)
    && (forall i :: 0 <= i < |s.inspections| ==> s.inspections[i].score == backend.score(s.inspections[i].graph))
  }

  lemma {:induction false} RunComplete(backend: Backend, config: Config, g: GraphState, evaluations: nat)
    ensures Complete(backend, config, Run(backend, config, g, evaluations))
  {
    if evaluations == 0 {
      FreshComplete(backend, config, g);
    } else {
      RunComplete(backend, config, g, evaluations - 1);
      StepComplete(backend, config, Run(backend, config, g, evaluations - 1), evaluations);
    }
  }

  lemma FreshComplete(backend: Backend, config: Config, g: GraphState)
    ensures Complete(backend, config, Fresh(config, g, backend.score(g)))
  {
    var score := backend.score(g);
    var r := Fresh(config, g, score);
    if r.inspections != [] {
      assert r.inspections == [Inspection(g, score, 0)] && r.inspections[0].graph == g;
    }
  }

  lemma StepComplete(backend: Backend, config: Config, s: State, evaluation: nat)
    requires Complete(backend, config, s)
    ensures Complete(backend, config, Step(backend, config, s, evaluation))
  {
    var plan := config.propose(s.current, evaluation);
    if !s.halted && (plan.removed != [] || plan.added != []) && backend.apply(s.current, plan).Some? {
      var h := backend.apply(s.current, plan).value;
      InspectComplete(backend, config, s, Moved(Counted(s, h), h, backend.score(h), evaluation), h, evaluation);
    }
  }

  lemma InspectComplete(backend: Backend, config: Config, s: State, t: State, h: GraphState, evaluation: nat)
    requires Complete(backend, config, s) && t.seen == s.seen + {h}
    requires t.submitted == s.submitted && t.inspections == s.inspections && t.halted == s.halted
    ensures Complete(backend, config, Inspected(config, t, h, backend.score(h), evaluation))
  {
    var r := Inspected(config, t, h, backend.score(h), evaluation);
    if r.inspections != s.inspections {
      assert r.inspections[|s.inspections|].graph == h;
      forall x | x in s.submitted ensures exists i :: 0 <= i < |r.inspections| && r.inspections[i].graph == x {
        var i :| 0 <= i < |s.inspections| && s.inspections[i].graph == x;
        assert r.inspections[i].graph == x;
      }
    }
  }

  // --- Counters -----------------------------------------------------------------------------

  /** The bookkeeping of a run that was not stopped. */
  ghost predicate Balanced(s: State, evaluations: nat) {
    && s.completed == |s.curve| == s.legal + s.invalid + s.noop == evaluations
    && |s.seen| == 1 + s.legal - s.duplicate
  }

  lemma {:induction false} RunBalanced(backend: Backend, config: Config, g: GraphState, evaluations: nat)
    requires !Run(backend, config, g, evaluations).halted
    ensures Balanced(Run(backend, config, g, evaluations), evaluations)
  {
    if evaluations > 0 {
      RunBalanced(backend, config, g, evaluations - 1);
      StepBalanced(backend, config, Run(backend, config, g, evaluations - 1), evaluations);
    }
  }

  lemma StepBalanced(backend: Backend, config: Config, s: State, evaluation: nat)
    requires evaluation > 0 && !Step(backend, config, s, evaluation).halted && Balanced(s, evaluation - 1)
    ensures Balanced(Step(backend, config, s, evaluation), evaluation)
  {
    var plan := config.propose(s.current, evaluation);
    if plan.removed != [] || plan.added != [] {
      match backend.apply(s.current, plan)
      case None =>
      case Some(h) =>
        CountedBalanced(s, h);
        ScoredBalanced(config, Counted(s, h), h, backend.score(h), evaluation);
    }
  }

  lemma ScoredBalanced(config: Config, s: State, h: GraphState, score: GraphScore, evaluation: nat)
    requires !s.halted && !Scored(config, s, h, score, evaluation).halted
    requires |s.curve| + 1 == s.legal + s.invalid + s.noop == evaluation && |s.seen| == 1 + s.legal - s.duplicate
    ensures Balanced(Scored(config, s, h, score, evaluation), evaluation)
  {}

  lemma CountedBalanced(s: State, h: GraphState)
    requires |s.seen| == 1 + s.legal - s.duplicate
    ensures |Counted(s, h).seen| == 1 + Counted(s, h).legal - Counted(s, h).duplicate
  {
    if h in s.seen {
      assert s.seen + {h} == s.seen;
    }
  }

  // --- The curve ----------------------------------------------------------------------------

  /** On these graphs a lower key never has a higher total. */
  ghost predicate Ordered(backend: Backend, graphs: set<GraphState>) {
    forall g, h :: g in graphs && h in graphs && SeqLeq(backend.score(g).key, backend.score(h).key) ==>
                     backend.score(g).total <= backend.score(h).total
  }

  /** The curve starts at or below the initial total, never rises and never drops below the best total. */
  ghost predicate CurveBetween(s: State, initial: int) {
    && (forall i, j :: 0 <= i < j < |s.curve| ==> s.curve[i] >= s.curve[j])
    && (forall i :: 0 <= i < |s.curve| ==> s.bestScore.total <= s.curve[i] <= initial)
    && s.bestScore.total <= initial
  }

  /** Recording a best total that did not rise keeps the curve. */
  lemma LoweredCurve(s: State, t: State, initial: int)
    requires CurveBetween(s, initial) && t.bestScore.total <= s.bestScore.total
    requires t.curve == s.curve || t.curve == s.curve + [t.bestScore.total]
    ensures CurveBetween(t, initial)
  {}

  /** A step keeps the best graph or replaces it by the candidate, and only by one below it. */
  ghost predicate BestReplaced(backend: Backend, config: Config, s: State, t: State, evaluation: nat) {
    var plan := config.propose(s.current, evaluation);
    || (t.best == s.best && t.bestScore == s.bestScore)
    || ((plan.removed != [] || plan.added != []) && backend.apply(s.current, plan) == Some(t.best)
        && t.bestScore == backend.score(t.best) && Below(t.bestScore, s.bestScore))
  }

  lemma StepReplaces(backend: Backend, config: Config, s: State, evaluation: nat)
    ensures BestReplaced(backend, config, s, Step(backend, config, s, evaluation), evaluation)
  {}

  /** A step leaves the curve or records the best total. */
  lemma StepRecords(backend: Backend, config: Config, s: State, evaluation: nat)
    ensures var t := Step(backend, config, s, evaluation);
            t.curve == s.curve || t.curve == s.curve + [t.bestScore.total]
  {}

  lemma StepCurve(backend: Backend, config: Config, s: State, t: State, evaluation: nat, initial: int)
    requires t == Step(backend, config, s, evaluation) && CurveBetween(s, initial)
    requires Greedy(backend, s) && Greedy(backend, t) && Ordered(backend, t.seen)
    ensures CurveBetween(t, initial) && Ordered(backend, s.seen)
  {
    assert s.seen <= t.seen;
    assert t.bestScore.total <= s.bestScore.total by {
      assert s.best in t.seen;
    }
    StepRecords(backend, config, s, evaluation);
    LoweredCurve(s, t, initial);
  }

  lemma StepSeen(backend: Backend, config: Config, s: State, evaluation: nat)
    ensures s.seen <= Step(backend, config, s, evaluation).seen
  {}

  lemma OrderedSubset(backend: Backend, a: set<GraphState>, b: set<GraphState>)
    requires a <= b && Ordered(backend, b)
    ensures Ordered(backend, a)
  {}

  lemma FreshCurve(backend: Backend, config: Config, g: GraphState)
    ensures Greedy(backend, Fresh(config, g, backend.score(g)))
    ensures CurveBetween(Fresh(config, g, backend.score(g)), backend.score(g).total)
  {
    KeyReflexive(backend.score(g).key);
  }

  /** Where keys agree with totals, the curve of best totals never rises. */
  lemma CurveNeverRises(backend: Backend, config: Config, g: GraphState, evaluations: nat)
    requires Ordered(backend, Run(backend, config, g, evaluations).seen)
    ensures CurveBetween(Run(backend, config, g, evaluations), backend.score(g).total)
  {
    var initial := backend.score(g).total;
    var keeps := (s: State) => Greedy(backend, s) && (Ordered(backend, s.seen) ==> CurveBetween(s, initial));
    FreshCurve(backend, config, g);
    forall s, n: nat | keeps(s) ensures keeps(Step(backend, config, s, n)) {
      var t := Step(backend, config, s, n);
      StepGreedy(backend, config, s, n);
      StepSeen(backend, config, s, n);
      if Ordered(backend, t.seen) {
        OrderedSubset(backend, s.seen, t.seen);
        StepCurve(backend, config, s, t, n, initial);
      }
    }
    RunKeeps(backend, config, g, evaluations, keeps);
  }

  // --- First improvement --------------------------------------------------------------------

  /** A step reports an improvement exactly when it lowers the best score. */
  lemma StepImprovement(backend: Backend, config: Config, s: State, t: State, evaluation: nat, initial: GraphScore)
    requires t == Step(backend, config, s, evaluation)
    requires s.firstImprovement.Some? <==> Below(s.bestScore, initial)
    requires SeqLeq(s.bestScore.key, initial.key)
    ensures t.firstImprovement.Some? <==> Below(t.bestScore, initial)
    ensures SeqLeq(t.bestScore.key, initial.key)
    ensures if s.firstImprovement.Some? then t.firstImprovement == s.firstImprovement
            else t.firstImprovement.Some? ==> t.firstImprovement == Some(evaluation)
  {
    BelowChain(t.bestScore.key, s.bestScore.key, initial.key);
  }

  lemma BelowChain(a: seq<int>, b: seq<int>, c: seq<int>)
    requires SeqLeq(b, c)
    ensures !SeqLeq(b, a) ==> !SeqLeq(c, a) && SeqLeq(a, c)
  {
    SeqTotal(a, b);
    if SeqLeq(c, a) {
      SeqTransitive(b, c, a);
    }
    if SeqLeq(a, b) {
      SeqTransitive(a, b, c);
    }
  }

  /** An improvement is reported exactly when the best score is below the initial one. */
  lemma {:induction false} ImprovementReported(backend: Backend, config: Config, g: GraphState, evaluations: nat)
    ensures Run(backend, config, g, evaluations).firstImprovement.Some?
            <==> Below(Run(backend, config, g, evaluations).bestScore, backend.score(g))
    ensures SeqLeq(Run(backend, config, g, evaluations).bestScore.key, backend.score(g).key)
  {
    KeyReflexive(backend.score(g).key);
    if evaluations > 0 {
      ImprovementReported(backend, config, g, evaluations - 1);
      StepImprovement(backend, config, Run(backend, config, g, evaluations - 1), Run(backend, config, g, evaluations),
                      evaluations, backend.score(g));
    }
  }

  lemma StepReports(backend: Backend, config: Config, s: State, evaluation: nat)
    ensures var first := Step(backend, config, s, evaluation).firstImprovement;
            first == s.firstImprovement || (s.firstImprovement.None? && first == Some(evaluation))
  {}

  /** The evaluation reported is the one at which the report was made. */
  lemma {:induction false} ReportedAt(backend: Backend, config: Config, g: GraphState, evaluations: nat, k: nat)
    requires Run(backend, config, g, evaluations).firstImprovement == Some(k)
    ensures 0 < k <= evaluations
    ensures Run(backend, config, g, k).firstImprovement.Some?
    ensures Run(backend, config, g, k - 1).firstImprovement.None?
  {
    if evaluations > 0 {
      StepReports(backend, config, Run(backend, config, g, evaluations - 1), evaluations);
      if Run(backend, config, g, evaluations - 1).firstImprovement.Some? {
        ReportedAt(backend, config, g, evaluations - 1, k);
      }
    }
  }

  /** The reported evaluation is the first one after which the best score is below the initial one. */
  lemma FirstImprovement(backend: Backend, config: Config, g: GraphState, evaluations: nat, k: nat)
    requires Run(backend, config, g, evaluations).firstImprovement == Some(k)
    ensures 0 < k <= evaluations
    ensures Below(Run(backend, config, g, k).bestScore, backend.score(g))
    ensures !Below(Run(backend, config, g, k - 1).bestScore, backend.score(g))
  {
    ReportedAt(backend, config, g, evaluations, k);
    ImprovementReported(backend, config, g, k);
    ImprovementReported(backend, config, g, k - 1);
  }

  // --- Area under the curve -----------------------------------------------------------------

  function Sum(s: seq<int>): int {
    if s == [] then 0 else Sum(s[..|s| - 1]) + s[|s| - 1]
  }

  /** sum(curve) / (max(1, initial) * len(curve)), and 1 for the empty curve. */
  function NormalizedAuc(curve: seq<int>, initial: int): real {
    if curve == [] then 1.0
    else
      var top := if initial < 1 then 1 else initial;
      Sum(curve) as real / (top * |curve|) as real
  }

  lemma {:induction false} SumBetween(s: seq<int>, top: nat)
    requires forall i :: 0 <= i < |s| ==> 0 <= s[i] <= top
    ensures 0 <= Sum(s) <= top * |s|
  {
    if s != [] {
      SumBetween(s[..|s| - 1], top);
      assert top * |s| == top * (|s| - 1) + top;
    }
  }

  lemma Quotient(a: int, b: int)
    requires 0 <= a <= b && b > 0
    ensures 0.0 <= a as real / b as real <= 1.0
  {}

  lemma AreaBetween(curve: seq<int>, initial: int)
    requires forall i :: 0 <= i < |curve| ==> 0 <= curve[i] <= initial
    ensures 0.0 <= NormalizedAuc(curve, initial) <= 1.0
  {
    if curve != [] {
      var top := if initial < 1 then 1 else initial;
      SumBetween(curve, top);
      assert top * |curve| > 0;
      Quotient(Sum(curve), top * |curve|);
    }
  }

  /** With totals that are never negative, the normalised area of a run lies in the unit interval. */
  lemma AreaInUnitInterval(backend: Backend, config: Config, g: GraphState, evaluations: nat)
    requires Ordered(backend, Run(backend, config, g, evaluations).seen)
    requires forall h :: backend.score(h).total >= 0
    ensures 0.0 <= NormalizedAuc(Run(backend, config, g, evaluations).curve, backend.score(g).total) <= 1.0
  {
    CurveNeverRises(backend, config, g, evaluations);
    RunGreedy(backend, config, g, evaluations);
    AreaBetween(Run(backend, config, g, evaluations).curve, backend.score(g).total);
  }
}
