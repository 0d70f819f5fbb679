/** What happened in an episode: the candidates of every run, and what its result says about them. */
module EpisodeHistory {
  import opened Wrappers
  import opened Sorting
  import opened Models
  import opened ToyBackend
  import opened Episode
  import Means

  /** One evaluation: nothing was proposed, the plan was refused, or it led to a candidate. */
  datatype Event = Idle | Refused | Accepted(graph: GraphState)

  type History = seq<Event>

  /** The initial graph stands at 0, the candidate of evaluation i at i. */
  function GraphAt(g: GraphState, events: History, i: nat): Option<GraphState>
    requires i <= |events|
  {
    if i == 0 then Some(g) else if events[i - 1].Accepted? then Some(events[i - 1].graph) else None
  }

  /** What the plan proposed next to a graph comes to. */
  ghost predicate Answers(backend: Backend, current: GraphState, plan: RewritePlan, e: Event) {
    match e
    case Idle => plan == NOTHING
    case Refused => plan != NOTHING && backend.apply(current, plan).None?
    case Accepted(h) => plan != NOTHING && backend.apply(current, plan) == Some(h)
  }

  /** The graph at this place has a key below every earlier one and not above any later one. */
  ghost predicate BestAt(backend: Backend, g: GraphState, events: History, at: nat) {
    && at <= |events| && GraphAt(g, events, at).Some?
    && var key := backend.score(GraphAt(g, events, at).value).key;
       forall j: nat :: j <= |events| && GraphAt(g, events, j).Some? ==>
         var other := backend.score(GraphAt(g, events, j).value).key;
         SeqLeq(key, other) && (j < at ==> !SeqLeq(other, key))
  }

  /** The first of the graphs with the least key. */
  ghost predicate FirstBest(backend: Backend, g: GraphState, events: History, b: GraphState) {
    exists at: nat :: BestAt(backend, g, events, at) && GraphAt(g, events, at) == Some(b)
  }

  /** Every proposal is made next to the best graph so far. */
  ghost predicate Follows(backend: Backend, config: Config, g: GraphState, events: History) {
    forall i: nat :: i < |events| ==> FollowsAt(backend, config, g, events, i)
  }

  ghost predicate FollowsAt(backend: Backend, config: Config, g: GraphState, events: History, i: nat)
    requires i < |events|
  {
    exists b :: FirstBest(backend, g, events[..i], b) && Answers(backend, b, config.propose(b, i + 1), events[i])
  }

  // --- What the result says -----------------------------------------------------------------

  function IsIdle(): Event -> bool {
    (e: Event) => e.Idle?
  }

  function IsRefused(): Event -> bool {
    (e: Event) => e.Refused?
  }

  function IsAccepted(): Event -> bool {
    (e: Event) => e.Accepted?
  }

  ghost predicate CountersTell(events: History, s: State) {
    && s.noop == Count(IsIdle(), events) && s.invalid == Count(IsRefused(), events)
    && s.legal == Count(IsAccepted(), events)
  }

  ghost predicate Appears(g: GraphState, events: History, h: GraphState) {
    exists i: nat :: i <= |events| && GraphAt(g, events, i) == Some(h)
  }

  /** The graphs seen are the initial one and the candidates; every candidate met before is a duplicate. */
  ghost predicate SeenTells(g: GraphState, events: History, s: State) {
    && (forall h :: h in s.seen <==> Appears(g, events, h))
    && s.duplicate == 1 + s.legal - |s.seen|
  }

  ghost predicate BestTells(backend: Backend, g: GraphState, events: History, s: State) {
    && FirstBest(backend, g, events, s.best)
    && s.current == s.best && s.currentScore == s.bestScore == backend.score(s.best)
  }

  /** The curve has the total of the best graph after each evaluation; one that stops the run is not recorded. */
  ghost predicate CurveTells(backend: Backend, g: GraphState, events: History, s: State) {
    && s.completed == |s.curve| == (if s.halted && events != [] then |events| - 1 else |events|)
    && forall i: nat :: i < |s.curve| ==> BestTotal(backend, g, events[..i + 1], s.curve[i])
  }

  ghost predicate BestTotal(backend: Backend, g: GraphState, events: History, total: int) {
    exists b :: FirstBest(backend, g, events, b) && total == backend.score(b).total
  }

  /** The graph appears here for the first time. */
  ghost predicate Debut(g: GraphState, events: History, i: nat, h: GraphState) {
    && i <= |events| && GraphAt(g, events, i) == Some(h)
    && forall j: nat :: j < i ==> GraphAt(g, events, j) != Some(h)
  }

  /** The submissions are the first appearances of the graphs without a witness, in their order. */
  ghost predicate LogTells(backend: Backend, g: GraphState, events: History, log: seq<Inspection>) {
    && (forall x :: x in log <==> Debut(g, events, x.evaluation, x.graph) && x.score == backend.score(x.graph)
                                  && x.score.total == 0)
    && forall i, j :: 0 <= i < j < |log| ==> log[i].evaluation < log[j].evaluation
  }

  /** The run stops with the first submission on which the pipeline says so. */
  ghost predicate HaltTells(config: Config, events: History, s: State) {
    match config.pipeline
    case None => s.inspections == [] && !s.halted
    case Some(stops) =>
      && (forall i :: 0 < i < |s.inspections| ==> !stops(s.inspections[..i]))
      && (s.halted <==> s.inspections != [] && stops(s.inspections))
      && (s.halted ==> s.inspections[|s.inspections| - 1].evaluation == |events|)
  }

  /** The evaluation reported is that of the first candidate below the initial graph. */
  ghost predicate ImprovementTells(backend: Backend, g: GraphState, events: History, s: State) {
    match s.firstImprovement
    case None => forall j: nat :: j <= |events| && GraphAt(g, events, j).Some? ==> !Improves(backend, g, events, j)
    case Some(k) =>
      && k <= |events| && GraphAt(g, events, k).Some? && Improves(backend, g, events, k)
      && forall j: nat :: j < k && GraphAt(g, events, j).Some? ==> !Improves(backend, g, events, j)
  }

  ghost predicate Improves(backend: Backend, g: GraphState, events: History, j: nat)
    requires j <= |events| && GraphAt(g, events, j).Some?
  {
    !SeqLeq(backend.score(g).key, backend.score(GraphAt(g, events, j).value).key)
  }

  ghost predicate Tells(backend: Backend, config: Config, g: GraphState, events: History, s: State) {
    && CountersTell(events, s) && SeenTells(g, events, s) && BestTells(backend, g, events, s)
    && CurveTells(backend, g, events, s) && HaltTells(config, events, s)
    && (config.pipeline.Some? ==> LogTells(backend, g, events, s.inspections))
    && ImprovementTells(backend, g, events, s)
  }

  // --- Places in a longer history -----------------------------------------------------------

  lemma GraphAtLonger(g: GraphState, events: History, e: Event, i: nat)
    requires i <= |events| + 1
    ensures GraphAt(g, events + [e], i)
         == if i <= |events| then GraphAt(g, events, i) else if e.Accepted? then Some(e.graph) else None
  {}

  lemma BestKept(backend: Backend, g: GraphState, events: History, e: Event, at: nat)
    requires BestAt(backend, g, events, at)
    requires e.Accepted? ==> SeqLeq(backend.score(GraphAt(g, events, at).value).key, backend.score(e.graph).key)
    ensures BestAt(backend, g, events + [e], at) && GraphAt(g, events + [e], at) == GraphAt(g, events, at)
  {
    forall j: nat | j <= |events| + 1
      ensures GraphAt(g, events + [e], j)
           == if j <= |events| then GraphAt(g, events, j) else if e.Accepted? then Some(e.graph) else None
    {
      GraphAtLonger(g, events, e, j);
    }
  }

  lemma BestReplacedAt(backend: Backend, g: GraphState, events: History, h: GraphState, at: nat)
    requires BestAt(backend, g, events, at)
    requires !SeqLeq(backend.score(GraphAt(g, events, at).value).key, backend.score(h).key)
    ensures BestAt(backend, g, events + [Accepted(h)], |events| + 1)
  {
    var more, key, low := events + [Accepted(h)], backend.score(h).key, backend.score(GraphAt(g, events, at).value).key;
    KeyReflexive(key);
    assert GraphAt(g, more, |events| + 1) == Some(h);
    forall j: nat | j <= |events| && GraphAt(g, more, j).Some?
      ensures SeqLeq(key, backend.score(GraphAt(g, more, j).value).key)
      ensures !SeqLeq(backend.score(GraphAt(g, more, j).value).key, key)
    {
      GraphAtLonger(g, events, Accepted(h), j);
      var other := backend.score(GraphAt(g, events, j).value).key;
      assert SeqLeq(low, other);
      SeqTotal(low, key);
      StrictlyBelow(key, low, other);
    }
  }

  lemma StrictlyBelow(a: seq<int>, b: seq<int>, c: seq<int>)
    requires !SeqLeq(b, a) && SeqLeq(b, c)
    ensures SeqLeq(a, c) && !SeqLeq(c, a)
  {
    SeqTotal(a, b);
    SeqTransitive(a, b, c);
    if SeqLeq(c, a) {
      SeqTransitive(b, c, a);
    }
  }

  /** There is one first best graph. */
  lemma FirstBestUnique(backend: Backend, g: GraphState, events: History, a: GraphState, b: GraphState)
    requires FirstBest(backend, g, events, a) && FirstBest(backend, g, events, b)
    ensures a == b
  {
    var i: nat :| BestAt(backend, g, events, i) && GraphAt(g, events, i) == Some(a);
    var j: nat :| BestAt(backend, g, events, j) && GraphAt(g, events, j) == Some(b);
    assert i == j;
  }

  // --- A step -------------------------------------------------------------------------------

  ghost function EventOf(backend: Backend, config: Config, s: State, evaluation: nat): (e: Event)
    ensures Answers(backend, s.current, config.propose(s.current, evaluation), e)
  {
    var plan := config.propose(s.current, evaluation);
    if plan == NOTHING then Idle
    else
      match backend.apply(s.current, plan)
      case None => Refused
      case Some(h) => Accepted(h)
  }

  /** What a step does to the state, by what happened. */
  lemma StepIs(backend: Backend, config: Config, s: State, evaluation: nat)
    requires !s.halted
    ensures var t := Step(backend, config, s, evaluation);
            match EventOf(backend, config, s, evaluation)
            case Idle => t == Recorded(s.(noop := s.noop + 1), evaluation)
            case Refused => t == Recorded(s.(invalid := s.invalid + 1), evaluation)
            case Accepted(h) => t == Scored(config, Counted(s, h), h, backend.score(h), evaluation)
  {}

  /** The fields an accepted candidate leaves. */
  lemma ScoredFields(config: Config, s: State, h: GraphState, score: GraphScore, evaluation: nat)
    requires !s.halted
    ensures var t, m := Scored(config, Counted(s, h), h, score, evaluation), Moved(Counted(s, h), h, score, evaluation);
            && t.legal == s.legal + 1 && t.invalid == s.invalid && t.noop == s.noop && t.seen == s.seen + {h}
            && t.duplicate == s.duplicate + (if h in s.seen then 1 else 0)
            && t.current == m.current && t.currentScore == m.currentScore
            && t.firstImprovement == m.firstImprovement && t.best == m.best && t.bestScore == m.bestScore
            && t.inspections == Inspected(config, m, h, score, evaluation).inspections
            && t.halted == Inspected(config, m, h, score, evaluation).halted
            && t.curve == (if t.halted then s.curve else s.curve + [t.bestScore.total])
            && t.completed == (if t.halted then s.completed else evaluation)
  {}

  lemma CountersStep(backend: Backend, config: Config, s: State, events: History, evaluation: nat)
    requires !s.halted && CountersTell(events, s)
    ensures CountersTell(events + [EventOf(backend, config, s, evaluation)], Step(backend, config, s, evaluation))
  {
    var e := EventOf(backend, config, s, evaluation);
    CountAppend(IsIdle(), events, e);
    CountAppend(IsRefused(), events, e);
    CountAppend(IsAccepted(), events, e);
    StepIs(backend, config, s, evaluation);
    match e
    case Idle =>
    case Refused =>
    case Accepted(h) => ScoredFields(config, s, h, backend.score(h), evaluation);
  }

  lemma AppearsLonger(g: GraphState, events: History, e: Event, h: GraphState)
    ensures Appears(g, events + [e], h) <==> Appears(g, events, h) || e == Accepted(h)
  {
    if Appears(g, events, h) {
      var i: nat :| i <= |events| && GraphAt(g, events, i) == Some(h);
      GraphAtLonger(g, events, e, i);
    }
    if e == Accepted(h) {
      GraphAtLonger(g, events, e, |events| + 1);
    }
    if Appears(g, events + [e], h) {
      var i: nat :| i <= |events| + 1 && GraphAt(g, events + [e], i) == Some(h);
      GraphAtLonger(g, events, e, i);
    }
  }

  lemma SeenStep(backend: Backend, config: Config, s: State, g: GraphState, events: History, evaluation: nat)
    requires !s.halted && SeenTells(g, events, s)
    ensures SeenTells(g, events + [EventOf(backend, config, s, evaluation)], Step(backend, config, s, evaluation))
  {
    var e := EventOf(backend, config, s, evaluation);
    StepIs(backend, config, s, evaluation);
    forall h ensures Appears(g, events + [e], h) <==> Appears(g, events, h) || e == Accepted(h) {
      AppearsLonger(g, events, e, h);
    }
    match e
    case Idle =>
    case Refused =>
    case Accepted(h) =>
      ScoredFields(config, s, h, backend.score(h), evaluation);
      assert h in s.seen ==> s.seen + {h} == s.seen;
  }

  lemma BestStep(backend: Backend, config: Config, s: State, g: GraphState, events: History, evaluation: nat)
    requires !s.halted && BestTells(backend, g, events, s)
    ensures BestTells(backend, g, events + [EventOf(backend, config, s, evaluation)],
                      Step(backend, config, s, evaluation))
  {
    var e := EventOf(backend, config, s, evaluation);
    StepIs(backend, config, s, evaluation);
    var at: nat :| BestAt(backend, g, events, at) && GraphAt(g, events, at) == Some(s.best);
    match e
    case Idle => BestKept(backend, g, events, e, at);
    case Refused => BestKept(backend, g, events, e, at);
    case Accepted(h) =>
      ScoredFields(config, s, h, backend.score(h), evaluation);
      if Below(backend.score(h), s.bestScore) {
        BestReplacedAt(backend, g, events, h, at);
      } else {
        BestKept(backend, g, events, e, at);
      }
  }

  /** The curve of a step, once its best graph is known. */
  lemma CurveStep(backend: Backend, config: Config, s: State, g: GraphState, events: History, evaluation: nat)
    requires !s.halted && CurveTells(backend, g, events, s) && evaluation == |events| + 1
    requires var t := Step(backend, config, s, evaluation);
             BestTells(backend, g, events + [EventOf(backend, config, s, evaluation)], t)
    ensures CurveTells(backend, g, events + [EventOf(backend, config, s, evaluation)],
                       Step(backend, config, s, evaluation))
  {
    var e, t := EventOf(backend, config, s, evaluation), Step(backend, config, s, evaluation);
    StepIs(backend, config, s, evaluation);
    match e {
      case Idle =>
      case Refused =>
      case Accepted(h) => ScoredFields(config, s, h, backend.score(h), evaluation);
    }
    forall i: nat | i < |t.curve| ensures BestTotal(backend, g, (events + [e])[..i + 1], t.curve[i]) {
      if i < |events| {
        assert (events + [e])[..i + 1] == events[..i + 1];
      } else {
        assert (events + [e])[..i + 1] == events + [e];
        assert FirstBest(backend, g, events + [e], t.best);
      }
    }
  }

  lemma DebutLonger(g: GraphState, events: History, e: Event, i: nat, h: GraphState)
    ensures Debut(g, events + [e], i, h)
       <==> Debut(g, events, i, h) || (i == |events| + 1 && e == Accepted(h) && !Appears(g, events, h))
  {
    var more := events + [e];
    forall j: nat | j <= |events| + 1
      ensures GraphAt(g, more, j)
           == if j <= |events| then GraphAt(g, events, j) else if e.Accepted? then Some(e.graph) else None
    {
      GraphAtLonger(g, events, e, j);
    }
    if i == |events| + 1 && GraphAt(g, more, i) == Some(h) {
      assert Appears(g, events, h) <==> exists j: nat :: j < i && GraphAt(g, more, j) == Some(h) by {
        if j: nat :| j < i && GraphAt(g, more, j) == Some(h) {
          assert GraphAt(g, events, j) == Some(h);
        }
      }
    }
  }

  /** The submissions after a candidate. */
  lemma LogStep(backend: Backend, g: GraphState, events: History, log: seq<Inspection>, log': seq<Inspection>, e: Event,
                added: Option<Inspection>)
    requires LogTells(backend, g, events, log)
    requires log' == if added.Some? then log + [added.value] else log
    requires added.Some? ==>
               && e == Accepted(added.value.graph) && !Appears(g, events, added.value.graph)
               && added.value == Inspection(added.value.graph, backend.score(added.value.graph), |events| + 1)
               && added.value.score.total == 0
    requires added.None? && e.Accepted? ==> Appears(g, events, e.graph) || backend.score(e.graph).total != 0
    ensures LogTells(backend, g, events + [e], log')
  {
    forall x ensures x in log' <==> Debut(g, events + [e], x.evaluation, x.graph) && x.score == backend.score(x.graph)
                                    && x.score.total == 0 {
      DebutLonger(g, events, e, x.evaluation, x.graph);
      assert x in log' <==> x in log || (added.Some? && x == added.value);
    }
    forall i, j | 0 <= i < j < |log'| ensures log'[i].evaluation < log'[j].evaluation {
      assert log'[i] == log[i] && log[i] in log;
    }
  }

  /** What a step submits. */
  ghost function Added(backend: Backend, s: State, e: Event, evaluation: nat): Option<Inspection> {
    if e.Accepted? && backend.score(e.graph).total == 0 && e.graph !in s.submitted
    then Some(Inspection(e.graph, backend.score(e.graph), evaluation))
    else None
  }

  lemma LogAdds(backend: Backend, config: Config, s: State, evaluation: nat)
    requires !s.halted && config.pipeline.Some?
    ensures var added := Added(backend, s, EventOf(backend, config, s, evaluation), evaluation);
            Step(backend, config, s, evaluation).inspections
            == (if added.Some? then s.inspections + [added.value] else s.inspections)
  {
    StepIs(backend, config, s, evaluation);
    match EventOf(backend, config, s, evaluation)
    case Idle =>
    case Refused =>
    case Accepted(h) => ScoredFields(config, s, h, backend.score(h), evaluation);
  }

  lemma SubmissionsStep(backend: Backend, config: Config, s: State, g: GraphState, events: History, evaluation: nat)
    requires !s.halted && evaluation == |events| + 1 && config.pipeline.Some?
    requires SeenTells(g, events, s) && LogTells(backend, g, events, s.inspections) && Complete(backend, config, s)
    ensures LogTells(backend, g, events + [EventOf(backend, config, s, evaluation)],
                     Step(backend, config, s, evaluation).inspections)
  {
    var e, t := EventOf(backend, config, s, evaluation), Step(backend, config, s, evaluation);
    LogAdds(backend, config, s, evaluation);
    if e.Accepted? {
      assert e.graph in s.submitted <==> Appears(g, events, e.graph) && backend.score(e.graph).total == 0;
    }
    LogStep(backend, g, events, s.inspections, t.inspections, e, Added(backend, s, e, evaluation));
  }

  lemma HaltStep(backend: Backend, config: Config, s: State, events: History, evaluation: nat)
    requires !s.halted && evaluation == |events| + 1 && HaltTells(config, events, s)
    ensures HaltTells(config, events + [EventOf(backend, config, s, evaluation)], Step(backend, config, s, evaluation))
  {
    var e, t := EventOf(backend, config, s, evaluation), Step(backend, config, s, evaluation);
    StepIs(backend, config, s, evaluation);
    if e.Accepted? {
      ScoredFields(config, s, e.graph, backend.score(e.graph), evaluation);
    }
    if t.inspections != s.inspections {
      assert t.inspections[..|s.inspections|] == s.inspections;
      forall i | 0 < i < |t.inspections| ensures t.inspections[..i] == s.inspections[..i] {}
    }
  }

  lemma ImprovesLonger(backend: Backend, g: GraphState, events: History, e: Event, j: nat)
    requires j <= |events| && GraphAt(g, events, j).Some?
    ensures GraphAt(g, events + [e], j) == GraphAt(g, events, j)
    ensures Improves(backend, g, events + [e], j) <==> Improves(backend, g, events, j)
  {
    GraphAtLonger(g, events, e, j);
  }

  /** Without an improvement the best graph has the initial key. */
  lemma NotImproved(backend: Backend, g: GraphState, events: History, s: State, h: GraphState)
    requires BestTells(backend, g, events, s) && ImprovementTells(backend, g, events, s) && s.firstImprovement.None?
    ensures Below(backend.score(h), s.bestScore) <==> !SeqLeq(backend.score(g).key, backend.score(h).key)
  {
    var at: nat :| BestAt(backend, g, events, at) && GraphAt(g, events, at) == Some(s.best);
    assert GraphAt(g, events, 0) == Some(g);
    assert !Improves(backend, g, events, at);
    assert SeqLeq(s.bestScore.key, backend.score(g).key) && SeqLeq(backend.score(g).key, s.bestScore.key);
    SeqTotal(s.bestScore.key, backend.score(g).key);
  }

  lemma ImprovementStep(backend: Backend, config: Config, s: State, g: GraphState, events: History, evaluation: nat)
    requires !s.halted && evaluation == |events| + 1
    requires BestTells(backend, g, events, s) && ImprovementTells(backend, g, events, s)
    ensures ImprovementTells(backend, g, events + [EventOf(backend, config, s, evaluation)],
                             Step(backend, config, s, evaluation))
  {
    var e, t := EventOf(backend, config, s, evaluation), Step(backend, config, s, evaluation);
    var more := events + [e];
    StepIs(backend, config, s, evaluation);
    forall j: nat | j <= |events| && GraphAt(g, events, j).Some?
      ensures GraphAt(g, more, j) == GraphAt(g, events, j)
      ensures Improves(backend, g, more, j) <==> Improves(backend, g, events, j)
    {
      ImprovesLonger(backend, g, events, e, j);
    }
    forall j: nat | j <= |events| && GraphAt(g, more, j).Some? ensures GraphAt(g, events, j).Some? {
      GraphAtLonger(g, events, e, j);
    }
    GraphAtLonger(g, events, e, evaluation);
    if e.Accepted? {
      ScoredFields(config, s, e.graph, backend.score(e.graph), evaluation);
      if s.firstImprovement.None? {
        NotImproved(backend, g, events, s, e.graph);
      }
    }
  }

  // --- Every run ----------------------------------------------------------------------------

  lemma FreshTells(backend: Backend, config: Config, g: GraphState)
    ensures Tells(backend, config, g, [], Fresh(config, g, backend.score(g)))
  {
    var s := Fresh(config, g, backend.score(g));
    KeyReflexive(backend.score(g).key);
    assert BestAt(backend, g, [], 0) && GraphAt(g, [], 0) == Some(g);
    forall h ensures h in s.seen <==> Appears(g, [], h) {
      assert Appears(g, [], h) <==> GraphAt(g, [], 0) == Some(h);
    }
  }

  lemma FollowsLonger(backend: Backend, config: Config, s: State, g: GraphState, events: History, evaluation: nat)
    requires Follows(backend, config, g, events) && BestTells(backend, g, events, s) && evaluation == |events| + 1
    ensures Follows(backend, config, g, events + [EventOf(backend, config, s, evaluation)])
  {
    var e := EventOf(backend, config, s, evaluation);
    var more := events + [e];
    forall i: nat | i < |more| ensures FollowsAt(backend, config, g, more, i) {
      if i < |events| {
        assert more[..i] == events[..i] && more[i] == events[i];
        assert FollowsAt(backend, config, g, events, i);
      } else {
        assert more[..i] == events && more[i] == e;
        assert FirstBest(backend, g, events, s.best);
      }
    }
  }

  lemma StepTells(backend: Backend, config: Config, s: State, g: GraphState, events: History, evaluation: nat)
    requires !s.halted && evaluation == |events| + 1 && Complete(backend, config, s)
    requires Tells(backend, config, g, events, s)
    ensures Tells(backend, config, g, events + [EventOf(backend, config, s, evaluation)],
                  Step(backend, config, s, evaluation))
  {
    CountersStep(backend, config, s, events, evaluation);
    SeenStep(backend, config, s, g, events, evaluation);
    BestStep(backend, config, s, g, events, evaluation);
    CurveStep(backend, config, s, g, events, evaluation);
    HaltStep(backend, config, s, events, evaluation);
    ImprovementStep(backend, config, s, g, events, evaluation);
    if config.pipeline.Some? {
      SubmissionsStep(backend, config, s, g, events, evaluation);
    }
  }

  /** What every result says: it is told by the one history that the backend and the proposals lead to. */
  ghost predicate Told(backend: Backend, config: Config, g: GraphState, evaluations: nat, s: State) {
    exists events: History :: TellsRun(backend, config, g, evaluations, events, s)
  }

  ghost predicate TellsRun(backend: Backend, config: Config, g: GraphState, evaluations: nat, events: History,
                           s: State)
  {
    && Follows(backend, config, g, events) && Tells(backend, config, g, events, s)
    && |events| <= evaluations && (!s.halted ==> |events| == evaluations)
  }

  lemma {:induction false} RunTells(backend: Backend, config: Config, g: GraphState, evaluations: nat)
    returns (events: History)
    ensures TellsRun(backend, config, g, evaluations, events, Run(backend, config, g, evaluations))
  {
    if evaluations == 0 {
      events := [];
      FreshTells(backend, config, g);
    } else {
      events := RunTells(backend, config, g, evaluations - 1);
      var s := Run(backend, config, g, evaluations - 1);
      if !s.halted {
        RunComplete(backend, config, g, evaluations - 1);
        LongerTells(backend, config, g, evaluations, events, s);
        events := events + [EventOf(backend, config, s, evaluations)];
      }
    }
  }

  lemma LongerTells(backend: Backend, config: Config, g: GraphState, evaluation: nat, events: History, s: State)
    requires evaluation > 0 && TellsRun(backend, config, g, evaluation - 1, events, s)
    requires !s.halted && Complete(backend, config, s)
    ensures TellsRun(backend, config, g, evaluation, events + [EventOf(backend, config, s, evaluation)],
                     Step(backend, config, s, evaluation))
  {
    StepTells(backend, config, s, g, events, evaluation);
    FollowsLonger(backend, config, s, g, events, evaluation);
  }

  /** The same events so far lead to the same next one. */
  lemma SameAnswer(backend: Backend, config: Config, g: GraphState, a: History, b: History, n: nat)
    requires n < |a| && n < |b| && a[..n] == b[..n]
    requires FollowsAt(backend, config, g, a, n) && FollowsAt(backend, config, g, b, n)
    ensures a[n] == b[n]
  {
    var x :| FirstBest(backend, g, a[..n], x) && Answers(backend, x, config.propose(x, n + 1), a[n]);
    var y :| FirstBest(backend, g, b[..n], y) && Answers(backend, y, config.propose(y, n + 1), b[n]);
    FirstBestUnique(backend, g, a[..n], x, y);
  }

  /** The shorter of two histories of the same proposals begins the longer one. */
  lemma {:induction false} OneHistory(backend: Backend, config: Config, g: GraphState, a: History, b: History)
    requires Follows(backend, config, g, a) && Follows(backend, config, g, b) && |a| <= |b|
    ensures a == b[..|a|]
  {
    if a != [] {
      var n := |a| - 1;
      FollowsShorter(backend, config, g, a, n);
      OneHistory(backend, config, g, a[..n], b);
      SameAnswer(backend, config, g, a, b, n);
    }
  }

  lemma FollowsShorter(backend: Backend, config: Config, g: GraphState, events: History, n: nat)
    requires Follows(backend, config, g, events) && n <= |events|
    ensures Follows(backend, config, g, events[..n])
  {
    forall i: nat | i < n ensures FollowsAt(backend, config, g, events[..n], i) {
      assert events[..n][..i] == events[..i];
      assert FollowsAt(backend, config, g, events, i);
    }
  }

  // --- The area -----------------------------------------------------------------------------

  function Share(top: int): int -> real
    requires top > 0
  {
    (total: int) => total as real / top as real
  }

  /** The normalised area is the mean of the curve as shares of the initial total, or of 1 when that is less. */
  lemma AreaIsMean(curve: seq<int>, initial: int, top: int)
    requires curve != [] && top == if initial < 1 then 1 else initial
    ensures NormalizedAuc(curve, initial) == Means.Mean(Map(Share(top), curve))
  {
    SumOfShares(curve, top);
    Divided(Sum(curve) as real, top as real, |curve| as real);
    assert (top * |curve|) as real == top as real * |curve| as real;
  }

  lemma {:induction false} SumOfShares(curve: seq<int>, top: int)
    requires top > 0
    ensures Means.Sum(Map(Share(top), curve)) == Sum(curve) as real / top as real
  {
    if curve != [] {
      var n := |curve| - 1;
      SumOfShares(curve[..n], top);
      assert Map(Share(top), curve) == Map(Share(top), curve[..n]) + [Share(top)(curve[n])];
      Means.SumAppend(Map(Share(top), curve[..n]), Share(top)(curve[n]));
    }
  }

  lemma Divided(a: real, b: real, c: real)
    requires b > 0.0 && c > 0.0
    ensures b * c > 0.0 && a / (b * c) == a / b / c
  {
    var q := a / b / c;
    assert q * c * b == a;
    assert q * c * b == q * (b * c);
  }
}
