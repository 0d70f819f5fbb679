/** The exact summaries of stages 4E and 5: grouping loops over dictionaries, level by level. */
module Summaries {
  import opened Wrappers
  import opened Sorting
  import opened Means
  import Strata
  import Graphs

  // --- Curves -------------------------------------------------------------------------------

  datatype SummaryError = EmptyCurve | NotNormalized | NotBestSoFar | NoEpisodes | BadOrder | EmptyId | DuplicateEpisode
                        | HorizonsDiffer | ZeroMean | RosterMismatch

  /** A best-so-far curve in the unit interval. */
  ghost predicate CurveOk(curve: seq<real>) {
    && curve != [] && (forall i :: 0 <= i < |curve| ==> 0.0 <= curve[i] <= 1.0)
    && forall i :: 0 < i < |curve| ==> curve[i - 1] <= curve[i]
  }

  /** The area of a curve, or what is wrong with it. */
  method CurveArea(curve: seq<real>) returns (r: Result<real, SummaryError>)
    ensures r.Success? <==> CurveOk(curve)
    ensures r.Success? ==> r.value == Mean(curve) && 0.0 <= r.value <= 1.0
  {
    if curve == [] {
      return Failure(EmptyCurve);
    }
    var previous := 0.0;
    for i := 0 to |curve|
      invariant i > 0 ==> previous == curve[i - 1]
      invariant forall j :: 0 <= j < i ==> 0.0 <= curve[j] <= 1.0
      invariant forall j :: 0 < j < i ==> curve[j - 1] <= curve[j]
    {
      if !(0.0 <= curve[i] <= 1.0) {
        return Failure(NotNormalized);
      }
      if i > 0 && curve[i] < previous {
        return Failure(NotBestSoFar);
      }
      previous := curve[i];
    }
    MeanBetween(curve, 0.0, 1.0);
    r := Success(Mean(curve));
  }

  // --- One level ----------------------------------------------------------------------------

  /** The dictionary of the first n cells. */
  ghost predicate Grouped(f: Key -> Key, keys: seq<Key>, values: seq<real>, n: nat, groups: map<Key, seq<real>>,
                          order: seq<Key>)
    requires n <= |keys| == |values|
  {
    && Graphs.Distinct(order) && (forall k :: k in order <==> k in groups)
    && (forall k :: k in groups <==> exists i :: 0 <= i < n && f(keys[i]) == k)
    && forall k :: k in groups ==> groups[k] == Within(f, keys[..n], values[..n], k)
  }

  lemma GroupedNext(f: Key -> Key, keys: seq<Key>, values: seq<real>, n: nat, k: Key)
    requires n < |keys| == |values|
    ensures Within(f, keys[..n + 1], values[..n + 1], k)
            == if f(keys[n]) == k then Within(f, keys[..n], values[..n], k) + [values[n]]
               else Within(f, keys[..n], values[..n], k)
  {
    assert keys[..n + 1][..n] == keys[..n] && values[..n + 1][..n] == values[..n];
  }

  lemma {:induction false} NoneWithin(f: Key -> Key, keys: seq<Key>, values: seq<real>, k: Key)
    requires |keys| == |values| && forall i :: 0 <= i < |keys| ==> f(keys[i]) != k
    ensures Within(f, keys, values, k) == []
  {
    if keys != [] {
      NoneWithin(f, keys[..|keys| - 1], values[..|keys| - 1], k);
    }
  }

  /** setdefault(key, []).append(value) for one cell. */
  method AddCell(f: Key -> Key, keys: seq<Key>, values: seq<real>, n: nat, groups: map<Key, seq<real>>, order: seq<Key>)
    returns (groups': map<Key, seq<real>>, order': seq<Key>)
    requires n < |keys| == |values| && Grouped(f, keys, values, n, groups, order)
    ensures Grouped(f, keys, values, n + 1, groups', order')
  {
    var key := f(keys[n]);
    groups', order' := groups, order;
    if key !in groups {
      groups' := groups'[key := []];
      order' := order' + [key];
      NoneWithin(f, keys[..n], values[..n], key);
    }
    groups' := groups'[key := groups'[key] + [values[n]]];
    forall k | k in groups' ensures groups'[k] == Within(f, keys[..n + 1], values[..n + 1], k) {
      GroupedNext(f, keys, values, n, k);
    }
    assert forall k :: k in order' <==> k in order || k == key;
  }

  /** The groups in sorted order and their means. */
  method Collapse(f: Key -> Key, keys: seq<Key>, values: seq<real>) returns (groups: seq<Key>, means: seq<real>)
    requires |keys| == |values|
    ensures groups == Groups(f, keys) && means == GroupMeans(f, keys, values)
  {
    var dictionary: map<Key, seq<real>>, order: seq<Key> := map[], [];
    for i := 0 to |keys|
      invariant Grouped(f, keys, values, i, dictionary, order)
    {
      dictionary, order := AddCell(f, keys, values, i, dictionary, order);
    }
    assert keys[..|keys|] == keys && values[..|keys|] == values;
    groups := Sort(order, SeqLeq);
    SortedKeys(f, keys, order);
    forall k | k in groups ensures k in dictionary {
      GroupsAre(f, keys, k);
    }
    means := MeansOf(f, keys, values, dictionary, groups);
  }

  /** The mean of every group, in sorted order of the groups. */
  method MeansOf(f: Key -> Key, keys: seq<Key>, values: seq<real>, dictionary: map<Key, seq<real>>, groups: seq<Key>)
    returns (means: seq<real>)
    requires |keys| == |values| && groups == Groups(f, keys)
    requires forall k :: k in groups ==> k in dictionary && dictionary[k] == Within(f, keys, values, k)
    ensures means == GroupMeans(f, keys, values)
  {
    means := [];
    for i := 0 to |groups|
      invariant |means| == i && means == GroupMeans(f, keys, values)[..i]
    {
      assert groups[i] in groups;
      GroupsAre(f, keys, groups[i]);
      WithinNonEmpty(f, keys, values, groups[i]);
      means := means + [Mean(dictionary[groups[i]])];
    }
  }

  lemma SortedKeys(f: Key -> Key, keys: seq<Key>, order: seq<Key>)
    requires Graphs.Distinct(order) && forall k :: k in order <==> exists i :: 0 <= i < |keys| && f(keys[i]) == k
    ensures Sort(order, SeqLeq) == Groups(f, keys)
  {
    var elements := Elements(Map(f, keys));
    forall k ensures k in order <==> k in elements {
      if i :| 0 <= i < |keys| && f(keys[i]) == k {
        assert Map(f, keys)[i] == k;
      }
      if k in Map(f, keys) {
        var i :| 0 <= i < |keys| && Map(f, keys)[i] == k;
        assert f(keys[i]) == k;
      }
    }
    Graphs.SameElements(order, elements);
    SeqOrder();
    SortCanonical(order, elements, SeqLeq);
  }

  lemma GroupsNonEmpty(f: Key -> Key, keys: seq<Key>)
    requires keys != []
    ensures Groups(f, keys) != []
  {
    GroupsAre(f, keys, f(keys[0]));
  }

  // --- Stage 4E -----------------------------------------------------------------------------

  datatype PairedEpisode = PairedEpisode(order: int, graphSeed: int, id: string, candidate: seq<real>,
                                         comparator: seq<real>)

  datatype PairedSummary = PairedSummary(theta: real, muB: real, relativeImprovement: real)

  function CellOf(e: PairedEpisode): Key {
    [e.order, e.graphSeed, 0]
  }

  ghost predicate CurvesOk(e: PairedEpisode) {
    |e.candidate| == |e.comparator| && CurveOk(e.candidate) && CurveOk(e.comparator)
  }

  ghost predicate EpisodeOk(e: PairedEpisode) {
    e.order >= 1 && e.id != "" && CurvesOk(e)
  }

  predicate SameIdentity(a: PairedEpisode, b: PairedEpisode) {
    a.order == b.order && a.graphSeed == b.graphSeed && a.id == b.id
  }

  ghost predicate EpisodesOk(episodes: seq<PairedEpisode>) {
    && (forall i :: 0 <= i < |episodes| ==> EpisodeOk(episodes[i]))
    && forall i, j :: 0 <= i < j < |episodes| ==> !SameIdentity(episodes[i], episodes[j])
  }

  ghost function CandidateAreas(episodes: seq<PairedEpisode>): seq<real> {
    Map((e: PairedEpisode) => MeanOr0(e.candidate), episodes)
  }

  ghost function ComparatorAreas(episodes: seq<PairedEpisode>): seq<real> {
    Map((e: PairedEpisode) => MeanOr0(e.comparator), episodes)
  }

  /** The mean over orders of the means over graphs of the means over episodes. */
  ghost function PairedMean(episodes: seq<PairedEpisode>, areas: seq<real>): real
    requires |areas| == |episodes|
  {
    MeanOr0(Top(Map(CellOf, episodes), areas, 2))
  }

  /** The two areas of one episode. */
  method EpisodeAreas(e: PairedEpisode) returns (r: Result<(real, real), SummaryError>)
    ensures r.Success? <==> CurvesOk(e)
    ensures r.Success? ==> r.value == (MeanOr0(e.candidate), MeanOr0(e.comparator))
  {
    if |e.candidate| != |e.comparator| {
      return Failure(HorizonsDiffer);
    }
    var candidate := CurveArea(e.candidate);
    if candidate.Failure? {
      return Failure(candidate.error);
    }
    var comparator := CurveArea(e.comparator);
    if comparator.Failure? {
      return Failure(comparator.error);
    }
    r := Success((candidate.value, comparator.value));
  }

  lemma OkNext(episodes: seq<PairedEpisode>, i: nat)
    requires i < |episodes| && EpisodesOk(episodes[..i])
    ensures EpisodesOk(episodes[..i + 1])
            <==> EpisodeOk(episodes[i]) && forall j :: 0 <= j < i ==> !SameIdentity(episodes[j], episodes[i])
    ensures !EpisodesOk(episodes[..i + 1]) ==> !EpisodesOk(episodes)
  {
    var front, more := episodes[..i], episodes[..i + 1];
    assert forall j :: 0 <= j < i ==> front[j] == more[j] == episodes[j];
    assert more[i] == episodes[i];
  }

  /** One more episode: its identity is new, and its areas are appended. */
  method AddEpisode(episodes: seq<PairedEpisode>, i: nat) returns (r: Result<(real, real), SummaryError>)
    requires i < |episodes| && EpisodesOk(episodes[..i])
    ensures r.Success? <==> EpisodesOk(episodes[..i + 1])
    ensures r.Success? ==> r.value == (MeanOr0(episodes[i].candidate), MeanOr0(episodes[i].comparator))
    ensures r.Failure? ==> !EpisodesOk(episodes)
  {
    OkNext(episodes, i);
    if episodes[i].order < 1 {
      return Failure(BadOrder);
    }
    if episodes[i].id == "" {
      return Failure(EmptyId);
    }
    if exists j :: 0 <= j < i && SameIdentity(episodes[j], episodes[i]) {
      return Failure(DuplicateEpisode);
    }
    r := EpisodeAreas(episodes[i]);
  }

  method AllAreas(episodes: seq<PairedEpisode>) returns (r: Result<(seq<real>, seq<real>), SummaryError>)
    ensures r.Success? <==> EpisodesOk(episodes)
    ensures r.Success? ==> r.value == (CandidateAreas(episodes), ComparatorAreas(episodes))
  {
    var candidates: seq<real>, comparators: seq<real> := [], [];
    for i := 0 to |episodes|
      invariant EpisodesOk(episodes[..i])
      invariant candidates == CandidateAreas(episodes)[..i] && comparators == ComparatorAreas(episodes)[..i]
    {
      var areas := AddEpisode(episodes, i);
      if areas.Failure? {
        return Failure(areas.error);
      }
      candidates, comparators := candidates + [areas.value.0], comparators + [areas.value.1];
    }
    assert episodes[..|episodes|] == episodes;
    assert CandidateAreas(episodes)[..|episodes|] == CandidateAreas(episodes);
    assert ComparatorAreas(episodes)[..|episodes|] == ComparatorAreas(episodes);
    r := Success((candidates, comparators));
  }

  /** Graph means, order means and the mean of the orders. */
  method ThreeLevels(keys: seq<Key>, values: seq<real>)
    returns (graphs: seq<Key>, graphMeans: seq<real>, orders: seq<Key>, orderMeans: seq<real>, mean: real)
    requires |keys| == |values| && keys != []
    ensures graphs == Groups(Parent, keys) && graphMeans == GroupMeans(Parent, keys, values)
    ensures orderMeans == Top(keys, values, 2) && orderMeans != [] && mean == Mean(orderMeans)
    ensures |orders| == |orderMeans| && orders == Groups(Parent, graphs)
  {
    graphs, graphMeans := Collapse(Parent, keys, values);
    orders, orderMeans := Collapse(Parent, graphs, graphMeans);
    GroupsNonEmpty(Parent, keys);
    GroupsNonEmpty(Parent, graphs);
    mean := Mean(orderMeans);
  }

  /**
    Theta is the mean of the paired differences taken level by level. It equals the candidate mean taken the
    same way minus mu_B, for groups of any sizes.
   */
  method SummarizePairedAreas(episodes: seq<PairedEpisode>) returns (r: Result<PairedSummary, SummaryError>)
    ensures r.Success? <==>
            episodes != [] && EpisodesOk(episodes) && PairedMean(episodes, ComparatorAreas(episodes)) != 0.0
    ensures r.Success? ==>
              && r.value.theta == PairedMean(episodes, Minus(CandidateAreas(episodes), ComparatorAreas(episodes)))
              && r.value.muB == PairedMean(episodes, ComparatorAreas(episodes))
              && r.value.theta == PairedMean(episodes, CandidateAreas(episodes)) - r.value.muB
              && r.value.relativeImprovement == r.value.theta / r.value.muB
  {
    if episodes == [] {
      return Failure(NoEpisodes);
    }
    var areas := AllAreas(episodes);
    if areas.Failure? {
      return Failure(areas.error);
    }
    var (candidates, comparators) := areas.value;
    var keys := Map(CellOf, episodes);
    var deltas := Minus(candidates, comparators);
    var _, _, _, _, theta := ThreeLevels(keys, deltas);
    var _, _, _, _, muB := ThreeLevels(keys, comparators);
    PairedIsLinear(episodes, candidates, comparators);
    if muB == 0.0 {
      return Failure(ZeroMean);
    }
    r := Success(PairedSummary(theta, muB, theta / muB));
  }

  lemma PairedIsLinear(episodes: seq<PairedEpisode>, a: seq<real>, b: seq<real>)
    requires |a| == |b| == |episodes| && episodes != []
    ensures PairedMean(episodes, Minus(a, b)) == PairedMean(episodes, a) - PairedMean(episodes, b)
  {
    var keys := Map(CellOf, episodes);
    TopIsLinear(keys, a, b, 2);
    GroupsNonEmpty(Parent, keys);
    GroupsNonEmpty(Parent, Groups(Parent, keys));
    MeanMinus(Top(keys, a, 2), Top(keys, b, 2));
  }

  /** The order of the episodes does not matter. */
  lemma PairedMeanPermuted(a: seq<PairedEpisode>, b: seq<PairedEpisode>, area: PairedEpisode -> real)
    requires multiset(a) == multiset(b)
    ensures PairedMean(a, Map(area, a)) == PairedMean(b, Map(area, b))
  {
    var cell := (e: PairedEpisode) => (CellOf(e), area(e));
    MapMultiset(cell, a, b);
    assert Map(cell, a) == Cells(Map(CellOf, a), Map(area, a));
    assert Map(cell, b) == Cells(Map(CellOf, b), Map(area, b));
    TopPermuted(Map(CellOf, a), Map(area, a), Map(CellOf, b), Map(area, b), 2);
  }

  // --- Stage 5 ------------------------------------------------------------------------------

  datatype Policy = Champion | Stage3 | Random | Structural

  datatype PolicyEpisode = PolicyEpisode(order: int, graphSeed: int, relabelingSeed: int, policySeed: int,
                                         areas: map<Policy, real>)

  /** How many values have each sign. */
  datatype Signs = Signs(negative: nat, zero: nat, positive: nat)

  datatype SignTable = SignTable(episodes: Signs, relabels: Signs, strata: Signs, graphs: Signs, orders: Signs)

  /** One effect, champion against a comparator, at every level. */
  datatype Effect = Effect(theta: real, orderDeltas: seq<real>, graphDeltas: seq<real>, relabels: seq<Key>,
                           relabelDeltas: seq<real>, strata: seq<Key>, stratumDeltas: seq<real>, signs: SignTable)

  /** The effects of the champion over every other policy. */
  datatype Effects = Effects(stage3: Effect, random: Effect, structural: Effect)

  /** The means of every policy at one level. */
  datatype Level = Level(keys: seq<Key>, means: map<Policy, seq<real>>)

  datatype Stage5Summary = Stage5Summary(relabels: Level, graphs: Level, orders: Level, means: map<Policy, real>,
                                         effects: Effects, structuralRetention: real)

  const ROSTER := {Champion, Stage3, Random, Structural}

  function KeyOfEpisode(e: PolicyEpisode): Key {
    [e.order, e.graphSeed, e.relabelingSeed, e.policySeed]
  }

  function AreaOf(p: Policy): PolicyEpisode -> real {
    (e: PolicyEpisode) => if p in e.areas then e.areas[p] else 0.0
  }

  /** Relabel, graph and order means of one policy, and the mean of the orders. */
  ghost function PolicyMean(records: seq<PolicyEpisode>, p: Policy): real {
    MeanOr0(Top(Map(KeyOfEpisode, records), Map(AreaOf(p), records), 3))
  }

  ghost predicate RecordsOk(records: seq<PolicyEpisode>) {
    && (forall i :: 0 <= i < |records| ==> records[i].areas.Keys == ROSTER)
    && forall i, j :: 0 <= i < j < |records| ==> KeyOfEpisode(records[i]) != KeyOfEpisode(records[j])
  }

  predicate Negative(x: real) {
    x < 0.0
  }

  predicate Zero(x: real) {
    x == 0.0
  }

  predicate Positive(x: real) {
    x > 0.0
  }

  function SignCounts(values: seq<real>): Signs {
    Signs(Count(Negative, values), Count(Zero, values), Count(Positive, values))
  }

  /** The counts are those of the places with each sign. */
  lemma SignsAre(values: seq<real>) returns (negative: set<int>, zero: set<int>, positive: set<int>)
    ensures SignCounts(values) == Signs(|negative|, |zero|, |positive|)
    ensures forall i :: i in negative <==> 0 <= i < |values| && values[i] < 0.0
    ensures forall i :: i in zero <==> 0 <= i < |values| && values[i] == 0.0
    ensures forall i :: i in positive <==> 0 <= i < |values| && values[i] > 0.0
  {
    negative := CountPlaces(Negative, values);
    zero := CountPlaces(Zero, values);
    positive := CountPlaces(Positive, values);
  }

  /** Every value has one sign, and a gate on all values is the absence of negative signs. */
  lemma {:induction false} SignsCounted(values: seq<real>)
    ensures var r := SignCounts(values); r.negative + r.zero + r.positive == |values|
    ensures SignCounts(values).negative == 0 <==> Strata.NonNegative(values)
  {
    if values != [] {
      var n := |values| - 1;
      SignsCounted(values[..n]);
      assert forall i :: 0 <= i < n ==> values[..n][i] == values[i];
    }
  }

  function Deltas(records: seq<PolicyEpisode>, c: Policy): (r: seq<real>)
    ensures |r| == |records|
  {
    Minus(Map(AreaOf(Champion), records), Map(AreaOf(c), records))
  }

  /** The effect of the champion over a comparator, told from the areas. */
  ghost predicate IsEffect(records: seq<PolicyEpisode>, c: Policy, e: Effect) {
    var keys, deltas := Map(KeyOfEpisode, records), Deltas(records, c);
    && e.theta == PolicyMean(records, Champion) - PolicyMean(records, c)
    && e.orderDeltas == Top(keys, deltas, 3) && e.orderDeltas != [] && e.theta == Mean(e.orderDeltas)
    && e.relabels == Groups(Parent, keys) && e.relabelDeltas == GroupMeans(Parent, keys, deltas)
    && e.graphDeltas == GroupMeans(Parent, e.relabels, e.relabelDeltas)
    && e.strata == Groups(Strata.StratumOf, e.relabels)
       && e.stratumDeltas == GroupMeans(Strata.StratumOf, e.relabels, e.relabelDeltas)
    && e.signs == SignTable(SignCounts(deltas), SignCounts(e.relabelDeltas), SignCounts(e.stratumDeltas),
                            SignCounts(e.graphDeltas), SignCounts(e.orderDeltas))
  }

  /** The means of one policy at every level, and the mean of the orders. */
  datatype Levels = Levels(relabels: seq<Key>, relabelMeans: seq<real>, graphs: seq<Key>, graphMeans: seq<real>,
                           orders: seq<Key>, orderMeans: seq<real>, mean: real)

  ghost predicate IsLevels(records: seq<PolicyEpisode>, p: Policy, l: Levels) {
    && l.relabels == Groups(Parent, Map(KeyOfEpisode, records)) && |l.relabelMeans| == |l.relabels|
    && l.relabelMeans == GroupMeans(Parent, Map(KeyOfEpisode, records), Map(AreaOf(p), records))
    && l.graphs == Groups(Parent, l.relabels) && l.graphMeans == GroupMeans(Parent, l.relabels, l.relabelMeans)
    && l.orders == Groups(Parent, l.graphs) && |l.orders| == |l.orderMeans|
    && l.orderMeans == Top(Map(KeyOfEpisode, records), Map(AreaOf(p), records), 3) && l.orderMeans != []
    && l.mean == PolicyMean(records, p) == Mean(l.orderMeans)
  }

  method PolicyLevels(records: seq<PolicyEpisode>, p: Policy) returns (l: Levels)
    requires records != []
    ensures IsLevels(records, p, l)
  {
    var keys, values := Map(KeyOfEpisode, records), Map(AreaOf(p), records);
    var relabels, relabelMeans := Collapse(Parent, keys, values);
    GroupsNonEmpty(Parent, keys);
    var graphs, graphMeans, orders, orderMeans, mean := ThreeLevels(relabels, relabelMeans);
    l := Levels(relabels, relabelMeans, graphs, graphMeans, orders, orderMeans, mean);
  }

  /** The differences of two policies are, at every level, the means of the differences below. */
  lemma LevelDifferences(records: seq<PolicyEpisode>, c: Policy, a: Levels, b: Levels)
    requires IsLevels(records, Champion, a) && IsLevels(records, c, b)
    ensures var keys, deltas := Map(KeyOfEpisode, records), Deltas(records, c);
            && Minus(a.relabelMeans, b.relabelMeans) == GroupMeans(Parent, keys, deltas)
            && Minus(a.graphMeans, b.graphMeans)
               == GroupMeans(Parent, a.relabels, Minus(a.relabelMeans, b.relabelMeans))
            && |a.orderMeans| == |b.orderMeans| && Minus(a.orderMeans, b.orderMeans) == Top(keys, deltas, 3)
            && Mean(Minus(a.orderMeans, b.orderMeans)) == PolicyMean(records, Champion) - PolicyMean(records, c)
  {
    var keys, x, y := Map(KeyOfEpisode, records), Map(AreaOf(Champion), records), Map(AreaOf(c), records);
    GroupMeansMinus(Parent, keys, x, y);
    GroupMeansMinus(Parent, a.relabels, a.relabelMeans, b.relabelMeans);
    TopIsLinear(keys, x, y, 3);
    MeanMinus(a.orderMeans, b.orderMeans);
  }

  /** The differences at every level; the order differences are again the differences taken level by level. */
  method PairEffect(records: seq<PolicyEpisode>, c: Policy) returns (e: Effect)
    requires records != []
    ensures IsEffect(records, c, e)
  {
    var champion := PolicyLevels(records, Champion);
    var comparator := PolicyLevels(records, c);
    LevelDifferences(records, c, champion, comparator);
    var relabelDeltas := Minus(champion.relabelMeans, comparator.relabelMeans);
    var graphDeltas := Minus(champion.graphMeans, comparator.graphMeans);
    var orderDeltas := Minus(champion.orderMeans, comparator.orderMeans);
    var strata, stratumDeltas := Collapse(Strata.StratumOf, champion.relabels, relabelDeltas);
    var signs := SignTable(SignCounts(Deltas(records, c)), SignCounts(relabelDeltas), SignCounts(stratumDeltas),
                           SignCounts(graphDeltas), SignCounts(orderDeltas));
    e := Effect(Mean(orderDeltas), orderDeltas, graphDeltas, champion.relabels, relabelDeltas, strata, stratumDeltas,
                signs);
  }

  method CheckRecords(records: seq<PolicyEpisode>) returns (error: Option<SummaryError>)
    ensures error.None? <==> RecordsOk(records)
  {
    for i := 0 to |records|
      invariant RecordsOk(records[..i])
    {
      if exists j :: 0 <= j < i && KeyOfEpisode(records[j]) == KeyOfEpisode(records[i]) {
        return Some(DuplicateEpisode);
      }
      if records[i].areas.Keys != ROSTER {
        return Some(RosterMismatch);
      }
    }
    assert records[..|records|] == records;
    error := None;
  }

  ghost predicate AreEffects(records: seq<PolicyEpisode>, e: Effects) {
    IsEffect(records, Stage3, e.stage3) && IsEffect(records, Random, e.random)
        && IsEffect(records, Structural, e.structural)
  }

  method AllEffects(records: seq<PolicyEpisode>) returns (effects: Effects)
    requires records != []
    ensures AreEffects(records, effects)
  {
    var stage3 := PairEffect(records, Stage3);
    var random := PairEffect(records, Random);
    var structural := PairEffect(records, Structural);
    effects := Effects(stage3, random, structural);
  }

  ghost predicate FullRoster(s: Stage5Summary) {
    s.relabels.means.Keys == s.graphs.means.Keys == s.orders.means.Keys == s.means.Keys == ROSTER
  }

  /** What a summary says of one policy. */
  ghost function LevelsOf(s: Stage5Summary, p: Policy): Levels
    requires FullRoster(s) && p in ROSTER
  {
    Levels(s.relabels.keys, s.relabels.means[p], s.graphs.keys, s.graphs.means[p], s.orders.keys, s.orders.means[p],
           s.means[p])
  }

  /** Every mean of every policy at every level. */
  ghost predicate AreMeans(records: seq<PolicyEpisode>, s: Stage5Summary) {
    FullRoster(s) && forall p :: p in ROSTER ==> IsLevels(records, p, LevelsOf(s, p))
  }

  method AllLevels(records: seq<PolicyEpisode>) returns (levels: map<Policy, Levels>)
    requires records != []
    ensures levels.Keys == ROSTER && forall p :: p in levels ==> IsLevels(records, p, levels[p])
  {
    var champion := PolicyLevels(records, Champion);
    var stage3 := PolicyLevels(records, Stage3);
    var random := PolicyLevels(records, Random);
    var structural := PolicyLevels(records, Structural);
    levels := map[Champion := champion, Stage3 := stage3, Random := random, Structural := structural];
  }

  /** The summary of a stage 5 run, with one effect for every comparator. */
  method SummarizeStage5(records: seq<PolicyEpisode>) returns (r: Result<Stage5Summary, SummaryError>)
    ensures r.Success? <==> records != [] && RecordsOk(records) && PolicyMean(records, Structural) != 0.0
    ensures r.Success? ==> AreMeans(records, r.value) && AreEffects(records, r.value.effects)
                           && r.value.structuralRetention
                              == PolicyMean(records, Champion) / PolicyMean(records, Structural)
  {
    if records == [] {
      return Failure(NoEpisodes);
    }
    var error := CheckRecords(records);
    if error.Some? {
      return Failure(error.value);
    }
    var levels := AllLevels(records);
    var effects := AllEffects(records);
    if levels[Structural].mean == 0.0 {
      return Failure(ZeroMean);
    }
    r := Success(Assembled(levels, effects));
    LevelsAssembled(records, levels, r.value);
  }

  function Assembled(levels: map<Policy, Levels>, effects: Effects): Stage5Summary
    requires levels.Keys == ROSTER && levels[Structural].mean != 0.0
  {
    var l := levels[Champion];
    Stage5Summary(Level(l.relabels, map p | p in ROSTER :: levels[p].relabelMeans),
                  Level(l.graphs, map p | p in ROSTER :: levels[p].graphMeans),
                  Level(l.orders, map p | p in ROSTER :: levels[p].orderMeans),
                  map p | p in ROSTER :: levels[p].mean, effects, l.mean / levels[Structural].mean)
  }

  ghost predicate SameGroups(a: Levels, b: Levels) {
    a.relabels == b.relabels && a.graphs == b.graphs && a.orders == b.orders
  }

  lemma LevelsAssembled(records: seq<PolicyEpisode>, levels: map<Policy, Levels>, s: Stage5Summary)
    requires levels.Keys == ROSTER && levels[Structural].mean != 0.0 && s == Assembled(levels, s.effects)
    requires forall p :: p in levels ==> IsLevels(records, p, levels[p])
    ensures AreMeans(records, s)
  {
    assert FullRoster(s);
    forall p | p in ROSTER ensures IsLevels(records, p, LevelsOf(s, p)) {
      SameGroupsAlways(records, Champion, levels[Champion], p, levels[p]);
      AssembledOf(levels, s, p);
    }
  }

  lemma SameGroupsAlways(records: seq<PolicyEpisode>, p: Policy, a: Levels, q: Policy, b: Levels)
    requires IsLevels(records, p, a) && IsLevels(records, q, b)
    ensures SameGroups(a, b)
  {}

  lemma AssembledOf(levels: map<Policy, Levels>, s: Stage5Summary, p: Policy)
    requires levels.Keys == ROSTER && levels[Structural].mean != 0.0 && s == Assembled(levels, s.effects)
    requires p in ROSTER && SameGroups(levels[Champion], levels[p])
    ensures FullRoster(s) && LevelsOf(s, p) == levels[p]
  {}

  // --- Independence of the input order ------------------------------------------------------

  /** Equal multisets of records have the same cells under any value. */
  lemma RecordCells(a: seq<PolicyEpisode>, b: seq<PolicyEpisode>, area: PolicyEpisode -> real)
    requires multiset(a) == multiset(b)
    ensures multiset(Cells(Map(KeyOfEpisode, a), Map(area, a))) == multiset(Cells(Map(KeyOfEpisode, b), Map(area, b)))
  {
    var cell := (e: PolicyEpisode) => (KeyOfEpisode(e), area(e));
    MapMultiset(cell, a, b);
    assert Map(cell, a) == Cells(Map(KeyOfEpisode, a), Map(area, a));
    assert Map(cell, b) == Cells(Map(KeyOfEpisode, b), Map(area, b));
  }

  lemma PolicyMeanPermuted(a: seq<PolicyEpisode>, b: seq<PolicyEpisode>, p: Policy)
    requires multiset(a) == multiset(b)
    ensures PolicyMean(a, p) == PolicyMean(b, p)
  {
    RecordCells(a, b, AreaOf(p));
    TopPermuted(Map(KeyOfEpisode, a), Map(AreaOf(p), a), Map(KeyOfEpisode, b), Map(AreaOf(p), b), 3);
  }

  lemma SignsPermuted(a: seq<real>, b: seq<real>)
    requires multiset(a) == multiset(b)
    ensures SignCounts(a) == SignCounts(b)
  {
    CountPermuted(Negative, a, b);
    CountPermuted(Zero, a, b);
    CountPermuted(Positive, a, b);
  }

  lemma DeltasMapped(records: seq<PolicyEpisode>, c: Policy, delta: PolicyEpisode -> real)
    requires forall e :: delta(e) == AreaOf(Champion)(e) - AreaOf(c)(e)
    ensures Deltas(records, c) == Map(delta, records)
  {}

  /** An effect, strata and sign counts included, does not depend on the order of the records. */
  lemma EffectPermuted(a: seq<PolicyEpisode>, b: seq<PolicyEpisode>, c: Policy, e: Effect)
    requires multiset(a) == multiset(b) && IsEffect(a, c, e)
    ensures IsEffect(b, c, e)
  {
    var delta := (e: PolicyEpisode) => AreaOf(Champion)(e) - AreaOf(c)(e);
    DeltasMapped(a, c, delta);
    DeltasMapped(b, c, delta);
    RecordCells(a, b, delta);
    PolicyMeanPermuted(a, b, Champion);
    PolicyMeanPermuted(a, b, c);
    TopPermuted(Map(KeyOfEpisode, a), Map(delta, a), Map(KeyOfEpisode, b), Map(delta, b), 3);
    GroupMeansPermuted(Parent, Map(KeyOfEpisode, a), Map(delta, a), Map(KeyOfEpisode, b), Map(delta, b));
    MapMultiset(delta, a, b);
    SignsPermuted(Map(delta, a), Map(delta, b));
  }

  lemma RecordsOkPermuted(a: seq<PolicyEpisode>, b: seq<PolicyEpisode>)
    requires multiset(a) == multiset(b) && RecordsOk(a)
    ensures RecordsOk(b)
  {
    MapMultiset(KeyOfEpisode, a, b);
    Graphs.DistinctPermuted(Map(KeyOfEpisode, a), Map(KeyOfEpisode, b));
    forall i | 0 <= i < |b| ensures b[i].areas.Keys == ROSTER {
      assert b[i] in multiset(a) && b[i] in a;
    }
    forall i, j | 0 <= i < j < |b| ensures KeyOfEpisode(b[i]) != KeyOfEpisode(b[j]) {
      assert Map(KeyOfEpisode, b)[i] != Map(KeyOfEpisode, b)[j];
    }
  }

  lemma LevelsPermuted(a: seq<PolicyEpisode>, b: seq<PolicyEpisode>, p: Policy, l: Levels)
    requires multiset(a) == multiset(b) && IsLevels(a, p, l)
    ensures IsLevels(b, p, l)
  {
    RecordCells(a, b, AreaOf(p));
    PolicyMeanPermuted(a, b, p);
    TopPermuted(Map(KeyOfEpisode, a), Map(AreaOf(p), a), Map(KeyOfEpisode, b), Map(AreaOf(p), b), 3);
    GroupMeansPermuted(Parent, Map(KeyOfEpisode, a), Map(AreaOf(p), a), Map(KeyOfEpisode, b), Map(AreaOf(p), b));
  }

  /** Whether the summary succeeds, and every number in it, is independent of the order of the records. */
  lemma Stage5Permuted(a: seq<PolicyEpisode>, b: seq<PolicyEpisode>, s: Stage5Summary)
    requires multiset(a) == multiset(b)
    ensures (a == [] <==> b == []) && (RecordsOk(a) <==> RecordsOk(b))
    ensures PolicyMean(a, Structural) == PolicyMean(b, Structural) && PolicyMean(a, Champion) == PolicyMean(b, Champion)
    ensures AreMeans(a, s) ==> AreMeans(b, s)
    ensures AreEffects(a, s.effects) ==> AreEffects(b, s.effects)
  {
    assert |a| == |multiset(a)| == |multiset(b)| == |b|;
    if RecordsOk(a) {
      RecordsOkPermuted(a, b);
    }
    if RecordsOk(b) {
      RecordsOkPermuted(b, a);
    }
    PolicyMeanPermuted(a, b, Structural);
    PolicyMeanPermuted(a, b, Champion);
    if AreEffects(a, s.effects) {
      EffectPermuted(a, b, Stage3, s.effects.stage3);
      EffectPermuted(a, b, Random, s.effects.random);
      EffectPermuted(a, b, Structural, s.effects.structural);
    }
    if AreMeans(a, s) {
      forall p | p in ROSTER ensures IsLevels(b, p, LevelsOf(s, p)) {
        LevelsPermuted(a, b, p, LevelsOf(s, p));
      }
    }
  }
}
