/** The nested samples of the bootstraps, grouped from the episodes they summarize. */
module Designs {
  import opened Wrappers
  import opened Sorting
  import opened Means
  import opened Strata
  import opened Summaries
  import Bootstrap
  import Percentiles
  import Gates

  // --- Levels of keys -----------------------------------------------------------------------

  /** The mean of the values below every key. */
  function LevelMean(keys: seq<Key>, h: Key -> real): Key -> real {
    (k: Key) => MeanOr0(Map(h, KeysIn(Parent, keys, k)))
  }

  lemma LevelMeans(keys: seq<Key>, h: Key -> real)
    ensures GroupMeans(Parent, keys, Map(h, keys)) == Map(LevelMean(keys, h), Groups(Parent, keys))
  {
    var groups := Groups(Parent, keys);
    forall i | 0 <= i < |groups|
      ensures GroupMeans(Parent, keys, Map(h, keys))[i] == LevelMean(keys, h)(groups[i])
    {
      WithinMapped(Parent, keys, h, groups[i]);
    }
  }

  lemma InsideNonEmpty(keys: seq<Key>, k: Key)
    requires k in Groups(Parent, keys)
    ensures KeysIn(Parent, keys, k) != []
  {
    GroupsAre(Parent, keys, k);
    KeysInAre(Parent, keys, k);
    var i :| 0 <= i < |keys| && Parent(keys[i]) == k;
    assert keys[i] in keys;
  }

  // --- Stage 5 ------------------------------------------------------------------------------

  /** Areas of the champion and a comparator. */
  function BothAreas(c: Policy): PolicyEpisode -> Bootstrap.Areas {
    (e: PolicyEpisode) => (AreaOf(Champion)(e), AreaOf(c)(e))
  }

  /** The areas in the dictionary under a key. */
  function Lookup(records: seq<PolicyEpisode>, c: Policy, k: Key): Bootstrap.Areas {
    if records == [] then (0.0, 0.0)
    else
      var last := records[|records| - 1];
      if KeyOfEpisode(last) == k then BothAreas(c)(last) else Lookup(records[..|records| - 1], c, k)
  }

  function AreasAt(records: seq<PolicyEpisode>, c: Policy): Key -> Bootstrap.Areas {
    (k: Key) => Lookup(records, c, k)
  }

  function Cells4(records: seq<PolicyEpisode>): seq<Key> {
    Sort(Map(KeyOfEpisode, records), SeqLeq)
  }

  function Relabels(records: seq<PolicyEpisode>): seq<Key> {
    Groups(Parent, Map(KeyOfEpisode, records))
  }

  function GraphKeys(records: seq<PolicyEpisode>): seq<Key> {
    Groups(Parent, Relabels(records))
  }

  function SeedsOf(records: seq<PolicyEpisode>, c: Policy): Key -> Bootstrap.Seeds {
    (r: Key) => Map(AreasAt(records, c), KeysIn(Parent, Cells4(records), r))
  }

  function RelabelingsOf(records: seq<PolicyEpisode>, c: Policy): Key -> Bootstrap.Relabelings {
    (g: Key) => Map(SeedsOf(records, c), KeysIn(Parent, Relabels(records), g))
  }

  function GraphsOf(records: seq<PolicyEpisode>, c: Policy): Key -> Bootstrap.GraphCells {
    (o: Key) => Map(RelabelingsOf(records, c), KeysIn(Parent, GraphKeys(records), o))
  }

  /** Orders, graphs, relabelings and policy seeds, each in sorted order. */
  function DesignOf(records: seq<PolicyEpisode>, c: Policy): Bootstrap.Design {
    Map(GraphsOf(records, c), Groups(Parent, GraphKeys(records)))
  }

  lemma {:induction false} LookupFound(records: seq<PolicyEpisode>, c: Policy, k: Key) returns (i: nat)
    requires k in Map(KeyOfEpisode, records)
    ensures i < |records| && KeyOfEpisode(records[i]) == k && Lookup(records, c, k) == BothAreas(c)(records[i])
  {
    var n := |records| - 1;
    if KeyOfEpisode(records[n]) == k {
      i := n;
    } else {
      var j :| 0 <= j < |records| && Map(KeyOfEpisode, records)[j] == k;
      assert Map(KeyOfEpisode, records[..n])[j] == k;
      i := LookupFound(records[..n], c, k);
    }
  }

  lemma SortedCells(records: seq<PolicyEpisode>)
    ensures multiset(Cells4(records)) == multiset(Map(KeyOfEpisode, records))
    ensures forall k :: k in Cells4(records) <==> k in Map(KeyOfEpisode, records)
    ensures Groups(Parent, Cells4(records)) == Relabels(records)
  {
    SortPermutes(Map(KeyOfEpisode, records), SeqLeq);
    SameMembers(Cells4(records), Map(KeyOfEpisode, records));
    GroupsPermuted(Parent, Cells4(records), Map(KeyOfEpisode, records));
  }

  /** Every delta of an episode lies between lo and hi. */
  ghost predicate DeltasIn(records: seq<PolicyEpisode>, c: Policy, lo: real, hi: real) {
    forall i :: 0 <= i < |records| ==> Bootstrap.PairIn(lo, hi, BothAreas(c)(records[i]))
  }

  lemma SeedsIn(records: seq<PolicyEpisode>, c: Policy, r: Key, lo: real, hi: real)
    requires r in Relabels(records)
    ensures SeedsOf(records, c)(r) != []
    ensures DeltasIn(records, c, lo, hi) ==> Bootstrap.PairsIn(SeedsOf(records, c)(r), lo, hi)
  {
    SortedCells(records);
    InsideNonEmpty(Cells4(records), r);
    KeysInAre(Parent, Cells4(records), r);
    if DeltasIn(records, c, lo, hi) {
      var inside := KeysIn(Parent, Cells4(records), r);
      forall j | 0 <= j < |inside| ensures Bootstrap.PairIn(lo, hi, AreasAt(records, c)(inside[j])) {
        assert inside[j] in inside;
        var i := LookupFound(records, c, inside[j]);
      }
    }
  }

  lemma RelabelingsIn(records: seq<PolicyEpisode>, c: Policy, g: Key, lo: real, hi: real)
    requires g in GraphKeys(records)
    ensures Bootstrap.Filled(RelabelingsOf(records, c)(g))
    ensures DeltasIn(records, c, lo, hi) ==> Bootstrap.RelabelingsIn(RelabelingsOf(records, c)(g), lo, hi)
  {
    var inside := KeysIn(Parent, Relabels(records), g);
    InsideNonEmpty(Relabels(records), g);
    KeysInAre(Parent, Relabels(records), g);
    forall j | 0 <= j < |inside|
      ensures SeedsOf(records, c)(inside[j]) != []
      ensures DeltasIn(records, c, lo, hi) ==> Bootstrap.PairsIn(SeedsOf(records, c)(inside[j]), lo, hi)
    {
      assert inside[j] in inside;
      SeedsIn(records, c, inside[j], lo, hi);
    }
  }

  lemma GraphsIn(records: seq<PolicyEpisode>, c: Policy, o: Key, lo: real, hi: real)
    requires o in Groups(Parent, GraphKeys(records))
    ensures Bootstrap.FilledGraphs(GraphsOf(records, c)(o))
    ensures DeltasIn(records, c, lo, hi) ==> Bootstrap.GraphsIn(GraphsOf(records, c)(o), lo, hi)
  {
    var inside := KeysIn(Parent, GraphKeys(records), o);
    InsideNonEmpty(GraphKeys(records), o);
    KeysInAre(Parent, GraphKeys(records), o);
    forall j | 0 <= j < |inside|
      ensures Bootstrap.Filled(RelabelingsOf(records, c)(inside[j]))
      ensures DeltasIn(records, c, lo, hi) ==> Bootstrap.RelabelingsIn(RelabelingsOf(records, c)(inside[j]), lo, hi)
    {
      assert inside[j] in inside;
      RelabelingsIn(records, c, inside[j], lo, hi);
    }
  }

  /** No level of the design is empty, and any bounds of the episode deltas bound the design. */
  lemma DesignInHull(records: seq<PolicyEpisode>, c: Policy, lo: real, hi: real)
    requires records != []
    ensures Bootstrap.FilledDesign(DesignOf(records, c))
    ensures DeltasIn(records, c, lo, hi) ==> Bootstrap.DesignIn(DesignOf(records, c), lo, hi)
  {
    var orders := Groups(Parent, GraphKeys(records));
    GroupsNonEmpty(Parent, Map(KeyOfEpisode, records));
    GroupsNonEmpty(Parent, Relabels(records));
    GroupsNonEmpty(Parent, GraphKeys(records));
    forall i | 0 <= i < |orders|
      ensures Bootstrap.FilledGraphs(GraphsOf(records, c)(orders[i]))
      ensures DeltasIn(records, c, lo, hi) ==> Bootstrap.GraphsIn(GraphsOf(records, c)(orders[i]), lo, hi)
    {
      assert orders[i] in orders;
      GraphsIn(records, c, orders[i], lo, hi);
    }
  }

  lemma UnitDeltas(records: seq<PolicyEpisode>, c: Policy)
    requires Gates.UnitAreas(records)
    ensures DeltasIn(records, c, -1.0, 1.0)
  {
    forall i, p | 0 <= i < |records| ensures 0.0 <= AreaOf(p)(records[i]) <= 1.0 {
      assert p in records[i].areas ==> 0.0 <= records[i].areas[p] <= 1.0;
    }
    forall i | 0 <= i < |records| ensures Bootstrap.PairIn(-1.0, 1.0, BothAreas(c)(records[i])) {
      assert 0.0 <= AreaOf(Champion)(records[i]) <= 1.0 && 0.0 <= AreaOf(c)(records[i]) <= 1.0;
    }
  }

  datatype Intervals = Intervals(stage3: (real, real), random: (real, real), structural: (real, real))

  ghost predicate InHull(records: seq<PolicyEpisode>, c: Policy, interval: (real, real)) {
    && (forall lo, hi :: DeltasIn(records, c, lo, hi) ==> lo <= interval.0 <= interval.1 <= hi)
    && (Gates.UnitAreas(records) ==> -1.0 <= interval.0 <= interval.1 <= 1.0)
  }

  /** The interval is that of the draws from the records, all effects over the same streams. */
  ghost predicate IsInterval(records: seq<PolicyEpisode>, c: Policy, samples: int, streams: nat -> Bootstrap.Stream,
                             confidence: real, interval: (real, real)) {
    && records != [] && samples >= 1 && 0.0 < confidence < 1.0 && Bootstrap.FilledDesign(DesignOf(records, c))
    && interval == Percentiles.Interval(Bootstrap.Draws(DesignOf(records, c), samples, streams), confidence)
  }

  method EffectInterval(records: seq<PolicyEpisode>, c: Policy, samples: int, streams: nat -> Bootstrap.Stream,
                        confidence: real)
    returns (interval: (real, real))
    requires records != [] && samples >= 1 && 0.0 < confidence < 1.0
    ensures IsInterval(records, c, samples, streams, confidence, interval) && InHull(records, c, interval)
  {
    DesignInHull(records, c, 0.0, 0.0);
    var r := Bootstrap.BootstrapStage5(DesignOf(records, c), samples, streams, confidence);
    interval := r.value;
    forall lo, hi | DeltasIn(records, c, lo, hi) ensures lo <= interval.0 <= interval.1 <= hi {
      DesignInHull(records, c, lo, hi);
    }
    if Gates.UnitAreas(records) {
      UnitDeltas(records, c);
    }
  }

  /**
    The intervals of all effects of a summary: the draws share their streams, and every interval is ordered, in the
    hull of the episode deltas of its effect, and in [-1, 1] for areas of valid curves.
   */
  method BootstrapEffects(records: seq<PolicyEpisode>, samples: int, streams: nat -> Bootstrap.Stream, confidence: real)
    returns (r: Result<Intervals, Bootstrap.BootstrapError>)
    requires records != []
    ensures r.Success? <==> samples >= 1 && 0.0 < confidence < 1.0
    ensures r.Success? ==> IsInterval(records, Stage3, samples, streams, confidence, r.value.stage3)
                           && IsInterval(records, Random, samples, streams, confidence, r.value.random)
                           && IsInterval(records, Structural, samples, streams, confidence, r.value.structural)
    ensures r.Success? ==> InHull(records, Stage3, r.value.stage3) && InHull(records, Random, r.value.random)
                           && InHull(records, Structural, r.value.structural)
  {
    if samples < 1 {
      return Failure(Bootstrap.NoSamples);
    }
    if !(0.0 < confidence < 1.0) {
      return Failure(Bootstrap.BadConfidence);
    }
    var stage3 := EffectInterval(records, Stage3, samples, streams, confidence);
    var random := EffectInterval(records, Random, samples, streams, confidence);
    var structural := EffectInterval(records, Structural, samples, streams, confidence);
    r := Success(Intervals(stage3, random, structural));
  }

  // --- The design and the summary -----------------------------------------------------------

  /** A mean of both policies, without drawing. */
  function Both(pairs: seq<Bootstrap.Areas>): Bootstrap.Areas {
    (MeanOr0(Bootstrap.Firsts(pairs)), MeanOr0(Bootstrap.Seconds(pairs)))
  }

  function GraphMean(r: Bootstrap.Relabelings): Bootstrap.Areas {
    Both(Map(Both, r))
  }

  function OrderMean(g: Bootstrap.GraphCells): Bootstrap.Areas {
    Both(Map(GraphMean, g))
  }

  /** The means of both policies over a design as it is. */
  function DesignMean(d: Bootstrap.Design): Bootstrap.Areas {
    Both(Map(OrderMean, d))
  }

  /** Means of pairs under a key are pairs of means. */
  lemma BothMapped(f: Key -> Bootstrap.Areas, x: Key -> real, y: Key -> real, keys: seq<Key>)
    requires forall k :: f(k) == (x(k), y(k))
    ensures Both(Map(f, keys)) == (MeanOr0(Map(x, keys)), MeanOr0(Map(y, keys)))
  {
    assert Bootstrap.Firsts(Map(f, keys)) == Map(x, keys);
    assert Bootstrap.Seconds(Map(f, keys)) == Map(y, keys);
  }

  lemma Composed<A, B, C>(f: A -> B, g: B -> C, s: seq<A>, h: A -> C)
    requires forall a :: h(a) == g(f(a))
    ensures Map(g, Map(f, s)) == Map(h, s)
  {}

  function First(records: seq<PolicyEpisode>, c: Policy): Key -> real {
    (k: Key) => AreasAt(records, c)(k).0
  }

  function Second(records: seq<PolicyEpisode>, c: Policy): Key -> real {
    (k: Key) => AreasAt(records, c)(k).1
  }

  /** Pairs of means under one level are the pair of the level's means. */
  lemma LevelOfBoth(keys: seq<Key>, f: Key -> Bootstrap.Areas, x: Key -> real, y: Key -> real,
                    g: Key -> Bootstrap.Areas)
    requires forall k :: f(k) == (x(k), y(k))
    requires forall k :: g(k) == Both(Map(f, KeysIn(Parent, keys, k)))
    ensures forall k :: g(k) == (LevelMean(keys, x)(k), LevelMean(keys, y)(k))
  {
    forall k ensures g(k) == (LevelMean(keys, x)(k), LevelMean(keys, y)(k)) {
      BothMapped(f, x, y, KeysIn(Parent, keys, k));
    }
  }

  function RelabelBoth(records: seq<PolicyEpisode>, c: Policy): Key -> Bootstrap.Areas {
    (r: Key) => Both(SeedsOf(records, c)(r))
  }

  function GraphBoth(records: seq<PolicyEpisode>, c: Policy): Key -> Bootstrap.Areas {
    (g: Key) => GraphMean(RelabelingsOf(records, c)(g))
  }

  function OrderBoth(records: seq<PolicyEpisode>, c: Policy): Key -> Bootstrap.Areas {
    (o: Key) => OrderMean(GraphsOf(records, c)(o))
  }

  lemma RelabelBothAt(records: seq<PolicyEpisode>, c: Policy, r: Key)
    ensures RelabelBoth(records, c)(r) == Both(Map(AreasAt(records, c), KeysIn(Parent, Cells4(records), r)))
  {
    assert SeedsOf(records, c)(r) == Map(AreasAt(records, c), KeysIn(Parent, Cells4(records), r));
  }

  lemma GraphBothAt(records: seq<PolicyEpisode>, c: Policy, g: Key)
    ensures GraphBoth(records, c)(g) == Both(Map(RelabelBoth(records, c), KeysIn(Parent, Relabels(records), g)))
  {
    var inside := KeysIn(Parent, Relabels(records), g);
    Composed(SeedsOf(records, c), Both, inside, RelabelBoth(records, c));
    assert RelabelingsOf(records, c)(g) == Map(SeedsOf(records, c), inside);
  }

  lemma OrderBothAt(records: seq<PolicyEpisode>, c: Policy, o: Key)
    ensures OrderBoth(records, c)(o) == Both(Map(GraphBoth(records, c), KeysIn(Parent, GraphKeys(records), o)))
  {
    var inside := KeysIn(Parent, GraphKeys(records), o);
    Composed(RelabelingsOf(records, c), GraphMean, inside, GraphBoth(records, c));
    assert GraphsOf(records, c)(o) == Map(RelabelingsOf(records, c), inside);
  }

  /** The means of the design are means of levels of keys. */
  lemma DesignByLevels(records: seq<PolicyEpisode>, c: Policy, x: Key -> real, y: Key -> real)
    requires x == First(records, c) && y == Second(records, c)
    ensures DesignMean(DesignOf(records, c)) == (Levels4(records, x), Levels4(records, y))
  {
    var cells, relabels, graphs := Cells4(records), Relabels(records), GraphKeys(records);
    var x1, y1 := LevelMean(cells, x), LevelMean(cells, y);
    var x2, y2 := LevelMean(relabels, x1), LevelMean(relabels, y1);
    forall r ensures RelabelBoth(records, c)(r) == Both(Map(AreasAt(records, c), KeysIn(Parent, cells, r))) {
      RelabelBothAt(records, c, r);
    }
    LevelOfBoth(cells, AreasAt(records, c), x, y, RelabelBoth(records, c));
    forall g ensures GraphBoth(records, c)(g) == Both(Map(RelabelBoth(records, c), KeysIn(Parent, relabels, g))) {
      GraphBothAt(records, c, g);
    }
    LevelOfBoth(relabels, RelabelBoth(records, c), x1, y1, GraphBoth(records, c));
    forall o ensures OrderBoth(records, c)(o) == Both(Map(GraphBoth(records, c), KeysIn(Parent, graphs, o))) {
      OrderBothAt(records, c, o);
    }
    LevelOfBoth(graphs, GraphBoth(records, c), x2, y2, OrderBoth(records, c));
    var orders := Groups(Parent, graphs);
    Composed(GraphsOf(records, c), OrderMean, orders, OrderBoth(records, c));
    BothMapped(OrderBoth(records, c), LevelMean(graphs, x2), LevelMean(graphs, y2), orders);
  }

  /** Values under the cells, averaged relabeling by relabeling, graph by graph and order by order. */
  function Levels4(records: seq<PolicyEpisode>, h: Key -> real): real {
    var h1 := LevelMean(Cells4(records), h);
    var h2 := LevelMean(Relabels(records), h1);
    var h3 := LevelMean(GraphKeys(records), h2);
    MeanOr0(Map(h3, Groups(Parent, GraphKeys(records))))
  }

  lemma LevelsAreTop(records: seq<PolicyEpisode>, h: Key -> real)
    ensures Levels4(records, h) == MeanOr0(Top(Map(KeyOfEpisode, records), Map(h, Map(KeyOfEpisode, records)), 3))
  {
    var keys, cells := Map(KeyOfEpisode, records), Cells4(records);
    var relabels, graphs := Relabels(records), GraphKeys(records);
    var h1 := LevelMean(cells, h);
    var h2 := LevelMean(relabels, h1);
    SortedCells(records);
    CellsOfKeys(keys, cells, h);
    GroupMeansPermuted(Parent, keys, Map(h, keys), cells, Map(h, cells));
    LevelMeans(cells, h);
    LevelMeans(relabels, h1);
    LevelMeans(graphs, h2);
    TopThree(keys, Map(h, keys), relabels, Map(h1, relabels), graphs, Map(h2, graphs));
  }

  lemma TopThree(keys: seq<Key>, values: seq<real>, relabels: seq<Key>, r: seq<real>, graphs: seq<Key>, g: seq<real>)
    requires |keys| == |values| && relabels == Groups(Parent, keys) && r == GroupMeans(Parent, keys, values)
    requires graphs == Groups(Parent, relabels) && g == GroupMeans(Parent, relabels, r)
    ensures Top(keys, values, 3) == GroupMeans(Parent, graphs, g)
  {
    assert Top(graphs, g, 1) == Top(Groups(Parent, graphs), GroupMeans(Parent, graphs, g), 0);
  }

  lemma CellsOfKeys(a: seq<Key>, b: seq<Key>, h: Key -> real)
    requires multiset(a) == multiset(b)
    ensures multiset(Cells(a, Map(h, a))) == multiset(Cells(b, Map(h, b)))
  {
    var cell := (k: Key) => (k, h(k));
    MapMultiset(cell, a, b);
    assert Map(cell, a) == Cells(a, Map(h, a)) && Map(cell, b) == Cells(b, Map(h, b));
  }

  lemma LookupOf(records: seq<PolicyEpisode>, c: Policy, i: nat)
    requires RecordsOk(records) && i < |records|
    ensures First(records, c)(KeyOfEpisode(records[i])) == AreaOf(Champion)(records[i])
    ensures Second(records, c)(KeyOfEpisode(records[i])) == AreaOf(c)(records[i])
  {
    var k := KeyOfEpisode(records[i]);
    assert Map(KeyOfEpisode, records)[i] == k;
    var j := LookupFound(records, c, k);
    assert i == j;
    assert AreasAt(records, c)(k) == BothAreas(c)(records[i]);
  }

  lemma LookupUnique(records: seq<PolicyEpisode>, c: Policy)
    requires RecordsOk(records)
    ensures Map(First(records, c), Map(KeyOfEpisode, records)) == Map(AreaOf(Champion), records)
    ensures Map(Second(records, c), Map(KeyOfEpisode, records)) == Map(AreaOf(c), records)
  {
    forall i | 0 <= i < |records|
      ensures First(records, c)(KeyOfEpisode(records[i])) == AreaOf(Champion)(records[i])
      ensures Second(records, c)(KeyOfEpisode(records[i])) == AreaOf(c)(records[i])
    {
      LookupOf(records, c, i);
    }
  }

  /** Without drawing, the design has the means of the summary: what is resampled is what was observed. */
  lemma DesignIsSummary(records: seq<PolicyEpisode>, c: Policy)
    requires RecordsOk(records)
    ensures DesignMean(DesignOf(records, c)) == (PolicyMean(records, Champion), PolicyMean(records, c))
  {
    DesignByLevels(records, c, First(records, c), Second(records, c));
    LookupUnique(records, c);
    LevelsAreTop(records, First(records, c));
    LevelsAreTop(records, Second(records, c));
  }

  // --- Stage 4E -----------------------------------------------------------------------------

  /** The episodes of a summary are sorted by order, graph seed and identifier. */
  predicate PairedLeq(a: PairedEpisode, b: PairedEpisode) {
    if a.order != b.order then a.order < b.order
    else if a.graphSeed != b.graphSeed then a.graphSeed < b.graphSeed
    else StringLeq(a.id, b.id)
  }

  function DeltaOf(e: PairedEpisode): real {
    MeanOr0(e.candidate) - MeanOr0(e.comparator)
  }

  function PairedCells(episodes: seq<PairedEpisode>): seq<Key> {
    Map(CellOf, Sort(episodes, PairedLeq))
  }

  function PairedDeltas(episodes: seq<PairedEpisode>): seq<real> {
    Map(DeltaOf, Sort(episodes, PairedLeq))
  }

  /** The deltas of a graph. */
  function DeltasOf(episodes: seq<PairedEpisode>): Key -> seq<real> {
    (g: Key) => Within(Parent, PairedCells(episodes), PairedDeltas(episodes), g)
  }

  function PairedGraphsOf(episodes: seq<PairedEpisode>): Key -> seq<seq<real>> {
    (o: Key) => Map(DeltasOf(episodes), KeysIn(Parent, Groups(Parent, PairedCells(episodes)), o))
  }

  function PairedDesignOf(episodes: seq<PairedEpisode>): Bootstrap.PairedDesign {
    Map(PairedGraphsOf(episodes), Groups(Parent, Groups(Parent, PairedCells(episodes))))
  }

  ghost predicate PairedDeltasIn(episodes: seq<PairedEpisode>, lo: real, hi: real) {
    forall e :: e in episodes ==> lo <= DeltaOf(e) <= hi
  }

  lemma GraphDeltasIn(episodes: seq<PairedEpisode>, g: Key, lo: real, hi: real)
    requires g in Groups(Parent, PairedCells(episodes))
    ensures DeltasOf(episodes)(g) != []
    ensures PairedDeltasIn(episodes, lo, hi) ==> Percentiles.Bounded(DeltasOf(episodes)(g), lo, hi)
  {
    var sorted := Sort(episodes, PairedLeq);
    GroupsAre(Parent, PairedCells(episodes), g);
    WithinNonEmpty(Parent, PairedCells(episodes), PairedDeltas(episodes), g);
    if PairedDeltasIn(episodes, lo, hi) {
      SortPermutes(episodes, PairedLeq);
      forall i | 0 <= i < |sorted| ensures lo <= DeltaOf(sorted[i]) <= hi {
        assert sorted[i] in multiset(sorted) && sorted[i] in multiset(episodes);
      }
      Gates.WithinBetween(Parent, PairedCells(episodes), PairedDeltas(episodes), g, lo, hi);
    }
  }

  lemma OrderDeltasIn(episodes: seq<PairedEpisode>, o: Key, lo: real, hi: real)
    requires o in Groups(Parent, Groups(Parent, PairedCells(episodes)))
    ensures Bootstrap.Filled(PairedGraphsOf(episodes)(o))
    ensures PairedDeltasIn(episodes, lo, hi) ==> Bootstrap.PairedGraphsIn(PairedGraphsOf(episodes)(o), lo, hi)
  {
    var graphs := Groups(Parent, PairedCells(episodes));
    var inside := KeysIn(Parent, graphs, o);
    InsideNonEmpty(graphs, o);
    KeysInAre(Parent, graphs, o);
    forall j | 0 <= j < |inside|
      ensures DeltasOf(episodes)(inside[j]) != []
      ensures PairedDeltasIn(episodes, lo, hi) ==> Percentiles.Bounded(DeltasOf(episodes)(inside[j]), lo, hi)
    {
      assert inside[j] in inside;
      GraphDeltasIn(episodes, inside[j], lo, hi);
    }
  }

  lemma PairedDesignInHull(episodes: seq<PairedEpisode>, lo: real, hi: real)
    requires episodes != []
    ensures Bootstrap.FilledPaired(PairedDesignOf(episodes))
    ensures PairedDeltasIn(episodes, lo, hi) ==> Bootstrap.PairedIn(PairedDesignOf(episodes), lo, hi)
  {
    var graphs := Groups(Parent, PairedCells(episodes));
    var orders := Groups(Parent, graphs);
    SortPermutes(episodes, PairedLeq);
    assert |Sort(episodes, PairedLeq)| == |multiset(episodes)| == |episodes|;
    GroupsNonEmpty(Parent, PairedCells(episodes));
    GroupsNonEmpty(Parent, graphs);
    forall i | 0 <= i < |orders|
      ensures Bootstrap.Filled(PairedGraphsOf(episodes)(orders[i]))
      ensures PairedDeltasIn(episodes, lo, hi) ==> Bootstrap.PairedGraphsIn(PairedGraphsOf(episodes)(orders[i]), lo, hi)
    {
      assert orders[i] in orders;
      OrderDeltasIn(episodes, orders[i], lo, hi);
    }
  }

  lemma UnitPairedDeltas(episodes: seq<PairedEpisode>)
    requires EpisodesOk(episodes)
    ensures PairedDeltasIn(episodes, -1.0, 1.0)
  {
    forall e | e in episodes ensures -1.0 <= DeltaOf(e) <= 1.0 {
      var i :| 0 <= i < |episodes| && episodes[i] == e;
      assert EpisodeOk(episodes[i]);
      MeanBetween(e.candidate, 0.0, 1.0);
      MeanBetween(e.comparator, 0.0, 1.0);
    }
  }

  /** The interval of the stage 4E theta of the episodes: ordered, in the hull of their deltas, and in [-1, 1]. */
  method BootstrapPaired(episodes: seq<PairedEpisode>, samples: int, streams: nat -> Bootstrap.Stream, confidence: real)
    returns (r: Result<(real, real), Bootstrap.BootstrapError>)
    requires episodes != [] && EpisodesOk(episodes)
    ensures r.Success? <==> samples >= 1 && 0.0 < confidence < 1.0
    ensures r.Success? ==> Bootstrap.FilledPaired(PairedDesignOf(episodes))
                           && r.value
                              == Percentiles.Interval(Bootstrap.PairedDraws(PairedDesignOf(episodes), samples, streams),
                                                            confidence)
    ensures r.Success? ==> forall lo, hi :: PairedDeltasIn(episodes, lo, hi) ==> lo <= r.value.0 <= r.value.1 <= hi
    ensures r.Success? ==> -1.0 <= r.value.0 <= r.value.1 <= 1.0
  {
    PairedDesignInHull(episodes, 0.0, 0.0);
    r := Bootstrap.BootstrapPairedTheta(PairedDesignOf(episodes), samples, streams, confidence);
    if r.Success? {
      forall lo, hi | PairedDeltasIn(episodes, lo, hi) ensures lo <= r.value.0 <= r.value.1 <= hi {
        PairedDesignInHull(episodes, lo, hi);
      }
      UnitPairedDeltas(episodes);
    }
  }

  function PairedOrderMean(g: seq<seq<real>>): real {
    MeanOr0(Map(MeanOr0, g))
  }

  /** The mean over a design as it is. */
  function PairedDesignMean(d: Bootstrap.PairedDesign): real {
    MeanOr0(Map(PairedOrderMean, d))
  }

  function GraphDelta(episodes: seq<PairedEpisode>): Key -> real {
    (g: Key) => MeanOr0(DeltasOf(episodes)(g))
  }

  lemma GraphDeltas(episodes: seq<PairedEpisode>)
    ensures GroupMeans(Parent, PairedCells(episodes), PairedDeltas(episodes))
            == Map(GraphDelta(episodes), Groups(Parent, PairedCells(episodes)))
  {
    var graphs := Groups(Parent, PairedCells(episodes));
    forall i | 0 <= i < |graphs|
      ensures GroupMeans(Parent, PairedCells(episodes), PairedDeltas(episodes))[i] == GraphDelta(episodes)(graphs[i])
    {
      assert DeltasOf(episodes)(graphs[i]) == Within(Parent, PairedCells(episodes), PairedDeltas(episodes), graphs[i]);
    }
  }

  lemma OrderDeltas(episodes: seq<PairedEpisode>, graphs: seq<Key>)
    requires graphs == Groups(Parent, PairedCells(episodes))
    ensures forall o :: PairedOrderMean(PairedGraphsOf(episodes)(o)) == LevelMean(graphs, GraphDelta(episodes))(o)
  {
    forall o ensures PairedOrderMean(PairedGraphsOf(episodes)(o)) == LevelMean(graphs, GraphDelta(episodes))(o) {
      Composed(DeltasOf(episodes), MeanOr0, KeysIn(Parent, graphs, o), GraphDelta(episodes));
    }
  }

  lemma TopTwo(cells: seq<Key>, deltas: seq<real>, graphs: seq<Key>, g: seq<real>)
    requires |cells| == |deltas| && graphs == Groups(Parent, cells) && g == GroupMeans(Parent, cells, deltas)
    ensures Top(cells, deltas, 2) == GroupMeans(Parent, graphs, g)
  {
    assert Top(graphs, g, 1) == Top(Groups(Parent, graphs), GroupMeans(Parent, graphs, g), 0);
  }

  /** Without drawing, the design has the theta of the summary. */
  lemma PairedDesignIsSummary(episodes: seq<PairedEpisode>)
    ensures PairedDesignMean(PairedDesignOf(episodes)) == PairedMean(episodes, Map(DeltaOf, episodes))
  {
    SortPermutes(episodes, PairedLeq);
    PairedMeanPermuted(Sort(episodes, PairedLeq), episodes, DeltaOf);
    var cells, deltas := PairedCells(episodes), PairedDeltas(episodes);
    var graphs := Groups(Parent, cells);
    GraphDeltas(episodes);
    LevelMeans(graphs, GraphDelta(episodes));
    TopTwo(cells, deltas, graphs, Map(GraphDelta(episodes), graphs));
    OrderDeltas(episodes, graphs);
    Composed(PairedGraphsOf(episodes), PairedOrderMean, Groups(Parent, graphs),
             LevelMean(graphs, GraphDelta(episodes)));
  }
}
