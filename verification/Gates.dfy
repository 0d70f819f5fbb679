/** When the order-relabel strata of stage 5 decide the gate on every order, and when they average to it. */
module Gates {
  import opened Sorting
  import opened Means
  import opened Strata
  import opened Summaries
  import Graphs

  /** Areas of curves that stay in the unit interval. */
  ghost predicate UnitAreas(records: seq<PolicyEpisode>) {
    forall i, p :: 0 <= i < |records| && p in records[i].areas ==> 0.0 <= records[i].areas[p] <= 1.0
  }

  /** Records that stage 5 summarizes. */
  ghost predicate Summarizable(records: seq<PolicyEpisode>) {
    records != [] && RecordsOk(records) && UnitAreas(records) && PolicyMean(records, Structural) != 0.0
  }

  /** The records are about these cells (order, graph seed, relabeling seed, policy seed). */
  ghost predicate OfDesign(records: seq<PolicyEpisode>, cells: seq<Key>) {
    Summarizable(records) && Map(KeyOfEpisode, records) == cells
  }

  /** Whatever the areas, strata that pass the gate make every order pass it. */
  ghost predicate StrataDecideOrders(cells: seq<Key>, c: Policy) {
    forall records, e :: OfDesign(records, cells) && IsEffect(records, c, e) && NonNegative(e.stratumDeltas) ==>
                           NonNegative(e.orderDeltas)
  }

  /** Whatever the areas, strata that pass the gate make theta non-negative. */
  ghost predicate StrataDecideTheta(cells: seq<Key>, c: Policy) {
    forall records, e :: OfDesign(records, cells) && IsEffect(records, c, e) && NonNegative(e.stratumDeltas) ==>
                           e.theta >= 0.0
  }

  ghost predicate IsDesign(cells: seq<Key>) {
    cells != [] && Graphs.Distinct(cells) && forall i :: 0 <= i < |cells| ==> |cells[i]| == 4
  }

  // --- Sufficiency --------------------------------------------------------------------------

  lemma RelabelKeysHaveThree(cells: seq<Key>)
    requires forall i :: 0 <= i < |cells| ==> |cells[i]| == 4
    ensures RelabelKeys(Groups(Parent, cells)) && Graphs.Distinct(Groups(Parent, cells))
    ensures Sorted(Groups(Parent, cells), SeqLeq)
  {
    var relabels := Groups(Parent, cells);
    GroupsDistinct(Parent, cells);
    forall i | 0 <= i < |relabels| ensures |relabels[i]| == 3 {
      assert relabels[i] in relabels;
      GroupsAre(Parent, cells, relabels[i]);
    }
  }

  /** The orders of an effect are two levels above its relabelings. */
  lemma OrdersOfRelabels(records: seq<PolicyEpisode>, c: Policy, e: Effect)
    requires IsEffect(records, c, e)
    ensures |e.relabels| == |e.relabelDeltas| && e.orderDeltas == Top(e.relabels, e.relabelDeltas, 2)
    ensures e.stratumDeltas == GroupMeans(StratumOf, e.relabels, e.relabelDeltas)
  {}

  /** In an even design the gate on all strata implies the gate on every order and a non-negative theta. */
  lemma Stage5Gate(records: seq<PolicyEpisode>, c: Policy, e: Effect)
    requires records != [] && IsEffect(records, c, e) && Even(e.relabels) && NonNegative(e.stratumDeltas)
    ensures NonNegative(e.orderDeltas) && e.theta >= 0.0
  {
    RelabelKeysHaveThree(Map(KeyOfEpisode, records));
    GroupsNonEmpty(Parent, Map(KeyOfEpisode, records));
    OrdersOfRelabels(records, c, e);
    StrataGateImpliesOrderGate(e.relabels, e.relabelDeltas);
  }

  // --- Necessity ----------------------------------------------------------------------------

  const QUARTER := 0.25
  const HALF := 0.5

  /** Every policy has the same area, except that the comparator misses it by a value of the relabeling. */
  function Skewed(c: Policy, h: Key -> real): Key -> PolicyEpisode {
    (k: Key) => PolicyEpisode(At(k, 0), At(k, 1), At(k, 2), At(k, 3), SkewedAreas(c, h(Parent(k))))
  }

  function SkewedAreas(c: Policy, delta: real): map<Policy, real> {
    map p | p in ROSTER :: if p == c then HALF - delta else HALF
  }

  function At(k: Key, i: nat): int {
    if i < |k| then k[i] else 0
  }

  ghost predicate Small(h: Key -> real) {
    forall k :: -QUARTER <= h(k) <= QUARTER
  }

  /** The episode is about its cell, its areas are between 1/4 and 3/4, and its delta is the value of its relabeling. */
  lemma SkewedEpisode(c: Policy, h: Key -> real, k: Key)
    requires |k| == 4 && c != Champion && Small(h)
    ensures var e := Skewed(c, h)(k);
            && KeyOfEpisode(e) == k && e.areas.Keys == ROSTER
            && (forall p :: QUARTER <= AreaOf(p)(e) <= 0.75)
            && AreaOf(Champion)(e) - AreaOf(c)(e) == h(Parent(k))
  {
    SkewedAreasAre(c, h(Parent(k)));
  }

  lemma SkewedAreasAre(c: Policy, delta: real)
    requires c != Champion && -QUARTER <= delta <= QUARTER
    ensures var areas := SkewedAreas(c, delta);
            && areas.Keys == ROSTER && areas[Champion] - areas[c] == delta
            && forall p :: p in ROSTER && QUARTER <= areas[p] <= 0.75
  {
    forall p: Policy ensures p in ROSTER {
      match p
      case Champion =>
      case Stage3 =>
      case Random =>
      case Structural =>
    }
  }

  lemma SkewedRecords(cells: seq<Key>, c: Policy, h: Key -> real)
    requires IsDesign(cells) && c != Champion && Small(h)
    ensures OfDesign(Map(Skewed(c, h), cells), cells)
  {
    var records := Map(Skewed(c, h), cells);
    forall i | 0 <= i < |cells|
      ensures KeyOfEpisode(records[i]) == cells[i] && records[i].areas.Keys == ROSTER
      ensures forall p :: QUARTER <= AreaOf(p)(records[i]) <= 0.75
    {
      SkewedEpisode(c, h, cells[i]);
    }
    assert Map(KeyOfEpisode, records) == cells;
    AreasSummarizable(records, cells);
  }

  lemma AreasSummarizable(records: seq<PolicyEpisode>, cells: seq<Key>)
    requires IsDesign(cells) && Map(KeyOfEpisode, records) == cells
    requires forall i :: 0 <= i < |records| ==> records[i].areas.Keys == ROSTER
    requires forall i, p :: 0 <= i < |records| ==> QUARTER <= AreaOf(p)(records[i]) <= 0.75
    ensures Summarizable(records)
  {
    assert forall i :: 0 <= i < |records| ==> KeyOfEpisode(records[i]) == cells[i];
    forall i, p | 0 <= i < |records| && p in records[i].areas ensures 0.0 <= records[i].areas[p] <= 1.0 {
      assert QUARTER <= AreaOf(p)(records[i]) <= 0.75;
    }
    var areas := Map(AreaOf(Structural), records);
    TopBetween(cells, areas, 3, QUARTER, 1.0);
    MeanBetween(Top(cells, areas, 3), QUARTER, 1.0);
  }

  function OfParent(h: Key -> real): Key -> real {
    (k: Key) => h(Parent(k))
  }

  lemma SkewedDeltas(cells: seq<Key>, c: Policy, h: Key -> real)
    requires IsDesign(cells) && c != Champion && Small(h)
    ensures Deltas(Map(Skewed(c, h), cells), c) == Map(OfParent(h), cells)
  {
    forall i | 0 <= i < |cells| ensures Deltas(Map(Skewed(c, h), cells), c)[i] == h(Parent(cells[i])) {
      SkewedEpisode(c, h, cells[i]);
    }
  }

  /** A value that depends on the group alone is the mean of the group. */
  lemma ConstantGroups(f: Key -> Key, keys: seq<Key>, h: Key -> real, g: Key -> real)
    requires forall k :: g(k) == h(f(k))
    ensures GroupMeans(f, keys, Map(g, keys)) == Map(h, Groups(f, keys))
  {
    var groups := Groups(f, keys);
    forall i | 0 <= i < |groups| ensures MeanOr0(Within(f, keys, Map(g, keys), groups[i])) == h(groups[i]) {
      assert groups[i] in groups;
      GroupsAre(f, keys, groups[i]);
      WithinNonEmpty(f, keys, Map(g, keys), groups[i]);
      WithinMapped(f, keys, g, groups[i]);
      KeysInAre(f, keys, groups[i]);
      var inside := KeysIn(f, keys, groups[i]);
      assert forall j :: 0 <= j < |inside| ==> inside[j] in inside;
      MeanConstant(Map(g, inside), h(groups[i]));
    }
  }

  lemma MeanConstant(s: seq<real>, c: real)
    requires s != [] && forall i :: 0 <= i < |s| ==> s[i] == c
    ensures Mean(s) == c
  {
    MeanBetween(s, c, c);
  }

  lemma {:induction false} WithinBetween(f: Key -> Key, keys: seq<Key>, values: seq<real>, k: Key, lo: real, hi: real)
    requires |keys| == |values| && forall i :: 0 <= i < |values| ==> lo <= values[i] <= hi
    ensures forall i :: 0 <= i < |Within(f, keys, values, k)| ==> lo <= Within(f, keys, values, k)[i] <= hi
  {
    if keys != [] {
      WithinBetween(f, keys[..|keys| - 1], values[..|keys| - 1], k, lo, hi);
    }
  }

  lemma MeansBetween(keys: seq<Key>, values: seq<real>, lo: real, hi: real)
    requires |keys| == |values| && forall i :: 0 <= i < |values| ==> lo <= values[i] <= hi
    ensures forall i :: 0 <= i < |GroupMeans(Parent, keys, values)| ==> lo <= GroupMeans(Parent, keys, values)[i] <= hi
  {
    var groups := Groups(Parent, keys);
    forall i | 0 <= i < |groups| ensures lo <= MeanOr0(Within(Parent, keys, values, groups[i])) <= hi {
      assert groups[i] in groups;
      GroupsAre(Parent, keys, groups[i]);
      WithinNonEmpty(Parent, keys, values, groups[i]);
      WithinBetween(Parent, keys, values, groups[i], lo, hi);
      MeanBetween(Within(Parent, keys, values, groups[i]), lo, hi);
    }
  }

  /** At every level the means lie between any bounds of the values. */
  lemma {:induction false} TopBetween(keys: seq<Key>, values: seq<real>, depth: nat, lo: real, hi: real)
    requires |keys| == |values| && keys != [] && forall i :: 0 <= i < |values| ==> lo <= values[i] <= hi
    ensures Top(keys, values, depth) != []
    ensures forall i :: 0 <= i < |Top(keys, values, depth)| ==> lo <= Top(keys, values, depth)[i] <= hi
    decreases depth
  {
    if depth > 0 {
      MeansBetween(keys, values, lo, hi);
      GroupsNonEmpty(Parent, keys);
      TopBetween(Groups(Parent, keys), GroupMeans(Parent, keys, values), depth - 1, lo, hi);
    }
  }

  /** Every list of records has an effect. */
  lemma EffectExists(records: seq<PolicyEpisode>, c: Policy) returns (e: Effect)
    requires records != []
    ensures IsEffect(records, c, e)
  {
    var keys, deltas := Map(KeyOfEpisode, records), Deltas(records, c);
    var relabels, relabelDeltas := Groups(Parent, keys), GroupMeans(Parent, keys, deltas);
    var strata, stratumDeltas := Groups(StratumOf, relabels), GroupMeans(StratumOf, relabels, relabelDeltas);
    var graphDeltas, orderDeltas := GroupMeans(Parent, relabels, relabelDeltas), Top(keys, deltas, 3);
    ThetaIsDifference(records, c);
    e := Effect(Mean(orderDeltas), orderDeltas, graphDeltas, relabels, relabelDeltas, strata, stratumDeltas,
                SignTable(SignCounts(deltas), SignCounts(relabelDeltas), SignCounts(stratumDeltas),
                          SignCounts(graphDeltas), SignCounts(orderDeltas)));
  }

  lemma ThetaIsDifference(records: seq<PolicyEpisode>, c: Policy)
    requires records != []
    ensures var orderDeltas := Top(Map(KeyOfEpisode, records), Deltas(records, c), 3);
            orderDeltas != [] && Mean(orderDeltas) == PolicyMean(records, Champion) - PolicyMean(records, c)
  {
    var keys, x, y := Map(KeyOfEpisode, records), Map(AreaOf(Champion), records), Map(AreaOf(c), records);
    TopIsLinear(keys, x, y, 3);
    TopFilled(keys, x, 3);
    MeanMinus(Top(keys, x, 3), Top(keys, y, 3));
  }

  lemma {:induction false} TopFilled(keys: seq<Key>, values: seq<real>, depth: nat)
    requires |keys| == |values| && keys != []
    ensures Top(keys, values, depth) != []
    decreases depth
  {
    if depth > 0 {
      GroupsNonEmpty(Parent, keys);
      TopFilled(Groups(Parent, keys), GroupMeans(Parent, keys, values), depth - 1);
    }
  }

  /** The relabel deltas of skewed records are the values they are skewed by. */
  lemma SkewedEffect(cells: seq<Key>, c: Policy, h: Key -> real) returns (e: Effect)
    requires IsDesign(cells) && c != Champion && Small(h)
    ensures OfDesign(Map(Skewed(c, h), cells), cells) && IsEffect(Map(Skewed(c, h), cells), c, e)
    ensures e.relabels == Groups(Parent, cells) && e.relabelDeltas == Map(h, Groups(Parent, cells))
  {
    SkewedRecords(cells, c, h);
    e := EffectExists(Map(Skewed(c, h), cells), c);
    SkewedDeltas(cells, c, h);
    ConstantGroups(Parent, cells, h, OfParent(h));
  }

  /**
    Skewed towards two cells of one stratum in graphs of different size, the strata pass and an order and theta
    fail.
   */
  lemma SkewedFails(cells: seq<Key>, c: Policy, a: Key, b: Key) returns (e: Effect)
    requires IsDesign(cells) && c != Champion && Uneven(Groups(Parent, cells), a, b)
    ensures var records := Map(Skewed(c, Tilt(a, b, QUARTER)), cells);
            OfDesign(records, cells) && IsEffect(records, c, e)
    ensures NonNegative(e.stratumDeltas) && !NonNegative(e.orderDeltas) && e.theta < 0.0
  {
    e := SkewedEffect(cells, c, Tilt(a, b, QUARTER));
    RelabelKeysHaveThree(cells);
    OrdersOfRelabels(Map(Skewed(c, Tilt(a, b, QUARTER)), cells), c, e);
    TiltFails(e.relabels, a, b, QUARTER);
  }

  lemma EvenDecides(cells: seq<Key>, c: Policy)
    requires Even(Groups(Parent, cells))
    ensures StrataDecideOrders(cells, c) && StrataDecideTheta(cells, c)
  {
    forall records, e | OfDesign(records, cells) && IsEffect(records, c, e) && NonNegative(e.stratumDeltas)
      ensures NonNegative(e.orderDeltas) && e.theta >= 0.0
    {
      assert e.relabels == Groups(Parent, cells);
      Stage5Gate(records, c, e);
    }
  }

  lemma UnevenDecides(cells: seq<Key>, c: Policy, relabels: seq<Key>, a: Key, b: Key)
    requires IsDesign(cells) && c != Champion && relabels == Groups(Parent, cells) && Uneven(relabels, a, b)
    ensures !StrataDecideOrders(cells, c) && !StrataDecideTheta(cells, c)
  {
    var e := SkewedFails(cells, c, a, b);
  }

  /**
    The exact condition: the gate on all strata implies the gate on every order, whatever the areas, if and only
    if graphs that share a relabeling have equally many relabelings; and the same condition is exact for theta.
   */
  lemma Stage5GateExact(cells: seq<Key>, c: Policy, relabels: seq<Key>)
    requires IsDesign(cells) && c != Champion && relabels == Groups(Parent, cells)
    ensures StrataDecideOrders(cells, c) <==> Even(relabels)
    ensures StrataDecideTheta(cells, c) <==> Even(relabels)
  {
    if Even(relabels) {
      EvenDecides(cells, c);
    } else {
      var a, b := UnevenPair(relabels);
      UnevenDecides(cells, c, relabels, a, b);
    }
  }

  // --- The mean of the strata of an order ---------------------------------------------------

  /** The orders of an effect, in the order of its deltas. */
  ghost function OrdersOf(relabels: seq<Key>): seq<Key> {
    Groups(Parent, Groups(Parent, relabels))
  }

  /** The deltas of the strata of one order. */
  ghost function StrataOf(e: Effect, o: Key): seq<real>
    requires |e.strata| == |e.stratumDeltas|
  {
    Within(Parent, e.strata, e.stratumDeltas, o)
  }

  /** The relabelings of one order. */
  ghost function RelabelsOf(relabels: seq<Key>, o: Key): seq<Key> {
    KeysIn(OrderOf, relabels, o)
  }

  /** The delta of an order and the deltas of its strata are means over the cells of the order. */
  lemma OrderOfEffect(records: seq<PolicyEpisode>, c: Policy, e: Effect, j: nat) returns (own: seq<real>)
    requires records != [] && IsEffect(records, c, e) && j < |e.orderDeltas|
    ensures |e.strata| == |e.stratumDeltas| && |OrdersOf(e.relabels)| == |e.orderDeltas|
    ensures var o, inside := OrdersOf(e.relabels)[j], RelabelsOf(e.relabels, OrdersOf(e.relabels)[j]);
            && |own| == |inside| && inside != [] && own == Within(OrderOf, e.relabels, e.relabelDeltas, o)
            && StrataOf(e, o) == GroupMeans(StratumOf, inside, own)
            && e.orderDeltas[j] == MeanOr0(GroupMeans(Parent, inside, own))
  {
    var keys, values := e.relabels, e.relabelDeltas;
    RelabelKeysHaveThree(Map(KeyOfEpisode, records));
    OrdersOfRelabels(records, c, e);
    GroupsNonEmpty(Parent, Map(KeyOfEpisode, records));
    TopNonEmpty(keys, values);
    assert OrdersOf(keys)[j] in OrdersOf(keys);
    var o := OrderKey(keys, OrdersOf(keys)[j]);
    GraphsAndStrata();
    OrderMeans(Parent, keys, values, o);
    OrderMeans(StratumOf, keys, values, o);
    own := Within(OrderOf, keys, values, [o]);
    InOrder(keys, o);
  }

  lemma InOrder(keys: seq<Key>, o: int)
    requires [o] in Groups(OrderOf, keys)
    ensures KeysIn(OrderOf, keys, [o]) != []
  {
    GroupsAre(OrderOf, keys, [o]);
    KeysInAre(OrderOf, keys, [o]);
    var i :| 0 <= i < |keys| && OrderOf(keys[i]) == [o];
    assert keys[i] in keys;
  }

  /** In a proportional order of any effect, the mean of the relabel strata is the order delta. */
  lemma StrataMeanIsOrderDelta(records: seq<PolicyEpisode>, c: Policy, e: Effect, j: nat)
    requires records != [] && IsEffect(records, c, e) && j < |e.orderDeltas|
    requires |OrdersOf(e.relabels)| == |e.orderDeltas| && Proportional(RelabelsOf(e.relabels, OrdersOf(e.relabels)[j]))
    ensures |e.strata| == |e.stratumDeltas| && MeanOr0(StrataOf(e, OrdersOf(e.relabels)[j])) == e.orderDeltas[j]
  {
    var own := OrderOfEffect(records, c, e, j);
    StrataMeanIsOrderMean(RelabelsOf(e.relabels, OrdersOf(e.relabels)[j]), own);
  }

  /** Whatever the areas, the mean of the strata of this order is its delta. */
  ghost predicate StrataAverage(cells: seq<Key>, c: Policy, j: nat) {
    forall records, e :: OfDesign(records, cells) && IsEffect(records, c, e) ==>
                           && j < |e.orderDeltas| == |OrdersOf(e.relabels)| && |e.strata| == |e.stratumDeltas|
                           && MeanOr0(StrataOf(e, OrdersOf(e.relabels)[j])) == e.orderDeltas[j]
  }

  lemma OrderCount(records: seq<PolicyEpisode>, c: Policy, e: Effect)
    requires IsEffect(records, c, e) && records != []
    ensures |OrdersOf(e.relabels)| == |e.orderDeltas|
  {
    GroupsNonEmpty(Parent, Map(KeyOfEpisode, records));
    OrdersOfRelabels(records, c, e);
    TopNonEmpty(e.relabels, e.relabelDeltas);
  }

  lemma ProportionalAverages(cells: seq<Key>, c: Policy, relabels: seq<Key>, j: nat)
    requires relabels == Groups(Parent, cells) && j < |OrdersOf(relabels)|
    requires Proportional(RelabelsOf(relabels, OrdersOf(relabels)[j]))
    ensures StrataAverage(cells, c, j)
  {
    forall records, e | OfDesign(records, cells) && IsEffect(records, c, e)
      ensures && j < |e.orderDeltas| == |OrdersOf(e.relabels)| && |e.strata| == |e.stratumDeltas|
              && MeanOr0(StrataOf(e, OrdersOf(e.relabels)[j])) == e.orderDeltas[j]
    {
      OrderCount(records, c, e);
      StrataMeanIsOrderDelta(records, c, e, j);
    }
  }

  /** A delta on one relabeling whose weights differ separates the two. */
  lemma SpikedDiffers(cells: seq<Key>, c: Policy, relabels: seq<Key>, j: nat, a: Key)
    requires IsDesign(cells) && c != Champion && relabels == Groups(Parent, cells) && j < |OrdersOf(relabels)|
    requires var inside := RelabelsOf(relabels, OrdersOf(relabels)[j]);
             a in inside && Weight(Parent, inside)(a) != Weight(StratumOf, inside)(a)
    ensures !StrataAverage(cells, c, j)
  {
    var h, o := Spike(a, QUARTER), OrdersOf(relabels)[j];
    var e := SkewedEffect(cells, c, h);
    OrderCount(Map(Skewed(c, h), cells), c, e);
    var own := OrderOfEffect(Map(Skewed(c, h), cells), c, e, j);
    WithinMapped(OrderOf, relabels, h, o);
    RelabelKeysHaveThree(cells);
    KeysInSorted(OrderOf, relabels, o);
    SpikeDiffers(RelabelsOf(relabels, o), a, QUARTER);
  }

  /**
    The exact condition: the mean of the relabel strata of an order is its delta, whatever the areas, if and only if
    every relabeling of the order weighs as much in its graph as in its stratum.
   */
  lemma StrataAverageExact(cells: seq<Key>, c: Policy, relabels: seq<Key>, j: nat)
    requires IsDesign(cells) && c != Champion && relabels == Groups(Parent, cells) && j < |OrdersOf(relabels)|
    ensures StrataAverage(cells, c, j) <==> Proportional(RelabelsOf(relabels, OrdersOf(relabels)[j]))
  {
    var inside := RelabelsOf(relabels, OrdersOf(relabels)[j]);
    if Proportional(inside) {
      ProportionalAverages(cells, c, relabels, j);
    } else {
      var x, y := Weight(Parent, inside), Weight(StratumOf, inside);
      var a :| a in inside && x(a) != y(a);
      SpikedDiffers(cells, c, relabels, j, a);
    }
  }

  /** In particular in every balanced order, in any design. */
  lemma BalancedAverages(cells: seq<Key>, c: Policy, relabels: seq<Key>, j: nat)
    requires relabels == Groups(Parent, cells) && j < |OrdersOf(relabels)|
    requires BalancedOrder(RelabelsOf(relabels, OrdersOf(relabels)[j]))
    ensures StrataAverage(cells, c, j)
  {
    BalancedIsProportional(RelabelsOf(relabels, OrdersOf(relabels)[j]));
    ProportionalAverages(cells, c, relabels, j);
  }

  // --- A design where it fails --------------------------------------------------------------

  /** One order with two graphs, of which only the second has the second relabeling. */
  const LOPSIDED: seq<Key> := [[0, 0, 0, 0], [0, 1, 0, 0], [0, 1, 1, 0]]
  const LOPSIDED_RELABELS: seq<Key> := [[0, 0, 0], [0, 1, 0], [0, 1, 1]]

  lemma LopsidedRelabels()
    ensures Groups(Parent, LOPSIDED) == LOPSIDED_RELABELS
  {
    var groups, wanted := Groups(Parent, LOPSIDED), LOPSIDED_RELABELS;
    GroupsDistinct(Parent, LOPSIDED);
    assert Parent([0, 0, 0, 0]) == [0, 0, 0] && Parent([0, 1, 0, 0]) == [0, 1, 0] && Parent([0, 1, 1, 0]) == [0, 1, 1];
    forall k ensures k in groups <==> k in wanted {
      GroupsAre(Parent, LOPSIDED, k);
      assert LOPSIDED[0] == [0, 0, 0, 0] && LOPSIDED[1] == [0, 1, 0, 0] && LOPSIDED[2] == [0, 1, 1, 0];
    }
    Graphs.SameElements(groups, wanted);
    LopsidedSorted();
    SeqOrder();
    SortedUnique(groups, wanted, SeqLeq);
  }

  lemma LopsidedSorted()
    ensures Sorted(LOPSIDED_RELABELS, SeqLeq)
  {
    var a, b, c: Key := [0, 0, 0], [0, 1, 0], [0, 1, 1];
    assert a[1..] == [0, 0] && b[1..] == [1, 0] && c[1..] == [1, 1];
    assert b[1..][1..] == [0] && c[1..][1..] == [1];
    assert SeqLeq(a[1..], b[1..]) && SeqLeq(a[1..], c[1..]) && SeqLeq(b[1..], c[1..]);
  }

  lemma ThreeKeys(f: Key -> Key, a: Key, b: Key, c: Key, k: Key)
    ensures |KeysIn(f, [a, b, c], k)|
            == (if f(a) == k then 1 else 0) + (if f(b) == k then 1 else 0) + (if f(c) == k then 1 else 0)
  {
    assert [a, b, c][..2] == [a, b] && [a, b][..1] == [a];
    assert |KeysIn(f, [a], k)| == if f(a) == k then 1 else 0;
  }

  lemma LopsidedUneven(keys: seq<Key>, a: Key, b: Key, c: Key)
    requires a == [0, 0, 0] && b == [0, 1, 0] && c == [0, 1, 1] && keys == [a, b, c]
    ensures Uneven(keys, a, b)
  {
    ThreeKeys(Parent, a, b, c, Parent(a));
    ThreeKeys(Parent, a, b, c, Parent(b));
    assert Parent(a) == [0, 0] && Parent(b) == [0, 1] && Parent(c) == [0, 1];
    assert keys[0] == a && keys[1] == b;
  }

  lemma LopsidedDesign(cells: seq<Key>)
    requires cells == LOPSIDED
    ensures IsDesign(cells)
  {}

  /** Records with areas in the unit interval whose strata pass the gate while their order and theta fail. */
  lemma UnbalancedGateFails(cells: seq<Key>, c: Policy) returns (records: seq<PolicyEpisode>, e: Effect)
    requires cells == LOPSIDED && c != Champion
    ensures OfDesign(records, cells) && IsEffect(records, c, e)
    ensures NonNegative(e.stratumDeltas) && !NonNegative(e.orderDeltas) && e.theta < 0.0
  {
    LopsidedDesign(cells);
    LopsidedRelabels();
    LopsidedUneven(LOPSIDED_RELABELS, [0, 0, 0], [0, 1, 0], [0, 1, 1]);
    records := Map(Skewed(c, Tilt([0, 0, 0], [0, 1, 0], QUARTER)), cells);
    e := SkewedFails(cells, c, [0, 0, 0], [0, 1, 0]);
  }
}
