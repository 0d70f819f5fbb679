/** The weight of every record in a mean taken level by level, told by counting the records around it. */
module Weights {
  import opened Sorting
  import opened Means
  import opened Strata
  import opened Summaries
  import Graphs

  // --- One level ----------------------------------------------------------------------------

  /** The size of the class of a cell times the weight of the class. */
  ghost function Passed(f: Key -> Key, keys: seq<Key>, weight: Key -> nat): Key -> nat {
    (k: Key) => Times(ClassSize(f, keys)(k), weight(f(k)))
  }

  /** Weighing the means of the classes weighs the cells. */
  lemma WeightsPass(f: Key -> Key, keys: seq<Key>, values: seq<real>, weight: Key -> nat)
    requires |keys| == |values| && forall g :: g in Groups(f, keys) ==> weight(g) > 0
    ensures Sum(Shares(weight, Groups(f, keys), GroupMeans(f, keys, values)))
         == Sum(Shares(Passed(f, keys, weight), keys, values))
  {
    var groups, passed := Groups(f, keys), Passed(f, keys, weight);
    var shares := Shares(passed, keys, values);
    GroupsDistinct(f, keys);
    SumOfClasses(f, groups, keys, shares);
    var sums, upper := Map(ClassSum(f, keys, shares), groups), Shares(weight, groups, GroupMeans(f, keys, values));
    forall i | 0 <= i < |groups| ensures upper[i] == sums[i] {
      assert groups[i] in groups;
      ClassPasses(f, keys, values, weight, groups[i]);
    }
    assert upper == sums;
  }

  lemma ClassPasses(f: Key -> Key, keys: seq<Key>, values: seq<real>, weight: Key -> nat, g: Key)
    requires |keys| == |values| && g in Groups(f, keys) && weight(g) > 0
    ensures Share(MeanOr0(Within(f, keys, values, g)), weight(g))
         == Sum(Within(f, keys, Shares(Passed(f, keys, weight), keys, values), g))
  {
    var n := |KeysIn(f, keys, g)|;
    GroupsAre(f, keys, g);
    var i :| 0 <= i < |keys| && f(keys[i]) == g;
    ClassNonEmpty(f, keys, keys[i]);
    ClassShare(f, Passed(f, keys, weight), keys, values, g, Times(n, weight(g)));
    WithinLength(f, keys, values, g);
    ShareIsMean(Within(f, keys, values, g));
    ShareOfShare(Sum(Within(f, keys, values, g)), n, weight(g));
  }

  /** Every cell of the list has this weight in the mean of the top level. */
  ghost predicate Weighs(keys: seq<Key>, depth: nat, weight: Key -> nat) {
    && (forall k :: k in keys ==> weight(k) > 0)
    && forall values: seq<real> :: |values| == |keys| ==> WeighsAt(keys, depth, weight, values)
  }

  ghost predicate WeighsAt(keys: seq<Key>, depth: nat, weight: Key -> nat, values: seq<real>)
    requires |values| == |keys|
  {
    MeanOr0(Top(keys, values, depth)) == Sum(Shares(weight, keys, values))
  }

  lemma CountWeighs(keys: seq<Key>, weight: Key -> nat)
    requires forall k :: k in keys ==> weight(k) == |keys|
    ensures Weighs(keys, 0, weight)
  {
    forall values: seq<real> | |values| == |keys| ensures WeighsAt(keys, 0, weight, values) {
      if keys != [] {
        SumShared(values, Shares(weight, keys, values), |keys|);
      }
      ShareIsMean(values);
    }
  }

  lemma SameWeight(a: Key -> nat, b: Key -> nat, keys: seq<Key>, values: seq<real>)
    requires |keys| == |values| && forall k :: k in keys ==> a(k) == b(k)
    ensures Shares(a, keys, values) == Shares(b, keys, values)
  {
    assert forall i :: 0 <= i < |keys| ==> keys[i] in keys;
  }

  lemma LevelWeighsAt(keys: seq<Key>, depth: nat, upper: Key -> nat, weight: Key -> nat, values: seq<real>)
    requires Weighs(Groups(Parent, keys), depth, upper) && |values| == |keys|
    requires forall k :: k in keys ==> weight(k) == Passed(Parent, keys, upper)(k)
    ensures WeighsAt(keys, depth + 1, weight, values)
  {
    WeightsPass(Parent, keys, values, upper);
    assert WeighsAt(Groups(Parent, keys), depth, upper, GroupMeans(Parent, keys, values));
    SameWeight(weight, Passed(Parent, keys, upper), keys, values);
  }

  /** The weights of one level from those of the level above. */
  lemma LevelWeighs(keys: seq<Key>, depth: nat, upper: Key -> nat, weight: Key -> nat)
    requires Weighs(Groups(Parent, keys), depth, upper)
    requires forall k :: k in keys ==> weight(k) == Passed(Parent, keys, upper)(k)
    ensures Weighs(keys, depth + 1, weight)
  {
    forall values: seq<real> | |values| == |keys| ensures WeighsAt(keys, depth + 1, weight, values) {
      LevelWeighsAt(keys, depth, upper, weight, values);
    }
    forall k | k in keys ensures weight(k) > 0 {
      PassedPositive(keys, upper, k);
    }
  }

  lemma PassedPositive(keys: seq<Key>, upper: Key -> nat, k: Key)
    requires k in keys && forall g :: g in Groups(Parent, keys) ==> upper(g) > 0
    ensures Passed(Parent, keys, upper)(k) > 0
  {
    var i :| 0 <= i < |keys| && keys[i] == k;
    GroupsAre(Parent, keys, Parent(k));
    ClassNonEmpty(Parent, keys, k);
    PositiveProduct(ClassSize(Parent, keys)(k), upper(Parent(k)));
  }

  // --- Counting below a prefix --------------------------------------------------------------

  predicate Extends(k: Key, p: Key) {
    |k| >= |p| && k[..|p|] == p
  }

  function HasPrefix(p: Key): Key -> bool {
    (k: Key) => Extends(k, p)
  }

  /** How many cells lie below a prefix. */
  ghost function Crowd(keys: seq<Key>, p: Key): nat {
    Count(HasPrefix(p), keys)
  }

  /** The components that follow a prefix. */
  ghost function Branches(keys: seq<Key>, p: Key): (r: set<int>)
    ensures forall x :: x in r <==> IsBranch(keys, p, x)
  {
    set k | k in keys && |k| > |p| && Extends(k, p) :: k[|p|]
  }

  ghost predicate IsBranch(keys: seq<Key>, p: Key, x: int) {
    exists k :: k in keys && |k| > |p| && Extends(k, p) && k[|p|] == x
  }

  ghost predicate LongKeys(keys: seq<Key>, n: nat) {
    forall i :: 0 <= i < |keys| ==> |keys[i]| == n
  }

  lemma {:induction false} ClassIsCrowd(keys: seq<Key>, n: nat, p: Key)
    requires LongKeys(keys, n + 1) && |p| == n
    ensures |KeysIn(Parent, keys, p)| == Crowd(keys, p)
  {
    if keys != [] {
      ClassIsCrowd(keys[..|keys| - 1], n, p);
    }
  }

  lemma GroupsLong(keys: seq<Key>, n: nat)
    requires LongKeys(keys, n + 1)
    ensures LongKeys(Groups(Parent, keys), n)
  {
    var groups := Groups(Parent, keys);
    forall i | 0 <= i < |groups| ensures |groups[i]| == n {
      GroupsAre(Parent, keys, groups[i]);
    }
  }

  lemma BranchOfGroup(keys: seq<Key>, n: nat, p: Key, x: int)
    requires LongKeys(keys, n + 1) && |p| < n && IsBranch(Groups(Parent, keys), p, x)
    ensures IsBranch(keys, p, x)
  {
    var g :| g in Groups(Parent, keys) && |g| > |p| && Extends(g, p) && g[|p|] == x;
    GroupsAre(Parent, keys, g);
    var i :| 0 <= i < |keys| && Parent(keys[i]) == g;
    Prefixed(keys[i], n, p);
    assert keys[i] in keys;
  }

  lemma BranchOfCell(keys: seq<Key>, n: nat, p: Key, x: int)
    requires LongKeys(keys, n + 1) && |p| < n && IsBranch(keys, p, x)
    ensures IsBranch(Groups(Parent, keys), p, x)
  {
    var k :| k in keys && |k| > |p| && Extends(k, p) && k[|p|] == x;
    var i :| 0 <= i < |keys| && keys[i] == k;
    GroupsAre(Parent, keys, Parent(k));
    Prefixed(k, n, p);
  }

  lemma Prefixed(k: Key, n: nat, p: Key)
    requires |k| == n + 1 && |p| < n
    ensures |Parent(k)| == n && Parent(k)[|p|] == k[|p|] && (Extends(Parent(k), p) <==> Extends(k, p))
  {
    assert Parent(k)[..|p|] == k[..|p|];
  }

  /** The groups branch below a prefix as the cells do. */
  lemma SameBranches(keys: seq<Key>, n: nat, p: Key)
    requires LongKeys(keys, n + 1) && |p| < n
    ensures Branches(Groups(Parent, keys), p) == Branches(keys, p)
  {
    forall x ensures x in Branches(Groups(Parent, keys), p) <==> x in Branches(keys, p) {
      if IsBranch(Groups(Parent, keys), p, x) {
        BranchOfGroup(keys, n, p, x);
      }
      if IsBranch(keys, p, x) {
        BranchOfCell(keys, n, p, x);
      }
    }
  }

  /** Different keys one longer than a prefix are as many as its branches. */
  lemma {:induction false} CrowdIsBranches(keys: seq<Key>, p: Key)
    requires Graphs.Distinct(keys) && LongKeys(keys, |p| + 1)
    ensures Crowd(keys, p) == |Branches(keys, p)|
  {
    if keys == [] {
      assert Branches(keys, p) == {};
    } else {
      var n := |keys| - 1;
      var last, before := keys[n], keys[..n];
      CrowdIsBranches(before, p);
      LastBranch(keys, before, last, p);
    }
  }

  lemma SameKey(a: Key, b: Key, p: Key)
    requires |a| == |b| == |p| + 1 && Extends(a, p) && Extends(b, p) && a[|p|] == b[|p|]
    ensures a == b
  {
    assert a == a[..|p|] + [a[|p|]] && b == b[..|p|] + [b[|p|]];
  }

  lemma LastBranch(keys: seq<Key>, before: seq<Key>, last: Key, p: Key)
    requires Graphs.Distinct(keys) && LongKeys(keys, |p| + 1) && keys == before + [last] && |last| == |p| + 1
    ensures Extends(last, p) ==> last[|p|] !in Branches(before, p)
    ensures Branches(keys, p) == Branches(before, p) + if Extends(last, p) then {last[|p|]} else {}
  {
    if Extends(last, p) {
      if last[|p|] in Branches(before, p) {
        var k :| k in before && |k| > |p| && Extends(k, p) && k[|p|] == last[|p|];
        var i :| 0 <= i < |before| && before[i] == k;
        SameKey(keys[i], keys[|before|], p);
        assert false;
      }
    }
    forall x ensures IsBranch(keys, p, x) <==> IsBranch(before, p, x) || (Extends(last, p) && x == last[|p|]) {
      assert forall k :: k in keys <==> k in before || k == last;
    }
  }

  /** The groups below a prefix are the branches of the cells. */
  lemma GroupCrowd(keys: seq<Key>, n: nat, p: Key)
    requires LongKeys(keys, n + 1) && n == |p| + 1
    ensures Crowd(Groups(Parent, keys), p) == |Branches(keys, p)|
  {
    GroupsLong(keys, n);
    GroupsDistinct(Parent, keys);
    CrowdIsBranches(Groups(Parent, keys), p);
    SameBranches(keys, n, p);
  }

  // --- Two and three levels -----------------------------------------------------------------

  /** Keys of one component: as many as the branches at the root. */
  lemma RootWeighs(keys: seq<Key>, weight: Key -> nat)
    requires Graphs.Distinct(keys) && LongKeys(keys, 1) && forall k :: k in keys ==> weight(k) == |Branches(keys, [])|
    ensures Weighs(keys, 0, weight)
  {
    CrowdIsBranches(keys, []);
    CountAllKeys(keys);
    CountWeighs(keys, weight);
  }

  lemma CountAllKeys(keys: seq<Key>)
    ensures Crowd(keys, []) == |keys|
  {
    CountEvery(HasPrefix([]), keys);
  }

  lemma {:induction false} CountEvery(p: Key -> bool, s: seq<Key>)
    requires forall k :: p(k)
    ensures Count(p, s) == |s|
  {
    if s != [] {
      CountEvery(p, s[..|s| - 1]);
    }
  }

  ghost function PairWeight(keys: seq<Key>, k: Key): nat {
    if |k| == 2 then Times(Crowd(keys, k[..1]), |Branches(keys, [])|) else 0
  }

  ghost function TripleWeight(keys: seq<Key>, k: Key): nat {
    if |k| == 3 then Times(Crowd(keys, k[..2]), Times(|Branches(keys, k[..1])|, |Branches(keys, [])|)) else 0
  }

  ghost function QuadrupleWeight(keys: seq<Key>, k: Key): nat {
    if |k| == 4
    then Times(Crowd(keys, k[..3]),
               Times(|Branches(keys, k[..2])|, Times(|Branches(keys, k[..1])|, |Branches(keys, [])|)))
    else 0
  }

  lemma ParentCut(k: Key, n: nat)
    requires |k| == n + 1
    ensures Parent(k) == k[..n] && forall j: nat :: j <= n ==> Parent(k)[..j] == k[..j]
  {}

  lemma InLong(keys: seq<Key>, n: nat, k: Key)
    requires LongKeys(keys, n) && k in keys
    ensures |k| == n
  {}

  lemma ClassCrowd(keys: seq<Key>, n: nat, k: Key)
    requires LongKeys(keys, n + 1) && k in keys
    ensures |k| == n + 1 && ClassSize(Parent, keys)(k) == Crowd(keys, k[..n])
  {
    InLong(keys, n + 1, k);
    ParentCut(k, n);
    ClassIsCrowd(keys, n, Parent(k));
  }

  /** Keys of two components: the cells of the order, and the orders. */
  lemma PairsWeigh(keys: seq<Key>)
    requires LongKeys(keys, 2)
    ensures Weighs(keys, 1, (k: Key) => PairWeight(keys, k))
  {
    var groups := Groups(Parent, keys);
    var upper := (k: Key) => |Branches(keys, [])|;
    GroupsLong(keys, 1);
    GroupsDistinct(Parent, keys);
    SameBranches(keys, 1, []);
    RootWeighs(groups, upper);
    forall k | k in keys ensures PairWeight(keys, k) == Passed(Parent, keys, upper)(k) {
      ClassCrowd(keys, 1, k);
    }
    LevelWeighs(keys, 0, upper, (k: Key) => PairWeight(keys, k));
  }

  lemma TriplePasses(keys: seq<Key>, k: Key)
    requires LongKeys(keys, 3) && k in keys
    ensures TripleWeight(keys, k)
         == Times(ClassSize(Parent, keys)(k), PairWeight(Groups(Parent, keys), Parent(k)))
  {
    ClassCrowd(keys, 2, k);
    ParentCut(k, 2);
    GroupCrowd(keys, 2, k[..1]);
    SameBranches(keys, 2, []);
  }

  /** Keys of three components: the cells of the graph, its graphs in the order, and the orders. */
  lemma TriplesWeigh(keys: seq<Key>)
    requires LongKeys(keys, 3)
    ensures Weighs(keys, 2, (k: Key) => TripleWeight(keys, k))
  {
    var groups := Groups(Parent, keys);
    GroupsLong(keys, 2);
    PairsWeigh(groups);
    forall k | k in keys
      ensures TripleWeight(keys, k) == Passed(Parent, keys, (g: Key) => PairWeight(groups, g))(k)
    {
      TriplePasses(keys, k);
    }
    LevelWeighs(keys, 1, (g: Key) => PairWeight(groups, g), (k: Key) => TripleWeight(keys, k));
  }

  lemma QuadruplePasses(keys: seq<Key>, k: Key)
    requires LongKeys(keys, 4) && k in keys
    ensures QuadrupleWeight(keys, k)
         == Times(ClassSize(Parent, keys)(k), TripleWeight(Groups(Parent, keys), Parent(k)))
  {
    ClassCrowd(keys, 3, k);
    ParentCut(k, 3);
    GroupCrowd(keys, 3, k[..2]);
    SameBranches(keys, 3, k[..1]);
    SameBranches(keys, 3, []);
  }

  /** Keys of four components. */
  lemma QuadruplesWeigh(keys: seq<Key>)
    requires LongKeys(keys, 4)
    ensures Weighs(keys, 3, (k: Key) => QuadrupleWeight(keys, k))
  {
    var groups := Groups(Parent, keys);
    GroupsLong(keys, 3);
    TriplesWeigh(groups);
    forall k | k in keys
      ensures QuadrupleWeight(keys, k) == Passed(Parent, keys, (g: Key) => TripleWeight(groups, g))(k)
    {
      QuadruplePasses(keys, k);
    }
    LevelWeighs(keys, 2, (g: Key) => TripleWeight(groups, g), (k: Key) => QuadrupleWeight(keys, k));
  }

  // --- Stage 4E -----------------------------------------------------------------------------

  ghost function Orders(episodes: seq<PairedEpisode>): set<int> {
    set e | e in episodes :: e.order
  }

  /** The graphs of an order. */
  ghost function GraphSeeds(episodes: seq<PairedEpisode>, order: int): set<int> {
    set e | e in episodes && e.order == order :: e.graphSeed
  }

  function OnGraph(order: int, graphSeed: int): PairedEpisode -> bool {
    (e: PairedEpisode) => e.order == order && e.graphSeed == graphSeed
  }

  /** The episodes of its graph, the graphs of its order, and the orders. */
  ghost function EpisodeWeight(episodes: seq<PairedEpisode>, e: PairedEpisode): nat {
    Times(Count(OnGraph(e.order, e.graphSeed), episodes),
          Times(|GraphSeeds(episodes, e.order)|, |Orders(episodes)|))
  }

  /** The areas divided by the weights of their episodes. */
  ghost function EpisodeShares(episodes: seq<PairedEpisode>, areas: seq<real>): (r: seq<real>)
    requires |areas| == |episodes|
    ensures |r| == |areas| && forall i :: 0 <= i < |r| ==> r[i] == Share(areas[i], EpisodeWeight(episodes, episodes[i]))
  {
    seq(|areas|, i requires 0 <= i < |areas| => Share(areas[i], EpisodeWeight(episodes, episodes[i])))
  }

  lemma SharesAre(episodes: seq<PairedEpisode>, keys: seq<Key>, areas: seq<real>, weight: Key -> nat)
    requires |areas| == |episodes| && keys == Map(CellOf, episodes)
    requires forall k :: weight(k) == TripleWeight(keys, k)
    ensures Shares(weight, keys, areas) == EpisodeShares(episodes, areas)
  {
    forall i | 0 <= i < |episodes| ensures weight(keys[i]) == EpisodeWeight(episodes, episodes[i]) {
      EpisodeCounts(episodes, keys, episodes[i]);
    }
  }

  lemma WeighedMean(keys: seq<Key>, depth: nat, weight: Key -> nat, values: seq<real>)
    requires Weighs(keys, depth, weight) && |values| == |keys|
    ensures MeanOr0(Top(keys, values, depth)) == Sum(Shares(weight, keys, values))
  {
    assert WeighsAt(keys, depth, weight, values);
  }

  /** Every episode counts once in its graph, every graph once in its order, every order once. */
  lemma PairedMeanWeighs(episodes: seq<PairedEpisode>, areas: seq<real>)
    requires |areas| == |episodes|
    ensures PairedMean(episodes, areas) == Sum(EpisodeShares(episodes, areas))
  {
    var keys := Map(CellOf, episodes);
    var weight := (k: Key) => TripleWeight(keys, k);
    TriplesWeigh(keys);
    WeighedMean(keys, 2, weight, areas);
    SharesAre(episodes, keys, areas, weight);
  }

  lemma EpisodeCounts(episodes: seq<PairedEpisode>, keys: seq<Key>, e: PairedEpisode)
    requires keys == Map(CellOf, episodes)
    ensures TripleWeight(keys, CellOf(e)) == EpisodeWeight(episodes, e)
  {
    EpisodeCrowd(episodes, CellOf(e)[..2], e);
    assert Branches(keys, CellOf(e)[..1]) == GraphSeeds(episodes, e.order) by {
      forall x ensures x in Branches(keys, CellOf(e)[..1]) <==> x in GraphSeeds(episodes, e.order) {
        EpisodeBranch(episodes, keys, CellOf(e)[..1], x);
        GraphBranch(e, x);
      }
    }
    assert Branches(keys, []) == Orders(episodes) by {
      forall x ensures x in Branches(keys, []) <==> x in Orders(episodes) {
        EpisodeBranch(episodes, keys, [], x);
      }
    }
  }

  lemma GraphBranch(e: PairedEpisode, x: int)
    ensures forall d: PairedEpisode :: Extends(CellOf(d), CellOf(e)[..1]) <==> d.order == e.order
  {
    forall d: PairedEpisode ensures Extends(CellOf(d), CellOf(e)[..1]) <==> d.order == e.order {
      assert CellOf(d)[..1] == [d.order] && CellOf(e)[..1] == [e.order];
    }
  }

  lemma {:induction false} EpisodeCrowd(episodes: seq<PairedEpisode>, p: Key, e: PairedEpisode)
    requires p == [e.order, e.graphSeed]
    ensures Crowd(Map(CellOf, episodes), p) == Count(OnGraph(e.order, e.graphSeed), episodes)
  {
    if episodes != [] {
      var n := |episodes| - 1;
      EpisodeCrowd(episodes[..n], p, e);
      assert Map(CellOf, episodes)[..n] == Map(CellOf, episodes[..n]);
      assert CellOf(episodes[n])[..2] == [episodes[n].order, episodes[n].graphSeed];
    }
  }

  lemma EpisodeBranch(episodes: seq<PairedEpisode>, keys: seq<Key>, p: Key, x: int)
    requires keys == Map(CellOf, episodes)
    ensures IsBranch(keys, p, x)
       <==> exists e :: e in episodes && |p| < 3 && Extends(CellOf(e), p) && CellOf(e)[|p|] == x
  {
    if IsBranch(keys, p, x) {
      var k :| k in keys && |k| > |p| && Extends(k, p) && k[|p|] == x;
      var i :| 0 <= i < |keys| && keys[i] == k;
      assert episodes[i] in episodes;
    }
    if e :| e in episodes && |p| < 3 && Extends(CellOf(e), p) && CellOf(e)[|p|] == x {
      var i :| 0 <= i < |episodes| && episodes[i] == e;
      assert keys[i] in keys;
    }
  }

  // --- Stage 5 ------------------------------------------------------------------------------

  /** The records of the same order, graph and relabeling. */
  function OnRelabeling(e: PolicyEpisode): PolicyEpisode -> bool {
    (d: PolicyEpisode) => d.order == e.order && d.graphSeed == e.graphSeed && d.relabelingSeed == e.relabelingSeed
  }

  ghost function RecordOrders(records: seq<PolicyEpisode>): set<int> {
    set d | d in records :: d.order
  }

  ghost function RecordGraphs(records: seq<PolicyEpisode>, e: PolicyEpisode): set<int> {
    set d | d in records && d.order == e.order :: d.graphSeed
  }

  ghost function RecordRelabelings(records: seq<PolicyEpisode>, e: PolicyEpisode): set<int> {
    set d | d in records && d.order == e.order && d.graphSeed == e.graphSeed :: d.relabelingSeed
  }

  /** The records of its relabeling, the relabelings of its graph, the graphs of its order, and the orders. */
  ghost function RecordWeight(records: seq<PolicyEpisode>, e: PolicyEpisode): nat {
    Times(Count(OnRelabeling(e), records),
          Times(|RecordRelabelings(records, e)|, Times(|RecordGraphs(records, e)|, |RecordOrders(records)|)))
  }

  ghost function RecordShares(records: seq<PolicyEpisode>, p: Policy): (r: seq<real>)
    ensures |r| == |records|
    ensures forall i :: 0 <= i < |r| ==> r[i] == Share(AreaOf(p)(records[i]), RecordWeight(records, records[i]))
  {
    seq(|records|, i requires 0 <= i < |records| => Share(AreaOf(p)(records[i]), RecordWeight(records, records[i])))
  }

  lemma RecordBranch(records: seq<PolicyEpisode>, keys: seq<Key>, p: Key, x: int)
    requires keys == Map(KeyOfEpisode, records)
    ensures IsBranch(keys, p, x)
       <==> exists d :: d in records && |p| < 4 && Extends(KeyOfEpisode(d), p) && KeyOfEpisode(d)[|p|] == x
  {
    if IsBranch(keys, p, x) {
      var k :| k in keys && |k| > |p| && Extends(k, p) && k[|p|] == x;
      var i :| 0 <= i < |keys| && keys[i] == k;
      assert records[i] in records;
    }
    if d :| d in records && |p| < 4 && Extends(KeyOfEpisode(d), p) && KeyOfEpisode(d)[|p|] == x {
      var i :| 0 <= i < |records| && records[i] == d;
      assert keys[i] in keys;
    }
  }

  lemma RecordPrefix(d: PolicyEpisode, e: PolicyEpisode)
    ensures var k, l := KeyOfEpisode(d), KeyOfEpisode(e);
            && (Extends(k, l[..1]) <==> d.order == e.order)
            && (Extends(k, l[..2]) <==> d.order == e.order && d.graphSeed == e.graphSeed)
            && (Extends(k, l[..3]) <==> OnRelabeling(e)(d))
  {
    var k, l := KeyOfEpisode(d), KeyOfEpisode(e);
    assert k[..1] == [k[0]] && k[..2] == [k[0], k[1]] && k[..3] == [k[0], k[1], k[2]];
    assert l[..1] == [l[0]] && l[..2] == [l[0], l[1]] && l[..3] == [l[0], l[1], l[2]];
  }

  lemma {:induction false} RecordCrowd(records: seq<PolicyEpisode>, p: Key, e: PolicyEpisode)
    requires p == KeyOfEpisode(e)[..3]
    ensures Crowd(Map(KeyOfEpisode, records), p) == Count(OnRelabeling(e), records)
  {
    if records != [] {
      var n := |records| - 1;
      RecordCrowd(records[..n], p, e);
      assert Map(KeyOfEpisode, records)[..n] == Map(KeyOfEpisode, records[..n]);
      RecordPrefix(records[n], e);
    }
  }

  lemma RootBranches(records: seq<PolicyEpisode>, keys: seq<Key>)
    requires keys == Map(KeyOfEpisode, records)
    ensures Branches(keys, []) == RecordOrders(records)
  {
    forall x ensures x in Branches(keys, []) <==> x in RecordOrders(records) {
      RecordBranch(records, keys, [], x);
    }
  }

  lemma OrderBranches(records: seq<PolicyEpisode>, keys: seq<Key>, e: PolicyEpisode, p: Key)
    requires keys == Map(KeyOfEpisode, records) && p == KeyOfEpisode(e)[..1]
    ensures Branches(keys, p) == RecordGraphs(records, e)
  {
    forall d: PolicyEpisode ensures Extends(KeyOfEpisode(d), p) <==> d.order == e.order {
      RecordPrefix(d, e);
    }
    forall x ensures x in Branches(keys, p) <==> x in RecordGraphs(records, e) {
      RecordBranch(records, keys, p, x);
    }
  }

  lemma GraphBranches(records: seq<PolicyEpisode>, keys: seq<Key>, e: PolicyEpisode, p: Key)
    requires keys == Map(KeyOfEpisode, records) && p == KeyOfEpisode(e)[..2]
    ensures Branches(keys, p) == RecordRelabelings(records, e)
  {
    forall d: PolicyEpisode
      ensures Extends(KeyOfEpisode(d), p) <==> d.order == e.order && d.graphSeed == e.graphSeed
    {
      RecordPrefix(d, e);
    }
    forall x ensures x in Branches(keys, p) <==> x in RecordRelabelings(records, e) {
      RecordBranch(records, keys, p, x);
    }
  }

  lemma RecordCounts(records: seq<PolicyEpisode>, keys: seq<Key>, e: PolicyEpisode)
    requires keys == Map(KeyOfEpisode, records)
    ensures QuadrupleWeight(keys, KeyOfEpisode(e)) == RecordWeight(records, e)
  {
    RecordCrowd(records, KeyOfEpisode(e)[..3], e);
    RootBranches(records, keys);
    OrderBranches(records, keys, e, KeyOfEpisode(e)[..1]);
    GraphBranches(records, keys, e, KeyOfEpisode(e)[..2]);
  }

  lemma RecordSharesAre(records: seq<PolicyEpisode>, keys: seq<Key>, p: Policy, weight: Key -> nat)
    requires keys == Map(KeyOfEpisode, records) && forall k :: weight(k) == QuadrupleWeight(keys, k)
    ensures Shares(weight, keys, Map(AreaOf(p), records)) == RecordShares(records, p)
  {
    forall i | 0 <= i < |records| ensures weight(keys[i]) == RecordWeight(records, records[i]) {
      RecordCounts(records, keys, records[i]);
    }
  }

  /** Every record counts once in its relabeling, every relabeling once in its graph, and so on. */
  lemma PolicyMeanWeighs(records: seq<PolicyEpisode>, p: Policy)
    ensures PolicyMean(records, p) == Sum(RecordShares(records, p))
  {
    var keys := Map(KeyOfEpisode, records);
    var weight := (k: Key) => QuadrupleWeight(keys, k);
    QuadruplesWeigh(keys);
    WeighedMean(keys, 3, weight, Map(AreaOf(p), records));
    RecordSharesAre(records, keys, p, weight);
  }
}
