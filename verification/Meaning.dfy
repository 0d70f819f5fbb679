/** What a certificate tells about a graph, and what two graphs with the same certificate have in common. */
module Meaning {
  import opened Graphs
  import opened Sorting
  import opened Models
  import Means
  import CubicGraphs
  import FourCycles
  import opened Colors
  import opened Refinement
  import opened Distances

  datatype Certificate = Certificate(order: int, vertexColors: seq<Color>, distanceProfiles: seq<seq<int>>,
                                     edgeColors: seq<(Color, Color)>)

  // --- One certificate ----------------------------------------------------------------------

  /** Row s holds the distances from s. */
  ghost predicate TrueRows(g: Adjacency, rows: seq<seq<int>>) {
    |rows| == |g| && forall s :: 0 <= s < |g| ==> TrueRow(g, s, rows[s])
  }

  ghost predicate TrueRow(g: Adjacency, s: int, row: seq<int>) {
    |row| == |g| && forall v :: 0 <= v < |g| ==> IsDistance(g, s, v, row[v])
  }

  /** Every row is sorted. */
  ghost predicate SortedRows(rows: seq<seq<int>>, profiles: seq<seq<int>>) {
    |profiles| == |rows| && forall s :: 0 <= s < |rows| ==>
      Sorted(profiles[s], IntLeq) && multiset(profiles[s]) == multiset(rows[s])
  }

  /** The profiles are the sorted rows of true distances, themselves sorted. */
  ghost predicate TellsDistances(g: Adjacency, r: Certificate) {
    && Sorted(r.distanceProfiles, SeqLeq)
    && exists rows, profiles :: TrueRows(g, rows) && SortedRows(rows, profiles)
                                && multiset(r.distanceProfiles) == multiset(profiles)
  }

  /** Equitable, and no equitable colouring is coarser. */
  ghost predicate Coarsest(g: Adjacency, colors: seq<Color>) {
    Equitable(g, colors) && forall e :: Equitable(g, e) ==> Finer(e, colors)
  }

  /** The colours of both ends, the lesser one first. */
  ghost predicate IsEdgeColor(colors: seq<Color>, e: Edge, pair: (Color, Color))
    requires IsEdge(|colors|, e)
  {
    (pair == (colors[e.0], colors[e.1]) || pair == (colors[e.1], colors[e.0])) && ColorLeq(pair.0, pair.1)
  }

  ghost predicate EdgePairs(colors: seq<Color>, edges: seq<Edge>, pairs: seq<(Color, Color)>)
    requires forall i :: 0 <= i < |edges| ==> IsEdge(|colors|, edges[i])
  {
    |pairs| == |edges| && forall i :: 0 <= i < |edges| ==> IsEdgeColor(colors, edges[i], pairs[i])
  }

  /** The vertex colours and the pairs of the edges, both sorted. */
  ghost predicate TellsColors(g: GraphState, colors: seq<Color>, r: Certificate)
    requires EndpointsInRange(g)
  {
    && |colors| == g.order
    && Sorted(r.vertexColors, ColorLeq) && multiset(r.vertexColors) == multiset(colors)
    && Sorted(r.edgeColors, ColorPairLeq)
    && exists pairs :: EdgePairs(colors, g.edges, pairs) && multiset(r.edgeColors) == multiset(pairs)
  }

  /** The order, the distances, the final colours, and the colours along the edges. */
  ghost predicate Tells(g: GraphState, r: Certificate)
    requires EndpointsInRange(g)
  {
    var links := CubicGraphs.Links(g);
    && r.order == g.order && TellsDistances(links, r)
    && Coarsest(links, FinalColors(links)) && TellsColors(g, FinalColors(links), r)
  }

  // --- Distances ----------------------------------------------------------------------------

  function Equals(d: int): int -> bool {
    (x: int) => x == d
  }

  /** How many entries are d. */
  function Entries(d: int): seq<int> -> real {
    (row: seq<int>) => Count(Equals(d), row) as real
  }

  /** The pairs of vertices at distance d; at distance -1 are the pairs without a walk. */
  ghost function PairsAt(g: Adjacency, d: int): (r: set<(int, int)>)
    ensures forall p :: p in r <==> 0 <= p.0 < |g| && 0 <= p.1 < |g| && IsDistance(g, p.0, p.1, d)
  {
    set u, v | u in UpTo(|g|) && v in UpTo(|g|) && IsDistance(g, u, v, d) :: (u, v)
  }

  function PairWith(u: int): int -> (int, int) {
    (v: int) => (u, v)
  }

  /** The places of a row in the table. */
  lemma RowPlaces(u: int, row: set<int>) returns (places: set<(int, int)>)
    ensures |places| == |row| && forall p :: p in places <==> p.0 == u && p.1 in row
  {
    places := set v | v in row :: PairWith(u)(v);
    forall v | v in row ensures PairWith(u)(v) in places {}
    FourCycles.ImageSize(row, PairWith(u), places);
  }

  /** The places of a table that hold d. */
  ghost predicate ArePlaces(rows: seq<seq<int>>, d: int, places: set<(int, int)>) {
    forall p :: p in places <==> 0 <= p.0 < |rows| && 0 <= p.1 < |rows[p.0]| && rows[p.0][p.1] == d
  }

  lemma PlacesInLast(rows: seq<seq<int>>, d: int, n: nat, before: set<(int, int)>, added: set<(int, int)>)
    requires |rows| == n + 1 && ArePlaces(rows[..n], d, before)
    requires forall p :: p in added <==> p.0 == n && 0 <= p.1 < |rows[n]| && rows[n][p.1] == d
    ensures ArePlaces(rows, d, before + added) && |before + added| == |before| + |added|
  {
    assert forall p :: p in before ==> 0 <= p.0 < n && rows[..n][p.0] == rows[p.0];
    assert before !! added;
    forall p ensures p in before + added
                <==> 0 <= p.0 < |rows| && 0 <= p.1 < |rows[p.0]| && rows[p.0][p.1] == d {
      if 0 <= p.0 < n {
        assert rows[..n][p.0] == rows[p.0];
      }
    }
  }

  lemma EntriesInLast(rows: seq<seq<int>>, d: int, n: nat)
    requires |rows| == n + 1
    ensures Means.Sum(Map(Entries(d), rows))
         == Means.Sum(Map(Entries(d), rows[..n])) + Count(Equals(d), rows[n]) as real
  {
    assert Map(Entries(d), rows) == Map(Entries(d), rows[..n]) + [Entries(d)(rows[n])];
    Means.SumAppend(Map(Entries(d), rows[..n]), Entries(d)(rows[n]));
  }

  lemma {:induction false} PlacesIn(rows: seq<seq<int>>, d: int) returns (places: set<(int, int)>)
    ensures ArePlaces(rows, d, places) && |places| as real == Means.Sum(Map(Entries(d), rows))
  {
    places := {};
    if rows != [] {
      var n := |rows| - 1;
      var before := PlacesIn(rows[..n], d);
      var last := CountPlaces(Equals(d), rows[n]);
      var added := RowPlaces(n, last);
      PlacesInLast(rows, d, n, before, added);
      EntriesInLast(rows, d, n);
      places := before + added;
    }
  }

  /** The table of distances holds d once for every pair at distance d. */
  lemma PairsCounted(g: Adjacency, rows: seq<seq<int>>, d: int)
    requires TrueRows(g, rows)
    ensures |PairsAt(g, d)| as real == Means.Sum(Map(Entries(d), rows))
  {
    var places := PlacesIn(rows, d);
    forall p: (int, int) ensures p in places <==> p in PairsAt(g, d) {
      if 0 <= p.0 < |g| && 0 <= p.1 < |g| {
        assert TrueRow(g, p.0, rows[p.0]);
        if IsDistance(g, p.0, p.1, d) {
          DistanceUnique(g, p.0, p.1, d, rows[p.0][p.1]);
        }
      }
    }
    assert places == PairsAt(g, d);
  }

  lemma ProfilesCounted(rows: seq<seq<int>>, profiles: seq<seq<int>>, d: int)
    requires SortedRows(rows, profiles)
    ensures Map(Entries(d), profiles) == Map(Entries(d), rows)
  {
    forall s | 0 <= s < |rows| ensures Entries(d)(profiles[s]) == Entries(d)(rows[s]) {
      CountPermuted(Equals(d), profiles[s], rows[s]);
    }
  }

  /** The certificate holds every distance as often as there are pairs at that distance. */
  lemma DistancesTold(g: Adjacency, r: Certificate, d: int)
    requires TellsDistances(g, r)
    ensures |PairsAt(g, d)| as real == Means.Sum(Map(Entries(d), r.distanceProfiles))
  {
    var rows, profiles :| TrueRows(g, rows) && SortedRows(rows, profiles)
                          && multiset(r.distanceProfiles) == multiset(profiles);
    PairsCounted(g, rows, d);
    ProfilesCounted(rows, profiles, d);
    MapMultiset(Entries(d), r.distanceProfiles, profiles);
    Means.SumPermuted(Map(Entries(d), r.distanceProfiles), Map(Entries(d), profiles));
  }

  // --- Edges --------------------------------------------------------------------------------

  /** The places of the edges whose ends have these two colours. */
  ghost function EdgesBetween(g: GraphState, colors: seq<Color>, x: Color, y: Color): (r: set<int>)
    requires EndpointsInRange(g) && |colors| == g.order
    ensures forall i :: i in r <==> 0 <= i < |g.edges| && Joins(colors, g.edges[i], x, y)
  {
    set i | i in UpTo(|g.edges|) && Joins(colors, g.edges[i], x, y)
  }

  ghost predicate Joins(colors: seq<Color>, e: Edge, x: Color, y: Color)
    requires IsEdge(|colors|, e)
  {
    (colors[e.0] == x && colors[e.1] == y) || (colors[e.0] == y && colors[e.1] == x)
  }

  function IsPair(x: Color, y: Color): ((Color, Color)) -> bool {
    (pair: (Color, Color)) => pair == (x, y) || pair == (y, x)
  }

  lemma EdgesTold(g: GraphState, colors: seq<Color>, r: Certificate, x: Color, y: Color)
    requires EndpointsInRange(g) && TellsColors(g, colors, r)
    ensures |EdgesBetween(g, colors, x, y)| == Count(IsPair(x, y), r.edgeColors)
  {
    var pairs: seq<(Color, Color)> :| EdgePairs(colors, g.edges, pairs) && multiset(r.edgeColors) == multiset(pairs);
    CountPermuted(IsPair(x, y), r.edgeColors, pairs);
    var places := CountPlaces(IsPair(x, y), pairs);
    forall i ensures i in places <==> i in EdgesBetween(g, colors, x, y) {
      if 0 <= i < |g.edges| {
        assert IsEdgeColor(colors, g.edges[i], pairs[i]);
      }
    }
    assert places == EdgesBetween(g, colors, x, y);
  }

  // --- Two graphs ---------------------------------------------------------------------------

  /** Graphs with the same certificate have the same order and at every distance equally many pairs of vertices. */
  lemma SameDistances(g: GraphState, h: GraphState, r: Certificate, d: int)
    requires EndpointsInRange(g) && EndpointsInRange(h) && Tells(g, r) && Tells(h, r)
    ensures g.order == h.order && |PairsAt(CubicGraphs.Links(g), d)| == |PairsAt(CubicGraphs.Links(h), d)|
  {
    DistancesTold(CubicGraphs.Links(g), r, d);
    DistancesTold(CubicGraphs.Links(h), r, d);
  }

  /** There is one table of distances, and one way to sort its rows. */
  lemma RowsTold(g: Adjacency, r: Certificate, rows: seq<seq<int>>, profiles: seq<seq<int>>)
    requires TellsDistances(g, r) && TrueRows(g, rows) && SortedRows(rows, profiles)
    ensures multiset(r.distanceProfiles) == multiset(profiles)
  {
    var others, told :| TrueRows(g, others) && SortedRows(others, told)
                        && multiset(r.distanceProfiles) == multiset(told);
    forall s | 0 <= s < |g| ensures profiles[s] == told[s] {
      RowUnique(g, s, rows[s], others[s]);
      IntOrder();
      SortedUnique(profiles[s], told[s], IntLeq);
    }
    assert profiles == told;
  }

  lemma RowUnique(g: Adjacency, s: int, a: seq<int>, b: seq<int>)
    requires TrueRow(g, s, a) && TrueRow(g, s, b)
    ensures a == b
  {
    forall v | 0 <= v < |g| ensures a[v] == b[v] {
      DistanceUnique(g, s, v, a[v], b[v]);
    }
  }

  lemma IntOrder()
    ensures TotalOrder(IntLeq)
  {}

  // --- Exactly when two certificates agree --------------------------------------------------

  ghost predicate OrderedPairs(pairs: seq<(Color, Color)>) {
    forall i :: 0 <= i < |pairs| ==> ColorLeq(pairs[i].0, pairs[i].1)
  }

  /** Among ordered pairs, a pair with these two colours is the ordered one. */
  lemma {:induction false} PairsCount(pairs: seq<(Color, Color)>, x: Color, y: Color)
    requires OrderedPairs(pairs) && ColorLeq(x, y)
    ensures Count(IsPair(x, y), pairs) == multiset(pairs)[(x, y)]
  {
    if pairs != [] {
      var n := |pairs| - 1;
      PairsCount(pairs[..n], x, y);
      assert pairs == pairs[..n] + [pairs[n]];
      StringTotal(x, y);
    }
  }

  lemma EdgeColorsOrdered(g: GraphState, colors: seq<Color>, r: Certificate)
    requires EndpointsInRange(g) && TellsColors(g, colors, r)
    ensures OrderedPairs(r.edgeColors)
  {
    var pairs: seq<(Color, Color)> :| EdgePairs(colors, g.edges, pairs) && multiset(r.edgeColors) == multiset(pairs);
    forall i | 0 <= i < |r.edgeColors| ensures ColorLeq(r.edgeColors[i].0, r.edgeColors[i].1) {
      assert r.edgeColors[i] in multiset(pairs);
      var j :| 0 <= j < |pairs| && pairs[j] == r.edgeColors[i];
      assert IsEdgeColor(colors, g.edges[j], pairs[j]);
    }
  }

  /** Ordered pairs are determined by how often two colours meet. */
  lemma CountsDetermine(a: seq<(Color, Color)>, b: seq<(Color, Color)>)
    requires OrderedPairs(a) && OrderedPairs(b)
    requires Sorted(a, ColorPairLeq) && Sorted(b, ColorPairLeq)
    requires forall x, y :: Count(IsPair(x, y), a) == Count(IsPair(x, y), b)
    ensures a == b
  {
    forall p: (Color, Color) ensures multiset(a)[p] == multiset(b)[p] {
      if ColorLeq(p.0, p.1) {
        PairsCount(a, p.0, p.1);
        PairsCount(b, p.0, p.1);
      } else {
        assert p !in multiset(a) && p !in multiset(b);
      }
    }
    ColorPairOrder();
    SortedUnique(a, b, ColorPairLeq);
  }

  /** The graphs agree in all that a certificate tells. */
  ghost predicate Indistinct(g: GraphState, h: GraphState)
    requires EndpointsInRange(g) && EndpointsInRange(h)
  {
    var links, others := CubicGraphs.Links(g), CubicGraphs.Links(h);
    && g.order == h.order
    && SameProfiles(links, others)
    && multiset(FinalColors(links)) == multiset(FinalColors(others))
    && forall x, y :: |EdgesBetween(g, FinalColors(links), x, y)| == |EdgesBetween(h, FinalColors(others), x, y)|
  }

  /** The rows of true distances are the same multiset up to the order within the rows. */
  ghost predicate SameProfiles(g: Adjacency, h: Adjacency) {
    exists rows, others, profiles, others' ::
      TrueRows(g, rows) && SortedRows(rows, profiles) && TrueRows(h, others) && SortedRows(others, others')
      && multiset(profiles) == multiset(others')
  }

  lemma ProfilesSame(g: Adjacency, h: Adjacency, r: Certificate, q: Certificate)
    requires TellsDistances(g, r) && TellsDistances(h, q)
    ensures r.distanceProfiles == q.distanceProfiles <==> SameProfiles(g, h)
  {
    if r.distanceProfiles == q.distanceProfiles {
      var rows, profiles :| TrueRows(g, rows) && SortedRows(rows, profiles)
                            && multiset(r.distanceProfiles) == multiset(profiles);
      var others, others' :| TrueRows(h, others) && SortedRows(others, others')
                             && multiset(q.distanceProfiles) == multiset(others');
      assert SameProfiles(g, h);
    }
    if SameProfiles(g, h) {
      var rows, others, profiles, others' :| TrueRows(g, rows) && SortedRows(rows, profiles)
        && TrueRows(h, others) && SortedRows(others, others') && multiset(profiles) == multiset(others');
      RowsTold(g, r, rows, profiles);
      RowsTold(h, q, others, others');
      SeqOrder();
      SortedUnique(r.distanceProfiles, q.distanceProfiles, SeqLeq);
    }
  }

  lemma ColorsSame(g: GraphState, h: GraphState, c: seq<Color>, d: seq<Color>, r: Certificate, q: Certificate)
    requires EndpointsInRange(g) && EndpointsInRange(h) && TellsColors(g, c, r) && TellsColors(h, d, q)
    ensures r.vertexColors == q.vertexColors <==> multiset(c) == multiset(d)
    ensures r.edgeColors == q.edgeColors <==> forall x, y :: |EdgesBetween(g, c, x, y)| == |EdgesBetween(h, d, x, y)|
  {
    if multiset(c) == multiset(d) {
      ColorOrder();
      SortedUnique(r.vertexColors, q.vertexColors, ColorLeq);
    }
    forall x: Color, y: Color
      ensures |EdgesBetween(g, c, x, y)| == Count(IsPair(x, y), r.edgeColors)
      ensures |EdgesBetween(h, d, x, y)| == Count(IsPair(x, y), q.edgeColors)
    {
      EdgesTold(g, c, r, x, y);
      EdgesTold(h, d, q, x, y);
    }
    EdgeColorsOrdered(g, c, r);
    EdgeColorsOrdered(h, d, q);
    if forall x, y :: |EdgesBetween(g, c, x, y)| == |EdgesBetween(h, d, x, y)| {
      CountsDetermine(r.edgeColors, q.edgeColors);
    }
  }

  /** Two certificates are equal exactly when the graphs agree in order, distances, colours and edge colours. */
  lemma SameExactly(g: GraphState, h: GraphState, r: Certificate, q: Certificate)
    requires EndpointsInRange(g) && EndpointsInRange(h) && Tells(g, r) && Tells(h, q)
    ensures r == q <==> Indistinct(g, h)
  {
    ProfilesSame(CubicGraphs.Links(g), CubicGraphs.Links(h), r, q);
    ColorsSame(g, h, FinalColors(CubicGraphs.Links(g)), FinalColors(CubicGraphs.Links(h)), r, q);
  }

}
