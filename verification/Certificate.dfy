/** The label-independent certificate of a graph does not change under any vertex permutation. */
module Certificate {
  import opened Graphs
  import opened Sorting
  import opened Models
  import CubicGraphs
  import opened Permutations
  import opened Isomorphism
  import opened Relabeling
  import opened Colors
  import opened Refinement
  import opened Distances
  import opened Meaning

  // --- What a permutation carries -----------------------------------------------------------

  /** Entry p[v] of d is entry v of c. */
  ghost predicate Carried<T>(p: seq<int>, c: seq<T>, d: seq<T>) {
    |c| == |d| == |p| && Permutation(p, |p|) && forall v :: 0 <= v < |p| ==> d[p[v]] == c[v]
  }

  function At<T>(s: seq<T>, default: T): int -> T {
    (i: int) => if 0 <= i < |s| then s[i] else default
  }

  lemma IdentityElements(n: nat)
    ensures Distinct(Identity(n)) && forall v :: v in Identity(n) <==> 0 <= v < n
  {
    forall v | 0 <= v < n ensures v in Identity(n) {
      assert Identity(n)[v] == v;
    }
  }

  /** A list carried along a permutation keeps its multiset of entries. */
  lemma CarriedMultiset<T>(p: seq<int>, c: seq<T>, d: seq<T>)
    requires Carried(p, c, d)
    ensures multiset(c) == multiset(d)
  {
    if p != [] {
      var n, id := |p|, Identity(|p|);
      PermutationOnto(p, n);
      IdentityElements(n);
      SameElements(p, id);
      MapMultiset(At(d, d[0]), p, id);
      assert Map(At(d, d[0]), p) == c;
      assert Map(At(d, d[0]), id) == d;
    }
  }

  // --- Colours ------------------------------------------------------------------------------

  lemma AroundCarried(g: Adjacency, h: Adjacency, p: seq<int>, c: seq<Color>, d: seq<Color>, u: int)
    requires Iso(g, h, p) && Carried(p, c, d) && |c| == |g| && 0 <= u < |g|
    ensures multiset(Around(h, d, p[u])) == multiset(Around(g, c, u))
  {
    var list, image := SortedSet(g[u], |g|), SortedSet(h[p[u]], |h|);
    SortedSetSorts(g[u], |g|);
    SortedSetSorts(h[p[u]], |h|);
    var moved := Map(At(p, 0), list);
    MovedElements(g, h, p, u, list, moved);
    forall w ensures w in moved <==> w in image {
      assert w in h[p[u]] ==> 0 <= w < |h|;
    }
    SameElements(moved, image);
    MapMultiset(ColorAt(d), moved, image);
    assert Map(ColorAt(d), moved) == Map(ColorAt(c), list) by {
      assert forall i :: 0 <= i < |list| ==> list[i] in list;
    }
  }

  lemma MovedElements(g: Adjacency, h: Adjacency, p: seq<int>, u: int, list: seq<int>, moved: seq<int>)
    requires Iso(g, h, p) && 0 <= u < |g| && Distinct(list) && moved == Map(At(p, 0), list)
    requires forall v :: v in list <==> v in g[u]
    ensures Distinct(moved) && forall w :: w in moved <==> w in h[p[u]] && 0 <= w < |h|
  {
    forall i | 0 <= i < |list| ensures 0 <= list[i] < |g| && moved[i] == p[list[i]] {
      assert list[i] in list && list[i] in g[u];
    }
    var q := Inverse(p, |g|);
    forall w | w in h[p[u]] ensures w in moved {
      assert p[q[w]] == w && q[w] in list;
      var i :| 0 <= i < |list| && list[i] == q[w];
      assert moved[i] == w;
    }
  }

  lemma SignatureCarried(g: Adjacency, h: Adjacency, p: seq<int>, c: seq<Color>, d: seq<Color>, u: int)
    requires Iso(g, h, p) && Carried(p, c, d) && |c| == |g| && 0 <= u < |g|
    ensures SignatureAt(h, d, p[u]) == SignatureAt(g, c, u)
  {
    AroundCarried(g, h, p, c, d, u);
    ColorOrder();
    SortCanonical(Around(h, d, p[u]), Around(g, c, u), ColorLeq);
  }

  /** The palette depends only on which signatures occur. */
  lemma RankedSame(a: seq<Signature>, b: seq<Signature>)
    requires forall s :: s in a <==> s in b
    ensures Ranked(a) == Ranked(b)
  {
    SameElements(Elements(a), Elements(b));
    ReprOrder();
    SortCanonical(Elements(a), Elements(b), ReprLeq);
  }

  lemma CarriedElements<T>(p: seq<int>, c: seq<T>, d: seq<T>)
    requires Carried(p, c, d)
    ensures forall x :: x in c <==> x in d
  {
    CarriedMultiset(p, c, d);
    forall x ensures x in c <==> x in d {
      assert x in multiset(c) <==> x in multiset(d);
    }
  }

  /** A round carries carried colours to carried colours. */
  lemma RoundCarried(g: Adjacency, h: Adjacency, p: seq<int>, c: seq<Color>, d: seq<Color>)
    requires Iso(g, h, p) && Carried(p, c, d) && |c| == |g|
    ensures Carried(p, Round(g)(c), Round(h)(d))
  {
    var s, t := Signatures(g, c), Signatures(h, d);
    forall v | 0 <= v < |g| ensures t[p[v]] == s[v] {
      SignatureCarried(g, h, p, c, d, v);
    }
    CarriedElements(p, s, t);
    RankedSame(s, t);
  }

  lemma CarriedSame<T>(p: seq<int>, c: seq<T>, d: seq<T>, c': seq<T>, d': seq<T>)
    requires Carried(p, c, d) && Carried(p, c', d')
    ensures c == c' <==> d == d'
  {
    if c == c' {
      PermutationOnto(p, |p|);
      forall w | 0 <= w < |p| ensures d[w] == d'[w] {
        assert p[Position(p, w)] == w;
      }
    }
  }

  ghost predicate CarriesAlways<T(!new)>(p: seq<int>, f: seq<T> -> seq<T>, k: seq<T> -> seq<T>) {
    forall c, d :: Carried(p, c, d) ==> Carried(p, f(c), k(d))
  }

  /** The loops of both graphs stay in step, and break in the same round. */
  lemma {:induction false} LoopCarried<T(!new)>(p: seq<int>, f: seq<T> -> seq<T>, k: seq<T> -> seq<T>,
                                          c: seq<T>, d: seq<T>, rounds: nat)
    requires CarriesAlways(p, f, k) && Carried(p, c, d)
    ensures Carried(p, Loop(f, c, rounds), Loop(k, d, rounds))
    decreases rounds
  {
    if rounds > 0 {
      CarriedSame(p, c, d, f(c), k(d));
      if f(c) != c {
        LoopCarried(p, f, k, f(c), k(d), rounds - 1);
      }
    }
  }

  lemma DegreesCarried(g: Adjacency, h: Adjacency, p: seq<int>)
    requires Iso(g, h, p)
    ensures Carried(p, DegreeColors(g), DegreeColors(h))
  {
    forall v | 0 <= v < |g| ensures DegreeColors(h)[p[v]] == DegreeColors(g)[v] {
      NeighbourImage(g, h, p, v);
    }
  }

  /** The final colours are carried along every isomorphism. */
  lemma FinalColorsCarried(g: Adjacency, h: Adjacency, p: seq<int>)
    requires Iso(g, h, p)
    ensures Carried(p, FinalColors(g), FinalColors(h))
  {
    forall c: seq<Color>, d: seq<Color> | Carried(p, c, d) ensures Carried(p, Round(g)(c), Round(h)(d)) {
      if |c| == |g| {
        RoundCarried(g, h, p, c, d);
      }
    }
    DegreesCarried(g, h, p);
    LoopCarried(p, Round(g), Round(h), DegreeColors(g), DegreeColors(h), |g|);
  }

  // --- Distances ----------------------------------------------------------------------------

  lemma DistanceCarried(g: Adjacency, h: Adjacency, p: seq<int>, s: int, v: int)
    requires Iso(g, h, p) && 0 <= s < |g| && 0 <= v < |g|
    ensures Distance(h, p[s], p[v]) == Distance(g, s, v)
  {
    forall k: nat ensures Walk(g, s, v, k) <==> Walk(h, p[s], p[v], k) {
      WalkIff(g, h, p, s, v, k);
    }
    DistanceUnique(g, s, v, Distance(g, s, v), Distance(h, p[s], p[v]));
  }

  /** The sorted distances from one vertex. */
  ghost function Profile(g: Adjacency, s: int): seq<int> {
    Sort(seq(|g|, v => Distance(g, s, v)), IntLeq)
  }

  ghost function Profiles(g: Adjacency): (r: seq<seq<int>>)
    ensures |r| == |g|
  {
    seq(|g|, s => Profile(g, s))
  }

  lemma ProfilesCarried(g: Adjacency, h: Adjacency, p: seq<int>)
    requires Iso(g, h, p)
    ensures Carried(p, Profiles(g), Profiles(h))
  {
    forall s | 0 <= s < |g| ensures Profile(h, p[s]) == Profile(g, s) {
      var a, b := seq(|g|, v => Distance(g, s, v)), seq(|h|, v => Distance(h, p[s], v));
      forall v | 0 <= v < |g| ensures b[p[v]] == a[v] {
        DistanceCarried(g, h, p, s, v);
      }
      CarriedMultiset(p, a, b);
      SortCanonical(a, b, IntLeq);
    }
  }

  // --- Edge colours -------------------------------------------------------------------------

  /** (min, max) of the colours of the endpoints. */
  function EdgeColors(colors: seq<Color>): Edge -> (Color, Color) {
    var at := ColorAt(colors);
    (e: Edge) => if ColorLeq(at(e.0), at(e.1)) then (at(e.0), at(e.1)) else (at(e.1), at(e.0))
  }

  lemma EdgeColorsCarried(p: seq<int>, c: seq<Color>, d: seq<Color>, e: Edge)
    requires Carried(p, c, d) && IsEdge(|p|, e)
    ensures EdgeColors(d)(EdgeMap(p)(e)) == EdgeColors(c)(e)
  {
    StringTotal(c[e.0], c[e.1]);
  }

  lemma MappedColors(g: GraphState, p: seq<int>, c: seq<Color>, d: seq<Color>)
    requires EndpointsInRange(g) && Carried(p, c, d) && |p| == g.order
    ensures Map(EdgeColors(d), Map(EdgeMap(p), g.edges)) == Map(EdgeColors(c), g.edges)
  {
    forall i | 0 <= i < |g.edges| ensures EdgeColors(d)(Map(EdgeMap(p), g.edges)[i]) == EdgeColors(c)(g.edges[i]) {
      EdgeColorsCarried(p, c, d, g.edges[i]);
    }
  }

  lemma EdgeListCarried(g: GraphState, p: seq<int>, c: seq<Color>, d: seq<Color>)
    requires EndpointsInRange(g) && Carried(p, c, d) && |p| == g.order
    ensures multiset(Map(EdgeColors(d), Relabelled(g, p).edges)) == multiset(Map(EdgeColors(c), g.edges))
  {
    RelabelledEdges(g, p);
    MapMultiset(EdgeColors(d), Relabelled(g, p).edges, Map(EdgeMap(p), g.edges));
    MappedColors(g, p, c, d);
  }

  // --- The certificate ----------------------------------------------------------------------

  ghost function CertificateOf(g: GraphState): Certificate
    requires g.order >= 0
  {
    var links := CubicGraphs.Links(g);
    var colors := FinalColors(links);
    Certificate(g.order, Sort(colors, ColorLeq), Sort(Profiles(links), SeqLeq),
                Sort(Map(EdgeColors(colors), g.edges), ColorPairLeq))
  }

  lemma ProfileTells(g: Adjacency, s: int, row: seq<int>)
    requires 0 <= s < |g| && row == seq(|g|, v => Distance(g, s, v))
    ensures TrueRow(g, s, row) && Sorted(Profile(g, s), IntLeq) && multiset(Profile(g, s)) == multiset(row)
  {
    IntOrder();
    SortSorts(row, IntLeq);
    SortPermutes(row, IntLeq);
  }

  lemma ProfilesTell(g: Adjacency, r: Certificate)
    requires r.distanceProfiles == Sort(Profiles(g), SeqLeq)
    ensures TellsDistances(g, r)
  {
    var rows, profiles := seq(|g|, s => seq(|g|, v => Distance(g, s, v))), Profiles(g);
    forall s | 0 <= s < |g|
      ensures TrueRow(g, s, rows[s]) && Sorted(profiles[s], IntLeq) && multiset(profiles[s]) == multiset(rows[s])
    {
      ProfileTells(g, s, rows[s]);
    }
    SeqOrder();
    SortSorts(profiles, SeqLeq);
    SortPermutes(profiles, SeqLeq);
    assert TrueRows(g, rows) && SortedRows(rows, profiles);
  }

  lemma ColorsTell(g: GraphState, colors: seq<Color>, r: Certificate)
    requires EndpointsInRange(g) && |colors| == g.order
    requires r.vertexColors == Sort(colors, ColorLeq)
    requires r.edgeColors == Sort(Map(EdgeColors(colors), g.edges), ColorPairLeq)
    ensures TellsColors(g, colors, r)
  {
    var pairs := Map(EdgeColors(colors), g.edges);
    ColorOrder();
    SortSorts(colors, ColorLeq);
    SortPermutes(colors, ColorLeq);
    ColorPairOrder();
    SortSorts(pairs, ColorPairLeq);
    SortPermutes(pairs, ColorPairLeq);
    forall i | 0 <= i < |g.edges| ensures IsEdgeColor(colors, g.edges[i], pairs[i]) {
      StringTotal(colors[g.edges[i].0], colors[g.edges[i].1]);
    }
    assert EdgePairs(colors, g.edges, pairs);
  }

  /** The certificate tells order, distances, final colours and edge colours. */
  lemma CertificateTells(g: GraphState)
    requires EndpointsInRange(g)
    ensures Tells(g, CertificateOf(g))
  {
    var links := CubicGraphs.Links(g);
    FinalIsCoarsestEquitable(links);
    ProfilesTell(links, CertificateOf(g));
    ColorsTell(g, FinalColors(links), CertificateOf(g));
  }

  /** Two graphs have the same certificate exactly when they agree in all of it. */
  lemma CertificateExact(g: GraphState, h: GraphState)
    requires EndpointsInRange(g) && EndpointsInRange(h)
    ensures CertificateOf(g) == CertificateOf(h) <==> Indistinct(g, h)
  {
    CertificateTells(g);
    CertificateTells(h);
    SameExactly(g, h, CertificateOf(g), CertificateOf(h));
  }

  method DistanceProfiles(g: Adjacency) returns (profiles: seq<seq<int>>)
    requires NeighboursInRange(g)
    ensures profiles == Profiles(g)
  {
    profiles := [];
    for start := 0 to |g|
      invariant profiles == Profiles(g)[..start]
    {
      var distances := DistancesFrom(g, start);
      assert distances == seq(|g|, v => Distance(g, start, v));
      profiles := profiles + [Sort(distances, IntLeq)];
    }
  }

  /** The refinement, the searches and the edge colours of one graph. */
  method BuildCertificate(g: GraphState) returns (r: Certificate)
    requires EndpointsInRange(g)
    ensures Tells(g, r) && r == CertificateOf(g)
  {
    CertificateTells(g);
    var adjacency := BuildAdjacency(g);
    var colors := RefineColors(adjacency);
    var profiles := DistanceProfiles(adjacency);
    r := Certificate(g.order, Sort(colors, ColorLeq), Sort(profiles, SeqLeq),
                     Sort(Map(EdgeColors(colors), g.edges), ColorPairLeq));
  }

  /** Every relabelling of every graph has the certificate of the graph. */
  lemma CertificateInvariant(g: GraphState, p: seq<int>)
    requires EndpointsInRange(g) && Permutation(p, g.order)
    ensures CertificateOf(Relabelled(g, p)) == CertificateOf(g)
  {
    var links, images := CubicGraphs.Links(g), CubicGraphs.Links(Relabelled(g, p));
    var c, d := FinalColors(links), FinalColors(images);
    RelabelIso(g, p);
    FinalColorsCarried(links, images, p);
    CarriedMultiset(p, c, d);
    ColorOrder();
    SortCanonical(c, d, ColorLeq);
    ProfilesCarried(links, images, p);
    CarriedMultiset(p, Profiles(links), Profiles(images));
    SeqOrder();
    SortCanonical(Profiles(links), Profiles(images), SeqLeq);
    EdgeListCarried(g, p, c, d);
    ColorPairOrder();
    SortCanonical(Map(EdgeColors(c), g.edges), Map(EdgeColors(d), Relabelled(g, p).edges), ColorPairLeq);
  }

  // --- The relabelling contract -------------------------------------------------------------

  /** The identity of one relabeling is that of the base graph. */
  method UnlabeledIdentity(base: GraphState, digests: nat -> nat, hash: Certificate -> string)
    returns (identity: string)
    requires EndpointsInRange(base) && base.order >= 1
    ensures identity == hash(CertificateOf(base))
  {
    var permutation := DeterministicPermutation(base.order, digests);
    var relabeled := ApplyPermutation(base, permutation).value;
    RelabelledInRange(base, permutation);
    CertificateInvariant(base, permutation);
    var certificate := BuildCertificate(relabeled);
    identity := hash(certificate);
  }

  /**
    The identities of the relabelings of one base graph. The check that follows demands exactly one
    distinct identity: it fails exactly when there are no relabeling seeds.
   */
  method UnlabeledIdentities(base: GraphState, seeds: seq<int>, digest: (int, nat) -> nat, hash: Certificate -> string)
    returns (identities: seq<string>, accepted: bool, ghost certificate: Certificate)
    requires EndpointsInRange(base) && base.order >= 1
    ensures |identities| == |seeds| && Tells(base, certificate)
    ensures forall i :: 0 <= i < |seeds| ==> identities[i] == hash(certificate)
    ensures accepted <==> seeds != []
  {
    identities := [];
    certificate := CertificateOf(base);
    for i := 0 to |seeds|
      invariant |identities| == i && forall j :: 0 <= j < i ==> identities[j] == hash(CertificateOf(base))
    {
      var identity := UnlabeledIdentity(base, (k: nat) => digest(seeds[i], k), hash);
      identities := identities + [identity];
    }
    accepted := |set i | 0 <= i < |identities| :: identities[i]| == 1;
    OneIdentity(identities, hash(certificate));
    CertificateTells(base);
  }

  lemma OneIdentity(identities: seq<string>, identity: string)
    requires forall j :: 0 <= j < |identities| ==> identities[j] == identity
    ensures |set i | 0 <= i < |identities| :: identities[i]| == 1 <==> identities != []
  {
    var distinct := set i | 0 <= i < |identities| :: identities[i];
    if identities != [] {
      assert identities[0] in distinct;
      assert distinct == {identity};
    } else {
      assert distinct == {};
    }
  }
}
