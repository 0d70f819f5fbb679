/**
  Weisfeiler-Leman colour refinement: it is carried along isomorphisms and ends in the coarsest equitable
  colouring.
 */
module Refinement {
  import opened Graphs
  import opened Sorting
  import opened Colors

  // --- One round ----------------------------------------------------------------------------

  const NO_COLOR: Color := "0"

  /** The colour list as a total map on vertices. */
  function ColorAt(colors: seq<Color>): int -> Color {
    (v: int) => if 0 <= v < |colors| then colors[v] else NO_COLOR
  }

  function Around(g: Adjacency, colors: seq<Color>, v: int): seq<Color>
    requires 0 <= v < |g|
  {
    Map(ColorAt(colors), SortedSet(g[v], |g|))
  }

  function SignatureAt(g: Adjacency, colors: seq<Color>, v: int): Signature
    requires 0 <= v < |g| == |colors|
  {
    Signature(colors[v], Sort(Around(g, colors, v), ColorLeq))
  }

  function Signatures(g: Adjacency, colors: seq<Color>): (r: seq<Signature>)
    requires |colors| == |g|
    ensures |r| == |g|
  {
    seq(|g|, v requires 0 <= v < |g| => SignatureAt(g, colors, v))
  }

  /** sorted(set(signatures), key=repr) */
  function Ranked(signatures: seq<Signature>): seq<Signature> {
    Sort(Elements(signatures), ReprLeq)
  }

  lemma RankedAll(signatures: seq<Signature>, s: Signature)
    ensures s in Ranked(signatures) <==> s in signatures
  {
    var elements := Elements(signatures);
    SortPermutes(elements, ReprLeq);
    assert s in multiset(elements) <==> s in elements;
    assert s in multiset(Ranked(signatures)) <==> s in Ranked(signatures);
  }

  /** The palette colour of a signature: its rank. */
  function PaletteColor(signatures: seq<Signature>, s: Signature): Color
    requires s in signatures
  {
    RankedAll(signatures, s);
    Decimal(Position(Ranked(signatures), s))
  }

  /** One round: every vertex gets the palette colour of its signature. */
  function Refined(g: Adjacency, colors: seq<Color>): (r: seq<Color>)
    requires |colors| == |g|
    ensures |r| == |g|
  {
    var signatures := Signatures(g, colors);
    seq(|g|, v requires 0 <= v < |g| => PaletteColor(signatures, signatures[v]))
  }

  /** Two vertices get the same new colour exactly when they had the same colour and alike neighbourhoods. */
  lemma RefinedSame(g: Adjacency, colors: seq<Color>, u: int, v: int)
    requires |colors| == |g| && 0 <= u < |g| && 0 <= v < |g|
    ensures Refined(g, colors)[u] == Refined(g, colors)[v]
            <==> colors[u] == colors[v] && multiset(Around(g, colors, u)) == multiset(Around(g, colors, v))
  {
    var s := Signatures(g, colors);
    assert s[u] in s && s[v] in s;
    RankedAll(s, s[u]);
    RankedAll(s, s[v]);
    SortPermutes(Around(g, colors, u), ColorLeq);
    SortPermutes(Around(g, colors, v), ColorLeq);
    if Refined(g, colors)[u] == Refined(g, colors)[v] {
      DecimalInjective(Position(Ranked(s), s[u]), Position(Ranked(s), s[v]));
    }
    if multiset(Around(g, colors, u)) == multiset(Around(g, colors, v)) {
      ColorOrder();
      SortCanonical(Around(g, colors, u), Around(g, colors, v), ColorLeq);
    }
  }

  /** The signatures whose repr is below that of s. */
  ghost function Lower(signatures: seq<Signature>, s: Signature): set<Signature> {
    set t | t in signatures && t != s && ReprLeq(t, s)
  }

  lemma {:induction false} DistinctSize<T(!new)>(s: seq<T>, elements: set<T>)
    requires Distinct(s) && forall x :: x in elements <==> x in s
    ensures |elements| == |s|
  {
    if s != [] {
      var n := |s| - 1;
      forall x ensures x in elements - {s[n]} <==> x in s[..n] {
        assert s == s[..n] + [s[n]];
      }
      DistinctSize(s[..n], elements - {s[n]});
    } else {
      assert elements == {};
    }
  }

  /** The entries of the palette, each once, in the order of their reprs. */
  lemma Palette(signatures: seq<Signature>)
    ensures Distinct(Ranked(signatures)) && Sorted(Ranked(signatures), ReprLeq)
  {
    ReprOrder();
    SortSorts(Elements(signatures), ReprLeq);
    SortPermutes(Elements(signatures), ReprLeq);
    DistinctPermuted(Elements(signatures), Ranked(signatures));
  }

  /** In the palette, exactly the lower signatures stand before a signature. */
  lemma BeforeIsLower(signatures: seq<Signature>, ranked: seq<Signature>, s: Signature, t: Signature)
    requires s in ranked && ranked == Ranked(signatures) && Distinct(ranked) && Sorted(ranked, ReprLeq)
    requires TotalOrder(ReprLeq)
    ensures t in ranked[..Position(ranked, s)] <==> t in Lower(signatures, s)
  {
    var i := Position(ranked, s);
    RankedAll(signatures, t);
    if t in ranked {
      var j := Position(ranked, t);
      assert t in ranked[..i] <==> j < i;
      assert i < j ==> ReprLeq(s, t);
      assert j < i ==> ReprLeq(t, s);
    }
  }

  /** The new colour of a vertex counts the signatures whose repr is below that of its own. */
  lemma RefinedIsRank(g: Adjacency, colors: seq<Color>, v: int)
    requires |colors| == |g| && 0 <= v < |g|
    ensures Refined(g, colors)[v] == Decimal(|Lower(Signatures(g, colors), SignatureAt(g, colors, v))|)
  {
    var signatures, s := Signatures(g, colors), SignatureAt(g, colors, v);
    assert signatures[v] == s && s in signatures;
    RankedAll(signatures, s);
    var ranked := Ranked(signatures);
    var before := ranked[..Position(ranked, s)];
    ReprOrder();
    Palette(signatures);
    forall t ensures t in before <==> t in Lower(signatures, s) {
      BeforeIsLower(signatures, ranked, s, t);
    }
    DistinctSize(before, Lower(signatures, s));
  }

  // --- The rounds ---------------------------------------------------------------------------

  /** One round as a function of the colouring. */
  function Round(g: Adjacency): seq<Color> -> seq<Color> {
    (colors: seq<Color>) => if |colors| == |g| then Refined(g, colors) else colors
  }

  /** The loop: it breaks as soon as a round changes nothing, and runs at most the given number of rounds. */
  function Loop<T(==)>(f: T -> T, c: T, rounds: nat): T
    decreases rounds
  {
    if rounds == 0 || f(c) == c then c else Loop(f, f(c), rounds - 1)
  }

  method RunLoop<T(==)>(f: T -> T, start: T, rounds: nat) returns (c: T)
    ensures c == Loop(f, start, rounds)
  {
    c := start;
    ghost var left := rounds;
    for i := 0 to rounds
      invariant left == rounds - i && Loop(f, c, left) == Loop(f, start, rounds)
    {
      var next := f(c);
      if next == c {
        return;
      }
      c, left := next, left - 1;
    }
  }

  function DegreeColors(g: Adjacency): (r: seq<Color>)
    ensures |r| == |g|
  {
    seq(|g|, v requires 0 <= v < |g| => Decimal(|g[v]|))
  }

  lemma {:induction false} LoopLength(f: seq<Color> -> seq<Color>, c: seq<Color>, rounds: nat)
    requires forall d :: |f(d)| == |d|
    ensures |Loop(f, c, rounds)| == |c|
    decreases rounds
  {
    if rounds > 0 && f(c) != c {
      LoopLength(f, f(c), rounds - 1);
    }
  }

  function FinalColors(g: Adjacency): (r: seq<Color>)
    ensures |r| == |g|
  {
    LoopLength(Round(g), DegreeColors(g), |g|);
    Loop(Round(g), DegreeColors(g), |g|)
  }

  method RefineColors(g: Adjacency) returns (colors: seq<Color>)
    ensures colors == FinalColors(g)
  {
    colors := RunLoop(Round(g), DegreeColors(g), |g|);
  }

  // --- Finer and coarser colourings ---------------------------------------------------------

  /** Vertices alike in c are alike in d. */
  ghost predicate Finer(c: seq<Color>, d: seq<Color>) {
    |c| == |d| && forall u, v :: 0 <= u < |c| && 0 <= v < |c| && c[u] == c[v] ==> d[u] == d[v]
  }

  ghost predicate Alike(g: Adjacency, c: seq<Color>, u: int, v: int)
    requires 0 <= u < |g| && 0 <= v < |g|
  {
    multiset(Around(g, c, u)) == multiset(Around(g, c, v))
  }

  /** Vertices of the same colour see the same multiset of colours. */
  ghost predicate Equitable(g: Adjacency, c: seq<Color>) {
    |c| == |g| && forall u, v :: 0 <= u < |g| && 0 <= v < |g| && c[u] == c[v] ==> Alike(g, c, u, v)
  }

  /** What a round does: it splits the colour classes by the colours seen around their vertices. */
  ghost predicate Splits(g: Adjacency, c: seq<Color>, d: seq<Color>) {
    && |c| == |g| && |d| == |g|
    && (forall u, v :: 0 <= u < |g| && 0 <= v < |g| ==> (d[u] == d[v] <==> c[u] == c[v] && Alike(g, c, u, v)))
  }

  ghost predicate SplitAt(g: Adjacency, c: seq<Color>, d: seq<Color>, u: int, v: int)
    requires |c| == |g| && |d| == |g| && 0 <= u < |g| && 0 <= v < |g|
  {
    d[u] == d[v] <==> c[u] == c[v] && Alike(g, c, u, v)
  }

  ghost predicate SplitsAlways(g: Adjacency, f: seq<Color> -> seq<Color>) {
    forall c: seq<Color> :: |c| == |g| ==> Splits(g, c, f(c))
  }

  /** Every round refines the partition it starts from, by splitting its classes. */
  lemma RoundRefines(g: Adjacency, c: seq<Color>)
    requires |c| == |g|
    ensures Splits(g, c, Refined(g, c)) && Finer(Refined(g, c), c)
  {
    forall u, v | 0 <= u < |g| && 0 <= v < |g| ensures SplitAt(g, c, Refined(g, c), u, v) {
      RefinedSame(g, c, u, v);
    }
    SplitEverywhere(g, c, Refined(g, c));
  }

  lemma SplitEverywhere(g: Adjacency, c: seq<Color>, d: seq<Color>)
    requires |c| == |g| && |d| == |g|
    requires forall u, v :: 0 <= u < |g| && 0 <= v < |g| ==> SplitAt(g, c, d, u, v)
    ensures Splits(g, c, d) && Finer(d, c)
  {
    forall u, v | 0 <= u < |g| && 0 <= v < |g| ensures d[u] == d[v] <==> c[u] == c[v] && Alike(g, c, u, v) {
      assert SplitAt(g, c, d, u, v);
    }
  }

  lemma RoundSplits(g: Adjacency)
    ensures SplitsAlways(g, Round(g))
  {
    forall c: seq<Color> | |c| == |g| ensures Splits(g, c, Round(g)(c)) {
      RoundRefines(g, c);
    }
  }

  /** Neighbourhoods alike in a finer colouring are alike in a coarser one. */
  lemma AlikeCoarser(g: Adjacency, c: seq<Color>, d: seq<Color>, u: int, v: int)
    requires |c| == |g| && Finer(c, d) && 0 <= u < |g| && 0 <= v < |g| && Alike(g, c, u, v)
    ensures Alike(g, d, u, v)
  {
    AroundFactors(g, c, d, u);
    AroundFactors(g, c, d, v);
    MapMultiset(Factor(c, d), Around(g, c, u), Around(g, c, v));
  }

  /** The map of colours by which a coarser colouring factors through a finer one. */
  function Factor(c: seq<Color>, d: seq<Color>): Color -> Color {
    (x: Color) => FactorColor(c, d, x)
  }

  function FactorColor(c: seq<Color>, d: seq<Color>, x: Color): Color {
    if x in c && Position(c, x) < |d| then d[Position(c, x)] else NO_COLOR
  }

  lemma FactorAt(c: seq<Color>, d: seq<Color>, v: int)
    requires Finer(c, d) && 0 <= v < |c|
    ensures Factor(c, d)(c[v]) == d[v]
  {
    var i := Position(c, c[v]);
    assert c[i] == c[v] && d[i] == d[v];
  }

  lemma AroundFactors(g: Adjacency, c: seq<Color>, d: seq<Color>, u: int)
    requires |c| == |g| && Finer(c, d) && 0 <= u < |g|
    ensures Around(g, d, u) == Map(Factor(c, d), Around(g, c, u))
  {
    var list := SortedSet(g[u], |g|);
    SortedSetSorts(g[u], |g|);
    forall i | 0 <= i < |list| ensures ColorAt(d)(list[i]) == Factor(c, d)(ColorAt(c)(list[i])) {
      assert list[i] in list;
      FactorAt(c, d, list[i]);
    }
  }

  /** A round leaves an equitable partition alone. */
  lemma EquitableUnsplit(g: Adjacency, c: seq<Color>, d: seq<Color>)
    requires Equitable(g, c) && Splits(g, c, d)
    ensures Finer(c, d) && Finer(d, c) && Equitable(g, d)
  {
    forall u, v | 0 <= u < |g| && 0 <= v < |g| && d[u] == d[v] ensures Alike(g, d, u, v) {
      AlikeCoarser(g, c, d, u, v);
    }
  }

  /** A partition that a round leaves alone is equitable. */
  lemma UnsplitIsEquitable(g: Adjacency, c: seq<Color>, d: seq<Color>)
    requires Splits(g, c, d) && Finer(c, d)
    ensures Equitable(g, c)
  {}

  // --- Stabilisation ------------------------------------------------------------------------

  /** The first vertex of every colour class. */
  ghost function Leaders(c: seq<Color>): (r: set<int>)
    ensures r <= UpTo(|c|)
    ensures forall v :: v in r <==> 0 <= v < |c| && c[v] !in c[..v]
  {
    set v | v in UpTo(|c|) && c[v] !in c[..v]
  }

  lemma {:induction false} LeaderOf(c: seq<Color>, v: int) returns (w: int)
    requires 0 <= v < |c|
    ensures 0 <= w <= v && c[w] == c[v] && w in Leaders(c)
    decreases v
  {
    if c[v] in c[..v] {
      var u :| 0 <= u < v && c[..v][u] == c[v];
      w := LeaderOf(c, u);
    } else {
      w := v;
    }
  }

  lemma LeadersFiner(c: seq<Color>, d: seq<Color>)
    requires Finer(d, c)
    ensures Leaders(c) <= Leaders(d)
  {
    forall v | v in Leaders(c) ensures v in Leaders(d) {
      var w := LeaderOf(d, v);
      assert c[w] == c[v];
      assert w == v by {
        assert forall i :: 0 <= i < v ==> c[..v][i] != c[v];
      }
    }
  }

  /** A strictly finer colouring has more classes. */
  lemma MoreLeaders(c: seq<Color>, d: seq<Color>)
    requires Finer(d, c) && !Finer(c, d)
    ensures |Leaders(c)| < |Leaders(d)|
  {
    LeadersFiner(c, d);
    SubsetCount(Leaders(c), Leaders(d));
    var u, v :| 0 <= u < |c| && 0 <= v < |c| && c[u] == c[v] && d[u] != d[v];
    var x := LeaderOf(d, u);
    var y := LeaderOf(d, v);
    assert c[x] == c[y] && x != y;
    var m, n := if x < y then x else y, if x < y then y else x;
    assert c[..n][m] == c[n];
    assert n in Leaders(d) && n !in Leaders(c);
  }

  lemma LeadersBound(c: seq<Color>)
    ensures |Leaders(c)| <= |c|
    ensures |Leaders(c)| == |c| ==> Distinct(c)
    ensures c != [] ==> |Leaders(c)| >= 1
  {
    SubsetCount(Leaders(c), UpTo(|c|));
    if |Leaders(c)| == |c| {
      forall i, j | 0 <= i < j < |c| ensures c[i] != c[j] {
        assert j in UpTo(|c|) && c[..j][i] == c[i];
      }
    }
    if c != [] {
      assert 0 in Leaders(c);
    }
  }

  /** With one round for every class that can still split, the loop ends in an equitable colouring. */
  lemma {:induction false} LoopEquitable(g: Adjacency, f: seq<Color> -> seq<Color>, c: seq<Color>, rounds: nat)
    requires SplitsAlways(g, f) && |c| == |g|
    requires Equitable(g, c) || |g| - |Leaders(c)| <= rounds
    ensures Equitable(g, Loop(f, c, rounds))
    decreases rounds
  {
    var d := f(c);
    SplitProgress(g, c, d);
    if rounds > 0 && d != c {
      LoopEquitable(g, f, d, rounds - 1);
    }
  }

  /** A split keeps an equitable colouring equitable, and gives any other one more classes. */
  lemma SplitProgress(g: Adjacency, c: seq<Color>, d: seq<Color>)
    requires Splits(g, c, d)
    ensures Equitable(g, c) ==> Equitable(g, d)
    ensures !Equitable(g, c) ==> d != c && |Leaders(c)| < |Leaders(d)| && |Leaders(c)| < |g|
  {
    if Equitable(g, c) {
      EquitableUnsplit(g, c, d);
    } else {
      if Finer(c, d) {
        UnsplitIsEquitable(g, c, d);
        assert false;
      }
      MoreLeaders(c, d);
      LeadersBound(d);
    }
  }

  /** An equitable colouring finer than c stays finer than every round from c. */
  lemma {:induction false} EquitableStaysFiner(g: Adjacency, f: seq<Color> -> seq<Color>, e: seq<Color>, c: seq<Color>,
                                               rounds: nat)
    requires SplitsAlways(g, f) && Equitable(g, e) && |c| == |g| && Finer(e, c)
    ensures Finer(e, Loop(f, c, rounds))
    decreases rounds
  {
    if rounds > 0 && f(c) != c {
      assert Splits(g, c, f(c));
      forall u, v | 0 <= u < |g| && 0 <= v < |g| && e[u] == e[v] ensures f(c)[u] == f(c)[v] {
        assert Alike(g, e, u, v);
        AlikeCoarser(g, e, c, u, v);
      }
      EquitableStaysFiner(g, f, e, f(c), rounds - 1);
    }
  }

  lemma DegreeListed(g: Adjacency, c: seq<Color>, u: int)
    requires NeighboursInRange(g) && 0 <= u < |g|
    ensures |Around(g, c, u)| == |g[u]|
  {
    var list := SortedSet(g[u], |g|);
    SortedSetSorts(g[u], |g|);
    assert forall v :: v in Vertices(list) <==> v in g[u];
    assert Vertices(list) == g[u];
    DistinctCount(list);
  }

  /** Vertices with alike neighbourhoods have the same degree. */
  lemma EquitableFinerThanDegrees(g: Adjacency, e: seq<Color>)
    requires Equitable(g, e) && NeighboursInRange(g)
    ensures Finer(e, DegreeColors(g))
  {
    forall u, v | 0 <= u < |g| && 0 <= v < |g| && e[u] == e[v] ensures |g[u]| == |g[v]| {
      assert Alike(g, e, u, v);
      assert |multiset(Around(g, e, u))| == |multiset(Around(g, e, v))|;
      DegreeListed(g, e, u);
      DegreeListed(g, e, v);
    }
  }

  /**
    The final colouring is the coarsest equitable one: it is equitable, whether the loop broke early or
    ran out, and every equitable colouring is finer.
   */
  lemma FinalIsCoarsestEquitable(g: Adjacency)
    requires NeighboursInRange(g)
    ensures Equitable(g, FinalColors(g))
    ensures forall e :: Equitable(g, e) ==> Finer(e, FinalColors(g))
  {
    RoundSplits(g);
    LeadersBound(DegreeColors(g));
    LoopEquitable(g, Round(g), DegreeColors(g), |g|);
    forall e | Equitable(g, e) ensures Finer(e, FinalColors(g)) {
      EquitableFinerThanDegrees(g, e);
      EquitableStaysFiner(g, Round(g), e, DegreeColors(g), |g|);
    }
  }
}
