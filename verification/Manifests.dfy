/** Episode identifiers of fixed width, the sorted roster and its shards. */
module Manifests {
  import opened Wrappers
  import opened Sorting
  import opened Arithmetic
  import Colors

  // --- Fixed-width numerals -----------------------------------------------------------------

  /** The width last digits of n. */
  function Digits(n: nat, width: nat): (r: string)
    ensures |r| == width
  {
    if width == 0 then "" else Digits(n / 10, width - 1) + [Colors.Digit(n % 10)]
  }

  /** f"{n:0{width}d}" */
  function Padded(n: nat, width: nat): string {
    Colors.Zeros(Colors.Decimal(n), width)
  }

  lemma {:induction false} MoreDigits(n: nat, width: nat)
    requires n < Power(10, width)
    ensures Digits(n, width + 1) == "0" + Digits(n, width)
  {
    if width > 0 {
      MoreDigits(n / 10, width - 1);
    }
  }

  lemma {:induction false} DecimalIsDigits(n: nat)
    ensures |Colors.Decimal(n)| >= 1 && n < Power(10, |Colors.Decimal(n)|)
    ensures Colors.Decimal(n) == Digits(n, |Colors.Decimal(n)|)
  {
    if n >= 10 {
      DecimalIsDigits(n / 10);
    } else {
      assert Power(10, 1) == 10;
      assert Digits(n, 1) == Digits(n / 10, 0) + [Colors.Digit(n % 10)];
    }
  }

  lemma {:induction false} ZerosAreDigits(n: nat, k: nat, width: nat)
    requires n < Power(10, k) && k <= width
    ensures Colors.Zeros(Digits(n, k), width) == Digits(n, width)
    decreases width - k
  {
    if k < width {
      MoreDigits(n, k);
      ZerosAreDigits(n, k + 1, width);
    }
  }

  lemma {:induction false} FewDigits(n: nat, width: nat)
    requires n < Power(10, width) && width >= 1
    ensures |Colors.Decimal(n)| <= width
  {
    if n >= 10 {
      assert width > 1;
      FewDigits(n / 10, width - 1);
    }
  }

  /** A number longer than its width is printed in full. */
  lemma PaddedDigits(n: nat, width: nat)
    requires width >= 1
    ensures |Padded(n, width)| >= width && n < Power(10, |Padded(n, width)|)
    ensures Padded(n, width) == Digits(n, |Padded(n, width)|)
    ensures |Padded(n, width)| == if |Colors.Decimal(n)| <= width then width else |Colors.Decimal(n)|
  {
    var d := |Colors.Decimal(n)|;
    DecimalIsDigits(n);
    if d <= width {
      ZerosAreDigits(n, d, width);
      PowerGrows(10, d, width);
    }
  }

  /** Place i from the right holds the i-th decimal digit; that is 0 before the first one. */
  lemma PaddedAt(n: nat, width: nat, i: nat)
    requires width >= 1 && i < |Padded(n, width)|
    ensures Padded(n, width)[|Padded(n, width)| - 1 - i] == Colors.Digit(n / Power(10, i) % 10)
  {
    PaddedDigits(n, width);
    DigitsAt(n, |Padded(n, width)|, i);
  }

  lemma {:induction false} DigitsAt(n: nat, width: nat, i: nat)
    requires i < width
    ensures Digits(n, width)[width - 1 - i] == Colors.Digit(n / Power(10, i) % 10)
  {
    if i > 0 {
      DigitsAt(n / 10, width - 1, i - 1);
      DivTwice(n, 10, Power(10, i - 1));
    }
  }

  lemma PaddedFits(n: nat, width: nat, q: nat)
    requires q >= width >= 1 && n < Power(10, q)
    ensures |Padded(n, width)| <= q
  {
    PaddedDigits(n, width);
    FewDigits(n, q);
  }

  /** The number without its last k digits. */
  function Shortened(n: nat, k: nat): nat {
    if k == 0 then n else Shortened(n / 10, k - 1)
  }

  /** The first p of q digits are those of the number without its last q - p digits. */
  lemma {:induction false} FirstDigits(n: nat, p: nat, q: nat)
    requires p <= q
    ensures Digits(n, q) == Digits(Shortened(n, q - p), p) + Digits(n, q - p)
    decreases q
  {
    if p < q {
      FirstDigits(n / 10, p, q - 1);
      assert Digits(n, q - p) == Digits(n / 10, q - p - 1) + [Colors.Digit(n % 10)];
    }
  }

  lemma {:induction false} ShortenedBelow(n: nat, p: nat, q: nat)
    requires p <= q && n < Power(10, q)
    ensures Shortened(n, q - p) < Power(10, p)
    decreases q
  {
    if p < q {
      ShortenedBelow(n / 10, p, q - 1);
    }
  }

  /** Strings that start with blocks of equal length compare by the blocks first. */
  lemma {:induction false} BlockOrder(a: string, b: string, x: string, y: string)
    requires |a| == |b|
    ensures StringLeq(a + x, b + y) <==> if a == b then StringLeq(x, y) else StringLeq(a, b)
  {
    if a == "" {
      assert a + x == x && b + y == y;
    } else {
      assert (a + x)[1..] == a[1..] + x && (b + y)[1..] == b[1..] + y;
      BlockOrder(a[1..], b[1..], x, y);
      SameHeads(a, b);
    }
  }

  lemma SameHeads(a: string, b: string)
    requires a != "" && b != ""
    ensures a == b <==> a[0] == b[0] && a[1..] == b[1..]
  {
    assert a == [a[0]] + a[1..] && b == [b[0]] + b[1..];
  }

  /** Numerals of the same width are in the order of their numbers. */
  lemma {:induction false} DigitsOrder(m: nat, n: nat, width: nat)
    requires m < Power(10, width) && n < Power(10, width)
    ensures StringLeq(Digits(m, width), Digits(n, width)) <==> m <= n
    ensures Digits(m, width) == Digits(n, width) <==> m == n
    decreases width
  {
    if width > 0 {
      DigitsOrder(m / 10, n / 10, width - 1);
      DigitsOrder(n / 10, m / 10, width - 1);
      var a, b := Digits(m / 10, width - 1), Digits(n / 10, width - 1);
      var x, y := [Colors.Digit(m % 10)], [Colors.Digit(n % 10)];
      BlockOrder(a, b, x, y);
      LastDigits(a, b, x, y);
      assert StringLeq(x, y) <==> m % 10 <= n % 10;
    }
  }

  lemma LastDigits(a: string, b: string, x: string, y: string)
    requires |a| == |b|
    ensures a + x == b + y <==> a == b && x == y
  {
    assert (a + x)[..|a|] == a && (b + y)[..|a|] == b;
    assert (a + x)[|a|..] == x && (b + y)[|a|..] == y;
  }

  // --- Episode identifiers ------------------------------------------------------------------

  datatype Episode = Episode(order: nat, graphSeed: nat, relabelingSeed: nat, policySeed: nat)

  function EpisodeId(e: Episode): string {
    "o" + Padded(e.order, 2) + "-g" + Padded(e.graphSeed, 4) + "-r" + Padded(e.relabelingSeed, 4)
    + "-p" + Padded(e.policySeed, 4)
  }

  /** The order of the tuples (order, graph seed, relabeling seed, policy seed). */
  predicate EpisodeLeq(a: Episode, b: Episode) {
    if a.order != b.order then a.order < b.order
    else if a.graphSeed != b.graphSeed then a.graphSeed < b.graphSeed
    else if a.relabelingSeed != b.relabelingSeed then a.relabelingSeed < b.relabelingSeed
    else a.policySeed <= b.policySeed
  }

  /** Every number fits the width it is printed in. */
  predicate FixedWidth(e: Episode) {
    e.order < 100 && e.graphSeed < 10000 && e.relabelingSeed < 10000 && e.policySeed < 10000
  }

  lemma Widths()
    ensures Power(10, 2) == 100 && Power(10, 4) == 10000
  {
    assert Power(10, 3) == 1000;
  }

  // --- When identifiers sort like their tuples ----------------------------------------------

  /**
    Of two different numbers the smaller sorts first unless the larger is printed longer and starts with
    a smaller number of the same length as the smaller one.
   */
  predicate InStep(m: nat, n: nat, width: nat) {
    var lo, hi := if m <= n then m else n, if m <= n then n else m;
    var p, q := |Padded(lo, width)|, |Padded(hi, width)|;
    p <= q && lo <= Shortened(hi, q - p)
  }

  /** The components of two episodes that decide their order: the first ones that differ. */
  function Deciding(a: Episode, b: Episode): (nat, nat, nat) {
    if a.order != b.order then (a.order, b.order, 2)
    else if a.graphSeed != b.graphSeed then (a.graphSeed, b.graphSeed, 4)
    else if a.relabelingSeed != b.relabelingSeed then (a.relabelingSeed, b.relabelingSeed, 4)
    else (a.policySeed, b.policySeed, 4)
  }

  predicate InStepPair(a: Episode, b: Episode) {
    var (m, n, width) := Deciding(a, b);
    InStep(m, n, width)
  }

  /** What follows a number in an identifier: nothing, or a dash, which sorts before every digit. */
  predicate Rest(s: string) {
    s == "" || s[0] == '-'
  }

  /** The leading digits of a longer numeral, and its other digits with what follows. */
  lemma LeadingDigits(n: nat, p: nat, q: nat, y: string) returns (z: string)
    requires p <= q && n < Power(10, q)
    ensures Shortened(n, q - p) < Power(10, p)
    ensures Digits(n, q) + y == Digits(Shortened(n, q - p), p) + z
    ensures p == q ==> z == y && Shortened(n, q - p) == n
    ensures p < q ==> z != "" && Colors.IsDigit(z[0])
  {
    FirstDigits(n, p, q);
    ShortenedBelow(n, p, q);
    z := Digits(n, q - p) + y;
    if p < q {
      DigitsFirst(n, q - p);
    }
  }

  /** A shorter numeral against the leading digits of a longer one. */
  lemma NumeralOrder(m: nat, n: nat, p: nat, q: nat, k: nat, x: string, y: string)
    requires p <= q && m < n && m < Power(10, p) && n < Power(10, q) && Rest(x) && Rest(y)
    requires k == Shortened(n, q - p)
    ensures StringLeq(Digits(m, p) + x, Digits(n, q) + y) <==> m <= k
    ensures StringLeq(Digits(n, q) + y, Digits(m, p) + x) <==> !(m <= k)
  {
    var z := LeadingDigits(n, p, q, y);
    BlockAgainst(m, k, p, x, z);
    assert p < q ==> StringLeq(x, z) && !StringLeq(z, x);
  }

  lemma BlockAgainst(m: nat, k: nat, p: nat, x: string, z: string)
    requires m < Power(10, p) && k < Power(10, p)
    ensures StringLeq(Digits(m, p) + x, Digits(k, p) + z) <==> m < k || (m == k && StringLeq(x, z))
    ensures StringLeq(Digits(k, p) + z, Digits(m, p) + x) <==> k < m || (m == k && StringLeq(z, x))
  {
    DigitsOrder(m, k, p);
    DigitsOrder(k, m, p);
    BlockOrder(Digits(m, p), Digits(k, p), x, z);
    BlockOrder(Digits(k, p), Digits(m, p), z, x);
  }

  lemma DigitsFirst(n: nat, width: nat)
    requires width > 0
    ensures Digits(n, width) != "" && Colors.IsDigit(Digits(n, width)[0])
    decreases width
  {
    if width > 1 {
      DigitsFirst(n / 10, width - 1);
    }
  }

  lemma PrintedShorter(m: nat, n: nat, width: nat)
    requires m < n && width >= 1
    ensures |Padded(m, width)| <= |Padded(n, width)|
  {
    PaddedDigits(n, width);
    PaddedFits(m, width, |Padded(n, width)|);
  }

  lemma SameTag(tag: string, a: string, b: string, x: string, y: string)
    ensures StringLeq(tag + a + x, tag + b + y) <==> StringLeq(a + x, b + y)
  {
    assert tag + a + x == tag + (a + x) && tag + b + y == tag + (b + y);
    BlockOrder(tag, tag, a + x, b + y);
  }

  lemma InStepMeans(m: nat, n: nat, width: nat)
    requires width >= 1 && m < n
    ensures |Padded(m, width)| <= |Padded(n, width)|
    ensures InStep(m, n, width) <==> m <= Shortened(n, |Padded(n, width)| - |Padded(m, width)|)
  {
    PrintedShorter(m, n, width);
  }

  lemma LabelledNumerals(tag: string, m: nat, n: nat, a: string, b: string, k: nat, x: string, y: string)
    requires |a| <= |b| && m < n && m < Power(10, |a|) && n < Power(10, |b|) && Rest(x) && Rest(y)
    requires a == Digits(m, |a|) && b == Digits(n, |b|) && k == Shortened(n, |b| - |a|)
    ensures StringLeq(tag + a + x, tag + b + y) <==> m <= k
    ensures StringLeq(tag + b + y, tag + a + x) <==> !(m <= k)
  {
    NumeralOrder(m, n, |a|, |b|, k, x, y);
    SameTag(tag, a, b, x, y);
    SameTag(tag, b, a, y, x);
  }

  /** A labelled number and the rest: the first difference decides. */
  lemma LabelledLess(tag: string, m: nat, n: nat, width: nat, x: string, y: string)
    requires width >= 1 && m < n && Rest(x) && Rest(y)
    ensures StringLeq(tag + Padded(m, width) + x, tag + Padded(n, width) + y) <==> InStep(m, n, width)
    ensures StringLeq(tag + Padded(n, width) + y, tag + Padded(m, width) + x) <==> !InStep(m, n, width)
  {
    var a, b := Padded(m, width), Padded(n, width);
    PaddedDigits(m, width);
    PaddedDigits(n, width);
    InStepMeans(m, n, width);
    LabelledNumerals(tag, m, n, a, b, Shortened(n, |b| - |a|), x, y);
  }

  lemma LabelledSame(tag: string, m: nat, width: nat, x: string, y: string)
    ensures StringLeq(tag + Padded(m, width) + x, tag + Padded(m, width) + y) <==> StringLeq(x, y)
  {
    BlockOrder(tag + Padded(m, width), tag + Padded(m, width), x, y);
  }

  /** One component: the order of the strings agrees with that of the numbers exactly when they are in step. */
  lemma LabelledOrder(tag: string, m: nat, n: nat, width: nat, x: string, y: string)
    requires width >= 1 && Rest(x) && Rest(y)
    ensures var less := StringLeq(tag + Padded(m, width) + x, tag + Padded(n, width) + y);
            && (m == n ==> (less <==> StringLeq(x, y)))
            && (m < n ==> (less <==> InStep(m, n, width)))
            && (m > n ==> (less <==> !InStep(m, n, width)))
  {
    if m < n {
      LabelledLess(tag, m, n, width, x, y);
    } else if n < m {
      LabelledLess(tag, n, m, width, y, x);
    } else {
      LabelledSame(tag, m, width, x, y);
    }
  }

  function FromPolicy(e: Episode): string {
    "-p" + Padded(e.policySeed, 4) + ""
  }

  function FromRelabeling(e: Episode): string {
    "-r" + Padded(e.relabelingSeed, 4) + FromPolicy(e)
  }

  function FromGraph(e: Episode): string {
    "-g" + Padded(e.graphSeed, 4) + FromRelabeling(e)
  }

  lemma IdParts(e: Episode)
    ensures EpisodeId(e) == "o" + Padded(e.order, 2) + FromGraph(e)
    ensures Rest(FromPolicy(e)) && Rest(FromRelabeling(e)) && Rest(FromGraph(e))
  {
    assert FromPolicy(e) == "-p" + Padded(e.policySeed, 4);
  }

  /**
    The exact condition: the identifiers of two episodes are in the order of their tuples if and only if their
    first different components are in step.
   */
  lemma IdOrderExact(a: Episode, b: Episode)
    ensures (StringLeq(EpisodeId(a), EpisodeId(b)) <==> EpisodeLeq(a, b)) <==> InStepPair(a, b)
  {
    IdParts(a);
    IdParts(b);
    LabelledOrder("-p", a.policySeed, b.policySeed, 4, "", "");
    LabelledOrder("-r", a.relabelingSeed, b.relabelingSeed, 4, FromPolicy(a), FromPolicy(b));
    LabelledOrder("-g", a.graphSeed, b.graphSeed, 4, FromRelabeling(a), FromRelabeling(b));
    LabelledOrder("o", a.order, b.order, 2, FromGraph(a), FromGraph(b));
  }

  lemma InStepSymmetric(a: Episode, b: Episode)
    ensures InStepPair(a, b) <==> InStepPair(b, a)
  {
    var (m, n, width) := Deciding(a, b);
    assert Deciding(b, a) == (n, m, width);
  }

  /** Whatever the widths, the identifier determines the episode. */
  lemma IdDetermines(a: Episode, b: Episode)
    requires EpisodeId(a) == EpisodeId(b)
    ensures a == b
  {
    StringTotal(EpisodeId(a), EpisodeId(b));
    IdOrderExact(a, b);
    IdOrderExact(b, a);
    InStepSymmetric(a, b);
  }

  lemma FixedInStep(m: nat, n: nat, width: nat)
    requires width >= 1 && m < Power(10, width) && n < Power(10, width)
    ensures InStep(m, n, width)
  {
    PaddedDigits(m, width);
    PaddedDigits(n, width);
    PaddedFits(m, width, width);
    PaddedFits(n, width, width);
  }

  /** Within the printed widths the identifiers are in the order of the tuples. */
  lemma IdOrder(a: Episode, b: Episode)
    requires FixedWidth(a) && FixedWidth(b)
    ensures StringLeq(EpisodeId(a), EpisodeId(b)) <==> EpisodeLeq(a, b)
    ensures InStepPair(a, b)
  {
    Widths();
    var (m, n, width) := Deciding(a, b);
    FixedInStep(m, n, width);
    IdOrderExact(a, b);
  }

  lemma PrintedDigits(n: nat, width: nat, q: nat)
    requires q >= width >= 1 && n < Power(10, q) && (q == width || n >= Power(10, q - 1))
    ensures |Padded(n, width)| == q
  {
    PaddedDigits(n, width);
    PaddedFits(n, width, q);
    if |Padded(n, width)| < q {
      PowerGrows(10, |Padded(n, width)|, q - 1);
    }
  }

  /** Orders 98 and 100 are out of step, while 100 and 200 are in step although neither fits its width. */
  lemma WideIds(g: nat, r: nat, p: nat)
    ensures var a, b := Episode(98, g, r, p), Episode(100, g, r, p);
            EpisodeLeq(a, b) && !StringLeq(EpisodeId(a), EpisodeId(b))
    ensures var a, b := Episode(100, g, r, p), Episode(200, g, r, p);
            !FixedWidth(a) && !FixedWidth(b) && StringLeq(EpisodeId(a), EpisodeId(b))
                && !StringLeq(EpisodeId(b), EpisodeId(a))
  {
    Widths();
    assert Power(10, 3) == 1000 && Power(10, 1) == 10 && Power(10, 0) == 1 && Power(10, 1) == 10;
    PrintedDigits(98, 2, 2);
    PrintedDigits(100, 2, 3);
    PrintedDigits(200, 2, 3);
    IdOrderExact(Episode(98, g, r, p), Episode(100, g, r, p));
    IdOrderExact(Episode(100, g, r, p), Episode(200, g, r, p));
    IdOrderExact(Episode(200, g, r, p), Episode(100, g, r, p));
  }

  // --- The roster ---------------------------------------------------------------------------

  const SHARD_COUNT := 24
  const EPISODES_PER_SHARD := 64
  const EPISODE_COUNT := 1536

  datatype Row = Row(id: string, episode: Episode, shard: nat)

  datatype ManifestError = WrongCount | BadIds | UnknownShard | WrongLayout

  predicate RowLeq(a: Row, b: Row) {
    EpisodeLeq(a.episode, b.episode)
  }

  function RowId(r: Row): string {
    r.id
  }

  /** The rows of a manifest in the order of their tuples. */
  function Roster(rows: seq<Row>): Result<seq<Row>, ManifestError> {
    if |rows| != EPISODE_COUNT then Failure(WrongCount)
    else if exists i :: 0 <= i < |rows| && rows[i].id == "" then Failure(BadIds)
    else if exists i, j :: 0 <= i < j < |rows| && rows[i].id == rows[j].id then Failure(BadIds)
    else Success(Sort(rows, RowLeq))
  }

  /** Every row carries the identifier of its episode, in the printed widths. */
  ghost predicate WellNamed(rows: seq<Row>) {
    forall i :: 0 <= i < |rows| ==> FixedWidth(rows[i].episode) && rows[i].id == EpisodeId(rows[i].episode)
  }

  lemma RowPreorder()
    ensures Preorder(RowLeq)
  {}

  /** Every row carries the identifier of its episode, whatever its width. */
  ghost predicate Named(rows: seq<Row>) {
    forall i :: 0 <= i < |rows| ==> rows[i].id == EpisodeId(rows[i].episode)
  }

  ghost predicate AllInStep(rows: seq<Row>) {
    forall a, b :: a in rows && b in rows ==> InStepPair(a.episode, b.episode)
  }

  /** The roster is the manifest rows in the order of their tuples. */
  lemma RosterOrdered(rows: seq<Row>, roster: seq<Row>)
    requires Roster(rows) == Success(roster)
    ensures multiset(roster) == multiset(rows) && Sorted(roster, RowLeq) && forall r :: r in roster <==> r in rows
  {
    RowPreorder();
    SortSorts(rows, RowLeq);
    SortPermutes(rows, RowLeq);
    forall r ensures r in roster <==> r in rows {
      assert r in multiset(roster) <==> r in multiset(rows);
    }
  }

  /** The roster is in the order of its identifiers exactly when all its episodes are in step. */
  lemma RosterSortedExact(rows: seq<Row>, roster: seq<Row>)
    requires Named(rows) && Roster(rows) == Success(roster)
    ensures Named(roster) && (Sorted(Map(RowId, roster), StringLeq) <==> AllInStep(rows))
  {
    RosterOrdered(rows, roster);
    forall i | 0 <= i < |roster| ensures roster[i].id == EpisodeId(roster[i].episode) {
      assert roster[i] in rows;
    }
    forall i, j | 0 <= i < j < |roster|
      ensures StringLeq(roster[i].id, roster[j].id) <==> InStepPair(roster[i].episode, roster[j].episode)
    {
      assert RowLeq(roster[i], roster[j]);
      IdOrderExact(roster[i].episode, roster[j].episode);
    }
    PairsOfRoster(rows, roster);
  }

  lemma PairsOfRoster(rows: seq<Row>, roster: seq<Row>)
    requires forall r :: r in roster <==> r in rows
    ensures AllInStep(rows) <==> forall i, j :: 0 <= i < j < |roster| ==>
            InStepPair(roster[i].episode, roster[j].episode)
  {
    if forall i, j :: 0 <= i < j < |roster| ==> InStepPair(roster[i].episode, roster[j].episode) {
      forall a, b | a in rows && b in rows ensures InStepPair(a.episode, b.episode) {
        var i :| 0 <= i < |roster| && roster[i] == a;
        var j :| 0 <= j < |roster| && roster[j] == b;
        InStepSymmetric(a.episode, b.episode);
      }
    }
  }

  /** A roster whose numbers fit their widths is in the order of its identifiers. */
  lemma RosterSorted(rows: seq<Row>, roster: seq<Row>)
    requires WellNamed(rows) && Roster(rows) == Success(roster)
    ensures multiset(roster) == multiset(rows) && Sorted(Map(RowId, roster), StringLeq)
  {
    RosterOrdered(rows, roster);
    forall a, b | a in rows && b in rows ensures InStepPair(a.episode, b.episode) {
      IdOrder(a.episode, b.episode);
    }
    RosterSortedExact(rows, roster);
  }

  // --- Shards -------------------------------------------------------------------------------

  function InShard(shard: nat): Row -> bool {
    (r: Row) => r.shard == shard
  }

  function Below(shard: nat): Row -> bool {
    (r: Row) => r.shard < shard
  }

  function Filter(p: Row -> bool, rows: seq<Row>): seq<Row> {
    if rows == [] then []
    else
      var last := rows[|rows| - 1];
      if p(last) then Filter(p, rows[..|rows| - 1]) + [last] else Filter(p, rows[..|rows| - 1])
  }

  function Concat<T>(parts: seq<seq<T>>): seq<T> {
    if parts == [] then [] else Concat(parts[..|parts| - 1]) + parts[|parts| - 1]
  }

  lemma {:induction false} FilterSplit(rows: seq<Row>, m: nat, n: nat)
    requires n == m + 1
    ensures multiset(Filter(Below(n), rows)) == multiset(Filter(Below(m), rows)) + multiset(Filter(InShard(m), rows))
  {
    if rows != [] {
      FilterSplit(rows[..|rows| - 1], m, n);
    }
  }

  lemma {:induction false} FilterNone(rows: seq<Row>)
    ensures Filter(Below(0), rows) == []
  {
    if rows != [] {
      FilterNone(rows[..|rows| - 1]);
    }
  }

  lemma {:induction false} FilterAll(rows: seq<Row>, n: nat)
    requires forall i :: 0 <= i < |rows| ==> rows[i].shard < n
    ensures Filter(Below(n), rows) == rows
  {
    if rows != [] {
      FilterAll(rows[..|rows| - 1], n);
      assert rows == rows[..|rows| - 1] + [rows[|rows| - 1]];
    }
  }

  /** The rows of every shard, in roster order. */
  ghost predicate Sharded(rows: seq<Row>, shards: seq<seq<Row>>) {
    forall k :: 0 <= k < |shards| ==> shards[k] == Filter(InShard(k), rows)
  }

  lemma {:induction false} ShardedBelow(rows: seq<Row>, shards: seq<seq<Row>>)
    requires Sharded(rows, shards)
    ensures multiset(Concat(shards)) == multiset(Filter(Below(|shards|), rows))
    decreases |shards|
  {
    if shards == [] {
      FilterNone(rows);
    } else {
      var m := |shards| - 1;
      ShardedBelow(rows, shards[..m]);
      FilterSplit(rows, m, |shards|);
    }
  }

  /** The shards partition the roster. */
  lemma ShardsPartition(rows: seq<Row>, shards: seq<seq<Row>>)
    requires Sharded(rows, shards) && forall i :: 0 <= i < |rows| ==> rows[i].shard < |shards|
    ensures multiset(Concat(shards)) == multiset(rows)
  {
    ShardedBelow(rows, shards);
    FilterAll(rows, |shards|);
  }

  lemma FilterAppended(p: Row -> bool, rows: seq<Row>, r: Row)
    ensures Filter(p, rows + [r]) == if p(r) then Filter(p, rows) + [r] else Filter(p, rows)
  {
    assert (rows + [r])[..|rows|] == rows;
  }

  /** The grouping loop: one list a shard, in roster order; it fails on unknown shards and on uneven ones. */
  method ManifestShards(rows: seq<Row>) returns (r: Result<seq<seq<Row>>, ManifestError>)
    ensures r.Success? <==> (forall i :: 0 <= i < |rows| ==> rows[i].shard < SHARD_COUNT)
                            && forall k :: 0 <= k < SHARD_COUNT ==> |Filter(InShard(k), rows)| == EPISODES_PER_SHARD
    ensures r.Success? ==> |r.value| == SHARD_COUNT && Sharded(rows, r.value)
  {
    var grouped: seq<seq<Row>> := seq(SHARD_COUNT, _ => []);
    for i := 0 to |rows|
      invariant |grouped| == SHARD_COUNT && forall k :: 0 <= k < SHARD_COUNT ==>
                grouped[k] == Filter(InShard(k), rows[..i])
      invariant forall j :: 0 <= j < i ==> rows[j].shard < SHARD_COUNT
    {
      var row := rows[i];
      if row.shard >= SHARD_COUNT {
        return Failure(UnknownShard);
      }
      forall k | 0 <= k < SHARD_COUNT
        ensures Filter(InShard(k), rows[..i + 1]) == if k == row.shard then grouped[k] + [row] else grouped[k]
      {
        assert rows[..i + 1] == rows[..i] + [row];
        FilterAppended(InShard(k), rows[..i], row);
      }
      grouped := grouped[row.shard := grouped[row.shard] + [row]];
    }
    assert rows[..|rows|] == rows;
    if exists k :: 0 <= k < SHARD_COUNT && |grouped[k]| != EPISODES_PER_SHARD {
      return Failure(WrongLayout);
    }
    r := Success(grouped);
  }
}
