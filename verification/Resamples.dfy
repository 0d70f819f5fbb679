/** What a bootstrap draw can be: exactly the means of resamples, each level drawn with replacement at its own size. */
module Resamples {
  import opened Sorting
  import opened Means
  import opened Percentiles
  import opened Bootstrap

  // --- Samplers -----------------------------------------------------------------------------

  /** A sampler reads the stream from a position on; it gives a result and the position after what it read. */
  type Sampler<!T> = (Stream, nat) -> (T, nat)

  ghost predicate Agree(a: Stream, b: Stream, from: nat, to: nat) {
    forall k: nat :: from <= k < to ==> a(k) == b(k)
  }

  /** The result depends on what was read alone. */
  ghost predicate Local<T(!new)>(s: Sampler<T>) {
    && (forall stream: Stream, at: nat :: s(stream, at).1 >= at)
    && forall a: Stream, b: Stream, at: nat :: Agree(a, b, at, s(a, at).1) ==> s(b, at) == s(a, at)
  }

  lemma Reads<T(!new)>(s: Sampler<T>, a: Stream, b: Stream, at: nat)
    requires Local(s)
    ensures s(a, at).1 >= at && (Agree(a, b, at, s(a, at).1) ==> s(b, at) == s(a, at))
  {}

  ghost predicate Reachable<T(!new)>(s: Sampler<T>, at: nat, x: T) {
    exists stream: Stream :: s(stream, at).0 == x
  }

  /** From every position the sampler can give exactly the good results. */
  ghost predicate Yields<T(!new)>(s: Sampler<T>, good: T -> bool) {
    Local(s) && forall at: nat, x: T :: good(x) <==> Reachable(s, at, x)
  }

  ghost function Splice(a: Stream, b: Stream, m: nat): (r: Stream)
    ensures Agree(a, r, 0, m) && forall k: nat :: k >= m ==> r(k) == b(k)
  {
    (k: nat) => if k < m then a(k) else b(k)
  }

  /** The same sampler and the same results under other names. */
  lemma YieldsSame<T(!new)>(s: Sampler<T>, t: Sampler<T>, good: T -> bool, fine: T -> bool)
    requires Yields(s, good)
    requires forall stream: Stream, at: nat :: t(stream, at) == s(stream, at)
    requires forall x: T :: fine(x) <==> good(x)
    ensures Yields(t, fine)
  {
    forall at: nat, x: T ensures fine(x) <==> Reachable(t, at, x) {
      assert good(x) <==> Reachable(s, at, x);
      if Reachable(s, at, x) {
        var stream: Stream :| s(stream, at).0 == x;
        assert t(stream, at).0 == x;
      }
      if Reachable(t, at, x) {
        var stream: Stream :| t(stream, at).0 == x;
        assert s(stream, at).0 == x;
      }
    }
  }

  // --- One of several -----------------------------------------------------------------------

  /** A number below n is drawn, and then its sampler goes on. */
  ghost function Chosen<T>(n: nat, samplers: nat -> Sampler<T>): Sampler<T>
    requires n > 0
  {
    (stream: Stream, at: nat) => samplers(Pick(stream, at, n))(stream, at + 1)
  }

  ghost predicate GoodForOne<T(!new)>(n: nat, goods: nat -> T -> bool, x: T) {
    exists i: nat :: i < n && goods(i)(x)
  }

  lemma ChosenLocal<T(!new)>(n: nat, samplers: nat -> Sampler<T>)
    requires n > 0 && forall i: nat :: i < n ==> Local(samplers(i))
    ensures Local(Chosen(n, samplers))
  {
    var s := Chosen(n, samplers);
    forall stream: Stream, at: nat ensures s(stream, at).1 >= at {
      assert Local(samplers(Pick(stream, at, n)));
    }
    forall a: Stream, b: Stream, at: nat | Agree(a, b, at, s(a, at).1) ensures s(b, at) == s(a, at) {
      var i := Pick(a, at, n);
      assert Local(samplers(i));
      assert samplers(i)(a, at + 1).1 >= at + 1;
      assert a(at) == b(at) && Pick(b, at, n) == i;
      assert Agree(a, b, at + 1, samplers(i)(a, at + 1).1);
    }
  }

  lemma PickSmall(stream: Stream, at: nat, n: nat)
    requires stream(at) < n
    ensures Pick(stream, at, n) == stream(at)
  {}

  lemma ChosenAt<T(!new)>(n: nat, samplers: nat -> Sampler<T>, i: nat, stream: Stream, at: nat)
    requires n > 0 && Pick(stream, at, n) == i
    ensures Chosen(n, samplers)(stream, at) == samplers(i)(stream, at + 1)
  {}

  lemma ChosenReaches<T(!new)>(n: nat, samplers: nat -> Sampler<T>, i: nat, at: nat, x: T)
    requires i < n && Local(samplers(i)) && Reachable(samplers(i), at + 1, x)
    ensures Reachable(Chosen(n, samplers), at, x)
  {
    var stream: Stream :| samplers(i)(stream, at + 1).0 == x;
    var spliced := Splice((k: nat) => i, stream, at + 1);
    Reads(samplers(i), stream, spliced, at + 1);
    PickSmall(spliced, at, n);
    ChosenAt(n, samplers, i, spliced, at);
    assert Chosen(n, samplers)(spliced, at).0 == x;
  }

  lemma ChosenYields<T(!new)>(n: nat, samplers: nat -> Sampler<T>, goods: nat -> T -> bool, good: T -> bool)
    requires n > 0 && forall i: nat :: i < n ==> Yields(samplers(i), goods(i))
    requires forall x: T :: good(x) <==> GoodForOne(n, goods, x)
    ensures Yields(Chosen(n, samplers), good)
  {
    var s := Chosen(n, samplers);
    forall i: nat | i < n ensures Local(samplers(i)) {
      assert Yields(samplers(i), goods(i));
    }
    ChosenLocal(n, samplers);
    forall at: nat, x: T ensures good(x) <==> Reachable(s, at, x) {
      if good(x) {
        var i: nat :| i < n && goods(i)(x);
        assert Yields(samplers(i), goods(i));
        ChosenReaches(n, samplers, i, at, x);
      }
      if Reachable(s, at, x) {
        var stream: Stream :| s(stream, at).0 == x;
        var i := Pick(stream, at, n);
        assert Yields(samplers(i), goods(i));
        assert Reachable(samplers(i), at + 1, x);
        assert goods(i)(x);
      }
    }
  }

  // --- One after the other ------------------------------------------------------------------

  ghost function StepOf<T>(samplers: nat -> Sampler<T>, stream: Stream): (nat, nat) -> (T, nat) {
    (i: nat, at: nat) => samplers(i)(stream, at)
  }

  ghost function Several<T>(samplers: nat -> Sampler<T>, n: nat): Sampler<seq<T>> {
    (stream: Stream, at: nat) => Drawn(StepOf(samplers, stream), at, n)
  }

  /** As many results as samplers, each good for its own. */
  ghost predicate GoodForEach<T>(goods: nat -> T -> bool, n: nat, xs: seq<T>) {
    |xs| == n && forall i: nat :: i < n ==> goods(i)(xs[i])
  }

  lemma SeveralStep<T>(samplers: nat -> Sampler<T>, n: nat, stream: Stream, at: nat)
    requires n > 0
    ensures var before := Several(samplers, n - 1)(stream, at);
            var last := samplers(n - 1)(stream, before.1);
            Several(samplers, n)(stream, at) == (before.0 + [last.0], last.1)
  {}

  lemma SeveralLocalAt<T(!new)>(samplers: nat -> Sampler<T>, n: nat, a: Stream, b: Stream, at: nat)
    requires n > 0 && Local(Several(samplers, n - 1)) && Local(samplers(n - 1))
    ensures Several(samplers, n)(a, at).1 >= at
    ensures Agree(a, b, at, Several(samplers, n)(a, at).1) ==>
              Several(samplers, n)(b, at) == Several(samplers, n)(a, at)
  {
    var m := Several(samplers, n - 1)(a, at).1;
    var end := samplers(n - 1)(a, m).1;
    SeveralStep(samplers, n, a, at);
    SeveralStep(samplers, n, b, at);
    Reads(Several(samplers, n - 1), a, b, at);
    Reads(samplers(n - 1), a, b, m);
    if Agree(a, b, at, end) {
      assert Agree(a, b, at, m) && Agree(a, b, m, end);
    }
  }

  lemma {:induction false} SeveralLocal<T(!new)>(samplers: nat -> Sampler<T>, n: nat)
    requires forall i: nat :: i < n ==> Local(samplers(i))
    ensures Local(Several(samplers, n))
  {
    var s := Several(samplers, n);
    if n > 0 {
      SeveralLocal(samplers, n - 1);
      forall stream: Stream, at: nat ensures s(stream, at).1 >= at {
        SeveralLocalAt(samplers, n, stream, stream, at);
      }
      forall a: Stream, b: Stream, at: nat | Agree(a, b, at, s(a, at).1) ensures s(b, at) == s(a, at) {
        SeveralLocalAt(samplers, n, a, b, at);
      }
    }
  }

  lemma {:induction false} SeveralReaches<T(!new)>(samplers: nat -> Sampler<T>, goods: nat -> T -> bool, n: nat,
                                                   at: nat, xs: seq<T>)
    requires forall i: nat :: i < n ==> Yields(samplers(i), goods(i))
    requires GoodForEach(goods, n, xs)
    ensures Reachable(Several(samplers, n), at, xs)
  {
    if n == 0 {
      assert Several(samplers, n)((k: nat) => 0, at).0 == xs;
    } else {
      var before, last := Several(samplers, n - 1), samplers(n - 1);
      SeveralReaches(samplers, goods, n - 1, at, xs[..n - 1]);
      var a: Stream :| before(a, at).0 == xs[..n - 1];
      var m := before(a, at).1;
      assert Yields(last, goods(n - 1)) && goods(n - 1)(xs[n - 1]);
      assert Reachable(last, m, xs[n - 1]);
      var b: Stream :| last(b, m).0 == xs[n - 1];
      SplicedReads(samplers, goods, n, at, a, b, m);
      assert xs == xs[..n - 1] + [xs[n - 1]];
      assert Several(samplers, n)(Splice(a, b, m), at).0 == xs;
    }
  }

  /** The first samplers read the first stream, the last one the second. */
  lemma SplicedReads<T(!new)>(samplers: nat -> Sampler<T>, goods: nat -> T -> bool, n: nat, at: nat, a: Stream,
                              b: Stream, m: nat)
    requires n > 0 && forall i: nat :: i < n ==> Yields(samplers(i), goods(i))
    requires m == Several(samplers, n - 1)(a, at).1
    ensures Several(samplers, n)(Splice(a, b, m), at).0
         == Several(samplers, n - 1)(a, at).0 + [samplers(n - 1)(b, m).0]
  {
    var before, last, c := Several(samplers, n - 1), samplers(n - 1), Splice(a, b, m);
    forall i: nat | i < n ensures Local(samplers(i)) {
      assert Yields(samplers(i), goods(i));
    }
    SeveralLocal(samplers, n - 1);
    assert Agree(a, c, at, m);
    assert before(c, at) == before(a, at);
    assert Agree(b, c, m, last(b, m).1);
    assert last(c, m) == last(b, m);
    SeveralStep(samplers, n, c, at);
  }

  lemma {:induction false} SeveralGood<T(!new)>(samplers: nat -> Sampler<T>, goods: nat -> T -> bool, n: nat,
                                                stream: Stream, at: nat)
    requires forall i: nat :: i < n ==> Yields(samplers(i), goods(i))
    ensures GoodForEach(goods, n, Several(samplers, n)(stream, at).0)
  {
    if n > 0 {
      SeveralGood(samplers, goods, n - 1, stream, at);
      SeveralStep(samplers, n, stream, at);
      var last, m := samplers(n - 1), Several(samplers, n - 1)(stream, at).1;
      assert Yields(last, goods(n - 1));
      assert Reachable(last, m, last(stream, m).0);
    }
  }

  lemma SeveralYields<T(!new)>(samplers: nat -> Sampler<T>, goods: nat -> T -> bool, n: nat, good: seq<T> -> bool)
    requires forall i: nat :: i < n ==> Yields(samplers(i), goods(i))
    requires forall xs: seq<T> :: good(xs) <==> GoodForEach(goods, n, xs)
    ensures Yields(Several(samplers, n), good)
  {
    var s := Several(samplers, n);
    forall i: nat | i < n ensures Local(samplers(i)) {
      assert Yields(samplers(i), goods(i));
    }
    SeveralLocal(samplers, n);
    forall at: nat, xs: seq<T> ensures good(xs) <==> Reachable(s, at, xs) {
      if good(xs) {
        SeveralReaches(samplers, goods, n, at, xs);
      }
      if Reachable(s, at, xs) {
        var stream: Stream :| s(stream, at).0 == xs;
        SeveralGood(samplers, goods, n, stream, at);
      }
    }
  }

  // --- A function of what was drawn ---------------------------------------------------------

  ghost function Applied<T, U>(s: Sampler<T>, f: T -> U): Sampler<U> {
    (stream: Stream, at: nat) => (f(s(stream, at).0), s(stream, at).1)
  }

  ghost predicate IsImage<T(!new), U(!new)>(good: T -> bool, f: T -> U, y: U) {
    exists x: T :: good(x) && y == f(x)
  }

  lemma AppliedYields<T(!new), U(!new)>(s: Sampler<T>, good: T -> bool, f: T -> U, fine: U -> bool)
    requires Yields(s, good)
    requires forall y: U :: fine(y) <==> IsImage(good, f, y)
    ensures Yields(Applied(s, f), fine)
  {
    var t := Applied(s, f);
    forall a: Stream, b: Stream, at: nat | Agree(a, b, at, t(a, at).1) ensures t(b, at) == t(a, at) {
      assert Agree(a, b, at, s(a, at).1);
    }
    forall at: nat, y: U ensures fine(y) <==> Reachable(t, at, y) {
      if fine(y) {
        var x: T :| good(x) && y == f(x);
        assert Reachable(s, at, x);
        var stream: Stream :| s(stream, at).0 == x;
        assert t(stream, at).0 == y;
      }
      if Reachable(t, at, y) {
        var stream: Stream :| t(stream, at).0 == y;
        assert Reachable(s, at, s(stream, at).0);
      }
    }
  }

  // --- Drawn lists --------------------------------------------------------------------------

  lemma {:induction false} DrawnSame<T(!new)>(f: (nat, nat) -> (T, nat), g: (nat, nat) -> (T, nat), start: nat, n: nat)
    requires forall i: nat, at: nat :: i < n ==> f(i, at) == g(i, at)
    ensures Drawn(f, start, n) == Drawn(g, start, n)
  {
    if n > 0 {
      DrawnSame(f, g, start, n - 1);
    }
  }

  ghost function Just<T>(x: T): Sampler<T> {
    (stream: Stream, at: nat) => (x, at)
  }

  lemma JustYields<T(!new)>(x: T, good: T -> bool)
    requires forall y: T :: good(y) <==> y == x
    ensures Yields(Just(x), good)
  {
    forall at: nat, y: T ensures good(y) <==> Reachable(Just(x), at, y) {
      assert Just(x)((k: nat) => 0, at).0 == x;
    }
  }

  // --- One level of a design ----------------------------------------------------------------

  ghost predicate GoodForPart<P(!new), T(!new)>(parts: seq<P>, goods: P -> T -> bool, x: T) {
    exists p: P :: p in parts && goods(p)(x)
  }

  /** The mean of as many results as there are parts, each of them a result of any one part. */
  ghost predicate IsResample<P(!new), T(!new)>(parts: seq<P>, goods: P -> T -> bool, mean: seq<T> -> T, y: T) {
    exists xs: seq<T> :: AllFromParts(parts, goods, xs) && y == mean(xs)
  }

  ghost predicate AllFromParts<P(!new), T(!new)>(parts: seq<P>, goods: P -> T -> bool, xs: seq<T>) {
    |xs| == |parts| && forall i: nat :: i < |xs| ==> GoodForPart(parts, goods, xs[i])
  }

  /** The result for one of the parts, whichever it is. */
  ghost function PartSampler<P, T>(parts: seq<P>, samplers: P -> Sampler<T>): Sampler<T>
    requires parts != []
  {
    (stream: Stream, at: nat) => samplers(parts[Pick(stream, at, |parts|)])(stream, at + 1)
  }

  lemma PartYields<P(!new), T(!new)>(parts: seq<P>, samplers: P -> Sampler<T>, goods: P -> T -> bool, good: T -> bool)
    requires parts != [] && forall p: P :: p in parts ==> Yields(samplers(p), goods(p))
    requires forall x: T :: good(x) <==> GoodForPart(parts, goods, x)
    ensures Yields(PartSampler(parts, samplers), good)
  {
    var n := |parts|;
    var part: nat -> P := (i: nat) => if i < n then parts[i] else parts[0];
    var one := (i: nat) => samplers(part(i));
    var fine := (i: nat) => goods(part(i));
    forall i: nat | i < n ensures Yields(one(i), fine(i)) {
      assert parts[i] in parts;
    }
    forall x: T ensures good(x) <==> GoodForOne(n, fine, x) {
      if good(x) {
        var p: P :| p in parts && goods(p)(x);
        var i: nat :| i < n && parts[i] == p;
        assert fine(i)(x);
      }
      if GoodForOne(n, fine, x) {
        var i: nat :| i < n && fine(i)(x);
        assert parts[i] in parts && goods(parts[i])(x);
      }
    }
    ChosenYields(n, one, fine, good);
    forall stream: Stream, at: nat
      ensures PartSampler(parts, samplers)(stream, at) == Chosen(n, one)(stream, at)
    {
      assert part(Pick(stream, at, n)) == parts[Pick(stream, at, n)];
    }
    YieldsSame(Chosen(n, one), PartSampler(parts, samplers), good, good);
  }

  /** A level that draws as many parts as it has and takes the mean can give exactly the resamples. */
  lemma LevelYields<P(!new), T(!new)>(parts: seq<P>, samplers: P -> Sampler<T>, goods: P -> T -> bool,
                                      mean: seq<T> -> T, step: Stream -> (nat, nat) -> (T, nat), level: Sampler<T>,
                                      good: T -> bool)
    requires parts != [] && forall p: P :: p in parts ==> Yields(samplers(p), goods(p))
    requires forall stream: Stream, i: nat, at: nat :: i < |parts| ==>
               step(stream)(i, at) == PartSampler(parts, samplers)(stream, at)
    requires forall stream: Stream, at: nat :: level(stream, at)
               == (mean(Drawn(step(stream), at, |parts|).0), Drawn(step(stream), at, |parts|).1)
    requires forall y: T :: good(y) <==> IsResample(parts, goods, mean, y)
    ensures Yields(level, good)
  {
    var n, part := |parts|, PartSampler(parts, samplers);
    var fromPart := (x: T) => GoodForPart(parts, goods, x);
    var each, eachGood := (i: nat) => part, (i: nat) => fromPart;
    var all := (xs: seq<T>) => AllFromParts(parts, goods, xs);
    PartYields(parts, samplers, goods, fromPart);
    SeveralYields(each, eachGood, n, all);
    AppliedYields(Several(each, n), all, mean, good);
    forall stream: Stream, at: nat ensures level(stream, at) == Applied(Several(each, n), mean)(stream, at) {
      DrawnSame(step(stream), StepOf(each, stream), at, n);
    }
    YieldsSame(Applied(Several(each, n), mean), level, good, good);
  }

  // --- Stage 5 ------------------------------------------------------------------------------

  function AreasMean(pairs: seq<Areas>): Areas {
    if pairs == [] then (0.0, 0.0) else PairMean(pairs)
  }

  /** Exactly this one. */
  ghost function Itself<T>(x: T): T -> bool {
    (y: T) => y == x
  }

  ghost function OfSeeds(s: Seeds): Areas -> bool {
    (y: Areas) => IsResample(s, Itself, AreasMean, y)
  }

  ghost function OfRelabelings(r: Relabelings): Areas -> bool {
    (y: Areas) => IsResample(r, OfSeeds, AreasMean, y)
  }

  ghost function OfGraphs(g: GraphCells): Areas -> bool {
    (y: Areas) => IsResample(g, OfRelabelings, AreasMean, y)
  }

  /** Every order is kept, and its mean is that of a resample of its graphs. */
  ghost predicate KeepsOrders(d: Design, xs: seq<Areas>) {
    |xs| == |d| && forall i: nat :: i < |d| ==> OfGraphs(d[i])(xs[i])
  }

  /** The difference of the means over the orders, for some resample. */
  ghost predicate IsTheta(d: Design, theta: real) {
    exists xs: seq<Areas> :: KeepsOrders(d, xs) && theta == AreasMean(xs).0 - AreasMean(xs).1
  }

  ghost function SeedsSampler(s: Seeds): Sampler<Areas> {
    (stream: Stream, at: nat) => if s == [] then ((0.0, 0.0), at) else SeedsMean(s, stream, at)
  }

  ghost function RelabelingsSampler(r: Relabelings): Sampler<Areas> {
    (stream: Stream, at: nat) => if !Filled(r) then ((0.0, 0.0), at) else RelabelingsMean(r, stream, at)
  }

  ghost function GraphsSampler(g: GraphCells): Sampler<Areas> {
    (stream: Stream, at: nat) => if !FilledGraphs(g) then ((0.0, 0.0), at) else GraphsMean(g, stream, at)
  }

  lemma {:induction false} SeedsDrawnIs(s: Seeds, stream: Stream, step: (nat, nat) -> (Areas, nat), start: nat, n: nat)
    requires s != [] && forall i: nat, at: nat :: step(i, at) == (s[Pick(stream, at, |s|)], at + 1)
    ensures Drawn(step, start, n) == (SeedsDrawn(s, stream, start, n), start + n)
  {
    if n > 0 {
      SeedsDrawnIs(s, stream, step, start, n - 1);
      assert step(n - 1, start + n - 1) == (s[Pick(stream, start + n - 1, |s|)], start + n);
      assert SeedsDrawn(s, stream, start, n)
          == SeedsDrawn(s, stream, start, n - 1) + [s[Pick(stream, start + n - 1, |s|)]];
    }
  }

  ghost function SeedStep(s: Seeds): Stream -> (nat, nat) -> (Areas, nat)
    requires s != []
  {
    (stream: Stream) => (i: nat, at: nat) => (s[Pick(stream, at, |s|)], at + 1)
  }

  lemma SeedsLevel(s: Seeds, stream: Stream, at: nat)
    requires s != []
    ensures SeedsSampler(s)(stream, at)
         == (AreasMean(Drawn(SeedStep(s)(stream), at, |s|).0), Drawn(SeedStep(s)(stream), at, |s|).1)
  {
    var step := SeedStep(s)(stream);
    assert forall i: nat, k: nat :: step(i, k) == (s[Pick(stream, k, |s|)], k + 1);
    SeedsDrawnIs(s, stream, step, at, |s|);
    assert SeedsSampler(s)(stream, at) == SeedsMean(s, stream, at);
  }

  lemma SeedStepIs(s: Seeds, stream: Stream, i: nat, at: nat)
    requires s != []
    ensures SeedStep(s)(stream)(i, at) == PartSampler(s, Just)(stream, at)
  {
    assert Just(s[Pick(stream, at, |s|)])(stream, at + 1) == (s[Pick(stream, at, |s|)], at + 1);
  }

  lemma SeedsYield(s: Seeds)
    requires s != []
    ensures Yields(SeedsSampler(s), OfSeeds(s))
  {
    forall p: Areas | p in s ensures Yields(Just(p), Itself(p)) {
      JustYields(p, Itself(p));
    }
    forall stream: Stream, i: nat, at: nat
      ensures SeedStep(s)(stream)(i, at) == PartSampler(s, Just)(stream, at)
    {
      SeedStepIs(s, stream, i, at);
    }
    forall stream: Stream, at: nat
      ensures SeedsSampler(s)(stream, at)
           == (AreasMean(Drawn(SeedStep(s)(stream), at, |s|).0), Drawn(SeedStep(s)(stream), at, |s|).1)
    {
      SeedsLevel(s, stream, at);
    }
    LevelYields(s, Just, Itself, AreasMean, SeedStep(s), SeedsSampler(s), OfSeeds(s));
  }

  lemma RelabelingsYield(r: Relabelings)
    requires Filled(r)
    ensures Yields(RelabelingsSampler(r), OfRelabelings(r))
  {
    var step := (stream: Stream) => RelabelStep(r, stream);
    forall p: Seeds | p in r ensures Yields(SeedsSampler(p), OfSeeds(p)) {
      SeedsYield(p);
    }
    LevelYields(r, SeedsSampler, OfSeeds, AreasMean, step, RelabelingsSampler(r), OfRelabelings(r));
  }

  lemma GraphsYield(g: GraphCells)
    requires FilledGraphs(g)
    ensures Yields(GraphsSampler(g), OfGraphs(g))
  {
    var step := (stream: Stream) => GraphStep(g, stream);
    forall p: Relabelings | p in g ensures Yields(RelabelingsSampler(p), OfRelabelings(p)) {
      RelabelingsYield(p);
    }
    LevelYields(g, RelabelingsSampler, OfRelabelings, AreasMean, step, GraphsSampler(g), OfGraphs(g));
  }

  /** The orders one after the other can give exactly what keeps them. */
  lemma OrdersYield(d: Design, order: nat -> GraphCells, orders: Sampler<seq<Areas>>, good: seq<Areas> -> bool)
    requires FilledDesign(d) && forall i: nat :: i < |d| ==> order(i) == d[i]
    requires orders == Several((i: nat) => GraphsSampler(order(i)), |d|)
    requires forall xs: seq<Areas> :: good(xs) <==> KeepsOrders(d, xs)
    ensures Yields(orders, good)
  {
    var each, goods := (i: nat) => GraphsSampler(order(i)), (i: nat) => OfGraphs(order(i));
    forall i: nat | i < |d| ensures Yields(each(i), goods(i)) {
      GraphsYield(d[i]);
    }
    forall xs: seq<Areas> ensures good(xs) <==> GoodForEach(goods, |d|, xs) {
      assert forall i: nat :: i < |d| ==> goods(i) == OfGraphs(d[i]);
    }
    SeveralYields(each, goods, |d|, good);
  }

  lemma OrdersDrawn(d: Design, order: nat -> GraphCells, stream: Stream, at: nat)
    requires FilledDesign(d) && forall i: nat :: i < |d| ==> order(i) == d[i]
    ensures Several((i: nat) => GraphsSampler(order(i)), |d|)(stream, at) == Drawn(OrderStep(d, stream), at, |d|)
  {
    DrawnSame(OrderStep(d, stream), StepOf((i: nat) => GraphsSampler(order(i)), stream), at, |d|);
  }

  /** Some stream draws these means of the orders exactly when they are means of resamples of their graphs. */
  lemma OrdersExactly(d: Design, xs: seq<Areas>)
    requires FilledDesign(d)
    ensures (exists stream: Stream :: Drawn(OrderStep(d, stream), 0, |d|).0 == xs) <==> KeepsOrders(d, xs)
  {
    var order: nat -> GraphCells := (i: nat) => if i < |d| then d[i] else [];
    var orders := Several((i: nat) => GraphsSampler(order(i)), |d|);
    var good := (ys: seq<Areas>) => KeepsOrders(d, ys);
    OrdersYield(d, order, orders, good);
    forall stream: Stream ensures orders(stream, 0) == Drawn(OrderStep(d, stream), 0, |d|) {
      OrdersDrawn(d, order, stream, 0);
    }
    assert good(xs) <==> Reachable(orders, 0, xs);
  }

  /** Every draw of a stage 5 effect is the theta of a resample. */
  lemma ThetaDrawn(d: Design, stream: Stream)
    requires FilledDesign(d)
    ensures IsTheta(d, Theta(d, stream))
  {
    OrdersExactly(d, Drawn(OrderStep(d, stream), 0, |d|).0);
  }

  /** And the theta of every resample is drawn by some stream. */
  lemma ThetaReached(d: Design, theta: real) returns (stream: Stream)
    requires FilledDesign(d) && IsTheta(d, theta)
    ensures Theta(d, stream) == theta
  {
    var xs: seq<Areas> :| KeepsOrders(d, xs) && theta == AreasMean(xs).0 - AreasMean(xs).1;
    stream := OrdersReached(d, xs);
    ThetaIs(d, stream, xs);
  }

  lemma OrdersReached(d: Design, xs: seq<Areas>) returns (stream: Stream)
    requires FilledDesign(d) && KeepsOrders(d, xs)
    ensures Drawn(OrderStep(d, stream), 0, |d|).0 == xs
  {
    OrdersExactly(d, xs);
    stream :| Drawn(OrderStep(d, stream), 0, |d|).0 == xs;
  }

  lemma ThetaIs(d: Design, stream: Stream, xs: seq<Areas>)
    requires FilledDesign(d) && Drawn(OrderStep(d, stream), 0, |d|).0 == xs
    ensures Theta(d, stream) == AreasMean(xs).0 - AreasMean(xs).1
  {}

  ghost predicate AllThetas(d: Design, thetas: seq<real>) {
    forall i: nat :: i < |thetas| ==> IsTheta(d, thetas[i])
  }

  lemma DrawsDrawn(d: Design, samples: nat, streams: nat -> Stream)
    requires FilledDesign(d)
    ensures AllThetas(d, Draws(d, samples, streams))
  {
    forall i: nat | i < samples ensures IsTheta(d, Draws(d, samples, streams)[i]) {
      ThetaDrawn(d, streams(i));
    }
  }

  /** Any thetas of resamples are the draws of some generators, one generator for each sample. */
  lemma DrawsReached(d: Design, thetas: seq<real>) returns (streams: nat -> Stream)
    requires FilledDesign(d) && AllThetas(d, thetas)
    ensures Draws(d, |thetas|, streams) == thetas
  {
    var draws := (i: nat, stream: Stream) => i < |thetas| && Theta(d, stream) == thetas[i];
    forall i: nat | i < |thetas| ensures SomeStream(draws, i) {
      var stream := ThetaReached(d, thetas[i]);
      assert draws(i, stream);
    }
    streams := OneForEach(|thetas|, draws);
    forall i: nat | i < |thetas| ensures Theta(d, streams(i)) == thetas[i] {
      assert draws(i, streams(i));
    }
  }

  ghost predicate SomeStream(fits: (nat, Stream) -> bool, i: nat) {
    exists stream: Stream :: fits(i, stream)
  }

  /** A stream of its own for every number below n. */
  lemma {:induction false} OneForEach(n: nat, fits: (nat, Stream) -> bool) returns (streams: nat -> Stream)
    requires forall i: nat :: i < n ==> SomeStream(fits, i)
    ensures forall i: nat :: i < n ==> fits(i, streams(i))
  {
    if n == 0 {
      streams := (i: nat) => (k: nat) => 0;
    } else {
      var before := OneForEach(n - 1, fits);
      assert SomeStream(fits, n - 1);
      var last: Stream :| fits(n - 1, last);
      streams := (i: nat) => if i < n - 1 then before(i) else last;
    }
  }

  // --- Stage 4E -----------------------------------------------------------------------------

  function RealMean(values: seq<real>): real {
    if values == [] then 0.0 else Mean(values)
  }

  ghost function OfDeltas(deltas: seq<real>): real -> bool {
    (y: real) => IsResample(deltas, Itself, RealMean, y)
  }

  ghost function OfPairedGraphs(g: seq<seq<real>>): real -> bool {
    (y: real) => IsResample(g, OfDeltas, RealMean, y)
  }

  ghost predicate KeepsPairedOrders(d: PairedDesign, xs: seq<real>) {
    |xs| == |d| && forall i: nat :: i < |d| ==> OfPairedGraphs(d[i])(xs[i])
  }

  ghost predicate IsPairedTheta(d: PairedDesign, theta: real) {
    exists xs: seq<real> :: KeepsPairedOrders(d, xs) && theta == RealMean(xs)
  }

  ghost function DeltasSampler(deltas: seq<real>): Sampler<real> {
    (stream: Stream, at: nat) => if deltas == [] then (0.0, at) else DeltasMean(deltas, stream, at)
  }

  ghost function PairedGraphsSampler(g: seq<seq<real>>): Sampler<real> {
    (stream: Stream, at: nat) => if !Filled(g) then (0.0, at) else PairedGraphsMean(g, stream, at)
  }

  ghost function DeltaStep(deltas: seq<real>): Stream -> (nat, nat) -> (real, nat)
    requires deltas != []
  {
    (stream: Stream) => (i: nat, at: nat) => (deltas[Pick(stream, at, |deltas|)], at + 1)
  }

  lemma {:induction false} DeltasDrawnIs(deltas: seq<real>, stream: Stream, step: (nat, nat) -> (real, nat), start: nat,
                                         n: nat)
    requires deltas != [] && forall i: nat, at: nat :: step(i, at) == (deltas[Pick(stream, at, |deltas|)], at + 1)
    ensures Drawn(step, start, n) == (DeltasDrawn(deltas, stream, start, n), start + n)
  {
    if n > 0 {
      DeltasDrawnIs(deltas, stream, step, start, n - 1);
      assert step(n - 1, start + n - 1) == (deltas[Pick(stream, start + n - 1, |deltas|)], start + n);
      assert DeltasDrawn(deltas, stream, start, n)
          == DeltasDrawn(deltas, stream, start, n - 1) + [deltas[Pick(stream, start + n - 1, |deltas|)]];
    }
  }

  lemma DeltasLevel(deltas: seq<real>, stream: Stream, at: nat)
    requires deltas != []
    ensures var drawn := Drawn(DeltaStep(deltas)(stream), at, |deltas|);
            DeltasSampler(deltas)(stream, at) == (RealMean(drawn.0), drawn.1)
  {
    var step := DeltaStep(deltas)(stream);
    assert forall i: nat, k: nat :: step(i, k) == (deltas[Pick(stream, k, |deltas|)], k + 1);
    DeltasDrawnIs(deltas, stream, step, at, |deltas|);
    assert DeltasSampler(deltas)(stream, at) == DeltasMean(deltas, stream, at);
  }

  lemma DeltaStepIs(deltas: seq<real>, stream: Stream, i: nat, at: nat)
    requires deltas != []
    ensures DeltaStep(deltas)(stream)(i, at) == PartSampler(deltas, Just)(stream, at)
  {
    assert Just(deltas[Pick(stream, at, |deltas|)])(stream, at + 1) == (deltas[Pick(stream, at, |deltas|)], at + 1);
  }

  lemma DeltasYield(deltas: seq<real>)
    requires deltas != []
    ensures Yields(DeltasSampler(deltas), OfDeltas(deltas))
  {
    forall p: real | p in deltas ensures Yields(Just(p), Itself(p)) {
      JustYields(p, Itself(p));
    }
    forall stream: Stream, i: nat, at: nat
      ensures DeltaStep(deltas)(stream)(i, at) == PartSampler(deltas, Just)(stream, at)
    {
      DeltaStepIs(deltas, stream, i, at);
    }
    forall stream: Stream, at: nat
      ensures DeltasSampler(deltas)(stream, at)
           == (RealMean(Drawn(DeltaStep(deltas)(stream), at, |deltas|).0),
               Drawn(DeltaStep(deltas)(stream), at, |deltas|).1)
    {
      DeltasLevel(deltas, stream, at);
    }
    LevelYields(deltas, Just, Itself, RealMean, DeltaStep(deltas), DeltasSampler(deltas), OfDeltas(deltas));
  }

  lemma PairedGraphsYield(g: seq<seq<real>>)
    requires Filled(g)
    ensures Yields(PairedGraphsSampler(g), OfPairedGraphs(g))
  {
    var step := (stream: Stream) => PairedGraphStep(g, stream);
    forall p: seq<real> | p in g ensures Yields(DeltasSampler(p), OfDeltas(p)) {
      DeltasYield(p);
    }
    LevelYields(g, DeltasSampler, OfDeltas, RealMean, step, PairedGraphsSampler(g), OfPairedGraphs(g));
  }

  lemma PairedOrdersYield(d: PairedDesign, order: nat -> seq<seq<real>>, orders: Sampler<seq<real>>,
                          good: seq<real> -> bool)
    requires FilledPaired(d) && forall i: nat :: i < |d| ==> order(i) == d[i]
    requires orders == Several((i: nat) => PairedGraphsSampler(order(i)), |d|)
    requires forall xs: seq<real> :: good(xs) <==> KeepsPairedOrders(d, xs)
    ensures Yields(orders, good)
  {
    var each, goods := (i: nat) => PairedGraphsSampler(order(i)), (i: nat) => OfPairedGraphs(order(i));
    forall i: nat | i < |d| ensures Yields(each(i), goods(i)) {
      PairedGraphsYield(d[i]);
    }
    forall xs: seq<real> ensures good(xs) <==> GoodForEach(goods, |d|, xs) {
      assert forall i: nat :: i < |d| ==> goods(i) == OfPairedGraphs(d[i]);
    }
    SeveralYields(each, goods, |d|, good);
  }

  lemma PairedOrdersDrawn(d: PairedDesign, order: nat -> seq<seq<real>>, stream: Stream, at: nat)
    requires FilledPaired(d) && forall i: nat :: i < |d| ==> order(i) == d[i]
    ensures Several((i: nat) => PairedGraphsSampler(order(i)), |d|)(stream, at)
         == Drawn(PairedOrderStep(d, stream), at, |d|)
  {
    DrawnSame(PairedOrderStep(d, stream), StepOf((i: nat) => PairedGraphsSampler(order(i)), stream), at, |d|);
  }

  lemma PairedOrdersExactly(d: PairedDesign, xs: seq<real>)
    requires FilledPaired(d)
    ensures (exists stream: Stream :: Drawn(PairedOrderStep(d, stream), 0, |d|).0 == xs) <==> KeepsPairedOrders(d, xs)
  {
    var order: nat -> seq<seq<real>> := (i: nat) => if i < |d| then d[i] else [];
    var orders := Several((i: nat) => PairedGraphsSampler(order(i)), |d|);
    var good := (ys: seq<real>) => KeepsPairedOrders(d, ys);
    PairedOrdersYield(d, order, orders, good);
    forall stream: Stream ensures orders(stream, 0) == Drawn(PairedOrderStep(d, stream), 0, |d|) {
      PairedOrdersDrawn(d, order, stream, 0);
    }
    assert good(xs) <==> Reachable(orders, 0, xs);
  }

  /** Every stage 4E draw is the theta of a resample. */
  lemma PairedThetaDrawn(d: PairedDesign, stream: Stream)
    requires FilledPaired(d)
    ensures IsPairedTheta(d, PairedTheta(d, stream))
  {
    PairedOrdersExactly(d, Drawn(PairedOrderStep(d, stream), 0, |d|).0);
  }

  /** And the theta of every resample is drawn by some stream. */
  lemma PairedThetaReached(d: PairedDesign, theta: real) returns (stream: Stream)
    requires FilledPaired(d) && IsPairedTheta(d, theta)
    ensures PairedTheta(d, stream) == theta
  {
    var xs: seq<real> :| KeepsPairedOrders(d, xs) && theta == RealMean(xs);
    PairedOrdersExactly(d, xs);
    stream :| Drawn(PairedOrderStep(d, stream), 0, |d|).0 == xs;
  }

  ghost predicate AllPairedThetas(d: PairedDesign, thetas: seq<real>) {
    forall i: nat :: i < |thetas| ==> IsPairedTheta(d, thetas[i])
  }

  lemma PairedDrawsDrawn(d: PairedDesign, samples: nat, streams: nat -> Stream)
    requires FilledPaired(d)
    ensures AllPairedThetas(d, PairedDraws(d, samples, streams))
  {
    forall i: nat | i < samples ensures IsPairedTheta(d, PairedDraws(d, samples, streams)[i]) {
      PairedThetaDrawn(d, streams(i));
    }
  }

  /** Any thetas of resamples are the draws of some generators, one generator for each sample. */
  lemma PairedDrawsReached(d: PairedDesign, thetas: seq<real>) returns (streams: nat -> Stream)
    requires FilledPaired(d) && AllPairedThetas(d, thetas)
    ensures PairedDraws(d, |thetas|, streams) == thetas
  {
    var draws := (i: nat, stream: Stream) => i < |thetas| && PairedTheta(d, stream) == thetas[i];
    forall i: nat | i < |thetas| ensures SomeStream(draws, i) {
      var stream := PairedThetaReached(d, thetas[i]);
      assert draws(i, stream);
    }
    streams := OneForEach(|thetas|, draws);
    forall i: nat | i < |thetas| ensures PairedTheta(d, streams(i)) == thetas[i] {
      assert draws(i, streams(i));
    }
  }
}
