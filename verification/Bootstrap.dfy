/** Cluster bootstraps: every draw and every interval stays in the hull of the episode deltas. */
module Bootstrap {
  import opened Wrappers
  import opened Sorting
  import opened Means
  import opened Percentiles

  // --- Draws --------------------------------------------------------------------------------

  /** Areas of the candidate and the comparator in one episode. */
  type Areas = (real, real)

  /** The episodes by order, graph, relabeling and policy seed. */
  type Seeds = seq<Areas>
  type Relabelings = seq<Seeds>
  type GraphCells = seq<Relabelings>
  type Design = seq<GraphCells>

  /** The outcomes of the random generator, in the order they are drawn: draw k below n is stream(k) % n. */
  type Stream = nat -> nat

  /** rng.randrange(n) */
  function Pick(stream: Stream, at: nat, n: nat): (i: nat)
    requires n > 0
    ensures i < n
  {
    stream(at) % n
  }

  ghost predicate Filled<T>(parts: seq<seq<T>>) {
    parts != [] && forall i :: 0 <= i < |parts| ==> parts[i] != []
  }

  /** No level is empty. */
  ghost predicate FilledDesign(d: Design) {
    d != [] && forall i :: 0 <= i < |d| ==> FilledGraphs(d[i])
  }

  ghost predicate FilledGraphs(g: GraphCells) {
    g != [] && forall i :: 0 <= i < |g| ==> Filled(g[i])
  }

  function Firsts(pairs: seq<Areas>): seq<real> {
    Map((p: Areas) => p.0, pairs)
  }

  function Seconds(pairs: seq<Areas>): seq<real> {
    Map((p: Areas) => p.1, pairs)
  }

  /** The means of both policies over the same sample. */
  function PairMean(pairs: seq<Areas>): Areas
    requires pairs != []
  {
    (Mean(Firsts(pairs)), Mean(Seconds(pairs)))
  }

  /** The first k results of a step that draws from a position in the stream and says where the next one starts. */
  ghost function Drawn<T>(step: (nat, nat) -> (T, nat), start: nat, k: nat): (d: (seq<T>, nat))
    ensures |d.0| == k
  {
    if k == 0 then ([], start)
    else
      var (results, at) := Drawn(step, start, k - 1);
      var (x, next) := step(k - 1, at);
      (results + [x], next)
  }

  lemma DrawnNext<T>(step: (nat, nat) -> (T, nat), start: nat, k: nat, results: seq<T>, at: nat, x: T, next: nat)
    requires (results, at) == Drawn(step, start, k) && (x, next) == step(k, at)
    ensures (results + [x], next) == Drawn(step, start, k + 1)
  {}

  lemma {:induction false} DrawnAll<T>(step: (nat, nat) -> (T, nat), start: nat, k: nat, good: T -> bool)
    requires forall i: nat, at: nat :: i < k ==> good(step(i, at).0)
    ensures forall j :: 0 <= j < k ==> good(Drawn(step, start, k).0[j])
  {
    if k > 0 {
      DrawnAll(step, start, k - 1, good);
    }
  }

  /** The policy seeds drawn with replacement from start on. */
  ghost function SeedsDrawn(seeds: Seeds, stream: Stream, start: nat, k: nat): (r: seq<Areas>)
    requires seeds != []
    ensures |r| == k
  {
    seq(k, i requires 0 <= i < k => seeds[Pick(stream, start + i, |seeds|)])
  }

  ghost function SeedsMean(seeds: Seeds, stream: Stream, start: nat): (Areas, nat)
    requires seeds != []
  {
    (PairMean(SeedsDrawn(seeds, stream, start, |seeds|)), start + |seeds|)
  }

  /** A relabeling is drawn, and then its policy seeds. */
  ghost function RelabelStep(r: Relabelings, stream: Stream): (nat, nat) -> (Areas, nat)
    requires Filled(r)
  {
    (i: nat, at: nat) => SeedsMean(r[Pick(stream, at, |r|)], stream, at + 1)
  }

  ghost function RelabelingsMean(r: Relabelings, stream: Stream, start: nat): (Areas, nat)
    requires Filled(r)
  {
    var d := Drawn(RelabelStep(r, stream), start, |r|);
    (PairMean(d.0), d.1)
  }

  /** A graph is drawn, and then its relabelings. */
  ghost function GraphStep(g: GraphCells, stream: Stream): (nat, nat) -> (Areas, nat)
    requires FilledGraphs(g)
  {
    (i: nat, at: nat) => RelabelingsMean(g[Pick(stream, at, |g|)], stream, at + 1)
  }

  ghost function GraphsMean(g: GraphCells, stream: Stream, start: nat): (Areas, nat)
    requires FilledGraphs(g)
  {
    var d := Drawn(GraphStep(g, stream), start, |g|);
    (PairMean(d.0), d.1)
  }

  /** Orders are kept; graphs, relabelings and policy seeds are drawn with replacement. */
  ghost function OrderStep(d: Design, stream: Stream): (nat, nat) -> (Areas, nat)
    requires FilledDesign(d)
  {
    (i: nat, at: nat) => if i < |d| then GraphsMean(d[i], stream, at) else ((0.0, 0.0), at)
  }

  ghost function Theta(d: Design, stream: Stream): real
    requires FilledDesign(d)
  {
    var means := PairMean(Drawn(OrderStep(d, stream), 0, |d|).0);
    means.0 - means.1
  }

  method SampleSeeds(seeds: Seeds, stream: Stream, start: nat) returns (means: Areas, next: nat)
    requires seeds != []
    ensures (means, next) == SeedsMean(seeds, stream, start)
  {
    var sampled: seq<Areas> := [];
    next := start;
    for i := 0 to |seeds|
      invariant next == start + i && sampled == SeedsDrawn(seeds, stream, start, i)
    {
      sampled := sampled + [seeds[Pick(stream, next, |seeds|)]];
      next := next + 1;
    }
    means := PairMean(sampled);
  }

  method SampleRelabelings(r: Relabelings, stream: Stream, start: nat) returns (means: Areas, next: nat)
    requires Filled(r)
    ensures (means, next) == RelabelingsMean(r, stream, start)
  {
    ghost var step := RelabelStep(r, stream);
    var sampled: seq<Areas> := [];
    next := start;
    for i := 0 to |r|
      invariant (sampled, next) == Drawn(step, start, i)
    {
      var x, after := SampleSeeds(r[Pick(stream, next, |r|)], stream, next + 1);
      DrawnNext(step, start, i, sampled, next, x, after);
      sampled, next := sampled + [x], after;
    }
    means := PairMean(sampled);
  }

  lemma GraphDrawn(g: GraphCells, stream: Stream, step: (nat, nat) -> (Areas, nat), start: nat, i: nat,
                   sampled: seq<Areas>,
                   at: nat, x: Areas, next: nat)
    requires FilledGraphs(g) && step == GraphStep(g, stream) && (sampled, at) == Drawn(step, start, i)
    requires (x, next) == RelabelingsMean(g[Pick(stream, at, |g|)], stream, at + 1)
    ensures (sampled + [x], next) == Drawn(step, start, i + 1)
  {
    DrawnNext(step, start, i, sampled, at, x, next);
  }

  method SampleGraphs(g: GraphCells, stream: Stream, start: nat) returns (means: Areas, next: nat)
    requires FilledGraphs(g)
    ensures (means, next) == GraphsMean(g, stream, start)
  {
    ghost var step := GraphStep(g, stream);
    var sampled: seq<Areas> := [];
    next := start;
    for i := 0 to |g|
      invariant (sampled, next) == Drawn(step, start, i)
    {
      var x, after := SampleRelabelings(g[Pick(stream, next, |g|)], stream, next + 1);
      GraphDrawn(g, stream, step, start, i, sampled, next, x, after);
      sampled, next := sampled + [x], after;
    }
    means := PairMean(sampled);
  }

  /** One stage 5 draw. */
  method BootstrapDraw(design: Design, stream: Stream) returns (theta: real)
    requires FilledDesign(design)
    ensures theta == Theta(design, stream)
  {
    ghost var step := OrderStep(design, stream);
    var sampled: seq<Areas> := [];
    var next := 0;
    for i := 0 to |design|
      invariant (sampled, next) == Drawn(step, 0, i)
    {
      var x, after := SampleGraphs(design[i], stream, next);
      DrawnNext(step, 0, i, sampled, next, x, after);
      sampled, next := sampled + [x], after;
    }
    theta := PairMean(sampled).0 - PairMean(sampled).1;
  }

  // --- The hull -----------------------------------------------------------------------------

  /** The difference of the pair lies between lo and hi. */
  predicate PairIn(lo: real, hi: real, p: Areas) {
    lo <= p.0 - p.1 <= hi
  }

  ghost predicate PairsIn(pairs: seq<Areas>, lo: real, hi: real) {
    forall i :: 0 <= i < |pairs| ==> PairIn(lo, hi, pairs[i])
  }

  ghost predicate RelabelingsIn(r: Relabelings, lo: real, hi: real) {
    Filled(r) && forall i :: 0 <= i < |r| ==> PairsIn(r[i], lo, hi)
  }

  ghost predicate GraphsIn(g: GraphCells, lo: real, hi: real) {
    g != [] && forall i :: 0 <= i < |g| ==> RelabelingsIn(g[i], lo, hi)
  }

  /** Every episode delta lies between lo and hi. */
  ghost predicate DesignIn(d: Design, lo: real, hi: real) {
    d != [] && forall i :: 0 <= i < |d| ==> GraphsIn(d[i], lo, hi)
  }

  lemma PairMeanIn(pairs: seq<Areas>, lo: real, hi: real)
    requires pairs != [] && PairsIn(pairs, lo, hi)
    ensures PairIn(lo, hi, PairMean(pairs))
  {
    MeanMinus(Firsts(pairs), Seconds(pairs));
    assert forall i :: 0 <= i < |pairs| ==> PairIn(lo, hi, pairs[i]);
    MeanBetween(Minus(Firsts(pairs), Seconds(pairs)), lo, hi);
  }

  /** When every result of a step is in the hull, so is the mean of what it draws. */
  lemma DrawnHull(step: (nat, nat) -> (Areas, nat), start: nat, k: nat, lo: real, hi: real)
    requires k > 0 && forall i: nat, at: nat :: i < k ==> PairIn(lo, hi, step(i, at).0)
    ensures PairIn(lo, hi, PairMean(Drawn(step, start, k).0))
  {
    DrawnAll(step, start, k, p => PairIn(lo, hi, p));
    PairMeanIn(Drawn(step, start, k).0, lo, hi);
  }

  lemma SeedsHull(seeds: Seeds, stream: Stream, start: nat, lo: real, hi: real)
    requires seeds != [] && PairsIn(seeds, lo, hi)
    ensures PairIn(lo, hi, SeedsMean(seeds, stream, start).0)
  {
    var drawn := SeedsDrawn(seeds, stream, start, |seeds|);
    forall i | 0 <= i < |drawn| ensures PairIn(lo, hi, drawn[i]) {
      assert drawn[i] == seeds[Pick(stream, start + i, |seeds|)];
    }
    PairMeanIn(drawn, lo, hi);
  }

  lemma RelabelingsHull(r: Relabelings, stream: Stream, start: nat, lo: real, hi: real)
    requires RelabelingsIn(r, lo, hi)
    ensures PairIn(lo, hi, RelabelingsMean(r, stream, start).0)
  {
    forall i: nat, at: nat | i < |r| ensures PairIn(lo, hi, RelabelStep(r, stream)(i, at).0) {
      SeedsHull(r[Pick(stream, at, |r|)], stream, at + 1, lo, hi);
    }
    DrawnHull(RelabelStep(r, stream), start, |r|, lo, hi);
  }

  lemma GraphsHull(g: GraphCells, stream: Stream, start: nat, lo: real, hi: real)
    requires GraphsIn(g, lo, hi)
    ensures FilledGraphs(g) && PairIn(lo, hi, GraphsMean(g, stream, start).0)
  {
    forall i: nat, at: nat | i < |g| ensures PairIn(lo, hi, GraphStep(g, stream)(i, at).0) {
      RelabelingsHull(g[Pick(stream, at, |g|)], stream, at + 1, lo, hi);
    }
    DrawnHull(GraphStep(g, stream), start, |g|, lo, hi);
  }

  /** For every outcome of the generator a draw lies between the least and the greatest episode delta. */
  lemma ThetaInHull(d: Design, stream: Stream, lo: real, hi: real)
    requires DesignIn(d, lo, hi)
    ensures FilledDesign(d) && lo <= Theta(d, stream) <= hi
  {
    forall i | 0 <= i < |d| ensures FilledGraphs(d[i]) {
      GraphsHull(d[i], stream, 0, lo, hi);
    }
    forall i: nat, at: nat | i < |d| ensures PairIn(lo, hi, OrderStep(d, stream)(i, at).0) {
      GraphsHull(d[i], stream, at, lo, hi);
    }
    DrawnHull(OrderStep(d, stream), 0, |d|, lo, hi);
  }

  // --- Stage 4E -----------------------------------------------------------------------------

  type PairedDesign = seq<seq<seq<real>>>

  ghost predicate FilledPaired(d: PairedDesign) {
    d != [] && forall i :: 0 <= i < |d| ==> Filled(d[i])
  }

  /** The deltas of a graph drawn with replacement. */
  ghost function DeltasDrawn(deltas: seq<real>, stream: Stream, start: nat, k: nat): (r: seq<real>)
    requires deltas != []
    ensures |r| == k
  {
    seq(k, i requires 0 <= i < k => deltas[Pick(stream, start + i, |deltas|)])
  }

  ghost function DeltasMean(deltas: seq<real>, stream: Stream, start: nat): (real, nat)
    requires deltas != []
  {
    (Mean(DeltasDrawn(deltas, stream, start, |deltas|)), start + |deltas|)
  }

  /** A graph is drawn, and then its deltas. */
  ghost function PairedGraphStep(g: seq<seq<real>>, stream: Stream): (nat, nat) -> (real, nat)
    requires Filled(g)
  {
    (i: nat, at: nat) => DeltasMean(g[Pick(stream, at, |g|)], stream, at + 1)
  }

  ghost function PairedGraphsMean(g: seq<seq<real>>, stream: Stream, start: nat): (real, nat)
    requires Filled(g)
  {
    var d := Drawn(PairedGraphStep(g, stream), start, |g|);
    (Mean(d.0), d.1)
  }

  ghost function PairedOrderStep(d: PairedDesign, stream: Stream): (nat, nat) -> (real, nat)
    requires FilledPaired(d)
  {
    (i: nat, at: nat) => if i < |d| then PairedGraphsMean(d[i], stream, at) else (0.0, at)
  }

  ghost function PairedTheta(d: PairedDesign, stream: Stream): real
    requires FilledPaired(d)
  {
    Mean(Drawn(PairedOrderStep(d, stream), 0, |d|).0)
  }

  method SampleDeltas(deltas: seq<real>, stream: Stream, start: nat) returns (mean: real, next: nat)
    requires deltas != []
    ensures (mean, next) == DeltasMean(deltas, stream, start)
  {
    var drawn: seq<real> := [];
    next := start;
    for i := 0 to |deltas|
      invariant next == start + i && drawn == DeltasDrawn(deltas, stream, start, i)
    {
      drawn := drawn + [deltas[Pick(stream, next, |deltas|)]];
      next := next + 1;
    }
    mean := Mean(drawn);
  }

  method SamplePairedGraphs(g: seq<seq<real>>, stream: Stream, start: nat) returns (mean: real, next: nat)
    requires Filled(g)
    ensures (mean, next) == PairedGraphsMean(g, stream, start)
  {
    ghost var step := PairedGraphStep(g, stream);
    var drawn: seq<real> := [];
    next := start;
    for i := 0 to |g|
      invariant (drawn, next) == Drawn(step, start, i)
    {
      var x, after := SampleDeltas(g[Pick(stream, next, |g|)], stream, next + 1);
      DrawnNext(step, start, i, drawn, next, x, after);
      drawn, next := drawn + [x], after;
    }
    mean := Mean(drawn);
  }

  /** One stage 4E draw: orders are kept, graphs and episodes are drawn with replacement. */
  method BootstrapTheta(design: PairedDesign, stream: Stream) returns (theta: real)
    requires FilledPaired(design)
    ensures theta == PairedTheta(design, stream)
  {
    ghost var step := PairedOrderStep(design, stream);
    var means: seq<real> := [];
    var next := 0;
    for i := 0 to |design|
      invariant (means, next) == Drawn(step, 0, i)
    {
      var x, after := SamplePairedGraphs(design[i], stream, next);
      DrawnNext(step, 0, i, means, next, x, after);
      means, next := means + [x], after;
    }
    theta := Mean(means);
  }

  ghost predicate PairedGraphsIn(g: seq<seq<real>>, lo: real, hi: real) {
    Filled(g) && forall i :: 0 <= i < |g| ==> Bounded(g[i], lo, hi)
  }

  ghost predicate PairedIn(d: PairedDesign, lo: real, hi: real) {
    d != [] && forall i :: 0 <= i < |d| ==> PairedGraphsIn(d[i], lo, hi)
  }

  lemma MeansHull(step: (nat, nat) -> (real, nat), start: nat, k: nat, lo: real, hi: real)
    requires k > 0 && forall i: nat, at: nat :: i < k ==> lo <= step(i, at).0 <= hi
    ensures lo <= Mean(Drawn(step, start, k).0) <= hi
  {
    DrawnAll(step, start, k, x => lo <= x <= hi);
    MeanBetween(Drawn(step, start, k).0, lo, hi);
  }

  lemma DeltasHull(deltas: seq<real>, stream: Stream, start: nat, lo: real, hi: real)
    requires deltas != [] && Bounded(deltas, lo, hi)
    ensures lo <= DeltasMean(deltas, stream, start).0 <= hi
  {
    var drawn := DeltasDrawn(deltas, stream, start, |deltas|);
    forall i | 0 <= i < |drawn| ensures lo <= drawn[i] <= hi {
      assert drawn[i] == deltas[Pick(stream, start + i, |deltas|)];
    }
    MeanBetween(drawn, lo, hi);
  }

  lemma PairedGraphsHull(g: seq<seq<real>>, stream: Stream, start: nat, lo: real, hi: real)
    requires PairedGraphsIn(g, lo, hi)
    ensures lo <= PairedGraphsMean(g, stream, start).0 <= hi
  {
    forall i: nat, at: nat | i < |g| ensures lo <= PairedGraphStep(g, stream)(i, at).0 <= hi {
      DeltasHull(g[Pick(stream, at, |g|)], stream, at + 1, lo, hi);
    }
    MeansHull(PairedGraphStep(g, stream), start, |g|, lo, hi);
  }

  lemma PairedThetaInHull(d: PairedDesign, stream: Stream, lo: real, hi: real)
    requires PairedIn(d, lo, hi)
    ensures FilledPaired(d) && lo <= PairedTheta(d, stream) <= hi
  {
    forall i: nat, at: nat | i < |d| ensures lo <= PairedOrderStep(d, stream)(i, at).0 <= hi {
      PairedGraphsHull(d[i], stream, at, lo, hi);
    }
    MeansHull(PairedOrderStep(d, stream), 0, |d|, lo, hi);
  }

  // --- Intervals ------------------------------------------------------------------------------

  datatype BootstrapError = NoSamples | BadConfidence

  /** One draw for every sample. */
  ghost function Draws(design: Design, samples: nat, streams: nat -> Stream): (r: seq<real>)
    requires FilledDesign(design)
    ensures |r| == samples && forall i :: 0 <= i < samples ==> r[i] == Theta(design, streams(i))
  {
    seq(samples, i requires 0 <= i < samples => Theta(design, streams(i)))
  }

  /** The interval of any samples of a design is ordered and in every hull of its deltas. */
  lemma IntervalInHull(design: Design, samples: nat, streams: nat -> Stream, confidence: real, lo: real, hi: real)
    requires FilledDesign(design) && DesignIn(design, lo, hi) && samples > 0 && 0.0 < confidence < 1.0
    ensures var interval := Interval(Draws(design, samples, streams), confidence);
            lo <= interval.0 <= interval.1 <= hi
  {
    forall i | 0 <= i < samples ensures lo <= Theta(design, streams(i)) <= hi {
      ThetaInHull(design, streams(i), lo, hi);
    }
    IntervalOrdered(Draws(design, samples, streams), confidence, lo, hi);
  }

  method AllDraws(design: Design, samples: nat, streams: nat -> Stream) returns (draws: seq<real>)
    requires FilledDesign(design)
    ensures draws == Draws(design, samples, streams)
  {
    draws := [];
    for i := 0 to samples
      invariant draws == Draws(design, samples, streams)[..i]
    {
      var theta := BootstrapDraw(design, streams(i));
      draws := draws + [theta];
    }
  }

  /** The interval of a stage 5 effect, for any outcomes of the generators: its ends are ordered and in the hull. */
  method BootstrapStage5(design: Design, samples: int, streams: nat -> Stream, confidence: real)
    returns (r: Result<(real, real), BootstrapError>)
    requires FilledDesign(design)
    ensures r.Success? <==> samples >= 1 && 0.0 < confidence < 1.0
    ensures r.Success? ==> r.value == Interval(Draws(design, samples, streams), confidence)
    ensures r.Success? ==> forall lo, hi :: DesignIn(design, lo, hi) ==> lo <= r.value.0 <= r.value.1 <= hi
  {
    if samples < 1 {
      return Failure(NoSamples);
    }
    if !(0.0 < confidence < 1.0) {
      return Failure(BadConfidence);
    }
    var draws := AllDraws(design, samples, streams);
    r := Success(Interval(draws, confidence));
    forall lo, hi | DesignIn(design, lo, hi) ensures lo <= r.value.0 <= r.value.1 <= hi {
      IntervalInHull(design, samples, streams, confidence, lo, hi);
    }
  }

  ghost function PairedDraws(design: PairedDesign, samples: nat, streams: nat -> Stream): (r: seq<real>)
    requires FilledPaired(design)
    ensures |r| == samples && forall i :: 0 <= i < samples ==> r[i] == PairedTheta(design, streams(i))
  {
    seq(samples, i requires 0 <= i < samples => PairedTheta(design, streams(i)))
  }

  lemma PairedIntervalInHull(design: PairedDesign, samples: nat, streams: nat -> Stream, confidence: real, lo: real,
                             hi: real)
    requires FilledPaired(design) && PairedIn(design, lo, hi) && samples > 0 && 0.0 < confidence < 1.0
    ensures var interval := Interval(PairedDraws(design, samples, streams), confidence);
            lo <= interval.0 <= interval.1 <= hi
  {
    forall i | 0 <= i < samples ensures lo <= PairedTheta(design, streams(i)) <= hi {
      PairedThetaInHull(design, streams(i), lo, hi);
    }
    IntervalOrdered(PairedDraws(design, samples, streams), confidence, lo, hi);
  }

  method AllPairedDraws(design: PairedDesign, samples: nat, streams: nat -> Stream) returns (draws: seq<real>)
    requires FilledPaired(design)
    ensures draws == PairedDraws(design, samples, streams)
  {
    draws := [];
    for i := 0 to samples
      invariant draws == PairedDraws(design, samples, streams)[..i]
    {
      var theta := BootstrapTheta(design, streams(i));
      draws := draws + [theta];
    }
  }

  /** The interval of the stage 4E theta. */
  method BootstrapPairedTheta(design: PairedDesign, samples: int, streams: nat -> Stream, confidence: real)
    returns (r: Result<(real, real), BootstrapError>)
    requires FilledPaired(design)
    ensures r.Success? <==> samples >= 1 && 0.0 < confidence < 1.0
    ensures r.Success? ==> r.value == Interval(PairedDraws(design, samples, streams), confidence)
    ensures r.Success? ==> forall lo, hi :: PairedIn(design, lo, hi) ==> lo <= r.value.0 <= r.value.1 <= hi
  {
    if samples < 1 {
      return Failure(NoSamples);
    }
    if !(0.0 < confidence < 1.0) {
      return Failure(BadConfidence);
    }
    var draws := AllPairedDraws(design, samples, streams);
    r := Success(Interval(draws, confidence));
    forall lo, hi | PairedIn(design, lo, hi) ensures lo <= r.value.0 <= r.value.1 <= hi {
      PairedIntervalInHull(design, samples, streams, confidence, lo, hi);
    }
  }
}
