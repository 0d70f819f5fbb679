# Verified model of the counterexample search

The repository looks for counterexamples to the Erdős–Gyárfás conjecture: connected graphs of minimum degree at
least three without a cycle whose length is a power of two. This project models the code that decides, counts,
searches, certifies and evaluates, and proves what it is for.

`dafny verify dfyconfig.toml` verifies everything. Each module is one file.

- **Deciding.** `Graphs` (paths, cycles, walks, graph search), `CycleSearch` (the meet-in-the-middle cycle search),
  `Graph6` (the graph6 decoder against a reference encoder), `Graph6Examples` (the encoder on the examples of the
  format), `Verifier` (the verdict on the bytes of a file). The format is McKay's graph6 (nauty's `formats.txt`,
  sections "R(x)", "N(n)" and "Description of graph6 format").
- **Counting and rewriting.** `Models`, `FourCycles` (4-cycles by a double count), `CubicGraphs` (validation,
  handshake lemma), `ToyBackend` (scores, exact verification, rewrites, proposals), `SeedGraphs` (Moebius ladders).
- **Relabelling.** `Permutations` (Fisher-Yates), `Isomorphism`, `Relabeling`, `Colors` and `Refinement`
  (Weisfeiler-Leman colour refinement), `Distances` (breadth-first search), `Meaning` (what a certificate tells of a
  graph), `Certificate` (the label-independent certificate).
- **Searching.** `Episode` (the greedy loop in its naive form), `EpisodeHistory` (what its result says about the
  proposals), `AcceleratedEpisode` (the same loop with score cache and cutoff), `RisingCurves` (a start whose curve can
  rise).
- **Certifying.** `Framing` (the candidate identity), `Evidence` (the store and what every publication keeps),
  `Pipeline` (the resumable pipeline).
- **Running.** `Manifests` and `Shards` (resumable sharded passes), `Checkpoints` (the hash chain).
- **Measuring.** `Lattice` (rational gcd), `Means`, `Strata`, `Summaries` (exact hierarchical means), `Weights` (what
  each record weighs in them), `Gates` (when the strata of an order decide its gate and average to it), `Percentiles`
  (percentiles and intervals), `Bootstrap` (cluster bootstraps), `Resamples` (what they can draw), `Designs` (what they
  resample).
- `Wrappers`, `Arithmetic` and `Sorting` are shared: results, powers and quotients, Python's `sorted`, total orders,
  mapped lists, counts.

Where the code falls short of what its documentation says, the code is modelled as it is and the exact boundary is
proved, with an input beyond it:

- The cycle search looks for cycles of length `2 * (length // 2)`: for odd lengths it answers for the even length below
  (`CycleSearch.FindCycle`). It is right about every graph if and only if the length is even
  (`CycleSearch.RightWhenEven`); `CycleSearch.OddLength` has a wrong answer for every odd length from five. The verifier
  only asks for powers of two, where it is exact.
- The graph6 decoder accepts order prefixes that are longer than needed (`Graph6.LongerFormsAccepted`): a graph has an
  encoding other than the encoder's own if and only if its order is below 258048 (`Graph6.LongerFormsExact`). The
  payload is always canonical; the whole text is canonical exactly when it is as short as the encoder's
  (`Graph6.CanonicalIffShortest`).
- On the toy backend the curve of an episode never rises, whatever its proposals draw, if and only if the initial graph
  is valid, the cap is at most 10^9, or no accepted exchange of two disjoint edges leads from it to more than 10^9
  4-cycles (`AcceleratedEpisode.ToyCurveExact`), because an invalid graph scores 10^9 whatever the cap.
  `RisingCurves.CurveCanRise` gives a graph and draws with which it rises: an edge listed twice makes a graph invalid,
  and rewriting it drops the repeat.
- `CheckpointStore.save` writes an entry that no longer verifies when its caller supplies a `checkpoint_sha256` or a
  `sequence` that skips ahead (or, in an empty store, any but 1 or 0). `Checkpoints.ExtendedChain` and
  `Checkpoints.CheckpointStore.Save` say exactly when the chain stays valid: if and only if neither is supplied;
  `Checkpoints.OutOfStep` is such a call. A chain whose last entry carries its sequence number as a text verifies but
  cannot be extended (`Checkpoints.TextualSequence`).
- A stage 5 call with `resume=False` on a finished pass forgets the entries of the other shards while the summary stays;
  every resumed call then fails (`Shards.ShardedPass.ForgottenEntries`). A resumed call on a finished pass
  succeeds if and only if the state still names every shard (`Shards.ShardedPass.Execute`).
- The gate on all order-relabel strata implies the gate on every order if and only if graphs that share a relabeling have
  equally many relabelings, and the same condition is exact for a non-negative theta (`Gates.Stage5GateExact`);
  `Gates.UnbalancedGateFails` gives records that pass the one gate and fail the other.
- The mean of the relabel strata of an order is its delta if and only if every relabeling weighs as much in its graph as
  in its stratum (`Gates.StrataAverageExact`), as in every balanced order (`Gates.BalancedAverages`).
- The identifiers of two episodes sort like their tuples if and only if, at the first component that differs, the smaller
  number is at most the larger one without the digits it is printed longer by (`Manifests.IdOrderExact`). Within the
  printed widths that always holds (`Manifests.IdOrder`); orders 98 and 100 break it, 100 and 200 do not
  (`Manifests.WideIds`). The reduction of a pass drifts from its roster if and only if some pair of its episodes breaks
  it (`Manifests.RosterSortedExact`, `Shards.DriftsUnlessOrdered`), and then no call completes
  (`Shards.ShardedPass.Execute`).
- A certified candidate is certified again if and only if the terminal records of each role come from one verifier;
  otherwise every later submission is refused as a conflict (`Pipeline.CounterexamplePipeline.Inspect`,
  `Pipeline.ConflictingWhen`). `Pipeline.CounterexamplePipeline.SplitVerifiers` reaches such a candidate in two
  submissions.

## Model

| member | source | states |
|---|---|---|
| CycleSearch.FindCycle | src/mutation_forge/independent_verifier.py:90-117 | for every simple graph and every length of at least four: a witness is a simple cycle of length 2 * (length // 2), written from its least vertex, and no such cycle has a smaller least vertex; no witness means that there is none (or that the length exceeds the order); for even lengths "none" holds exactly when no such cycle exists |
| CycleSearch.OddLength | src/mutation_forge/independent_verifier.py:90-117 | for every odd length from five, the search returns a cycle one shorter in a graph without a cycle of that length |
| CycleSearch.RightWhenEven | src/mutation_forge/independent_verifier.py:90-117 | the search finds something exactly when a cycle of the length exists, in every simple graph, if and only if the length is even |
| CycleSearch.CycleFrom | src/mutation_forge/independent_verifier.py:98-116 | the search from one start vertex finds a cycle whose least vertex is the start, or there is none |
| CycleSearch.Extensions | src/mutation_forge/independent_verifier.py:112-116 | what is pushed for a popped path is every path one vertex longer that avoids the path and all vertices up to the start |
| CycleSearch.Match | src/mutation_forge/independent_verifier.py:107-109 | the first stored half path that meets the popped one only in the two ends, and none exactly when there is none |
| CycleSearch.HalvesMeet | src/mutation_forge/independent_verifier.py:90-109 | every even cycle splits at its least vertex into two half paths that meet only in their ends, which is why storing half paths misses nothing |
| CycleSearch.JoinedIsCycle | src/mutation_forge/independent_verifier.py:106-109 | two half paths that meet only in their ends join to a cycle |
| CycleSearch.WeightDrops | src/mutation_forge/independent_verifier.py:103-116 | the measure of unexplored paths on the stack falls with every pop, so the loop ends |
| Graph6.SixBits | src/mutation_forge/independent_verifier.py:17-21 | the 6-bit alphabet is 63 to 126 |
| Graph6.DecodeOrder | src/mutation_forge/independent_verifier.py:24-43 | succeeds exactly on an order in the one-, four- or eight-byte form and returns it with its length |
| Graph6.OrderUnique | src/mutation_forge/independent_verifier.py:24-43 | no data starts with two orders |
| Graph6.ReadTriangle | src/mutation_forge/independent_verifier.py:56-65 | the nested loops turn the bits of the payload into a symmetric loop-free adjacency |
| Graph6.CheckPadding | src/mutation_forge/independent_verifier.py:66-72 | succeeds exactly when fewer than six bits remain and all of them are zero |
| Graph6.DecodePayload | src/mutation_forge/independent_verifier.py:52-73 | succeeds exactly on the packed upper triangle of some graph of this order; re-encoding the result gives the same bytes |
| Graph6.DecodeGraph6 | src/mutation_forge/independent_verifier.py:46-73 | a result is the simple graph that the text encodes, with strictly sorted neighbour lists; failure means that the text encodes no graph |
| Graph6.EncodesUnique | src/mutation_forge/independent_verifier.py:46-73 | a text encodes at most one graph |
| Graph6.RoundTrip | src/mutation_forge/independent_verifier.py:46-73 | the reference encoding of every graph of order below 2^36, with or without header and surrounding white space, encodes that graph, and all its bytes are printable |
| Graph6Examples.Orders | src/mutation_forge/independent_verifier.py:24-43 | the reference encoder gives the order prefixes that formats.txt lists for 30, 12345 and 460175067 |
| Graph6Examples.FiveVertices | src/mutation_forge/independent_verifier.py:52-73 | the graph with the edges 02, 04, 13 and 34 is the text DQc, as in formats.txt |
| Graph6.CanonicalIffShortest | src/mutation_forge/independent_verifier.py:24-43 | a decodable text is the encoder's own exactly when it is as short |
| Graph6.LongerFormsAccepted | src/mutation_forge/independent_verifier.py:24-43 | graphs of order below 63 are also decoded from the four-byte form, and all of order below 258048 from the eight-byte form; both texts are longer than the encoder's |
| Graph6.LongerFormsExact | src/mutation_forge/independent_verifier.py:24-43 | a graph has an encoding other than the encoder's exactly when its order is below 258048 |
| Graphs.Span | src/mutation_forge/independent_verifier.py:79-86 | the stack search returns exactly the vertices reachable from its start |
| Graphs.SeenAll | src/mutation_forge/independent_verifier.py:87-87 | the count of seen vertices is the order exactly when the graph is connected |
| Verifier.IsConnected | src/mutation_forge/independent_verifier.py:76-87 | true exactly for non-empty connected graphs |
| Verifier.ForbiddenLengths | src/mutation_forge/independent_verifier.py:135-140 | exactly the powers of two from four up to the order, in order |
| Verifier.NoLongCycle | src/mutation_forge/independent_verifier.py:94-96 | no cycle is longer than the order, so longer lengths need no search |
| Verifier.CycleOfPower | src/mutation_forge/independent_verifier.py:160-172 | the search for a length 2^k finds nothing exactly when no cycle of that length exists |
| Verifier.FirstCycle | src/mutation_forge/independent_verifier.py:160-172 | the witness reported is a cycle of the least power of two that is a cycle length |
| Verifier.Judge | src/mutation_forge/independent_verifier.py:135-182 | the three verdicts and each of their messages on a decoded graph, each exactly when it applies |
| Verifier.Verify | src/mutation_forge/independent_verifier.py:120-182 | VERIFIED exactly when the bytes encode a connected graph of minimum degree three without a cycle of length 2^k for any k >= 2; REJECTED exactly for such graphs with a cycle of length 2^k, with a genuine one of least length as witness; INVALID exactly otherwise; for every graph that is decoded the lengths reported are the powers of two from four to its order, and the message names the first check that fails or the outcome |
| Models.NormalizedEdge | src/mutation_forge/models.py:11-13 | the same edge with its smaller end first |
| Models.MadeCanonical | src/mutation_forge/models.py:17-24 | a state's edges are normalised and sorted, with the multiset it was built from |
| Models.CanonicalUnique | src/mutation_forge/models.py:17-24 | states with the same order and multiset of edges are equal |
| Models.BuildAdjacency | src/mutation_forge/backends/toy.py:90-93 | the adjacency loop gives exactly the links of the edge list |
| CubicGraphs.ScanEdges | src/mutation_forge/backends/toy.py:61-69 | the edge loop reports nothing exactly when every edge is in range and no loop, and then builds the links |
| CubicGraphs.Validate | src/mutation_forge/backends/toy.py:53-81 | no error exactly for connected cubic graphs with distinct in-range edges and no loops |
| CubicGraphs.Handshake | src/mutation_forge/backends/toy.py:53-81 | a valid graph has three edges for every two vertices |
| FourCycles.RowsSumIsTwiceSquares | src/mutation_forge/backends/toy.py:94-99 | the sum over vertex pairs of pairs of common neighbours is twice the number of 4-cycles |
| FourCycles.DoubleCount | src/mutation_forge/backends/toy.py:94-99 | every 4-cycle has exactly two diagonals |
| FourCycles.CountSquares | src/mutation_forge/backends/toy.py:94-99 | the accumulator loop halved is the number of 4-cycles |
| FourCycles.NoSquareIffNoCycle | src/mutation_forge/backends/toy.py:122-125 | the count is zero exactly when no simple cycle of length four exists |
| ToyBackend.Score | src/mutation_forge/backends/toy.py:83-120 | None exactly for a valid graph dominated by a cutoff that still has witnesses; otherwise a valid graph is rated by its number of 4-cycles: the total is that number, or the cap when it is more, complete exactly when nothing was cut off, penalty 16 for each; an invalid graph has the fixed worst score |
| ToyBackend.KeysRank | src/mutation_forge/backends/toy.py:104-120 | keys put valid graphs before invalid ones, then fewer counted 4-cycles, then fewer edges |
| ToyBackend.ExactVerify | src/mutation_forge/backends/toy.py:122-131 | VERIFIED exactly for valid graphs without a cycle of length four, the same question the independent search answers |
| ToyBackend.ApplyRewrite | src/mutation_forge/backends/toy.py:154-181 | succeeds exactly when the guards allow the exchange, with the one state that has the exchanged edges; otherwise it names the first guard that fails |
| ToyBackend.StateUnique | src/mutation_forge/backends/toy.py:177-181 | the result of a rewrite is determined by its order and edge set |
| ToyBackend.ExchangeKeepsSize | src/mutation_forge/backends/toy.py:154-181 | an accepted rewrite of a valid graph keeps order, validity and number of edges, so it removes as many as it adds |
| ToyBackend.ExchangeReverses | src/mutation_forge/backends/toy.py:154-181 | swapping removed and added edges is accepted and restores the original graph, and nothing else |
| ToyBackend.ProposeRewrite | src/mutation_forge/backends/toy.py:183-216 | the proposal is that of the first of the 64 draws whose two edges are disjoint and whose exchange is accepted, and empty exactly when there is none |
| ToyBackend.SwitchDrawn | src/mutation_forge/backends/toy.py:183-216 | every accepted exchange of two disjoint edges is proposed on some draws |
| SeedGraphs.LadderCubic | src/mutation_forge/backends/toy.py:39-45 | the ladder is cubic, symmetric and in range for every even order from four |
| SeedGraphs.ListedEdges | src/mutation_forge/backends/toy.py:39-46 | the ring and rung edges of the generator are exactly the relabelled ladder edges |
| SeedGraphs.SeedValid | src/mutation_forge/backends/toy.py:32-49 | for every labelling the seed is isomorphic to the ladder, valid, with 3n/2 distinct edges |
| SeedGraphs.GenerateSeed | src/mutation_forge/backends/toy.py:32-49 | fails exactly for odd orders and orders below four, whatever the shuffle; the seed is the ladder labelled by the shuffle of the draws; the final validation never fails |
| SeedGraphs.SeedReached | src/mutation_forge/backends/toy.py:32-38 | every labelling of the ladder is the one of some draws |
| Permutations.DeterministicPermutation | src/mutation_forge/stage5_relabel.py:33-39 | the in-place shuffle is a permutation for every choice of partners |
| Permutations.ShufflePermutes | src/mutation_forge/stage5_relabel.py:33-39 | no choice of partners loses or repeats a vertex |
| Permutations.ShufflePlaces | src/mutation_forge/stage5_relabel.py:33-39 | the entry that ends at a position is the one its digest picks among those up to it, and later entries stay |
| Permutations.ShuffleReaches | src/mutation_forge/stage5_relabel.py:33-39 | every permutation is drawn by some choice of partners |
| Relabeling.ApplyPermutation | src/mutation_forge/stage5_relabel.py:42-48 | fails exactly when the list is not a permutation of the vertices; otherwise the result is the canonical state of the renamed edges |
| Relabeling.RelabelIso | src/mutation_forge/stage5_relabel.py:42-48 | relabelling is an isomorphism of the adjacency |
| Relabeling.RelabelUndone | src/mutation_forge/stage5_relabel.py:42-48 | applying the inverse permutation gives the original state |
| Relabeling.RelabelValid | src/mutation_forge/stage5_relabel.py:42-48 | relabelling a valid graph gives a valid graph |
| Relabeling.RelabelKeepsScore | src/mutation_forge/stage5_relabel.py:42-48 | relabelling changes neither validity nor any part of the score, in both directions |
| Isomorphism.SquaresPreserved | src/mutation_forge/backends/toy.py:94-99 | isomorphic graphs have the same number of 4-cycles |
| Isomorphism.WalkIff | src/mutation_forge/stage5_relabel.py:93-104 | walks of every length correspond under an isomorphism |
| Colors.DecimalInjective | src/mutation_forge/stage5_relabel.py:81-89 | different ranks and degrees are different colours |
| Colors.ReprInjective | src/mutation_forge/stage5_relabel.py:88-88 | different signatures have different reprs, so sorting by repr leaves no choice |
| Colors.PrintedTuples | src/mutation_forge/stage5_relabel.py:88-88 | the repr of tuples with none, one and two items |
| Refinement.RefinedSame | src/mutation_forge/stage5_relabel.py:83-89 | two vertices get the same new colour exactly when they had the same colour and see the same multiset of colours |
| Refinement.RefinedIsRank | src/mutation_forge/stage5_relabel.py:88-89 | the new colour of a vertex is the number of signatures whose repr is below that of its own |
| Refinement.RunLoop | src/mutation_forge/stage5_relabel.py:82-92 | the round loop with its early break |
| Refinement.RefineColors | src/mutation_forge/stage5_relabel.py:81-92 | the refinement of a graph from its degrees in at most as many rounds as vertices |
| Refinement.RoundRefines | src/mutation_forge/stage5_relabel.py:83-89 | each round refines the partition before it, exactly by neighbourhood |
| Refinement.LoopEquitable | src/mutation_forge/stage5_relabel.py:82-92 | with a round for every class that can still split, the loop ends equitable, whether it breaks early or runs out |
| Refinement.FinalIsCoarsestEquitable | src/mutation_forge/stage5_relabel.py:81-92 | the final colouring is equitable, and every equitable colouring is finer |
| Distances.DistancesFrom | src/mutation_forge/stage5_relabel.py:95-103 | the queue search computes the length of a shortest walk to every vertex, and -1 exactly for unreachable ones |
| Distances.WalkReached | src/mutation_forge/stage5_relabel.py:95-103 | when the queue is empty no walk is shorter than the distance found |
| Distances.DistanceUnique | src/mutation_forge/stage5_relabel.py:95-103 | a vertex has one distance |
| Certificate.CarriedMultiset | src/mutation_forge/stage5_relabel.py:104-111 | a list carried along a permutation has the same multiset, so it sorts to the same list |
| Certificate.AroundCarried | src/mutation_forge/stage5_relabel.py:84-87 | the multiset of neighbour colours is carried along every isomorphism |
| Certificate.RoundCarried | src/mutation_forge/stage5_relabel.py:83-89 | a refinement round, palette included, is carried along every isomorphism |
| Certificate.LoopCarried | src/mutation_forge/stage5_relabel.py:82-92 | both loops stay in step and break in the same round |
| Certificate.FinalColorsCarried | src/mutation_forge/stage5_relabel.py:81-92 | the final colours are carried along every isomorphism |
| Certificate.ProfilesCarried | src/mutation_forge/stage5_relabel.py:93-104 | the sorted distance profiles are carried along every isomorphism |
| Certificate.EdgeListCarried | src/mutation_forge/stage5_relabel.py:110-110 | the multiset of edge colour pairs is carried along every relabelling |
| Certificate.BuildCertificate | src/mutation_forge/stage5_relabel.py:70-112 | tells the order; the rows of true distances, each sorted, as a sorted list; the colours of the coarsest equitable colouring as a sorted list; and for every edge the pair of its end colours, again sorted |
| Meaning.SameExactly | src/mutation_forge/stage5_relabel.py:70-112 | two certificates are equal if and only if the graphs have the same order, the same multiset of sorted rows of true distances, the same multiset of final colours, and for every two colours equally many edges between them; so graphs with different distance rows have different certificates |
| Meaning.SameDistances | src/mutation_forge/stage5_relabel.py:93-104 | graphs with the same certificate have equally many pairs of vertices at every distance, and equally many without a walk |
| Certificate.CertificateExact | src/mutation_forge/stage5_relabel.py:70-112 | the certificates computed for two graphs are equal if and only if the graphs agree in all of that |
| Certificate.CertificateInvariant | src/mutation_forge/stage5_relabel.py:70-112 | every relabelling of every graph has the certificate of the graph |
| Certificate.UnlabeledIdentities | src/mutation_forge/stage5_relabel.py:128-145 | for every digest all relabelings of a base graph have the hash of the certificate that tells of the base graph; the final check fails exactly when there are no relabeling seeds |
| Episode.RunGreedy | src/mutation_forge/evaluation/episode.py:152-290 | in every run the current graph is the best one and no graph seen scores below it |
| Episode.RunComplete | src/mutation_forge/evaluation/episode.py:100-151 | with a pipeline, the graphs submitted are exactly the graphs seen without a witness, each once, with its full score |
| Episode.RunBalanced | src/mutation_forge/evaluation/episode.py:152-290 | curve length, evaluations and the legal, invalid, no-op and duplicate counters agree |
| EpisodeHistory.RunTells | src/mutation_forge/evaluation/episode.py:152-290 | every run has a history in which each plan is proposed next to the first graph with the least key so far; no-op counts the evaluations with an empty plan, invalid those whose plan is refused, legal those whose plan leads to a candidate; the graphs seen are the initial one and all candidates; the best and current graph is the first with the least key among them; the curve has its total after every evaluation; the improvement reported is the first candidate below the initial graph; the submissions are the first appearances of graphs without a witness, in order; the run stops exactly with the first submission on which the pipeline says so |
| EpisodeHistory.OneHistory | src/mutation_forge/evaluation/episode.py:152-290 | there is one such history: of two, the shorter begins the longer |
| Episode.CurveNeverRises | src/mutation_forge/evaluation/episode.py:246-258 | where keys agree with totals, the curve never rises and stays between best and initial total |
| Episode.ImprovementReported | src/mutation_forge/evaluation/episode.py:250-254 | an improvement is reported exactly when the best score is below the initial one |
| Episode.FirstImprovement | src/mutation_forge/evaluation/episode.py:250-254 | the evaluation reported is the first one after which the best score is below the initial one |
| Episode.AreaInUnitInterval | src/mutation_forge/evaluation/episode.py:27-31 | the normalised area of a run lies in the unit interval |
| EpisodeHistory.AreaIsMean | src/mutation_forge/evaluation/episode.py:27-31 | the normalised area is the mean of the curve as shares of the initial total, or of 1 when that is less |
| AcceleratedEpisode.Evaluate | src/mutation_forge/evaluation/episode.py:207-241 | a score from the cache or the backend is the full score; none is given only for a dominated candidate; the cache holds full scores only |
| AcceleratedEpisode.DominatedHasWitnesses | src/mutation_forge/backends/toy.py:113-119 | a dominated candidate has witnesses, so skipping it submits nothing less |
| AcceleratedEpisode.DominatedChangesNothing | src/mutation_forge/evaluation/episode.py:246-258 | a dominated candidate would neither be moved to nor be submitted |
| AcceleratedEpisode.RunEpisode | src/mutation_forge/evaluation/episode.py:86-290 | with or without cache, the loop with cutoffs ends in exactly the state of the naive loop that scores every candidate in full, and its counters, graphs seen, best graph, curve and submissions are those of the one history of the proposals |
| AcceleratedEpisode.KeyToTotal | src/mutation_forge/backends/toy.py:104-120 | on valid graphs, or with a cap of at most 10^9, a lower key never has a higher total |
| AcceleratedEpisode.ToyCurve | src/mutation_forge/evaluation/episode.py:27-31 | under every proposal source, from a valid initial graph, with a cap of at most 10^9, or when no accepted proposal for it leads beyond 10^9 4-cycles, the curve never rises and its area lies in [0, 1] |
| AcceleratedEpisode.ToyCurveExact | src/mutation_forge/evaluation/episode.py:95-290 | with the two-switch proposals of the toy backend on any draws, no episode has a curve that rises if and only if the initial graph is valid, the cap is at most 10^9, or no accepted exchange of two disjoint edges leads beyond 10^9 4-cycles |
| RisingCurves.CurveCanRise | src/mutation_forge/evaluation/episode.py:95-290 | for every cap above 10^9 a large ladder with one switch and a repeated edge is a start from which some draws raise the curve |
| RisingCurves.LadderSquares | src/mutation_forge/backends/toy.py:39-46 | a ladder with h rungs has at least h - 1 cycles of length four |
| RisingCurves.SwitchBack | src/mutation_forge/backends/toy.py:154-181 | undoing the switch of a graph with a repeated edge is accepted and drops the repeat |
| Framing.FramedInjective | src/mutation_forge/counterexamples.py:246-253 | the length-prefixed framing of fields shorter than 2^64 bytes is injective |
| Framing.BigEndianAt | src/mutation_forge/counterexamples.py:252-252 | a byte of the length prefix, counted from the right, is that base-256 digit of the length |
| Evidence.IdentityDetermines | src/mutation_forge/counterexamples.py:245-253 | a candidate identity determines the graph bytes, the target lengths, the target and the version of its contract, across runs with different targets |
| Evidence.IdentityBytes | src/mutation_forge/counterexamples.py:245-253 | what is hashed is target, version, graph bytes and lengths in this order, each after its length |
| Evidence.SubmittedIsZero | src/mutation_forge/counterexamples.py:815-853 | a score submits its graph exactly when it is valid with a zero count for every target length, submits nothing exactly when it keeps the contract and has a witness, and is an error otherwise |
| Evidence.ToySubmits | src/mutation_forge/counterexamples.py:815-853 | a valid graph scored by the toy backend is submitted exactly when it has no 4-cycle |
| Evidence.Validated | src/mutation_forge/counterexamples.py:500-548 | an answer in the contract (a known status, UNKNOWN not complete, no target lengths or the expected ones) keeps status, completeness, verifier and message; every other one becomes a complete INVALID of the same verifier |
| Evidence.OnlySilenceOpen | src/mutation_forge/counterexamples.py:870-874 | a record leaves its role open exactly when it is UNKNOWN or VERIFIED without completion |
| Evidence.ReadsBack | src/mutation_forge/counterexamples.py:372-438 | in a consistent store no seal, identity or hash check on a candidate fails; only the backend can reject it |
| Evidence.AddAttempt | src/mutation_forge/counterexamples.py:440-475 | an attempt never lands on an earlier one, and it keeps the store consistent while its role is not settled |
| Evidence.AddVerification | src/mutation_forge/counterexamples.py:476-485 | the fixed verification file keeps the store consistent while its candidate has no certificate |
| Evidence.AddCertificate | src/mutation_forge/counterexamples.py:755-796 | a backed certificate keeps the store consistent |
| Evidence.OneCertificate | src/mutation_forge/counterexamples.py:755-805 | all certificates of a candidate are the same |
| Pipeline.CounterexamplePipeline.Publish | src/mutation_forge/counterexamples.py:140-195 | a publication adds its path, finds the same content there, or changes nothing |
| Pipeline.CounterexamplePipeline.SaveCandidate | src/mutation_forge/counterexamples.py:269-370 | the candidate directory is written once and then only read back; it holds the submitted bytes and lengths |
| Pipeline.CounterexamplePipeline.LoadVerification | src/mutation_forge/counterexamples.py:550-638 | the latest terminal record, or the latest of all; fails exactly when two terminal records contradict each other |
| Pipeline.SpeakerSettled | src/mutation_forge/counterexamples.py:636-638 | the record in force is settled exactly when some record of the role is |
| Pipeline.CounterexamplePipeline.VerificationRecord | src/mutation_forge/counterexamples.py:440-498 | adds the attempt with the normalised answer; on success the fixed name is present, with this attempt unless an earlier one has it |
| Pipeline.CounterexamplePipeline.Obtain | src/mutation_forge/counterexamples.py:870-896 | a settled role is not run again; any other role is run and its new record taken; fails on a conflict exactly when the terminal records contradict each other |
| Pipeline.CounterexamplePipeline.MakeCertificate | src/mutation_forge/counterexamples.py:755-805 | publishes a certificate whose every statement is in the store |
| Pipeline.CounterexamplePipeline.Conclude | src/mutation_forge/counterexamples.py:972-1014 | the decision that follows from both records in force |
| Pipeline.CounterexamplePipeline.ProveIndependent | src/mutation_forge/counterexamples.py:926-1014 | the independent role is settled, retried or in conflict, and the certificate follows from both records |
| Pipeline.CounterexamplePipeline.Prove | src/mutation_forge/counterexamples.py:868-1014 | both roles in turn: settled roles unchanged, others retried with the new answer, certificate exactly when both prove the candidate; a certified candidate with contradicting records is refused with the first role in conflict |
| Pipeline.CounterexamplePipeline.Inspect | src/mutation_forge/counterexamples.py:807-1014 | for arbitrary answers and a stop after any publication: nothing published changes, the store stays consistent, settled roles are never run again, every new attempt is the one reported; a certified candidate is certified again with the same certificate and no new attempt if and only if one verifier answered for each role, and is refused as a conflict otherwise; eight publications suffice for any call; on a candidate with nothing settled the decision follows from the two answers; the records in force and the observation hold what was submitted |
| Pipeline.AnswersDecide | src/mutation_forge/counterexamples.py:868-1014 | with nothing settled: PRIMARY_REJECTED exactly when the primary verifier rejects within its contract; STOP_VERIFIED exactly when both verify completely; PAUSE_INCONCLUSIVE exactly when the primary, or after its proof the independent one, answers UNKNOWN or VERIFIED without completing; FAIL exactly when the primary breaks its contract or says INVALID, or after its proof the independent one does, or rejects |
| Pipeline.CounterexamplePipeline.Replay | src/mutation_forge/counterexamples.py:807-1014 | over any run with increasing attempt times no published file changes or disappears, and every certificate ever returned stays published and backed |
| Pipeline.CounterexamplePipeline.SplitVerifiers | src/mutation_forge/counterexamples.py:550-638 | VERIFIED without completion from one verifier, then a certificate from another: every later submission is refused as a conflict |
| Pipeline.CertificateMeans | src/mutation_forge/counterexamples.py:755-805 | a published certificate rests on a primary and an independent record, both VERIFIED and complete, for the graph bytes and lengths of a candidate with an all-zero score, and names the verifier and the file of each |
| Pipeline.ConflictingWhen | src/mutation_forge/counterexamples.py:625-628 | in a certified role the terminal records contradict each other exactly when they come from different verifiers |
| Manifests.IdOrder | src/mutation_forge/stage5_config.py:72-73 | within the printed widths identifiers are ordered like their tuples |
| Manifests.IdOrderExact | src/mutation_forge/stage5_config.py:72-73 | the identifiers of two episodes sort like their tuples if and only if the first different components are in step: the smaller number is at most the larger one without its extra printed digits |
| Manifests.IdDetermines | src/mutation_forge/stage5_config.py:72-73 | whatever the widths, an identifier determines its episode |
| Manifests.PaddedAt | src/mutation_forge/stage5_config.py:72-73 | a place of a printed component, counted from the right, holds that decimal digit of the number, and zero before its first digit |
| Manifests.WideIds | src/mutation_forge/stage5_config.py:72-73 | orders 98 and 100 sort the other way round as identifiers, while 100 and 200 sort like their tuples although neither fits its width |
| Manifests.RosterSorted | src/mutation_forge/stage5_execution.py:72-95 | a roster whose numbers fit their widths is the manifest rows in the order of their tuples and of their identifiers |
| Manifests.RosterSortedExact | src/mutation_forge/stage5_execution.py:72-95 | the roster is in the order of its identifiers if and only if all pairs of its episodes are in step |
| Manifests.ManifestShards | src/mutation_forge/stage5_execution.py:98-108 | succeeds exactly for 24 shards of 64 known rows and groups the rows by shard in roster order |
| Manifests.ShardsPartition | src/mutation_forge/stage5_execution.py:98-108 | the shards hold every row exactly once |
| Shards.ManifestIsSound | src/mutation_forge/stage5_execution.py:72-108 | a manifest of named episodes that passes the checks gives a plan for which everything below holds, in identifier order exactly when all its episodes are in step |
| Shards.DriftsUnlessOrdered | src/mutation_forge/stage5_execution.py:502-505 | the records of all shards sorted by identifier are those of the roster, so that the roster-drift error cannot fire, exactly when the roster is in the order of its identifiers |
| Shards.ReadsBack | src/mutation_forge/stage5_execution.py:422-441 | in every reachable state each entry passes all read-back checks and yields the records of its shard |
| Shards.ReadsOnlyIntact | src/mutation_forge/stage5_execution.py:422-441 | with hashes that differ for different contents, and whatever became of the files, an entry reads back if and only if its file holds exactly the records of its shard; an altered file is a hash mismatch |
| Shards.ShardHashesDetermine | src/mutation_forge/stage5_execution.py:489-563 | passes with the same digest over the shard hashes have the same records in every shard |
| Shards.ReductionDetermines | src/mutation_forge/stage5_execution.py:489-563 | passes with the same canonical reduction have the same records in the order of their identifiers |
| Shards.ShardedPass.WriteShard | src/mutation_forge/stage5_execution.py:403-419 | a written shard holds the records of its roster, and its entry names them and their hash |
| Shards.ShardedPass.LoadRecords | src/mutation_forge/stage5_execution.py:474-486 | loads exactly the records of the named shards and fails exactly when one has no entry |
| Shards.ShardedPass.Summarize | src/mutation_forge/stage5_execution.py:489-563 | the digests of the summary depend on the plan alone; fails exactly when the roster is not in the order of its identifiers |
| Shards.ShardedPass.VerifySummary | src/mutation_forge/stage5_execution.py:656-705 | a summary in a reachable state always verifies as exact |
| Shards.ShardedPass.EvaluateMissing | src/mutation_forge/stage5_execution.py:612-636 | in any order of completion every missing shard gets an entry, old entries stay, and a stop leaves a state whose entries are all backed by their files |
| Shards.ShardedPass.Run | src/mutation_forge/stage5_execution.py:597-653 | a call without a summary completes exactly when every shard has an entry or was asked for, the roster is in identifier order and nothing stops it |
| Shards.ShardedPass.Execute | src/mutation_forge/stage5_execution.py:566-653 | the persisted state is consistent after a stop at any write; resumed calls keep every entry and add entries only for missing shards that were asked for; a completed call reaches the digests of an uninterrupted pass; partial outcomes name exactly the completed shards; a roster out of identifier order never completes |
| Shards.ShardedPass.AnyRun | src/mutation_forge/stage5_execution.py:566-653 | any sequence of partial, stopped and differently parallel resumed calls, then a full one, ends with the digests of an uninterrupted pass |
| Shards.ShardedPass.ForgottenEntries | src/mutation_forge/stage5_execution.py:587-595 | a call with resume=False on a finished pass makes every later resumed call fail |
| Checkpoints.Verify | src/mutation_forge/experiment/checkpoints.py:95-110 | no error exactly for a valid chain; an error is the first check that the first entry to break the chain fails |
| Checkpoints.LastHashDetermines | src/mutation_forge/experiment/checkpoints.py:95-110 | with an injective digest two valid chains that end in the same hash are equal entry by entry |
| Checkpoints.ChainFound | src/mutation_forge/experiment/checkpoints.py:76-93 | a directory holds at most one valid chain, and sorting its files finds it |
| Checkpoints.CheckpointStore.List | src/mutation_forge/experiment/checkpoints.py:76-93 | returns the valid chain in the directory and fails exactly when there is none |
| Checkpoints.ExtendedChain | src/mutation_forge/experiment/checkpoints.py:42-67 | the extended chain is valid if and only if the caller gave neither a hash nor an out-of-step sequence number |
| Checkpoints.CheckpointStore.Save | src/mutation_forge/experiment/checkpoints.py:36-74 | adds exactly one entry to a valid chain or changes nothing; the entry holds every key of the caller outside the six chain fields with the caller's value and no further keys, the caller's creation time and identifier or else the present time and the numbered one, and a hash of the whole; never appends to anything but a valid chain; succeeds exactly when its guards hold; the directory is a valid chain afterwards if and only if the call was in step |
| Checkpoints.SameHashWhen | src/mutation_forge/experiment/checkpoints.py:54-67 | with an injective digest two saved entries have the same hash if and only if the callers' values agree outside the chain fields and the chain wrote the same fields |
| Checkpoints.DefaultIdOrder | src/mutation_forge/experiment/checkpoints.py:63-66 | identifiers of sequence numbers below 10^12 are in the order of their numbers |
| Checkpoints.SaveFirst | src/mutation_forge/experiment/checkpoints.py:36-74 | saving into an empty directory gives a valid chain exactly when the call was in step |
| Checkpoints.OutOfStep | src/mutation_forge/experiment/checkpoints.py:42-74 | a first checkpoint saved as number 7 is accepted, and the directory no longer verifies |
| Checkpoints.TextualSequence | src/mutation_forge/experiment/checkpoints.py:36-74 | a chain whose last entry carries its sequence number as a text verifies, and no call extends it |
| Checkpoints.CheckpointStore.Latest | src/mutation_forge/experiment/checkpoints.py:112-114 | the last entry of the valid chain |
| Lattice.GcdDivides | src/mutation_forge/stage4r_diagnostics.py:142-144 | the gcd divides both numbers |
| Lattice.Bezout | src/mutation_forge/stage4r_diagnostics.py:142-144 | the gcd is an integer combination of both numbers |
| Lattice.FractionGcd | src/mutation_forge/stage4r_diagnostics.py:135-145 | every value is a whole number of steps, and the step is a whole number of any other size with that property; zero when all values are |
| Lattice.DifferencesOnLattice | src/mutation_forge/stage4r_diagnostics.py:541-542 | a step that divides neighbouring differences of a list divides every difference |
| Lattice.LatticeStep | src/mutation_forge/stage4r_diagnostics.py:541-542 | every difference of two areas of either policy is a whole number of the reported steps, and the step is a whole number of any other size with that property |
| Means.TopIsLinear | src/mutation_forge/stage4e_metrics.py:226-264 | through any number of levels and for groups of any sizes the mean of differences is the difference of means |
| Means.TopPermuted | src/mutation_forge/stage4e_metrics.py:226-264 | means taken level by level do not depend on the order of the input |
| Strata.MeanByWeights | src/mutation_forge/stage5_metrics.py:245-251 | the mean over the classes of an order weighs every cell by the size of its class times the number of classes |
| Summaries.CurveArea | src/mutation_forge/stage5_metrics.py:63-74 | succeeds exactly for non-empty nondecreasing curves in [0, 1], with the mean, which lies in [0, 1] |
| Summaries.Collapse | src/mutation_forge/stage5_metrics.py:179-203 | the dictionary loops give the groups in sorted order and the mean of each |
| Summaries.SummarizePairedAreas | src/mutation_forge/stage4e_metrics.py:196-275 | succeeds exactly on valid episodes with a non-zero comparator mean; theta is the hierarchical mean of the deltas and equals the candidate mean minus mu_B |
| Weights.PairedMeanWeighs | src/mutation_forge/stage4e_metrics.py:196-275 | the mean is the sum of the areas, each divided by the number of episodes of its graph times the number of graphs of its order times the number of orders: equal weight for each graph and each order |
| Summaries.PairedMeanPermuted | src/mutation_forge/stage4e_metrics.py:196-275 | the order of the episodes does not matter |
| Summaries.PairEffect | src/mutation_forge/stage5_metrics.py:229-269 | theta is the difference of the policy means and the mean of the order deltas; relabel, graph and order deltas are the episode deltas taken level by level; the strata are means by order and relabeling; the sign counts are those of each level |
| Summaries.SignsCounted | src/mutation_forge/stage5_metrics.py:286-291 | every value has one sign, and no negative sign is counted exactly when the gate on the values passes |
| Summaries.SignsAre | src/mutation_forge/stage5_metrics.py:286-291 | the three counts are the sizes of the sets of negative, zero and positive places |
| Summaries.SummarizeStage5 | src/mutation_forge/stage5_metrics.py:164-283 | succeeds exactly on distinct records with the full policy roster and a non-zero structural mean, with every policy mean at every level and every effect |
| Weights.PolicyMeanWeighs | src/mutation_forge/stage5_metrics.py:179-228 | a policy mean is the sum of the areas, each divided by the number of records of its relabeling, of relabelings of its graph, of graphs of its order and of orders |
| Summaries.Stage5Permuted | src/mutation_forge/stage5_metrics.py:164-283 | whether the summary succeeds, its means at every level and its effects, strata and sign counts included, do not depend on the order of the records |
| Strata.StrataMeanIsOrderMean | src/mutation_forge/stage5_metrics.py:245-251 | in an order where every cell weighs as much in its graph as in its stratum, the mean of the relabel strata is the mean of the graphs |
| Strata.BalancedIsProportional | src/mutation_forge/stage5_metrics.py:245-251 | orders with equally many relabelings for each graph and graphs for each relabeling are such orders |
| Gates.StrataMeanIsOrderDelta | src/mutation_forge/stage5_metrics.py:229-251 | for every effect and every such order, the mean of the stratum deltas of the order is its order delta |
| Gates.StrataAverageExact | src/mutation_forge/stage5_metrics.py:229-251 | for every design and order, whatever the areas in [0, 1]: the mean of its stratum deltas is its order delta if and only if every cell weighs as much in its graph as in its stratum |
| Gates.BalancedAverages | src/mutation_forge/stage5_metrics.py:229-251 | in a balanced order the mean of the stratum deltas is the order delta, whatever the areas |
| Strata.StrataGateImpliesOrderGate | src/mutation_forge/stage5_metrics.py:448-449 | when graphs that share a relabeling have equally many relabelings, non-negative strata give non-negative orders and a non-negative theta |
| Strata.TiltFails | src/mutation_forge/stage5_metrics.py:448-449 | a loss on a cell of a smaller graph and the same gain on a cell of the same stratum in a larger one leave all strata at zero and make an order and theta negative |
| Gates.Stage5Gate | src/mutation_forge/stage5_metrics.py:448-449 | in such a design the gate on all strata of an effect implies the gate on every order and a non-negative theta |
| Gates.Stage5GateExact | src/mutation_forge/stage5_metrics.py:448-449 | for every design, whatever the areas in [0, 1]: the gate on all strata implies the gate on every order if and only if graphs that share a relabeling have equally many relabelings, and the same holds for a non-negative theta |
| Gates.UnbalancedGateFails | src/mutation_forge/stage5_metrics.py:448-449 | records with areas in [0, 1] whose strata pass the gate while an order and theta are negative |
| Percentiles.PositionInRange | src/mutation_forge/stage5_metrics.py:294-303 | the percentile index stays in range for every probability from 0 to 1 |
| Percentiles.PercentileMonotone | src/mutation_forge/stage5_metrics.py:294-303 | percentiles do not fall as the probability rises |
| Percentiles.PercentileBetween | src/mutation_forge/stage4e_metrics.py:278-287 | percentiles stay in the range of the sample |
| Percentiles.PercentilePermuted | src/mutation_forge/stage4e_metrics.py:278-287 | percentiles do not depend on the order of the sample |
| Percentiles.PercentileAtRank | src/mutation_forge/stage5_metrics.py:294-303 | the percentile at k / (n - 1) is a value of the sample with at least k + 1 values at most it and at least n - k values at least it |
| Percentiles.PercentileExtremes | src/mutation_forge/stage5_metrics.py:294-303 | the percentiles at 0 and 1 are the least and the greatest value |
| Percentiles.PercentileAffine | src/mutation_forge/stage5_metrics.py:294-303 | between two neighbouring steps the percentile is affine in the probability |
| Percentiles.PercentileMirrored | src/mutation_forge/stage5_metrics.py:294-303 | the percentile of the mirrored sample is the mirrored percentile at the opposite probability |
| Bootstrap.BootstrapDraw | src/mutation_forge/stage5_metrics.py:367-393 | one draw from a grouped design is the difference of both policies' means over the same resampled graphs, relabelings and seeds |
| Bootstrap.ThetaInHull | src/mutation_forge/stage5_metrics.py:363-393 | for every outcome of the generator a draw lies between the least and the greatest episode delta |
| Resamples.DrawsDrawn | src/mutation_forge/stage5_metrics.py:367-393 | every stage 5 draw is the difference of the means over the orders of resampled graphs of resampled relabelings of resampled seeds, each level drawn with replacement at its own size and the orders kept |
| Resamples.DrawsReached | src/mutation_forge/stage5_metrics.py:367-393 | any list of such differences is what some generators draw, one for each sample |
| Bootstrap.BootstrapTheta | src/mutation_forge/stage4e_metrics.py:303-322 | one stage 4E draw from a grouped design is the mean over orders of resampled graphs of resampled deltas |
| Resamples.PairedDrawsDrawn | src/mutation_forge/stage4e_metrics.py:303-322 | every stage 4E draw is the mean over the orders of resampled graphs of resampled deltas |
| Resamples.PairedDrawsReached | src/mutation_forge/stage4e_metrics.py:303-322 | any list of such means is what some generators draw |
| Percentiles.IntervalOrdered | src/mutation_forge/stage5_metrics.py:415-416 | for every confidence in (0, 1) the lower end is at most the upper end, and both lie in the hull of the draws |
| Percentiles.IntervalAtDraws | src/mutation_forge/stage5_metrics.py:415-416 | where the confidence leaves k draws on each side, the ends are the k-th order statistics from below and from above |
| Percentiles.IntervalMirrored | src/mutation_forge/stage5_metrics.py:415-416 | mirrored draws have the mirrored interval, so both tails have the same probability |
| Percentiles.FiveDraws | src/mutation_forge/stage5_metrics.py:415-416 | at a confidence of 95 percent the draws 0, 1/4, 1/2, 3/4 and 1 have the interval from 0.025 to 0.975 |
| Bootstrap.BootstrapStage5 | src/mutation_forge/stage5_metrics.py:396-416 | the interval is that of one draw for every sample, and its ends are ordered and in every hull of the deltas of the design |
| Bootstrap.BootstrapPairedTheta | src/mutation_forge/stage4e_metrics.py:396-431 | the stage 4E interval is that of one draw for every sample, and its ends are ordered and in every hull of the deltas of the design |
| Designs.DesignInHull | src/mutation_forge/stage5_metrics.py:364-370 | the design grouped from the records has no empty level, and any bounds of the episode deltas bound it |
| Designs.DesignIsSummary | src/mutation_forge/stage5_metrics.py:364-387 | without drawing, the design has the policy means of the summary, so what is resampled is what was observed |
| Designs.BootstrapEffects | src/mutation_forge/stage5_metrics.py:396-416 | for every outcome of the generators the intervals of all effects, over shared draws, are ordered, in the hull of the episode deltas and, for areas of valid curves, in [-1, 1] |
| Designs.PairedDesignIsSummary | src/mutation_forge/stage4e_metrics.py:295-322 | without drawing, the stage 4E design has the theta of the summary |
| Designs.BootstrapPaired | src/mutation_forge/stage4e_metrics.py:396-431 | for every outcome of the generators the stage 4E interval of valid episodes is ordered, in the hull of their deltas and in [-1, 1] |

## Left out

- Bit masks of the cycle search are sets of vertices, and dictionaries and sets are visited in any order where the source's order does not matter.
- Files are values: reading, writing, fsync, gzip and temporary files are not modelled; a publication or a state write is one atomic step, and a stop falls between steps. A kill inside a publication can leave a temporary directory beside the attempts, which the pipeline would then read as a damaged record.
- SHA-256 and canonical JSON are injective functions; the trailing newline of JSON files is not part of them. Random generators are arbitrary outcome streams.
- Wall clocks, deadlines, timing profiles, progress events, messages and logging.
- Pipeline.CounterexamplePipeline.Inspect: takes the answers of the verifiers as given; starting the independent verifier as a process and reading its output are not modelled. Witnesses, elapsed times, implementation hashes, repository states, state hashes and canonical hashes carry no decision and are left out of the records.
- Pipeline.CounterexamplePipeline.SaveCandidate: two processes that publish the same candidate at the same time are not modelled.
- AcceleratedEpisode.RunEpisode: deadlines and score failures are left out, and the backend is the toy backend; the proposal source and the pipeline are arbitrary functions. Where fewer than two edges can be drawn the source's proposals raise, and there are none here.
- Graph6.DecodeGraph6: promises that a text that encodes no graph is refused, not with which of its messages.
- Graph6.RoundTrip: the encoder is a reference model; the repository's own encoder lives in a library that is not part of this model.
- The heg backend, its scoring and its mutations live in a library that is not part of this model.
- Shards.ShardedPass.Execute: identities, file names by pass, worker affinity and policy sources are left out; an evaluation is a function of its episode. A shard is named by its number, and episode components are not negative.
- Checkpoints.CheckpointStore.Save: a file is named by its sequence number; numbers with a fraction are left out, and what Python reads from a text is an arbitrary function.
- Summaries.SummarizePairedAreas: exact fractions are reals; parsing of decimals and per-graph listings are left out.
- Summaries.SummarizeStage5: episode, relabeling and graph counts of each level are left out; they only count.
- Bootstrap.BootstrapStage5: the counts of draws and of their signs are left out; they only count.
- Configuration loading, command lines, dashboards, run stores, reports, artifact manifests and the stage 3 and 4 drivers: straight-line guards, or the greedy and resume patterns again.
