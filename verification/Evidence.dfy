/** The evidence store of the counterexample pipeline: its contents and what every publication keeps. */
module Evidence {
  import opened Wrappers
  import Models
  import ToyBackend
  import CubicGraphs
  import FourCycles
  import opened Framing

  type Digest = string

  datatype Role = Primary | Independent

  datatype Status = Verified | Rejected | Unknown | Invalid | Other(name: string)

  /** What a verifier answers; lengths are those in its configuration, if any. */
  datatype Answer = Answer(status: Status, complete: bool, verifier: string, message: string, lengths: Option<seq<int>>)

  datatype Record = Record(candidate: Digest, role: Role, lengths: seq<int>, verifier: string, status: Status,
                           complete: bool, message: string, graphHash: Digest, attemptedAt: int)

  datatype Metadata = Metadata(candidate: Digest, order: int, edges: seq<Models.Edge>, graphHash: Digest,
                               lengths: seq<int>,
                               score: ToyBackend.GraphScore, witnessCap: int, discovery: string, createdAt: int)

  /** What a certificate says of one role: the outcome and where its record is. */
  datatype Testimony = Testimony(status: Status, complete: bool, verifier: string, ref: Path)

  datatype Certificate = Certificate(candidate: Digest, lengths: seq<int>, primary: Testimony, independent: Testimony,
                                     graphHash: Digest, metadataHash: Digest, primaryHash: Digest,
                                         independentHash: Digest)

  datatype Path =
    | CandidateAt(id: Digest)
    | ObservationAt(id: Digest, name: Digest)
    | AttemptAt(id: Digest, role: Role, name: Digest)
    | VerificationAt(id: Digest, role: Role)
    | CertificateAt(id: Digest, name: Digest)
    | CertificateOf(id: Digest)

  /** The files of one published directory with its seal, or one published file. */
  datatype Entry =
    | Candidate(graph: Bytes, metadata: Metadata, graphSeal: Digest, metadataSeal: Digest)
    | Observation(discovery: string, observedAt: int)
    | Attempt(record: Record, seal: Digest)
    | Verification(record: Record)
    | Sealed(certificate: Certificate, seal: Digest)
    | Published(certificate: Certificate)

  /** What is hashed. */
  datatype Content =
    | Identity(framed: Bytes)
    | GraphFile(graph: Bytes)
    | MetadataFile(metadata: Metadata)
    | ObservationFile(discovery: string, observedAt: int)
    | RecordFile(record: Record)
    | CertificateFile(certificate: Certificate)

  type Store = map<Path, Entry>

  /** The target contract, the backend and the hash; canonical writes a list of lengths as bytes. */
  datatype Env = Env(hash: Content -> Digest, target: Bytes, version: Bytes, canonical: seq<int> -> Bytes,
                     serialize: Models.GraphState -> Bytes, deserialize: Bytes -> Option<Models.GraphState>,
                     validates: Models.GraphState -> bool, lengths: int -> seq<int>)

  ghost predicate Injective(env: Env) {
    && (forall a, b :: env.hash(a) == env.hash(b) ==> a == b)
    && (forall k, l :: env.canonical(k) == env.canonical(l) ==> k == l)
  }

  // --- Identity -----------------------------------------------------------------------------

  function Fields(env: Env, graph: Bytes, lengths: seq<int>): seq<Bytes> {
    [env.target, env.version, graph, env.canonical(lengths)]
  }

  function CandidateId(env: Env, graph: Bytes, lengths: seq<int>): Digest {
    env.hash(Identity(Framed(Fields(env, graph, lengths))))
  }

  /** The identity determines the graph bytes and the target lengths, and the target contract and its version. */
  lemma IdentityDetermines(env: Env, g: Bytes, k: seq<int>, fnv: Env, h: Bytes, l: seq<int>)
    requires Injective(env) && env.hash == fnv.hash && env.canonical == fnv.canonical
    requires Framable(Fields(env, g, k)) && Framable(Fields(fnv, h, l))
    requires CandidateId(env, g, k) == CandidateId(fnv, h, l)
    ensures g == h && k == l && env.target == fnv.target && env.version == fnv.version
  {
    var a, b := Fields(env, g, k), Fields(fnv, h, l);
    assert Identity(Framed(a)) == Identity(Framed(b));
    FramedInjective(a, b);
    assert a[0] == b[0] && a[1] == b[1] && a[2] == b[2] && a[3] == b[3];
  }

  /** What is hashed: four fields, each after its length. */
  lemma IdentityBytes(env: Env, graph: Bytes, lengths: seq<int>)
    ensures Framed(Fields(env, graph, lengths))
         == Header(|env.target|) + env.target + (Header(|env.version|) + env.version
            + (Header(|graph|) + graph + (Header(|env.canonical(lengths)|) + env.canonical(lengths))))
  {
    var last := [env.canonical(lengths)];
    assert last[1..] == [];
    assert Framed(last) == Header(|last[0]|) + last[0];
    FramedNext(graph, last);
    FramedNext(env.version, [graph] + last);
    FramedNext(env.target, [env.version] + ([graph] + last));
    assert Fields(env, graph, lengths) == [env.target] + ([env.version] + ([graph] + last));
  }

  lemma FramedNext(field: Bytes, rest: seq<Bytes>)
    ensures Framed([field] + rest) == Header(|field|) + field + Framed(rest)
  {
    assert ([field] + rest)[1..] == rest;
  }

  // --- The score contract -------------------------------------------------------------------

  datatype ScoreError = CapNotPositive | BadLengths | LengthsMismatch | BadCounts | TotalMismatch | InvalidZero

  function Observed(score: ToyBackend.GraphScore): seq<int> {
    seq(|score.counts|, i requires 0 <= i < |score.counts| => score.counts[i].0)
  }

  function CountSum(counts: seq<(int, int)>): int {
    if counts == [] then 0 else CountSum(counts[..|counts| - 1]) + counts[|counts| - 1].1
  }

  predicate LengthsValid(lengths: seq<int>, order: int) {
    && lengths != [] && (forall i, j :: 0 <= i < j < |lengths| ==> lengths[i] != lengths[j])
    && (forall i :: 0 <= i < |lengths| ==> 1 <= lengths[i] <= order)
  }

  /** Whether the score submits its graph: None for a contract error, Some(true) for a valid zero score. */
  function Submits(lengths: seq<int>, order: int, score: ToyBackend.GraphScore, cap: int): Result<bool, ScoreError> {
    if cap <= 0 then Failure(CapNotPositive)
    else if !LengthsValid(lengths, order) then Failure(BadLengths)
    else if Observed(score) != lengths then Failure(LengthsMismatch)
    else if exists i :: 0 <= i < |score.counts| && !(0 <= score.counts[i].1 <= cap) then Failure(BadCounts)
    else if CountSum(score.counts) != score.total then Failure(TotalMismatch)
    else if score.total != 0 then Success(false)
    else if !score.valid then Failure(InvalidZero)
    else Success(true)
  }

  /** A valid score with one count for every target length, all of them zero. */
  ghost predicate ZeroScore(score: ToyBackend.GraphScore, lengths: seq<int>) {
    && score.valid && score.total == 0 && Observed(score) == lengths
    && forall i :: 0 <= i < |score.counts| ==> score.counts[i].1 == 0
  }

  lemma {:induction false} ZeroSum(counts: seq<(int, int)>)
    requires forall i :: 0 <= i < |counts| ==> counts[i].1 >= 0
    ensures CountSum(counts) >= 0
    ensures CountSum(counts) == 0 ==> forall i :: 0 <= i < |counts| ==> counts[i].1 == 0
  {
    if counts != [] {
      ZeroSum(counts[..|counts| - 1]);
      assert forall i :: 0 <= i < |counts| - 1 ==> counts[..|counts| - 1][i] == counts[i];
    }
  }

  lemma {:induction false} SumOfNone(counts: seq<(int, int)>)
    requires forall i :: 0 <= i < |counts| ==> counts[i].1 == 0
    ensures CountSum(counts) == 0
  {
    if counts != [] {
      SumOfNone(counts[..|counts| - 1]);
    }
  }

  /** A score that keeps the contract: one count within the cap for every target length, and their sum. */
  ghost predicate KeepsContract(lengths: seq<int>, order: int, score: ToyBackend.GraphScore, cap: int) {
    && cap > 0 && LengthsValid(lengths, order) && Observed(score) == lengths && score.total == CountSum(score.counts)
    && forall i :: 0 <= i < |score.counts| ==> 0 <= score.counts[i].1 <= cap
  }

  /** Exactly a valid score with no witness submits a graph, and only a broken contract is an error. */
  lemma SubmittedIsZero(lengths: seq<int>, order: int, score: ToyBackend.GraphScore, cap: int)
    ensures Submits(lengths, order, score, cap) == Success(true)
            <==> cap > 0 && LengthsValid(lengths, order) && ZeroScore(score, lengths)
    ensures Submits(lengths, order, score, cap) == Success(false)
            <==> KeepsContract(lengths, order, score, cap)
                 && exists i :: 0 <= i < |score.counts| && score.counts[i].1 != 0
  {
    if KeepsContract(lengths, order, score, cap) {
      ZeroSum(score.counts);
    }
    if forall i :: 0 <= i < |score.counts| ==> score.counts[i].1 == 0 {
      SumOfNone(score.counts);
    }
  }

  /** The toy backend submits exactly the valid graphs without a 4-cycle. */
  lemma ToySubmits(g: Models.GraphState, cap: int)
    requires cap > 0 && CubicGraphs.ValidCubic(g) && g.order >= 4
    ensures Submits([4], g.order, ToyBackend.FullScore(g, cap), cap)
            == Success(FourCycles.Squares(CubicGraphs.Links(g)) == {})
  {
    var score := ToyBackend.FullScore(g, cap);
    var squares := FourCycles.Squares(CubicGraphs.Links(g));
    assert Observed(score) == [4];
    assert score.counts[..0] == [];
    assert CountSum(score.counts) == score.counts[0].1;
    assert squares == {} <==> |squares| == 0;
  }

  // --- Answers ------------------------------------------------------------------------------

  /** Normalised before it becomes evidence: anything outside the contract is a complete INVALID. */
  function Validated(answer: Answer, lengths: seq<int>): (r: Answer)
    ensures Regular(r.status, r.complete) && r.verifier == answer.verifier && r.lengths == Some(lengths)
    ensures InContract(answer, lengths) ==>
              r.status == answer.status && r.complete == answer.complete && r.message == answer.message
    ensures !InContract(answer, lengths) ==> r.status.Invalid? && r.complete
  {
    if answer.lengths.Some? && answer.lengths.value != lengths then
      Answer(Invalid, true, answer.verifier, "verifier target lengths mismatch", Some(lengths))
    else if answer.status.Other? then
      Answer(Invalid, true, answer.verifier, "verifier returned an invalid status contract", Some(lengths))
    else if answer.status.Unknown? && answer.complete then
      Answer(Invalid, true, answer.verifier, "verifier marked UNKNOWN as complete", Some(lengths))
    else answer.(lengths := Some(lengths))
  }

  /** A known status, UNKNOWN not complete, and no target lengths but the expected ones. */
  predicate InContract(answer: Answer, lengths: seq<int>) {
    Regular(answer.status, answer.complete) && (answer.lengths == None || answer.lengths == Some(lengths))
  }

  predicate Regular(status: Status, complete: bool) {
    !status.Other? && (status.Unknown? ==> !complete)
  }

  /** An outcome that is never tried again. */
  predicate Settled(r: Record) {
    r.status.Rejected? || r.status.Invalid? || (r.status.Verified? && r.complete)
  }

  /** Only silence is asked again: UNKNOWN, or VERIFIED without completing. */
  lemma OnlySilenceOpen(r: Record)
    requires Regular(r.status, r.complete)
    ensures !Settled(r) <==> r.status.Unknown? || (r.status.Verified? && !r.complete)
  {
    match r.status {
      case Verified =>
      case Rejected =>
      case Unknown =>
      case Invalid =>
    }
  }

  predicate Proves(r: Record) {
    r.status.Verified? && r.complete
  }

  // --- What a store holds -------------------------------------------------------------------

  predicate HasCandidate(files: Store, id: Digest) {
    CandidateAt(id) in files && files[CandidateAt(id)].Candidate?
  }

  predicate HasAttempt(files: Store, id: Digest, role: Role, name: Digest) {
    AttemptAt(id, role, name) in files && files[AttemptAt(id, role, name)].Attempt?
  }

  function RecordAt(files: Store, id: Digest, role: Role, name: Digest): Record
    requires HasAttempt(files, id, role, name)
  {
    files[AttemptAt(id, role, name)].record
  }

  /** Where a record is cited: under the fixed name when that holds it, else under its own attempt. */
  function Ref(env: Env, files: Store, r: Record): Path {
    if VerificationAt(r.candidate, r.role) in files && files[VerificationAt(r.candidate, r.role)] == Verification(r)
    then VerificationAt(r.candidate, r.role)
    else AttemptAt(r.candidate, r.role, env.hash(RecordFile(r)))
  }

  function TestimonyOf(env: Env, files: Store, r: Record): Testimony {
    Testimony(r.status, r.complete, r.verifier, Ref(env, files, r))
  }

  ghost predicate CandidateOk(env: Env, id: Digest, e: Entry) {
    && e.Candidate? && e.metadata.candidate == id == CandidateId(env, e.graph, e.metadata.lengths)
    && Framable(Fields(env, e.graph, e.metadata.lengths))
    && e.graphSeal == e.metadata.graphHash == env.hash(GraphFile(e.graph))
    && e.metadataSeal == env.hash(MetadataFile(e.metadata))
    && ZeroScore(e.metadata.score, e.metadata.lengths)
  }

  /** A record about the candidate it is filed under. */
  ghost predicate RecordOk(env: Env, files: Store, id: Digest, role: Role, r: Record) {
    && HasCandidate(files, id) && r.candidate == id && r.role == role && Regular(r.status, r.complete)
    && r.lengths == files[CandidateAt(id)].metadata.lengths
       && r.graphHash == env.hash(GraphFile(files[CandidateAt(id)].graph))
  }

  ghost predicate AttemptOk(env: Env, files: Store, clock: int, id: Digest, role: Role, name: Digest) {
    && HasAttempt(files, id, role, name)
    && files[AttemptAt(id, role, name)].seal == name == env.hash(RecordFile(RecordAt(files, id, role, name)))
    && RecordOk(env, files, id, role, RecordAt(files, id, role, name))
    && RecordAt(files, id, role, name).attemptedAt <= clock
  }

  /** Attempts of one role happen at different times, and none follows a settled one. */
  ghost predicate InOrder(files: Store, id: Digest, role: Role, x: Digest, y: Digest)
    requires HasAttempt(files, id, role, x) && HasAttempt(files, id, role, y)
  {
    var a, b := RecordAt(files, id, role, x), RecordAt(files, id, role, y);
    x == y || (a.attemptedAt < b.attemptedAt && !Settled(a)) || (b.attemptedAt < a.attemptedAt && !Settled(b))
  }

  /** The record with this hash proves its role, and the testimony cites it. */
  ghost predicate Testifies(env: Env, files: Store, id: Digest, role: Role, t: Testimony, name: Digest) {
    && HasAttempt(files, id, role, name) && Proves(RecordAt(files, id, role, name))
    && t == TestimonyOf(env, files, RecordAt(files, id, role, name))
  }

  /** Everything the certificate says is in the store, and both verifiers proved the same candidate. */
  ghost predicate Backed(env: Env, files: Store, id: Digest, c: Certificate) {
    && c.candidate == id && HasCandidate(files, id)
    && c.lengths == files[CandidateAt(id)].metadata.lengths
    && c.graphHash == env.hash(GraphFile(files[CandidateAt(id)].graph))
    && c.metadataHash == env.hash(MetadataFile(files[CandidateAt(id)].metadata))
    && Testifies(env, files, id, Primary, c.primary, c.primaryHash)
    && Testifies(env, files, id, Independent, c.independent, c.independentHash)
    && Readable(env, files[CandidateAt(id)])
  }

  /** The stored graph decodes to a valid graph that agrees with the metadata. */
  predicate Readable(env: Env, e: Entry)
    requires e.Candidate?
  {
    var g := env.deserialize(e.graph);
    && g.Some? && env.validates(g.value) && g.value.order == e.metadata.order && g.value.edges == e.metadata.edges
    && env.lengths(g.value.order) == e.metadata.lengths
  }

  ghost predicate CertificateOk(env: Env, files: Store, id: Digest, name: Digest) {
    && CertificateAt(id, name) in files && files[CertificateAt(id, name)].Sealed?
    && files[CertificateAt(id, name)].seal == name
       == env.hash(CertificateFile(files[CertificateAt(id, name)].certificate))
    && Backed(env, files, id, files[CertificateAt(id, name)].certificate)
  }

  // Each kind of file, one file at a time; the quantifiers below range over these.

  ghost predicate CandidateFiled(env: Env, files: Store, id: Digest) {
    CandidateAt(id) in files ==> CandidateOk(env, id, files[CandidateAt(id)])
  }

  ghost predicate ObservationFiled(env: Env, files: Store, id: Digest, name: Digest) {
    ObservationAt(id, name) in files ==>
      files[ObservationAt(id, name)].Observation? && name == ObservationName(env, files[ObservationAt(id, name)])
  }

  ghost predicate AttemptFiled(env: Env, files: Store, clock: int, id: Digest, role: Role, name: Digest) {
    AttemptAt(id, role, name) in files ==> AttemptOk(env, files, clock, id, role, name)
  }

  ghost predicate PairFiled(files: Store, id: Digest, role: Role, x: Digest, y: Digest) {
    HasAttempt(files, id, role, x) && HasAttempt(files, id, role, y) ==> InOrder(files, id, role, x, y)
  }

  ghost predicate VerificationFiled(env: Env, files: Store, id: Digest, role: Role) {
    VerificationAt(id, role) in files ==>
      && files[VerificationAt(id, role)].Verification?
      && VerificationOk(env, files, id, role, files[VerificationAt(id, role)].record)
  }

  ghost predicate VerificationOk(env: Env, files: Store, id: Digest, role: Role, r: Record) {
    HasAttempt(files, id, role, env.hash(RecordFile(r))) && RecordAt(files, id, role, env.hash(RecordFile(r))) == r
  }

  ghost predicate CertificateFiled(env: Env, files: Store, id: Digest, name: Digest) {
    CertificateAt(id, name) in files ==> CertificateOk(env, files, id, name)
  }

  ghost predicate PublishedFiled(env: Env, files: Store, id: Digest) {
    CertificateOf(id) in files ==>
      && files[CertificateOf(id)].Published?
      && CertificateAt(id, env.hash(CertificateFile(files[CertificateOf(id)].certificate))) in files
  }

  ghost predicate CandidatesOk(env: Env, files: Store) {
    forall id :: CandidateFiled(env, files, id)
  }

  ghost predicate ObservationsOk(env: Env, files: Store) {
    forall id, name :: ObservationFiled(env, files, id, name)
  }

  ghost predicate AttemptsOk(env: Env, files: Store, clock: int) {
    forall id, role, name :: AttemptFiled(env, files, clock, id, role, name)
  }

  ghost predicate AttemptsInOrder(files: Store) {
    forall id, role, x, y :: PairFiled(files, id, role, x, y)
  }

  ghost predicate VerificationsOk(env: Env, files: Store) {
    forall id, role :: VerificationFiled(env, files, id, role)
  }

  ghost predicate CertificatesOk(env: Env, files: Store) {
    && (forall id, name :: CertificateFiled(env, files, id, name))
    && (forall id :: PublishedFiled(env, files, id))
  }

  function ObservationName(env: Env, e: Entry): Digest
    requires e.Observation?
  {
    env.hash(ObservationFile(e.discovery, e.observedAt))
  }

  /** What holds of the store after every publication of every run. */
  ghost predicate Consistent(env: Env, files: Store, clock: int) {
    && CandidatesOk(env, files) && ObservationsOk(env, files) && AttemptsOk(env, files, clock) && AttemptsInOrder(files)
    && VerificationsOk(env, files) && CertificatesOk(env, files)
  }

  /** Published files never change or disappear. */
  ghost predicate Extends(before: Store, after: Store) {
    forall p :: p in before ==> p in after && after[p] == before[p]
  }

  // --- Reading a candidate back -------------------------------------------------------------

  datatype ReadError =
    | CandidateUnreadable
    | SealMismatch
    | IdentityMismatch
    | ContentIdentityMismatch
    | GraphHashMismatch
    | Undecodable
    | GraphInvalid
    | OrderMismatch
    | EdgesMismatch
    | TargetLengthsMismatch

  /** Every check on a stored candidate, in the order of the source. */
  function ReadCandidate(env: Env, files: Store, id: Digest): Result<Models.GraphState, ReadError> {
    if !HasCandidate(files, id) then Failure(CandidateUnreadable)
    else
      var e := files[CandidateAt(id)];
      if e.graphSeal != env.hash(GraphFile(e.graph)) || e.metadataSeal != env.hash(MetadataFile(e.metadata)) then
        Failure(SealMismatch)
      else if e.metadata.candidate != id then Failure(IdentityMismatch)
      else if CandidateId(env, e.graph, e.metadata.lengths) != id then Failure(ContentIdentityMismatch)
      else if env.hash(GraphFile(e.graph)) != e.metadata.graphHash then Failure(GraphHashMismatch)
      else
        var g := env.deserialize(e.graph);
        if g.None? then Failure(Undecodable)
        else if !env.validates(g.value) then Failure(GraphInvalid)
        else if g.value.order != e.metadata.order then Failure(OrderMismatch)
        else if g.value.edges != e.metadata.edges then Failure(EdgesMismatch)
        else if env.lengths(g.value.order) != e.metadata.lengths then Failure(TargetLengthsMismatch)
        else Success(g.value)
  }

  /** In a consistent store only the backend can reject a candidate: no seal, identity or hash check fails. */
  lemma ReadsBack(env: Env, files: Store, clock: int, id: Digest)
    requires Consistent(env, files, clock) && HasCandidate(files, id)
    ensures ReadCandidate(env, files, id).Success? <==> Readable(env, files[CandidateAt(id)])
    ensures ReadCandidate(env, files, id).Failure? ==>
              ReadCandidate(env, files, id).error
              in {Undecodable, GraphInvalid, OrderMismatch, EdgesMismatch, TargetLengthsMismatch}
  {
    assert CandidateFiled(env, files, id);
  }

  // --- Publications keep the store consistent -----------------------------------------------

  ghost predicate SettledRole(files: Store, id: Digest, role: Role) {
    exists name :: HasAttempt(files, id, role, name) && Settled(RecordAt(files, id, role, name))
  }

  ghost predicate CertifiedId(files: Store, id: Digest) {
    exists name :: CertificateAt(id, name) in files
  }

  lemma CertifiedIsSettled(env: Env, files: Store, clock: int, id: Digest)
    requires Consistent(env, files, clock) && CertifiedId(files, id)
    ensures SettledRole(files, id, Primary) && SettledRole(files, id, Independent)
  {
    var name :| CertificateAt(id, name) in files;
    assert CertificateFiled(env, files, id, name);
  }

  /** A store that only gains files that bear on none of its certificates keeps them backed. */
  lemma BackedStays(env: Env, files: Store, files': Store, id: Digest, c: Certificate)
    requires Backed(env, files, id, c) && Extends(files, files')
    requires forall role :: VerificationAt(id, role) in files' ==> VerificationAt(id, role) in files
    requires AttemptsFiled(files)
    ensures Backed(env, files', id, c)
  {}

  ghost predicate AttemptsFiled(files: Store) {
    forall id, role, name :: HasAttempt(files, id, role, name) ==>
                               RecordAt(files, id, role, name).candidate == id
                                   && RecordAt(files, id, role, name).role == role
  }

  lemma Filed(env: Env, files: Store, clock: int)
    requires AttemptsOk(env, files, clock)
    ensures AttemptsFiled(files)
  {
    forall id, role, name | HasAttempt(files, id, role, name)
      ensures RecordAt(files, id, role, name).candidate == id && RecordAt(files, id, role, name).role == role
    {
      assert AttemptFiled(env, files, clock, id, role, name);
    }
  }

  /** Certificates stay in order when no fixed verification name of a certified candidate is added. */
  lemma CertificatesStay(env: Env, files: Store, files': Store, clock: int)
    requires Consistent(env, files, clock) && Extends(files, files')
    requires forall id, name :: CertificateAt(id, name) in files' ==> CertificateAt(id, name) in files
    requires forall id :: CertificateOf(id) in files' ==> CertificateOf(id) in files
    requires forall id, role :: CertifiedId(files, id) && VerificationAt(id, role) in files' ==>
                                    VerificationAt(id, role) in files
    ensures CertificatesOk(env, files')
  {
    Filed(env, files, clock);
    forall id, name ensures CertificateFiled(env, files', id, name) {
      assert CertificateFiled(env, files, id, name);
      if CertificateAt(id, name) in files {
        assert CertifiedId(files, id);
        BackedStays(env, files, files', id, files[CertificateAt(id, name)].certificate);
      }
    }
    forall id ensures PublishedFiled(env, files', id) {
      assert PublishedFiled(env, files, id);
    }
  }

  lemma AttemptStays(env: Env, files: Store, files': Store, clock: int, clock': int, id: Digest, role: Role,
                     name: Digest)
    requires AttemptOk(env, files, clock, id, role, name) && Extends(files, files') && clock <= clock'
    ensures AttemptOk(env, files', clock', id, role, name)
  {}

  lemma AttemptsStay(env: Env, files: Store, files': Store, clock: int, clock': int)
    requires AttemptsOk(env, files, clock) && AttemptsInOrder(files) && Extends(files, files') && clock <= clock'
    requires forall id, role, name :: AttemptAt(id, role, name) in files' ==> AttemptAt(id, role, name) in files
    ensures AttemptsOk(env, files', clock') && AttemptsInOrder(files')
  {
    forall id, role, name ensures AttemptFiled(env, files', clock', id, role, name) {
      assert AttemptFiled(env, files, clock, id, role, name);
      if AttemptAt(id, role, name) in files {
        AttemptStays(env, files, files', clock, clock', id, role, name);
      }
    }
    forall id, role, x, y ensures PairFiled(files', id, role, x, y) {
      assert AttemptFiled(env, files, clock, id, role, x) && AttemptFiled(env, files, clock, id, role, y);
      assert PairFiled(files, id, role, x, y);
    }
  }

  lemma VerificationsStay(env: Env, files: Store, files': Store)
    requires VerificationsOk(env, files) && Extends(files, files')
    requires forall id, role :: VerificationAt(id, role) in files' ==> VerificationAt(id, role) in files
    ensures VerificationsOk(env, files')
  {
    forall id, role ensures VerificationFiled(env, files', id, role) {
      assert VerificationFiled(env, files, id, role);
    }
  }

  lemma CandidatesStay(env: Env, files: Store, files': Store)
    requires CandidatesOk(env, files) && Extends(files, files')
    requires forall id :: CandidateAt(id) in files' ==> CandidateAt(id) in files
    ensures CandidatesOk(env, files')
  {
    forall id ensures CandidateFiled(env, files', id) {
      assert CandidateFiled(env, files, id);
    }
  }

  lemma ObservationsStay(env: Env, files: Store, files': Store)
    requires ObservationsOk(env, files) && Extends(files, files')
    requires forall id, name :: ObservationAt(id, name) in files' ==> ObservationAt(id, name) in files
    ensures ObservationsOk(env, files')
  {
    forall id, name ensures ObservationFiled(env, files', id, name) {
      assert ObservationFiled(env, files, id, name);
    }
  }

  lemma AddObservation(env: Env, files: Store, clock: int, id: Digest, name: Digest, e: Entry)
    requires Consistent(env, files, clock) && ObservationAt(id, name) !in files
    requires e.Observation? && name == ObservationName(env, e)
    ensures Consistent(env, files[ObservationAt(id, name) := e], clock)
  {
    var files' := files[ObservationAt(id, name) := e];
    CandidatesStay(env, files, files');
    forall i, n ensures ObservationFiled(env, files', i, n) {
      assert ObservationFiled(env, files, i, n);
    }
    AttemptsStay(env, files, files', clock, clock);
    VerificationsStay(env, files, files');
    CertificatesStay(env, files, files', clock);
  }

  lemma AddCandidate(env: Env, files: Store, clock: int, id: Digest, e: Entry)
    requires Consistent(env, files, clock) && CandidateAt(id) !in files && CandidateOk(env, id, e)
    ensures Consistent(env, files[CandidateAt(id) := e], clock)
  {
    var files' := files[CandidateAt(id) := e];
    forall i ensures CandidateFiled(env, files', i) {
      assert CandidateFiled(env, files, i);
    }
    ObservationsStay(env, files, files');
    AttemptsStay(env, files, files', clock, clock);
    VerificationsStay(env, files, files');
    CertificatesStay(env, files, files', clock);
  }

  /** A new attempt is filed after all others, and only while the role is not settled. */
  lemma AddAttempt(env: Env, files: Store, clock: int, id: Digest, role: Role, r: Record)
    requires Injective(env) && Consistent(env, files, clock) && RecordOk(env, files, id, role, r)
             && clock < r.attemptedAt
    requires !SettledRole(files, id, role)
    ensures var name := env.hash(RecordFile(r));
            && AttemptAt(id, role, name) !in files
            && Consistent(env, files[AttemptAt(id, role, name) := Attempt(r, name)], r.attemptedAt)
  {
    var name := env.hash(RecordFile(r));
    var files' := files[AttemptAt(id, role, name) := Attempt(r, name)];
    NewAttempt(env, files, clock, id, role, r);
    CandidatesStay(env, files, files');
    ObservationsStay(env, files, files');
    AttemptsAdded(env, files, clock, id, role, r, files');
    VerificationsStay(env, files, files');
    CertificatesStay(env, files, files', clock);
  }

  lemma NewAttempt(env: Env, files: Store, clock: int, id: Digest, role: Role, r: Record)
    requires Injective(env) && AttemptsOk(env, files, clock) && clock < r.attemptedAt
    ensures AttemptAt(id, role, env.hash(RecordFile(r))) !in files
  {
    forall n | AttemptAt(id, role, n) in files ensures n != env.hash(RecordFile(r)) {
      assert AttemptFiled(env, files, clock, id, role, n);
      assert RecordAt(files, id, role, n) != r;
      assert n == env.hash(RecordFile(RecordAt(files, id, role, n)));
    }
  }

  lemma AttemptsAdded(env: Env, files: Store, clock: int, id: Digest, role: Role, r: Record, files': Store)
    requires Consistent(env, files, clock) && RecordOk(env, files, id, role, r) && clock < r.attemptedAt
    requires !SettledRole(files, id, role) && AttemptAt(id, role, env.hash(RecordFile(r))) !in files
    requires files' == files[AttemptAt(id, role, env.hash(RecordFile(r))) := Attempt(r, env.hash(RecordFile(r)))]
    ensures AttemptsOk(env, files', r.attemptedAt) && AttemptsInOrder(files')
  {
    var name := env.hash(RecordFile(r));
    forall i, o, n ensures AttemptFiled(env, files', r.attemptedAt, i, o, n) {
      assert AttemptFiled(env, files, clock, i, o, n);
      if AttemptAt(i, o, n) in files {
        AttemptStays(env, files, files', clock, r.attemptedAt, i, o, n);
      }
    }
    forall i, o, x, y ensures PairFiled(files', i, o, x, y) {
      assert AttemptFiled(env, files, clock, i, o, x) && AttemptFiled(env, files, clock, i, o, y);
      assert PairFiled(files, i, o, x, y);
    }
  }

  /** The fixed verification name is only ever added while the candidate has no certificate. */
  lemma AddVerification(env: Env, files: Store, clock: int, id: Digest, role: Role, r: Record)
    requires Consistent(env, files, clock) && VerificationAt(id, role) !in files && !CertifiedId(files, id)
    requires VerificationOk(env, files, id, role, r)
    ensures Consistent(env, files[VerificationAt(id, role) := Verification(r)], clock)
  {
    var files' := files[VerificationAt(id, role) := Verification(r)];
    CandidatesStay(env, files, files');
    ObservationsStay(env, files, files');
    AttemptsStay(env, files, files', clock, clock);
    CertificatesStay(env, files, files', clock);
    VerificationsAdded(env, files, files', id, role, r);
  }

  lemma VerificationsAdded(env: Env, files: Store, files': Store, id: Digest, role: Role, r: Record)
    requires VerificationsOk(env, files) && VerificationOk(env, files, id, role, r)
    requires VerificationAt(id, role) !in files && files' == files[VerificationAt(id, role) := Verification(r)]
    ensures VerificationsOk(env, files')
  {
    forall i, o ensures VerificationFiled(env, files', i, o) {
      assert VerificationFiled(env, files, i, o);
    }
  }

  lemma AddCertificate(env: Env, files: Store, clock: int, id: Digest, c: Certificate)
    requires Consistent(env, files, clock) && Backed(env, files, id, c)
    requires CertificateAt(id, env.hash(CertificateFile(c))) !in files
    ensures var name := env.hash(CertificateFile(c));
            Consistent(env, files[CertificateAt(id, name) := Sealed(c, name)], clock)
  {
    var name := env.hash(CertificateFile(c));
    var files' := files[CertificateAt(id, name) := Sealed(c, name)];
    CandidatesStay(env, files, files');
    ObservationsStay(env, files, files');
    AttemptsStay(env, files, files', clock, clock);
    VerificationsStay(env, files, files');
    Filed(env, files, clock);
    forall i, n ensures CertificateFiled(env, files', i, n) {
      assert CertificateFiled(env, files, i, n);
      if CertificateAt(i, n) in files {
        BackedStays(env, files, files', i, files[CertificateAt(i, n)].certificate);
      } else if i == id {
        BackedStays(env, files, files', i, c);
      }
    }
    forall i ensures PublishedFiled(env, files', i) {
      assert PublishedFiled(env, files, i);
    }
  }

  lemma PublishCertificate(env: Env, files: Store, clock: int, id: Digest, c: Certificate)
    requires Consistent(env, files, clock) && CertificateOf(id) !in files
    requires CertificateAt(id, env.hash(CertificateFile(c))) in files
    ensures Consistent(env, files[CertificateOf(id) := Published(c)], clock)
  {
    var files' := files[CertificateOf(id) := Published(c)];
    CandidatesStay(env, files, files');
    ObservationsStay(env, files, files');
    AttemptsStay(env, files, files', clock, clock);
    VerificationsStay(env, files, files');
    Filed(env, files, clock);
    forall i, n ensures CertificateFiled(env, files', i, n) {
      assert CertificateFiled(env, files, i, n);
      if CertificateAt(i, n) in files {
        BackedStays(env, files, files', i, files[CertificateAt(i, n)].certificate);
      }
    }
    forall i ensures PublishedFiled(env, files', i) {
      assert PublishedFiled(env, files, i);
    }
  }

  // --- One certificate a candidate ----------------------------------------------------------

  lemma OneSettled(env: Env, files: Store, clock: int, id: Digest, role: Role, x: Digest, y: Digest)
    requires Consistent(env, files, clock) && HasAttempt(files, id, role, x) && HasAttempt(files, id, role, y)
    requires Settled(RecordAt(files, id, role, x)) && Settled(RecordAt(files, id, role, y))
    ensures x == y
  {
    assert PairFiled(files, id, role, x, y);
  }

  /** All certificates of a candidate are the same certificate. */
  lemma OneCertificate(env: Env, files: Store, clock: int, id: Digest, b: Certificate, c: Certificate)
    requires Consistent(env, files, clock) && Backed(env, files, id, b) && Backed(env, files, id, c)
    ensures b == c
  {
    OneSettled(env, files, clock, id, Primary, b.primaryHash, c.primaryHash);
    OneSettled(env, files, clock, id, Independent, b.independentHash, c.independentHash);
  }
}
