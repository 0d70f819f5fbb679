/** The counterexample pipeline over its evidence store: every run, stopped after any publication. */
module Pipeline {
  import opened Wrappers
  import Models
  import ToyBackend
  import Framing
  import opened Evidence
  import Graphs

  datatype Fault =
    | Crashed
    | Differs(path: Path)
    | BadScore(reason: ScoreError)
    | FieldTooLong
    | BadCandidate(check: ReadError)
    | IntegrityMismatch
    | PublicationMismatch
    | Conflict(role: Role)

  datatype Decision = Continue | PrimaryRejected | PauseInconclusive | StopVerified | Fail

  /** A record in use and where it is cited. */
  datatype Loaded = Loaded(record: Record, ref: Path)

  datatype Outcome = Outcome(decision: Decision, primary: Option<Loaded>, independent: Option<Loaded>,
                             certificate: Option<Certificate>)

  /** One call of the pipeline, with what the verifiers would answer and how many publications complete. */
  datatype Submission = Submission(graph: Models.GraphState, score: ToyBackend.GraphScore, discovery: string, cap: int,
                                   primary: Answer, independent: Answer, now: int, later: int, publications: nat)

  function Id(env: Env, s: Submission): Digest {
    CandidateId(env, env.serialize(s.graph), env.lengths(s.graph.order))
  }

  function Submitted(env: Env, s: Submission): Result<bool, ScoreError> {
    Submits(env.lengths(s.graph.order), s.graph.order, s.score, s.cap)
  }

  // --- Which record speaks for a role -------------------------------------------------------

  predicate Terminal(r: Record) {
    !r.status.Unknown?
  }

  ghost predicate IsRecord(files: Store, id: Digest, role: Role, r: Record) {
    exists name :: HasAttempt(files, id, role, name) && RecordAt(files, id, role, name) == r
  }

  /** Two records of one role that contradict each other. */
  ghost predicate Conflicting(files: Store, id: Digest, role: Role) {
    exists a, b :: IsRecord(files, id, role, a) && IsRecord(files, id, role, b) && Terminal(a) && Terminal(b)
                   && (a.status, a.verifier) != (b.status, b.verifier)
  }

  /** The latest record, where any terminal record goes before every other. */
  ghost predicate Speaks(files: Store, id: Digest, role: Role, r: Record) {
    && IsRecord(files, id, role, r)
    && forall o :: IsRecord(files, id, role, o) ==>
                     (Terminal(o) ==> Terminal(r)) && (Terminal(r) == Terminal(o) ==> o.attemptedAt <= r.attemptedAt)
  }

  /** A settled record speaks for its role, so a role whose speaker is not settled has no settled record. */
  lemma SpeakerSettled(env: Env, files: Store, clock: int, id: Digest, role: Role, r: Record)
    requires Consistent(env, files, clock) && Speaks(files, id, role, r)
    ensures Settled(r) <==> SettledRole(files, id, role)
  {
    var n :| HasAttempt(files, id, role, n) && RecordAt(files, id, role, n) == r;
    forall m | HasAttempt(files, id, role, m) && Settled(RecordAt(files, id, role, m)) ensures m == n {
      assert IsRecord(files, id, role, RecordAt(files, id, role, m));
      assert PairFiled(files, id, role, m, n);
    }
  }

  // --- The pipeline -------------------------------------------------------------------------

  class CounterexamplePipeline {
    const env: Env
    var files: Store
    ghost var clock: int
    // How many more publications complete before the process dies.
    var left: nat

    constructor (env: Env)
      requires Injective(env)
      ensures Valid() && this.env == env && files == map[]
    {
      this.env := env;
      files := map[];
      clock := 0;
      left := 0;
    }

    ghost predicate Valid()
      reads this
    {
      Injective(env) && Consistent(env, files, clock)
    }

    /** One atomic publication of a directory or a file; an existing one must be the same. */
    method Publish(path: Path, entry: Entry) returns (r: Result<bool, Fault>)
      modifies this`files, this`left
      ensures r == Success(true) || r == Failure(Crashed) || r == Failure(Differs(path))
      ensures r.Success? ==> files == old(files)[path := entry] && (path in old(files) ==> old(files)[path] == entry)
      ensures r.Failure? ==> files == old(files)
      ensures r == Failure(Differs(path)) ==> path in old(files) && old(files)[path] != entry
      ensures old(left) > 0 ==> r != Failure(Crashed) && left == old(left) - 1
    {
      if left == 0 {
        return Failure(Crashed);
      }
      left := left - 1;
      if path in files && files[path] != entry {
        return Failure(Differs(path));
      }
      files := files[path := entry];
      r := Success(true);
    }

    method SaveObservation(id: Digest, discovery: string, now: int) returns (r: Result<bool, Fault>)
      requires Valid()
      modifies this`files, this`left
      ensures Valid() && Extends(old(files), files)
      ensures forall p :: p in files && p !in old(files) ==> p.ObservationAt? && p.id == id
      ensures r == Success(true) || r == Failure(Crashed)
      ensures r.Success? ==> Observes(env, files, id, discovery, now)
      ensures old(left) >= 1 ==> r.Success? && left == old(left) - 1
    {
      var entry := Observation(discovery, now);
      var name := ObservationName(env, entry);
      assert ObservationFiled(env, files, id, name);
      if ObservationAt(id, name) !in files {
        AddObservation(env, files, clock, id, name, entry);
      }
      r := Publish(ObservationAt(id, name), entry);
      if r.Success? && ObservationAt(id, name) in old(files) {
        assert files == old(files);
      }
    }

    /** The candidate directory is published once; every submission adds an observation. */
    method SaveCandidate(graph: Models.GraphState, score: ToyBackend.GraphScore, discovery: string, lengths: seq<int>,
                         cap: int, now: int)
      returns (r: Result<Digest, Fault>)
      requires Valid() && ZeroScore(score, lengths)
      modifies this`files, this`left
      ensures Valid() && Extends(old(files), files)
      ensures OnlySaved(CandidateId(env, env.serialize(graph), lengths), old(files), files)
      ensures r.Success? ==> r.value == CandidateId(env, env.serialize(graph), lengths) && HasCandidate(files, r.value)
                             && files[CandidateAt(r.value)].graph == env.serialize(graph)
                             && files[CandidateAt(r.value)].metadata.lengths == lengths
      ensures r.Failure? ==> r.error == Crashed || r.error == FieldTooLong || r.error.BadCandidate?
      ensures r == Failure(FieldTooLong) ==> !Framing.Framable(Fields(env, env.serialize(graph), lengths))
      ensures r.Failure? && r.error.BadCandidate? ==>
                HasCandidate(files, CandidateId(env, env.serialize(graph), lengths))
                && !Readable(env, files[CandidateAt(CandidateId(env, env.serialize(graph), lengths))])
      ensures CandidateAt(CandidateId(env, env.serialize(graph), lengths)) !in old(files) && r.Success? ==>
                var e := files[CandidateAt(r.value)];
                && e.metadata.order == graph.order && e.metadata.edges == graph.edges && e.metadata.score == score
                && e.metadata.witnessCap == cap && e.metadata.discovery == discovery && e.metadata.createdAt == now
      ensures CandidateAt(CandidateId(env, env.serialize(graph), lengths)) !in old(files) ==>
                r.Failure? ==> !r.error.BadCandidate?
      ensures r.Success? ==> Observes(env, files, r.value, discovery, now)
      ensures old(left) >= 2 ==> r != Failure(Crashed) && left >= old(left) - 2
    {
      var bytes := env.serialize(graph);
      if !Framing.Framable(Fields(env, bytes, lengths)) {
        return Failure(FieldTooLong);
      }
      var id := CandidateId(env, bytes, lengths);
      if CandidateAt(id) in files {
        assert CandidateFiled(env, files, id);
        SameCandidate(env, files, clock, id, bytes, lengths);
        ReadsBack(env, files, clock, id);
        var read := ReadCandidate(env, files, id);
        if read.Failure? {
          return Failure(BadCandidate(read.error));
        }
      } else {
        var metadata := Metadata(id, graph.order, graph.edges, env.hash(GraphFile(bytes)), lengths, score, cap,
                                 discovery, now);
        var entry := Candidate(bytes, metadata, env.hash(GraphFile(bytes)), env.hash(MetadataFile(metadata)));
        AddCandidate(env, files, clock, id, entry);
        var published := Publish(CandidateAt(id), entry);
        if published.Failure? {
          return Failure(published.error);
        }
      }
      var observed := SaveObservation(id, discovery, now);
      if observed.Failure? {
        return Failure(observed.error);
      }
      r := Success(id);
    }

    /**
      The records of one role with the signatures of the terminal ones; every record is checked against its
      candidate.
     */
    method CollectRecords(id: Digest, role: Role) returns (r: Result<(seq<Record>, set<(Status, string)>), Fault>)
      requires Valid()
      ensures r.Success?
      ensures forall x :: x in r.value.0 <==> IsRecord(files, id, role, x)
      ensures Signatures(r.value.0, r.value.1)
    {
      var records: seq<Record>, signatures: set<(Status, string)> := [], {};
      var todo := set p | p in files && p.AttemptAt? && p.id == id && p.role == role :: p.name;
      ghost var done: set<Digest> := {};
      while todo != {}
        invariant forall n :: n in todo + done <==> AttemptAt(id, role, n) in files
        invariant Gathered(files, id, role, done, records) && Signatures(records, signatures)
        decreases todo
      {
        ghost var some := Graphs.Member(todo);
        var name :| name in todo;
        assert AttemptFiled(env, files, clock, id, role, name);
        var entry := files[AttemptAt(id, role, name)];
        var candidate := files[CandidateAt(id)];
        if entry.record.candidate != id || entry.record.role != role
           || entry.record.lengths != candidate.metadata.lengths
           || entry.record.graphHash != env.hash(GraphFile(candidate.graph))
           || entry.seal != env.hash(RecordFile(entry.record)) {
          return Failure(IntegrityMismatch);
        }
        AppendedRecord(records, entry.record, signatures);
        GatheredNext(files, id, role, done, records, name);
        if Terminal(entry.record) {
          signatures := signatures + {(entry.record.status, entry.record.verifier)};
        }
        records := records + [entry.record];
        todo, done := todo - {name}, done + {name};
      }
      GatheredAll(env, files, clock, id, role, done, records);
      r := Success((records, signatures));
    }

    /** The record with the latest time. */
    method Latest(records: seq<Record>) returns (r: Record)
      requires records != []
      ensures r in records && forall x :: x in records ==> x.attemptedAt <= r.attemptedAt
    {
      r := records[0];
      for i := 1 to |records|
        invariant r in records && forall j :: 0 <= j < i ==> records[j].attemptedAt <= r.attemptedAt
      {
        if records[i].attemptedAt > r.attemptedAt {
          r := records[i];
        }
      }
    }

    /**
      The record that speaks for a role, if there is one; the only fault is a contradiction between terminal
      records.
     */
    method LoadVerification(id: Digest, role: Role) returns (r: Result<Option<Loaded>, Fault>)
      requires Valid()
      ensures r.Failure? <==> Conflicting(files, id, role)
      ensures r.Failure? ==> r.error == Conflict(role)
      ensures r.Success? && r.value.None? ==> forall x :: !IsRecord(files, id, role, x)
      ensures r.Success? && r.value.Some? ==> Speaks(files, id, role, r.value.value.record)
                                              && r.value.value.ref == Ref(env, files, r.value.value.record)
    {
      var collected := CollectRecords(id, role);
      var (records, signatures) := collected.value;
      ConflictIsTwo(files, id, role, records, signatures);
      if |signatures| > 1 {
        return Failure(Conflict(role));
      }
      if records == [] {
        return Success(None);
      }
      if VerificationAt(id, role) in files {
        assert VerificationFiled(env, files, id, role);
        assert IsRecord(files, id, role, files[VerificationAt(id, role)].record);
        if !files[VerificationAt(id, role)].Verification? || files[VerificationAt(id, role)].record !in records {
          return Failure(PublicationMismatch);
        }
      }
      var terminal := Terminals(records);
      var record := Latest(if terminal != [] then terminal else records);
      r := Success(Some(Loaded(record, Ref(env, files, record))));
    }

    /** One attempt: its directory is published, then the fixed name unless an earlier attempt has it. */
    method VerificationRecord(id: Digest, role: Role, answer: Answer, now: int) returns (r: Result<Loaded, Fault>)
      requires Valid() && HasCandidate(files, id) && !SettledRole(files, id, role) && clock < now
      requires Regular(answer.status, answer.complete)
      modifies this`files, this`left, this`clock
      ensures Valid() && Extends(old(files), files) && old(clock) <= clock <= now
      ensures var record := RecordOf(env, old(files), id, role, answer, now);
              && OnlyAttempted(env, old(files), files, record)
              && (r.Success? ==>
                  IsRecord(files, id, role, record) && r.value == Loaded(record, Ref(env, files, record)))
      ensures r.Success? ==> VerificationAt(id, role) in files
      ensures r.Failure? ==> r.error == Crashed
      ensures old(left) >= 2 ==> r.Success? && left >= old(left) - 2
    {
      var record := RecordOf(env, files, id, role, answer, now);
      var name := env.hash(RecordFile(record));
      assert CandidateFiled(env, files, id);
      AddAttempt(env, files, clock, id, role, record);
      CertifiedMeansSettled(env, files, clock, id, role);
      var attempted := Publish(AttemptAt(id, role, name), Attempt(record, name));
      if attempted.Failure? {
        return Failure(attempted.error);
      }
      clock := now;
      assert HasAttempt(files, id, role, name) && RecordAt(files, id, role, name) == record;
      if VerificationAt(id, role) !in files {
        AddVerification(env, files, clock, id, role, record);
        var fixed := Publish(VerificationAt(id, role), Verification(record));
        if fixed.Failure? {
          return Failure(fixed.error);
        }
        assert HasAttempt(files, id, role, name) && RecordAt(files, id, role, name) == record;
      }
      r := Success(Loaded(record, Ref(env, files, record)));
    }

    /** The record in force for a role: a settled one is taken as it is, anything else is tried again. */
    method Obtain(id: Digest, role: Role, lengths: seq<int>, answer: Answer, now: int)
      returns (r: Result<Loaded, Fault>)
      requires Valid() && HasCandidate(files, id) && clock < now
      modifies this`files, this`left, this`clock
      ensures Valid() && old(clock) <= clock <= now
      ensures Obtained(env, old(files), files, RecordOf(env, old(files), id, role, Validated(answer, lengths), now), r)
      ensures old(left) >= 2 ==> r != Failure(Crashed) && left >= old(left) - 2
    {
      CertifiedMeansSettled(env, files, clock, id, role);
      var loaded := LoadVerification(id, role);
      if loaded.Failure? {
        return Failure(loaded.error);
      }
      if loaded.value.Some? {
        SpeakerSettled(env, files, clock, id, role, loaded.value.value.record);
        SpeakerRegular(env, files, clock, id, role, loaded.value.value.record);
        CertifiedProves(env, files, clock, id, role, loaded.value.value.record);
      }
      if loaded.value.None? || loaded.value.value.record.status.Unknown?
         || (loaded.value.value.record.status.Verified? && !loaded.value.value.record.complete) {
        NothingSettled(files, id, role);
        r := VerificationRecord(id, role, Validated(answer, lengths), now);
        AttemptReports(env, old(files), files, RecordOf(env, old(files), id, role, Validated(answer, lengths), now));
      } else {
        r := Success(loaded.value.value);
        UnchangedReports(files, id, role, loaded.value.value.record);
      }
    }

    method SealCertificate(id: Digest, c: Certificate) returns (r: Result<bool, Fault>)
      requires Valid() && Backed(env, files, id, c)
      modifies this`files, this`left
      ensures Valid() && Extends(old(files), files) && Backed(env, files, id, c)
      ensures forall p :: p in files && p !in old(files) ==> p.id == id && p.CertificateAt?
      ensures r.Success? ==> CertificateAt(id, env.hash(CertificateFile(c))) in files
      ensures r.Failure? ==> r.error == Crashed
      ensures old(left) >= 1 ==> r.Success? && left == old(left) - 1
    {
      var name := env.hash(CertificateFile(c));
      if CertificateAt(id, name) in files {
        assert CertificateFiled(env, files, id, name);
        assert CertificateFile(files[CertificateAt(id, name)].certificate) == CertificateFile(c);
        assert files[CertificateAt(id, name) := Sealed(c, name)] == files;
      } else {
        AddCertificate(env, files, clock, id, c);
        Filed(env, files, clock);
        BackedStays(env, files, files[CertificateAt(id, name) := Sealed(c, name)], id, c);
      }
      r := Publish(CertificateAt(id, name), Sealed(c, name));
    }

    method PublishFixed(id: Digest, c: Certificate) returns (r: Result<bool, Fault>)
      requires Valid() && Backed(env, files, id, c) && CertificateAt(id, env.hash(CertificateFile(c))) in files
      modifies this`files, this`left
      ensures Valid() && Extends(old(files), files) && Backed(env, files, id, c)
      ensures forall p :: p in files && p !in old(files) ==> p == CertificateOf(id)
      ensures r.Success? ==> CertificateOf(id) in files && files[CertificateOf(id)] == Published(c)
      ensures r.Failure? ==> r.error == Crashed
      ensures old(left) >= 1 ==> r.Success? && left == old(left) - 1
    {
      if CertificateOf(id) in files {
        SameCertificate(env, files, clock, id, c);
        assert files[CertificateOf(id) := Published(c)] == files;
      } else {
        PublishCertificate(env, files, clock, id, c);
        Filed(env, files, clock);
        BackedStays(env, files, files[CertificateOf(id) := Published(c)], id, c);
      }
      r := Publish(CertificateOf(id), Published(c));
    }

    /** The certificate of a candidate that both roles prove, in its own directory and under the fixed name. */
    method MakeCertificate(id: Digest, primary: Loaded, independent: Loaded) returns (r: Result<Certificate, Fault>)
      requires Valid() && HasCandidate(files, id) && Readable(env, files[CandidateAt(id)])
      requires IsRecord(files, id, Primary, primary.record) && Proves(primary.record)
      requires IsRecord(files, id, Independent, independent.record) && Proves(independent.record)
      requires primary.ref == Ref(env, files, primary.record) && independent.ref == Ref(env, files, independent.record)
      modifies this`files, this`left
      ensures Valid() && Extends(old(files), files)
      ensures forall p :: p in files && p !in old(files) ==> p.id == id && (p.CertificateAt? || p.CertificateOf?)
      ensures r.Success? ==> Backed(env, files, id, r.value) && CertificateOf(id) in files
                             && files[CertificateOf(id)] == Published(r.value)
      ensures r.Failure? ==> r.error == Crashed
      ensures old(left) >= 2 ==> r.Success?
    {
      var candidate := files[CandidateAt(id)];
      var c := Certificate(id, candidate.metadata.lengths, TestimonyIn(primary), TestimonyIn(independent),
                           env.hash(GraphFile(candidate.graph)), env.hash(MetadataFile(candidate.metadata)),
                           env.hash(RecordFile(primary.record)), env.hash(RecordFile(independent.record)));
      CertificateBacked(env, files, clock, id, primary, independent, c);
      var sealed := SealCertificate(id, c);
      if sealed.Failure? {
        return Failure(sealed.error);
      }
      var published := PublishFixed(id, c);
      if published.Failure? {
        return Failure(published.error);
      }
      r := Success(c);
    }

    /** What follows once the primary verifier has proved the candidate and the independent one has spoken. */
    method Conclude(id: Digest, primary: Loaded, independent: Loaded) returns (r: Result<Outcome, Fault>)
      requires Valid() && HasCandidate(files, id) && Readable(env, files[CandidateAt(id)])
      requires IsRecord(files, id, Primary, primary.record) && Proves(primary.record)
      requires IsRecord(files, id, Independent, independent.record)
      requires primary.ref == Ref(env, files, primary.record) && independent.ref == Ref(env, files, independent.record)
      modifies this`files, this`left
      ensures Valid() && Extends(old(files), files)
      ensures forall p :: p in files && p !in old(files) ==> p.id == id && (p.CertificateAt? || p.CertificateOf?)
      ensures r.Success? ==>
              r.value.primary == Some(primary) && r.value.independent == Some(independent) && Decided(r.value)
      ensures r.Success? && r.value.certificate.Some? ==> Certifies(env, files, id, r.value.certificate.value)
      ensures r.Failure? ==> r.error == Crashed
      ensures old(left) >= 2 ==> r.Success?
    {
      if independent.record.status.Rejected? || independent.record.status.Invalid? {
        return Success(Outcome(Fail, Some(primary), Some(independent), None));
      }
      if !independent.record.status.Verified? || !independent.record.complete {
        return Success(Outcome(PauseInconclusive, Some(primary), Some(independent), None));
      }
      var certificate := MakeCertificate(id, primary, independent);
      if certificate.Failure? {
        return Failure(certificate.error);
      }
      r := Success(Outcome(StopVerified, Some(primary), Some(independent), Some(certificate.value)));
    }

    /** The independent role, and the certificate once both roles prove the candidate. */
    method ProveIndependent(id: Digest, lengths: seq<int>, primary: Loaded, answer: Answer, later: int)
      returns (r: Result<Outcome, Fault>)
      requires Valid() && HasCandidate(files, id) && Readable(env, files[CandidateAt(id)]) && clock < later
      requires IsRecord(files, id, Primary, primary.record) && Proves(primary.record)
      requires primary.ref == Ref(env, files, primary.record)
      modifies this`files, this`left, this`clock
      ensures Valid() && clock <= later
      ensures Proven(env, old(files), files, primary,
                     RecordOf(env, old(files), id, Independent, Validated(answer, lengths), later), r)
      ensures old(left) >= 4 ==> r != Failure(Crashed)
    {
      ghost var attempt := RecordOf(env, files, id, Independent, Validated(answer, lengths), later);
      SpeakerRegular(env, files, clock, id, Primary, primary.record);
      var independent := Obtain(id, Independent, lengths, answer, later);
      PrimaryStays(env, old(files), files, attempt, primary);
      if independent.Failure? {
        IndependentFailed(env, old(files), files, primary, attempt, independent.error);
        return Failure(independent.error);
      }
      label Obtained:
      r := Conclude(id, primary, independent.value);
      IndependentProven(env, old(files), old@Obtained(files), files, primary, attempt, independent.value, r);
    }

    /** Both roles in turn. */
    method Prove(id: Digest, lengths: seq<int>, primaryAnswer: Answer, independentAnswer: Answer, now: int, later: int)
      returns (r: Result<Outcome, Fault>)
      requires Valid() && HasCandidate(files, id) && Readable(env, files[CandidateAt(id)]) && clock < now < later
      modifies this`files, this`left, this`clock
      ensures Valid() && clock <= later
      ensures BothProven(env, old(files), files,
                         RecordOf(env, old(files), id, Primary, Validated(primaryAnswer, lengths), now),
                         RecordOf(env, old(files), id, Independent, Validated(independentAnswer, lengths), later), r)
      ensures old(left) >= 6 ==> r != Failure(Crashed)
    {
      ghost var attempt := RecordOf(env, files, id, Primary, Validated(primaryAnswer, lengths), now);
      ghost var other := RecordOf(env, files, id, Independent, Validated(independentAnswer, lengths), later);
      CertifiedMeansSettled(env, files, clock, id, Primary);
      var primary := Obtain(id, Primary, lengths, primaryAnswer, now);
      OtherRole(env, old(files), files, attempt, Independent);
      PrimaryProven(env, old(files), files, attempt, other, primary);
      if primary.Failure? {
        return Failure(primary.error);
      }
      if primary.value.record.status.Rejected? {
        return Success(Outcome(PrimaryRejected, Some(primary.value), None, None));
      }
      if primary.value.record.status.Invalid? {
        return Success(Outcome(Fail, Some(primary.value), None, None));
      }
      if !primary.value.record.status.Verified? || !primary.value.record.complete {
        return Success(Outcome(PauseInconclusive, Some(primary.value), None, None));
      }
      label Halfway:
      r := ProveIndependent(id, lengths, primary.value, independentAnswer, later);
      RolesProven(env, old(files), old@Halfway(files), files, attempt, other, primary.value, r);
    }

    /** The candidate of a zero score is saved and read back. */
    method Admit(s: Submission) returns (r: Result<Digest, Fault>)
      requires Valid() && Submitted(env, s) == Success(true)
      modifies this`files, this`left
      ensures Valid() && Extends(old(files), files) && OnlySaved(Id(env, s), old(files), files)
      ensures r.Success? ==> r.value == Id(env, s) && Holds(env, files, s) && Credits(env, old(files), files, s)
      ensures r.Failure? ==> r.error == Crashed || r.error == FieldTooLong || r.error.BadCandidate?
      ensures Admissible(env, old(files), s) ==> r.Success? || r == Failure(Crashed)
      ensures !Admissible(env, old(files), s) ==> r.Failure?
      ensures old(left) >= 2 ==> r != Failure(Crashed) && left >= old(left) - 2
    {
      var lengths := env.lengths(s.graph.order);
      SubmittedIsZero(lengths, s.graph.order, s.score, s.cap);
      StoredReadable(env, files, clock, s);
      var saved := SaveCandidate(s.graph, s.score, s.discovery, lengths, s.cap, s.now);
      if saved.Failure? {
        return Failure(saved.error);
      }
      var id := saved.value;
      assert CandidateFiled(env, files, id);
      ReadsBack(env, files, clock, id);
      var read := ReadCandidate(env, files, id);
      if read.Failure? {
        return Failure(BadCandidate(read.error));
      }
      r := Success(id);
    }

    /**
      One submission. The process may stop after any publication; the verifiers may answer anything. A settled
      role is not run again and any other role is. A certified candidate is certified again with the same bytes if
      one verifier answered for each role, and refused otherwise. Eight publications are enough for any call.
     */
    method Inspect(s: Submission) returns (r: Result<Outcome, Fault>)
      requires Valid() && clock < s.now < s.later
      modifies this
      ensures Valid() && Extends(old(files), files) && clock <= s.later
      ensures OnlyConcerns(Id(env, s), old(files), files) && NeverRerun(old(files), files, Id(env, s))
      ensures Submitted(env, s).Failure? ==> r == Failure(BadScore(Submitted(env, s).error)) && files == old(files)
      ensures Submitted(env, s) == Success(false) ==>
              r == Success(Outcome(Continue, None, None, None)) && files == old(files)
      ensures Submitted(env, s) == Success(true) ==> Inspected(env, old(files), files, s, r)
      ensures r.Success? && r.value.certificate.Some? ==> Certifies(env, files, Id(env, s), r.value.certificate.value)
      ensures s.publications >= 8 ==> r != Failure(Crashed)
    {
      left := s.publications;
      var submitted := Submitted(env, s);
      if submitted.Failure? {
        return Failure(BadScore(submitted.error));
      }
      if !submitted.value {
        return Success(Outcome(Continue, None, None, None));
      }
      var admitted := Admit(s);
      if admitted.Failure? {
        RefusedInspected(env, old(clock), old(files), files, s, admitted.error);
        return Failure(admitted.error);
      }
      label Saved:
      var id, lengths := admitted.value, env.lengths(s.graph.order);
      r := Prove(id, lengths, s.primary, s.independent, s.now, s.later);
      ProvenInspected(env, old(clock), old(files), old@Saved(files), clock, files, s,
                      RecordOf(env, old@Saved(files), id, Primary, Validated(s.primary, lengths), s.now),
                      RecordOf(env, old@Saved(files), id, Independent, Validated(s.independent, lengths), s.later), r);
    }

    /** A first submission whose primary verifier says VERIFIED without completing. */
    method AnswerIncomplete(s: Submission, name: string) returns (r: Result<Outcome, Fault>)
      requires Valid() && clock < s.now < s.later && s.publications >= 8
      requires Submitted(env, s) == Success(true) && Admissible(env, files, s)
      requires forall p :: p in files ==> p.id != Id(env, s)
      modifies this
      ensures Valid() && clock <= s.later && Admissible(env, files, s)
      ensures r.Success? && r.value.decision == PauseInconclusive && r.value.primary.Some?
      ensures var x := r.value.primary.value.record;
              IsRecord(files, Id(env, s), Primary, x) && Terminal(x) && x.verifier == name
      ensures forall role :: !SettledRole(files, Id(env, s), role) && !Conflicting(files, Id(env, s), role)
    {
      NothingFiled(files, Id(env, s));
      r := Inspect(s.(primary := Answer(Status.Verified, false, name, "", None)));
      OnlyUnsettled(old(files), files, Id(env, s), r.value);
      StillAdmissible(env, files, clock, s);
    }

    /** Both verifiers say VERIFIED and complete where nothing is settled. */
    method AnswerComplete(s: Submission, name: string, other: string) returns (r: Result<Outcome, Fault>)
      requires Valid() && clock < s.now < s.later && s.publications >= 8
      requires Submitted(env, s) == Success(true) && Admissible(env, files, s)
      requires forall role :: !SettledRole(files, Id(env, s), role) && !Conflicting(files, Id(env, s), role)
      modifies this
      ensures Valid() && clock <= s.later && Extends(old(files), files) && Certified(env, files, s)
      ensures r.Success? && r.value.decision == StopVerified && r.value.primary.Some?
      ensures var y := r.value.primary.value.record;
              IsRecord(files, Id(env, s), Primary, y) && Terminal(y) && y.verifier == name
    {
      var t := s.(primary := Answer(Status.Verified, true, name, "", None),
                  independent := Answer(Status.Verified, true, other, "", None));
      r := Inspect(t);
      CompleteStops(env, old(files), files, t, r, name, other);
      CertificateFound(env, files, clock, Id(env, s), r.value.certificate.value);
    }

    /**
      A certified candidate that can never be certified again. The first verifier says VERIFIED without completing,
      a second one completes and the certificate is published; from then on the two records contradict each other.
     */
    method SplitVerifiers(s: Submission, one: string, two: string, three: string)
      returns (first: Result<Outcome, Fault>, second: Result<Outcome, Fault>, third: Result<Outcome, Fault>)
      requires Valid() && clock < s.now < s.later && s.publications >= 8 && one != two
      requires Submitted(env, s) == Success(true) && Admissible(env, files, s)
      requires forall p :: p in files ==> p.id != Id(env, s)
      modifies this
      ensures Valid() && first.Success? && first.value.decision == PauseInconclusive
      ensures second.Success? && second.value.decision == StopVerified && CertifiedId(files, Id(env, s))
      ensures third == Failure(Conflict(Primary))
    {
      first := AnswerIncomplete(s, one);
      label First:
      second := AnswerComplete(s.(now := s.later + 1, later := s.later + 2), two, three);
      label Second:
      SplitRecords(old@First(files), files, Id(env, s), first.value.primary.value.record,
                   second.value.primary.value.record);
      third := Inspect(s.(now := s.later + 3, later := s.later + 4));
      CertifiedStays(Id(env, s), old@Second(files), files);
    }

    /**
      Any run: whatever the submissions, answers and stops, nothing published changes and the store stays
      consistent.
     */
    method Replay(submissions: seq<Submission>) returns (outcomes: seq<Result<Outcome, Fault>>)
      requires Valid() && Timely(clock, submissions)
      modifies this
      ensures Valid() && Extends(old(files), files) && |outcomes| == |submissions|
      ensures AllCertify(env, files, submissions, outcomes)
    {
      outcomes := [];
      for i := 0 to |submissions|
        invariant Valid() && Extends(old(files), files) && Timely(clock, submissions[i..])
        invariant |outcomes| == i && AllCertify(env, files, submissions[..i], outcomes)
      {
        TimelyNext(clock, submissions, i);
        label Before:
        var outcome := Inspect(submissions[i]);
        TimelySooner(clock, submissions[i].later, submissions[i + 1..]);
        AllCertifyNext(env, old@Before(files), old@Before(clock), files, clock, submissions, i, outcomes, outcome);
        outcomes := outcomes + [outcome];
      }
      assert submissions[..|submissions|] == submissions;
    }
  }

  /** The submission is observed, and it describes the candidate if it is the first one. */
  ghost predicate Credits(env: Env, before: Store, after: Store, s: Submission) {
    var id := Id(env, s);
    && Observes(env, after, id, s.discovery, s.now)
    && (CandidateAt(id) !in before ==>
          && HasCandidate(after, id)
          && var m := after[CandidateAt(id)].metadata;
          && m.order == s.graph.order && m.edges == s.graph.edges && m.score == s.score
          && m.witnessCap == s.cap && m.discovery == s.discovery && m.createdAt == s.now)
  }

  lemma CreditsStay(env: Env, before: Store, middle: Store, after: Store, s: Submission)
    requires Credits(env, before, middle, s) && Extends(middle, after)
    ensures Credits(env, before, after, s)
  {
    var id := Id(env, s);
    var name :| ObservationAt(id, name) in middle && middle[ObservationAt(id, name)] == Observation(s.discovery, s.now);
    assert ObservationAt(id, name) in after && after[ObservationAt(id, name)] == Observation(s.discovery, s.now);
  }

  /** The store holds an observation of the candidate by this source at this time. */
  ghost predicate Observes(env: Env, files: Store, id: Digest, discovery: string, now: int) {
    exists name :: ObservationAt(id, name) in files && files[ObservationAt(id, name)] == Observation(discovery, now)
  }

  /** Every file added is the directory or an observation of this candidate. */
  ghost predicate OnlySaved(id: Digest, before: Store, after: Store) {
    forall p :: p in after && p !in before ==> p.id == id && (p.CandidateAt? || p.ObservationAt?)
  }

  /** A stored candidate with this identity holds these bytes and lengths. */
  lemma SameCandidate(env: Env, files: Store, clock: int, id: Digest, bytes: Framing.Bytes, lengths: seq<int>)
    requires Injective(env) && Consistent(env, files, clock) && HasCandidate(files, id)
    requires id == CandidateId(env, bytes, lengths) && Framing.Framable(Fields(env, bytes, lengths))
    ensures files[CandidateAt(id)].graph == bytes && files[CandidateAt(id)].metadata.lengths == lengths
  {
    var e := files[CandidateAt(id)];
    assert CandidateFiled(env, files, id);
    IdentityDetermines(env, e.graph, e.metadata.lengths, env, bytes, lengths);
  }

  ghost predicate Gathered(files: Store, id: Digest, role: Role, done: set<Digest>, records: seq<Record>) {
    forall x :: x in records <==>
           exists n :: n in done && HasAttempt(files, id, role, n) && RecordAt(files, id, role, n) == x
  }

  lemma GatheredNext(files: Store, id: Digest, role: Role, done: set<Digest>, records: seq<Record>, name: Digest)
    requires Gathered(files, id, role, done, records) && HasAttempt(files, id, role, name)
    ensures Gathered(files, id, role, done + {name}, records + [RecordAt(files, id, role, name)])
  {
    var r, done' := RecordAt(files, id, role, name), done + {name};
    forall x
      ensures x in records + [r] <==>
              exists n :: n in done' && HasAttempt(files, id, role, n) && RecordAt(files, id, role, n) == x
    {
      if x in records {
        var n :| n in done && HasAttempt(files, id, role, n) && RecordAt(files, id, role, n) == x;
        assert n in done';
      } else if x == r {
        assert name in done';
      }
    }
  }

  lemma GatheredAll(env: Env, files: Store, clock: int, id: Digest, role: Role, done: set<Digest>, records: seq<Record>)
    requires AttemptsOk(env, files, clock) && Gathered(files, id, role, done, records)
    requires forall n :: n in done <==> AttemptAt(id, role, n) in files
    ensures forall x :: x in records <==> IsRecord(files, id, role, x)
  {
    forall x | IsRecord(files, id, role, x) ensures x in records {
      var n :| HasAttempt(files, id, role, n) && RecordAt(files, id, role, n) == x;
      assert n in done;
    }
  }

  /** The (status, verifier) pairs of the terminal records. */
  ghost predicate Signatures(records: seq<Record>, signatures: set<(Status, string)>) {
    forall k :: k in signatures <==> exists x :: x in records && Terminal(x) && (x.status, x.verifier) == k
  }

  lemma AppendedRecord(records: seq<Record>, r: Record, signatures: set<(Status, string)>)
    requires Signatures(records, signatures)
    ensures Signatures(records + [r], if Terminal(r) then signatures + {(r.status, r.verifier)} else signatures)
  {
    var signatures' := if Terminal(r) then signatures + {(r.status, r.verifier)} else signatures;
    forall k
      ensures k in signatures' <==> exists x :: x in records + [r] && Terminal(x) && (x.status, x.verifier) == k {
      if k in signatures {
        var x :| x in records && Terminal(x) && (x.status, x.verifier) == k;
        assert x in records + [r];
      } else if k in signatures' {
        assert r in records + [r];
      }
    }
  }

  function Terminals(records: seq<Record>): (r: seq<Record>)
    ensures forall x :: x in r <==> x in records && Terminal(x)
  {
    if records == [] then []
    else
      var last := records[|records| - 1];
      assert records == records[..|records| - 1] + [last];
      if Terminal(last) then Terminals(records[..|records| - 1]) + [last] else Terminals(records[..|records| - 1])
  }

  /** More than one signature is two records that contradict each other. */
  lemma ConflictIsTwo(files: Store, id: Digest, role: Role, records: seq<Record>, signatures: set<(Status, string)>)
    requires forall x :: x in records <==> IsRecord(files, id, role, x)
    requires Signatures(records, signatures)
    ensures |signatures| > 1 <==> Conflicting(files, id, role)
  {
    if |signatures| > 1 {
      var k :| k in signatures;
      var rest := signatures - {k};
      assert |rest| > 0;
      var l :| l in rest;
      var a :| a in records && Terminal(a) && (a.status, a.verifier) == k;
      var b :| b in records && Terminal(b) && (b.status, b.verifier) == l;
      assert IsRecord(files, id, role, a) && IsRecord(files, id, role, b);
    }
    if Conflicting(files, id, role) {
      var a, b :| IsRecord(files, id, role, a) && IsRecord(files, id, role, b) && Terminal(a) && Terminal(b)
                  && (a.status, a.verifier) != (b.status, b.verifier);
      var two := {(a.status, a.verifier), (b.status, b.verifier)};
      assert a in records && b in records;
      assert two <= signatures;
      Graphs.SubsetCount(two, signatures);
    }
  }

  function RecordOf(env: Env, files: Store, id: Digest, role: Role, answer: Answer, now: int): Record
    requires HasCandidate(files, id)
  {
    var candidate := files[CandidateAt(id)];
    Record(id, role, candidate.metadata.lengths, answer.verifier, answer.status, answer.complete, answer.message,
           env.hash(GraphFile(candidate.graph)), now)
  }

  /** Nothing but the attempt with this record, and perhaps the fixed name for it, has been added. */
  ghost predicate OnlyAttempted(env: Env, before: Store, after: Store, r: Record) {
    forall p :: p in after && p !in before ==>
                  (p == AttemptAt(r.candidate, r.role, env.hash(RecordFile(r)))
                   && after[p] == Attempt(r, env.hash(RecordFile(r))))
                  || (p == VerificationAt(r.candidate, r.role) && after[p] == Verification(r))
  }

  function TestimonyIn(l: Loaded): Testimony {
    Testimony(l.record.status, l.record.complete, l.record.verifier, l.ref)
  }

  lemma CertifiedMeansSettled(env: Env, files: Store, clock: int, id: Digest, role: Role)
    requires Consistent(env, files, clock)
    ensures CertifiedId(files, id) ==> SettledRole(files, id, role)
  {
    if CertifiedId(files, id) {
      CertifiedIsSettled(env, files, clock, id);
    }
  }

  lemma SpeakerRegular(env: Env, files: Store, clock: int, id: Digest, role: Role, r: Record)
    requires Consistent(env, files, clock) && IsRecord(files, id, role, r)
    ensures Regular(r.status, r.complete) && r.candidate == id && r.role == role
    ensures HasAttempt(files, id, role, env.hash(RecordFile(r)))
            && RecordAt(files, id, role, env.hash(RecordFile(r))) == r
  {
    var n :| HasAttempt(files, id, role, n) && RecordAt(files, id, role, n) == r;
    assert AttemptFiled(env, files, clock, id, role, n);
  }

  lemma NothingSettled(files: Store, id: Digest, role: Role)
    ensures SettledRole(files, id, role) ==> exists x :: IsRecord(files, id, role, x)
  {
    if SettledRole(files, id, role) {
      var n :| HasAttempt(files, id, role, n) && Settled(RecordAt(files, id, role, n));
      assert IsRecord(files, id, role, RecordAt(files, id, role, n));
    }
  }

  lemma CertificateBacked(env: Env, files: Store, clock: int, id: Digest, primary: Loaded, independent: Loaded,
                          c: Certificate)
    requires Consistent(env, files, clock) && HasCandidate(files, id) && Readable(env, files[CandidateAt(id)])
    requires IsRecord(files, id, Primary, primary.record) && Proves(primary.record)
    requires IsRecord(files, id, Independent, independent.record) && Proves(independent.record)
    requires primary.ref == Ref(env, files, primary.record) && independent.ref == Ref(env, files, independent.record)
    requires c == Certificate(id, files[CandidateAt(id)].metadata.lengths, TestimonyIn(primary),
                              TestimonyIn(independent),
                              env.hash(GraphFile(files[CandidateAt(id)].graph)),
                              env.hash(MetadataFile(files[CandidateAt(id)].metadata)),
                              env.hash(RecordFile(primary.record)), env.hash(RecordFile(independent.record)))
    ensures Backed(env, files, id, c)
  {
    SpeakerRegular(env, files, clock, id, Primary, primary.record);
    SpeakerRegular(env, files, clock, id, Independent, independent.record);
  }

  /** A published certificate is the only one its candidate can have. */
  lemma SameCertificate(env: Env, files: Store, clock: int, id: Digest, c: Certificate)
    requires Injective(env) && Consistent(env, files, clock) && CertificateOf(id) in files && Backed(env, files, id, c)
    ensures files[CertificateOf(id)] == Published(c)
  {
    assert PublishedFiled(env, files, id);
    var d := files[CertificateOf(id)].certificate;
    var name := env.hash(CertificateFile(d));
    assert CertificateFiled(env, files, id, name);
    assert CertificateFile(files[CertificateAt(id, name)].certificate) == CertificateFile(d);
    OneCertificate(env, files, clock, id, c, d);
  }

  /** Every file added is an attempt, a fixed name or a certificate of this candidate. */
  ghost predicate OnlyAbout(id: Digest, before: Store, after: Store) {
    forall p :: p in after && p !in before ==>
                  p.id == id && (p.AttemptAt? || p.VerificationAt? || p.CertificateAt? || p.CertificateOf?)
  }

  ghost predicate SameAttempts(before: Store, after: Store, id: Digest, role: Role) {
    forall name :: AttemptAt(id, role, name) in after ==> AttemptAt(id, role, name) in before
  }

  /** The decision follows from the two records in force. */
  ghost predicate Decided(o: Outcome) {
    && o.primary.Some? && (o.independent.Some? <==> Proves(o.primary.value.record))
    && (o.decision == StopVerified <==> o.independent.Some? && Proves(o.independent.value.record))
    && (o.decision == PrimaryRejected <==> o.primary.value.record.status.Rejected?)
    && (o.decision == Fail <==> o.primary.value.record.status.Invalid?
                                || (o.independent.Some? && (o.independent.value.record.status.Rejected?
                                                            || o.independent.value.record.status.Invalid?)))
    && o.decision != Continue
    && (o.certificate.Some? <==> o.decision == StopVerified)
  }

  /** The certificate is published and backed. */
  ghost predicate Certifies(env: Env, files: Store, id: Digest, c: Certificate) {
    Backed(env, files, id, c) && CertificateOf(id) in files && files[CertificateOf(id)] == Published(c)
  }

  lemma CertifiedProves(env: Env, files: Store, clock: int, id: Digest, role: Role, r: Record)
    requires Consistent(env, files, clock) && IsRecord(files, id, role, r)
    ensures CertifiedId(files, id) && Settled(r) ==> Proves(r)
  {
    if CertifiedId(files, id) && Settled(r) {
      var name :| CertificateAt(id, name) in files;
      assert CertificateFiled(env, files, id, name);
      var c := files[CertificateAt(id, name)].certificate;
      SpeakerRegular(env, files, clock, id, role, r);
      OneSettled(env, files, clock, id, role, env.hash(RecordFile(r)),
                 if role == Primary then c.primaryHash else c.independentHash);
    }
  }

  /** An attempt of one role leaves the other role as it was. */
  lemma OtherRole(env: Env, before: Store, after: Store, r: Record, role: Role)
    requires Extends(before, after) && OnlyAttempted(env, before, after, r) && role != r.role
    ensures SameAttempts(before, after, r.candidate, role) && OnlyAbout(r.candidate, before, after)
    ensures SettledRole(after, r.candidate, role) <==> SettledRole(before, r.candidate, role)
    ensures Conflicting(after, r.candidate, role) <==> Conflicting(before, r.candidate, role)
    ensures forall x :: IsRecord(before, r.candidate, role, x) && x.candidate == r.candidate && x.role == role ==>
                          IsRecord(after, r.candidate, role, x) && Ref(env, after, x) == Ref(env, before, x)
  {
    forall name | HasAttempt(before, r.candidate, role, name)
      ensures HasAttempt(after, r.candidate, role, name)
      ensures RecordAt(after, r.candidate, role, name) == RecordAt(before, r.candidate, role, name)
    {}
    forall name | HasAttempt(after, r.candidate, role, name) ensures HasAttempt(before, r.candidate, role, name) {}
    forall x ensures IsRecord(after, r.candidate, role, x) <==> IsRecord(before, r.candidate, role, x) {}
  }

  lemma CertificateAdds(id: Digest, first: Store, before: Store, after: Store)
    requires Extends(first, before) && Extends(before, after) && OnlyAbout(id, first, before)
    requires forall p :: p in after && p !in before ==> p.id == id && (p.CertificateAt? || p.CertificateOf?)
    ensures OnlyAbout(id, first, after)
    ensures forall role :: SameAttempts(first, before, id, role) ==> SameAttempts(first, after, id, role)
  {}

  /** No attempt has been added to a role that was settled. */
  ghost predicate NeverRerun(before: Store, after: Store, id: Digest) {
    forall role :: SettledRole(before, id, role) ==> SameAttempts(before, after, id, role)
  }

  lemma RolesInTurn(id: Digest, first: Store, before: Store, after: Store)
    requires Extends(first, before) && Extends(before, after) && OnlyAbout(id, first, before)
             && OnlyAbout(id, before, after)
    requires SettledRole(first, id, Primary) ==> SameAttempts(first, before, id, Primary)
    requires SameAttempts(first, before, id, Independent) && SameAttempts(before, after, id, Primary)
    requires SettledRole(first, id, Independent) ==> SameAttempts(before, after, id, Independent)
    ensures Extends(first, after) && OnlyAbout(id, first, after) && NeverRerun(first, after, id)
  {
    forall role | SettledRole(first, id, role) ensures SameAttempts(first, after, id, role) {
      assert role == Primary || role == Independent;
    }
  }

  /** The store holds the submitted graph, readable and filed under a score with no witness. */
  ghost predicate Holds(env: Env, files: Store, s: Submission) {
    && HasCandidate(files, Id(env, s)) && files[CandidateAt(Id(env, s))].graph == env.serialize(s.graph)
    && files[CandidateAt(Id(env, s))].metadata.lengths == env.lengths(s.graph.order)
    && ZeroScore(files[CandidateAt(Id(env, s))].metadata.score, env.lengths(s.graph.order))
    && Readable(env, files[CandidateAt(Id(env, s))])
  }

  datatype Verdict = Proof | Refutation | Breach | Silence

  /** What an answer says of a candidate with these target lengths. */
  predicate Says(answer: Answer, lengths: seq<int>, verdict: Verdict) {
    match verdict
    case Proof => InContract(answer, lengths) && answer.status.Verified? && answer.complete
    case Refutation => InContract(answer, lengths) && answer.status.Rejected?
    case Breach => !InContract(answer, lengths) || answer.status.Invalid?
    case Silence =>
      InContract(answer, lengths) && !answer.complete && (answer.status.Unknown? || answer.status.Verified?)
  }

  /** Nothing is settled in either role. */
  ghost predicate Open(files: Store, id: Digest) {
    !SettledRole(files, id, Primary) && !SettledRole(files, id, Independent)
  }

  /** The decision on a candidate with nothing settled follows from the two answers. */
  ghost predicate DecidedBy(primary: Answer, independent: Answer, lengths: seq<int>, decision: Decision) {
    && (decision == PrimaryRejected <==> Says(primary, lengths, Refutation))
    && (decision == StopVerified <==> Says(primary, lengths, Proof) && Says(independent, lengths, Proof))
    && (decision == PauseInconclusive <==>
        Says(primary, lengths, Silence) || (Says(primary, lengths, Proof) && Says(independent, lengths, Silence)))
    && (decision == Fail <==>
        Says(primary, lengths, Breach)
        || (Says(primary, lengths, Proof)
            && (Says(independent, lengths, Breach) || Says(independent, lengths, Refutation))))
  }

  lemma AnswersDecide(env: Env, before: Store, after: Store, s: Submission, o: Outcome)
    requires Holds(env, after, s) && Decided(o) && Retried(env, before, after, s, o) && Open(before, Id(env, s))
    ensures DecidedBy(s.primary, s.independent, env.lengths(s.graph.order), o.decision)
  {}

  /** The record is about this attempt, and says what the answer said, or that it broke its contract. */
  ghost predicate Reads(env: Env, files: Store, id: Digest, role: Role, r: Record, answer: Answer, now: int)
    requires HasCandidate(files, id)
  {
    var candidate := files[CandidateAt(id)];
    && r.candidate == id && r.role == role && r.attemptedAt == now && r.verifier == answer.verifier
    && r.lengths == candidate.metadata.lengths && r.graphHash == env.hash(GraphFile(candidate.graph))
    && (if InContract(answer, r.lengths) then r.status == answer.status && r.complete == answer.complete
                                              && r.message == answer.message
        else r.status.Invalid? && r.complete)
  }

  /** A role that was not settled speaks with the new answer. */
  ghost predicate Retried(env: Env, before: Store, after: Store, s: Submission, o: Outcome)
    requires HasCandidate(after, Id(env, s)) && Decided(o)
  {
    var id := Id(env, s);
    && (!SettledRole(before, id, Primary) ==>
          Reads(env, after, id, Primary, o.primary.value.record, s.primary, s.now))
    && (o.independent.Some? && !SettledRole(before, id, Independent) ==>
          Reads(env, after, id, Independent, o.independent.value.record, s.independent, s.later))
  }

  ghost predicate OnlyConcerns(id: Digest, before: Store, after: Store) {
    forall p :: p in after && p !in before ==> p.id == id
  }

  /** The candidate can be stored and read back: by the backend, or as it was stored before. */
  ghost predicate Admissible(env: Env, files: Store, s: Submission) {
    && Framing.Framable(Fields(env, env.serialize(s.graph), env.lengths(s.graph.order)))
    && (if HasCandidate(files, Id(env, s)) then Readable(env, files[CandidateAt(Id(env, s))])
        else env.deserialize(env.serialize(s.graph)) == Some(s.graph) && env.validates(s.graph))
  }

  /** The record is in the store, no other record of the role is new, and the role is settled exactly when it is. */
  ghost predicate Reports(before: Store, after: Store, id: Digest, role: Role, r: Record) {
    && IsRecord(after, id, role, r) && (SettledRole(after, id, role) <==> Settled(r))
    && forall x :: IsRecord(after, id, role, x) ==> IsRecord(before, id, role, x) || x == r
  }

  /** What an outcome reports is in the store, and nothing else is new. */
  ghost predicate Accounted(before: Store, after: Store, id: Digest, o: Outcome)
    requires Decided(o)
  {
    && Reports(before, after, id, Primary, o.primary.value.record)
    && (o.independent.Some? ==> Reports(before, after, id, Independent, o.independent.value.record))
    && (o.independent.None? ==> SameAttempts(before, after, id, Independent))
  }

  /** A submission of a certified candidate. */
  ghost predicate Certified(env: Env, files: Store, s: Submission) {
    CertifiedId(files, Id(env, s)) && Framing.Framable(Fields(env, env.serialize(s.graph), env.lengths(s.graph.order)))
  }

  /** The candidate is certified again exactly when no role is in conflict; else the first such role is named. */
  ghost predicate Recertified(before: Store, id: Digest, r: Result<Outcome, Fault>) {
    if Conflicting(before, id, Primary) then r == Failure(Conflict(Primary))
    else if Conflicting(before, id, Independent) then r == Failure(Conflict(Independent))
    else r.Success? && r.value.decision == StopVerified
  }

  /** The only attempt added decides whether the role is settled now. */
  lemma AttemptReports(env: Env, before: Store, after: Store, r: Record)
    requires Extends(before, after) && OnlyAttempted(env, before, after, r) && !SettledRole(before, r.candidate, r.role)
    ensures IsRecord(after, r.candidate, r.role, r) ==> Reports(before, after, r.candidate, r.role, r)
  {
    forall n | HasAttempt(after, r.candidate, r.role, n)
      ensures RecordAt(after, r.candidate, r.role, n) == r
              || (HasAttempt(before, r.candidate, r.role, n)
                  && RecordAt(before, r.candidate, r.role, n) == RecordAt(after, r.candidate, r.role, n))
    {}
  }

  lemma UnchangedReports(files: Store, id: Digest, role: Role, r: Record)
    requires IsRecord(files, id, role, r) && Settled(r)
    ensures Reports(files, files, id, role, r)
  {
    var n :| HasAttempt(files, id, role, n) && RecordAt(files, id, role, n) == r;
  }

  /** A role has the same records before and after, so it is settled in both or in neither. */
  lemma SameRecords(before: Store, after: Store, id: Digest, role: Role)
    requires Extends(before, after) && SameAttempts(before, after, id, role)
    ensures forall x :: IsRecord(after, id, role, x) <==> IsRecord(before, id, role, x)
    ensures SettledRole(after, id, role) <==> SettledRole(before, id, role)
  {
    forall n | HasAttempt(after, id, role, n)
      ensures HasAttempt(before, id, role, n) && RecordAt(before, id, role, n) == RecordAt(after, id, role, n)
    {}
    forall n | HasAttempt(before, id, role, n)
      ensures HasAttempt(after, id, role, n) && RecordAt(before, id, role, n) == RecordAt(after, id, role, n)
    {}
  }

  /** Steps that leave the role alone, before or after, do not change what is reported for it. */
  lemma ReportsStay(id: Digest, first: Store, before: Store, after: Store, last: Store, role: Role, r: Record)
    requires Extends(first, before) && SameAttempts(first, before, id, role)
    requires Extends(after, last) && SameAttempts(after, last, id, role) && Reports(before, after, id, role, r)
    ensures Reports(first, last, id, role, r)
  {
    SameRecords(first, before, id, role);
    SameRecords(after, last, id, role);
  }

  /** What obtaining the record in force does to the store, where attempt is the record of a new attempt. */
  ghost predicate Obtained(env: Env, before: Store, after: Store, attempt: Record, r: Result<Loaded, Fault>) {
    var id, role := attempt.candidate, attempt.role;
    && Extends(before, after) && OnlyAttempted(env, before, after, attempt)
    && (r == Failure(Conflict(role)) <==> Conflicting(before, id, role))
    && (r.Failure? ==> r.error == Crashed || r.error == Conflict(role))
    && (Conflicting(before, id, role) || SettledRole(before, id, role) ==> after == before)
    && (SettledRole(before, id, role) && !Conflicting(before, id, role) ==> r.Success? && Settled(r.value.record))
    && (r.Success? ==>
        Taken(env, before, after, id, role, r.value) && (!SettledRole(before, id, role) ==> r.value.record == attempt)
                       && (CertifiedId(before, id) ==> Proves(r.value.record)))
  }

  ghost predicate Taken(env: Env, before: Store, after: Store, id: Digest, role: Role, l: Loaded) {
    Reports(before, after, id, role, l.record) && l.ref == Ref(env, after, l.record)
  }

  /** What the independent role adds once the primary record proves the candidate. */
  ghost predicate Proven(env: Env, before: Store, after: Store, primary: Loaded, attempt: Record,
                         r: Result<Outcome, Fault>) {
    var id := attempt.candidate;
    && Extends(before, after) && OnlyAbout(id, before, after) && SameAttempts(before, after, id, Primary)
    && (SettledRole(before, id, Independent) ==> SameAttempts(before, after, id, Independent))
    && (r == Failure(Conflict(Independent)) <==> Conflicting(before, id, Independent))
    && (r.Failure? ==> r.error == Crashed || r.error == Conflict(Independent))
    && (Conflicting(before, id, Independent) ==> after == before)
    && (r.Success? ==> Finished(env, before, after, primary, attempt, r.value))
    && (CertifiedId(before, id) && !Conflicting(before, id, Independent) && r.Success? ==>
        r.value.decision == StopVerified)
  }

  /** An outcome with both records. */
  ghost predicate Finished(env: Env, before: Store, after: Store, primary: Loaded, attempt: Record, o: Outcome) {
    var id := attempt.candidate;
    && o.primary == Some(primary) && o.independent.Some? && Decided(o)
    && Reports(before, after, id, Independent, o.independent.value.record)
    && (!SettledRole(before, id, Independent) ==> o.independent.value.record == attempt)
    && (o.certificate.Some? ==> Certifies(env, after, id, o.certificate.value))
  }

  /** An attempt of the independent role leaves the primary record in its place. */
  lemma PrimaryStays(env: Env, before: Store, after: Store, attempt: Record, primary: Loaded)
    requires Extends(before, after) && OnlyAttempted(env, before, after, attempt) && attempt.role == Independent
    requires IsRecord(before, attempt.candidate, Primary, primary.record)
             && primary.ref == Ref(env, before, primary.record)
    requires primary.record.candidate == attempt.candidate && primary.record.role == Primary
    ensures IsRecord(after, attempt.candidate, Primary, primary.record)
            && primary.ref == Ref(env, after, primary.record)
    ensures SameAttempts(before, after, attempt.candidate, Primary) && OnlyAbout(attempt.candidate, before, after)
  {
    OtherRole(env, before, after, attempt, Primary);
  }

  lemma IndependentFailed(env: Env, before: Store, after: Store, primary: Loaded, attempt: Record, error: Fault)
    requires attempt.role == Independent && Obtained(env, before, after, attempt, Failure(error))
    requires SameAttempts(before, after, attempt.candidate, Primary) && OnlyAbout(attempt.candidate, before, after)
    ensures Proven(env, before, after, primary, attempt, Failure(error))
  {}

  lemma IndependentProven(env: Env, before: Store, middle: Store, after: Store, primary: Loaded, attempt: Record,
                          independent: Loaded, r: Result<Outcome, Fault>)
    requires attempt.role == Independent && Obtained(env, before, middle, attempt, Success(independent))
    requires SameAttempts(before, middle, attempt.candidate, Primary)
    requires Extends(middle, after)
    requires forall p :: p in after && p !in middle ==>
             p.id == attempt.candidate && (p.CertificateAt? || p.CertificateOf?)
    requires r.Success? ==>
             r.value.primary == Some(primary) && r.value.independent == Some(independent) && Decided(r.value)
    requires r.Success? && r.value.certificate.Some? ==>
             Certifies(env, after, attempt.candidate, r.value.certificate.value)
    requires r.Failure? ==> r.error == Crashed
    ensures Proven(env, before, after, primary, attempt, r)
  {
    CertificateAdds(attempt.candidate, before, middle, after);
    ReportsStay(attempt.candidate, before, before, middle, after, Independent, independent.record);
  }

  /** What proving both roles does to the store, where attempt and other are the records of new attempts. */
  ghost predicate BothProven(env: Env, before: Store, after: Store, attempt: Record, other: Record,
                             r: Result<Outcome, Fault>) {
    var id := attempt.candidate;
    && Extends(before, after) && OnlyAbout(id, before, after) && NeverRerun(before, after, id)
    && (r.Success? ==> Concluded(env, before, after, attempt, other, r.value))
    && (r.Failure? ==> r.error == Crashed || (r.error.Conflict? && Conflicting(before, id, r.error.role)))
    && (Conflicting(before, id, Primary) ==> r == Failure(Conflict(Primary)) && after == before)
    && (CertifiedId(before, id) && r != Failure(Crashed) ==> Recertified(before, id, r))
  }

  /** An outcome and what it says. */
  ghost predicate Concluded(env: Env, before: Store, after: Store, attempt: Record, other: Record, o: Outcome) {
    var id := attempt.candidate;
    && Decided(o) && Accounted(before, after, id, o)
    && (!SettledRole(before, id, Primary) ==> o.primary.value.record == attempt)
    && (o.independent.Some? && !SettledRole(before, id, Independent) ==> o.independent.value.record == other)
    && (o.certificate.Some? ==> Certifies(env, after, id, o.certificate.value))
  }

  /** A candidate without files has no records. */
  lemma NothingFiled(files: Store, id: Digest)
    requires forall p :: p in files ==> p.id != id
    ensures !HasCandidate(files, id) && !CertifiedId(files, id)
    ensures forall role :: !SettledRole(files, id, role) && !Conflicting(files, id, role)
  {
    forall role, name ensures !HasAttempt(files, id, role, name) && CertificateAt(id, name) !in files {
      assert AttemptAt(id, role, name).id == id && CertificateAt(id, name).id == id;
    }
  }

  /** After an unsettled first attempt there is one primary record, and nothing is in conflict. */
  lemma OnlyUnsettled(before: Store, after: Store, id: Digest, o: Outcome)
    requires Decided(o) && Extends(before, after) && Accounted(before, after, id, o)
    requires forall p :: p in before ==> p.id != id
    requires !Settled(o.primary.value.record)
    ensures IsRecord(after, id, Primary, o.primary.value.record)
    ensures forall role :: !SettledRole(after, id, role) && !Conflicting(after, id, role)
  {
    NoRecords(before, id);
    SameRecords(before, after, id, Independent);
    forall role ensures !SettledRole(after, id, role) && !Conflicting(after, id, role) {
      assert role == Primary || role == Independent;
    }
  }

  lemma NoRecords(files: Store, id: Digest)
    requires forall p :: p in files ==> p.id != id
    ensures forall role, x :: !IsRecord(files, id, role, x)
  {
    NothingFiled(files, id);
    forall role, name ensures !HasAttempt(files, id, role, name) {
      assert AttemptAt(id, role, name).id == id;
    }
  }

  lemma StillAdmissible(env: Env, files: Store, clock: int, s: Submission)
    requires Consistent(env, files, clock) && Holds(env, files, s)
    requires Framing.Framable(Fields(env, env.serialize(s.graph), env.lengths(s.graph.order)))
    ensures Admissible(env, files, s)
  {}

  lemma CertificateFound(env: Env, files: Store, clock: int, id: Digest, c: Certificate)
    requires Consistent(env, files, clock) && Certifies(env, files, id, c)
    ensures CertifiedId(files, id)
  {
    assert PublishedFiled(env, files, id);
  }

  /** Terminal records of two verifiers contradict each other in every later store. */
  lemma SplitRecords(before: Store, after: Store, id: Digest, x: Record, y: Record)
    requires Extends(before, after) && IsRecord(before, id, Primary, x) && IsRecord(after, id, Primary, y)
    requires Terminal(x) && Terminal(y) && x.verifier != y.verifier
    ensures Conflicting(after, id, Primary)
  {
    var n :| HasAttempt(before, id, Primary, n) && RecordAt(before, id, Primary, n) == x;
    assert HasAttempt(after, id, Primary, n) && RecordAt(after, id, Primary, n) == x;
  }

  /** The outcome when the primary record does not prove the candidate. */
  lemma PrimaryProven(env: Env, before: Store, after: Store, attempt: Record, other: Record,
                      primary: Result<Loaded, Fault>)
    requires attempt.role == Primary && Obtained(env, before, after, attempt, primary)
    requires SameAttempts(before, after, attempt.candidate, Independent) && OnlyAbout(attempt.candidate, before, after)
    requires CertifiedId(before, attempt.candidate) ==> SettledRole(before, attempt.candidate, Primary)
    ensures NeverRerun(before, after, attempt.candidate)
    ensures primary.Failure? ==> BothProven(env, before, after, attempt, other, Failure(primary.error))
    ensures primary.Success? && !Proves(primary.value.record) ==>
              forall o: Outcome :: Decided(o) && o.primary == Some(primary.value) ==>
                                     BothProven(env, before, after, attempt, other, Success(o))
  {
    forall role | SettledRole(before, attempt.candidate, role)
      ensures SameAttempts(before, after, attempt.candidate, role)
    {
      assert role == Primary || role == Independent;
    }
  }

  /** The outcome when it does. */
  lemma RolesProven(env: Env, before: Store, middle: Store, after: Store, attempt: Record, other: Record,
                    primary: Loaded,
                    r: Result<Outcome, Fault>)
    requires attempt.role == Primary && other.role == Independent && attempt.candidate == other.candidate
    requires Obtained(env, before, middle, attempt, Success(primary)) && Proven(env, middle, after, primary, other, r)
    requires SameAttempts(before, middle, attempt.candidate, Independent)
             && OnlyAbout(attempt.candidate, before, middle)
    requires SettledRole(middle, attempt.candidate, Independent) <==>
             SettledRole(before, attempt.candidate, Independent)
    requires Conflicting(middle, attempt.candidate, Independent) <==>
             Conflicting(before, attempt.candidate, Independent)
    ensures BothProven(env, before, after, attempt, other, r)
  {
    var id := attempt.candidate;
    RolesInTurn(id, before, middle, after);
    ReportsStay(id, before, before, middle, after, Primary, primary.record);
    CertifiedStays(id, before, middle);
    if r.Success? {
      ReportsStay(id, before, middle, after, after, Independent, r.value.independent.value.record);
    }
  }

  lemma CertifiedStays(id: Digest, before: Store, after: Store)
    requires Extends(before, after)
    ensures CertifiedId(before, id) ==> CertifiedId(after, id)
  {
    if CertifiedId(before, id) {
      var name :| CertificateAt(id, name) in before;
      assert CertificateAt(id, name) in after;
    }
  }

  lemma StoredReadable(env: Env, files: Store, clock: int, s: Submission)
    requires Consistent(env, files, clock)
    ensures CertifiedId(files, Id(env, s)) ==>
              HasCandidate(files, Id(env, s)) && Readable(env, files[CandidateAt(Id(env, s))])
  {
    if CertifiedId(files, Id(env, s)) {
      var name :| CertificateAt(Id(env, s), name) in files;
      assert CertificateFiled(env, files, Id(env, s), name);
    }
  }

  /** Saving a candidate changes neither its records nor its certificates. */
  lemma SavedKeeps(env: Env, id: Digest, before: Store, after: Store)
    requires Extends(before, after) && OnlySaved(id, before, after)
    ensures forall role :: SameAttempts(before, after, id, role)
                           && (SettledRole(after, id, role) <==> SettledRole(before, id, role))
    ensures forall role :: Conflicting(after, id, role) <==> Conflicting(before, id, role)
    ensures CertifiedId(after, id) <==> CertifiedId(before, id)
    ensures OnlyConcerns(id, before, after) && NeverRerun(before, after, id)
  {
    forall role, r ensures IsRecord(after, id, role, r) <==> IsRecord(before, id, role, r) {
      assert forall n :: HasAttempt(after, id, role, n) <==> HasAttempt(before, id, role, n);
    }
    forall role ensures SettledRole(after, id, role) <==> SettledRole(before, id, role) {
      assert forall n :: HasAttempt(after, id, role, n) <==> HasAttempt(before, id, role, n);
    }
  }

  lemma ProvedAfterSaved(env: Env, id: Digest, first: Store, before: Store, after: Store)
    requires Extends(first, before) && Extends(before, after) && OnlySaved(id, first, before)
             && OnlyAbout(id, before, after)
    requires NeverRerun(before, after, id)
    ensures Extends(first, after) && OnlyConcerns(id, first, after) && NeverRerun(first, after, id)
    ensures forall o: Outcome :: Decided(o) && Accounted(before, after, id, o) ==> Accounted(first, after, id, o)
  {
    SavedKeeps(env, id, first, before);
    forall o: Outcome | Decided(o) && Accounted(before, after, id, o) ensures Accounted(first, after, id, o) {
      ReportsStay(id, first, before, after, after, Primary, o.primary.value.record);
      if o.independent.Some? {
        ReportsStay(id, first, before, after, after, Independent, o.independent.value.record);
      }
    }
  }

  /** What an outcome tells: the records in force, the decision that follows from them, and the one certificate. */
  ghost predicate Answered(env: Env, before: Store, after: Store, s: Submission, o: Outcome) {
    var id := Id(env, s);
    && Decided(o) && Holds(env, after, s) && Retried(env, before, after, s, o) && Accounted(before, after, id, o)
    && Credits(env, before, after, s)
    && (Open(before, id) ==> DecidedBy(s.primary, s.independent, env.lengths(s.graph.order), o.decision))
    && (o.certificate.Some? ==>
          Certifies(env, after, id, o.certificate.value) && NoOther(before, id, o.certificate.value))
  }

  /** What a submission of a zero score does. */
  ghost predicate Inspected(env: Env, before: Store, after: Store, s: Submission, r: Result<Outcome, Fault>) {
    var id := Id(env, s);
    && OnlyConcerns(id, before, after) && NeverRerun(before, after, id)
    && (r.Success? ==> Admissible(env, before, s) && Answered(env, before, after, s, r.value))
    && (r.Failure? ==> || r.error == Crashed
                       || (!Admissible(env, before, s) && (r.error == FieldTooLong || r.error.BadCandidate?))
                       || (r.error.Conflict? && Conflicting(before, id, r.error.role)))
    && (Certified(env, before, s) && r != Failure(Crashed) ==>
          Recertified(before, id, r) && (r.Success? <==> OneVerifierEach(before, id)))
  }

  /** Two complete VERIFIED answers where nothing is settled stop the run. */
  lemma CompleteStops(env: Env, before: Store, after: Store, s: Submission, r: Result<Outcome, Fault>, name: string,
                      other: string)
    requires Inspected(env, before, after, s, r) && r != Failure(Crashed) && Admissible(env, before, s)
    requires s.primary == Answer(Status.Verified, true, name, "", None)
    requires s.independent == Answer(Status.Verified, true, other, "", None)
    requires forall role :: !SettledRole(before, Id(env, s), role) && !Conflicting(before, Id(env, s), role)
    ensures r.Success? && r.value.decision == StopVerified && r.value.primary.Some? && r.value.certificate.Some?
    ensures Certifies(env, after, Id(env, s), r.value.certificate.value)
    ensures var y := r.value.primary.value.record;
            IsRecord(after, Id(env, s), Primary, y) && Terminal(y) && y.verifier == name
  {
    assert Open(before, Id(env, s));
  }

  /** A candidate that could not be saved or read back. */
  lemma RefusedInspected(env: Env, clock: int, before: Store, after: Store, s: Submission, error: Fault)
    requires Consistent(env, before, clock) && Extends(before, after) && OnlySaved(Id(env, s), before, after)
    requires error == Crashed || (!Admissible(env, before, s) && (error == FieldTooLong || error.BadCandidate?))
    ensures Inspected(env, before, after, s, Failure(error))
  {
    StoredReadable(env, before, clock, s);
    SavedKeeps(env, Id(env, s), before, after);
  }

  /** A candidate that was saved, and then both roles. */
  lemma ProvenInspected(env: Env, clock: int, before: Store, middle: Store, clock': int, after: Store, s: Submission,
                        attempt: Record, other: Record, r: Result<Outcome, Fault>)
    requires Injective(env) && Consistent(env, before, clock) && Consistent(env, after, clock')
    requires Extends(before, middle) && OnlySaved(Id(env, s), before, middle) && Holds(env, middle, s)
    requires Admissible(env, before, s) && BothProven(env, middle, after, attempt, other, r)
    requires Credits(env, before, middle, s)
    requires attempt == RecordOf(env, middle, Id(env, s), Primary,
                                 Validated(s.primary, env.lengths(s.graph.order)), s.now)
    requires other == RecordOf(env, middle, Id(env, s), Independent,
                               Validated(s.independent, env.lengths(s.graph.order)), s.later)
    ensures Inspected(env, before, after, s, r)
  {
    var id := Id(env, s);
    SavedKeeps(env, id, before, middle);
    ProvedAfterSaved(env, id, before, middle, after);
    RecertifiedWhen(env, before, clock, id);
    if r.Success? {
      ConcludedRetried(env, before, middle, after, s, attempt, other, r.value);
      CreditsStay(env, before, middle, after, s);
      ConcludedAnswered(env, before, middle, clock', after, s, r.value);
    }
  }

  /** The records of new attempts read what was answered. */
  lemma ConcludedRetried(env: Env, before: Store, middle: Store, after: Store, s: Submission, attempt: Record,
                         other: Record, o: Outcome)
    requires Extends(before, middle) && OnlySaved(Id(env, s), before, middle) && Holds(env, middle, s)
    requires Extends(middle, after) && Concluded(env, middle, after, attempt, other, o)
    requires attempt == RecordOf(env, middle, Id(env, s), Primary,
                                 Validated(s.primary, env.lengths(s.graph.order)), s.now)
    requires other == RecordOf(env, middle, Id(env, s), Independent,
                               Validated(s.independent, env.lengths(s.graph.order)), s.later)
    ensures Holds(env, after, s) && Retried(env, before, after, s, o)
  {
    SavedKeeps(env, Id(env, s), before, middle);
  }

  lemma ConcludedAnswered(env: Env, before: Store, middle: Store, clock: int, after: Store, s: Submission, o: Outcome)
    requires Injective(env) && Consistent(env, after, clock) && Extends(before, after)
    requires Decided(o) && Holds(env, after, s) && Retried(env, before, after, s, o)
    requires Accounted(before, after, Id(env, s), o) && Credits(env, before, after, s)
    requires o.certificate.Some? ==> Certifies(env, after, Id(env, s), o.certificate.value)
    ensures Answered(env, before, after, s, o)
  {
    if Open(before, Id(env, s)) {
      AnswersDecide(env, before, after, s, o);
    }
    if o.certificate.Some? {
      NoOtherCertificate(env, after, clock, Id(env, s), o.certificate.value);
    }
  }

  /** Submissions whose attempt times increase from the given one on. */
  ghost predicate Timely(clock: int, submissions: seq<Submission>)
    decreases |submissions|
  {
    submissions == []
        || (clock < submissions[0].now < submissions[0].later && Timely(submissions[0].later, submissions[1..]))
  }

  /** Every certificate of this candidate in the store is this one. */
  ghost predicate NoOther(files: Store, id: Digest, c: Certificate) {
    && (forall name :: CertificateAt(id, name) in files ==> files[CertificateAt(id, name)] == Sealed(c, name))
    && (CertificateOf(id) in files ==> files[CertificateOf(id)] == Published(c))
  }

  lemma NoOtherCertificate(env: Env, files: Store, clock: int, id: Digest, c: Certificate)
    requires Injective(env) && Consistent(env, files, clock) && Backed(env, files, id, c)
    ensures NoOther(files, id, c)
  {
    forall name | CertificateAt(id, name) in files ensures files[CertificateAt(id, name)] == Sealed(c, name) {
      assert CertificateFiled(env, files, id, name);
      OneCertificate(env, files, clock, id, c, files[CertificateAt(id, name)].certificate);
    }
    if CertificateOf(id) in files {
      SameCertificate(env, files, clock, id, c);
    }
  }

  /** A later store still certifies what an earlier one did. */
  lemma CertifiesStays(env: Env, before: Store, clock: int, after: Store, clock': int, id: Digest, c: Certificate)
    requires Injective(env) && Consistent(env, before, clock) && Consistent(env, after, clock')
             && Extends(before, after)
    requires Certifies(env, before, id, c)
    ensures Certifies(env, after, id, c)
  {
    assert PublishedFiled(env, before, id);
    var name := env.hash(CertificateFile(c));
    assert CertificateFiled(env, before, id, name) && CertificateFiled(env, after, id, name);
    assert CertificateFile(before[CertificateAt(id, name)].certificate) == CertificateFile(c);
  }

  /** All terminal records of the role come from one verifier. */
  ghost predicate OneVerifier(files: Store, id: Digest, role: Role) {
    forall a, b :: IsRecord(files, id, role, a) && IsRecord(files, id, role, b) && Terminal(a) && Terminal(b) ==>
                     a.verifier == b.verifier
  }

  /** In a certified role every terminal record says VERIFIED. */
  lemma CertifiedTerminals(env: Env, files: Store, clock: int, id: Digest, role: Role, r: Record)
    requires Consistent(env, files, clock) && CertifiedId(files, id) && IsRecord(files, id, role, r) && Terminal(r)
    ensures r.status.Verified?
  {
    SpeakerRegular(env, files, clock, id, role, r);
    if Settled(r) {
      CertifiedProves(env, files, clock, id, role, r);
    }
  }

  /** In a certified role the terminal records contradict each other exactly when they come from different verifiers. */
  lemma ConflictingWhen(env: Env, files: Store, clock: int, id: Digest, role: Role)
    requires Consistent(env, files, clock) && CertifiedId(files, id)
    ensures !Conflicting(files, id, role) <==> OneVerifier(files, id, role)
  {
    forall r | IsRecord(files, id, role, r) && Terminal(r) ensures r.status.Verified? {
      CertifiedTerminals(env, files, clock, id, role, r);
    }
  }

  ghost predicate OneVerifierEach(files: Store, id: Digest) {
    OneVerifier(files, id, Primary) && OneVerifier(files, id, Independent)
  }

  /** A certified candidate can be certified again exactly when one verifier answered for each role. */
  lemma RecertifiedWhen(env: Env, files: Store, clock: int, id: Digest)
    requires Consistent(env, files, clock)
    ensures CertifiedId(files, id) ==>
              (OneVerifierEach(files, id) <==> !Conflicting(files, id, Primary) && !Conflicting(files, id, Independent))
  {
    if CertifiedId(files, id) {
      ConflictingWhen(env, files, clock, id, Primary);
      ConflictingWhen(env, files, clock, id, Independent);
    }
  }

  /** A complete VERIFIED record of this role for the graph bytes and target lengths of the candidate. */
  ghost predicate Proved(env: Env, files: Store, id: Digest, role: Role) {
    && HasCandidate(files, id)
    && exists r :: IsRecord(files, id, role, r) && Proves(r) && r.role == role
                   && r.lengths == files[CandidateAt(id)].metadata.lengths
                   && r.graphHash == env.hash(GraphFile(files[CandidateAt(id)].graph))
  }

  /** The testimony says VERIFIED and complete, and names the verifier and the file of one record of the role. */
  ghost predicate Cites(files: Store, id: Digest, role: Role, t: Testimony) {
    && t.status.Verified? && t.complete && t.ref in files
    && exists r :: IsRecord(files, id, role, r) && r.verifier == t.verifier
                   && (files[t.ref] == Verification(r) || (files[t.ref].Attempt? && files[t.ref].record == r))
  }

  /**
    What a published certificate is worth: a primary and an independent record, both VERIFIED and complete, for
    the graph bytes and target lengths of a candidate whose score has no witness of any of those lengths.
   */
  lemma CertificateMeans(env: Env, files: Store, clock: int, id: Digest)
    requires Injective(env) && Consistent(env, files, clock) && CertificateOf(id) in files
    ensures files[CertificateOf(id)].Published? && HasCandidate(files, id)
    ensures var e := files[CandidateAt(id)];
            && ZeroScore(e.metadata.score, e.metadata.lengths) && Readable(env, e)
            && Proved(env, files, id, Primary) && Proved(env, files, id, Independent)
    ensures Cites(files, id, Primary, files[CertificateOf(id)].certificate.primary)
            && Cites(files, id, Independent, files[CertificateOf(id)].certificate.independent)
    ensures Certifies(env, files, id, files[CertificateOf(id)].certificate)
  {
    assert PublishedFiled(env, files, id) && CandidateFiled(env, files, id);
    var c := files[CertificateOf(id)].certificate;
    var name := env.hash(CertificateFile(c));
    assert CertificateFiled(env, files, id, name);
    assert CertificateFile(files[CertificateAt(id, name)].certificate) == CertificateFile(c);
    forall role ensures Proved(env, files, id, role) {
      var n := if role == Primary then c.primaryHash else c.independentHash;
      assert AttemptFiled(env, files, clock, id, role, n);
      assert IsRecord(files, id, role, RecordAt(files, id, role, n));
    }
    TestimonyCites(env, files, clock, id, Primary, c.primary, c.primaryHash);
    TestimonyCites(env, files, clock, id, Independent, c.independent, c.independentHash);
  }

  lemma TestimonyCites(env: Env, files: Store, clock: int, id: Digest, role: Role, t: Testimony, name: Digest)
    requires Consistent(env, files, clock) && Testifies(env, files, id, role, t, name)
    ensures Cites(files, id, role, t)
  {
    assert AttemptFiled(env, files, clock, id, role, name);
    var r := RecordAt(files, id, role, name);
    assert IsRecord(files, id, role, r);
  }

  lemma TimelyNext(clock: int, submissions: seq<Submission>, i: nat)
    requires i < |submissions| && Timely(clock, submissions[i..])
    ensures clock < submissions[i].now < submissions[i].later
    ensures Timely(submissions[i].later, submissions[i + 1..])
  {
    assert submissions[i..][0] == submissions[i] && submissions[i..][1..] == submissions[i + 1..];
  }

  lemma TimelySooner(c: int, clock: int, submissions: seq<Submission>)
    requires c <= clock && Timely(clock, submissions)
    ensures Timely(c, submissions)
  {}

  /** Every certificate returned so far is published and backed. */
  ghost predicate AllCertify(env: Env, files: Store, submissions: seq<Submission>,
                             outcomes: seq<Result<Outcome, Fault>>)
    requires |outcomes| == |submissions|
  {
    forall i :: 0 <= i < |outcomes| && outcomes[i].Success? && outcomes[i].value.certificate.Some? ==>
                  Certifies(env, files, Id(env, submissions[i]), outcomes[i].value.certificate.value)
  }

  lemma AllCertifyNext(env: Env, before: Store, clock: int, after: Store, clock': int, submissions: seq<Submission>,
                       n: nat,
                       outcomes: seq<Result<Outcome, Fault>>, outcome: Result<Outcome, Fault>)
    requires Injective(env) && Consistent(env, before, clock) && Consistent(env, after, clock')
             && Extends(before, after)
    requires n < |submissions| && |outcomes| == n && AllCertify(env, before, submissions[..n], outcomes)
    requires outcome.Success? && outcome.value.certificate.Some? ==>
               Certifies(env, after, Id(env, submissions[n]), outcome.value.certificate.value)
    ensures AllCertify(env, after, submissions[..n + 1], outcomes + [outcome])
  {
    forall i | 0 <= i < n && outcomes[i].Success? && outcomes[i].value.certificate.Some?
      ensures Certifies(env, after, Id(env, submissions[i]), outcomes[i].value.certificate.value)
    {
      assert submissions[..n][i] == submissions[i];
      CertifiesStays(env, before, clock, after, clock', Id(env, submissions[i]), outcomes[i].value.certificate.value);
    }
  }
}
