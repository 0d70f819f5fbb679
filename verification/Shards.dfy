/** Resumable sharded execution: whatever stops it, a pass ends in the same shards and the same reductions. */
module Shards {
  import opened Wrappers
  import opened Sorting
  import opened Manifests
  import Graphs

  type Digest = string

  /** An episode record without its hash, and the hash. */
  datatype Record = Record(id: string, body: string, canonical: Digest)

  /** The entry of a completed shard; the number of workers is whatever the call asked for. */
  datatype Entry = Entry(path: int, count: nat, ids: seq<string>, hash: Digest, workers: nat)

  datatype Summary = Summary(shardHashes: Digest, canonicalReduction: Digest, strippedReduction: Digest, count: nat,
                             entries: seq<Entry>)

  datatype Outcome = Partial(done: seq<int>, records: seq<Record>) | Completed(summary: Summary, records: seq<Record>)

  datatype Fault = Crashed | BadIndex | InvalidEntry | PathMissing | HashMismatch | RosterMismatch | EpisodeHashMismatch
                 | TooLarge | NoEntry | RosterDrifted | SummaryMismatch

  /** What a pass computes: the roster and its shards, the evaluator and the hashes. */
  datatype Plan = Plan(roster: seq<Row>, shards: seq<seq<Row>>, evaluate: Row -> Record,
                       episodeHash: (string, string) -> Digest,
                       fileHash: seq<Record> -> Digest, listHash: seq<Digest> -> Digest,
                       strippedHash: seq<Record> -> Digest, size: seq<Record> -> nat)

  const MAX_SHARD_BYTES := 32 * 1024 * 1024

  function RecordId(r: Record): string {
    r.id
  }

  function RecordHash(r: Record): Digest {
    r.canonical
  }

  predicate RecordLeq(a: Record, b: Record) {
    StringLeq(a.id, b.id)
  }

  /** Shards that partition the roster, and records that carry their hash. */
  ghost predicate Sound(plan: Plan) {
    && |plan.shards| == SHARD_COUNT && multiset(Concat(plan.shards)) == multiset(plan.roster) && Evaluates(plan)
  }

  ghost predicate Evaluates(plan: Plan) {
    forall row :: plan.evaluate(row).id == row.id
                  && plan.evaluate(row).canonical == plan.episodeHash(plan.evaluate(row).id, plan.evaluate(row).body)
  }

  /** The roster is in the order of its identifiers. */
  ghost predicate Ordered(plan: Plan) {
    Sorted(Map(RowId, plan.roster), StringLeq)
  }

  /**
    A manifest that passes the manifest checks gives a sound plan, whose roster is in the order of its identifiers
    exactly when all its episodes are in step.
   */
  lemma ManifestIsSound(rows: seq<Row>, plan: Plan)
    requires Named(rows) && Roster(rows) == Success(plan.roster) && Evaluates(plan)
    requires |plan.shards| == SHARD_COUNT && Sharded(plan.roster, plan.shards)
    requires forall i :: 0 <= i < |plan.roster| ==> plan.roster[i].shard < SHARD_COUNT
    ensures Sound(plan) && (Ordered(plan) <==> AllInStep(rows)) && (WellNamed(rows) ==> Ordered(plan))
  {
    RosterSortedExact(rows, plan.roster);
    ShardsPartition(plan.roster, plan.shards);
    if WellNamed(rows) {
      RosterSorted(rows, plan.roster);
    }
  }

  // --- The result every run must reach ------------------------------------------------------

  function ShardRecords(plan: Plan, index: int): seq<Record>
    requires 0 <= index < |plan.shards|
  {
    Map(plan.evaluate, plan.shards[index])
  }

  function ShardIds(plan: Plan, index: int): seq<string>
    requires 0 <= index < |plan.shards|
  {
    Map(RowId, plan.shards[index])
  }

  ghost function EntryFor(plan: Plan, index: int, workers: nat): Entry
    requires 0 <= index < |plan.shards|
  {
    Entry(index, |plan.shards[index]|, ShardIds(plan, index), plan.fileHash(ShardRecords(plan, index)), workers)
  }

  /** The records of some shards, in the given order. */
  ghost function RecordsOf(plan: Plan, indices: seq<int>): seq<Record>
    requires forall i :: 0 <= i < |indices| ==> 0 <= indices[i] < |plan.shards|
  {
    if indices == [] then []
    else RecordsOf(plan, indices[..|indices| - 1]) + ShardRecords(plan, indices[|indices| - 1])
  }

  function Indices(n: nat): (r: seq<int>)
    ensures |r| == n && forall i :: 0 <= i < n ==> r[i] == i
  {
    seq(n, i => i)
  }

  ghost function Reduced(plan: Plan): seq<Record>
  {
    Sort(RecordsOf(plan, Indices(|plan.shards|)), RecordLeq)
  }

  ghost function FileHashes(plan: Plan): (r: seq<Digest>)
    ensures |r| == |plan.shards| && forall i :: 0 <= i < |r| ==> r[i] == plan.fileHash(ShardRecords(plan, i))
  {
    seq(|plan.shards|, i requires 0 <= i < |plan.shards| => plan.fileHash(ShardRecords(plan, i)))
  }

  /** The digests of the summary of an uninterrupted pass. */
  ghost predicate Reaches(plan: Plan, s: Summary) {
    && s.shardHashes == plan.listHash(FileHashes(plan))
    && s.canonicalReduction == plan.listHash(Map(RecordHash, Reduced(plan)))
    && s.strippedReduction == plan.strippedHash(Reduced(plan))
    && s.count == |Reduced(plan)|
  }

  lemma {:induction false} RecordsAreRows(plan: Plan, n: nat)
    requires n <= |plan.shards|
    ensures RecordsOf(plan, Indices(n)) == Map(plan.evaluate, Concat(plan.shards[..n]))
  {
    if n > 0 {
      RecordsAreRows(plan, n - 1);
      assert Indices(n)[..n - 1] == Indices(n - 1);
      assert plan.shards[..n][..n - 1] == plan.shards[..n - 1];
      MapAppend(plan.evaluate, Concat(plan.shards[..n - 1]), plan.shards[n - 1]);
    }
  }

  lemma RecordPreorder()
    ensures Preorder(RecordLeq)
  {
    StringOrder();
  }

  lemma SameIds(plan: Plan, rows: seq<Row>)
    requires Sound(plan)
    ensures Map(RecordId, Map(plan.evaluate, rows)) == Map(RowId, rows)
  {
    forall i | 0 <= i < |rows| ensures plan.evaluate(rows[i]).id == rows[i].id {}
  }

  lemma SortedIds(records: seq<Record>)
    ensures Sorted(Map(RecordId, Sort(records, RecordLeq)), StringLeq)
    ensures multiset(Map(RecordId, Sort(records, RecordLeq))) == multiset(Map(RecordId, records))
  {
    RecordPreorder();
    SortSorts(records, RecordLeq);
    SortPermutes(records, RecordLeq);
    MapMultiset(RecordId, Sort(records, RecordLeq), records);
  }

  /**
    The records of all shards, sorted by identifier, are those of the roster exactly when that is in identifier
    order.
   */
  lemma DriftsUnlessOrdered(plan: Plan)
    requires Sound(plan)
    ensures Map(RecordId, Reduced(plan)) == Map(RowId, plan.roster) <==> Ordered(plan)
  {
    var n := |plan.shards|;
    RecordsAreRows(plan, n);
    assert plan.shards[..n] == plan.shards;
    SortedIds(RecordsOf(plan, Indices(n)));
    SameIds(plan, Concat(plan.shards));
    MapMultiset(RowId, Concat(plan.shards), plan.roster);
    StringOrder();
    if Ordered(plan) {
      SortedUnique(Map(RecordId, Reduced(plan)), Map(RowId, plan.roster), StringLeq);
    }
  }

  // --- What the disk holds ------------------------------------------------------------------

  ghost predicate FilesOk(plan: Plan, files: map<int, seq<Record>>) {
    forall i :: i in files ==> 0 <= i < |plan.shards| && files[i] == ShardRecords(plan, i)
  }

  /** The entry names a file with the recorded hash and the roster of its shard. */
  ghost predicate EntryOk(plan: Plan, files: map<int, seq<Record>>, index: int, e: Entry) {
    && 0 <= index < |plan.shards| && index in files && e == EntryFor(plan, index, e.workers)
  }

  ghost predicate EntriesOk(plan: Plan, files: map<int, seq<Record>>, entries: map<int, Entry>) {
    forall i :: i in entries ==> EntryOk(plan, files, i, entries[i])
  }

  ghost predicate SummaryOk(plan: Plan, files: map<int, seq<Record>>, s: Summary) {
    && Ordered(plan) && Reaches(plan, s) && |s.entries| == |plan.shards|
    && forall i :: 0 <= i < |s.entries| ==> EntryOk(plan, files, i, s.entries[i])
  }

  predicate HashesMatch(plan: Plan, records: seq<Record>) {
    forall i :: 0 <= i < |records| ==> records[i].canonical == plan.episodeHash(records[i].id, records[i].body)
  }

  /** Reading a shard back against its entry and its roster. */
  function ReadShard(plan: Plan, files: map<int, seq<Record>>, e: Entry, ids: seq<string>): Result<seq<Record>, Fault> {
    if e.path !in files then Failure(PathMissing)
    else
      var records := files[e.path];
      if plan.fileHash(records) != e.hash then Failure(HashMismatch)
      else if Map(RecordId, records) != ids || |records| != e.count then Failure(RosterMismatch)
      else if !HashesMatch(plan, records) then Failure(EpisodeHashMismatch)
      else Success(records)
  }

  lemma ReadsBack(plan: Plan, files: map<int, seq<Record>>, index: int, e: Entry)
    requires Sound(plan) && FilesOk(plan, files) && EntryOk(plan, files, index, e)
    ensures ReadShard(plan, files, e, ShardIds(plan, index)) == Success(ShardRecords(plan, index))
  {
    SameIds(plan, plan.shards[index]);
  }

  /** No two records, lists or episodes share a hash. */
  ghost predicate HashesApart(plan: Plan) {
    && (forall a, b :: plan.fileHash(a) == plan.fileHash(b) ==> a == b)
    && (forall a, b :: plan.listHash(a) == plan.listHash(b) ==> a == b)
    && (forall a, b, c, d :: plan.episodeHash(a, b) == plan.episodeHash(c, d) ==> a == c && b == d)
  }

  /** Whatever became of the files, an entry reads back exactly from the file it was written for. */
  lemma ReadsOnlyIntact(plan: Plan, files: map<int, seq<Record>>, index: int, e: Entry)
    requires Sound(plan) && HashesApart(plan) && 0 <= index < |plan.shards| && e == EntryFor(plan, index, e.workers)
    ensures var read := ReadShard(plan, files, e, ShardIds(plan, index));
            && (read.Success? <==> index in files && files[index] == ShardRecords(plan, index))
            && (read.Success? ==> read.value == ShardRecords(plan, index))
            && (read.Failure? ==> read.error == if index in files then HashMismatch else PathMissing)
  {
    SameIds(plan, plan.shards[index]);
  }

  ghost predicate SameHashes(p: Plan, q: Plan) {
    p.fileHash == q.fileHash && p.listHash == q.listHash && p.episodeHash == q.episodeHash
  }

  /** Passes with the same shard digest have the same records in every shard. */
  lemma ShardHashesDetermine(p: Plan, q: Plan, s: Summary, t: Summary)
    requires HashesApart(p) && SameHashes(p, q) && Reaches(p, s) && Reaches(q, t) && s.shardHashes == t.shardHashes
    ensures |p.shards| == |q.shards|
    ensures forall i :: 0 <= i < |p.shards| ==> ShardRecords(p, i) == ShardRecords(q, i)
  {
    assert FileHashes(p) == FileHashes(q);
    forall i | 0 <= i < |p.shards| ensures ShardRecords(p, i) == ShardRecords(q, i) {
      assert FileHashes(p)[i] == FileHashes(q)[i];
    }
  }

  lemma HashesOf(p: Plan, records: seq<Record>)
    requires Sound(p) && records == Reduced(p)
    ensures forall i :: 0 <= i < |records| ==> records[i].canonical == p.episodeHash(records[i].id, records[i].body)
  {
    var n := |p.shards|;
    RecordsAreRows(p, n);
    assert p.shards[..n] == p.shards;
    var rows := RecordsOf(p, Indices(n));
    SortPermutes(rows, RecordLeq);
    forall i | 0 <= i < |records|
      ensures records[i].canonical == p.episodeHash(records[i].id, records[i].body)
    {
      assert records[i] in multiset(rows);
      var j :| 0 <= j < |rows| && rows[j] == records[i];
      assert rows[j] == p.evaluate(Concat(p.shards)[j]);
    }
  }

  /** Passes with the same canonical reduction have the same records in the order of their identifiers. */
  lemma ReductionDetermines(p: Plan, q: Plan, s: Summary, t: Summary)
    requires Sound(p) && Sound(q) && HashesApart(p) && SameHashes(p, q)
    requires Reaches(p, s) && Reaches(q, t) && s.canonicalReduction == t.canonicalReduction
    ensures Reduced(p) == Reduced(q) && s.count == t.count
  {
    var a, b := Map(RecordHash, Reduced(p)), Map(RecordHash, Reduced(q));
    assert a == b;
    HashesOf(p, Reduced(p));
    HashesOf(q, Reduced(q));
    forall i | 0 <= i < |Reduced(p)| ensures Reduced(p)[i] == Reduced(q)[i] {
      assert a[i] == b[i];
    }
  }

  datatype Call = Call(requested: Option<seq<int>>, workers: nat, writes: nat)

  // --- One pass over its files --------------------------------------------------------------

  class ShardedPass {
    const plan: Plan
    var files: map<int, seq<Record>>
    var state: Option<map<int, Entry>>
    var summary: Option<Summary>
    // How many more writes complete before the process dies.
    var left: nat

    constructor (plan: Plan)
      requires Sound(plan)
      ensures Valid() && this.plan == plan && files == map[] && state == None && summary == None
    {
      this.plan := plan;
      files, state, summary, left := map[], None, None, 0;
    }

    /** What holds of the disk after every write of every run. */
    ghost predicate Valid()
      reads this
    {
      && Sound(plan) && FilesOk(plan, files)
      && (state.Some? ==> EntriesOk(plan, files, state.value))
      && (summary.Some? ==> SummaryOk(plan, files, summary.value))
    }

    /** A summary never outlives the entries of its shards. */
    ghost predicate Whole()
      reads this
    {
      summary.Some? ==> state.Some? && forall i :: 0 <= i < |plan.shards| ==> i in state.value
    }

    /** The entries a resumed call starts from. */
    function Entries(): map<int, Entry>
      reads this
    {
      if state.Some? then state.value else map[]
    }

    method WriteState(entries: map<int, Entry>) returns (alive: bool)
      requires Valid() && EntriesOk(plan, files, entries)
      modifies this`state, this`left
      ensures Valid() && state == if alive then Some(entries) else old(state)
      ensures old(left) > 0 ==> alive && left == old(left) - 1
    {
      alive := left > 0;
      if alive {
        left := left - 1;
        state := Some(entries);
      }
    }

    /** Evaluates one shard and writes its file, over an earlier one with the same records if there is one. */
    method WriteShard(index: int, workers: nat) returns (r: Result<Entry, Fault>)
      requires Valid() && 0 <= index < |plan.shards|
      modifies this`files, this`left
      ensures Valid() && old(files).Keys <= files.Keys
      ensures r.Success? ==> EntryOk(plan, files, index, r.value)
      ensures r.Failure? ==> r.error == Crashed
                             || (r.error == TooLarge && plan.size(ShardRecords(plan, index)) > MAX_SHARD_BYTES)
      ensures old(left) > 0 && plan.size(ShardRecords(plan, index)) <= MAX_SHARD_BYTES ==>
              r.Success? && left == old(left) - 1
    {
      var records := ShardRecords(plan, index);
      if plan.size(records) > MAX_SHARD_BYTES {
        return Failure(TooLarge);
      }
      if left == 0 {
        return Failure(Crashed);
      }
      left := left - 1;
      files := files[index := records];
      SameIds(plan, plan.shards[index]);
      r := Success(Entry(index, |records|, Map(RecordId, records), plan.fileHash(records), workers));
    }

    /** The records of some shards, read back from their files. */
    method LoadRecords(entries: map<int, Entry>, indices: seq<int>) returns (r: Result<seq<Record>, Fault>)
      requires Valid() && EntriesOk(plan, files, entries)
      requires forall i :: 0 <= i < |indices| ==> 0 <= indices[i] < |plan.shards|
      ensures r.Success? <==> forall i :: 0 <= i < |indices| ==> indices[i] in entries
      ensures r.Success? ==> r.value == RecordsOf(plan, indices)
      ensures r.Failure? ==> r.error == NoEntry
    {
      var records: seq<Record> := [];
      for i := 0 to |indices|
        invariant records == RecordsOf(plan, indices[..i])
        invariant forall j :: 0 <= j < i ==> indices[j] in entries
      {
        var index := indices[i];
        if index !in entries {
          return Failure(NoEntry);
        }
        ReadsBack(plan, files, index, entries[index]);
        // No check of the read can fail here.
        var read := ReadShard(plan, files, entries[index], ShardIds(plan, index));
        assert indices[..i + 1][..i] == indices[..i];
        records := records + read.value;
      }
      assert indices[..|indices|] == indices;
      r := Success(records);
    }

    /** The reduction of a complete set of shards. */
    method Summarize(entries: map<int, Entry>, records: seq<Record>) returns (r: Result<Summary, Fault>)
      requires Valid() && EntriesOk(plan, files, entries) && records == RecordsOf(plan, Indices(|plan.shards|))
      requires forall i :: 0 <= i < |plan.shards| ==> i in entries
      ensures if Ordered(plan) then r.Success? && SummaryOk(plan, files, r.value) else r == Failure(RosterDrifted)
    {
      var ordered := Sort(records, RecordLeq);
      DriftsUnlessOrdered(plan);
      if Map(RecordId, ordered) != Map(RowId, plan.roster) {
        return Failure(RosterDrifted);
      }
      var list := seq(|plan.shards|, i requires 0 <= i < |plan.shards| && i in entries => entries[i]);
      var hashes := seq(|plan.shards|, i requires 0 <= i < |plan.shards| && i in entries => entries[i].hash);
      assert hashes == FileHashes(plan);
      r := Success(Summary(plan.listHash(hashes), plan.listHash(Map(RecordHash, ordered)), plan.strippedHash(ordered),
                           |ordered|, list));
    }

    /** Recomputes the digests of a summary from the files its entries name. */
    method VerifySummary(s: Summary) returns (exact: bool)
      requires Valid() && SummaryOk(plan, files, s)
      ensures exact
    {
      var records: seq<Record> := [];
      assert Indices(|plan.shards|)[..0] == [];
      for i := 0 to |s.entries|
        invariant records == RecordsOf(plan, Indices(|plan.shards|)[..i])
      {
        ReadsBack(plan, files, i, s.entries[i]);
        var read := ReadShard(plan, files, s.entries[i], ShardIds(plan, i));
        if read.Failure? {
          return false;
        }
        assert Indices(|plan.shards|)[..i + 1][..i] == Indices(|plan.shards|)[..i];
        records := records + read.value;
      }
      assert Indices(|plan.shards|)[..|plan.shards|] == Indices(|plan.shards|);
      var ordered := Sort(records, RecordLeq);
      DriftsUnlessOrdered(plan);
      var hashes := seq(|s.entries|, i requires 0 <= i < |s.entries| => s.entries[i].hash);
      assert hashes == FileHashes(plan);
      exact := Map(RecordId, ordered) == Map(RowId, plan.roster)
               && plan.listHash(Map(RecordHash, ordered)) == s.canonicalReduction
               && plan.strippedHash(ordered) == s.strippedReduction && plan.listHash(hashes) == s.shardHashes
               && s.count == |ordered|;
    }

    /** The existing summary of a resumed pass: it verifies, and its records load if every shard has an entry. */
    method Finished(entries: map<int, Entry>) returns (r: Result<Outcome, Fault>)
      requires Valid() && EntriesOk(plan, files, entries) && summary.Some?
      ensures r.Success? <==> forall i :: 0 <= i < |plan.shards| ==> i in entries
      ensures r.Success? ==> r.value == Completed(summary.value, RecordsOf(plan, Indices(|plan.shards|)))
      ensures r.Failure? ==> r.error == NoEntry
    {
      var exact := VerifySummary(summary.value);
      if !exact {
        return Failure(SummaryMismatch);
      }
      var records := LoadRecords(entries, Indices(|plan.shards|));
      if records.Failure? {
        return Failure(NoEntry);
      }
      forall i | 0 <= i < |plan.shards| ensures i in entries {
        assert Indices(|plan.shards|)[i] == i;
      }
      r := Success(Completed(summary.value, records.value));
    }

    /** One shard is written and read back, and then the state names it. */
    method CompleteShard(entries: map<int, Entry>, index: int, workers: nat) returns (r: Result<map<int, Entry>, Fault>)
      requires Valid() && EntriesOk(plan, files, entries) && state == Some(entries)
      requires 0 <= index < |plan.shards| && index !in entries
      modifies this`files, this`state, this`left
      ensures Valid() && (r.Failure? ==> state == old(state) && EntriesOk(plan, files, entries))
      ensures r.Success? ==> state == Some(r.value) && EntriesOk(plan, files, r.value) && index in r.value
                             && r.value == entries[index := r.value[index]]
      ensures r.Failure? ==> r.error == Crashed || (r.error == TooLarge && Oversized(index))
      ensures old(left) >= 2 && !Oversized(index) ==> r.Success? && left == old(left) - 2
    {
      var written := WriteShard(index, workers);
      if written.Failure? {
        return Failure(written.error);
      }
      ReadsBack(plan, files, index, written.value);
      var entries' := entries[index := written.value];
      var alive := WriteState(entries');
      if !alive {
        return Failure(Crashed);
      }
      r := Success(entries');
    }

    /**
      The missing shards, evaluated by any number of workers and completed in any order; the state advances
      with each.
     */
    method EvaluateMissing(start: map<int, Entry>, missing: set<int>, workers: nat)
      returns (r: Result<map<int, Entry>, Fault>)
      requires Valid() && EntriesOk(plan, files, start) && state == Some(start)
      requires forall i :: i in missing ==> 0 <= i < |plan.shards| && i !in start
      modifies this`files, this`state, this`left
      ensures Valid() && state.Some? && forall i :: i in start ==> i in state.value && state.value[i] == start[i]
      ensures forall i :: i in state.value ==> i in start || i in missing
      ensures r.Success? ==> state == Some(r.value) && forall i :: i in missing ==> i in r.value
      ensures r.Failure? ==> r.error == Crashed || (r.error == TooLarge && exists i :: i in missing && Oversized(i))
      ensures old(left) >= 2 * |missing| && (forall i :: i in missing ==> !Oversized(i)) ==>
                r.Success? && left == old(left) - 2 * |missing|
    {
      var entries, todo := start, missing;
      while todo != {}
        invariant Valid() && EntriesOk(plan, files, entries) && state == Some(entries) && todo <= missing
        invariant forall i :: i in entries <==> i in start || (i in missing && i !in todo)
        invariant forall i :: i in start ==> entries[i] == start[i]
        invariant old(left) >= 2 * |missing| && (forall i :: i in missing ==> !Oversized(i)) ==>
                    left == old(left) - 2 * (|missing| - |todo|)
        decreases todo
      {
        ghost var some := Graphs.Member(todo);
        var index :| index in todo;
        var completed := CompleteShard(entries, index, workers);
        if completed.Failure? {
          return Failure(completed.error);
        }
        entries, todo := completed.value, todo - {index};
      }
      r := Success(entries);
    }

    ghost predicate Oversized(index: int)
    {
      0 <= index < |plan.shards| && plan.size(ShardRecords(plan, index)) > MAX_SHARD_BYTES
    }

    /** The reduction of a complete pass, written before the state says so. */
    method Finish(entries: map<int, Entry>) returns (r: Result<Outcome, Fault>)
      requires Valid() && EntriesOk(plan, files, entries) && state == Some(entries)
      requires forall i :: 0 <= i < |plan.shards| ==> i in entries
      modifies this`state, this`summary, this`left
      ensures Valid() && state == Some(entries) && (summary == old(summary) || summary.Some?)
      ensures r.Success? ==> r.value.Completed? && summary == Some(r.value.summary) && Reaches(plan, r.value.summary)
                             && r.value.records == Reduced(plan)
      ensures Ordered(plan) ==> (r.Failure? ==> r.error == Crashed) && (old(left) >= 2 ==> r.Success?)
      ensures !Ordered(plan) ==> r == Failure(RosterDrifted) && summary == old(summary)
    {
      var records := LoadRecords(entries, Indices(|plan.shards|));
      var summarized := Summarize(entries, records.value);
      if summarized.Failure? {
        return Failure(summarized.error);
      }
      if left == 0 {
        return Failure(Crashed);
      }
      left := left - 1;
      summary := Some(summarized.value);
      var alive := WriteState(entries);
      if !alive {
        return Failure(Crashed);
      }
      r := Success(Completed(summarized.value, Sort(records.value, RecordLeq)));
    }

    /** The shards a call asks for, all of them unless it names some. */
    function Wanted(requested: Option<seq<int>>): (r: set<int>)
      ensures forall i :: 0 <= i < |plan.shards| ==> (i in r <==> requested.None? || i in requested.value)
    {
      if requested.None? then Graphs.UpTo(|plan.shards|) else set i | i in requested.value
    }

    ghost predicate InLayout(requested: Option<seq<int>>) {
      forall i :: i in Wanted(requested) ==> 0 <= i < |plan.shards|
    }

    /** The entries found and the missing shards, evaluated one by one. */
    method Advance(entries: map<int, Entry>, missing: set<int>, workers: nat)
      returns (r: Result<map<int, Entry>, Fault>)
      requires Valid() && EntriesOk(plan, files, entries)
      requires forall i :: i in missing ==> 0 <= i < |plan.shards| && i !in entries
      modifies this`files, this`state, this`left
      ensures Valid() && (state == old(state) || Grown(entries, missing, state))
      ensures r.Success? ==> state == Some(r.value) && Grown(entries, missing, state)
                             && forall i :: i in missing ==> i in r.value
      ensures r.Failure? ==> r.error == Crashed || (r.error == TooLarge && exists i :: Oversized(i))
      ensures old(left) >= 2 * |missing| + 1 && (forall i :: i in missing ==> !Oversized(i)) ==>
                r.Success? && left == old(left) - 2 * |missing| - 1
    {
      var alive := WriteState(entries);
      if !alive {
        return Failure(Crashed);
      }
      r := EvaluateMissing(entries, missing, workers);
    }

    /** The outcome of a call: complete exactly when every shard has an entry. */
    method Close(entries: map<int, Entry>) returns (r: Result<Outcome, Fault>)
      requires Valid() && state == Some(entries)
      modifies this`state, this`summary, this`left
      ensures Valid() && state == Some(entries) && (summary == old(summary) || (summary.Some? && Full(plan, entries)))
      ensures r.Success? ==> Concluded(r.value) && (r.value.Completed? <==> Full(plan, entries))
      ensures r.Success? && r.value.Partial? ==> summary == old(summary)
      ensures r.Failure? ==> r.error == Crashed || (r.error == RosterDrifted && !Ordered(plan))
      ensures Full(plan, entries) && !Ordered(plan) ==> r == Failure(RosterDrifted)
      ensures old(left) >= 2 && (Full(plan, entries) ==> Ordered(plan)) ==> r.Success?
    {
      EntriesCount(plan, files, entries);
      if |entries| < |plan.shards| {
        r := Report(entries);
      } else {
        r := Finish(entries);
      }
    }

    /** A completed call has the digests of an uninterrupted pass, a partial one the shards with entries. */
    ghost predicate Concluded(o: Outcome)
      reads this
    {
      if o.Completed? then Reaches(plan, o.summary) && summary == Some(o.summary) && o.records == Reduced(plan)
      else Unfinished(plan, Entries(), o)
    }

    /** The call once its missing shards are known. */
    method Resume(entries: map<int, Entry>, missing: set<int>, workers: nat) returns (r: Result<Outcome, Fault>)
      requires Valid() && EntriesOk(plan, files, entries)
      requires forall i :: i in missing ==> 0 <= i < |plan.shards| && i !in entries
      modifies this
      ensures Valid() && (summary == old(summary) || (summary.Some? && Whole()))
      ensures state == old(state) || Grown(entries, missing, state)
      ensures r.Success? ==> Concluded(r.value) && (r.value.Completed? <==> Covers(|plan.shards|, entries, missing))
      ensures r.Success? && r.value.Partial? ==> summary == old(summary)
      ensures r.Failure? ==> r.error == Crashed || (r.error == TooLarge && exists i :: Oversized(i))
                             || (r.error == RosterDrifted && !Ordered(plan))
      ensures Covers(|plan.shards|, entries, missing) && !Ordered(plan) ==> r.Failure?
      ensures old(left) >= 2 * |missing| + 3 && (forall i :: i in missing ==> !Oversized(i)) ==>
                if Covers(|plan.shards|, entries, missing) && !Ordered(plan) then r == Failure(RosterDrifted)
                else r.Success?
      ensures r.Success? && r.value.Completed? ==> Whole()
    {
      var advanced := Advance(entries, missing, workers);
      if advanced.Failure? {
        return Failure(advanced.error);
      }
      GrownCovers(plan, entries, missing, advanced.value);
      r := Close(advanced.value);
    }

    /** The outcome of a call that leaves shards missing. */
    method Report(entries: map<int, Entry>) returns (r: Result<Outcome, Fault>)
      requires Valid() && EntriesOk(plan, files, entries) && exists i :: 0 <= i < |plan.shards| && i !in entries
      ensures r.Success? && r.value.Partial? && Unfinished(plan, entries, r.value)
    {
      EntriesCount(plan, files, entries);
      var indices := Graphs.SortedSet(entries.Keys, |plan.shards|);
      Graphs.SortedSetSorts(entries.Keys, |plan.shards|);
      assert forall i :: 0 <= i < |indices| ==> indices[i] in indices;
      var records := LoadRecords(entries, indices);
      r := Success(Partial(indices, Sort(records.value, RecordLeq)));
    }

    /** A call that finds no summary: it completes the shards it was asked for. */
    method Run(requested: Option<seq<int>>, entries: map<int, Entry>, workers: nat) returns (r: Result<Outcome, Fault>)
      requires Valid() && EntriesOk(plan, files, entries)
      modifies this
      ensures Valid() && (summary == old(summary) || (summary.Some? && Whole()))
      ensures state == old(state) || Grown(entries, Wanted(requested), state)
      ensures r.Success? ==>
              Concluded(r.value) && (r.value.Completed? <==> Covers(|plan.shards|, entries, Wanted(requested)))
      ensures r.Success? ==> if r.value.Completed? then Whole() else summary == old(summary)
      ensures r.Failure? ==> r.error == Crashed || (r.error == BadIndex && !InLayout(requested))
                             || (r.error == TooLarge && exists i :: Oversized(i))
                                || (r.error == RosterDrifted && !Ordered(plan))
      ensures Covers(|plan.shards|, entries, Wanted(requested)) && !Ordered(plan) ==> r.Failure?
      ensures old(left) >= 2 * |plan.shards| + 3 && InLayout(requested) && (forall i :: !Oversized(i)) ==>
                if Covers(|plan.shards|, entries, Wanted(requested)) && !Ordered(plan) then r == Failure(RosterDrifted)
                else r.Success?
    {
      var wanted := Wanted(requested);
      if exists i :: i in wanted && !(0 <= i < |plan.shards|) {
        return Failure(BadIndex);
      }
      CheckEntries(entries);
      var missing := set i | i in wanted && i !in entries;
      MissingBound(missing, |plan.shards|);
      CoversRest(|plan.shards|, entries, wanted, missing);
      r := Resume(entries, missing, workers);
    }

    /**
      One call. The process may stop after any write. A resumed call keeps every entry it finds, evaluates only
      shards without one, and fails on a finished pass only when the state has lost entries. A roster that is not in
      the order of its identifiers never completes.
     */
    method Execute(requested: Option<seq<int>>, workers: nat, resume: bool, writes: nat)
      returns (r: Result<Outcome, Fault>)
      requires Valid()
      modifies this
      ensures Valid()
      ensures resume ==> Keeps(old(Entries()), Entries())
      ensures state == old(state) || Grown(if resume then old(Entries()) else map[], Wanted(requested), state)
      ensures resume && old(Whole()) ==> Whole()
      ensures r.Success? && r.value.Completed? ==> Reaches(plan, r.value.summary) && summary == Some(r.value.summary)
                                                   && multiset(r.value.records) == multiset(Reduced(plan))
      ensures r.Success? && r.value.Partial? ==> Unfinished(plan, Entries(), r.value) && summary == old(summary)
      ensures resume && old(summary.Some?) ==> (r.Success? <==> old(Whole())) && (r.Failure? ==> r.error == NoEntry)
                                               && files == old(files) && state == old(state) && summary == old(summary)
      ensures !(resume && old(summary.Some?)) && r.Failure? ==>
                r.error == Crashed || (r.error == BadIndex && !InLayout(requested))
                || (r.error == TooLarge && exists i :: Oversized(i)) || (r.error == RosterDrifted && !Ordered(plan))
      ensures !(resume && old(summary.Some?)) && r.Success? ==>
                (r.value.Completed? <==>
                 Covers(|plan.shards|, if resume then old(Entries()) else map[], Wanted(requested)))
      ensures !Ordered(plan) ==> summary.None? && (r.Success? ==> r.value.Partial?)
      ensures writes >= 2 * |plan.shards| + 3 && InLayout(requested) && !(resume && old(summary.Some?))
              && (forall i :: !Oversized(i)) ==>
                if Covers(|plan.shards|, if resume then old(Entries()) else map[], Wanted(requested)) && !Ordered(plan)
                then r == Failure(RosterDrifted) else r.Success?
      ensures writes >= 2 * |plan.shards| + 3 && requested == None && (forall i :: !Oversized(i)) && Ordered(plan)
              && (resume ==> old(Whole())) ==>
                r.Success? && r.value.Completed?
    {
      left := writes;
      var entries := if resume then Entries() else map[];
      if summary.Some? && resume {
        assert state.None? ==> 0 !in entries;
        r := Finished(entries);
        SortPermutes(RecordsOf(plan, Indices(|plan.shards|)), RecordLeq);
      } else {
        r := Run(requested, entries, workers);
      }
    }

    /**
      Any sequence of resumed calls, each for any shards, with any number of workers and stopped after any write,
      followed by a call that runs to the end: the digests are those of an uninterrupted pass.
     */
    method AnyRun(calls: seq<Call>, workers: nat) returns (o: Outcome)
      requires Valid() && Whole() && Ordered(plan) && forall i :: !Oversized(i)
      modifies this
      ensures Valid() && o.Completed? && Reaches(plan, o.summary) && multiset(o.records) == multiset(Reduced(plan))
    {
      for i := 0 to |calls|
        invariant Valid() && Whole() && forall i :: !Oversized(i)
      {
        var ignored := Execute(calls[i].requested, calls[i].workers, true, calls[i].writes);
      }
      var r := Execute(None, workers, true, 2 * |plan.shards| + 3);
      o := r.value;
    }

    /**
      A call that does not resume may forget entries of a finished pass: after a fresh call for shard 0 alone,
      every resumed call fails although nothing was lost but the entries.
     */
    method ForgottenEntries(writes: nat) returns (r: Result<Outcome, Fault>)
      requires Valid() && summary.Some? && forall i :: !Oversized(i)
      modifies this
      ensures Valid() && r == Failure(NoEntry) && summary == old(summary)
    {
      assert 1 !in Wanted(Some([0]));
      var partial := Execute(Some([0]), 1, false, 2 * |plan.shards| + 3);
      r := Execute(None, 1, true, writes);
    }

    /** Every entry of the state is read back before anything is resumed; none of the checks can fail. */
    method CheckEntries(entries: map<int, Entry>)
      requires Valid() && EntriesOk(plan, files, entries)
    {
      var todo := entries.Keys;
      while todo != {}
        invariant todo <= entries.Keys
        decreases todo
      {
        ghost var some := Graphs.Member(todo);
        var index :| index in todo;
        ReadsBack(plan, files, index, entries[index]);
        var read := ReadShard(plan, files, entries[index], ShardIds(plan, index));
        assert read.Success?;
        todo := todo - {index};
      }
    }
  }

  ghost predicate Full(plan: Plan, entries: map<int, Entry>) {
    forall i :: 0 <= i < |plan.shards| ==> i in entries
  }

  /** The old entries are kept and only missing shards are added. */
  ghost predicate Grown(entries: map<int, Entry>, missing: set<int>, state: Option<map<int, Entry>>) {
    state.Some? && Keeps(entries, state.value) && OnlyAdds(entries, missing, state.value)
  }

  lemma GrownCovers(plan: Plan, entries: map<int, Entry>, missing: set<int>, after: map<int, Entry>)
    requires Grown(entries, missing, Some(after)) && forall i :: i in missing ==> i in after
    ensures Full(plan, after) <==> Covers(|plan.shards|, entries, missing)
  {}

  /** Every entry was there before or is for a shard that was asked for. */
  ghost predicate OnlyAdds(before: map<int, Entry>, wanted: set<int>, after: map<int, Entry>) {
    forall i :: i in after ==> i in before || i in wanted
  }

  /** Every shard has an entry or is asked for. */
  ghost predicate Covers(n: nat, entries: map<int, Entry>, wanted: set<int>) {
    forall i :: 0 <= i < n ==> i in entries || i in wanted
  }

  lemma CoversRest(n: nat, entries: map<int, Entry>, wanted: set<int>, missing: set<int>)
    requires forall i :: i in missing <==> i in wanted && i !in entries
    ensures Covers(n, entries, missing) <==> Covers(n, entries, wanted)
  {}

  ghost predicate Keeps(before: map<int, Entry>, after: map<int, Entry>) {
    forall i :: i in before ==> i in after && after[i] == before[i]
  }

  /** A partial outcome names the completed shards and holds their records, while some shard is missing. */
  ghost predicate Unfinished(plan: Plan, entries: map<int, Entry>, o: Outcome)
    requires o.Partial?
  {
    && (forall i :: i in o.done <==> i in entries) && Graphs.Ascending(o.done)
    && (forall k :: 0 <= k < |o.done| ==> 0 <= o.done[k] < |plan.shards|)
    && o.records == Sort(RecordsOf(plan, o.done), RecordLeq)
    && exists i :: 0 <= i < |plan.shards| && i !in entries
  }

  lemma EntriesCount(plan: Plan, files: map<int, seq<Record>>, entries: map<int, Entry>)
    requires EntriesOk(plan, files, entries)
    ensures |entries| < |plan.shards| <==> exists i :: 0 <= i < |plan.shards| && i !in entries
    ensures forall i :: i in entries ==> 0 <= i < |plan.shards|
  {
    assert forall i :: i in entries ==> EntryOk(plan, files, i, entries[i]);
    KeysCount(entries.Keys, |plan.shards|);
  }

  lemma KeysCount(keys: set<int>, n: nat)
    requires forall i :: i in keys ==> 0 <= i < n
    ensures |keys| < n <==> exists i :: 0 <= i < n && i !in keys
  {
    var all := Graphs.UpTo(n);
    Graphs.SubsetCount(keys, all);
    if |keys| < n {
      assert keys != all;
      assert !(all <= keys);
      var i :| i in all && i !in keys;
    }
  }

  lemma MissingBound(missing: set<int>, n: nat)
    requires forall i :: i in missing ==> 0 <= i < n
    ensures |missing| <= n
  {
    Graphs.SubsetCount(missing, Graphs.UpTo(n));
  }
}
