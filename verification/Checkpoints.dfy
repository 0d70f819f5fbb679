/** The append-only hash chain of experiment checkpoints. */
module Checkpoints {
  import opened Wrappers
  import opened Sorting
  import Graphs
  import Arithmetic
  import Colors
  import Manifests

  datatype Json = Null | Boolean(flag: bool) | Number(value: int) | Text(text: string) | Compound(source: string)

  type Object = map<string, Json>

  type Digest = string

  /** The hash of an object, and int() of a text. */
  datatype Python = Python(digest: Object -> Digest, parse: string -> Option<int>)

  const SCHEMA := "mforge.experiment.checkpoint.v2"

  datatype File = Unreadable | NotAnObject | Holds(content: Object)

  datatype Error = CannotRead | NotObject | NotAnInteger | GapOrDuplicate | WrongSchema | WrongPredecessor
                 | HashMismatch | UnsupportedSchema | NotAppendOnly | AlreadyExists

  function Get(o: Object, key: string): Json {
    if key in o then o[key] else Null
  }

  /** What a JSON value is in arithmetic; None where Python raises. */
  function Numeric(j: Json): Option<int> {
    match j
    case Boolean(b) => Some(if b then 1 else 0)
    case Number(v) => Some(v)
    case _ => None
  }

  /** int(value.get("sequence", 0)); None where Python raises. */
  function SequenceOf(py: Python, o: Object): Option<int> {
    if "sequence" !in o then Some(0)
    else if o["sequence"].Text? then py.parse(o["sequence"].text)
    else Numeric(o["sequence"])
  }

  function Unsigned(o: Object): Object {
    o - {"checkpoint_sha256"}
  }

  // --- Valid chains -------------------------------------------------------------------------

  function PreviousHash(values: seq<Object>, i: nat): Json
    requires i <= |values|
  {
    if i == 0 then Null else Get(values[i - 1], "checkpoint_sha256")
  }

  /** Entry i has the next sequence number, cites the hash of its predecessor and carries its own. */
  ghost predicate ValidLink(py: Python, values: seq<Object>, i: nat)
    requires i < |values|
  {
    && SequenceOf(py, values[i]) == Some(i + 1)
    && Get(values[i], "schema_version") == Text(SCHEMA)
    && Get(values[i], "previous_sha256") == PreviousHash(values, i)
    && Get(values[i], "checkpoint_sha256") == Text(py.digest(Unsigned(values[i])))
  }

  ghost predicate ValidChain(py: Python, values: seq<Object>) {
    forall i :: 0 <= i < |values| ==> ValidLink(py, values, i)
  }

  ghost predicate Injective(py: Python) {
    forall a, b :: py.digest(a) == py.digest(b) ==> a == b
  }

  /** After i valid entries the next one breaks the chain, and this is the first check it fails. */
  ghost predicate BreaksAt(py: Python, values: seq<Object>, i: nat, error: Error) {
    && i < |values| && ValidChain(py, values[..i])
    && var value, sequence := values[i], SequenceOf(py, values[i]);
       var schema, previous := Get(value, "schema_version"), Get(value, "previous_sha256");
       match error
       case NotAnInteger => sequence == None
       case GapOrDuplicate => sequence.Some? && sequence != Some(i + 1)
       case WrongSchema => sequence == Some(i + 1) && schema != Text(SCHEMA)
       case WrongPredecessor =>
         sequence == Some(i + 1) && schema == Text(SCHEMA) && previous != PreviousHash(values, i)
       case HashMismatch =>
         sequence == Some(i + 1) && schema == Text(SCHEMA) && previous == PreviousHash(values, i)
         && Get(value, "checkpoint_sha256") != Text(py.digest(Unsigned(value)))
       case _ => false
  }

  lemma PrefixValid(py: Python, values: seq<Object>, i: nat)
    requires i <= |values| && forall j :: 0 <= j < i ==> ValidLink(py, values, j)
    ensures ValidChain(py, values[..i])
  {
    forall j | 0 <= j < i ensures ValidLink(py, values[..i], j) {
      assert ValidLink(py, values, j);
    }
  }

  /** The verification loop, which carries the hash of the previous entry. */
  method Verify(py: Python, values: seq<Object>) returns (error: Option<Error>)
    ensures error.None? <==> ValidChain(py, values)
    ensures error.Some? ==> exists i: nat :: BreaksAt(py, values, i, error.value)
  {
    var previous := Null;
    for i := 0 to |values|
      invariant forall j :: 0 <= j < i ==> ValidLink(py, values, j)
      invariant previous == PreviousHash(values, i)
    {
      var value := values[i];
      PrefixValid(py, values, i);
      if SequenceOf(py, value).None? {
        assert !ValidLink(py, values, i);
        assert BreaksAt(py, values, i, NotAnInteger);
        return Some(NotAnInteger);
      }
      if SequenceOf(py, value).value != i + 1 {
        assert !ValidLink(py, values, i);
        assert BreaksAt(py, values, i, GapOrDuplicate);
        return Some(GapOrDuplicate);
      }
      if Get(value, "schema_version") != Text(SCHEMA) {
        assert !ValidLink(py, values, i);
        assert BreaksAt(py, values, i, WrongSchema);
        return Some(WrongSchema);
      }
      if Get(value, "previous_sha256") != previous {
        assert !ValidLink(py, values, i);
        assert BreaksAt(py, values, i, WrongPredecessor);
        return Some(WrongPredecessor);
      }
      if Get(value, "checkpoint_sha256") != Text(py.digest(Unsigned(value))) {
        assert !ValidLink(py, values, i);
        assert BreaksAt(py, values, i, HashMismatch);
        return Some(HashMismatch);
      }
      previous := Get(value, "checkpoint_sha256");
    }
    error := None;
  }

  /** An object is what it says without its hash, together with its hash. */
  lemma SignedEqual(a: Object, b: Object)
    requires Unsigned(a) == Unsigned(b) && "checkpoint_sha256" in a && "checkpoint_sha256" in b
    requires a["checkpoint_sha256"] == b["checkpoint_sha256"]
    ensures a == b
  {
    forall k ensures k in a <==> k in b {
      assert k != "checkpoint_sha256" ==> (k in a <==> k in Unsigned(a)) && (k in b <==> k in Unsigned(b));
    }
    forall k | k in a ensures a[k] == b[k] {
      assert k != "checkpoint_sha256" ==> Unsigned(a)[k] == a[k] && Unsigned(b)[k] == b[k];
    }
  }

  /** With an injective digest, entries with the same hash are equal. */
  lemma SameHashSameEntry(py: Python, a: seq<Object>, i: nat, b: seq<Object>, j: nat)
    requires Injective(py) && i < |a| && j < |b| && ValidLink(py, a, i) && ValidLink(py, b, j)
    requires Get(a[i], "checkpoint_sha256") == Get(b[j], "checkpoint_sha256")
    ensures a[i] == b[j] && i == j
  {
    SignedEqual(a[i], b[j]);
  }

  /** The last hash of a chain determines the whole chain: any change to any entry changes it. */
  lemma {:induction false} LastHashDetermines(py: Python, a: seq<Object>, b: seq<Object>)
    requires Injective(py) && ValidChain(py, a) && ValidChain(py, b) && a != [] && b != []
    requires Get(a[|a| - 1], "checkpoint_sha256") == Get(b[|b| - 1], "checkpoint_sha256")
    ensures a == b
    decreases |a|
  {
    var n := |a| - 1;
    assert ValidLink(py, a, n) && ValidLink(py, b, |b| - 1);
    SameHashSameEntry(py, a, n, b, |b| - 1);
    if n > 0 {
      ChainPrefix(py, a, n);
      ChainPrefix(py, b, n);
      LastHashDetermines(py, a[..n], b[..n]);
    }
    assert a == a[..n] + [a[n]] && b == b[..n] + [b[n]];
  }

  lemma ChainPrefix(py: Python, values: seq<Object>, n: nat)
    requires ValidChain(py, values) && n <= |values|
    ensures ValidChain(py, values[..n])
  {
    forall i | 0 <= i < n ensures ValidLink(py, values[..n], i) {
      assert ValidLink(py, values, i);
    }
  }

  // --- Listing a directory ------------------------------------------------------------------

  type Directory = map<int, File>

  function ObjectAt(files: Directory): int -> Object {
    (name: int) => if name in files && files[name].Holds? then files[name].content else map[]
  }

  function Key(py: Python, files: Directory, name: int): int {
    var s := SequenceOf(py, ObjectAt(files)(name));
    if s.Some? then s.value else 0
  }

  /** The files by sequence number, and by name where that does not decide. */
  function BySequence(py: Python, files: Directory): (int, int) -> bool {
    (a: int, b: int) => Key(py, files, a) < Key(py, files, b) || (Key(py, files, a) == Key(py, files, b) && a <= b)
  }

  lemma BySequenceOrder(py: Python, files: Directory)
    ensures TotalOrder(BySequence(py, files))
  {}

  /** The names are exactly those in the directory, each once. */
  ghost predicate Covers(names: seq<int>, files: Directory) {
    Graphs.Distinct(names) && forall n :: n in names <==> n in files
  }

  /** The entries of a directory all of whose files hold objects, in some order of its names. */
  ghost predicate Lists(files: Directory, names: seq<int>, values: seq<Object>) {
    && Covers(names, files) && (forall n :: n in files ==> files[n].Holds?)
    && values == Map(ObjectAt(files), names)
  }

  /** The directory holds a valid chain and nothing else. */
  ghost predicate HoldsChain(py: Python, files: Directory, values: seq<Object>) {
    ValidChain(py, values) && exists names :: Lists(files, names, values)
  }

  /** The names of a valid chain are in the order of their sequence numbers. */
  lemma ChainSorted(py: Python, files: Directory, names: seq<int>, values: seq<Object>)
    requires ValidChain(py, values) && Lists(files, names, values)
    ensures Sorted(names, BySequence(py, files))
  {
    forall i, j | 0 <= i < j < |names| ensures Key(py, files, names[i]) < Key(py, files, names[j]) {
      assert ValidLink(py, values, i) && ValidLink(py, values, j);
    }
  }

  /** A directory holds at most one valid chain: sorting its names finds it if there is one. */
  lemma ChainFound(py: Python, files: Directory, names: seq<int>, values: seq<Object>, found: seq<int>)
    requires ValidChain(py, values) && Lists(files, names, values)
    requires Covers(found, files) && Sorted(found, BySequence(py, files))
    ensures found == names
  {
    BySequenceOrder(py, files);
    ChainSorted(py, files, names, values);
    forall n ensures n in names <==> n in found {
      assert n in names <==> n in files;
    }
    Graphs.SameElements(names, found);
    SortedUnique(names, found, BySequence(py, files));
  }

  lemma SortCovers(py: Python, files: Directory, names: seq<int>)
    requires Covers(names, files)
    ensures Covers(Sort(names, BySequence(py, files)), files)
            && Sorted(Sort(names, BySequence(py, files)), BySequence(py, files))
  {
    var sorted := Sort(names, BySequence(py, files));
    BySequenceOrder(py, files);
    SortSorts(names, BySequence(py, files));
    SortPermutes(names, BySequence(py, files));
    forall n ensures n in sorted <==> n in names {
      assert n in multiset(sorted) <==> n in multiset(names);
    }
    Graphs.DistinctPermuted(names, sorted);
  }

  // --- The store ----------------------------------------------------------------------------

  /** The schema of a value to save is absent or the supported one. */
  predicate SchemaOk(value: Object) {
    Get(value, "schema_version") == Null || Get(value, "schema_version") == Text(SCHEMA)
  }

  /** The sequence number of the new entry after n entries: the supplied one unless it is missing or zero. */
  function NextSequence(py: Python, value: Object, n: nat): Option<int> {
    var s := SequenceOf(py, value);
    if s.None? then None else if s.value == 0 then Some(n + 1) else s
  }

  function PyStr(j: Json): string {
    match j
    case Null => "None"
    case Boolean(b) => if b then "True" else "False"
    case Number(v) => if v < 0 then "-" + Colors.Decimal(-v) else Colors.Decimal(v)
    case Text(t) => t
    case Compound(t) => t
  }

  function DefaultId(sequence: int): string {
    if sequence < 0 then "checkpoint--" + Colors.Zeros(Colors.Decimal(-sequence), 11)
    else "checkpoint-" + Colors.Zeros(Colors.Decimal(sequence), 12)
  }

  predicate Falsy(j: Json)
    ensures j.Text? ==> (Falsy(j) <==> j.text == "")
  {
    j == Null || j == Boolean(false) || j == Number(0) || j == Text("")
  }

  /** The entry before it is signed. */
  function Draft(value: Object, sequence: int, previous: Json, now: string): Object {
    var o := value["schema_version" := Text(SCHEMA)]["sequence" := Number(sequence)]
                  ["created_at" := Text(if "created_at" in value then PyStr(value["created_at"]) else now)]
                  ["previous_sha256" := previous];
    var id := if Falsy(Get(o, "checkpoint_id")) then DefaultId(sequence) else PyStr(o["checkpoint_id"]);
    o["checkpoint_id" := Text(id)]
  }

  /** The entry as it is written. */
  function Signed(py: Python, draft: Object): Object {
    draft["checkpoint_sha256" := Text(py.digest(draft))]
  }

  /** The signed entry verifies exactly when the draft carried no hash of its own. */
  lemma SignedVerifies(py: Python, draft: Object)
    requires Injective(py)
    ensures Get(Signed(py, draft), "checkpoint_sha256") == Text(py.digest(Unsigned(Signed(py, draft))))
            <==> "checkpoint_sha256" !in draft
  {
    var u := Unsigned(Signed(py, draft));
    if "checkpoint_sha256" !in draft {
      assert u == draft;
    } else {
      assert "checkpoint_sha256" !in u && u != draft;
    }
  }

  /** What keeps the chain valid: the caller gives no hash, and no sequence number but 0 or the next one. */
  predicate InStep(py: Python, value: Object, n: nat) {
    "checkpoint_sha256" !in value && (SequenceOf(py, value) == Some(0) || SequenceOf(py, value) == Some(n + 1))
  }

  // --- What an entry holds ------------------------------------------------------------------

  const OWN_FIELDS :=
    {"schema_version", "sequence", "created_at", "previous_sha256", "checkpoint_id", "checkpoint_sha256"}

  /**
    The entry of a value: everything the caller gave, under the six fields of the chain. The hash is that of the
    entry without it, or with the one the caller gave in its place.
   */
  ghost predicate Fills(py: Python, value: Object, payload: Object, sequence: int, previous: Json, now: string) {
    && payload.Keys == value.Keys + OWN_FIELDS
    && (forall k :: k in value && k !in OWN_FIELDS ==> payload[k] == value[k])
    && payload["schema_version"] == Text(SCHEMA) && payload["sequence"] == Number(sequence)
    && payload["previous_sha256"] == previous
    && payload["created_at"] == (if "created_at" in value then AsText(value["created_at"]) else Text(now))
    && payload["checkpoint_id"]
       == (if "checkpoint_id" in value && !Falsy(value["checkpoint_id"]) then AsText(value["checkpoint_id"])
           else Text(DefaultId(sequence)))
    && payload["checkpoint_sha256"] == Text(py.digest(Hashed(value, payload)))
  }

  /** A text stays what it is; anything else becomes its str. */
  function AsText(j: Json): (r: Json)
    ensures j.Text? ==> r == j
  {
    Text(PyStr(j))
  }

  /** What the hash of an entry is taken of. */
  function Hashed(value: Object, payload: Object): Object {
    if "checkpoint_sha256" in value then payload["checkpoint_sha256" := value["checkpoint_sha256"]]
    else Unsigned(payload)
  }

  lemma SignedFills(py: Python, value: Object, sequence: int, previous: Json, now: string)
    ensures Fills(py, value, Signed(py, Draft(value, sequence, previous, now)), sequence, previous, now)
  {
    var draft := Draft(value, sequence, previous, now);
    var payload := Signed(py, draft);
    DraftKeys(value, sequence, previous, now);
    assert Hashed(value, payload) == draft;
  }

  lemma DraftKeys(value: Object, sequence: int, previous: Json, now: string)
    ensures Draft(value, sequence, previous, now).Keys == value.Keys + (OWN_FIELDS - {"checkpoint_sha256"})
    ensures forall k :: k in value && (k !in OWN_FIELDS || k == "checkpoint_sha256") ==>
                          Draft(value, sequence, previous, now)[k] == value[k]
  {}

  /** The callers' values agree outside the fields that the chain writes itself. */
  ghost predicate Agree(a: Object, b: Object) {
    forall k :: k !in OWN_FIELDS || k == "checkpoint_sha256" ==>
      (k in a <==> k in b) && (k in a && k in b ==> a[k] == b[k])
  }

  /**
    With an injective digest, entries have the same hash exactly when their callers' values agree and the chain wrote
    the same fields.
   */
  lemma SameHashWhen(py: Python, a: Object, p: Object, s: int, x: Json, m: string, b: Object, q: Object, t: int,
                     y: Json, n: string)
    requires Injective(py) && Fills(py, a, p, s, x, m) && Fills(py, b, q, t, y, n)
    ensures p["checkpoint_sha256"] == q["checkpoint_sha256"]
            <==> Agree(a, b) && s == t && x == y && p["created_at"] == q["created_at"]
                 && p["checkpoint_id"] == q["checkpoint_id"]
  {
    assert OwnFields(a, p) && OwnFields(b, q) by {
      HashedFields(a, p);
      HashedFields(b, q);
    }
    assert p["checkpoint_sha256"] == q["checkpoint_sha256"] <==> Hashed(a, p) == Hashed(b, q);
    SameFields(a, p, b, q);
  }

  /** What is hashed agrees exactly when the callers' values and the fields of the chain do. */
  lemma SameFields(a: Object, p: Object, b: Object, q: Object)
    requires OwnFields(a, p) && OwnFields(b, q)
    ensures Hashed(a, p) == Hashed(b, q)
       <==> Agree(a, b) && forall k :: k in OWN_FIELDS && k != "checkpoint_sha256" ==> p[k] == q[k]
  {
    if Hashed(a, p) == Hashed(b, q) {
      HashedAgree(a, p, b, q);
    }
    if Agree(a, b) && forall k :: k in OWN_FIELDS && k != "checkpoint_sha256" ==> p[k] == q[k] {
      AgreedHashed(a, p, b, q);
    }
  }

  ghost predicate OwnFields(a: Object, p: Object) {
    && p.Keys == a.Keys + OWN_FIELDS
    && (forall k :: k !in OWN_FIELDS || k == "checkpoint_sha256" ==>
                      (k in Hashed(a, p) <==> k in a) && (k in a ==> Hashed(a, p)[k] == a[k]))
    && forall k :: k in OWN_FIELDS && k != "checkpoint_sha256" ==> k in Hashed(a, p) && Hashed(a, p)[k] == p[k]
  }

  lemma HashedAgree(a: Object, p: Object, b: Object, q: Object)
    requires OwnFields(a, p) && OwnFields(b, q) && Hashed(a, p) == Hashed(b, q)
    ensures Agree(a, b) && forall k :: k in OWN_FIELDS && k != "checkpoint_sha256" ==> p[k] == q[k]
  {
    forall k | k !in OWN_FIELDS || k == "checkpoint_sha256"
      ensures (k in a <==> k in b) && (k in a && k in b ==> a[k] == b[k])
    {
      assert k in Hashed(a, p) <==> k in Hashed(b, q);
    }
  }

  lemma AgreedHashed(a: Object, p: Object, b: Object, q: Object)
    requires OwnFields(a, p) && OwnFields(b, q) && Agree(a, b)
    requires forall k :: k in OWN_FIELDS && k != "checkpoint_sha256" ==> p[k] == q[k]
    ensures Hashed(a, p) == Hashed(b, q)
  {
    var c, d := Hashed(a, p), Hashed(b, q);
    forall k ensures (k in c <==> k in d) && (k in c && k in d ==> c[k] == d[k]) {}
  }

  /** What is hashed holds the caller's value, with a hash exactly if the caller gave one, and the other own fields. */
  lemma HashedFields(a: Object, p: Object)
    requires p.Keys == a.Keys + OWN_FIELDS && forall k :: k in a && k !in OWN_FIELDS ==> p[k] == a[k]
    ensures OwnFields(a, p)
  {}

  /** Default identifiers of up to twelve digits are in the order of their numbers. */
  lemma DefaultIdOrder(m: nat, n: nat)
    requires m < Arithmetic.Power(10, 12) && n < Arithmetic.Power(10, 12)
    ensures StringLeq(DefaultId(m), DefaultId(n)) <==> m <= n
    ensures |DefaultId(m)| == 23
  {
    Manifests.LabelledOrder("checkpoint-", m, n, 12, "", "");
    Manifests.FixedInStep(m, n, 12);
    Manifests.PaddedDigits(m, 12);
    Manifests.PaddedFits(m, 12, 12);
    assert DefaultId(m) == "checkpoint-" + Manifests.Padded(m, 12) + "";
    assert DefaultId(n) == "checkpoint-" + Manifests.Padded(n, 12) + "";
  }

  /** The extended chain is valid exactly when the caller gave no hash and no out-of-step sequence number. */
  lemma ExtendedChain(py: Python, values: seq<Object>, value: Object, sequence: int, now: string)
    requires Injective(py) && ValidChain(py, values) && NextSequence(py, value, |values|) == Some(sequence)
    ensures ValidChain(py, values + [Signed(py, Draft(value, sequence, PreviousHash(values, |values|), now))])
            <==> InStep(py, value, |values|)
  {
    var n := |values|;
    var draft := Draft(value, sequence, PreviousHash(values, n), now);
    var extended := values + [Signed(py, draft)];
    SignedVerifies(py, draft);
    forall i | 0 <= i < n ensures ValidLink(py, extended, i) {
      assert ValidLink(py, values, i);
    }
    assert extended[n] == Signed(py, draft);
    assert SequenceOf(py, extended[n]) == Some(sequence);
    assert ValidLink(py, extended, n) <==> InStep(py, value, n);
  }

  class CheckpointStore {
    const py: Python
    // The files by the sequence number in their names.
    var files: Directory

    constructor (py: Python)
      ensures this.py == py && files == map[]
    {
      this.py := py;
      files := map[];
    }

    /** The verified chain; it fails exactly when the directory is not a valid chain. */
    method List() returns (r: Result<seq<Object>, Error>)
      ensures r.Success? ==> HoldsChain(py, files, r.value)
      ensures r.Failure? ==> forall values :: !HoldsChain(py, files, values)
    {
      var names: seq<int> := [];
      var todo := files.Keys;
      while todo != {}
        invariant todo <= files.Keys
        invariant Graphs.Distinct(names) && forall n :: n in names <==> n in files && n !in todo
        invariant forall n :: n in names ==> files[n].Holds? && SequenceOf(py, files[n].content).Some?
        decreases todo
      {
        ghost var some := Graphs.Member(todo);
        var name :| name in todo;
        if !files[name].Holds? {
          return Failure(if files[name].Unreadable? then CannotRead else NotObject);
        }
        if SequenceOf(py, files[name].content).None? {
          NoSequenceNoChain(py, files, name);
          return Failure(NotAnInteger);
        }
        names := names + [name];
        todo := todo - {name};
      }
      var sorted := Sort(names, BySequence(py, files));
      SortCovers(py, files, names);
      var values := Map(ObjectAt(files), sorted);
      var error := Verify(py, values);
      if error.Some? {
        forall others: seq<Object> ensures !HoldsChain(py, files, others) {
          if HoldsChain(py, files, others) {
            var ns :| Lists(files, ns, others);
            ChainFound(py, files, ns, others, sorted);
          }
        }
        return Failure(error.value);
      }
      assert Lists(files, sorted, values);
      r := Success(values);
    }

    /**
      Appends one entry, or changes nothing. A directory that is not a valid chain is never appended to. The
      old files stay as they are; the new directory is a valid chain exactly when the caller gave neither a
      hash nor an out-of-step sequence number, and then the chain is the old one and the new entry.
     */
    method Save(value: Object, now: string) returns (r: Result<Object, Error>)
      requires Injective(py)
      modifies this
      ensures r.Failure? ==> files == old(files)
      ensures r.Success? ==> exists values :: HoldsChain(py, old(files), values)
                                              && Saves(py, old(files), files, values, value, r.value, now)
      ensures forall values :: HoldsChain(py, old(files), values) ==>
              (r.Success? <==> Accepts(py, old(files), values, value))
    {
      var existing := List();
      if existing.Failure? {
        return Failure(existing.error);
      }
      var values := existing.value;
      OneChain(py, files, values);
      var sequence := Admit(values, value);
      if sequence.Failure? {
        return Failure(sequence.error);
      }
      var payload := Signed(py, Draft(value, sequence.value, PreviousHash(values, |values|), now));
      SavedChain(py, files, values, value, sequence.value, now);
      files := files[sequence.value := Holds(payload)];
      r := Success(payload);
    }

    /** The guards of save, in their order, and the sequence number they let through. */
    method Admit(values: seq<Object>, value: Object) returns (r: Result<int, Error>)
      requires ValidChain(py, values)
      ensures r.Success? <==> Accepts(py, files, values, value)
      ensures r.Success? ==> NextSequence(py, value, |values|) == Some(r.value)
    {
      if !SchemaOk(value) {
        return Failure(UnsupportedSchema);
      }
      var sequence := NextSequence(py, value, |values|);
      if sequence.None? {
        return Failure(NotAnInteger);
      }
      if values != [] {
        assert ValidLink(py, values, |values| - 1);
        if Numeric(Get(values[|values| - 1], "sequence")).None? {
          return Failure(NotAnInteger);
        }
      }
      if values != [] && sequence.value <= Numeric(Get(values[|values| - 1], "sequence")).value {
        return Failure(NotAppendOnly);
      }
      if sequence.value in files {
        return Failure(AlreadyExists);
      }
      r := Success(sequence.value);
    }

    method Latest() returns (r: Result<Option<Object>, Error>)
      ensures r.Success? ==> exists values :: HoldsChain(py, files, values)
                                              && r.value == if values == [] then None else Some(values[|values| - 1])
      ensures r.Failure? ==> forall values :: !HoldsChain(py, files, values)
    {
      var listed := List();
      if listed.Failure? {
        return Failure(listed.error);
      }
      r := Success(if listed.value == [] then None else Some(listed.value[|listed.value| - 1]));
    }
  }

  /** The guards of save on a directory with this chain. */
  predicate Accepts(py: Python, files: Directory, values: seq<Object>, value: Object) {
    && SchemaOk(value) && NextSequence(py, value, |values|).Some?
    && (values != [] ==> NextSequence(py, value, |values|).value > |values|
                         && Numeric(Get(values[|values| - 1], "sequence")).Some?)
    && NextSequence(py, value, |values|).value !in files
  }

  /** What a successful save leaves behind. */
  ghost predicate Saves(py: Python, before: Directory, after: Directory, values: seq<Object>, value: Object,
                        payload: Object, now: string)
  {
    && NextSequence(py, value, |values|).Some?
    && var s := NextSequence(py, value, |values|).value;
    && (SequenceOf(py, value) == Some(s) || (SequenceOf(py, value) == Some(0) && s == |values| + 1))
    && Fills(py, value, payload, s, PreviousHash(values, |values|), now)
    && s !in before && after == before[s := Holds(payload)]
    && (if InStep(py, value, |values|) then HoldsChain(py, after, values + [payload])
        else forall others :: !HoldsChain(py, after, others))
  }

  /** The chain of one entry. */
  method SaveFirst(value: Object, now: string, py: Python) returns (store: CheckpointStore, r: Result<Object, Error>)
    requires Injective(py) && SchemaOk(value) && NextSequence(py, value, 0).Some?
    ensures r.Success? && store.py == py
    ensures InStep(py, value, 0) <==> exists values :: HoldsChain(py, store.files, values)
  {
    store := new CheckpointStore(py);
    EmptyChain(py);
    OneChain(py, map[], []);
    r := store.Save(value, now);
  }

  lemma EmptyChain(py: Python)
    ensures HoldsChain(py, map[], [])
  {
    var files: Directory, names: seq<int>, values: seq<Object> := map[], [], [];
    assert Lists(files, names, values);
  }

  /** Saved as number 7 into an empty directory, a checkpoint is accepted and the directory no longer verifies. */
  method OutOfStep(now: string, py: Python) returns (store: CheckpointStore, listed: Result<seq<Object>, Error>)
    requires Injective(py)
    ensures store.files != map[] && listed.Failure?
  {
    var saved;
    store, saved := SaveFirst(map["sequence" := Number(7)], now, py);
    EmptyChain(py);
    listed := store.List();
  }

  /** A first entry that carries its sequence number as a text. */
  function TextualEntry(py: Python): Object {
    Signed(py, map["sequence" := Text("1"), "schema_version" := Text(SCHEMA), "previous_sha256" := Null])
  }

  lemma TextualChain(py: Python, files: Directory)
    requires Injective(py) && py.parse("1") == Some(1) && files == map[1 := Holds(TextualEntry(py))]
    ensures HoldsChain(py, files, [TextualEntry(py)])
  {
    var draft: Object := map["sequence" := Text("1"), "schema_version" := Text(SCHEMA), "previous_sha256" := Null];
    SignedVerifies(py, draft);
    assert ValidLink(py, [TextualEntry(py)], 0);
    assert Lists(files, [1], [TextualEntry(py)]);
  }

  /** A chain that verifies and that no call can extend, whatever it saves. */
  method TextualSequence(py: Python, value: Object, now: string)
    returns (store: CheckpointStore, listed: Result<seq<Object>, Error>, saved: Result<Object, Error>)
    requires Injective(py) && py.parse("1") == Some(1)
    ensures listed == Success([TextualEntry(py)]) && saved.Failure?
    ensures HoldsChain(py, store.files, [TextualEntry(py)])
  {
    store := new CheckpointStore(py);
    store.files := map[1 := Holds(TextualEntry(py))];
    TextualChain(py, store.files);
    OneChain(py, store.files, [TextualEntry(py)]);
    NeverAccepted(py, store.files, value);
    listed := store.List();
    saved := store.Save(value, now);
  }

  lemma NeverAccepted(py: Python, files: Directory, value: Object)
    ensures !Accepts(py, files, [TextualEntry(py)], value)
  {
    assert TextualEntry(py)["sequence"] == Text("1");
  }

  lemma OneChain(py: Python, files: Directory, values: seq<Object>)
    requires HoldsChain(py, files, values)
    ensures forall others :: HoldsChain(py, files, others) ==> others == values
  {
    var names :| Lists(files, names, values);
    ChainSorted(py, files, names, values);
    forall others: seq<Object> | HoldsChain(py, files, others) ensures others == values {
      var ns :| Lists(files, ns, others);
      ChainFound(py, files, ns, others, names);
    }
  }

  lemma ListsCount(files: Directory, names: seq<int>, values: seq<Object>)
    requires Lists(files, names, values)
    ensures |values| == |files|
  {
    Graphs.DistinctCount(names);
    forall n ensures n in Graphs.Vertices(names) <==> n in files.Keys {
      assert n in names <==> n in files;
    }
    assert Graphs.Vertices(names) == files.Keys;
  }

  lemma SavedChain(py: Python, files: Directory, values: seq<Object>, value: Object, sequence: int, now: string)
    requires Injective(py) && HoldsChain(py, files, values) && sequence !in files
    requires NextSequence(py, value, |values|) == Some(sequence) && (values != [] ==> sequence > |values|)
    ensures var payload := Signed(py, Draft(value, sequence, PreviousHash(values, |values|), now));
            Saves(py, files, files[sequence := Holds(payload)], values, value, payload, now)
  {
    var payload := Signed(py, Draft(value, sequence, PreviousHash(values, |values|), now));
    SignedFills(py, value, sequence, PreviousHash(values, |values|), now);
    if InStep(py, value, |values|) {
      SavedInStep(py, files, values, value, sequence, payload, now);
    } else {
      SavedOutOfStep(py, files, files[sequence := Holds(payload)], values, value, sequence, payload, now);
    }
  }

  lemma SavedInStep(py: Python, files: Directory, values: seq<Object>, value: Object, sequence: int, payload: Object,
                    now: string)
    requires Injective(py) && HoldsChain(py, files, values) && sequence !in files && InStep(py, value, |values|)
    requires NextSequence(py, value, |values|) == Some(sequence)
    requires payload == Signed(py, Draft(value, sequence, PreviousHash(values, |values|), now))
    ensures HoldsChain(py, files[sequence := Holds(payload)], values + [payload])
  {
    var names :| Lists(files, names, values);
    ExtendedChain(py, values, value, sequence, now);
    ListsAppended(files, names, values, sequence, payload);
  }

  lemma SavedOutOfStep(py: Python, files: Directory, after: Directory, values: seq<Object>, value: Object,
                       sequence: int, payload: Object, now: string)
    requires Injective(py) && HoldsChain(py, files, values) && sequence !in files && !InStep(py, value, |values|)
    requires NextSequence(py, value, |values|) == Some(sequence) && (values != [] ==> sequence > |values|)
    requires payload == Signed(py, Draft(value, sequence, PreviousHash(values, |values|), now))
    requires after == files[sequence := Holds(payload)]
    ensures forall others :: !HoldsChain(py, after, others)
  {
    var names :| Lists(files, names, values);
    ListsCount(files, names, values);
    forall others: seq<Object> ensures !HoldsChain(py, after, others) {
      if exists ns :: Lists(after, ns, others) {
        var ns :| Lists(after, ns, others);
        ListsCount(after, ns, others);
        EntryBroken(py, after, ns, others, value, |values|, sequence, PreviousHash(values, |values|), now);
      }
    }
  }

  lemma ListsAppended(files: Directory, names: seq<int>, values: seq<Object>, name: int, payload: Object)
    requires Lists(files, names, values) && name !in files
    ensures Lists(files[name := Holds(payload)], names + [name], values + [payload])
  {
    var after, ns := files[name := Holds(payload)], names + [name];
    forall n ensures n in ns <==> n in after {
      assert n in names <==> n in files;
    }
    forall i | 0 <= i < |names| ensures ObjectAt(after)(names[i]) == values[i] {
      assert names[i] in names;
    }
    assert Map(ObjectAt(after), ns) == values + [payload];
  }

  /** An entry with a hash of its own, or out of step, breaks every chain it is in. */
  lemma EntryBroken(py: Python, after: Directory, names: seq<int>, others: seq<Object>, value: Object, n: nat,
                    sequence: int, previous: Json, now: string)
    requires Injective(py) && Lists(after, names, others) && |others| == n + 1
    requires NextSequence(py, value, n) == Some(sequence) && (n > 0 ==> sequence > n) && !InStep(py, value, n)
    requires sequence in after && after[sequence] == Holds(Signed(py, Draft(value, sequence, previous, now)))
    ensures !ValidChain(py, others)
  {
    var draft := Draft(value, sequence, previous, now);
    SignedVerifies(py, draft);
    assert sequence in names;
    var i :| 0 <= i < |names| && names[i] == sequence;
    assert others[i] == Signed(py, draft) && SequenceOf(py, others[i]) == Some(sequence);
    assert !ValidLink(py, others, i);
  }

  lemma NoSequenceNoChain(py: Python, files: Directory, name: int)
    requires name in files && files[name].Holds? && SequenceOf(py, files[name].content).None?
    ensures forall values :: !HoldsChain(py, files, values)
  {
    forall values: seq<Object> ensures !HoldsChain(py, files, values) {
      if exists names :: Lists(files, names, values) {
        var names :| Lists(files, names, values);
        var i :| 0 <= i < |names| && names[i] == name;
        assert !ValidLink(py, values, i);
      }
    }
  }
}
