/** The verdict of the independent verifier on the bytes of a candidate file. */
module Verifier {
  import opened Wrappers
  import opened Graphs
  import opened CycleSearch
  import Graph6
  import opened Arithmetic

  datatype Status = Verified | Rejected | Invalid

  datatype Message = Unreadable | BadGraph6(error: Graph6.Graph6Error) | Empty | Disconnected | LowDegree
                   | FoundCycle | AllAbsent

  datatype Report = Report(status: Status, message: Message, lengths: seq<nat>, witnesses: seq<(nat, seq<int>)>)

  /** Connected with at least three neighbours at every vertex. */
  ghost predicate Candidate(g: Adjacency) {
    Connected(g) && forall v :: 0 <= v < |g| ==> |g[v]| >= 3
  }

  /** A counterexample to the Erdos-Gyarfas conjecture: no cycle has a power of two as its length. */
  ghost predicate Counterexample(g: Adjacency) {
    Candidate(g) && forall k: nat :: k >= 2 ==> !HasCycle(g, Power(2, k))
  }

  method IsConnected(lists: seq<seq<int>>) returns (b: bool)
    requires Simple(Sets(lists))
    ensures b <==> Connected(Sets(lists))
  {
    if lists == [] {
      return false;
    }
    var seen := Span(Sets(lists), 0);
    SeenAll(Sets(lists), seen);
    b := |seen| == |lists|;
  }

  /** 4, 8, 16, ... up to the order. */
  ghost predicate ArePowers(lengths: seq<nat>, order: nat) {
    && (forall i :: 0 <= i < |lengths| ==> lengths[i] == Power(2, i + 2) <= order)
    && forall k: nat :: k >= 2 && Power(2, k) <= order ==> k - 2 < |lengths|
  }

  /** The message names the first check that fails, or the outcome of the search. */
  ghost predicate Says(message: Message, g: Adjacency) {
    && (message == Empty <==> g == [])
    && (message == Disconnected <==> g != [] && !Connected(g))
    && (message == LowDegree <==> g != [] && Connected(g) && exists v :: 0 <= v < |g| && |g[v]| < 3)
    && (message == FoundCycle <==> Candidate(g) && !Counterexample(g))
    && (message == AllAbsent <==> Counterexample(g))
  }

  /** The forbidden lengths of an order: 4, 8, 16, ... up to the order. */
  method ForbiddenLengths(order: nat) returns (lengths: seq<nat>)
    ensures forall i :: 0 <= i < |lengths| ==> lengths[i] == Power(2, i + 2) && 4 <= lengths[i] <= order
    ensures forall k: nat :: k >= 2 && Power(2, k) <= order ==> k - 2 < |lengths|
  {
    lengths := [];
    var length := 4;
    while length <= order
      invariant length == Power(2, |lengths| + 2) && length >= 4
      invariant forall i :: 0 <= i < |lengths| ==> lengths[i] == Power(2, i + 2) && 4 <= lengths[i] <= order
      decreases order - length
    {
      lengths := lengths + [length];
      length := length * 2;
    }
    forall k: nat | k >= 2 && Power(2, k) <= order ensures k - 2 < |lengths| {
      if k - 2 >= |lengths| {
        PowerGrows(2, |lengths| + 2, k);
      }
    }
  }

  method MinimumDegreeBelow3(lists: seq<seq<int>>) returns (b: bool)
    requires forall v :: 0 <= v < |lists| ==> Ascending(lists[v])
    ensures b <==> exists v :: 0 <= v < |lists| && |Sets(lists)[v]| < 3
  {
    for v := 0 to |lists|
      invariant forall u :: 0 <= u < v ==> |Sets(lists)[u]| >= 3
    {
      DistinctCount(lists[v]);
      assert Sets(lists)[v] == Vertices(lists[v]);
      if |lists[v]| < 3 {
        return true;
      }
    }
    b := false;
  }

  /** Lengths above the order need no search. */
  lemma NoLongCycle(g: Adjacency, length: nat)
    requires length > |g|
    ensures !HasCycle(g, length)
  {
    forall c | Cycle(g, c) ensures |c| != length {
      DistinctBound(c, |g|);
    }
  }

  /** c is a cycle of length 2^k and no smaller power of two is a cycle length. */
  ghost predicate IsFirst(g: Adjacency, k: nat, c: seq<int>) {
    Cycle(g, c) && |c| == Power(2, k) && forall j: nat :: 2 <= j < k ==> !HasCycle(g, Power(2, j))
  }

  /** A cycle of one length, when the shorter lengths have none. */
  lemma FoundFirst(g: Adjacency, lengths: seq<nat>, i: nat, c: seq<int>)
    requires i < |lengths| && forall j :: 0 <= j < |lengths| ==> lengths[j] == Power(2, j + 2)
    requires forall j :: 0 <= j < i ==> !HasCycle(g, lengths[j])
    requires Cycle(g, c) && |c| == lengths[i]
    ensures IsFirst(g, i + 2, c)
  {
    forall j: nat | 2 <= j < i + 2 ensures !HasCycle(g, Power(2, j)) {
      assert lengths[j - 2] == Power(2, j);
    }
  }

  lemma PowerEven(k: nat)
    requires k >= 2
    ensures Power(2, k) >= 4 && Power(2, k) % 2 == 0
  {
    assert Power(2, k) == 2 * (2 * Power(2, k - 2));
  }

  /** The search for one power of two. */
  method CycleOfPower(lists: seq<seq<int>>, k: nat) returns (r: Option<seq<int>>)
    requires Simple(Sets(lists)) && 2 <= k && Power(2, k) <= |lists|
    ensures r.Some? ==> Cycle(Sets(lists), r.value) && |r.value| == Power(2, k)
    ensures r.None? <==> !HasCycle(Sets(lists), Power(2, k))
  {
    PowerEven(k);
    r := FindCycle(lists, Power(2, k));
  }

  /** The searches over the forbidden lengths, shortest first. */
  method FirstCycle(lists: seq<seq<int>>, lengths: seq<nat>) returns (r: Option<(nat, seq<int>)>)
    requires Simple(Sets(lists))
    requires forall i :: 0 <= i < |lengths| ==> lengths[i] == Power(2, i + 2) && 4 <= lengths[i] <= |lists|
    ensures r.Some? ==> exists k: nat :: k >= 2 && r.value.0 == Power(2, k) && IsFirst(Sets(lists), k, r.value.1)
    ensures r.None? ==> forall i :: 0 <= i < |lengths| ==> !HasCycle(Sets(lists), lengths[i])
  {
    for i := 0 to |lengths|
      invariant forall j :: 0 <= j < i ==> !HasCycle(Sets(lists), lengths[j])
    {
      assert lengths[i] == Power(2, i + 2);
      var found := CycleOfPower(lists, i + 2);
      if found.Some? {
        FoundFirst(Sets(lists), lengths, i, found.value);
        return Some((lengths[i], found.value));
      }
    }
    r := None;
  }

  /** The checks on the decoded graph, in the order of the source. */
  method Judge(lists: seq<seq<int>>, lengths: seq<nat>) returns (report: Report)
    requires Simple(Sets(lists)) && forall v :: 0 <= v < |lists| ==> Ascending(lists[v])
    requires forall i :: 0 <= i < |lengths| ==> lengths[i] == Power(2, i + 2) && 4 <= lengths[i] <= |lists|
    requires forall k: nat :: k >= 2 && Power(2, k) <= |lists| ==> k - 2 < |lengths|
    ensures report.status == Verified <==> Counterexample(Sets(lists))
    ensures report.status == Rejected <==> Candidate(Sets(lists)) && !Counterexample(Sets(lists))
    ensures report.status == Rejected ==> Rejection(report, Sets(lists))
    ensures report.status != Rejected ==> report.witnesses == []
    ensures report.message == Empty <==> lists == []
    ensures report.message == Disconnected <==> lists != [] && !Connected(Sets(lists))
    ensures report.message == LowDegree <==>
            lists != [] && Connected(Sets(lists)) && exists v :: 0 <= v < |lists| && |Sets(lists)[v]| < 3
    ensures report.message == FoundCycle <==> report.status == Rejected
    ensures report.message == AllAbsent <==> report.status == Verified
    ensures report.lengths == lengths
  {
    if |lists| == 0 {
      return Report(Invalid, Empty, lengths, []);
    }
    var connected := IsConnected(lists);
    if !connected {
      return Report(Invalid, Disconnected, lengths, []);
    }
    var low := MinimumDegreeBelow3(lists);
    if low {
      return Report(Invalid, LowDegree, lengths, []);
    }
    var found := FirstCycle(lists, lengths);
    if found.Some? {
      return Report(Rejected, FoundCycle, lengths, [found.value]);
    }
    forall k: nat | k >= 2 ensures !HasCycle(Sets(lists), Power(2, k)) {
      if Power(2, k) <= |lists| {
        assert lengths[k - 2] == Power(2, k);
      } else {
        NoLongCycle(Sets(lists), Power(2, k));
      }
    }
    report := Report(Verified, AllAbsent, lengths, []);
  }

  /** The one witness is a cycle of the least length 2^k that the graph has. */
  ghost predicate Rejection(report: Report, g: Adjacency) {
    |report.witnesses| == 1
    && exists k: nat :: k >= 2 && report.witnesses[0].0 == Power(2, k) && IsFirst(g, k, report.witnesses[0].1)
  }

  ghost predicate Decodes(contents: Option<Graph6.Bytes>, g: Adjacency) {
    contents.Some? && Graph6.Encodes(Graph6.Body(contents.value), g)
  }

  /**
    The report on the contents of a file; None when it cannot be read.
    Verified: the bytes encode a counterexample.
    Rejected: they encode a connected graph of minimum degree three with a cycle of length 2^k.
    Invalid: everything else.
   */
  method Verify(contents: Option<Graph6.Bytes>) returns (report: Report)
    ensures report.status == Verified <==> exists g :: Decodes(contents, g) && Counterexample(g)
    ensures report.status == Rejected <==>
            exists g :: Decodes(contents, g) && Candidate(g) && !Counterexample(g)
    ensures report.status == Invalid <==> !exists g :: Decodes(contents, g) && Candidate(g)
    ensures report.status == Rejected ==> exists g :: Decodes(contents, g) && Rejection(report, g)
    ensures report.status != Rejected ==> report.witnesses == []
    ensures forall g :: Decodes(contents, g) ==> ArePowers(report.lengths, |g|) && Says(report.message, g)
    ensures report.message == Unreadable <==> contents.None?
    ensures report.message.BadGraph6? <==> contents.Some? && !exists g :: Decodes(contents, g)
  {
    if contents.None? {
      return Report(Invalid, Unreadable, [], []);
    }
    var decoded := Graph6.DecodeGraph6(contents.value);
    if decoded.Failure? {
      return Report(Invalid, BadGraph6(decoded.error), [], []);
    }
    var lists := decoded.value;
    ghost var g := Sets(lists);
    assert Decodes(contents, g);
    forall h: Adjacency | Decodes(contents, h) ensures h == g {
      Graph6.EncodesUnique(Graph6.Body(contents.value), h, g);
    }
    var lengths := ForbiddenLengths(|lists|);
    report := Judge(lists, lengths);
    assert ArePowers(report.lengths, |g|) && Says(report.message, g);
  }
}
