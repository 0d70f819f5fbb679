/** Permutations of the vertices and the Fisher-Yates shuffle that draws them. */
module Permutations {
  import Graphs
  import Sorting

  ghost predicate Permutation(p: seq<int>, n: nat) {
    |p| == n && Graphs.Distinct(p) && forall i :: 0 <= i < n ==> 0 <= p[i] < n
  }

  lemma PermutationOnto(p: seq<int>, n: nat)
    requires Permutation(p, n)
    ensures forall v :: 0 <= v < n ==> v in p
  {
    Graphs.DistinctCount(p);
    Graphs.SubsetCount(Graphs.Vertices(p), Graphs.UpTo(n));
    forall v | 0 <= v < n ensures v in p {
      assert v in Graphs.UpTo(n) && v in Graphs.Vertices(p);
    }
  }

  ghost function Inverse(p: seq<int>, n: nat): (q: seq<int>)
    requires Permutation(p, n)
    ensures Permutation(q, n)
    ensures forall i :: 0 <= i < n ==> q[p[i]] == i && p[q[i]] == i
  {
    PermutationOnto(p, n);
    var q := seq(n, v requires 0 <= v < n => Sorting.Position(p, v));
    assert forall v :: 0 <= v < n ==> p[q[v]] == v;
    assert forall i :: 0 <= i < n ==> p[q[p[i]]] == p[i];
    q
  }

  // --- Fisher-Yates -------------------------------------------------------------------------

  function Swapped(s: seq<int>, i: nat, j: nat): (r: seq<int>)
    requires i < |s| && j < |s|
    ensures |r| == |s|
  {
    s[i := s[j]][j := s[i]]
  }

  /** The shuffle from position index down to 1; the digest of a position picks its partner. */
  ghost function Shuffled(s: seq<int>, index: nat, digest: nat -> nat): (r: seq<int>)
    requires index < |s|
    ensures |r| == |s|
    decreases index
  {
    if index == 0 then s else Shuffled(Swapped(s, index, digest(index) % (index + 1)), index - 1, digest)
  }

  lemma SwapKeeps(s: seq<int>, i: nat, j: nat, n: nat)
    requires i < |s| && j < |s| && Permutation(s, n)
    ensures Permutation(Swapped(s, i, j), n)
  {}

  lemma ShuffleStep(s: seq<int>, index: nat, digest: nat -> nat)
    requires 0 < index < |s|
    ensures Shuffled(s, index, digest) == Shuffled(Swapped(s, index, digest(index) % (index + 1)), index - 1, digest)
  {}

  lemma {:induction false} ShufflePermutes(s: seq<int>, index: nat, digest: nat -> nat, n: nat)
    requires index < |s| && Permutation(s, n)
    ensures Permutation(Shuffled(s, index, digest), n)
    decreases index
  {
    if index > 0 {
      SwapKeeps(s, index, digest(index) % (index + 1), n);
      ShufflePermutes(Swapped(s, index, digest(index) % (index + 1)), index - 1, digest, n);
    }
  }

  /** The entry that ends at index is the one its digest picks among those up to it; later entries stay. */
  lemma {:induction false} ShufflePlaces(s: seq<int>, index: nat, digest: nat -> nat)
    requires index < |s|
    ensures index > 0 ==> Shuffled(s, index, digest)[index] == s[digest(index) % (index + 1)]
    ensures forall i :: index < i < |s| ==> Shuffled(s, index, digest)[i] == s[i]
    decreases index
  {
    if index > 0 {
      ShufflePlaces(Swapped(s, index, digest(index) % (index + 1)), index - 1, digest);
    }
  }

  lemma {:induction false} ShuffleReads(s: seq<int>, index: nat, d: nat -> nat, e: nat -> nat)
    requires index < |s| && forall k :: 0 < k <= index ==> d(k) == e(k)
    ensures Shuffled(s, index, d) == Shuffled(s, index, e)
    decreases index
  {
    if index > 0 {
      ShuffleReads(Swapped(s, index, d(index) % (index + 1)), index - 1, d, e);
    }
  }

  /** Nothing is lost: every arrangement of the first index + 1 entries is drawn by some digests. */
  lemma {:induction false} ShuffleReaches(s: seq<int>, index: nat, t: seq<int>, n: nat) returns (digest: nat -> nat)
    requires index < n && Permutation(s, n) && Permutation(t, n)
    requires forall i :: index < i < n ==> s[i] == t[i]
    ensures Shuffled(s, index, digest) == t
    decreases index
  {
    if index == 0 {
      digest := (k: nat) => 0;
      LastAgrees(s, t, n);
    } else {
      var j := PartnerOf(s, index, t, n);
      SwapKeeps(s, index, j, n);
      SwapPlaces(s, index, j, t, n);
      var rest := ShuffleReaches(Swapped(s, index, j), index - 1, t, n);
      digest := (k: nat) => if k == index then j else rest(k);
      FirstSwap(s, index, j, rest, digest);
    }
  }

  lemma SwapPlaces(s: seq<int>, index: nat, j: nat, t: seq<int>, n: nat)
    requires index < |s| == |t| == n && j <= index && s[j] == t[index] && forall i :: index < i < n ==> s[i] == t[i]
    ensures forall i :: index - 1 < i < n ==> Swapped(s, index, j)[i] == t[i]
  {}

  /** A shuffle that starts with a given swap and goes on as another one. */
  lemma FirstSwap(s: seq<int>, index: nat, j: nat, rest: nat -> nat, digest: nat -> nat)
    requires 0 < index < |s| && j <= index && digest(index) == j && forall k :: 0 < k < index ==> digest(k) == rest(k)
    ensures Shuffled(s, index, digest) == Shuffled(Swapped(s, index, j), index - 1, rest)
  {
    ShuffleStep(s, index, digest);
    SmallRemainder(j, index + 1);
    ShuffleReads(Swapped(s, index, j), index - 1, digest, rest);
  }

  lemma SmallRemainder(j: nat, m: nat)
    requires j < m
    ensures j % m == j
  {}

  /** The entry wanted at index is among the entries not yet placed. */
  lemma PartnerOf(s: seq<int>, index: nat, t: seq<int>, n: nat) returns (j: nat)
    requires index < n && Permutation(s, n) && Permutation(t, n)
    requires forall i :: index < i < n ==> s[i] == t[i]
    ensures j <= index && s[j] == t[index]
  {
    PermutationOnto(s, n);
    assert t[index] in s;
    j := Sorting.Position(s, t[index]);
    assert forall i :: index < i < n ==> t[i] != t[index];
  }

  lemma LastAgrees(s: seq<int>, t: seq<int>, n: nat)
    requires 0 < n && Permutation(s, n) && Permutation(t, n)
    requires forall i :: 0 < i < n ==> s[i] == t[i]
    ensures s == t
  {
    var j := PartnerOf(s, 0, t, n);
  }

  function Identity(n: nat): seq<int> {
    seq(n, i => i)
  }

  /** For every digest the shuffle is a permutation of the vertices. */
  lemma ShuffledIdentity(order: nat, digest: nat -> nat)
    requires order >= 1
    ensures Permutation(Shuffled(Identity(order), order - 1, digest), order)
  {
    ShufflePermutes(Identity(order), order - 1, digest, order);
  }

  method SwapEntries(values: array<int>, i: nat, j: nat)
    requires i < values.Length && j < values.Length
    modifies values
    ensures values[..] == Swapped(old(values[..]), i, j)
  {
    values[i], values[j] := values[j], values[i];
  }

  /** The in-place shuffle of range(order). */
  method DeterministicPermutation(order: nat, digest: nat -> nat) returns (r: seq<int>)
    requires order >= 1
    ensures r == Shuffled(Identity(order), order - 1, digest)
    ensures Permutation(r, order)
  {
    ghost var shuffled := Shuffled(Identity(order), order - 1, digest);
    var values := new int[order](i => i);
    assert values[..] == Identity(order);
    var index := order - 1;
    while index > 0
      invariant index < order && Shuffled(values[..], index, digest) == shuffled
    {
      ShuffleStep(values[..], index, digest);
      SwapEntries(values, index, digest(index) % (index + 1));
      index := index - 1;
    }
    ShuffledIdentity(order, digest);
    r := values[..];
  }
}
