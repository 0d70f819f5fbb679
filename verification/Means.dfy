/** Means taken level by level over keyed cells: they are linear and do not depend on the order of the input. */
module Means {
  import opened Sorting
  import Graphs

  function Sum(s: seq<real>): real {
    if s == [] then 0.0 else Sum(s[..|s| - 1]) + s[|s| - 1]
  }

  function Mean(s: seq<real>): real
    requires s != []
  {
    Sum(s) / |s| as real
  }

  lemma SumAppend(s: seq<real>, x: real)
    ensures Sum(s + [x]) == Sum(s) + x
  {
    assert (s + [x])[..|s|] == s;
  }

  lemma {:induction false} SumConcat(a: seq<real>, b: seq<real>)
    ensures Sum(a + b) == Sum(a) + Sum(b)
  {
    if b == [] {
      assert a + b == a;
    } else {
      var n := |b| - 1;
      SumConcat(a, b[..n]);
      assert a + b == (a + b[..n]) + [b[n]];
      SumAppend(a + b[..n], b[n]);
    }
  }

  lemma SumThree(a: seq<real>, x: real, b: seq<real>)
    ensures Sum(a + [x] + b) == Sum(a + b) + x
  {
    SumConcat(a + [x], b);
    SumAppend(a, x);
    SumConcat(a, b);
  }

  lemma SumWithout(s: seq<real>, i: nat)
    requires i < |s|
    ensures Sum(s) == Sum(Without(s, i)) + s[i]
  {
    Rejoined(s, i, s[..i], s[i + 1..]);
    SumThree(s[..i], s[i], s[i + 1..]);
  }

  lemma Rejoined(s: seq<real>, i: nat, a: seq<real>, b: seq<real>)
    requires i < |s| && a == s[..i] && b == s[i + 1..]
    ensures s == a + [s[i]] + b && Without(s, i) == a + b
  {}

  /** The sum depends only on the multiset of the numbers. */
  lemma {:induction false} SumPermuted(a: seq<real>, b: seq<real>)
    requires multiset(a) == multiset(b)
    ensures Sum(a) == Sum(b) && |a| == |b|
  {
    assert |a| == |multiset(a)| == |multiset(b)| == |b|;
    if a != [] {
      assert a[0] in multiset(b);
      var i :| 0 <= i < |b| && b[i] == a[0];
      WithoutMultiset(a, 0);
      WithoutMultiset(b, i);
      SumPermuted(Without(a, 0), Without(b, i));
      SumWithout(a, 0);
      SumWithout(b, i);
    }
  }

  /** The pointwise difference of two lists. */
  function Minus(a: seq<real>, b: seq<real>): (r: seq<real>)
    requires |a| == |b|
    ensures |r| == |a| && forall i :: 0 <= i < |a| ==> r[i] == a[i] - b[i]
  {
    seq(|a|, i requires 0 <= i < |a| => a[i] - b[i])
  }

  lemma {:induction false} SumMinus(a: seq<real>, b: seq<real>)
    requires |a| == |b|
    ensures Sum(Minus(a, b)) == Sum(a) - Sum(b)
  {
    if a != [] {
      var n := |a| - 1;
      SumMinus(a[..n], b[..n]);
      assert Minus(a, b)[..n] == Minus(a[..n], b[..n]);
    }
  }

  lemma MeanMinus(a: seq<real>, b: seq<real>)
    requires |a| == |b| && a != []
    ensures Mean(Minus(a, b)) == Mean(a) - Mean(b)
  {
    SumMinus(a, b);
    Fractions(Sum(a), Sum(b), |a| as real);
  }

  lemma Fractions(x: real, y: real, n: real)
    requires n > 0.0
    ensures (x - y) / n == x / n - y / n
  {}

  /** A mean lies between any bounds of the numbers. */
  lemma MeanBetween(s: seq<real>, lo: real, hi: real)
    requires s != [] && forall i :: 0 <= i < |s| ==> lo <= s[i] <= hi
    ensures lo <= Mean(s) <= hi
  {
    SumBetween(s, lo, hi);
    QuotientBetween(Sum(s), |s| as real, lo, hi);
  }

  lemma {:induction false} SumBetween(s: seq<real>, lo: real, hi: real)
    requires forall i :: 0 <= i < |s| ==> lo <= s[i] <= hi
    ensures lo * |s| as real <= Sum(s) <= hi * |s| as real
  {
    if s != [] {
      var n := |s| - 1;
      SumBetween(s[..n], lo, hi);
      assert |s| as real == n as real + 1.0;
      assert lo * |s| as real == lo * n as real + lo && hi * |s| as real == hi * n as real + hi;
    }
  }

  lemma QuotientBetween(x: real, n: real, lo: real, hi: real)
    requires n > 0.0 && lo * n <= x <= hi * n
    ensures lo <= x / n <= hi
  {
    assert x / n * n == x;
    if x / n < lo {
      Scale(x / n, lo, n);
      assert false;
    }
    if x / n > hi {
      Scale(hi, x / n, n);
      assert false;
    }
  }

  lemma Scale(x: real, y: real, n: real)
    requires n > 0.0 && x < y
    ensures x * n < y * n
  {
    assert (y - x) * n > 0.0;
  }

  // --- One level ----------------------------------------------------------------------------

  type Key = seq<int>

  function Parent(k: Key): Key {
    if k == [] then [] else k[..|k| - 1]
  }

  /** The groups: every parent key once, in sorted order. */
  function Groups(f: Key -> Key, keys: seq<Key>): seq<Key> {
    Sort(Elements(Map(f, keys)), SeqLeq)
  }

  /** The values of the cells whose parent is k, in input order. */
  function Within(f: Key -> Key, keys: seq<Key>, values: seq<real>, k: Key): (r: seq<real>)
    requires |keys| == |values|
  {
    if keys == [] then []
    else
      var n := |keys| - 1;
      if f(keys[n]) == k then Within(f, keys[..n], values[..n], k) + [values[n]]
      else Within(f, keys[..n], values[..n], k)
  }

  function MeanOr0(s: seq<real>): real {
    if s == [] then 0.0 else Mean(s)
  }

  /** The mean of every group. */
  function GroupMeans(f: Key -> Key, keys: seq<Key>, values: seq<real>): (r: seq<real>)
    requires |keys| == |values|
    ensures |r| == |Groups(f, keys)|
  {
    var groups := Groups(f, keys);
    seq(|groups|, i requires 0 <= i < |groups| => MeanOr0(Within(f, keys, values, groups[i])))
  }

  /** The means after depth levels, each level grouping the one below by its parents. */
  function Top(keys: seq<Key>, values: seq<real>, depth: nat): seq<real>
    requires |keys| == |values|
    decreases depth
  {
    if depth == 0 then values else Top(Groups(Parent, keys), GroupMeans(Parent, keys, values), depth - 1)
  }

  lemma GroupsAre(f: Key -> Key, keys: seq<Key>, k: Key)
    ensures k in Groups(f, keys) <==> exists i :: 0 <= i < |keys| && f(keys[i]) == k
  {
    var parents := Map(f, keys);
    var elements := Elements(parents);
    SortPermutes(elements, SeqLeq);
    assert k in multiset(elements) <==> k in elements;
    assert k in multiset(Groups(f, keys)) <==> k in Groups(f, keys);
    if k in parents {
      var i :| 0 <= i < |parents| && parents[i] == k;
      assert f(keys[i]) == k;
    }
    if i :| 0 <= i < |keys| && f(keys[i]) == k {
      assert parents[i] == k;
    }
  }

  /** No group is empty: the mean of a group is a mean. */
  lemma {:induction false} WithinNonEmpty(f: Key -> Key, keys: seq<Key>, values: seq<real>, k: Key)
    requires |keys| == |values| && exists i :: 0 <= i < |keys| && f(keys[i]) == k
    ensures Within(f, keys, values, k) != []
  {
    var n := |keys| - 1;
    if f(keys[n]) != k {
      var i :| 0 <= i < |keys| && f(keys[i]) == k;
      assert keys[..n][i] == keys[i];
      WithinNonEmpty(f, keys[..n], values[..n], k);
    }
  }

  // --- Linearity ----------------------------------------------------------------------------

  lemma {:induction false} WithinMinus(f: Key -> Key, keys: seq<Key>, a: seq<real>, b: seq<real>, k: Key)
    requires |keys| == |a| == |b|
    ensures |Within(f, keys, a, k)| == |Within(f, keys, b, k)|
    ensures Within(f, keys, Minus(a, b), k) == Minus(Within(f, keys, a, k), Within(f, keys, b, k))
  {
    if keys != [] {
      var n := |keys| - 1;
      WithinMinus(f, keys[..n], a[..n], b[..n], k);
      assert Minus(a, b)[..n] == Minus(a[..n], b[..n]);
    }
  }

  lemma GroupMeansMinus(f: Key -> Key, keys: seq<Key>, a: seq<real>, b: seq<real>)
    requires |keys| == |a| == |b|
    ensures GroupMeans(f, keys, Minus(a, b)) == Minus(GroupMeans(f, keys, a), GroupMeans(f, keys, b))
  {
    var groups := Groups(f, keys);
    forall i | 0 <= i < |groups|
      ensures MeanOr0(Within(f, keys, Minus(a, b), groups[i]))
              == MeanOr0(Within(f, keys, a, groups[i])) - MeanOr0(Within(f, keys, b, groups[i]))
    {
      WithinMinus(f, keys, a, b, groups[i]);
      if Within(f, keys, a, groups[i]) != [] {
        MeanMinus(Within(f, keys, a, groups[i]), Within(f, keys, b, groups[i]));
      }
    }
  }

  /** Through any number of levels and for groups of any sizes, the mean of differences is the difference of means. */
  lemma {:induction false} TopIsLinear(keys: seq<Key>, a: seq<real>, b: seq<real>, depth: nat)
    requires |keys| == |a| == |b|
    ensures |Top(keys, a, depth)| == |Top(keys, b, depth)|
    ensures Top(keys, Minus(a, b), depth) == Minus(Top(keys, a, depth), Top(keys, b, depth))
    decreases depth
  {
    if depth > 0 {
      GroupMeansMinus(Parent, keys, a, b);
      TopIsLinear(Groups(Parent, keys), GroupMeans(Parent, keys, a), GroupMeans(Parent, keys, b), depth - 1);
    }
  }

  // --- Independence of the input order ------------------------------------------------------

  /** Keys with their values. */
  function Cells(keys: seq<Key>, values: seq<real>): (r: seq<(Key, real)>)
    requires |keys| == |values|
    ensures |r| == |keys| && forall i :: 0 <= i < |keys| ==> r[i] == (keys[i], values[i])
  {
    seq(|keys|, i requires 0 <= i < |keys| => (keys[i], values[i]))
  }

  function KeyOf(c: (Key, real)): Key {
    c.0
  }

  /** The values of the cells under a parent, told from the cells. */
  function Under(f: Key -> Key, cells: seq<(Key, real)>, k: Key): seq<real> {
    if cells == [] then []
    else
      var last := cells[|cells| - 1];
      if f(last.0) == k then Under(f, cells[..|cells| - 1], k) + [last.1] else Under(f, cells[..|cells| - 1], k)
  }

  lemma {:induction false} WithinIsUnder(f: Key -> Key, keys: seq<Key>, values: seq<real>, k: Key)
    requires |keys| == |values|
    ensures Within(f, keys, values, k) == Under(f, Cells(keys, values), k)
  {
    if keys != [] {
      var n := |keys| - 1;
      WithinIsUnder(f, keys[..n], values[..n], k);
      assert Cells(keys, values)[..n] == Cells(keys[..n], values[..n]);
    }
  }

  lemma {:induction false} UnderConcat(f: Key -> Key, a: seq<(Key, real)>, b: seq<(Key, real)>, k: Key)
    ensures Under(f, a + b, k) == Under(f, a, k) + Under(f, b, k)
  {
    if b == [] {
      assert a + b == a;
    } else {
      var n := |b| - 1;
      UnderConcat(f, a, b[..n], k);
      assert (a + b)[..|a| + n] == a + b[..n];
    }
  }

  lemma UnderWithout(f: Key -> Key, cells: seq<(Key, real)>, i: nat, k: Key)
    requires i < |cells|
    ensures multiset(Under(f, cells, k)) == multiset(Under(f, Without(cells, i), k)) + multiset(Under(f, [cells[i]], k))
  {
    assert cells == cells[..i] + ([cells[i]] + cells[i + 1..]);
    UnderConcat(f, cells[..i], [cells[i]] + cells[i + 1..], k);
    UnderConcat(f, [cells[i]], cells[i + 1..], k);
    UnderConcat(f, cells[..i], cells[i + 1..], k);
  }

  lemma {:induction false} UnderPermuted(f: Key -> Key, a: seq<(Key, real)>, b: seq<(Key, real)>, k: Key)
    requires multiset(a) == multiset(b)
    ensures multiset(Under(f, a, k)) == multiset(Under(f, b, k))
  {
    assert |a| == |multiset(a)| == |multiset(b)| == |b|;
    if a != [] {
      assert a[0] in multiset(b);
      var i :| 0 <= i < |b| && b[i] == a[0];
      WithoutMultiset(a, 0);
      WithoutMultiset(b, i);
      UnderPermuted(f, Without(a, 0), Without(b, i), k);
      UnderWithout(f, a, 0, k);
      UnderWithout(f, b, i, k);
    }
  }

  lemma GroupsPermuted(f: Key -> Key, k: seq<Key>, l: seq<Key>)
    requires multiset(k) == multiset(l)
    ensures Groups(f, k) == Groups(f, l)
  {
    var a, b := Elements(Map(f, k)), Elements(Map(f, l));
    MapMultiset(f, k, l);
    SameMembers(Map(f, k), Map(f, l));
    Graphs.SameElements(a, b);
    SeqOrder();
    SortCanonical(a, b, SeqLeq);
  }

  lemma SameMembers(a: seq<Key>, b: seq<Key>)
    requires multiset(a) == multiset(b)
    ensures forall x :: x in a <==> x in b
  {
    forall x ensures x in a <==> x in b {
      assert x in multiset(a) <==> x in multiset(b);
    }
  }

  lemma GroupMeansPermuted(f: Key -> Key, k: seq<Key>, a: seq<real>, l: seq<Key>, b: seq<real>)
    requires |k| == |a| && |l| == |b| && multiset(Cells(k, a)) == multiset(Cells(l, b))
    ensures Groups(f, k) == Groups(f, l) && GroupMeans(f, k, a) == GroupMeans(f, l, b)
  {
    MapMultiset(KeyOf, Cells(k, a), Cells(l, b));
    assert Map(KeyOf, Cells(k, a)) == k && Map(KeyOf, Cells(l, b)) == l;
    GroupsPermuted(f, k, l);
    var groups := Groups(f, k);
    forall i | 0 <= i < |groups| ensures MeanOr0(Within(f, k, a, groups[i])) == MeanOr0(Within(f, l, b, groups[i])) {
      WithinIsUnder(f, k, a, groups[i]);
      WithinIsUnder(f, l, b, groups[i]);
      UnderPermuted(f, Cells(k, a), Cells(l, b), groups[i]);
      SumPermuted(Within(f, k, a, groups[i]), Within(f, l, b, groups[i]));
    }
  }

  /** The order of the input does not matter at any level. */
  lemma TopPermuted(k: seq<Key>, a: seq<real>, l: seq<Key>, b: seq<real>, depth: nat)
    requires |k| == |a| && |l| == |b| && multiset(Cells(k, a)) == multiset(Cells(l, b)) && depth > 0
    ensures Top(k, a, depth) == Top(l, b, depth)
  {
    GroupMeansPermuted(Parent, k, a, l, b);
  }
}
