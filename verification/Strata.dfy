/** The order-relabel strata of an order, and when they tell of its graphs. */
module Strata {
  import opened Sorting
  import opened Means
  import Graphs

  // --- Classes of equal size ----------------------------------------------------------------

  /** The keys in a class, in input order. */
  function KeysIn(f: Key -> Key, keys: seq<Key>, k: Key): seq<Key> {
    if keys == [] then []
    else
      var n := |keys| - 1;
      if f(keys[n]) == k then KeysIn(f, keys[..n], k) + [keys[n]] else KeysIn(f, keys[..n], k)
  }

  lemma {:induction false} WithinLength(f: Key -> Key, keys: seq<Key>, values: seq<real>, k: Key)
    requires |keys| == |values|
    ensures |Within(f, keys, values, k)| == |KeysIn(f, keys, k)|
  {
    if keys != [] {
      WithinLength(f, keys[..|keys| - 1], values[..|keys| - 1], k);
    }
  }

  /** Every class has n members. */
  ghost predicate Uniform(f: Key -> Key, keys: seq<Key>, n: nat) {
    n > 0 && forall k :: k in Groups(f, keys) ==> |KeysIn(f, keys, k)| == n
  }

  function ClassSum(f: Key -> Key, keys: seq<Key>, values: seq<real>): Key -> real
    requires |keys| == |values|
  {
    (k: Key) => if |keys| == |values| then Sum(Within(f, keys, values, k)) else 0.0
  }

  lemma {:induction false} SumOfZeros(s: seq<real>)
    requires forall i :: 0 <= i < |s| ==> s[i] == 0.0
    ensures Sum(s) == 0.0
  {
    if s != [] {
      SumOfZeros(s[..|s| - 1]);
    }
  }

  /** Lists that differ by x at one place have sums that differ by x. */
  lemma SumBumped(a: seq<real>, b: seq<real>, j: nat, x: real)
    requires j < |a| == |b| && b[j] == a[j] + x
    requires forall i :: 0 <= i < |a| && i != j ==> b[i] == a[i]
    ensures Sum(b) == Sum(a) + x
  {
    var p, q := a[..j], a[j + 1..];
    assert a == p + [a[j]] + q && b == p + [b[j]] + q;
    SumThree(p, a[j], q);
    SumThree(p, b[j], q);
  }

  /** The class sums add up to the sum of all values. */
  lemma {:induction false} SumOfClasses(f: Key -> Key, groups: seq<Key>, keys: seq<Key>, values: seq<real>)
    requires |keys| == |values| && Graphs.Distinct(groups)
    requires forall i :: 0 <= i < |keys| ==> f(keys[i]) in groups
    ensures Sum(Map(ClassSum(f, keys, values), groups)) == Sum(values)
  {
    if keys == [] {
      SumOfZeros(Map(ClassSum(f, keys, values), groups));
    } else {
      var n := |keys| - 1;
      SumOfClasses(f, groups, keys[..n], values[..n]);
      ClassesNext(f, groups, keys, values, ClassSum(f, keys[..n], values[..n]), ClassSum(f, keys, values));
    }
  }

  /** The last cell adds its value to the sum of its class. */
  lemma ClassesNext(f: Key -> Key, groups: seq<Key>, keys: seq<Key>, values: seq<real>, p: Key -> real, q: Key -> real)
    requires |keys| == |values| && keys != [] && Graphs.Distinct(groups) && f(keys[|keys| - 1]) in groups
    requires p == ClassSum(f, keys[..|keys| - 1], values[..|keys| - 1]) && q == ClassSum(f, keys, values)
    ensures Sum(Map(q, groups)) == Sum(Map(p, groups)) + values[|keys| - 1]
  {
    var n := |keys| - 1;
    var j :| 0 <= j < |groups| && groups[j] == f(keys[n]);
    forall i | 0 <= i < |groups| ensures q(groups[i]) == if i == j then p(groups[i]) + values[n] else p(groups[i]) {
      LastCell(f, keys, values, groups[i]);
    }
    SumBumped(Map(p, groups), Map(q, groups), j, values[n]);
  }

  lemma LastCell(f: Key -> Key, keys: seq<Key>, values: seq<real>, k: Key)
    requires |keys| == |values| && keys != []
    ensures var n := |keys| - 1;
            Sum(Within(f, keys, values, k))
            == Sum(Within(f, keys[..n], values[..n], k)) + if f(keys[n]) == k then values[n] else 0.0
  {
    var n := |keys| - 1;
    SumAppend(Within(f, keys[..n], values[..n], k), values[n]);
  }

  lemma {:induction false} SumConstant(s: seq<real>, c: real)
    requires forall i :: 0 <= i < |s| ==> s[i] == c
    ensures Sum(s) == c * |s| as real
  {
    if s != [] {
      SumConstant(s[..|s| - 1], c);
      assert |s| as real == (|s| - 1) as real + 1.0;
      assert c * |s| as real == c * (|s| - 1) as real + c;
    }
  }

  lemma {:induction false} SumScaled(a: seq<real>, b: seq<real>, n: real)
    requires n > 0.0 && |a| == |b| && forall i :: 0 <= i < |a| ==> b[i] == a[i] / n
    ensures Sum(b) == Sum(a) / n
  {
    if a != [] {
      var m := |a| - 1;
      SumScaled(a[..m], b[..m], n);
      Fractions(Sum(a[..m]), -a[m], n);
    }
  }

  function Ones(n: nat): (r: seq<real>)
    ensures |r| == n && forall i :: 0 <= i < n ==> r[i] == 1.0
  {
    seq(n, _ => 1.0)
  }

  lemma {:induction false} OnesWithin(f: Key -> Key, keys: seq<Key>, k: Key)
    ensures forall i :: 0 <= i < |Within(f, keys, Ones(|keys|), k)| ==> Within(f, keys, Ones(|keys|), k)[i] == 1.0
  {
    if keys != [] {
      var n := |keys| - 1;
      OnesWithin(f, keys[..n], k);
      assert Ones(|keys|)[..n] == Ones(n);
    }
  }

  lemma GroupsDistinct(f: Key -> Key, keys: seq<Key>)
    ensures Graphs.Distinct(Groups(f, keys)) && Sorted(Groups(f, keys), SeqLeq)
    ensures forall i :: 0 <= i < |keys| ==> f(keys[i]) in Groups(f, keys)
  {
    var elements := Elements(Map(f, keys));
    SeqOrder();
    SortSorts(elements, SeqLeq);
    SortPermutes(elements, SeqLeq);
    Graphs.DistinctPermuted(elements, Groups(f, keys));
    forall i | 0 <= i < |keys| ensures f(keys[i]) in Groups(f, keys) {
      GroupsAre(f, keys, f(keys[i]));
    }
  }

  lemma OnesSum(f: Key -> Key, keys: seq<Key>, k: Key)
    ensures ClassSum(f, keys, Ones(|keys|))(k) == |KeysIn(f, keys, k)| as real
  {
    OnesWithin(f, keys, k);
    WithinLength(f, keys, Ones(|keys|), k);
    SumConstant(Within(f, keys, Ones(|keys|), k), 1.0);
  }

  ghost function Product(m: nat, n: nat): real {
    m as real * n as real
  }

  lemma SumOfEqual(s: seq<real>, n: nat)
    requires forall i :: 0 <= i < |s| ==> s[i] == n as real
    ensures Sum(s) == Product(n, |s|)
  {
    SumConstant(s, n as real);
  }

  lemma AllEqual(h: Key -> real, groups: seq<Key>, n: nat)
    requires forall k :: k in groups ==> h(k) == n as real
    ensures Sum(Map(h, groups)) == Product(n, |groups|)
  {
    var sums := Map(h, groups);
    forall i | 0 <= i < |groups| ensures sums[i] == n as real {
      assert groups[i] in groups;
    }
    SumOfEqual(sums, n);
  }

  lemma SumOfOnes(n: nat)
    ensures Sum(Ones(n)) == n as real
  {
    SumConstant(Ones(n), 1.0);
  }

  /** Classes of n members each: there are |keys| / n of them. */
  lemma ClassCount(f: Key -> Key, keys: seq<Key>, groups: seq<Key>, n: nat)
    requires groups == Groups(f, keys) && Uniform(f, keys, n)
    ensures Product(n, |groups|) == |keys| as real
  {
    GroupsDistinct(f, keys);
    SumOfClasses(f, groups, keys, Ones(|keys|));
    SumOfOnes(|keys|);
    forall k | k in groups ensures ClassSum(f, keys, Ones(|keys|))(k) == n as real {
      OnesSum(f, keys, k);
    }
    AllEqual(ClassSum(f, keys, Ones(|keys|)), groups, n);
  }

  lemma Twice(x: real, n: real, g: real, m: real)
    requires n > 0.0 && g > 0.0 && m > 0.0 && n * g == m
    ensures (x / n) / g == x / m
  {
    var y := (x / n) / g;
    assert y * g == x / n && (x / n) * n == x;
    assert y * m == (y * g) * n;
    assert y == (y * m) / m;
  }

  // --- One order at a time ------------------------------------------------------------------

  function OrderOf(k: Key): Key {
    if |k| >= 1 then [k[0]] else []
  }

  /** The stratum (order, relabeling) of a cell (order, graph, relabeling). */
  function StratumOf(k: Key): Key {
    if |k| >= 3 then [k[0], k[2]] else []
  }

  ghost predicate RelabelKeys(keys: seq<Key>) {
    forall i :: 0 <= i < |keys| ==> |keys[i]| == 3
  }

  lemma {:induction false} KeysInAre(f: Key -> Key, keys: seq<Key>, k: Key)
    ensures forall x :: x in KeysIn(f, keys, k) <==> x in keys && f(x) == k
  {
    if keys != [] {
      var n := |keys| - 1;
      KeysInAre(f, keys[..n], k);
      assert keys == keys[..n] + [keys[n]];
    }
  }

  lemma {:induction false} KeysInSorted(f: Key -> Key, keys: seq<Key>, k: Key)
    requires Graphs.Distinct(keys) && Sorted(keys, SeqLeq)
    ensures Graphs.Distinct(KeysIn(f, keys, k)) && Sorted(KeysIn(f, keys, k), SeqLeq)
  {
    if keys != [] {
      var n := |keys| - 1;
      var rest := KeysIn(f, keys[..n], k);
      KeysInSorted(f, keys[..n], k);
      KeysInAre(f, keys[..n], k);
      forall i | 0 <= i < |rest| ensures rest[i] != keys[n] && SeqLeq(rest[i], keys[n]) {
        assert rest[i] in keys[..n];
        var j :| 0 <= j < n && keys[..n][j] == rest[i];
        assert keys[j] == rest[i];
      }
    }
  }

  lemma {:induction false} WithinMapped(f: Key -> Key, keys: seq<Key>, h: Key -> real, k: Key)
    ensures Within(f, keys, Map(h, keys), k) == Map(h, KeysIn(f, keys, k))
  {
    if keys != [] {
      var n := |keys| - 1;
      WithinMapped(f, keys[..n], h, k);
      assert Map(h, keys)[..n] == Map(h, keys[..n]);
    }
  }

  /** A class that lies inside a wider one is the same class of the cells of the wider one. */
  lemma {:induction false} NestedWithin(f: Key -> Key, g: Key -> Key, keys: seq<Key>, values: seq<real>, k: Key, o: Key)
    requires |keys| == |values| && forall i :: 0 <= i < |keys| ==> (f(keys[i]) == k ==> g(keys[i]) == o)
    ensures |KeysIn(g, keys, o)| == |Within(g, keys, values, o)|
    ensures Within(f, KeysIn(g, keys, o), Within(g, keys, values, o), k) == Within(f, keys, values, k)
  {
    WithinLength(g, keys, values, o);
    if keys != [] {
      var n := |keys| - 1;
      WithinLength(g, keys[..n], values[..n], o);
      NestedWithin(f, g, keys[..n], values[..n], k, o);
      if g(keys[n]) == o {
        var a, b := KeysIn(g, keys[..n], o), Within(g, keys[..n], values[..n], o);
        assert (a + [keys[n]])[..|a|] == a && (b + [values[n]])[..|a|] == b;
      }
    }
  }

  /** The mean of a class. */
  function ClassAverage(f: Key -> Key, keys: seq<Key>, values: seq<real>): Key -> real {
    (k: Key) => if |keys| == |values| then MeanOr0(Within(f, keys, values, k)) else 0.0
  }

  /** Classes of cells that stay within one order and are keyed below it: graphs and strata. */
  ghost predicate UnderOrders(f: Key -> Key) {
    forall k :: |k| == 3 ==> Parent(f(k)) == [k[0]]
  }

  lemma GraphsAndStrata()
    ensures UnderOrders(Parent) && UnderOrders(StratumOf)
  {}

  lemma OrderGroups(f: Key -> Key, keys: seq<Key>, o: int)
    requires RelabelKeys(keys) && UnderOrders(f)
    ensures KeysIn(Parent, Groups(f, keys), [o]) == Groups(f, KeysIn(OrderOf, keys, [o]))
  {
    var a, b := KeysIn(Parent, Groups(f, keys), [o]), Groups(f, KeysIn(OrderOf, keys, [o]));
    GroupsDistinct(f, keys);
    KeysInSorted(Parent, Groups(f, keys), [o]);
    GroupsDistinct(f, KeysIn(OrderOf, keys, [o]));
    forall k ensures k in a <==> k in b {
      OrderGroup(f, keys, o, k);
    }
    Graphs.SameElements(a, b);
    SeqOrder();
    SortedUnique(a, b, SeqLeq);
  }

  lemma OrderGroup(f: Key -> Key, keys: seq<Key>, o: int, k: Key)
    requires RelabelKeys(keys) && UnderOrders(f)
    ensures k in KeysIn(Parent, Groups(f, keys), [o]) <==> k in Groups(f, KeysIn(OrderOf, keys, [o]))
  {
    var inside := KeysIn(OrderOf, keys, [o]);
    KeysInAre(Parent, Groups(f, keys), [o]);
    KeysInAre(OrderOf, keys, [o]);
    GroupsAre(f, keys, k);
    GroupsAre(f, inside, k);
    if k in Groups(f, keys) && Parent(k) == [o] {
      var i :| 0 <= i < |keys| && f(keys[i]) == k;
      assert keys[i] in inside;
      var j :| 0 <= j < |inside| && inside[j] == keys[i];
      assert f(inside[j]) == k;
    }
    if k in Groups(f, inside) {
      var j :| 0 <= j < |inside| && f(inside[j]) == k;
      assert inside[j] in keys && OrderOf(inside[j]) == [o];
      var i :| 0 <= i < |keys| && keys[i] == inside[j];
      assert f(keys[i]) == k;
    }
  }

  /** The graph or stratum means of one order are the group means of its own cells. */
  lemma OrderMeans(f: Key -> Key, keys: seq<Key>, values: seq<real>, o: int)
    requires |keys| == |values| && RelabelKeys(keys) && UnderOrders(f)
    ensures |KeysIn(OrderOf, keys, [o])| == |Within(OrderOf, keys, values, [o])|
    ensures Within(Parent, Groups(f, keys), GroupMeans(f, keys, values), [o])
            == GroupMeans(f, KeysIn(OrderOf, keys, [o]), Within(OrderOf, keys, values, [o]))
  {
    var groups, h := Groups(f, keys), ClassAverage(f, keys, values);
    var inside, own := KeysIn(OrderOf, keys, [o]), Within(OrderOf, keys, values, [o]);
    WithinLength(OrderOf, keys, values, [o]);
    assert GroupMeans(f, keys, values) == Map(h, groups);
    WithinMapped(Parent, groups, h, [o]);
    OrderGroups(f, keys, o);
    var mine := Groups(f, inside);
    KeysInAre(Parent, groups, [o]);
    forall i | 0 <= i < |mine| ensures h(mine[i]) == MeanOr0(Within(f, inside, own, mine[i])) {
      assert mine[i] in mine;
      NestedWithin(f, OrderOf, keys, values, mine[i], [o]);
    }
  }

  // --- The gate -----------------------------------------------------------------------------

  /** Each graph has as many relabelings and each relabeling as many graphs. */
  ghost predicate BalancedOrder(keys: seq<Key>) {
    exists n, m :: Uniform(Parent, keys, n) && Uniform(StratumOf, keys, m)
  }

  /** Any two cells of one stratum belong to graphs with the same number of relabelings. */
  ghost predicate Even(keys: seq<Key>) {
    EvenIn(GraphSize(keys), keys)
  }

  ghost predicate EvenIn(size: Key -> nat, keys: seq<Key>) {
    forall a, b :: a in keys && b in keys && StratumOf(a) == StratumOf(b) ==> size(a) == size(b)
  }

  /** The number of cells in the class of a cell. */
  ghost function ClassSize(f: Key -> Key, keys: seq<Key>): Key -> nat {
    (k: Key) => |KeysIn(f, keys, f(k))|
  }

  /** The number of relabelings of the graph of a cell. */
  ghost function GraphSize(keys: seq<Key>): Key -> nat {
    ClassSize(Parent, keys)
  }

  ghost predicate NonNegative(s: seq<real>) {
    forall i :: 0 <= i < |s| ==> s[i] >= 0.0
  }

  lemma {:induction false} SumNonNegative(s: seq<real>)
    requires NonNegative(s)
    ensures Sum(s) >= 0.0 && (s != [] ==> Mean(s) >= 0.0)
  {
    if s != [] {
      SumNonNegative(s[..|s| - 1]);
    }
  }

  // --- Cells weighed by the size of their graph ---------------------------------------------

  ghost function Share(x: real, n: nat): real {
    if n == 0 then 0.0 else x / n as real
  }

  /** Every value divided by the size of its graph. */
  ghost function Shares(size: Key -> nat, keys: seq<Key>, values: seq<real>): (r: seq<real>)
    requires |keys| == |values|
    ensures |r| == |keys| && forall i :: 0 <= i < |keys| ==> r[i] == Share(values[i], size(keys[i]))
  {
    seq(|keys|, i requires 0 <= i < |keys| => Share(values[i], size(keys[i])))
  }

  lemma ShareSum(x: real, y: real, n: nat)
    ensures Share(x + y, n) == Share(x, n) + Share(y, n)
  {
    if n != 0 {
      Fractions(x, -y, n as real);
    }
  }

  /** When all cells of a class have the same size, the shares of the class sum to its share. */
  lemma {:induction false} ClassShare(f: Key -> Key, size: Key -> nat, keys: seq<Key>, values: seq<real>, k: Key,
                                      n: nat)
    requires |keys| == |values| && forall x :: x in keys && f(x) == k ==> size(x) == n
    ensures Sum(Within(f, keys, Shares(size, keys, values), k)) == Share(Sum(Within(f, keys, values, k)), n)
  {
    if keys != [] {
      var m := |keys| - 1;
      assert keys == keys[..m] + [keys[m]];
      ClassShare(f, size, keys[..m], values[..m], k, n);
      assert Shares(size, keys, values)[..m] == Shares(size, keys[..m], values[..m]);
      LastCell(f, keys, values, k);
      LastCell(f, keys, Shares(size, keys, values), k);
      ShareSum(Sum(Within(f, keys[..m], values[..m], k)), values[m], n);
    }
  }

  /** The class means sum to the sum of the shares. */
  lemma ClassesSum(f: Key -> Key, keys: seq<Key>, values: seq<real>)
    requires |keys| == |values|
    ensures Sum(GroupMeans(f, keys, values)) == Sum(Shares(ClassSize(f, keys), keys, values))
  {
    var size, groups := ClassSize(f, keys), Groups(f, keys);
    var shares := Shares(size, keys, values);
    GroupsDistinct(f, keys);
    SumOfClasses(f, groups, keys, shares);
    var sums := Map(ClassSum(f, keys, shares), groups);
    forall i | 0 <= i < |groups| ensures GroupMeans(f, keys, values)[i] == sums[i] {
      var n := |KeysIn(f, keys, groups[i])|;
      ClassShare(f, size, keys, values, groups[i], n);
      WithinLength(f, keys, values, groups[i]);
      ShareIsMean(Within(f, keys, values, groups[i]));
    }
    assert GroupMeans(f, keys, values) == sums;
  }

  lemma ShareIsMean(s: seq<real>)
    ensures MeanOr0(s) == Share(Sum(s), |s|)
  {}

  /** Cells of one stratum have one size, so its shares have the sign of its values. */
  lemma StratumShare(size: Key -> nat, keys: seq<Key>, values: seq<real>, k: Key)
    requires |keys| == |values| && EvenIn(size, keys) && k in Groups(StratumOf, keys)
    requires Sum(Within(StratumOf, keys, values, k)) >= 0.0
    ensures Sum(Within(StratumOf, keys, Shares(size, keys, values), k)) >= 0.0
  {
    GroupsAre(StratumOf, keys, k);
    var i :| 0 <= i < |keys| && StratumOf(keys[i]) == k;
    ClassShare(StratumOf, size, keys, values, k, size(keys[i]));
    ShareSign(Sum(Within(StratumOf, keys, values, k)), size(keys[i]));
  }

  lemma ShareSign(x: real, n: nat)
    ensures x >= 0.0 ==> Share(x, n) >= 0.0
    ensures n > 0 && x < 0.0 ==> Share(x, n) < 0.0
  {}

  lemma MeanSign(s: seq<real>)
    ensures MeanOr0(s) >= 0.0 <==> Sum(s) >= 0.0
  {
    if s != [] {
      ShareIsMean(s);
      ShareSign(Sum(s), |s|);
    }
  }

  /** In an even order non-negative strata give a non-negative order. */
  lemma EvenOrder(keys: seq<Key>, values: seq<real>)
    requires |keys| == |values| && Even(keys) && NonNegative(GroupMeans(StratumOf, keys, values))
    ensures Sum(GroupMeans(Parent, keys, values)) >= 0.0
  {
    var shares, strata := Shares(GraphSize(keys), keys, values), Groups(StratumOf, keys);
    ClassesSum(Parent, keys, values);
    GroupsDistinct(StratumOf, keys);
    SumOfClasses(StratumOf, strata, keys, shares);
    var sums := Map(ClassSum(StratumOf, keys, shares), strata);
    forall i | 0 <= i < |sums| ensures sums[i] >= 0.0 {
      assert GroupMeans(StratumOf, keys, values)[i] >= 0.0 && strata[i] in strata;
      MeanSign(Within(StratumOf, keys, values, strata[i]));
      StratumShare(GraphSize(keys), keys, values, strata[i]);
    }
    SumNonNegative(sums);
  }

  // --- All orders ---------------------------------------------------------------------------

  /** A class that lies inside a wider one is the same class of the cells of the wider one. */
  lemma {:induction false} NestedKeys(f: Key -> Key, g: Key -> Key, keys: seq<Key>, k: Key, o: Key)
    requires forall x :: x in keys && f(x) == k ==> g(x) == o
    ensures KeysIn(f, KeysIn(g, keys, o), k) == KeysIn(f, keys, k)
  {
    if keys != [] {
      var n := |keys| - 1;
      assert keys == keys[..n] + [keys[n]];
      NestedKeys(f, g, keys[..n], k, o);
      if g(keys[n]) == o {
        var a := KeysIn(g, keys[..n], o);
        assert (a + [keys[n]])[..|a|] == a;
      }
    }
  }

  /** A graph of one order has the same size among the cells of its order. */
  lemma SameSize(keys: seq<Key>, o: int, k: Key)
    requires RelabelKeys(keys) && k in KeysIn(OrderOf, keys, [o])
    ensures k in keys && GraphSize(KeysIn(OrderOf, keys, [o]))(k) == GraphSize(keys)(k)
  {
    KeysInAre(OrderOf, keys, [o]);
    forall x | x in keys && Parent(x) == Parent(k) ensures OrderOf(x) == [o] {
      assert x[0] == Parent(x)[0] && k[0] == Parent(k)[0];
    }
    NestedKeys(Parent, OrderOf, keys, Parent(k), [o]);
  }

  lemma EvenInside(keys: seq<Key>, o: int)
    requires RelabelKeys(keys) && Even(keys)
    ensures Even(KeysIn(OrderOf, keys, [o]))
  {
    SizesInside(keys, o, KeysIn(OrderOf, keys, [o]), GraphSize(keys), GraphSize(KeysIn(OrderOf, keys, [o])));
  }

  lemma SizesInside(keys: seq<Key>, o: int, inside: seq<Key>, size: Key -> nat, own: Key -> nat)
    requires RelabelKeys(keys) && inside == KeysIn(OrderOf, keys, [o]) && size == GraphSize(keys)
             && own == GraphSize(inside)
    ensures forall k :: k in inside ==> k in keys && own(k) == size(k)
  {
    forall k | k in inside ensures k in keys && own(k) == size(k) {
      SameSize(keys, o, k);
    }
  }

  /** The strata of one order are strata of the design. */
  lemma OwnStrata(keys: seq<Key>, values: seq<real>, o: int)
    requires |keys| == |values| && RelabelKeys(keys) && NonNegative(GroupMeans(StratumOf, keys, values))
    ensures |KeysIn(OrderOf, keys, [o])| == |Within(OrderOf, keys, values, [o])|
    ensures NonNegative(GroupMeans(StratumOf, KeysIn(OrderOf, keys, [o]), Within(OrderOf, keys, values, [o])))
  {
    var inside, own := KeysIn(OrderOf, keys, [o]), Within(OrderOf, keys, values, [o]);
    WithinLength(OrderOf, keys, values, [o]);
    var strata := Groups(StratumOf, inside);
    forall i | 0 <= i < |strata| ensures MeanOr0(Within(StratumOf, inside, own, strata[i])) >= 0.0 {
      StratumOwned(keys, o, strata[i]);
      NestedWithin(StratumOf, OrderOf, keys, values, strata[i], [o]);
      var j :| 0 <= j < |Groups(StratumOf, keys)| && Groups(StratumOf, keys)[j] == strata[i];
      assert GroupMeans(StratumOf, keys, values)[j] >= 0.0;
    }
  }

  lemma StratumOwned(keys: seq<Key>, o: int, k: Key)
    requires RelabelKeys(keys) && k in Groups(StratumOf, KeysIn(OrderOf, keys, [o]))
    ensures k in Groups(StratumOf, keys) && forall i :: 0 <= i < |keys| && StratumOf(keys[i]) == k ==>
            OrderOf(keys[i]) == [o]
  {
    var inside := KeysIn(OrderOf, keys, [o]);
    GroupsAre(StratumOf, inside, k);
    KeysInAre(OrderOf, keys, [o]);
    var j :| 0 <= j < |inside| && StratumOf(inside[j]) == k;
    assert inside[j] in inside;
    var i :| 0 <= i < |keys| && keys[i] == inside[j];
    GroupsAre(StratumOf, keys, k);
  }

  /** The key of an order has one component and is the order of some cell. */
  lemma OrderKey(keys: seq<Key>, k: Key) returns (o: int)
    requires RelabelKeys(keys) && k in Groups(Parent, Groups(Parent, keys))
    ensures k == [o] && [o] in Groups(OrderOf, keys)
  {
    var groups := Groups(Parent, keys);
    GroupsAre(Parent, groups, k);
    var j :| 0 <= j < |groups| && Parent(groups[j]) == k;
    assert groups[j] in groups;
    GroupsAre(Parent, keys, groups[j]);
    var i :| 0 <= i < |keys| && Parent(keys[i]) == groups[j];
    o := keys[i][0];
    GroupsAre(OrderOf, keys, [o]);
    assert OrderOf(keys[i]) == [o];
  }

  lemma TopNonEmpty(keys: seq<Key>, values: seq<real>)
    requires |keys| == |values| && keys != []
    ensures Top(keys, values, 2) != []
    ensures Top(keys, values, 2) == GroupMeans(Parent, Groups(Parent, keys), GroupMeans(Parent, keys, values))
  {
    GroupsDistinct(Parent, keys);
    assert Parent(keys[0]) in Groups(Parent, keys);
    GroupsDistinct(Parent, Groups(Parent, keys));
    assert Parent(Groups(Parent, keys)[0]) in Groups(Parent, Groups(Parent, keys));
    assert Top(keys, values, 2) == Top(Groups(Parent, keys), GroupMeans(Parent, keys, values), 1);
  }

  /**
    When graphs that share a relabeling have equally many relabelings, the gate on all strata implies the gate
    on every order, and a non-negative theta.
   */
  lemma StrataGateImpliesOrderGate(keys: seq<Key>, values: seq<real>)
    requires |keys| == |values| && keys != [] && RelabelKeys(keys) && Even(keys)
    requires NonNegative(GroupMeans(StratumOf, keys, values))
    ensures NonNegative(Top(keys, values, 2)) && Top(keys, values, 2) != [] && Mean(Top(keys, values, 2)) >= 0.0
  {
    var groups, means := Groups(Parent, keys), GroupMeans(Parent, keys, values);
    var orders := Groups(Parent, groups);
    TopNonEmpty(keys, values);
    forall i | 0 <= i < |orders| ensures MeanOr0(Within(Parent, groups, means, orders[i])) >= 0.0 {
      assert orders[i] in orders;
      var o := OrderKey(keys, orders[i]);
      OrderMeans(Parent, keys, values, o);
      OwnStrata(keys, values, o);
      EvenInside(keys, o);
      EvenOrder(KeysIn(OrderOf, keys, [o]), Within(OrderOf, keys, values, [o]));
      MeanSign(Within(Parent, groups, means, [o]));
    }
    SumNonNegative(Top(keys, values, 2));
  }

  // --- The converse -------------------------------------------------------------------------

  /** A loss on one cell, the same gain on another, and nothing elsewhere. */
  function Tilt(a: Key, b: Key, x: real): Key -> real {
    (k: Key) => if k == a then -x else if k == b then x else 0.0
  }

  function If(c: bool, x: real): real {
    if c then x else 0.0
  }

  /** A list of distinct keys with values only at two of them. */
  lemma {:induction false} SumOfTwo(h: Key -> real, keys: seq<Key>, a: Key, b: Key)
    requires Graphs.Distinct(keys) && a != b && forall k :: k != a && k != b ==> h(k) == 0.0
    ensures Sum(Map(h, keys)) == If(a in keys, h(a)) + If(b in keys, h(b))
  {
    if keys != [] {
      var n := |keys| - 1;
      SumOfTwo(h, keys[..n], a, b);
      assert Map(h, keys)[..n] == Map(h, keys[..n]);
      assert keys == keys[..n] + [keys[n]];
      assert keys[n] !in keys[..n];
    }
  }

  /** Two cells of one stratum whose graphs differ in size, the first in the smaller graph. */
  ghost predicate Uneven(keys: seq<Key>, a: Key, b: Key) {
    a in keys && b in keys && StratumOf(a) == StratumOf(b) && GraphSize(keys)(a) < GraphSize(keys)(b)
  }

  lemma TwoCancel(h: Key -> real, keys: seq<Key>, a: Key, b: Key, x: real)
    requires Graphs.Distinct(keys) && a != b && forall k :: k != a && k != b ==> h(k) == 0.0
    requires h(a) == -x && h(b) == x && (a in keys <==> b in keys)
    ensures Sum(Map(h, keys)) == 0.0
  {
    SumOfTwo(h, keys, a, b);
  }

  lemma BothInStratum(keys: seq<Key>, inside: seq<Key>, a: Key, b: Key, k: Key)
    requires Graphs.Distinct(keys) && Sorted(keys, SeqLeq) && Uneven(keys, a, b) && inside == KeysIn(StratumOf, keys, k)
    ensures Graphs.Distinct(inside) && a != b && (a in inside <==> b in inside)
  {
    KeysInSorted(StratumOf, keys, k);
    KeysInAre(StratumOf, keys, k);
  }

  /** Every stratum of a tilted design is zero. */
  lemma TiltedStratum(keys: seq<Key>, a: Key, b: Key, x: real, k: Key)
    requires Graphs.Distinct(keys) && Sorted(keys, SeqLeq) && Uneven(keys, a, b)
    ensures Sum(Within(StratumOf, keys, Map(Tilt(a, b, x), keys), k)) == 0.0
  {
    WithinMapped(StratumOf, keys, Tilt(a, b, x), k);
    BothInStratum(keys, KeysIn(StratumOf, keys, k), a, b, k);
    TwoCancel(Tilt(a, b, x), KeysIn(StratumOf, keys, k), a, b, x);
  }

  lemma TiltedStrata(keys: seq<Key>, a: Key, b: Key, x: real)
    requires Graphs.Distinct(keys) && Sorted(keys, SeqLeq) && Uneven(keys, a, b)
    ensures NonNegative(GroupMeans(StratumOf, keys, Map(Tilt(a, b, x), keys)))
  {
    var values, strata := Map(Tilt(a, b, x), keys), Groups(StratumOf, keys);
    forall i | 0 <= i < |strata| ensures MeanOr0(Within(StratumOf, keys, values, strata[i])) >= 0.0 {
      TiltedStratum(keys, a, b, x, strata[i]);
      NegativeMean(Within(StratumOf, keys, values, strata[i]));
    }
  }

  lemma ShareOfZero(n: nat)
    ensures Share(0.0, n) == 0.0
  {}

  /** The shares of a tilted order sum to those of the two cells. */
  lemma TiltedShares(keys: seq<Key>, inside: seq<Key>, size: Key -> nat, own: Key -> nat, a: Key, b: Key, x: real)
    requires Graphs.Distinct(inside) && a != b && forall k :: k in inside ==> own(k) == size(k)
    ensures Sum(Shares(own, inside, Map(Tilt(a, b, x), inside)))
            == If(a in inside, Share(-x, size(a))) + If(b in inside, Share(x, size(b)))
  {
    var h := Tilt(a, b, x);
    var share := (k: Key) => Share(h(k), size(k));
    var shares := Shares(own, inside, Map(h, inside));
    assert forall i :: 0 <= i < |inside| ==> inside[i] in inside;
    assert shares == Map(share, inside);
    forall k | k != a && k != b ensures share(k) == 0.0 {
      ShareOfZero(size(k));
    }
    SumOfTwo(share, inside, a, b);
  }

  /** What one order of a tilted design sums to. */
  lemma TiltedOrder(keys: seq<Key>, a: Key, b: Key, x: real, o: int)
    requires Graphs.Distinct(keys) && Sorted(keys, SeqLeq) && RelabelKeys(keys) && Uneven(keys, a, b) && x > 0.0
    ensures var values := Map(Tilt(a, b, x), keys);
            var sum := Sum(Within(Parent, Groups(Parent, keys), GroupMeans(Parent, keys, values), [o]));
            if OrderOf(a) == [o] then sum < 0.0 else sum == 0.0
  {
    var inside, size := KeysIn(OrderOf, keys, [o]), GraphSize(keys);
    OrderMeans(Parent, keys, Map(Tilt(a, b, x), keys), o);
    WithinMapped(OrderOf, keys, Tilt(a, b, x), [o]);
    ClassesSum(Parent, inside, Map(Tilt(a, b, x), inside));
    SizesInside(keys, o, inside, size, GraphSize(inside));
    KeysInSorted(OrderOf, keys, [o]);
    TiltedShares(keys, inside, size, GraphSize(inside), a, b, x);
    KeysInAre(OrderOf, keys, [o]);
    SameOrder(a, b);
    NoEmptyGraph(keys, a, size);
    ShareFalls(x, size(a), size(b));
  }

  lemma SameOrder(a: Key, b: Key)
    requires |a| == |b| == 3 && StratumOf(a) == StratumOf(b)
    ensures OrderOf(a) == OrderOf(b)
  {
    assert StratumOf(a)[0] == a[0] && StratumOf(b)[0] == b[0];
  }

  lemma NoEmptyGraph(keys: seq<Key>, a: Key, size: Key -> nat)
    requires a in keys && size == GraphSize(keys)
    ensures size(a) > 0
  {
    KeysInAre(Parent, keys, Parent(a));
    assert a in KeysIn(Parent, keys, Parent(a));
  }

  /** A loss in a small graph outweighs the same gain in a larger one. */
  lemma ShareFalls(x: real, m: nat, n: nat)
    requires x > 0.0 && 0 < m < n
    ensures Share(-x, m) + Share(x, n) < 0.0
  {
    var p, q := x / m as real, x / n as real;
    assert p * m as real == x == q * n as real;
    assert q * (n as real - m as real) > 0.0;
    assert (p - q) * m as real == q * (n as real - m as real);
  }

  /** In a tilted design no order is positive, and that of the two cells is negative. */
  lemma TiltedTop(keys: seq<Key>, a: Key, b: Key, x: real, groups: seq<Key>, means: seq<real>, k: Key)
    requires Graphs.Distinct(keys) && Sorted(keys, SeqLeq) && RelabelKeys(keys) && Uneven(keys, a, b) && x > 0.0
    requires groups == Groups(Parent, keys) && means == GroupMeans(Parent, keys, Map(Tilt(a, b, x), keys))
    requires k in Groups(Parent, groups)
    ensures MeanOr0(Within(Parent, groups, means, k)) <= 0.0
    ensures k == OrderOf(a) ==> MeanOr0(Within(Parent, groups, means, k)) < 0.0
  {
    var o := OrderKey(keys, k);
    TiltedOrder(keys, a, b, x, o);
    NegativeMean(Within(Parent, groups, means, [o]));
  }

  lemma NegativeMean(s: seq<real>)
    ensures Sum(s) < 0.0 ==> MeanOr0(s) < 0.0
    ensures Sum(s) == 0.0 ==> MeanOr0(s) == 0.0
  {
    MeanSign(s);
    ShareIsMean(s);
  }

  lemma OrderPresent(keys: seq<Key>, a: Key)
    requires a in keys && |a| == 3
    ensures OrderOf(a) in Groups(Parent, Groups(Parent, keys))
  {
    GroupsDistinct(Parent, keys);
    assert Parent(a) in Groups(Parent, keys);
    GroupsDistinct(Parent, Groups(Parent, keys));
    assert Parent(Parent(a)) == OrderOf(a);
  }

  /** In a tilted design the strata are zero, and yet an order and theta are negative. */
  lemma TiltFails(keys: seq<Key>, a: Key, b: Key, x: real)
    requires Graphs.Distinct(keys) && Sorted(keys, SeqLeq) && RelabelKeys(keys) && Uneven(keys, a, b) && x > 0.0
    ensures var values := Map(Tilt(a, b, x), keys);
            && NonNegative(GroupMeans(StratumOf, keys, values)) && Top(keys, values, 2) != []
            && !NonNegative(Top(keys, values, 2)) && Mean(Top(keys, values, 2)) < 0.0
  {
    var values, groups := Map(Tilt(a, b, x), keys), Groups(Parent, keys);
    var means, orders := GroupMeans(Parent, keys, values), Groups(Parent, groups);
    TiltedStrata(keys, a, b, x);
    TopNonEmpty(keys, values);
    OrderPresent(keys, a);
    var top := Top(keys, values, 2);
    forall i | 0 <= i < |orders| ensures top[i] <= 0.0 && (orders[i] == OrderOf(a) ==> top[i] < 0.0) {
      assert orders[i] in orders;
      TiltedTop(keys, a, b, x, groups, means, orders[i]);
    }
    var j :| 0 <= j < |orders| && orders[j] == OrderOf(a);
    SumNegative(top, j);
    MeanSign(top);
  }

  lemma {:induction false} SumNegative(s: seq<real>, j: nat)
    requires j < |s| && s[j] < 0.0 && forall i :: 0 <= i < |s| ==> s[i] <= 0.0
    ensures Sum(s) < 0.0
  {
    var n := |s| - 1;
    if j < n {
      SumNegative(s[..n], j);
    } else {
      SumNonPositive(s[..n]);
    }
  }

  lemma {:induction false} SumNonPositive(s: seq<real>)
    requires forall i :: 0 <= i < |s| ==> s[i] <= 0.0
    ensures Sum(s) <= 0.0
  {
    if s != [] {
      SumNonPositive(s[..|s| - 1]);
    }
  }

  /** A design that is not even has such a pair of cells. */
  lemma UnevenPair(keys: seq<Key>) returns (a: Key, b: Key)
    requires !Even(keys)
    ensures Uneven(keys, a, b)
  {
    var size := GraphSize(keys);
    a, b :| a in keys && b in keys && StratumOf(a) == StratumOf(b) && size(a) != size(b);
    if size(b) < size(a) {
      a, b := b, a;
    }
  }

  // --- When the strata of an order have its mean --------------------------------------------

  /** The share of a cell in the mean over the classes. */
  ghost function Weight(f: Key -> Key, keys: seq<Key>): Key -> nat {
    (k: Key) => Times(ClassSize(f, keys)(k), |Groups(f, keys)|)
  }

  function Times(m: nat, n: nat): nat {
    m * n
  }

  /** For every cell, relabelings of its graph times graphs is graphs of its stratum times strata. */
  ghost predicate Proportional(keys: seq<Key>) {
    SameWeights(Weight(Parent, keys), Weight(StratumOf, keys), keys)
  }

  ghost predicate SameWeights(x: Key -> nat, y: Key -> nat, keys: seq<Key>) {
    forall k :: k in keys ==> x(k) == y(k)
  }

  lemma ShareOfShare(x: real, n: nat, g: nat)
    requires n > 0 && g > 0
    ensures Times(n, g) > 0 && Share(Share(x, n), g) == Share(x, Times(n, g))
  {
    PositiveProduct(n, g);
    Twice(x, n as real, g as real, Times(n, g) as real);
  }

  lemma PositiveProduct(n: nat, g: nat)
    requires n > 0 && g > 0
    ensures Times(n, g) > 0 && n as real * g as real == Times(n, g) as real
  {}

  lemma {:induction false} SumShared(a: seq<real>, b: seq<real>, g: nat)
    requires g > 0 && |a| == |b| && forall i :: 0 <= i < |a| ==> b[i] == Share(a[i], g)
    ensures Sum(b) == Share(Sum(a), g)
  {
    SumScaled(a, b, g as real);
  }

  lemma ClassNonEmpty(f: Key -> Key, keys: seq<Key>, k: Key)
    requires k in keys
    ensures ClassSize(f, keys)(k) > 0 && |Groups(f, keys)| > 0
  {
    KeysInAre(f, keys, f(k));
    assert k in KeysIn(f, keys, f(k));
    GroupsDistinct(f, keys);
    assert f(k) in Groups(f, keys);
  }

  /** The mean over the classes weighs every cell. */
  lemma MeanByWeights(f: Key -> Key, keys: seq<Key>, values: seq<real>)
    requires |keys| == |values| && keys != []
    ensures GroupMeans(f, keys, values) != []
    ensures Mean(GroupMeans(f, keys, values)) == Sum(Shares(Weight(f, keys), keys, values))
  {
    var size, g := ClassSize(f, keys), |Groups(f, keys)|;
    ClassNonEmpty(f, keys, keys[0]);
    ClassesSum(f, keys, values);
    var a, b := Shares(size, keys, values), Shares(Weight(f, keys), keys, values);
    forall i | 0 <= i < |a| ensures b[i] == Share(a[i], g) {
      ClassNonEmpty(f, keys, keys[i]);
      ShareOfShare(values[i], size(keys[i]), g);
    }
    SumShared(a, b, g);
  }

  lemma SameShares(x: Key -> nat, y: Key -> nat, keys: seq<Key>, values: seq<real>)
    requires |keys| == |values| && SameWeights(x, y, keys)
    ensures Shares(x, keys, values) == Shares(y, keys, values)
  {
    assert forall i :: 0 <= i < |keys| ==> keys[i] in keys;
  }

  /** In a proportional order the mean of the strata is the mean of the graphs. */
  lemma StrataMeanIsOrderMean(keys: seq<Key>, values: seq<real>)
    requires |keys| == |values| && keys != [] && Proportional(keys)
    ensures GroupMeans(Parent, keys, values) != [] && GroupMeans(StratumOf, keys, values) != []
    ensures Mean(GroupMeans(Parent, keys, values)) == Mean(GroupMeans(StratumOf, keys, values))
  {
    MeanByWeights(Parent, keys, values);
    MeanByWeights(StratumOf, keys, values);
    SameShares(Weight(Parent, keys), Weight(StratumOf, keys), keys, values);
  }

  /** A value on one cell and nothing elsewhere. */
  function Spike(a: Key, x: real): Key -> real {
    (k: Key) => if k == a then x else 0.0
  }

  lemma SpikeShares(weight: Key -> nat, keys: seq<Key>, a: Key, x: real)
    requires Graphs.Distinct(keys) && a in keys
    ensures Sum(Shares(weight, keys, Map(Spike(a, x), keys))) == Share(x, weight(a))
  {
    var h := Spike(a, x);
    var share := (k: Key) => Share(h(k), weight(k));
    assert Shares(weight, keys, Map(h, keys)) == Map(share, keys);
    forall k | k != a ensures share(k) == 0.0 {
      ShareOfZero(weight(k));
    }
    assert a + [0] != a;
    SumOfTwo(share, keys, a, a + [0]);
  }

  lemma ShareDiffers(x: real, m: nat, n: nat)
    requires x > 0.0 && m > 0 && n > 0 && m != n
    ensures Share(x, m) != Share(x, n)
  {
    if m < n {
      ShareFalls(x, m, n);
    } else {
      ShareFalls(x, n, m);
    }
    ShareNegated(x, m);
    ShareNegated(x, n);
  }

  lemma ShareNegated(x: real, n: nat)
    requires n > 0
    ensures Share(-x, n) == -Share(x, n)
  {}

  lemma WeightPositive(f: Key -> Key, keys: seq<Key>, a: Key)
    requires a in keys
    ensures Weight(f, keys)(a) > 0
  {
    ClassNonEmpty(f, keys, a);
    PositiveProduct(ClassSize(f, keys)(a), |Groups(f, keys)|);
  }

  /** A cell of different weight in the two means makes them differ. */
  lemma SpikeDiffers(keys: seq<Key>, a: Key, x: real)
    requires Graphs.Distinct(keys) && a in keys && x > 0.0 && Weight(Parent, keys)(a) != Weight(StratumOf, keys)(a)
    ensures var values := Map(Spike(a, x), keys);
            && GroupMeans(Parent, keys, values) != [] && GroupMeans(StratumOf, keys, values) != []
            && Mean(GroupMeans(Parent, keys, values)) != Mean(GroupMeans(StratumOf, keys, values))
  {
    var values := Map(Spike(a, x), keys);
    MeanByWeights(Parent, keys, values);
    MeanByWeights(StratumOf, keys, values);
    SpikeShares(Weight(Parent, keys), keys, a, x);
    SpikeShares(Weight(StratumOf, keys), keys, a, x);
    WeightPositive(Parent, keys, a);
    WeightPositive(StratumOf, keys, a);
    ShareDiffers(x, Weight(Parent, keys)(a), Weight(StratumOf, keys)(a));
  }

  lemma UniformWeight(f: Key -> Key, keys: seq<Key>, n: nat, k: Key)
    requires Uniform(f, keys, n) && k in keys
    ensures Weight(f, keys)(k) == |keys|
  {
    GroupsDistinct(f, keys);
    assert f(k) in Groups(f, keys);
    ClassCount(f, keys, Groups(f, keys), n);
    WholeProduct(n, |Groups(f, keys)|, |keys|);
    assert ClassSize(f, keys)(k) == n;
  }

  lemma WholeProduct(m: nat, n: nat, p: nat)
    requires Product(m, n) == p as real
    ensures Times(m, n) == p
  {
    assert Times(m, n) as real == m as real * n as real;
  }

  /** Orders with equally many relabelings a graph and graphs a relabeling are proportional. */
  lemma BalancedIsProportional(keys: seq<Key>)
    requires BalancedOrder(keys)
    ensures Proportional(keys)
  {
    var n, m :| Uniform(Parent, keys, n) && Uniform(StratumOf, keys, m);
    forall k | k in keys ensures Weight(Parent, keys)(k) == Weight(StratumOf, keys)(k) {
      UniformWeight(Parent, keys, n, k);
      UniformWeight(StratumOf, keys, m, k);
    }
  }
}
