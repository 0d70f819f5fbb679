/** The common-neighbour count of the toy scorer counts every 4-cycle exactly twice. */
module FourCycles {
  import opened Graphs
  import opened Models

  /** The edges of the closed walk a, b, c, d, as an undirected figure. */
  function Square(a: int, b: int, c: int, d: int): set<Edge> {
    {NormalizedEdge((a, b)), NormalizedEdge((b, c)), NormalizedEdge((c, d)), NormalizedEdge((d, a))}
  }

  /** All 4-cycles of g, each identified with its set of edges. */
  ghost function Squares(g: Adjacency): set<set<Edge>> {
    set a, b, c, d | a in UpTo(|g|) && b in UpTo(|g|) && c in UpTo(|g|) && d in UpTo(|g|)
                     && Cycle(g, [a, b, c, d]) :: Square(a, b, c, d)
  }

  // A pair of opposite corners u < v together with a pair x < y of their common neighbours.
  type Diagonal = (int, int, int, int)

  ghost predicate IsDiagonal(g: Adjacency, q: Diagonal) {
    && 0 <= q.0 < q.1 < |g| && 0 <= q.2 < q.3 < |g|
    && q.2 in g[q.0] && q.3 in g[q.0] && q.2 in g[q.1] && q.3 in g[q.1]
  }

  ghost function Diagonals(g: Adjacency): (r: set<Diagonal>)
    ensures forall q :: q in r <==> IsDiagonal(g, q)
  {
    set u, v, x, y | u in UpTo(|g|) && v in UpTo(|g|) && x in UpTo(|g|) && y in UpTo(|g|)
                     && IsDiagonal(g, (u, v, x, y)) :: (u, v, x, y)
  }

  // --- Counting with injections -------------------------------------------------------------

  lemma {:induction false} ImageSize<T, U>(s: set<T>, f: T -> U, t: set<U>)
    requires forall x, y :: x in s && y in s && f(x) == f(y) ==> x == y
    requires forall x :: x in s ==> f(x) in t
    requires forall y :: y in t ==> exists x :: x in s && f(x) == y
    ensures |t| == |s|
  {
    if s != {} {
      var x :| x in s;
      ImageSize(s - {x}, f, t - {f(x)});
    } else {
      assert t == {};
    }
  }

  ghost function Pairs(s: set<int>): (r: set<(int, int)>)
    ensures forall x, y :: (x, y) in r <==> x in s && y in s && x < y
  {
    set x, y | x in s && y in s && x < y :: (x, y)
  }

  ghost function PairsWith(s: set<int>, z: int): (r: set<(int, int)>) {
    set w | w in s :: NormalizedEdge((z, w))
  }

  lemma PairsWithSize(s: set<int>, z: int)
    requires z !in s
    ensures |PairsWith(s, z)| == |s|
  {
    ImageSize(s, (w: int) => NormalizedEdge((z, w)), PairsWith(s, z));
  }

  lemma PairsSplit(s: set<int>, z: int)
    requires z in s
    ensures Pairs(s) == Pairs(s - {z}) + PairsWith(s - {z}, z)
    ensures Pairs(s - {z}) * PairsWith(s - {z}, z) == {}
  {
    forall p | p in Pairs(s) ensures p in Pairs(s - {z}) + PairsWith(s - {z}, z) {
      if p.0 == z {
        assert NormalizedEdge((z, p.1)) == p;
      } else if p.1 == z {
        assert NormalizedEdge((z, p.0)) == p;
      }
    }
  }

  lemma {:induction false} PairsSize(s: set<int>)
    ensures |Pairs(s)| == PairCount(|s|)
  {
    if s == {} {
      assert Pairs(s) == {};
    } else {
      var z := Member(s);
      var s' := s - {z};
      assert |s'| == |s| - 1;
      PairsSize(s');
      PairsSplit(s, z);
      PairsWithSize(s', z);
      UnionSize(Pairs(s'), PairsWith(s', z), Pairs(s));
    }
  }

  // --- Every square has two diagonals -------------------------------------------------------

  /** Diagonals whose least vertex is a corner of the first pair. */
  ghost function Least(g: Adjacency): (r: set<Diagonal>)
    ensures forall q :: q in r <==> IsDiagonal(g, q) && q.0 < q.2
  {
    set q | q in Diagonals(g) && q.0 < q.2
  }

  function Turned(q: Diagonal): Diagonal {
    (q.2, q.3, q.0, q.1)
  }

  function Outline(q: Diagonal): set<Edge> {
    Square(q.0, q.2, q.1, q.3)
  }

  ghost function TurnedLeast(g: Adjacency): set<Diagonal> {
    set q | q in Least(g) :: Turned(q)
  }

  lemma DiagonalsSplit(g: Adjacency)
    requires Simple(g)
    ensures Diagonals(g) == Least(g) + TurnedLeast(g) && Least(g) * TurnedLeast(g) == {}
  {
    forall q | q in Diagonals(g) ensures q in Least(g) + TurnedLeast(g) {
      if q.0 >= q.2 {
        assert q.2 in g[q.0] && q.0 != q.2;
        assert IsDiagonal(g, Turned(q)) && Turned(q) in Least(g) && Turned(Turned(q)) == q;
      }
    }
  }

  lemma TwoDiagonals(g: Adjacency)
    requires Simple(g)
    ensures |Diagonals(g)| == 2 * |Least(g)|
  {
    DiagonalsSplit(g);
    ImageSize(Least(g), Turned, TurnedLeast(g));
    UnionSize(Least(g), TurnedLeast(g), Diagonals(g));
  }

  lemma DiagonalIsCycle(g: Adjacency, q: Diagonal)
    requires Simple(g) && IsDiagonal(g, q)
    ensures Cycle(g, [q.0, q.2, q.1, q.3])
  {
    var c := [q.0, q.2, q.1, q.3];
    assert c[1] in g[c[0]] && c[2] in g[c[1]] && c[3] in g[c[2]] && c[0] in g[c[3]];
  }

  lemma OutlineInjective(g: Adjacency, p: Diagonal, q: Diagonal)
    requires Simple(g) && p in Least(g) && q in Least(g) && Outline(p) == Outline(q)
    ensures p == q
  {
    assert (p.0, p.2) in Outline(q) && (p.0, p.3) in Outline(q);
    assert (q.0, q.2) in Outline(p) && (q.0, q.3) in Outline(p);
    assert p.0 == q.0 && p.2 == q.2 && p.3 == q.3;
    assert NormalizedEdge((p.2, p.1)) in Outline(q);
    assert p.1 != p.2 && p.1 != p.3 && q.1 != q.2 && q.1 != q.3;
  }

  lemma SquareHasDiagonal(g: Adjacency, a: int, b: int, c: int, d: int)
    requires Simple(g) && Cycle(g, [a, b, c, d])
    ensures exists q :: q in Least(g) && Outline(q) == Square(a, b, c, d)
  {
    var s := [a, b, c, d];
    assert s[1] in g[s[0]] && s[2] in g[s[1]] && s[3] in g[s[2]] && s[0] in g[s[3]];
    assert s[0] != s[2] && s[1] != s[3] && s[0] != s[1] && s[0] != s[3] && s[1] != s[2] && s[2] != s[3];
    var (u, v) := NormalizedEdge((a, c));
    var (x, y) := NormalizedEdge((b, d));
    assert IsDiagonal(g, (u, v, x, y)) && IsDiagonal(g, (x, y, u, v));
    assert Outline((u, v, x, y)) == Square(a, b, c, d) == Outline((x, y, u, v));
    assert u != x;
    if u < x {
      assert (u, v, x, y) in Least(g);
    } else {
      assert (x, y, u, v) in Least(g);
    }
  }

  lemma SquaresAreOutlines(g: Adjacency)
    requires Simple(g)
    ensures Squares(g) == set q | q in Least(g) :: Outline(q)
  {
    forall e | e in Squares(g) ensures exists q :: q in Least(g) && Outline(q) == e {
      var a, b, c, d :| Cycle(g, [a, b, c, d]) && Square(a, b, c, d) == e;
      SquareHasDiagonal(g, a, b, c, d);
    }
    forall q | q in Least(g) ensures Outline(q) in Squares(g) {
      DiagonalIsCycle(g, q);
      assert q.0 in UpTo(|g|) && q.2 in UpTo(|g|) && q.1 in UpTo(|g|) && q.3 in UpTo(|g|);
    }
  }

  /** The double count: pairs of common neighbours over all pairs of vertices are twice the 4-cycles. */
  lemma DoubleCount(g: Adjacency)
    requires Simple(g)
    ensures |Diagonals(g)| == 2 * |Squares(g)|
  {
    TwoDiagonals(g);
    SquaresAreOutlines(g);
    forall p, q | p in Least(g) && q in Least(g) && Outline(p) == Outline(q) ensures p == q {
      OutlineInjective(g, p, q);
    }
    ImageSize(Least(g), Outline, Squares(g));
  }

  lemma NoSquareIffNoCycle(g: Adjacency)
    requires Simple(g)
    ensures Squares(g) == {} <==> !HasCycle(g, 4)
  {
    if HasCycle(g, 4) {
      var c :| Cycle(g, c) && |c| == 4;
      assert c == [c[0], c[1], c[2], c[3]];
      assert Square(c[0], c[1], c[2], c[3]) in Squares(g);
    }
    forall e | e in Squares(g) ensures HasCycle(g, 4) {
      var a, b, c, d :| Cycle(g, [a, b, c, d]) && Square(a, b, c, d) == e;
      assert |[a, b, c, d]| == 4;
    }
  }

  // --- The loops of the scorer --------------------------------------------------------------

  // The accumulated sums: over the pairs (u, w) with u < w < v, and over all rows before u.
  function RowSum(g: Adjacency, u: nat, v: nat): nat
    requires u < |g| && v <= |g|
  {
    if v <= u + 1 then 0 else RowSum(g, u, v - 1) + CommonPairs(g, u, v - 1)
  }

  function CommonPairs(g: Adjacency, u: nat, v: nat): nat
    requires u < |g| && v < |g|
  {
    PairCount(|g[u] * g[v]|)
  }

  function RowsSum(g: Adjacency, u: nat): nat
    requires u <= |g|
  {
    if u == 0 then 0 else RowsSum(g, u - 1) + RowSum(g, u - 1, |g|)
  }

  /** The diagonals with first pair (u, w), w < v, and those whose first pair is in a row before u. */
  ghost function Row(g: Adjacency, u: int, v: int): set<Diagonal>
  {
    set q | q in Diagonals(g) && q.0 == u && q.1 < v
  }

  ghost function Rows(g: Adjacency, u: int): set<Diagonal>
  {
    set q | q in Diagonals(g) && q.0 < u
  }

  /** The diagonals with first pair (u, v), one for each pair of common neighbours. */
  ghost function From(g: Adjacency, u: int, v: int): set<Diagonal>
    requires 0 <= u < |g| && 0 <= v < |g|
  {
    set p | p in Pairs(g[u] * g[v]) :: (u, v, p.0, p.1)
  }

  lemma FromSize(g: Adjacency, u: int, v: int)
    requires 0 <= u < |g| && 0 <= v < |g|
    ensures |From(g, u, v)| == CommonPairs(g, u, v)
  {
    ImageSize(Pairs(g[u] * g[v]), (p: (int, int)) => (u, v, p.0, p.1), From(g, u, v));
    PairsSize(g[u] * g[v]);
  }

  lemma RowDisjoint(g: Adjacency, u: int, w: int)
    requires 0 <= u < |g| && 0 <= w < |g|
    ensures Row(g, u, w) * From(g, u, w) == {}
  {
    assert forall q :: q in From(g, u, w) ==> q.1 == w;
  }

  lemma RowSplit(g: Adjacency, u: int, w: int, v: int)
    requires Simple(g) && 0 <= u < w < |g| && v == w + 1
    ensures Row(g, u, v) == Row(g, u, w) + From(g, u, w)
  {
    forall q ensures q in Row(g, u, v) <==> q in Row(g, u, w) || q in From(g, u, w) {
      if q in Row(g, u, v) && q.1 == w {
        var p := (q.2, q.3);
        assert p in Pairs(g[u] * g[w]) && (u, w, p.0, p.1) == q;
      }
      if q in From(g, u, w) {
        var p :| p in Pairs(g[u] * g[w]) && (u, w, p.0, p.1) == q;
        assert p.0 in g[u] && p.1 in g[u];
        assert IsDiagonal(g, q);
      }
    }
  }

  lemma RowSplitSize(g: Adjacency, u: int, w: int, v: int)
    requires Simple(g) && 0 <= u < w < |g| && v == w + 1
    ensures |Row(g, u, v)| == |Row(g, u, w)| + CommonPairs(g, u, w)
  {
    RowSplit(g, u, w, v);
    RowDisjoint(g, u, w);
    UnionSize(Row(g, u, w), From(g, u, w), Row(g, u, v));
    FromSize(g, u, w);
  }

  lemma RowSumUnfolds(g: Adjacency, u: nat, w: nat, v: nat)
    requires u < w < |g| && v == w + 1
    ensures RowSum(g, u, v) == RowSum(g, u, w) + CommonPairs(g, u, w)
  {}

  lemma RowSumStep(g: Adjacency, u: nat, w: nat, v: nat)
    requires Simple(g) && u < w < |g| && v == w + 1 && |Row(g, u, w)| == RowSum(g, u, w)
    ensures |Row(g, u, v)| == RowSum(g, u, v)
  {
    RowSumUnfolds(g, u, w, v);
    RowSplitSize(g, u, w, v);
  }

  lemma RowEmpty(g: Adjacency, u: int, v: int)
    requires v <= u + 1
    ensures |Row(g, u, v)| == 0
  {
    assert Row(g, u, v) == {};
  }

  lemma {:induction false} RowSize(g: Adjacency, u: nat, v: nat)
    requires Simple(g) && u < |g| && v <= |g|
    ensures |Row(g, u, v)| == RowSum(g, u, v)
    decreases v
  {
    if v <= u + 1 {
      RowEmpty(g, u, v);
    } else {
      var w := v - 1;
      RowSize(g, u, w);
      RowSumStep(g, u, w, v);
    }
  }

  lemma RowsSplit(g: Adjacency, w: int, u: int)
    requires u == w + 1
    ensures |Rows(g, u)| == |Rows(g, w)| + |Row(g, w, |g|)|
  {
    var a, b := Rows(g, w), Row(g, w, |g|);
    assert forall q :: q in b ==> q.0 == w;
    assert a * b == {};
    assert Rows(g, u) == a + b;
    UnionSize(a, b, Rows(g, u));
  }

  lemma NoRows(g: Adjacency)
    ensures |Rows(g, 0)| == 0
  {
    assert Rows(g, 0) == {};
  }

  lemma {:induction false} RowsSize(g: Adjacency, u: nat)
    requires Simple(g) && u <= |g|
    ensures |Rows(g, u)| == RowsSum(g, u)
  {
    if u == 0 {
      NoRows(g);
    } else {
      var w := u - 1;
      var before, now, row := |Rows(g, w)|, |Rows(g, u)|, |Row(g, w, |g|)|;
      assert now == before + row by {
        RowsSplit(g, w, u);
      }
      assert row == RowSum(g, w, |g|) by {
        RowSize(g, w, |g|);
      }
      RowsSize(g, w);
    }
  }

  /** The sum of the double loop is twice the number of 4-cycles. */
  lemma RowsSumIsTwiceSquares(g: Adjacency)
    requires Simple(g)
    ensures RowsSum(g, |g|) == 2 * |Squares(g)|
  {
    RowsSize(g, |g|);
    assert Rows(g, |g|) == Diagonals(g);
    DoubleCount(g);
  }

  /** The accumulator twice_squares and its half: the number of 4-cycles. */
  method CountSquares(g: Adjacency) returns (squares: nat)
    requires Simple(g)
    ensures squares == |Squares(g)|
  {
    var twice_squares: nat := 0;
    for u := 0 to |g|
      invariant twice_squares == RowsSum(g, u)
    {
      for v := u + 1 to |g|
        invariant twice_squares == RowsSum(g, u) + RowSum(g, u, v)
      {
        var common := |g[u] * g[v]|;
        PairCountFormula(common);
        twice_squares := twice_squares + common * (common - 1) / 2;
      }
    }
    RowsSumIsTwiceSquares(g);
    squares := twice_squares / 2;
  }
}
