/** The meet-in-the-middle search for simple cycles of the independent verifier. */
module CycleSearch {
  import opened Wrappers
  import opened Graphs
  import Arithmetic

  /** The adjacency sets of a graph given as neighbour lists. */
  function Sets(lists: seq<seq<int>>): (g: Adjacency)
    ensures |g| == |lists|
    ensures forall v :: 0 <= v < |lists| ==> g[v] == Vertices(lists[v])
  {
    seq(|lists|, v requires 0 <= v < |lists| => Vertices(lists[v]))
  }

  // --- Half paths ---------------------------------------------------------------------------

  /** A simple path from start that otherwise stays strictly above start. */
  ghost predicate HalfPath(g: Adjacency, start: int, p: seq<int>) {
    Path(g, p) && p[0] == start && forall i :: 1 <= i < |p| ==> p[i] > start
  }

  /** Two half paths of k vertices meet only in their two ends. */
  ghost predicate Meets(p: seq<int>, q: seq<int>)
    requires p != [] && q != []
  {
    p[|p| - 1] == q[|q| - 1] && Vertices(p) * Vertices(q) == {p[0], p[|p| - 1]}
  }

  function Joined(p: seq<int>, q: seq<int>): seq<int>
    requires |q| >= 2
  {
    p + Reversed(q[1..|q| - 1])
  }

  lemma JoinedIsCycle(g: Adjacency, start: int, p: seq<int>, q: seq<int>)
    requires Simple(g) && HalfPath(g, start, p) && HalfPath(g, start, q)
    requires |p| == |q| >= 3 && Meets(p, q)
    ensures Cycle(g, Joined(p, q)) && |Joined(p, q)| == 2 * (|p| - 1) && LeastFirst(Joined(p, q), start)
  {
    var n := |p|;
    var c := Joined(p, q);
    assert |c| == 2 * n - 2;
    assert forall i :: 0 <= i < n ==> c[i] == p[i];
    assert forall i :: n <= i < |c| ==> c[i] == q[|c| - i];
    forall i, j | 0 <= i < j < |c| ensures c[i] != c[j] {
      if i < n <= j {
        var m := |c| - j;
        assert 1 <= m < n - 1 && c[j] == q[m];
        var v := q[m];
        assert p[i] in Vertices(p) && v in Vertices(q) && v !in {p[0], p[n - 1]};
        assert v in Vertices(p) ==> v in Vertices(p) * Vertices(q);
      } else if n <= i {
        assert c[i] == q[|c| - i] && c[j] == q[|c| - j];
      }
    }
    forall i | 0 <= i < |c| - 1 ensures c[i + 1] in g[c[i]] {
      if i == n - 1 {
        assert c[i] == q[n - 1] && c[i + 1] == q[n - 2];
        assert q[n - 2 + 1] in g[q[n - 2]];
      } else if i >= n {
        var m := |c| - i;
        assert c[i] == q[m] && c[i + 1] == q[m - 1];
        assert q[m - 1 + 1] in g[q[m - 1]];
      }
    }
    assert c[|c| - 1] == q[1] && q[0 + 1] in g[q[0]];
  }

  /** The two halves of a cycle c of length 2h, both read from c[0] to c[h]. */
  function Forward(c: seq<int>, h: nat): (p: seq<int>)
    requires |c| == 2 * h
    ensures |p| == if h == 0 then 0 else h + 1
    ensures forall i :: 0 <= i < |p| ==> p[i] == c[i]
  {
    if h == 0 then [] else c[..h + 1]
  }

  function Backward(c: seq<int>, h: nat): (q: seq<int>)
    requires |c| == 2 * h && h >= 1
    ensures |q| == h + 1
    ensures forall i :: 0 <= i < |q| ==> q[i] == if i == 0 then c[0] else c[2 * h - i]
  {
    [c[0]] + Reversed(c[h..])
  }

  lemma BackwardIsPath(g: Adjacency, c: seq<int>, h: nat)
    requires Simple(g) && Cycle(g, c) && |c| == 2 * h
    ensures Path(g, Backward(c, h))
  {
    var q := Backward(c, h);
    forall i | 0 <= i < |q| - 1 ensures q[i + 1] in g[q[i]] {
      if i == 0 {
        assert q[1] == c[|c| - 1];
      } else {
        var m := 2 * h - i - 1;
        assert c[m + 1] in g[c[m]];
      }
    }
  }

  lemma HalvesMeet(g: Adjacency, c: seq<int>, h: nat)
    requires Cycle(g, c) && |c| == 2 * h && h >= 2
    ensures Meets(Forward(c, h), Backward(c, h))
  {
    var p, q := Forward(c, h), Backward(c, h);
    forall v | v in Vertices(p) * Vertices(q) ensures v in {c[0], c[h]} {
      var i :| 0 <= i < |p| && p[i] == v;
      var j :| 0 <= j < |q| && q[j] == v;
      assert j > 0 ==> c[i] == c[2 * h - j];
    }
    assert p[0] in p && q[0] in q && p[h] in p && q[h] in q;
  }

  /** The list starts with this vertex and is otherwise above it. */
  ghost predicate LeastFirst(c: seq<int>, start: int) {
    c != [] && c[0] == start && forall i :: 1 <= i < |c| ==> start < c[i]
  }

  /** The least vertex of some cycle of the given length is start. */
  ghost predicate CycleLeastAt(g: Adjacency, length: nat, start: int) {
    exists c :: Cycle(g, c) && |c| == length && LeastFirst(c, start)
  }

  lemma LeastVertexExists(g: Adjacency, c: seq<int>)
    requires Cycle(g, c)
    ensures exists start :: 0 <= start < |g| && CycleLeastAt(g, |c|, start)
  {
    var k := LeastAt(c);
    RotatedCycle(g, c, k);
    var r := Rotated(c, k);
    assert Cycle(g, r) && |r| == |c| && r[0] == c[k];
    assert CycleLeastAt(g, |c|, r[0]);
  }

  // --- The search from one start ------------------------------------------------------------

  /** A stack entry: the end of the path, the path and the bit mask of its vertices. */
  datatype Frame = Frame(vertex: int, path: seq<int>, mask: set<int>)

  ghost predicate GoodFrame(g: Adjacency, start: int, f: Frame) {
    HalfPath(g, start, f.path) && f.vertex == f.path[|f.path| - 1] && f.mask == Vertices(f.path)
  }

  lemma ExtendedPath(g: Adjacency, start: int, p: seq<int>, w: int)
    requires Simple(g) && HalfPath(g, start, p) && w in g[p[|p| - 1]] && w > start && w !in p
    ensures HalfPath(g, start, p + [w]) && Vertices(p + [w]) == Vertices(p) + {w}
  {
    AppendedVertex(p, w);
    var q := p + [w];
    assert forall i :: 0 <= i < |p| ==> q[i] == p[i] && p[i] in p;
    assert forall i, j :: 0 <= i < j < |p| ==> q[i] != q[j];
    assert q[|p|] == w;
    assert Distinct(q);
    forall i | 0 <= i < |q| - 1 ensures q[i + 1] in g[q[i]] {
      if i < |p| - 1 {
        assert p[i + 1] in g[p[i]];
      }
    }
  }

  /** A popped path and one more neighbour of its end. */
  function Extended(f: Frame, w: int): Frame {
    Frame(w, f.path + [w], f.mask + {w})
  }

  predicate Allowed(start: int, f: Frame, w: int) {
    w > start && w !in f.path
  }

  lemma ExtendedFrame(lists: seq<seq<int>>, start: int, f: Frame, w: int)
    requires Simple(Sets(lists)) && GoodFrame(Sets(lists), start, f) && w in lists[f.vertex] && Allowed(start, f, w)
    ensures GoodFrame(Sets(lists), start, Extended(f, w))
  {
    assert w in Sets(lists)[f.vertex];
    ExtendedPath(Sets(lists), start, f.path, w);
  }

  /** The extensions pushed for one popped path: by every allowed neighbour of its end, and by nothing else. */
  method Extensions(lists: seq<seq<int>>, start: int, f: Frame) returns (pushed: seq<Frame>)
    requires Simple(Sets(lists)) && GoodFrame(Sets(lists), start, f)
    ensures |pushed| <= |lists[f.vertex]|
    ensures forall e :: e in pushed ==>
                          e == Extended(f, e.vertex) && e.vertex in lists[f.vertex] && Allowed(start, f, e.vertex)
    ensures forall w :: w in lists[f.vertex] && Allowed(start, f, w) ==> Extended(f, w) in pushed
  {
    pushed := [];
    for i := 0 to |lists[f.vertex]|
      invariant |pushed| <= i
      invariant forall e :: e in pushed ==>
                              e == Extended(f, e.vertex) && e.vertex in lists[f.vertex] && Allowed(start, f, e.vertex)
      invariant forall j :: 0 <= j < i && Allowed(start, f, lists[f.vertex][j]) ==>
                Extended(f, lists[f.vertex][j]) in pushed
    {
      var neighbor := lists[f.vertex][i];
      if neighbor <= start || neighbor in f.mask {
        continue;
      }
      pushed := pushed + [Frame(neighbor, f.path + [neighbor], f.mask + {neighbor})];
    }
  }

  /** The stored half path closes a cycle with the popped one. */
  predicate Closes(stored: (seq<int>, set<int>), start: int, f: Frame) {
    f.mask * stored.1 == {start} + {f.vertex}
  }

  /** The first stored half path that meets the given one, as the two halves of a cycle. */
  method Match(stored: seq<(seq<int>, set<int>)>, start: int, f: Frame) returns (r: Option<seq<int>>)
    requires forall e :: e in stored ==> |e.0| >= 2
    ensures r.Some? ==>
            exists i :: 0 <= i < |stored| && Closes(stored[i], start, f) && r.value == Joined(f.path, stored[i].0)
                                    && forall j :: 0 <= j < i ==> !Closes(stored[j], start, f)
    ensures r.None? ==> forall e :: e in stored ==> !Closes(e, start, f)
  {
    for i := 0 to |stored|
      invariant forall j :: 0 <= j < i ==> !Closes(stored[j], start, f)
    {
      if f.mask * stored[i].1 == {start} + {f.vertex} {
        return Some(Joined(f.path, stored[i].0));
      }
    }
    return None;
  }

  /** Every full half path is already stored or still has a prefix on the stack. */
  ghost predicate Pending(stack: seq<Frame>, done: set<seq<int>>, p: seq<int>) {
    p in done || exists i :: 0 <= i < |stack| && stack[i].path <= p
  }

  ghost predicate Covered(g: Adjacency, start: int, half: nat, stack: seq<Frame>, done: set<seq<int>>) {
    forall p :: HalfPath(g, start, p) && |p| == half + 1 ==> Pending(stack, done, p)
  }

  /** The stored half paths, by end point, are exactly those of done, and no two of them meet. */
  ghost predicate Stored(g: Adjacency, start: int, half: nat,
                         paths: map<int, seq<(seq<int>, set<int>)>>, done: set<seq<int>>) {
    && (forall v, e :: v in paths && e in paths[v] ==>
          HalfPath(g, start, e.0) && |e.0| == half + 1 && e.0[half] == v && e.1 == Vertices(e.0) && e.0 in done)
    && (forall p :: p in done ==>
          HalfPath(g, start, p) && |p| == half + 1 && p[half] in paths && (p, Vertices(p)) in paths[p[half]])
    && (forall p, q :: p in done && q in done ==> !Meets(p, q))
  }

  // Termination: a path of m vertices weighs (d + 1)^(half + 1 - m), where d bounds every degree,
  // so a popped path outweighs all of its extensions together.
  ghost function Weight(stack: seq<Frame>, base: nat, full: nat): nat {
    if stack == [] then 0
    else
      var top := stack[|stack| - 1];
      Weight(stack[..|stack| - 1], base, full) + (if |top.path| <= full then Arithmetic.Power(base, full - |top.path|)
                                                  else 0)
  }

  lemma {:induction false} WeightPushed(stack: seq<Frame>, pushed: seq<Frame>, base: nat, full: nat, m: nat)
    requires m <= full && forall e :: e in pushed ==> |e.path| == m
    ensures Weight(stack + pushed, base, full) == Weight(stack, base, full)
            + |pushed| * Arithmetic.Power(base, full - m)
    decreases |pushed|
  {
    if pushed == [] {
      assert stack + pushed == stack;
    } else {
      var rest := pushed[..|pushed| - 1];
      WeightPushed(stack, rest, base, full, m);
      assert (stack + pushed)[..|stack + pushed| - 1] == stack + rest;
      assert (stack + pushed)[|stack + pushed| - 1] == pushed[|pushed| - 1] && pushed[|pushed| - 1] in pushed;
      OneMore(|rest|, Arithmetic.Power(base, full - m));
    }
  }

  lemma OneMore(n: nat, w: nat)
    ensures (n + 1) * w == n * w + w
  {}

  lemma Outweighs(base: nat, e: nat, n: nat)
    requires n < base && e >= 1
    ensures n * Arithmetic.Power(base, e - 1) < Arithmetic.Power(base, e)
  {
    Arithmetic.Grows(n + 1, base, Arithmetic.Power(base, e - 1));
    OneMore(n, Arithmetic.Power(base, e - 1));
  }

  /** Replacing the top path by its extensions, or by nothing, lowers the weight. */
  lemma WeightDrops(stack: seq<Frame>, pushed: seq<Frame>, base: nat, full: nat)
    requires stack != [] && |pushed| < base
    requires |stack[|stack| - 1].path| <= full
    requires |stack[|stack| - 1].path| == full ==> pushed == []
    requires forall e :: e in pushed ==> |e.path| == |stack[|stack| - 1].path| + 1
    ensures Weight(stack[..|stack| - 1] + pushed, base, full) < Weight(stack, base, full)
  {
    var rest, m := stack[..|stack| - 1], |stack[|stack| - 1].path|;
    if m < full {
      WeightPushed(rest, pushed, base, full, m + 1);
      Outweighs(base, full - m, |pushed|);
    } else {
      assert rest + pushed == rest;
    }
  }

  function MaxDegree(lists: seq<seq<int>>): (d: nat)
    ensures forall v :: 0 <= v < |lists| ==> |lists[v]| <= d
  {
    if lists == [] then 0
    else
      var d := MaxDegree(lists[..|lists| - 1]);
      if |lists[|lists| - 1]| <= d then d else |lists[|lists| - 1]|
  }

  /** A half path below the popped frame goes on with one of the pushed ones. */
  lemma Continued(g: Adjacency, start: int, half: nat, f: Frame, pushed: seq<Frame>, p: seq<int>) returns (k: nat)
    requires GoodFrame(g, start, f) && |f.path| < half + 1 && HalfPath(g, start, p) && |p| == half + 1 && f.path <= p
    requires forall w :: w in g[f.vertex] && Allowed(start, f, w) ==> Extended(f, w) in pushed
    ensures k < |pushed| && pushed[k].path <= p
  {
    var m := |f.path|;
    var w := p[m];
    assert p[m - 1 + 1] in g[p[m - 1]];
    assert forall j :: 0 <= j < m ==> f.path[j] == p[j] && p[j] != p[m];
    assert Extended(f, w) in pushed;
    k :| 0 <= k < |pushed| && pushed[k] == Extended(f, w);
  }

  lemma PopExtended(g: Adjacency, start: int, half: nat, stack: seq<Frame>, done: set<seq<int>>,
                    f: Frame, pushed: seq<Frame>)
    requires stack != [] && f == stack[|stack| - 1] && GoodFrame(g, start, f) && |f.path| < half + 1
    requires Covered(g, start, half, stack, done)
    requires forall w :: w in g[f.vertex] && Allowed(start, f, w) ==> Extended(f, w) in pushed
    ensures Covered(g, start, half, stack[..|stack| - 1] + pushed, done)
  {
    var stack' := stack[..|stack| - 1] + pushed;
    forall p | HalfPath(g, start, p) && |p| == half + 1 ensures Pending(stack', done, p) {
      assert Pending(stack, done, p);
      if p !in done {
        var i :| 0 <= i < |stack| && stack[i].path <= p;
        if i < |stack| - 1 {
          assert stack'[i] == stack[i];
        } else {
          var k := Continued(g, start, half, f, pushed, p);
          assert stack'[|stack| - 1 + k] == pushed[k];
        }
      }
    }
  }

  lemma PopStored(g: Adjacency, start: int, half: nat, stack: seq<Frame>, done: set<seq<int>>, f: Frame)
    requires stack != [] && f == stack[|stack| - 1] && |f.path| == half + 1
    requires Covered(g, start, half, stack, done)
    ensures Covered(g, start, half, stack[..|stack| - 1], done + {f.path})
  {
    var stack' := stack[..|stack| - 1];
    forall p | HalfPath(g, start, p) && |p| == half + 1 ensures Pending(stack', done + {f.path}, p) {
      assert Pending(stack, done, p);
      if p !in done {
        var i :| 0 <= i < |stack| && stack[i].path <= p;
        if i < |stack| - 1 {
          assert stack'[i] == stack[i];
        } else {
          assert p == f.path;
        }
      }
    }
  }

  /** No half path meets itself. */
  lemma MeetsNotItself(g: Adjacency, start: int, p: seq<int>)
    requires HalfPath(g, start, p) && |p| >= 3
    ensures !Meets(p, p)
  {
    assert p[1] in Vertices(p) * Vertices(p) && p[1] !in {p[0], p[|p| - 1]};
  }

  /** A popped path that closes no cycle with the stored ones meets none of them. */
  lemma MeetsNone(g: Adjacency, start: int, half: nat, paths: map<int, seq<(seq<int>, set<int>)>>, done: set<seq<int>>,
                  f: Frame)
    requires half >= 2 && Stored(g, start, half, paths, done) && GoodFrame(g, start, f) && |f.path| == half + 1
    requires forall e :: e in At(paths, f.vertex) ==> !Closes(e, start, f)
    ensures forall q :: q in done ==> !Meets(f.path, q) && !Meets(q, f.path)
  {
    forall q | q in done ensures !Meets(f.path, q) && !Meets(q, f.path) {
      assert q[half] == f.vertex ==> (q, Vertices(q)) in At(paths, f.vertex);
      assert Vertices(f.path) * Vertices(q) == Vertices(q) * Vertices(f.path);
    }
  }

  /** The entries, with the popped path added to those of its end, are again those of done. */
  lemma EntriesStored(g: Adjacency, start: int, half: nat, paths: map<int, seq<(seq<int>, set<int>)>>,
                      done: set<seq<int>>, f: Frame, before: seq<(seq<int>, set<int>)>)
    requires Stored(g, start, half, paths, done) && GoodFrame(g, start, f) && |f.path| == half + 1
    requires before == At(paths, f.vertex)
    ensures var paths', done' := paths[f.vertex := before + [(f.path, f.mask)]], done + {f.path};
            && (forall v, e :: v in paths' && e in paths'[v] ==>
                                 HalfPath(g, start, e.0) && |e.0| == half + 1 && e.0[half] == v && e.1 == Vertices(e.0)
                                 && e.0 in done')
            && (forall p :: p in done' ==>
                              HalfPath(g, start, p) && |p| == half + 1 && p[half] in paths'
                              && (p, Vertices(p)) in paths'[p[half]])
  {
    var paths', done' := paths[f.vertex := before + [(f.path, f.mask)]], done + {f.path};
    forall p | p in done'
      ensures HalfPath(g, start, p) && p[half] in paths' && (p, Vertices(p)) in paths'[p[half]]
    {
      if p != f.path && p[half] == f.vertex {
        assert (p, Vertices(p)) in before;
      }
    }
  }

  lemma StoredStep(g: Adjacency, start: int, half: nat, paths: map<int, seq<(seq<int>, set<int>)>>,
                   done: set<seq<int>>, f: Frame, before: seq<(seq<int>, set<int>)>)
    requires half >= 2 && Stored(g, start, half, paths, done) && GoodFrame(g, start, f) && |f.path| == half + 1
    requires before == At(paths, f.vertex) && forall e :: e in before ==> !Closes(e, start, f)
    ensures Stored(g, start, half, paths[f.vertex := before + [(f.path, f.mask)]], done + {f.path})
  {
    EntriesStored(g, start, half, paths, done, f, before);
    MeetsNotItself(g, start, f.path);
    MeetsNone(g, start, half, paths, done, f);
  }

  ghost predicate GoodStack(g: Adjacency, start: int, half: nat, stack: seq<Frame>) {
    forall i :: 0 <= i < |stack| ==> GoodFrame(g, start, stack[i]) && |stack[i].path| <= half + 1
  }

  /** When the stack is empty, both halves of a cycle whose least vertex is start are stored. */
  lemma HalvesStored(g: Adjacency, start: int, half: nat, done: set<seq<int>>, c: seq<int>)
    requires Simple(g) && half >= 2 && Covered(g, start, half, [], done)
    requires Cycle(g, c) && |c| == 2 * half && LeastFirst(c, start)
    ensures Forward(c, half) in done && Backward(c, half) in done
    ensures Meets(Forward(c, half), Backward(c, half))
  {
    BackwardIsPath(g, c, half);
    HalvesMeet(g, c, half);
    var p, q := Forward(c, half), Backward(c, half);
    assert HalfPath(g, start, p) && HalfPath(g, start, q);
    assert Pending([], done, p) && Pending([], done, q);
  }

  /** The invariant of the search from one start. */
  ghost predicate Searching(g: Adjacency, start: int, half: nat, stack: seq<Frame>,
                            paths: map<int, seq<(seq<int>, set<int>)>>, done: set<seq<int>>) {
    && GoodStack(g, start, half, stack)
    && Stored(g, start, half, paths, done)
    && Covered(g, start, half, stack, done)
  }

  lemma SearchingStarts(g: Adjacency, start: int, half: nat)
    requires 0 <= start < |g|
    ensures Searching(g, start, half, [Frame(start, [start], {start})], map[], {})
  {
    var stack := [Frame(start, [start], {start})];
    assert stack[0].path == [start];
  }

  /** The half paths stored for the end point v. */
  function At(paths: map<int, seq<(seq<int>, set<int>)>>, v: int): seq<(seq<int>, set<int>)> {
    if v in paths then paths[v] else []
  }

  lemma ClosedByMatch(g: Adjacency, start: int, half: nat, stack: seq<Frame>,
                      paths: map<int, seq<(seq<int>, set<int>)>>, done: set<seq<int>>, c: seq<int>)
    requires Simple(g) && half >= 2 && Searching(g, start, half, stack, paths, done) && stack != []
    requires |stack[|stack| - 1].path| == half + 1
    requires exists e :: e in At(paths, stack[|stack| - 1].vertex) && |e.0| >= 2
                         && Closes(e, start, stack[|stack| - 1]) && c == Joined(stack[|stack| - 1].path, e.0)
    ensures Cycle(g, c) && |c| == 2 * half && LeastFirst(c, start)
  {
    var f := stack[|stack| - 1];
    assert GoodFrame(g, start, f);
    var e :| e in At(paths, f.vertex) && |e.0| >= 2 && Closes(e, start, f) && c == Joined(f.path, e.0);
    JoinedIsCycle(g, start, f.path, e.0);
  }

  lemma StoreUnmatched(g: Adjacency, start: int, half: nat, stack: seq<Frame>,
                       paths: map<int, seq<(seq<int>, set<int>)>>, done: set<seq<int>>, f: Frame)
    requires half >= 2 && Searching(g, start, half, stack, paths, done) && stack != []
    requires |stack[|stack| - 1].path| == half + 1 && f == stack[|stack| - 1]
    requires forall e :: e in At(paths, f.vertex) ==> !Closes(e, start, f)
    ensures Searching(g, start, half, stack[..|stack| - 1],
                      paths[f.vertex := At(paths, f.vertex) + [(f.path, f.mask)]], done + {f.path})
  {
    assert GoodFrame(g, start, f);
    PopStored(g, start, half, stack, done, f);
    StoredStep(g, start, half, paths, done, f, At(paths, f.vertex));
  }

  /** The popped full path either closes a cycle with a stored one or is stored itself. */
  method Absorb(ghost g: Adjacency, start: int, half: nat, ghost stack: seq<Frame>,
                paths: map<int, seq<(seq<int>, set<int>)>>, ghost done: set<seq<int>>, f: Frame)
    returns (r: Option<seq<int>>, paths': map<int, seq<(seq<int>, set<int>)>>)
    requires Simple(g) && half >= 2 && Searching(g, start, half, stack, paths, done)
    requires stack != [] && f == stack[|stack| - 1] && |f.path| == half + 1
    ensures r.Some? ==> Cycle(g, r.value) && |r.value| == 2 * half && LeastFirst(r.value, start)
    ensures r.None? ==> Searching(g, start, half, stack[..|stack| - 1], paths', done + {f.path})
  {
    var others := At(paths, f.vertex);
    r := Match(others, start, f);
    if r.Some? {
      ClosedByMatch(g, start, half, stack, paths, done, r.value);
      paths' := paths;
    } else {
      StoreUnmatched(g, start, half, stack, paths, done, f);
      paths' := paths[f.vertex := others + [(f.path, f.mask)]];
    }
  }

  lemma ExtensionsGood(lists: seq<seq<int>>, start: int, f: Frame, pushed: seq<Frame>)
    requires Simple(Sets(lists)) && GoodFrame(Sets(lists), start, f)
    requires forall e :: e in pushed ==>
                           e == Extended(f, e.vertex) && e.vertex in lists[f.vertex] && Allowed(start, f, e.vertex)
    ensures forall e :: e in pushed ==> GoodFrame(Sets(lists), start, e) && |e.path| == |f.path| + 1
  {
    forall e | e in pushed ensures GoodFrame(Sets(lists), start, e) && |e.path| == |f.path| + 1 {
      ExtendedFrame(lists, start, f, e.vertex);
    }
  }

  /** The search goes on with the popped partial path replaced by its extensions. */
  lemma SearchingExtended(lists: seq<seq<int>>, start: int, half: nat, stack: seq<Frame>,
                          paths: map<int, seq<(seq<int>, set<int>)>>, done: set<seq<int>>, f: Frame, pushed: seq<Frame>)
    requires Simple(Sets(lists)) && stack != [] && f == stack[|stack| - 1] && |f.path| < half + 1
    requires Searching(Sets(lists), start, half, stack, paths, done) && |pushed| <= |lists[f.vertex]|
    requires forall e :: e in pushed ==>
                           e == Extended(f, e.vertex) && e.vertex in lists[f.vertex] && Allowed(start, f, e.vertex)
    requires forall w :: w in lists[f.vertex] && Allowed(start, f, w) ==> Extended(f, w) in pushed
    ensures Searching(Sets(lists), start, half, stack[..|stack| - 1] + pushed, paths, done)
  {
    ExtensionsGood(lists, start, f, pushed);
    assert forall w :: w in Sets(lists)[f.vertex] ==> w in lists[f.vertex];
    PopExtended(Sets(lists), start, half, stack, done, f, pushed);
    PushedStack(Sets(lists), start, half, stack[..|stack| - 1], pushed);
  }

  lemma ExtensionsLighter(lists: seq<seq<int>>, half: nat, stack: seq<Frame>, f: Frame, pushed: seq<Frame>)
    requires stack != [] && f == stack[|stack| - 1] && |f.path| < half + 1 && 0 <= f.vertex < |lists|
    requires |pushed| <= |lists[f.vertex]| && forall e :: e in pushed ==> |e.path| == |f.path| + 1
    ensures Weight(stack[..|stack| - 1] + pushed, MaxDegree(lists) + 1, half + 1)
            < Weight(stack, MaxDegree(lists) + 1, half + 1)
  {
    WeightDrops(stack, pushed, MaxDegree(lists) + 1, half + 1);
  }

  /** The stack after the popped partial path has been replaced by its extensions. */
  method Extend(lists: seq<seq<int>>, start: int, half: nat, stack: seq<Frame>,
                ghost paths: map<int, seq<(seq<int>, set<int>)>>, ghost done: set<seq<int>>)
    returns (stack': seq<Frame>)
    requires Simple(Sets(lists)) && stack != [] && |stack[|stack| - 1].path| < half + 1
    requires Searching(Sets(lists), start, half, stack, paths, done)
    ensures Searching(Sets(lists), start, half, stack', paths, done)
    ensures Weight(stack', MaxDegree(lists) + 1, half + 1) < Weight(stack, MaxDegree(lists) + 1, half + 1)
  {
    var f := stack[|stack| - 1];
    assert GoodFrame(Sets(lists), start, f);
    var pushed := Extensions(lists, start, f);
    SearchingExtended(lists, start, half, stack, paths, done, f, pushed);
    ExtensionsLighter(lists, half, stack, f, pushed);
    stack' := stack[..|stack| - 1] + pushed;
  }

  lemma NoneLeft(g: Adjacency, start: int, half: nat, paths: map<int, seq<(seq<int>, set<int>)>>,
                 done: set<seq<int>>)
    requires Simple(g) && half >= 2 && Searching(g, start, half, [], paths, done)
    ensures !CycleLeastAt(g, 2 * half, start)
  {
    if CycleLeastAt(g, 2 * half, start) {
      var c :| Cycle(g, c) && |c| == 2 * half && LeastFirst(c, start);
      HalvesStored(g, start, half, done, c);
      assert false;
    }
  }

  /** A cycle whose least vertex is start, unless there is none. */
  method CycleFrom(lists: seq<seq<int>>, start: int, half: nat) returns (r: Option<seq<int>>)
    requires Simple(Sets(lists)) && 0 <= start < |lists| && half >= 2
    ensures r.Some? ==> Cycle(Sets(lists), r.value) && |r.value| == 2 * half && LeastFirst(r.value, start)
    ensures r.None? ==> !CycleLeastAt(Sets(lists), 2 * half, start)
  {
    var paths: map<int, seq<(seq<int>, set<int>)>> := map[];
    var stack := [Frame(start, [start], {start})];
    ghost var done: set<seq<int>> := {};
    SearchingStarts(Sets(lists), start, half);
    while stack != []
      invariant Searching(Sets(lists), start, half, stack, paths, done)
      decreases Weight(stack, MaxDegree(lists) + 1, half + 1)
    {
      var f := stack[|stack| - 1];
      if |f.path| == half + 1 {
        r, paths := Absorb(Sets(lists), start, half, stack, paths, done, f);
        if r.Some? {
          return;
        }
        WeightDrops(stack, [], MaxDegree(lists) + 1, half + 1);
        assert stack[..|stack| - 1] + [] == stack[..|stack| - 1];
        stack, done := stack[..|stack| - 1], done + {f.path};
      } else {
        stack := Extend(lists, start, half, stack, paths, done);
      }
    }
    NoneLeft(Sets(lists), start, half, paths, done);
    r := None;
  }

  lemma PushedStack(g: Adjacency, start: int, half: nat, rest: seq<Frame>, pushed: seq<Frame>)
    requires GoodStack(g, start, half, rest)
    requires forall e :: e in pushed ==> GoodFrame(g, start, e) && |e.path| <= half + 1
    ensures GoodStack(g, start, half, rest + pushed)
  {
    var s := rest + pushed;
    forall i | 0 <= i < |s| ensures GoodFrame(g, start, s[i]) && |s[i].path| <= half + 1 {
      if i >= |rest| {
        assert s[i] == pushed[i - |rest|] && s[i] in pushed;
      }
    }
  }

  // --- The whole search ---------------------------------------------------------------------

  /**
    For every length >= 4 the search answers for cycles of length 2 * (length / 2): a returned
    witness is such a cycle, and None means that there is none (or that length exceeds the order).
    The witness starts with its least vertex, and no such cycle has a smaller one.
   */
  method FindCycle(lists: seq<seq<int>>, length: nat) returns (r: Option<seq<int>>)
    requires Simple(Sets(lists)) && length >= 4
    ensures r.Some? ==> Cycle(Sets(lists), r.value) && |r.value| == 2 * (length / 2)
    ensures r.Some? ==> LeastFirst(r.value, r.value[0])
                        && forall s :: 0 <= s < r.value[0] ==> !CycleLeastAt(Sets(lists), 2 * (length / 2), s)
    ensures r.Some? <==> Finds(Sets(lists), length)
    ensures length % 2 == 0 ==> (r.None? <==> !HasCycle(Sets(lists), length))
  {
    ghost var g := Sets(lists);
    if length > |lists| {
      if length % 2 == 0 {
        forall c | Cycle(g, c) ensures |c| != length {
          DistinctBound(c, |g|);
        }
      }
      return None;
    }
    var half := length / 2;
    for start := 0 to |lists|
      invariant forall s :: 0 <= s < start ==> !CycleLeastAt(g, 2 * half, s)
    {
      r := CycleFrom(lists, start, half);
      if r.Some? {
        return;
      }
    }
    forall c | Cycle(g, c) ensures |c| != 2 * half {
      LeastVertexExists(g, c);
    }
    r := None;
  }

  // --- Odd lengths --------------------------------------------------------------------------

  /** The search finds a cycle in this graph. */
  ghost predicate Finds(g: Adjacency, length: nat) {
    length <= |g| && HasCycle(g, 2 * (length / 2))
  }

  /** A ring of all vertices but the last, which has no neighbours. */
  function RingLists(n: nat): (lists: seq<seq<int>>)
    requires n >= 4
    ensures |lists| == n
  {
    seq(n, v => if v == n - 1 then [] else [if v == 0 then n - 2 else v - 1, if v == n - 2 then 0 else v + 1])
  }

  lemma RingSets(n: nat, g: Adjacency, v: int)
    requires n >= 4 && g == Sets(RingLists(n)) && 0 <= v < n
    ensures v == n - 1 ==> g[v] == {}
    ensures v < n - 1 ==> g[v] == {if v == 0 then n - 2 else v - 1, if v == n - 2 then 0 else v + 1}
  {}

  lemma RingSimple(n: nat, g: Adjacency)
    requires n >= 4 && g == Sets(RingLists(n))
    ensures Simple(g)
  {
    forall u | 0 <= u < n
      ensures u !in g[u] && forall v :: v in g[u] ==> 0 <= v < n && u in g[v]
    {
      RingSets(n, g, u);
      forall v | v in g[u] ensures 0 <= v < n && u in g[v] {
        RingSets(n, g, v);
      }
    }
  }

  /** The ring itself is a cycle. */
  lemma RingCycle(n: nat, g: Adjacency)
    requires n >= 4 && g == Sets(RingLists(n))
    ensures HasCycle(g, n - 1)
  {
    var c := seq(n - 1, i => i);
    forall i | 0 <= i < |c| - 1 ensures c[i + 1] in g[c[i]] {
      RingSets(n, g, i);
    }
    RingSets(n, g, n - 2);
    assert Cycle(g, c);
  }

  /** No cycle visits a vertex without neighbours. */
  lemma RingOnly(n: nat, g: Adjacency)
    requires n >= 4 && g == Sets(RingLists(n))
    ensures !HasCycle(g, n)
  {
    RingSets(n, g, n - 1);
    forall c | Cycle(g, c) ensures |c| != n {
      forall i | 0 <= i < |c| ensures 0 <= c[i] < n - 1 {
        var next := if i == |c| - 1 then c[0] else c[i + 1];
        assert next in g[c[i]];
      }
      DistinctBound(c, n - 1);
    }
  }

  /** For every odd length there is a graph in which the search finds a cycle although there is none of that length. */
  method OddLength(length: nat) returns (r: Option<seq<int>>)
    requires length >= 5 && length % 2 == 1
    ensures var g := Sets(RingLists(length));
            && Simple(g) && !HasCycle(g, length) && Finds(g, length)
            && r.Some? && Cycle(g, r.value) && |r.value| == length - 1
  {
    RingSimple(length, Sets(RingLists(length)));
    RingCycle(length, Sets(RingLists(length)));
    RingOnly(length, Sets(RingLists(length)));
    r := FindCycle(RingLists(length), length);
  }

  /** The search is right about every simple graph exactly when the length is even. */
  lemma RightWhenEven(length: nat)
    requires length >= 4
    ensures (forall lists: seq<seq<int>> :: Simple(Sets(lists)) ==>
               (Finds(Sets(lists), length) <==> HasCycle(Sets(lists), length)))
            <==> length % 2 == 0
  {
    if length % 2 == 0 {
      forall lists: seq<seq<int>> | Simple(Sets(lists))
        ensures Finds(Sets(lists), length) <==> HasCycle(Sets(lists), length)
      {
        forall c | Cycle(Sets(lists), c) ensures |c| <= |lists| {
          DistinctBound(c, |lists|);
        }
      }
    } else {
      var g := Sets(RingLists(length));
      RingSimple(length, g);
      RingCycle(length, g);
      RingOnly(length, g);
      assert Finds(g, length);
    }
  }
}
