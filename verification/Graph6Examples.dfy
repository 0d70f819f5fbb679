/** The worked examples of formats.txt come out of the reference encoder. */
module Graph6Examples {
  import opened Graphs
  import opened Graph6

  /** The orders 30, 12345 and 460175067. */
  lemma Orders(small: nat, medium: nat, large: nat)
    requires small == 30 && medium == 12345 && large == 460175067
    ensures ReferenceOrder(small) == [93] && ReferenceOrder(medium) == [126, 66, 63, 120]
    ensures ReferenceOrder(large) == [126, 126, 63, 90, 90, 90, 90, 90]
  {
    MediumForm(medium, 3, 0, 57);
    LargeForm(large, 7190235, 112347, 1755, 0, 27);
  }

  lemma MediumForm(n: nat, a: nat, b: nat, c: nat)
    requires a < 64 && b < 64 && c < 64 && n == 64 * (64 * a + b) + c && 63 <= n < MEDIUM_LIMIT
    ensures ReferenceOrder(n) == [126, 63 + a, 63 + b, 63 + c]
  {
    ThreeSextets(n, a, b, c);
  }

  lemma LargeForm(n: nat, p: nat, q: nat, m: nat, a: nat, b: nat)
    requires a < 64 && b < 64 && m == 64 * (64 * a + b) + b && q == 64 * m + b && p == 64 * q + b && n == 64 * p + b
    requires MEDIUM_LIMIT <= n < LARGE_LIMIT
    ensures ReferenceOrder(n) == [126, 126, 63 + a, 63 + b, 63 + b, 63 + b, 63 + b, 63 + b]
  {
    SixSextets(n, p, q, m, a, b);
  }

  lemma ThreeSextets(n: nat, a: nat, b: nat, c: nat)
    requires a < 64 && b < 64 && c < 64 && n == 64 * (64 * a + b) + c
    ensures Sextets(n, 3) == [63 + a, 63 + b, 63 + c]
  {
    SextetsEnd(n, 2, 64 * a + b, c);
    SextetsEnd(64 * a + b, 1, a, b);
    SextetsEnd(a, 0, 0, a);
  }

  /** One leading digit, and five times the same one. */
  lemma SixSextets(n: nat, p: nat, q: nat, m: nat, a: nat, b: nat)
    requires a < 64 && b < 64 && m == 64 * (64 * a + b) + b && q == 64 * m + b && p == 64 * q + b && n == 64 * p + b
    ensures Sextets(n, 6) == [63 + a, 63 + b, 63 + b, 63 + b, 63 + b, 63 + b]
  {
    ThreeSextets(m, a, b, b);
    SextetsEnd(q, 3, m, b);
    SextetsEnd(p, 4, q, b);
    SextetsEnd(n, 5, p, b);
  }

  lemma SextetsEnd(n: nat, k: nat, q: nat, r: nat)
    requires n == 64 * q + r && r < 64
    ensures Sextets(n, k + 1) == Sextets(q, k) + [63 + r]
  {
    assert n / 64 == q && n % 64 == r;
  }

  /** The graph with the edges 02, 04, 13, 34 is "DQc". */
  lemma FiveVertices(path: Adjacency)
    requires path == [{2, 4}, {3}, {0}, {1, 4}, {0, 3}]
    ensures Encoded(path) == [68, 81, 99]
  {
    TenBits(path, Triangle(path, 5));
  }

  lemma TenBits(path: Adjacency, bits: seq<bool>)
    requires path == [{2, 4}, {3}, {0}, {1, 4}, {0, 3}] && bits == Triangle(path, 5)
    ensures Packed(bits) == [81, 99]
  {
    assert Triangle(path, 1) == [];
    assert Triangle(path, 2) == [false];
    assert Triangle(path, 3) == [false, true, false];
    assert Triangle(path, 4) == [false, true, false, false, true, false];
    assert bits == [false, true, false, false, true, false, true, false, false, true];
    TwoGroups(bits);
  }

  lemma TwoGroups(bits: seq<bool>)
    requires bits == [false, true, false, false, true, false, true, false, false, true]
    ensures Packed(bits) == [81, 99]
  {
    assert Group(bits, 0) == [false, true, false, false, true, false];
    assert Group(bits, 1) == [true, false, false, true, false, false];
    SixValue(Group(bits, 0), 18);
    SixValue(Group(bits, 1), 36);
  }

  lemma SixValue(b: seq<bool>, v: nat)
    requires |b| == 6
    requires v == 32 * Bit(b[0]) + 16 * Bit(b[1]) + 8 * Bit(b[2]) + 4 * Bit(b[3]) + 2 * Bit(b[4]) + Bit(b[5])
    ensures Value(b) == v
  {
    assert b[..5][..4] == b[..4] && b[..4][..3] == b[..3] && b[..3][..2] == b[..2] && b[..2][..1] == b[..1];
    assert Value(b[..1]) == Bit(b[0]);
    assert Value(b[..2]) == 2 * Bit(b[0]) + Bit(b[1]);
    assert Value(b[..3]) == 4 * Bit(b[0]) + 2 * Bit(b[1]) + Bit(b[2]);
    assert Value(b[..4]) == 8 * Bit(b[0]) + 4 * Bit(b[1]) + 2 * Bit(b[2]) + Bit(b[3]);
  }
}
