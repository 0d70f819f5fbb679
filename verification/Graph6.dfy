/**
  McKay's graph6 format (nauty, formats.txt): a reference encoder and the verifier's decoder.
  N(n) is the order prefix and R(x) the packing of a bit vector into printable bytes.
 */
module Graph6 {
  import opened Wrappers
  import opened Graphs
  import CycleSearch
  import opened Arithmetic

  type Bytes = seq<int>

  datatype Graph6Error =
    | EmptyInput
    | OutsideAlphabet
    | TruncatedOrder
    | TruncatedLargeOrder
    | TruncatedPayload
    | TrailingBytes
    | NonZeroPadding

  // --- Reference encoder --------------------------------------------------------------------

  function Bit(b: bool): int {
    if b then 1 else 0
  }

  /** The big-endian value of a bit vector. */
  function Value(b: seq<bool>): (v: nat)
    ensures v < Power(2, |b|)
  {
    if b == [] then 0 else 2 * Value(b[..|b| - 1]) + Bit(b[|b| - 1])
  }

  /** The k-th group of six bits, padded on the right with zeros. */
  function Group(bits: seq<bool>, k: nat): (b: seq<bool>)
    ensures |b| == 6
  {
    seq(6, j requires 0 <= j < 6 => 6 * k + j < |bits| && bits[6 * k + j])
  }

  predicate Printable(data: Bytes) {
    forall k :: 0 <= k < |data| ==> 63 <= data[k] <= 126
  }

  /** R(x) of formats.txt. */
  function Packed(bits: seq<bool>): (r: Bytes)
    ensures |r| == (|bits| + 5) / 6 && Printable(r)
  {
    assert Power(2, 6) == 64;
    seq((|bits| + 5) / 6, k requires 0 <= k => 63 + Value(Group(bits, k)))
  }

  /** The upper triangle of the adjacency matrix, column by column: (0,1), (0,2), (1,2), (0,3), ... */
  function Triangle(g: Adjacency, n: nat): seq<bool>
    requires n <= |g|
  {
    if n == 0 then [] else Triangle(g, n - 1) + Column(g, n - 1)
  }

  function Column(g: Adjacency, high: nat): (c: seq<bool>)
    requires high < |g|
    ensures |c| == high
  {
    seq(high, low requires 0 <= low < high => low in g[high])
  }

  const MEDIUM_LIMIT := 258048
  const LARGE_LIMIT := 0x10_0000_0000

  function ShortOrder(n: nat): Bytes {
    [63 + n]
  }

  /** The k low base-64 digits of n, most significant first, as printable bytes. */
  function Sextets(n: nat, k: nat): (r: Bytes)
    ensures |r| == k && Printable(r)
  {
    if k == 0 then [] else Sextets(n / 64, k - 1) + [63 + n % 64]
  }

  function MediumOrder(n: nat): Bytes {
    [126] + Sextets(n, 3)
  }

  function LargeOrder(n: nat): Bytes {
    [126, 126] + Sextets(n, 6)
  }

  /** One of the three order forms; only the shortest possible one is canonical. */
  predicate IsOrder(prefix: Bytes, n: nat) {
    || (n < 63 && prefix == ShortOrder(n))
    || (n < MEDIUM_LIMIT && prefix == MediumOrder(n))
    || (n < LARGE_LIMIT && prefix == LargeOrder(n))
  }

  /** N(n) of formats.txt. */
  function ReferenceOrder(n: nat): (r: Bytes)
    requires n < LARGE_LIMIT
    ensures IsOrder(r, n)
  {
    if n < 63 then ShortOrder(n) else if n < MEDIUM_LIMIT then MediumOrder(n) else LargeOrder(n)
  }

  function Encoded(g: Adjacency): Bytes
    requires |g| < LARGE_LIMIT
  {
    ReferenceOrder(|g|) + Packed(Triangle(g, |g|))
  }

  /** The first k bytes are an order form of n. */
  ghost predicate OrderAt(data: Bytes, k: nat, n: nat) {
    k <= |data| && IsOrder(data[..k], n)
  }

  /** The bytes are an encoding of g in one of the three order forms. */
  ghost predicate Encodes(data: Bytes, g: Adjacency) {
    Simple(g) && exists k: nat :: OrderAt(data, k, |g|) && data[k..] == Packed(Triangle(g, |g|))
  }

  // --- Positions in the triangle ------------------------------------------------------------

  lemma {:induction false} PairCountMonotone(a: nat, b: nat)
    requires a <= b
    ensures PairCount(a) <= PairCount(b)
    decreases b
  {
    if a < b {
      PairCountMonotone(a, b - 1);
    }
  }

  lemma {:induction false} TriangleAt(g: Adjacency, n: nat, high: nat, low: nat)
    requires low < high < n <= |g|
    ensures |Triangle(g, n)| == PairCount(n) && PairCount(high) + low < PairCount(n)
    ensures Triangle(g, n)[PairCount(high) + low] == (low in g[high])
    decreases n
  {
    TriangleLength(g, n - 1);
    if high < n - 1 {
      TriangleAt(g, n - 1, high, low);
    } else {
      assert Triangle(g, n)[PairCount(high) + low] == Column(g, high)[low];
    }
  }

  lemma {:induction false} TriangleLength(g: Adjacency, n: nat)
    requires n <= |g|
    ensures |Triangle(g, n)| == PairCount(n)
  {
    if n > 0 {
      TriangleLength(g, n - 1);
    }
  }

  /** Every index below PairCount(n) is the position of one pair. */
  lemma {:induction false} PairAt(n: nat, i: nat) returns (high: nat, low: nat)
    requires i < PairCount(n)
    ensures low < high < n && i == PairCount(high) + low
  {
    if i < PairCount(n - 1) {
      high, low := PairAt(n - 1, i);
    } else {
      high, low := n - 1, i - PairCount(n - 1);
    }
  }

  /** The adjacency matrix, and with it a simple graph, is determined by its triangle. */
  lemma TriangleInjective(g: Adjacency, h: Adjacency)
    requires Simple(g) && Simple(h) && |g| == |h| && Triangle(g, |g|) == Triangle(h, |h|)
    ensures g == h
  {
    forall u | 0 <= u < |g| ensures g[u] == h[u] {
      forall v ensures v in g[u] <==> v in h[u] {
        if 0 <= v < |g| {
          SamePair(g, h, u, v);
        }
      }
    }
  }

  lemma SamePair(g: Adjacency, h: Adjacency, u: int, v: int)
    requires Simple(g) && Simple(h) && |g| == |h| && Triangle(g, |g|) == Triangle(h, |h|)
    requires 0 <= u < |g| && 0 <= v < |g|
    ensures v in g[u] <==> v in h[u]
  {
    if v < u {
      TriangleAt(g, |g|, u, v);
      TriangleAt(h, |g|, u, v);
    } else if u < v {
      TriangleAt(g, |g|, v, u);
      TriangleAt(h, |g|, v, u);
    }
  }

  // --- Bits of a packed vector --------------------------------------------------------------

  /** v >> k. */
  function Shifted(v: nat, k: nat): nat {
    if k == 0 then v else Shifted(v / 2, k - 1)
  }

  /** v & ((1 << k) - 1). */
  function Masked(v: nat, k: nat): nat {
    if k == 0 then 0 else 2 * Masked(v / 2, k - 1) + v % 2
  }

  /** The bit read by the decoder at index i of a packed byte string. */
  function BitAt(data: Bytes, i: nat): bool
    requires i < 6 * |data|
  {
    data[i / 6] >= 63 && Shifted(data[i / 6] - 63, 5 - i % 6) % 2 == 1
  }

  lemma {:induction false} ValueBits(b: seq<bool>, j: nat)
    requires j < |b|
    ensures Shifted(Value(b), |b| - 1 - j) % 2 == Bit(b[j])
  {
    if j < |b| - 1 {
      ValueBits(b[..|b| - 1], j);
      assert Value(b) / 2 == Value(b[..|b| - 1]);
    }
  }

  lemma {:induction false} ValueOfBits(v: nat, b: seq<bool>)
    requires v < Power(2, |b|) && forall j :: 0 <= j < |b| ==> Shifted(v, |b| - 1 - j) % 2 == Bit(b[j])
    ensures Value(b) == v
  {
    if b != [] {
      var c := b[..|b| - 1];
      forall j | 0 <= j < |c| ensures Shifted(v / 2, |c| - 1 - j) % 2 == Bit(c[j]) {
        assert Shifted(v, |b| - 1 - j) % 2 == Bit(b[j]);
      }
      ValueOfBits(v / 2, c);
      assert Shifted(v, |b| - 1 - (|b| - 1)) % 2 == Bit(b[|b| - 1]);
    }
  }

  lemma {:induction false} MaskedZero(v: nat, k: nat)
    ensures Masked(v, k) == 0 <==> forall j :: 0 <= j < k ==> Shifted(v, j) % 2 == 0
  {
    if k > 0 {
      MaskedZero(v / 2, k - 1);
      assert Shifted(v, 0) == v && v % 2 >= 0;
      if v % 2 == 0 && Masked(v / 2, k - 1) == 0 {
        forall j | 0 < j < k ensures Shifted(v, j) % 2 == 0 {
          assert Shifted(v / 2, j - 1) % 2 == 0;
        }
      }
      if v % 2 != 0 {
        assert Shifted(v, 0) % 2 != 0 && 0 <= 0 < k;
      } else if Masked(v / 2, k - 1) != 0 {
        var j :| 0 <= j < k - 1 && Shifted(v / 2, j) % 2 != 0;
        assert Shifted(v, j + 1) % 2 != 0 && 0 <= j + 1 < k;
      }
    }
  }

  lemma PackedBits(bits: seq<bool>, i: nat)
    requires i < 6 * |Packed(bits)|
    ensures BitAt(Packed(bits), i) == (i < |bits| && bits[i])
  {
    ValueBits(Group(bits, i / 6), i % 6);
  }

  /**
    Bytes in the alphabet are R(x) exactly when there are enough of them, their bits begin with x and the rest
    are zero.
   */
  lemma PackedByBits(data: Bytes, bits: seq<bool>)
    requires |data| == (|bits| + 5) / 6 && Printable(data)
    requires forall i :: 0 <= i < 6 * |data| ==> BitAt(data, i) == (i < |bits| && bits[i])
    ensures data == Packed(bits)
  {
    forall k | 0 <= k < |data| ensures data[k] == Packed(bits)[k] {
      PackedByte(data, bits, k);
    }
  }

  lemma PackedByte(data: Bytes, bits: seq<bool>, k: nat)
    requires k < |data| && 63 <= data[k] <= 126
    requires forall i :: 0 <= i < 6 * |data| ==> BitAt(data, i) == (i < |bits| && bits[i])
    ensures data[k] == 63 + Value(Group(bits, k))
  {
    var b := Group(bits, k);
    forall j | 0 <= j < 6 ensures Shifted(data[k] - 63, 5 - j) % 2 == Bit(b[j]) {
      assert BitAt(data, 6 * k + j) == b[j];
    }
    assert data[k] - 63 < Power(2, 6) by {
      assert Power(2, 6) == 64;
    }
    ValueOfBits(data[k] - 63, b);
  }

  lemma PackedInjective(a: seq<bool>, b: seq<bool>)
    requires |a| == |b| && Packed(a) == Packed(b)
    ensures a == b
  {
    forall i | 0 <= i < |a| ensures a[i] == b[i] {
      PackedBits(a, i);
      PackedBits(b, i);
    }
  }

  // --- Decoder ------------------------------------------------------------------------------

  function SixBits(value: int): (r: Result<int, Graph6Error>)
    ensures r.Success? <==> 63 <= value <= 126
    ensures r.Success? ==> r.value == value - 63
  {
    if 0 <= value - 63 <= 63 then Success(value - 63) else Failure(OutsideAlphabet)
  }

  /** The number with the given base-64 digits. */
  function Number(data: Bytes): (n: nat)
    requires Printable(data)
  {
    if data == [] then 0 else 64 * Number(data[..|data| - 1]) + (data[|data| - 1] - 63)
  }

  lemma {:induction false} SextetsOfNumber(data: Bytes)
    requires Printable(data)
    ensures Sextets(Number(data), |data|) == data
  {
    if data != [] {
      SextetsOfNumber(data[..|data| - 1]);
      assert Number(data) / 64 == Number(data[..|data| - 1]);
    }
  }

  lemma {:induction false} NumberOfSextets(n: nat, k: nat)
    requires n < Power(64, k)
    ensures Number(Sextets(n, k)) == n
  {
    if k > 0 {
      NumberOfSextets(n / 64, k - 1);
      assert Sextets(n, k)[..k - 1] == Sextets(n / 64, k - 1);
    }
  }

  lemma {:induction false} NumberBound(data: Bytes)
    requires Printable(data)
    ensures Number(data) < Power(64, |data|)
  {
    if data != [] {
      NumberBound(data[..|data| - 1]);
    }
  }

  /** The leading digit of a three-digit number is below 63 exactly for numbers below the medium limit. */
  lemma MediumLead(data: Bytes)
    requires |data| == 3 && Printable(data)
    ensures data[0] < 126 <==> Number(data) < MEDIUM_LIMIT
  {
    var d2, d1 := data[..2], data[..1];
    assert d2[..1] == d1 && d1[..0] == [];
    assert Number(d1) == data[0] - 63;
    assert Number(d2) == 64 * Number(d1) + (data[1] - 63);
    assert Number(data) == 64 * Number(d2) + (data[2] - 63);
  }

  lemma PowLimits()
    ensures Power(64, 3) == 262144 && Power(64, 6) == LARGE_LIMIT
  {
    assert Power(64, 1) == 64 && Power(64, 2) == 4096 && Power(64, 4) == 0x100_0000 && Power(64, 5) == 0x4000_0000;
  }

  lemma MediumOrderLead(n: nat)
    requires n < MEDIUM_LIMIT
    ensures MediumOrder(n)[1] < 126 && Number(Sextets(n, 3)) == n
  {
    PowLimits();
    NumberOfSextets(n, 3);
    MediumLead(Sextets(n, 3));
  }

  lemma LargeOrderNumber(n: nat)
    requires n < LARGE_LIMIT
    ensures Number(Sextets(n, 6)) == n
  {
    PowLimits();
    NumberOfSextets(n, 6);
  }

  /** What an order at the front of the input says about the first bytes. */
  lemma OrderForm(data: Bytes, k: nat, n: nat)
    requires OrderAt(data, k, n)
    ensures k == 1 || k == 4 || k == 8
    ensures k == 1 ==> 63 <= data[0] < 126 && n == data[0] - 63
    ensures k == 4 ==> data[0] == 126 && data[1] < 126 && Printable(data[1..4]) && n == Number(data[1..4])
    ensures k == 8 ==> data[0] == 126 && data[1] == 126 && Printable(data[2..8]) && n == Number(data[2..8])
  {
    var p := data[..k];
    if n < 63 && p == ShortOrder(n) {
      assert k == |p| == 1 && p[0] == data[0];
    } else if n < MEDIUM_LIMIT && p == MediumOrder(n) {
      MediumOrderLead(n);
      assert k == |p| == 4 && p[0] == data[0] && p[1] == data[1] && p[1..] == data[1..4];
      assert p[1..] == Sextets(n, 3);
    } else {
      LargeOrderNumber(n);
      assert k == |p| == 8 && p[0] == data[0] && p[1] == data[1] && p[2..] == data[2..8];
      assert p[2..] == Sextets(n, 6);
    }
  }

  /** The prefix decides both its own length and the order. */
  lemma OrderUnique(data: Bytes, j: nat, m: nat, k: nat, n: nat)
    requires OrderAt(data, j, m) && OrderAt(data, k, n)
    ensures j == k && m == n
  {
    OrderForm(data, j, m);
    OrderForm(data, k, n);
  }

  lemma MediumOrderAt(data: Bytes)
    requires |data| >= 4 && data[0] == 126 && data[1] < 126 && Printable(data[1..4])
    ensures OrderAt(data, 4, Number(data[1..4]))
  {
    assert data[1..4][0] == data[1];
    MediumLead(data[1..4]);
    SextetsOfNumber(data[1..4]);
    assert data[..4] == [126] + data[1..4];
  }

  lemma LargeOrderAt(data: Bytes)
    requires |data| >= 8 && data[0] == 126 && data[1] == 126 && Printable(data[2..8])
    ensures OrderAt(data, 8, Number(data[2..8]))
  {
    PowLimits();
    NumberBound(data[2..8]);
    SextetsOfNumber(data[2..8]);
    assert data[..8] == [126, 126] + data[2..8];
  }

  /** The bytes data[from..to] read as base-64 digits; fails on the first byte outside the alphabet. */
  method ReadNumber(data: Bytes, from: nat, to: nat) returns (r: Result<nat, Graph6Error>)
    requires from <= to <= |data|
    ensures r.Success? <==> Printable(data[from..to])
    ensures r.Success? ==> r.value == Number(data[from..to])
    ensures r.Failure? ==> r.error == OutsideAlphabet
  {
    var order: nat := 0;
    for i := from to to
      invariant Printable(data[from..i]) && order == Number(data[from..i])
    {
      var sextet := SixBits(data[i]);
      if sextet.Failure? {
        assert data[from..to][i - from] == data[i];
        return Failure(sextet.error);
      }
      assert data[from..i + 1] == data[from..i] + [data[i]];
      order := order * 64 + sextet.value;
    }
    r := Success(order);
  }

  /** Order and number of bytes read; fails exactly when no prefix of the input is an order. */
  method DecodeOrder(data: Bytes) returns (r: Result<(nat, nat), Graph6Error>)
    ensures r.Success? ==> OrderAt(data, r.value.1, r.value.0)
    ensures r.Failure? ==> forall k, n :: !OrderAt(data, k, n)
  {
    forall k, n | OrderAt(data, k, n)
      ensures k == 1 || k == 4 || k == 8
      ensures k == 1 ==> 63 <= data[0] < 126
      ensures k == 4 ==> data[0] == 126 && 63 <= data[1] < 126 && Printable(data[1..4])
      ensures k == 8 ==> data[0] == 126 && data[1] == 126 && Printable(data[2..8])
    {
      OrderForm(data, k, n);
      assert k == 4 ==> data[1] == data[1..4][0];
    }
    if data == [] {
      return Failure(EmptyInput);
    }
    var first := SixBits(data[0]);
    if first.Failure? {
      return Failure(first.error);
    }
    if first.value < 63 {
      assert data[..1] == ShortOrder(first.value);
      return Success((first.value, 1));
    }
    if |data| < 4 {
      return Failure(TruncatedOrder);
    }
    var second := SixBits(data[1]);
    if second.Failure? {
      return Failure(second.error);
    }
    if second.value < 63 {
      var medium := ReadNumber(data, 1, 4);
      if medium.Failure? {
        return Failure(medium.error);
      }
      MediumOrderAt(data);
      return Success((medium.value, 4));
    }
    if |data| < 8 {
      return Failure(TruncatedLargeOrder);
    }
    var large := ReadNumber(data, 2, 8);
    if large.Failure? {
      return Failure(large.error);
    }
    LargeOrderAt(data);
    r := Success((large.value, 8));
  }

  /** The pair (low, high) has been read once the scan has reached (H, L). */
  predicate Scanned(low: int, high: int, H: int, L: int) {
    0 <= low < high && (high < H || (high == H && low < L))
  }

  /** The neighbours read so far are symmetric and given by the bits at the positions of their pairs. */
  ghost predicate Scan(data: Bytes, g: Adjacency, H: int, L: int) {
    && (forall low, high :: Scanned(low, high, H, L) && high < |g| ==> PairRead(data, g, low, high))
    && (forall u, v :: 0 <= u < |g| && v in g[u] ==>
          0 <= v < |g| && (Scanned(u, v, H, L) || Scanned(v, u, H, L)))
  }

  ghost predicate PairRead(data: Bytes, g: Adjacency, low: int, high: int)
    requires 0 <= low < high < |g|
  {
    && PairCount(high) + low < 6 * |data|
    && (low in g[high] <==> BitAt(data, PairCount(high) + low))
    && (high in g[low] <==> BitAt(data, PairCount(high) + low))
  }

  /** One step of the scan: the pair (low, high) is joined when its bit is set. */
  function Joining(g: Adjacency, low: nat, high: nat, bit: bool): (h: Adjacency)
    requires low < high < |g|
    ensures |h| == |g|
  {
    if bit then g[high := g[high] + {low}][low := g[low] + {high}] else g
  }

  lemma ScanStep(data: Bytes, g: Adjacency, low: nat, high: nat)
    requires low < high < |g| && PairCount(high) + low < 6 * |data| && Scan(data, g, high, low)
    ensures Scan(data, Joining(g, low, high, BitAt(data, PairCount(high) + low)), high, low + 1)
  {
    var bit := BitAt(data, PairCount(high) + low);
    var h := Joining(g, low, high, bit);
    assert low !in g[high] && high !in g[low];
    forall l, u | Scanned(l, u, high, low + 1) && u < |h| ensures PairRead(data, h, l, u) {
      if Scanned(l, u, high, low) {
        assert PairRead(data, g, l, u);
      } else {
        assert l == low && u == high;
      }
    }
  }

  lemma ColumnDone(data: Bytes, g: Adjacency, high: nat)
    requires Scan(data, g, high, high)
    ensures Scan(data, g, high + 1, 0)
  {
    assert forall l, u :: Scanned(l, u, high + 1, 0) <==> Scanned(l, u, high, high);
  }

  ghost predicate BitRead(data: Bytes, g: Adjacency, i: nat) {
    i < 6 * |data| && i < |Triangle(g, |g|)| && Triangle(g, |g|)[i] == BitAt(data, i)
  }

  /** After the whole scan the graph is simple and its triangle is the sequence of bits read. */
  lemma ScanDone(data: Bytes, g: Adjacency)
    requires Scan(data, g, |g|, 0)
    ensures Simple(g)
    ensures forall i :: 0 <= i < PairCount(|g|) ==> BitRead(data, g, i)
  {
    ScanSimple(data, g);
    forall i | 0 <= i < PairCount(|g|) ensures BitRead(data, g, i) {
      BitWasRead(data, g, i);
    }
  }

  lemma BitWasRead(data: Bytes, g: Adjacency, i: nat)
    requires Scan(data, g, |g|, 0) && i < PairCount(|g|)
    ensures BitRead(data, g, i)
  {
    var high, low := PairAt(|g|, i);
    assert Scanned(low, high, |g|, 0) && PairRead(data, g, low, high);
    TriangleAt(g, |g|, high, low);
  }

  lemma ScanSimple(data: Bytes, g: Adjacency)
    requires Scan(data, g, |g|, 0)
    ensures Simple(g)
  {
    forall u, v | 0 <= u < |g| && v in g[u] ensures 0 <= v < |g| && u != v && u in g[v] {
      if u < v {
        assert Scanned(u, v, |g|, 0) && PairRead(data, g, u, v);
      } else {
        assert Scanned(v, u, |g|, 0) && PairRead(data, g, v, u);
      }
    }
  }

  /** The bytes that hold the first n bits. */
  function Front(data: Bytes, n: nat): Bytes
    requires n <= 6 * |data|
  {
    data[..(n + 5) / 6]
  }

  lemma FrontStep(data: Bytes, n: nat)
    requires n < 6 * |data| && Printable(Front(data, n))
    ensures Printable(Front(data, n + 1)) <==> 63 <= data[n / 6] <= 126
  {
    assert Front(data, n + 1)[n / 6] == data[n / 6];
    if n % 6 == 0 {
      assert Front(data, n + 1) == Front(data, n) + [data[n / 6]];
    } else {
      assert Front(data, n + 1) == Front(data, n);
    }
  }

  lemma FrontMonotone(data: Bytes, m: nat, n: nat)
    requires m <= n <= 6 * |data| && !Printable(Front(data, m))
    ensures !Printable(Front(data, n))
  {
    var k :| 0 <= k < |Front(data, m)| && !(63 <= Front(data, m)[k] <= 126);
    assert Front(data, n)[k] == data[k];
  }

  /** The body of the scan: one bit is read and its pair is joined when the bit is set. */
  method ReadPair(data: Bytes, g: Adjacency, low: nat, high: nat, bit_index: nat)
    returns (r: Result<Adjacency, Graph6Error>)
    requires low < high < |g| && bit_index == PairCount(high) + low < 6 * |data| && Scan(data, g, high, low)
    requires Printable(Front(data, bit_index))
    ensures r.Success? ==> |r.value| == |g| && Scan(data, r.value, high, low + 1)
    ensures r.Success? <==> Printable(Front(data, bit_index + 1))
  {
    FrontStep(data, bit_index);
    var byte := SixBits(data[bit_index / 6]);
    if byte.Failure? {
      return Failure(byte.error);
    }
    ScanStep(data, g, low, high);
    r := Success(Joining(g, low, high, Shifted(byte.value, 5 - bit_index % 6) % 2 == 1));
  }

  /** The inner loop of the scan: all pairs (0, high), ..., (high - 1, high). */
  method ReadColumn(data: Bytes, g: Adjacency, high: nat) returns (r: Result<Adjacency, Graph6Error>)
    requires high < |g| && PairCount(high) + high <= 6 * |data| && Scan(data, g, high, 0)
    requires Printable(Front(data, PairCount(high)))
    ensures r.Success? ==> |r.value| == |g| && Scan(data, r.value, high + 1, 0)
                           && Printable(Front(data, PairCount(high) + high))
    ensures r.Failure? ==> !Printable(Front(data, PairCount(high) + high))
  {
    var adjacency, bit_index := g, PairCount(high);
    for low := 0 to high
      invariant bit_index == PairCount(high) + low && |adjacency| == |g|
      invariant Scan(data, adjacency, high, low)
      invariant Printable(Front(data, bit_index))
    {
      r := ReadPair(data, adjacency, low, high, bit_index);
      bit_index := bit_index + 1;
      if r.Failure? {
        FrontMonotone(data, bit_index, PairCount(high) + high);
        return;
      }
      adjacency := r.value;
    }
    ColumnDone(data, adjacency, high);
    r := Success(adjacency);
  }

  /** The outer loop of the scan: fails exactly on a byte outside the alphabet. */
  method ReadTriangle(data: Bytes, order: nat) returns (r: Result<Adjacency, Graph6Error>)
    requires PairCount(order) <= 6 * |data|
    ensures r.Success? ==> |r.value| == order && Scan(data, r.value, order, 0)
                           && Printable(Front(data, PairCount(order)))
    ensures r.Failure? ==> !Printable(data)
  {
    var adjacency: Adjacency := seq(order, _ => {});
    if order == 0 {
      return Success(adjacency);
    }
    for high := 1 to order
      invariant |adjacency| == order && Scan(data, adjacency, high, 0)
      invariant PairCount(high) <= PairCount(order) && Printable(Front(data, PairCount(high)))
    {
      PairCountMonotone(high + 1, order);
      assert PairCount(high + 1) == PairCount(high) + high;
      var column := ReadColumn(data, adjacency, high);
      if column.Failure? {
        return Failure(column.error);
      }
      adjacency := column.value;
    }
    r := Success(adjacency);
  }

  /** The bytes after the needed bits hold fewer than six bits, all of them zero. */
  ghost predicate Padded(data: Bytes, needed: nat) {
    |data| == (needed + 5) / 6 && forall i :: needed <= i < 6 * |data| ==> !BitAt(data, i)
  }

  method CheckPadding(data: Bytes, needed: nat) returns (r: Result<nat, Graph6Error>)
    requires needed <= 6 * |data| && Printable(Front(data, needed))
    ensures r.Success? <==> Padded(data, needed)
    ensures r.Success? ==> Printable(data)
  {
    var padding := |data| * 6 - needed;
    if padding >= 6 {
      return Failure(TrailingBytes);
    }
    assert Front(data, needed) == data;
    if padding > 0 && data != [] {
      // Every byte was checked by the scan, so the last one cannot be outside the alphabet here.
      LastBits(data, needed);
      if Masked(data[|data| - 1] - 63, padding) != 0 {
        return Failure(NonZeroPadding);
      }
    }
    r := Success(padding);
  }

  lemma LastBits(data: Bytes, needed: nat)
    requires data != [] && 6 * |data| - 6 < needed < 6 * |data| && data[|data| - 1] >= 63
    ensures Masked(data[|data| - 1] - 63, 6 * |data| - needed) == 0 <==> Padded(data, needed)
  {
    var last, padding := data[|data| - 1] - 63, 6 * |data| - needed;
    MaskedZero(last, padding);
    if Padded(data, needed) {
      forall j | 0 <= j < padding ensures Shifted(last, j) % 2 == 0 {
        assert !BitAt(data, 6 * |data| - 1 - j);
      }
    }
    if Masked(last, padding) == 0 {
      forall i | needed <= i < 6 * |data| ensures !BitAt(data, i) {
        assert Shifted(last, 6 * |data| - 1 - i) % 2 == 0;
      }
    }
  }

  lemma PackedIsPadded(bits: seq<bool>)
    ensures Padded(Packed(bits), |bits|)
  {
    forall i | |bits| <= i < 6 * |Packed(bits)| ensures !BitAt(Packed(bits), i) {
      PackedBits(bits, i);
    }
  }

  /** Decodes the payload: succeeds exactly when the bytes are R(x) of the triangle of a graph of this order. */
  method DecodePayload(data: Bytes, order: nat) returns (r: Result<Adjacency, Graph6Error>)
    ensures r.Success? ==> |r.value| == order && Simple(r.value) && data == Packed(Triangle(r.value, order))
    ensures r.Failure? ==> forall g: Adjacency :: |g| == order ==> data != Packed(Triangle(g, order))
  {
    var needed := order * (order - 1) / 2;
    PairCountFormula(order);
    forall g: Adjacency | |g| == order && data == Packed(Triangle(g, order))
      ensures Padded(data, needed) && Printable(data)
    {
      TriangleLength(g, order);
      PackedIsPadded(Triangle(g, order));
    }
    if |data| * 6 < needed {
      return Failure(TruncatedPayload);
    }
    var adjacency := ReadTriangle(data, order);
    if adjacency.Failure? {
      return Failure(adjacency.error);
    }
    var padding := CheckPadding(data, needed);
    if padding.Failure? {
      return Failure(padding.error);
    }
    TriangleLength(adjacency.value, order);
    ScanDone(data, adjacency.value);
    forall i | 0 <= i < 6 * |data|
      ensures BitAt(data, i) == (i < needed && Triangle(adjacency.value, order)[i])
    {
      assert i < needed ==> BitRead(data, adjacency.value, i);
    }
    PackedByBits(data, Triangle(adjacency.value, order));
    r := adjacency;
  }

  // --- Whole files --------------------------------------------------------------------------

  const HEADER: Bytes := [62, 62, 103, 114, 97, 112, 104, 54, 60, 60]

  predicate IsSpace(b: int) {
    b == 32 || 9 <= b <= 13
  }

  function LeftStripped(data: Bytes): Bytes {
    if data != [] && IsSpace(data[0]) then LeftStripped(data[1..]) else data
  }

  function RightStripped(data: Bytes): Bytes {
    if data != [] && IsSpace(data[|data| - 1]) then RightStripped(data[..|data| - 1]) else data
  }

  /** The file without surrounding white space and without the optional header. */
  function Body(value: Bytes): Bytes {
    var data := RightStripped(LeftStripped(value));
    if HEADER <= data then data[|HEADER|..] else data
  }

  /** Succeeds exactly when the file is an encoding of a graph, and returns the neighbour lists of that graph. */
  method DecodeGraph6(value: Bytes) returns (r: Result<seq<seq<int>>, Graph6Error>)
    ensures r.Success? ==> Encodes(Body(value), CycleSearch.Sets(r.value))
    ensures r.Success? ==> forall v :: 0 <= v < |r.value| ==> Ascending(r.value[v])
    ensures r.Failure? ==> forall g: Adjacency :: !Encodes(Body(value), g)
  {
    var data := Body(value);
    var order := DecodeOrder(data);
    if order.Failure? {
      return Failure(order.error);
    }
    var (n, offset) := order.value;
    var graph := DecodePayload(data[offset..], n);
    if graph.Failure? {
      forall g: Adjacency ensures !Encodes(data, g) {
        if Encodes(data, g) {
          EncodesAt(data, g, offset, n);
          assert false;
        }
      }
      return Failure(graph.error);
    }
    var lists := seq(n, v requires 0 <= v < n => SortedSet(graph.value[v], n));
    forall v | 0 <= v < n ensures CycleSearch.Sets(lists)[v] == graph.value[v] && Ascending(lists[v]) {
      SortedSetSorts(graph.value[v], n);
    }
    assert CycleSearch.Sets(lists) == graph.value;
    r := Success(lists);
  }

  /** The order at the front of an encoding is the order of the encoded graph. */
  lemma EncodesAt(data: Bytes, g: Adjacency, k: nat, n: nat)
    requires Encodes(data, g) && OrderAt(data, k, n)
    ensures |g| == n && data[k..] == Packed(Triangle(g, n))
  {
    var j: nat :| OrderAt(data, j, |g|) && data[j..] == Packed(Triangle(g, |g|));
    OrderUnique(data, j, |g|, k, n);
  }

  // --- What decoding means ------------------------------------------------------------------

  /** No byte string encodes two graphs. */
  lemma EncodesUnique(data: Bytes, g: Adjacency, h: Adjacency)
    requires Encodes(data, g) && Encodes(data, h)
    ensures g == h
  {
    var k: nat :| OrderAt(data, k, |h|) && data[k..] == Packed(Triangle(h, |h|));
    EncodesAt(data, g, k, |h|);
    TriangleLength(g, |g|);
    TriangleLength(h, |h|);
    PackedInjective(Triangle(g, |g|), Triangle(h, |h|));
    TriangleInjective(g, h);
  }

  /** The reference encoding of a graph, with or without header and between white space, is an encoding of it. */
  lemma RoundTrip(g: Adjacency, before: Bytes, header: bool, after: Bytes)
    requires Simple(g) && |g| < LARGE_LIMIT
    requires forall b :: b in before || b in after ==> IsSpace(b)
    ensures Printable(Encoded(g))
    ensures Body(before + (if header then HEADER else []) + Encoded(g) + after) == Encoded(g)
    ensures Encodes(Encoded(g), g)
  {
    var data := Encoded(g);
    var k := |ReferenceOrder(|g|)|;
    assert data[..k] == ReferenceOrder(|g|) && data[k..] == Packed(Triangle(g, |g|)) && OrderAt(data, k, |g|);
    BodyOfEncoded(Encoded(g), before, header, after);
  }

  lemma BodyOfEncoded(data: Bytes, before: Bytes, header: bool, after: Bytes)
    requires data != [] && Printable(data)
    requires forall b :: b in before || b in after ==> IsSpace(b)
    ensures Body(before + (if header then HEADER else []) + data + after) == data
  {
    var text := (if header then HEADER else []) + data;
    assert !IsSpace(text[0]) && !IsSpace(text[|text| - 1]);
    assert before + (if header then HEADER else []) + data + after == before + (text + after);
    LeftStrippedPast(before, text + after);
    RightStrippedBefore(text, after);
    assert !(HEADER <= data);
  }

  lemma {:induction false} LeftStrippedPast(spaces: Bytes, text: Bytes)
    requires forall b :: b in spaces ==> IsSpace(b)
    requires text != [] && !IsSpace(text[0])
    ensures LeftStripped(spaces + text) == text
  {
    if spaces == [] {
      assert spaces + text == text;
    } else {
      assert (spaces + text)[1..] == spaces[1..] + text && spaces[0] in spaces;
      LeftStrippedPast(spaces[1..], text);
    }
  }

  lemma {:induction false} RightStrippedBefore(text: Bytes, spaces: Bytes)
    requires forall b :: b in spaces ==> IsSpace(b)
    requires text != [] && !IsSpace(text[|text| - 1])
    ensures RightStripped(text + spaces) == text
  {
    if spaces == [] {
      assert text + spaces == text;
    } else {
      var n := |spaces| - 1;
      assert (text + spaces)[..|text + spaces| - 1] == text + spaces[..n] && spaces[n] in spaces;
      RightStrippedBefore(text, spaces[..n]);
    }
  }

  lemma OrderLength(prefix: Bytes, n: nat)
    requires IsOrder(prefix, n)
    ensures n < LARGE_LIMIT && |prefix| >= |ReferenceOrder(n)|
    ensures |prefix| == |ReferenceOrder(n)| ==> prefix == ReferenceOrder(n)
  {}

  /**
    The payload of an encoding is canonical but its order prefix need not be: an encoding of g is the
    reference encoding exactly when it is no longer than that.
   */
  lemma CanonicalIffShortest(data: Bytes, g: Adjacency)
    requires Encodes(data, g)
    ensures |g| < LARGE_LIMIT && |data| >= |Encoded(g)|
    ensures data == Encoded(g) <==> |data| == |Encoded(g)|
  {
    var k: nat :| OrderAt(data, k, |g|) && data[k..] == Packed(Triangle(g, |g|));
    var prefix, payload := data[..k], data[k..];
    assert data == prefix + payload;
    OrderLength(prefix, |g|);
    assert Encoded(g) == ReferenceOrder(|g|) + payload;
    ComparePrefixes(prefix, ReferenceOrder(|g|), payload, data);
  }

  lemma ComparePrefixes(p: Bytes, q: Bytes, payload: Bytes, data: Bytes)
    requires |p| >= |q| && (|p| == |q| ==> p == q) && data == p + payload
    ensures |data| >= |q + payload|
    ensures data == q + payload <==> |data| == |q + payload|
  {}

  /** The longer order forms are accepted too: two of them below 63, one below the limit of the medium form. */
  lemma LongerFormsAccepted(g: Adjacency)
    requires Simple(g) && |g| < MEDIUM_LIMIT
    ensures |g| < 63 ==> var medium := MediumOrder(|g|) + Packed(Triangle(g, |g|));
                         Encodes(medium, g) && |Encoded(g)| < |medium|
    ensures var large := LargeOrder(|g|) + Packed(Triangle(g, |g|)); Encodes(large, g) && |Encoded(g)| < |large|
  {
    var payload := Packed(Triangle(g, |g|));
    var medium, large := MediumOrder(|g|) + payload, LargeOrder(|g|) + payload;
    if |g| < 63 {
      assert medium[..4] == MediumOrder(|g|) && medium[4..] == payload && OrderAt(medium, 4, |g|);
    }
    assert large[..8] == LargeOrder(|g|) && large[8..] == payload && OrderAt(large, 8, |g|);
  }

  /** A graph has an encoding other than the encoder's exactly when its order is below the limit of the medium form. */
  lemma LongerFormsExact(g: Adjacency)
    requires Simple(g) && |g| < LARGE_LIMIT
    ensures (exists data :: Encodes(data, g) && data != Encoded(g)) <==> |g| < MEDIUM_LIMIT
  {
    if |g| < MEDIUM_LIMIT {
      LongerFormsAccepted(g);
    } else {
      forall data: Bytes | Encodes(data, g) ensures data == Encoded(g) {
        var k: nat :| OrderAt(data, k, |g|) && data[k..] == Packed(Triangle(g, |g|));
        assert data == data[..k] + data[k..] && data[..k] == LargeOrder(|g|);
      }
    }
  }
}
