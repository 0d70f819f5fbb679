/** Length-prefixed framing of byte fields: no two field lists frame to the same bytes. */
module Framing {
  import Arithmetic

  type Bytes = seq<int>

  /** value.to_bytes(width, "big") */
  function BigEndian(n: nat, width: nat): (r: Bytes)
    ensures |r| == width
  {
    if width == 0 then [] else BigEndian(n / 256, width - 1) + [n % 256]
  }

  /** Byte i from the right is the i-th base-256 digit. */
  lemma {:induction false} BigEndianAt(n: nat, width: nat, i: nat)
    requires i < width
    ensures BigEndian(n, width)[width - 1 - i] == n / Arithmetic.Power(256, i) % 256
  {
    if i > 0 {
      BigEndianAt(n / 256, width - 1, i - 1);
      Arithmetic.DivTwice(n, 256, Arithmetic.Power(256, i - 1));
    }
  }

  const LIMIT := 0x1_0000_0000_0000_0000

  lemma LimitIsPower()
    ensures Arithmetic.Power(256, 8) == LIMIT
  {
    assert Arithmetic.Power(256, 4) == 0x1_0000_0000;
  }

  lemma {:induction false} BigEndianInjective(m: nat, n: nat, width: nat)
    requires m < Arithmetic.Power(256, width) && n < Arithmetic.Power(256, width)
             && BigEndian(m, width) == BigEndian(n, width)
    ensures m == n
  {
    if width > 0 {
      var a, b := BigEndian(m, width), BigEndian(n, width);
      assert a[..width - 1] == BigEndian(m / 256, width - 1) && b[..width - 1] == BigEndian(n / 256, width - 1);
      assert a[width - 1] == m % 256 && b[width - 1] == n % 256;
      BigEndianInjective(m / 256, n / 256, width - 1);
    }
  }

  function Header(n: nat): (r: Bytes)
    ensures |r| == 8
  {
    BigEndian(n, 8)
  }

  lemma HeaderInjective(m: nat, n: nat)
    requires m < LIMIT && n < LIMIT && Header(m) == Header(n)
    ensures m == n
  {
    LimitIsPower();
    BigEndianInjective(m, n, 8);
  }

  function Framed(fields: seq<Bytes>): Bytes {
    if fields == [] then [] else Header(|fields[0]|) + fields[0] + Framed(fields[1..])
  }

  /** Every field is short enough for its length prefix. */
  predicate Framable(fields: seq<Bytes>) {
    forall i :: 0 <= i < |fields| ==> |fields[i]| < LIMIT
  }

  lemma SamePrefix(h: Bytes, k: Bytes, x: Bytes, y: Bytes)
    requires |h| == |k| && h + x == k + y
    ensures h == k && x == y
  {
    assert (h + x)[..|h|] == h && (k + y)[..|h|] == k;
    assert (h + x)[|h|..] == x && (k + y)[|h|..] == y;
  }

  lemma HeadField(h: Bytes, k: Bytes, a: Bytes, b: Bytes, x: Bytes, y: Bytes)
    requires |h| == |k| && (h == k ==> |a| == |b|) && h + a + x == k + b + y
    ensures a == b && x == y
  {
    assert h + a + x == h + (a + x) && k + b + y == k + (b + y);
    SamePrefix(h, k, a + x, b + y);
    SamePrefix(a, b, x, y);
  }

  lemma {:induction false} FramedInjective(a: seq<Bytes>, b: seq<Bytes>)
    requires |a| == |b| && Framable(a) && Framable(b) && Framed(a) == Framed(b)
    ensures a == b
  {
    if a != [] {
      var h, k := Header(|a[0]|), Header(|b[0]|);
      if h == k {
        HeaderInjective(|a[0]|, |b[0]|);
      }
      HeadField(h, k, a[0], b[0], Framed(a[1..]), Framed(b[1..]));
      FramedInjective(a[1..], b[1..]);
      assert a == [a[0]] + a[1..] && b == [b[0]] + b[1..];
    }
  }
}
