/** The colours of the refinement: decimal numerals, neighbourhood signatures and their repr order. */
module Colors {
  import opened Sorting

  predicate IsDigit(c: char) {
    '0' <= c <= '9'
  }

  predicate Digits(s: string) {
    s != "" && forall i :: 0 <= i < |s| ==> IsDigit(s[i])
  }

  type Color = s: string | Digits(s) witness "0"

  // --- str(n) -------------------------------------------------------------------------------

  function Digit(d: nat): (c: char)
    requires d < 10
    ensures IsDigit(c) && c as int == d + '0' as int
  {
    (d + '0' as int) as char
  }

  function Decimal(n: nat): (r: Color)
    ensures |r| == 1 <==> n < 10
  {
    if n < 10 then [Digit(n)] else Decimal(n / 10) + [Digit(n % 10)]
  }

  lemma {:induction false} DecimalInjective(m: nat, n: nat)
    requires Decimal(m) == Decimal(n)
    ensures m == n
  {
    var a, b := Decimal(m), Decimal(n);
    assert a[|a| - 1] == b[|b| - 1];
    if m >= 10 && n >= 10 {
      assert Decimal(m / 10) == a[..|a| - 1] && Decimal(n / 10) == b[..|b| - 1];
      DecimalInjective(m / 10, n / 10);
    }
  }

  /** Leading zeros up to a width. */
  function Zeros(s: string, width: nat): string
    decreases width - |s|
  {
    if |s| >= width then s else Zeros("0" + s, width)
  }

  // --- Orders on colours --------------------------------------------------------------------

  predicate ColorLeq(a: Color, b: Color) {
    StringLeq(a, b)
  }

  predicate ColorPairLeq(a: (Color, Color), b: (Color, Color)) {
    StringPairLeq((a.0, a.1), (b.0, b.1))
  }

  lemma ColorOrder()
    ensures TotalOrder(ColorLeq)
  {
    StringOrder();
  }

  lemma ColorPairOrder()
    ensures TotalOrder(ColorPairLeq)
  {
    StringPairOrder();
    forall a, b ensures ColorPairLeq(a, b) || ColorPairLeq(b, a) {
      PairLeqTotal((a.0, a.1), (b.0, b.1));
    }
    forall a, b | ColorPairLeq(a, b) && ColorPairLeq(b, a) ensures a == b {
      PairLeqEqual((a.0, a.1), (b.0, b.1));
    }
  }

  lemma PairLeqTotal(x: (string, string), y: (string, string))
    requires TotalOrder(StringPairLeq)
    ensures StringPairLeq(x, y) || StringPairLeq(y, x)
  {}

  lemma PairLeqEqual(x: (string, string), y: (string, string))
    requires TotalOrder(StringPairLeq) && StringPairLeq(x, y) && StringPairLeq(y, x)
    ensures x == y
  {}

  // --- Signatures and their repr ------------------------------------------------------------

  /** A vertex colour with the sorted colours of its neighbours. */
  datatype Signature = Signature(color: Color, around: seq<Color>)

  function Quoted(s: string): string {
    "'" + s + "'"
  }

  /** The items of a tuple after the first, and its closing bracket. */
  function RestRepr(items: seq<Color>): string {
    if items == [] then ")" else ", " + Quoted(items[0]) + RestRepr(items[1..])
  }

  /** What follows the first item of a non-empty tuple. */
  function AfterFirst(items: seq<Color>): string
    requires items != []
  {
    if |items| == 1 then ",)" else RestRepr(items[1..])
  }

  /** repr of a tuple of numerals. */
  function TupleRepr(items: seq<Color>): string {
    if items == [] then "()" else "(" + (Quoted(items[0]) + AfterFirst(items))
  }

  function Repr(s: Signature): string {
    "(" + Quoted(s.color) + ", " + TupleRepr(s.around) + ")"
  }

  /** The repr of tuples with none, one and two items. */
  lemma PrintedTuples(a: Color, b: Color)
    ensures TupleRepr([]) == "()" && TupleRepr([a]) == "('" + a + "',)"
    ensures TupleRepr([a, b]) == "('" + a + ("', '" + b + "')")
  {
    Joined("(", "'", a, "'", ",)");
    assert "(" + "'" == "('" && "'" + ",)" == "',)";
    assert [a, b][1..] == [b] && [b][1..] == [];
    Joined("(", "'", a, "'", RestRepr([b]));
    Joined(", ", "'", b, "'", ")");
    assert "'" + RestRepr([b]) == "', '" + b + "')";
  }

  lemma Joined(a: string, b: string, c: string, d: string, e: string)
    ensures a + (b + c + d + e) == (a + b) + c + (d + e)
    ensures a + (b + c + d) + e == (a + b) + c + (d + e)
  {}

  lemma {:induction false} QuotedSplit(a: string, b: string, x: string, y: string)
    requires forall i :: 0 <= i < |a| ==> IsDigit(a[i])
    requires forall i :: 0 <= i < |b| ==> IsDigit(b[i])
    requires a + "'" + x == b + "'" + y
    ensures a == b && x == y
  {
    var s, t := a + "'" + x, b + "'" + y;
    if a == "" || b == "" {
      assert s[0] == t[0];
      assert a == b == "";
      assert x == s[1..] && y == t[1..];
    } else {
      assert s[0] == t[0] && a[0] == b[0];
      assert s[1..] == a[1..] + "'" + x && t[1..] == b[1..] + "'" + y;
      QuotedSplit(a[1..], b[1..], x, y);
      assert a == [a[0]] + a[1..] && b == [b[0]] + b[1..];
    }
  }

  lemma QuotedPrefix(a: Color, b: Color, x: string, y: string)
    requires Quoted(a) + x == Quoted(b) + y
    ensures a == b && x == y
  {
    assert (Quoted(a) + x)[1..] == a + "'" + x && (Quoted(b) + y)[1..] == b + "'" + y;
    QuotedSplit(a, b, x, y);
  }

  lemma {:induction false} RestInjective(a: seq<Color>, b: seq<Color>)
    requires RestRepr(a) == RestRepr(b)
    ensures a == b
  {
    assert RestRepr(a)[0] == RestRepr(b)[0];
    if a != [] && b != [] {
      assert RestRepr(a)[2..] == Quoted(a[0]) + RestRepr(a[1..]);
      assert RestRepr(b)[2..] == Quoted(b[0]) + RestRepr(b[1..]);
      QuotedPrefix(a[0], b[0], RestRepr(a[1..]), RestRepr(b[1..]));
      RestInjective(a[1..], b[1..]);
      assert a == [a[0]] + a[1..] && b == [b[0]] + b[1..];
    }
  }

  lemma AfterFirstInjective(a: seq<Color>, b: seq<Color>)
    requires a != [] && b != [] && AfterFirst(a) == AfterFirst(b)
    ensures a[1..] == b[1..]
  {
    assert |a| > 1 ==> AfterFirst(a)[1] == ' ';
    assert |b| > 1 ==> AfterFirst(b)[1] == ' ';
    if |a| > 1 && |b| > 1 {
      RestInjective(a[1..], b[1..]);
    }
  }

  lemma TupleForm(items: seq<Color>)
    ensures |TupleRepr(items)| >= 2 && TupleRepr(items)[1] == if items == [] then ')' else '\''
    ensures items != [] ==> TupleRepr(items)[1..] == Quoted(items[0]) + AfterFirst(items)
  {
    if items != [] {
      var rest := Quoted(items[0]) + AfterFirst(items);
      assert rest[0] == '\'' && TupleRepr(items) == "(" + rest;
    }
  }

  lemma TupleInjective(a: seq<Color>, b: seq<Color>)
    requires TupleRepr(a) == TupleRepr(b)
    ensures a == b
  {
    TupleForm(a);
    TupleForm(b);
    if a != [] && b != [] {
      QuotedPrefix(a[0], b[0], AfterFirst(a), AfterFirst(b));
      AfterFirstInjective(a, b);
      assert a == [a[0]] + a[1..] && b == [b[0]] + b[1..];
    }
  }

  /** The repr of a signature after the colour. */
  function AfterColor(s: Signature): string {
    ", " + TupleRepr(s.around) + ")"
  }

  lemma ReprForm(s: Signature)
    ensures |Repr(s)| >= 1 && Repr(s)[1..] == Quoted(s.color) + AfterColor(s)
    ensures |AfterColor(s)| >= 3 && TupleRepr(s.around) == AfterColor(s)[2..|AfterColor(s)| - 1]
  {
    TupleForm(s.around);
    Regrouped("(", Quoted(s.color), ", ", TupleRepr(s.around), ")");
    Inner(", ", TupleRepr(s.around), ")");
  }

  lemma Regrouped(a: string, b: string, c: string, d: string, e: string)
    ensures a + b + c + d + e == a + (b + (c + d + e))
    ensures (a + b + c + d + e)[|a|..] == b + (c + d + e)
  {
    assert a + b + c + d + e == a + (b + (c + d + e));
  }

  lemma Inner(a: string, b: string, c: string)
    ensures (a + b + c)[|a|..|a + b + c| - |c|] == b
  {}

  /** Different signatures have different reprs, so sorting by repr leaves no choice. */
  lemma ReprInjective(a: Signature, b: Signature)
    requires Repr(a) == Repr(b)
    ensures a == b
  {
    ReprForm(a);
    ReprForm(b);
    QuotedPrefix(a.color, b.color, AfterColor(a), AfterColor(b));
    TupleInjective(a.around, b.around);
  }

  predicate ReprLeq(a: Signature, b: Signature) {
    StringLeq(Repr(a), Repr(b))
  }

  lemma ReprOrder()
    ensures TotalOrder(ReprLeq)
  {
    StringOrder();
    forall a, b | ReprLeq(a, b) && ReprLeq(b, a) ensures a == b {
      ReprInjective(a, b);
    }
  }
}
