/** The orders the page queries sort by: bytewise text, uuids, and strict total orders in general. */
module Ordering {
  import opened Schema

  ghost predicate StrictTotal<K(!new)>(lt: (K, K) -> bool) {
    && (forall x :: !lt(x, x))
    && (forall x, y, z :: lt(x, y) && lt(y, z) ==> lt(x, z))
    && (forall x, y :: x != y ==> lt(x, y) || lt(y, x))
  }

  /** Lexicographic order of code sequences; a proper prefix comes first. */
  predicate Lex(a: seq<int>, b: seq<int>) {
    b != [] && (a == [] || a[0] < b[0] || (a[0] == b[0] && Lex(a[1..], b[1..])))
  }

  lemma {:induction false} LexIrreflexive(a: seq<int>)
    ensures !Lex(a, a)
  {
    if a != [] { LexIrreflexive(a[1..]); }
  }

  lemma {:induction false} LexTransitive(a: seq<int>, b: seq<int>, c: seq<int>)
    requires Lex(a, b) && Lex(b, c)
    ensures Lex(a, c)
  {
    if a != [] && a[0] == b[0] == c[0] { LexTransitive(a[1..], b[1..], c[1..]); }
  }

  lemma {:induction false} LexConnected(a: seq<int>, b: seq<int>)
    requires a != b
    ensures Lex(a, b) || Lex(b, a)
  {
    if a != [] && b != [] && a[0] == b[0] {
      assert a == [a[0]] + a[1..] && b == [b[0]] + b[1..];
      LexConnected(a[1..], b[1..]);
    }
  }

  /** Equal-length heads decide first, tails only if the heads are equal. */
  lemma {:induction false} LexConcat(a: seq<int>, b: seq<int>, c: seq<int>, d: seq<int>)
    requires |a| == |b|
    ensures Lex(a + c, b + d) <==> Lex(a, b) || (a == b && Lex(c, d))
  {
    if a == [] {
      assert a + c == c && b + d == d;
    } else {
      assert (a + c)[1..] == a[1..] + c && (b + d)[1..] == b[1..] + d;
      LexConcat(a[1..], b[1..], c, d);
      assert a == [a[0]] + a[1..] && b == [b[0]] + b[1..];
    }
  }

  function Codes(s: string): (r: seq<int>)
    ensures |r| == |s|
  {
    seq(|s|, i requires 0 <= i < |s| => s[i] as int)
  }

  lemma CodesInjective(a: string, b: string)
    requires Codes(a) == Codes(b)
    ensures a == b
  {
    assert forall i :: 0 <= i < |a| ==> Codes(a)[i] == a[i] as int;
    assert forall i :: 0 <= i < |b| ==> Codes(b)[i] == b[i] as int;
  }

  /** Bytewise text comparison. */
  predicate TextLess(a: string, b: string) {
    Lex(Codes(a), Codes(b))
  }

  lemma TextOrder()
    ensures StrictTotal(TextLess)
  {
    forall a ensures !TextLess(a, a) { LexIrreflexive(Codes(a)); }
    forall a, b, c | TextLess(a, b) && TextLess(b, c) ensures TextLess(a, c) { LexTransitive(Codes(a), Codes(b), Codes(c)); }
    forall a, b | a != b ensures TextLess(a, b) || TextLess(b, a) {
      if Codes(a) == Codes(b) { CodesInjective(a, b); }
      LexConnected(Codes(a), Codes(b));
    }
  }

  // ---------------------------------------------------------------- uuids

  /** uuid comparison: the 16 bytes in order. */
  predicate UuidLess(a: BuildId, b: BuildId) {
    Lex(a.bytes, b.bytes)
  }

  const HEX: string := "0123456789abcdef"

  /** Two lower-case hexadecimal digits per byte. */
  function Hex(bytes: seq<Byte>): (s: string)
    ensures |s| == 2 * |bytes|
  {
    if bytes == [] then "" else [HEX[bytes[0] / 16], HEX[bytes[0] % 16]] + Hex(bytes[1..])
  }

  /** Hexadecimal groups of the given byte widths joined by hyphens; the last group takes the rest. */
  function Dashed(bytes: seq<Byte>, widths: seq<nat>): string
    decreases |widths|
  {
    if widths == [] || |bytes| < widths[0] then Hex(bytes)
    else Hex(bytes[..widths[0]]) + "-" + Dashed(bytes[widths[0]..], widths[1..])
  }

  /** The canonical text of a uuid: 8-4-4-4-12 digits (section 4 of RFC 9562). */
  function UuidText(u: BuildId): string {
    Dashed(u.bytes, [4, 2, 2, 2])
  }

  lemma HexDigitsAscend(x: int, y: int)
    requires 0 <= x < 16 && 0 <= y < 16
    ensures HEX[x] as int < HEX[y] as int <==> x < y
    ensures HEX[x] == HEX[y] <==> x == y
  { }

  lemma CodesConcat(a: string, b: string)
    ensures Codes(a + b) == Codes(a) + Codes(b)
  { }

  lemma {:induction false} HexOrder(a: seq<Byte>, b: seq<Byte>)
    requires |a| == |b|
    ensures TextLess(Hex(a), Hex(b)) <==> Lex(a, b)
    ensures Hex(a) == Hex(b) <==> a == b
  {
    if a != [] {
      var x, y := [HEX[a[0] / 16], HEX[a[0] % 16]], [HEX[b[0] / 16], HEX[b[0] % 16]];
      HexDigitsAscend(a[0] / 16, b[0] / 16);
      HexDigitsAscend(a[0] % 16, b[0] % 16);
      HexOrder(a[1..], b[1..]);
      CodesConcat(x, Hex(a[1..]));
      CodesConcat(y, Hex(b[1..]));
      LexConcat(Codes(x), Codes(y), Codes(Hex(a[1..])), Codes(Hex(b[1..])));
      PairOrder(x, y);
      assert Hex(a)[..2] == x && Hex(b)[..2] == y && Hex(a)[2..] == Hex(a[1..]) && Hex(b)[2..] == Hex(b[1..]);
      assert a == [a[0]] + a[1..] && b == [b[0]] + b[1..];
    }
  }

  lemma PairOrder(x: string, y: string)
    requires |x| == |y| == 2
    ensures TextLess(x, y) <==> x[0] as int < y[0] as int || (x[0] == y[0] && x[1] as int < y[1] as int)
    ensures Codes(x) == Codes(y) <==> x == y
  {
    if Codes(x) == Codes(y) { CodesInjective(x, y); }
    assert Codes(x)[1..] == [x[1] as int] && Codes(y)[1..] == [y[1] as int];
    assert Lex(Codes(x)[1..], Codes(y)[1..]) <==> x[1] as int < y[1] as int || (x[1] == y[1] && Lex([x[1] as int][1..], [y[1] as int][1..]));
  }

  /** One group, its hyphen, and the rest of the text. */
  lemma GroupOrder(a: seq<Byte>, b: seq<Byte>, c: string, d: string)
    requires |a| == |b|
    ensures TextLess(Hex(a) + "-" + c, Hex(b) + "-" + d) <==> Lex(a, b) || (a == b && TextLess(c, d))
  {
    CodesConcat(Hex(a) + "-", c);
    CodesConcat(Hex(b) + "-", d);
    CodesConcat(Hex(a), "-");
    CodesConcat(Hex(b), "-");
    LexConcat(Codes(Hex(a) + "-"), Codes(Hex(b) + "-"), Codes(c), Codes(d));
    LexConcat(Codes(Hex(a)), Codes(Hex(b)), Codes("-"), Codes("-"));
    LexIrreflexive(Codes("-"));
    HexOrder(a, b);
    if Codes(Hex(a) + "-") == Codes(Hex(b) + "-") {
      CodesInjective(Hex(a) + "-", Hex(b) + "-");
      assert (Hex(a) + "-")[..|Hex(a)|] == Hex(a) && (Hex(b) + "-")[..|Hex(b)|] == Hex(b);
    }
  }

  lemma {:induction false} DashedOrder(a: seq<Byte>, b: seq<Byte>, widths: seq<nat>)
    requires |a| == |b|
    ensures TextLess(Dashed(a, widths), Dashed(b, widths)) <==> Lex(a, b)
    decreases |widths|
  {
    if widths == [] || |a| < widths[0] {
      HexOrder(a, b);
    } else {
      var k := widths[0];
      DashedOrder(a[k..], b[k..], widths[1..]);
      GroupOrder(a[..k], b[..k], Dashed(a[k..], widths[1..]), Dashed(b[k..], widths[1..]));
      LexConcat(a[..k], b[..k], a[k..], b[k..]);
      assert a == a[..k] + a[k..] && b == b[..k] + b[k..];
    }
  }

  /** Comparing uuids as canonical text and as 16 bytes is the same. */
  lemma UuidTextOrder(u: BuildId, v: BuildId)
    ensures TextLess(UuidText(u), UuidText(v)) <==> UuidLess(u, v)
  {
    DashedOrder(u.bytes, v.bytes, [4, 2, 2, 2]);
  }

  /** The canonical text determines the uuid. */
  lemma UuidTextInjective(u: BuildId, v: BuildId)
    requires UuidText(u) == UuidText(v)
    ensures u == v
  {
    UuidTextOrder(u, v);
    UuidTextOrder(v, u);
    LexIrreflexive(Codes(UuidText(u)));
    if u.bytes != v.bytes { LexConnected(u.bytes, v.bytes); }
  }

  lemma UuidOrder()
    ensures StrictTotal(UuidLess)
  {
    forall u: BuildId ensures !UuidLess(u, u) { LexIrreflexive(u.bytes); }
    forall u: BuildId, v: BuildId, w: BuildId | UuidLess(u, v) && UuidLess(v, w) ensures UuidLess(u, w) {
      LexTransitive(u.bytes, v.bytes, w.bytes);
    }
    forall u: BuildId, v: BuildId | u != v ensures UuidLess(u, v) || UuidLess(v, u) { LexConnected(u.bytes, v.bytes); }
  }

  lemma HexPair(x: Byte, y: Byte)
    ensures Hex([x, y]) == [HEX[x / 16], HEX[x % 16], HEX[y / 16], HEX[y % 16]]
  {
    assert [x, y][1..] == [y] && [y][1..] == [];
    assert Hex([y]) == [HEX[y / 16], HEX[y % 16]] + Hex([]);
  }

  lemma {:induction false} HexConcat(a: seq<Byte>, b: seq<Byte>)
    ensures Hex(a + b) == Hex(a) + Hex(b)
  {
    if a == [] {
      assert a + b == b;
    } else {
      HexConcat(a[1..], b);
      assert (a + b)[1..] == a[1..] + b;
    }
  }

  /** The text in parts: 4 bytes, three times 2, and 6, in hexadecimal, with hyphens between. */
  lemma UuidTextParts(u: BuildId)
    ensures var b := u.bytes;
            UuidText(u) == Hex(b[..4]) + "-" + (Hex(b[4..6]) + "-" + (Hex(b[6..8]) + "-" + (Hex(b[8..10]) + "-" + Hex(b[10..]))))
  {
    var b := u.bytes;
    assert [4, 2, 2, 2][1..] == [2, 2, 2] && [2, 2, 2][1..] == [2, 2] && [2, 2][1..] == [2] && [2][1..] == [];
    assert b[4..][..2] == b[4..6] && b[4..][2..] == b[6..];
    assert b[6..][..2] == b[6..8] && b[6..][2..] == b[8..];
    assert b[8..][..2] == b[8..10] && b[8..][2..] == b[10..];
    assert Dashed(b[8..], [2]) == Hex(b[8..10]) + "-" + Dashed(b[10..], []);
    assert Dashed(b[6..], [2, 2]) == Hex(b[6..8]) + "-" + Dashed(b[8..], [2]);
    assert Dashed(b[4..], [2, 2, 2]) == Hex(b[4..6]) + "-" + Dashed(b[6..], [2, 2]);
  }

  /** The digits of one byte are lower case: those of 0xf8 and 0x1d begin the example of section 4 of RFC 9562. */
  lemma HexExample()
    ensures Hex([0xf8, 0x1d]) == "f81d" && Hex([0x4f, 0xae]) == "4fae" && Hex([0xc9, 0x6b]) == "c96b" && Hex([0x05, 0x32]) == "0532" && Hex([0x7a, 0xb6]) == "7ab6"
  {
    HexPair(0xf8, 0x1d);
    HexPair(0x4f, 0xae);
    HexPair(0xc9, 0x6b);
    HexPair(0x05, 0x32);
    HexPair(0x7a, 0xb6);
  }
}
