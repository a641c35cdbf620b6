/**
  What JSON texts mean, said without the parser's own tables: escapes are given by the characters they are
  spelled with, and code points by their numbers.
 */
module JsonLaws {
  import opened Common
  import opened Utf8
  import opened JsonSyntax
  import opened JsonReader
  import opened JsonProofs
  import opened JsonEscape
  import opened ShardOrder

  /** The bytes of the grammar are these characters. */
  lemma Spelling()
    ensures [QUOTE, BACKSLASH, SLASH, LOWER_U] == Ascii("\"\\/u") && [MINUS, POINT, COMMA, COLON] == Ascii("-.,:")
    ensures [OPEN_BRACKET, CLOSE_BRACKET, OPEN_BRACE, CLOSE_BRACE] == Ascii("[]{}")
    ensures NULL_WORD == Ascii("null") && TRUE_WORD == Ascii("true") && FALSE_WORD == Ascii("false")
    ensures forall b: Byte :: IsBlank(b) <==> b in Ascii(" \t\n\r")
    ensures forall b: Byte :: IsDigit(b) <==> b in Ascii("0123456789")
  {
    var digits := Ascii("0123456789");
    assert forall i :: 0 <= i < 10 ==> digits[i] == 0x30 + i;
    forall b: Byte
      ensures IsDigit(b) <==> b in digits
    {
      if IsDigit(b) {
        assert digits[b - 0x30] == b;
      }
    }
    var blanks := Ascii(" \t\n\r");
    assert blanks == [0x20, 0x09, 0x0A, 0x0D];
  }

  /** An exponent is spelled with either letter and either sign. */
  lemma ExponentSpelling(mark: Byte, sign: seq<Byte>, digits: seq<Byte>)
    ensures ValidExponent(mark, sign, digits) <==>
            Digits(digits) && mark in Ascii("eE") && (sign == [] || sign == Ascii("+") || sign == Ascii("-"))
  {
    assert Ascii("eE") == [0x65, 0x45] && Ascii("+") == [0x2B] && Ascii("-") == [0x2D];
  }

  /** Control characters must be escaped. */
  lemma ControlsAreRefused(b: Byte, rest: seq<Byte>, text: seq<Byte>)
    requires b < 0x20
    ensures ReadText([b] + rest, text).Failed?
  {
  }

  function HexDigitOf(d: nat, capital: bool): Byte
    requires d < 16
  {
    Ascii(if capital then "0123456789ABCDEF" else "0123456789abcdef")[d]
  }

  /** A number below 65536 in four hexadecimal digits, each of them in small or capital letters. */
  function HexOf(n: nat, capital: nat -> bool): seq<Byte>
    requires n < 0x10000
  {
    [HexDigitOf(n / 0x1000, capital(0)), HexDigitOf(n / 0x100 % 16, capital(1)), HexDigitOf(n / 0x10 % 16, capital(2)),
     HexDigitOf(n % 16, capital(3))]
  }

  /** Section 7 of RFC 8259: a code point of the basic plane as one code unit, any other as a surrogate pair. */
  function EscapeOf(v: int, capital: nat -> bool): seq<Byte>
    requires Utf8.Scalar(v)
  {
    if v < 0x10000 then Ascii("\\u") + HexOf(v, capital)
    else
      Ascii("\\u") + HexOf(0xD800 + (v - 0x10000) / 0x400, capital) + (Ascii("\\u") + HexOf(0xDC00 + (v - 0x10000) % 0x400, capital))
  }

  /** How the escaper writes a byte: five have a short form, other control characters are escaped in small
      hexadecimal digits, and everything else stands for itself. */
  lemma EscapedForms(b: Byte)
    ensures EscapedByte(b) ==
            if b == 0x5C then Ascii("\\\\")
            else if b == 0x22 then Ascii("\\\"")
            else if b == 0x0A then Ascii("\\n")
            else if b == 0x0D then Ascii("\\r")
            else if b == 0x09 then Ascii("\\t")
            else if b < 0x20 then Ascii("\\u") + HexOf(b, _ => false)
            else [b]
  {
    BackslashU();
    if b < 0x20 {
      HexDigitIsLetter(b / 0x10);
      HexDigitIsLetter(b % 0x10);
      HexDigitIsLetter(0);
      assert b / 0x10 % 16 == b / 0x10 && b / 0x100 % 16 == 0 && b / 0x1000 == 0;
    }
  }

  lemma HexDigitIsLetter(d: nat)
    requires d < 16
    ensures HexDigitOf(d, false) == HexLetter(d)
  {
    HexDigitIsReadBack(d, false);
    var small := "0123456789abcdef";
    if d < 10 {
      assert small[d] as int == 0x30 + d;
    } else {
      assert small[d] as int == 0x61 + (d - 10);
    }
  }

  predicate Scalars(vs: seq<int>) {
    forall i :: 0 <= i < |vs| ==> Utf8.Scalar(vs[i])
  }

  function EscapeAll(vs: seq<int>, capital: nat -> bool): seq<Byte>
    requires Scalars(vs)
  {
    if vs == [] then [] else EscapeOf(vs[0], capital) + EscapeAll(vs[1..], capital)
  }

  function EncodeAll(vs: seq<int>): seq<Byte>
    requires Scalars(vs)
  {
    if vs == [] then [] else Encode(vs[0]) + EncodeAll(vs[1..])
  }

  lemma HexDigitIsReadBack(d: nat, capital: bool)
    requires d < 16
    ensures HexDigit(HexDigitOf(d, capital)) == d
  {
    var small, large := "0123456789abcdef", "0123456789ABCDEF";
    if d < 10 {
      assert small[d] as int == large[d] as int == 0x30 + d;
    } else {
      assert small[d] as int == 0x61 + (d - 10) && large[d] as int == 0x41 + (d - 10);
    }
  }

  lemma Nibbles(n: nat)
    requires n < 0x10000
    ensures n == n / 0x1000 * 0x1000 + n / 0x100 % 16 * 0x100 + n / 0x10 % 16 * 0x10 + n % 16
  {
    var m := n / 0x10;
    assert n == m * 0x10 + n % 16 && m / 0x10 == n / 0x100 && m / 0x100 == n / 0x1000;
  }

  lemma HexIsReadBack(n: nat, capital: nat -> bool)
    requires n < 0x10000
    ensures Hex(HexOf(n, capital)) && HexValue(HexOf(n, capital)) == n
  {
    hide HexDigit, HexDigitOf;
    var a, b, c, d: nat := n / 0x1000, n / 0x100 % 16, n / 0x10 % 16, n % 16;
    HexDigitIsReadBack(a, capital(0));
    HexDigitIsReadBack(b, capital(1));
    HexDigitIsReadBack(c, capital(2));
    HexDigitIsReadBack(d, capital(3));
    var s := HexOf(n, capital);
    assert s == [HexDigitOf(a, capital(0)), HexDigitOf(b, capital(1)), HexDigitOf(c, capital(2)), HexDigitOf(d, capital(3))];
    hide HexOf;
    Nibbles(n);
  }

  lemma BackslashU()
    ensures Ascii("\\u") == [BACKSLASH, LOWER_U]
  {
  }

  /** The piece of JSON syntax a code point is escaped as. */
  lemma EscapedScalar(v: int, capital: nat -> bool) returns (p: Piece)
    requires Utf8.Scalar(v)
    ensures p.Valid() && p.Text() == EscapeOf(v, capital) && p.Denote() == Encode(v)
  {
    hide Ascii, HexOf, HexValue, Encode, Encoded, Hex, HexDigit;
    BackslashU();
    if v < 0x10000 {
      HexIsReadBack(v, capital);
      p := Unit(HexOf(v, capital));
    } else {
      var high, low := 0xD800 + (v - 0x10000) / 0x400, 0xDC00 + (v - 0x10000) % 0x400;
      HexIsReadBack(high, capital);
      HexIsReadBack(low, capital);
      p := Pair(HexOf(high, capital), HexOf(low, capital));
      assert Paired(high, low) == v;
    }
  }

  lemma QuoteEnds(rest: seq<Byte>, text: seq<Byte>)
    ensures ReadText([QUOTE] + rest, text) == Done(text, rest)
  {
    var s := [QUOTE] + rest;
    assert s[1..] == rest;
  }

  lemma {:induction false} EscapesAreRead(vs: seq<int>, capital: nat -> bool, rest: seq<Byte>, text: seq<Byte>)
    requires Scalars(vs)
    ensures ReadText(EscapeAll(vs, capital) + ([QUOTE] + rest), text) == Done(text + EncodeAll(vs), rest)
  {
    hide EscapeOf, Encode, ReadText, Ascii, Piece.Valid, Piece.Text, Piece.Denote, QuotedTail;
    if vs == [] {
      QuoteEnds(rest, text);
      assert [] + ([QUOTE] + rest) == [QUOTE] + rest && text + [] == text;
    } else {
      var p := EscapedScalar(vs[0], capital);
      var tail := EscapeAll(vs[1..], capital) + ([QUOTE] + rest);
      PieceComplete(p, tail, text);
      EscapesAreRead(vs[1..], capital, rest, text + Encode(vs[0]));
      Assoc(EscapeOf(vs[0], capital), EscapeAll(vs[1..], capital), [QUOTE] + rest);
      Assoc(text, Encode(vs[0]), EncodeAll(vs[1..]));
    }
  }

  /** A text of any code points, written by a serializer that escapes every one of them, is read as their UTF-8. */
  lemma EscapedTextIsRead(vs: seq<int>, capital: nat -> bool, options: ParseOptions)
    requires Scalars(vs) && |EscapeAll(vs, capital)| + 2 <= options.maxInputBytes && options.maxValues >= 1
    ensures ReadDocument(Ascii("\"") + EscapeAll(vs, capital) + Ascii("\""), options) == Parsed(Str(EncodeAll(vs)))
  {
    var e := EscapeAll(vs, capital) + [QUOTE];
    assert Ascii("\"") == [QUOTE];
    assert Ascii("\"") + EscapeAll(vs, capital) + Ascii("\"") == [QUOTE] + e;
    EscapesAreRead(vs, capital, [], []);
    ReadQuoted(e, options.Budget());
    hide ReadText, EscapeAll, EncodeAll, ReadValue;
    assert [QUOTE] + [] == [QUOTE] && [] + EncodeAll(vs) == EncodeAll(vs);
  }

  /** The two-character escapes: each letter of one list stands for the character of the other, and no other
      letter but u makes an escape. */
  lemma ShortEscapes(letter: Byte, rest: seq<Byte>)
    ensures var letters, meanings := Ascii("\"\\/bfnrt"), [0x22, 0x5C, 0x2F, 0x08, 0x0C, 0x0A, 0x0D, 0x09];
            && |letters| == |meanings|
            && (forall i :: 0 <= i < |letters| && letters[i] == letter ==>
                  ReadEscape([BACKSLASH, letter] + rest) == Done([meanings[i]], rest))
            && (letter !in letters && letter != LOWER_U ==> ReadEscape([BACKSLASH, letter] + rest).Failed?)
  {
    var letters := Ascii("\"\\/bfnrt");
    assert letters == [0x22, 0x5C, 0x2F, 0x62, 0x66, 0x6E, 0x72, 0x74];
    var s := [BACKSLASH, letter] + rest;
    assert s[1] == letter && s[2..] == rest;
  }

  lemma {:induction false} PrecedesFrom(a: seq<Byte>, b: seq<Byte>, k: nat)
    requires |a| == |b| && k < |a| && a[..k] == b[..k] && a[k] < b[k]
    ensures Precedes(a, b)
  {
    if k > 0 {
      assert a[0] == a[..k][0] == b[..k][0] == b[0];
      assert a[1..][..k - 1] == a[..k][1..] == b[..k][1..] == b[1..][..k - 1];
      PrecedesFrom(a[1..], b[1..], k - 1);
    }
  }

  lemma FirstDifference(a: seq<Byte>, b: seq<Byte>, k: nat)
    requires |a| == |b| <= 4 && k < |a| && a[k] < b[k] && forall i :: 0 <= i < k ==> a[i] == b[i]
    ensures Precedes(a, b)
  {
    assert a[..k] == b[..k];
    PrecedesFrom(a, b, k);
  }

  lemma LongerPrecedes(a: seq<Byte>, b: seq<Byte>)
    requires a != [] && b != [] && a[0] < b[0]
    ensures Precedes(a, b)
  {
  }

  lemma Sextets(v: int) returns (a: int, b: int, c: int, d: int)
    requires 0 <= v <= 0x10FFFF
    ensures v == Bits(a, b, c, d) && 0 <= a < 0x10 && 0 <= b < 0x40 && 0 <= c < 0x40 && 0 <= d < 0x40
  {
    var high, middle := v / 0x40, v / 0x40 / 0x40;
    a, b, c, d := middle / 0x40, middle % 0x40, high % 0x40, v % 0x40;
  }

  /** The order of code points is the order of their encodings, byte by byte. */
  lemma EncodeKeepsOrder(v: int, w: int)
    requires 0 <= v < w <= 0x10FFFF
    ensures Precedes(Encode(v), Encode(w))
  {
    hide Precedes, Encode;
    var a, b, c, d := Sextets(v);
    var e, f, g, h := Sextets(w);
    EncodeBits(a, b, c, d);
    EncodeBits(e, f, g, h);
    if v <= 0x7F {
      EncodeAscii(v);
      if w <= 0x7F {
        EncodeAscii(w);
      }
      LongerPrecedes(Encode(v), Encode(w));
    } else if v <= 0x7FF {
      SextetsPrecede([0xC0 + c, 0x80 + d], Encode(w));
    } else if v <= 0xFFFF {
      SextetsPrecede([0xE0 + b, 0x80 + c, 0x80 + d], Encode(w));
    } else {
      SextetsPrecede([0xF0 + a, 0x80 + b, 0x80 + c, 0x80 + d], Encode(w));
    }
  }

  lemma SextetsPrecede(s: seq<Byte>, t: seq<Byte>)
    requires 2 <= |s| <= 4 && t != []
    requires || s[0] < t[0]
             || (|s| == |t| && s[0] == t[0] && (s[1] < t[1] || (s[1] == t[1] && |s| > 2 &&
                 (s[2] < t[2] || (s[2] == t[2] && |s| > 3 && s[3] < t[3])))))
    ensures Precedes(s, t)
  {
    hide Precedes;
    if s[0] < t[0] {
      LongerPrecedes(s, t);
    } else {
      FirstDifference(s, t, if s[1] < t[1] then 1 else if s[2] < t[2] then 2 else 3);
    }
  }
}
