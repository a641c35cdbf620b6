/**
  The command line's escaper of strings, against the parser that reads them back.
 */
module JsonEscape {
  import opened Common
  import opened Utf8
  import opened JsonSyntax
  import opened JsonReader
  import opened JsonProofs

  const LOWER_N: Byte := 0x6E
  const LOWER_R: Byte := 0x72
  const LOWER_T: Byte := 0x74

  function HexLetter(nibble: int): Byte
    requires 0 <= nibble < 16
  {
    if nibble < 10 then ZERO + nibble else 0x61 + (nibble - 10)
  }

  function EscapedByte(b: Byte): (s: seq<Byte>)
    ensures s != [] && (b >= 0x80 ==> s == [b]) && (b < 0x80 ==> s[0] < 0x80)
  {
    if b == BACKSLASH then [BACKSLASH, BACKSLASH]
    else if b == QUOTE then [BACKSLASH, QUOTE]
    else if b == 0x0A then [BACKSLASH, LOWER_N]
    else if b == 0x0D then [BACKSLASH, LOWER_R]
    else if b == 0x09 then [BACKSLASH, LOWER_T]
    else if b < 0x20 then [BACKSLASH, LOWER_U, ZERO, ZERO, HexLetter(b / 0x10), HexLetter(b % 0x10)]
    else [b]
  }

  /** The escaped string with its closing quote. */
  function EscapedTail(s: seq<Byte>): seq<Byte> {
    if s == [] then [QUOTE] else EscapedByte(s[0]) + EscapedTail(s[1..])
  }

  function Quoted(s: seq<Byte>): seq<Byte> {
    [QUOTE] + EscapedTail(s)
  }

  /** Writes a string between quotes; bytes from 0x80 on are passed through. */
  method PrintEscaped(value: seq<Byte>) returns (output: seq<Byte>)
    ensures output == Quoted(value)
  {
    hide EscapedByte;
    output := [QUOTE];
    for i := 0 to |value|
      invariant output + EscapedTail(value[i..]) == Quoted(value)
    {
      assert value[i..][1..] == value[i + 1..];
      Assoc(output, EscapedByte(value[i]), EscapedTail(value[i + 1..]));
      output := PutByte(output, value[i]);
    }
    output := output + [QUOTE];
  }

  method PutByte(before: seq<Byte>, byte: Byte) returns (output: seq<Byte>)
    ensures output == before + EscapedByte(byte)
  {
    match byte
    case 0x5C => output := before + [BACKSLASH, BACKSLASH];
    case 0x22 => output := before + [BACKSLASH, QUOTE];
    case 0x0A => output := before + [BACKSLASH, LOWER_N];
    case 0x0D => output := before + [BACKSLASH, LOWER_R];
    case 0x09 => output := before + [BACKSLASH, LOWER_T];
    case _ =>
      if byte < 0x20 {
        output := before + [BACKSLASH, LOWER_U, ZERO, ZERO, HexLetter(byte / 0x10), HexLetter(byte % 0x10)];
      } else {
        output := before + [byte];
      }
  }

  /** The piece of JSON syntax an ASCII byte is written as. */
  lemma EscapeIsPiece(b: Byte) returns (p: Piece)
    requires b < 0x80
    ensures p.Valid() && p.Text() == EscapedByte(b) && p.Denote() == [b]
  {
    if b == BACKSLASH || b == QUOTE {
      p := Escaped(b);
    } else if b == 0x0A {
      p := Escaped(LOWER_N);
    } else if b == 0x0D {
      p := Escaped(LOWER_R);
    } else if b == 0x09 {
      p := Escaped(LOWER_T);
    } else if b < 0x20 {
      var unit := [ZERO, ZERO, HexLetter(b / 0x10), HexLetter(b % 0x10)];
      assert HexDigit(HexLetter(b / 0x10)) == b / 0x10 && HexDigit(HexLetter(b % 0x10)) == b % 0x10;
      assert Hex(unit) && HexValue(unit) == b;
      p := Unit(unit);
    } else {
      p := Plain([b]);
    }
  }

  /** Bytes from 0x80 on at the start of the escaped text are the string's own. */
  lemma {:induction false} HighBytesAreCopied(s: seq<Byte>, m: nat)
    requires m <= |EscapedTail(s)| && forall i :: 0 <= i < m ==> EscapedTail(s)[i] >= 0x80
    ensures m <= |s| && EscapedTail(s) == s[..m] + EscapedTail(s[m..])
  {
    hide EscapedByte;
    if m == 0 {
      assert s[m..] == s;
    } else if s != [] {
      var tail := EscapedTail(s[1..]);
      assert EscapedTail(s)[0] == EscapedByte(s[0])[0];
      assert forall i :: 0 <= i < m - 1 ==> tail[i] == EscapedTail(s)[i + 1];
      HighBytesAreCopied(s[1..], m - 1);
      CopyFirst(s, m);
    }
  }

  lemma {:induction false} CopiedBytes(s: seq<Byte>, m: nat)
    requires m <= |s| && forall i :: 0 <= i < m ==> s[i] >= 0x80
    ensures EscapedTail(s) == s[..m] + EscapedTail(s[m..])
  {
    hide EscapedByte;
    if m > 0 {
      CopiedBytes(s[1..], m - 1);
      CopyFirst(s, m);
    } else {
      assert s[m..] == s;
    }
  }

  lemma CopyFirst(s: seq<Byte>, m: nat)
    requires 0 < m <= |s| && s[0] >= 0x80 && EscapedTail(s[1..]) == s[1..][..m - 1] + EscapedTail(s[1..][m - 1..])
    ensures EscapedTail(s) == s[..m] + EscapedTail(s[m..])
  {
    HighByteFirst(s);
    hide *;
    FirstAndRest(s, m);
    Assoc([s[0]], s[1..][..m - 1], EscapedTail(s[m..]));
  }

  lemma FirstAndRest(s: seq<Byte>, m: nat)
    requires 0 < m <= |s|
    ensures s[1..][m - 1..] == s[m..] && [s[0]] + s[1..][..m - 1] == s[..m]
  {
  }

  lemma HighByteFirst(s: seq<Byte>)
    requires s != [] && s[0] >= 0x80
    ensures EscapedTail(s) == [s[0]] + EscapedTail(s[1..])
  {
  }

  lemma EncodedBytesAreHigh(s: seq<Byte>)
    requires Encoded(s) && s[0] >= 0x80
    ensures forall i :: 0 <= i < |s| ==> s[i] >= 0x80
  {
  }

  /** Escaping neither makes nor breaks an encoding. */
  lemma EncodedLengthKept(s: seq<Byte>)
    requires s != [] && s[0] >= 0x80
    ensures EncodedLength(EscapedTail(s)) == EncodedLength(s)
    ensures var n := EncodedLength(s);
            EscapedTail(s) == s[..n] + EscapedTail(s[n..])
  {
    CopiedBytes(s, 1);
    assert EscapedTail(s)[0] == s[0];
    var n, m := EncodedLength(s), EncodedLength(EscapedTail(s));
    hide Encoded, EscapedTail, EncodedLength;
    if n > 0 {
      HighPrefix(s, n);
      CopiedBytes(s, n);
      assert EscapedTail(s)[..n] == s[..n];
      OneLength(EscapedTail(s), n);
    } else if m > 0 {
      HighPrefix(EscapedTail(s), m);
      HighBytesAreCopied(s, m);
    } else {
      assert s[..0] + EscapedTail(s[0..]) == EscapedTail(s[0..]) && s[0..] == s;
    }
  }

  lemma HighPrefix(s: seq<Byte>, n: nat)
    requires 0 < n <= |s| && Encoded(s[..n]) && s[0] >= 0x80
    ensures forall i :: 0 <= i < n ==> s[i] >= 0x80
  {
    EncodedBytesAreHigh(s[..n]);
    assert forall i :: 0 <= i < n ==> s[i] == s[..n][i];
  }

  lemma OneLength(s: seq<Byte>, n: nat)
    requires 0 < n <= |s| && Encoded(s[..n])
    ensures EncodedLength(s) == n
  {
  }

  /** Reading back what was escaped. */
  lemma {:induction false} EscapedIsReadBack(s: seq<Byte>, text: seq<Byte>)
    ensures var r := ReadText(EscapedTail(s), text);
            if WellFormed(s) then r == Done(text + s, []) else r.Failed? && r.code == InvalidUtf8
    decreases |s|
  {
    hide Encoded, WellFormed, EncodedLength;
    var e := EscapedTail(s);
    if s == [] {
      assert e == [QUOTE] && text + s == text;
      EmptyIsWellFormed();
    } else if s[0] < 0x80 {
      var p := EscapeIsPiece(s[0]);
      var tail := EscapedTail(s[1..]);
      hide *;
      PieceComplete(p, tail, text);
      EscapedIsReadBack(s[1..], text + [s[0]]);
      AsciiStep(s, text);
    } else {
      EncodedLengthKept(s);
      var n := EncodedLength(s);
      assert e != [] && e[0] >= 0x80 by {
        CopiedBytes(s, 1);
      }
      if n == 0 {
        NotWellFormed(s);
      } else {
        EscapedIsReadBack(s[n..], text + s[..n]);
        EncodedStep(s, n, text);
        ReadEncoded(e, text, n, s[..n], EscapedTail(s[n..]));
      }
    }
  }

  lemma ReadEncoded(e: seq<Byte>, text: seq<Byte>, n: nat, piece: seq<Byte>, tail: seq<Byte>)
    requires e != [] && e[0] >= 0x80 && EncodedLength(e) == n > 0 && |piece| == n && e == piece + tail
    ensures ReadText(e, text) == ReadText(tail, text + piece)
  {
    hide EncodedLength;
    assert e[..n] == piece && e[n..] == tail;
  }

  lemma EmptyIsWellFormed()
    ensures WellFormed([])
  {
  }

  lemma NotWellFormed(s: seq<Byte>)
    requires s != [] && EncodedLength(s) == 0
    ensures !WellFormed(s)
  {
  }

  lemma AsciiStep(s: seq<Byte>, text: seq<Byte>)
    requires s != [] && s[0] < 0x80
    ensures WellFormed(s) <==> WellFormed(s[1..])
    ensures text + [s[0]] + s[1..] == text + s
  {
    assert Encoded(s[..1]);
    WellFormedStep(s, 1);
  }

  lemma EncodedStep(s: seq<Byte>, n: nat, text: seq<Byte>)
    requires s != [] && EncodedLength(s) == n > 0
    ensures WellFormed(s) <==> WellFormed(s[n..])
    ensures text + s[..n] + s[n..] == text + s
  {
    WellFormedStep(s, n);
  }

  /** The escaper and the parser undo each other exactly on well-formed strings; any other string is
      refused for its encoding. */
  lemma EscaperRoundTrip(s: seq<Byte>, options: ParseOptions)
    requires |Quoted(s)| <= options.maxInputBytes && options.maxValues >= 1
    ensures WellFormed(s) ==> ReadDocument(Quoted(s), options) == Parsed(Str(s))
    ensures !WellFormed(s) ==>
              var r := ReadDocument(Quoted(s), options);
              r.Rejected? && r.code == InvalidUtf8
  {
    EscapedIsReadBack(s, []);
    ReadQuoted(EscapedTail(s), options.Budget());
    hide ReadText, WellFormed, EscapedTail, ReadValue;
    assert [] + s == s;
  }

  lemma ReadQuoted(e: seq<Byte>, limits: Limits)
    requires limits.values >= 1
    ensures var text := ReadText(e, []);
            ReadValue([QUOTE] + e, limits, 0, Usage(0, 0)) ==
            if text.Failed? then Refused(text.code, text.left) else Read(Str(text.value), text.rest, Usage(1, 0))
  {
    hide ReadText;
    var s := [QUOTE] + e;
    assert s[1..] == e && SkipBlank(s) == s;
  }

  /** Whatever bytes the model produced, what the client was sent can be quoted and read back. */
  lemma RenderedTextRoundTrips(bytes: seq<Byte>, final: bool, options: ParseOptions)
    requires |Quoted(Render(bytes, final).output)| <= options.maxInputBytes && options.maxValues >= 1
    ensures ReadDocument(Quoted(Render(bytes, final).output), options) == Parsed(Str(Render(bytes, final).output))
  {
    hide ReadDocument, Quoted, Render;
    RenderIsWellFormed(bytes, final);
    EscaperRoundTrip(Render(bytes, final).output, options);
  }
}
