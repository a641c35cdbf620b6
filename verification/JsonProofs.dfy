/**
  The reader accepts exactly the JSON texts within its limits, and returns what they denote.
 */
module JsonProofs {
  import opened Common
  import opened Utf8
  import opened JsonSyntax
  import opened JsonReader

  lemma Assoc(a: seq<Byte>, b: seq<Byte>, c: seq<Byte>)
    ensures (a + b) + c == a + (b + c)
  {
  }

  predicate StartsBlank(s: seq<Byte>) {
    s != [] && IsBlank(s[0])
  }

  lemma {:induction false} SkipBlankOver(blank: seq<Byte>, t: seq<Byte>)
    requires Blank(blank) && !StartsBlank(t)
    ensures SkipBlank(blank + t) == t
  {
    if blank == [] {
      assert blank + t == t;
    } else {
      assert (blank + t)[1..] == blank[1..] + t;
      SkipBlankOver(blank[1..], t);
    }
  }

  lemma {:induction false} SkipBlankSplits(s: seq<Byte>) returns (blank: seq<Byte>)
    ensures s == blank + SkipBlank(s) && Blank(blank) && !StartsBlank(SkipBlank(s))
  {
    if StartsBlank(s) {
      blank := SkipBlankSplits(s[1..]);
      blank := [s[0]] + blank;
    } else {
      blank := [];
    }
  }

  lemma {:induction false} SkipDigitsOver(digits: seq<Byte>, t: seq<Byte>)
    requires Digits(digits) && !StartsWithDigit(t)
    ensures SkipDigits(digits + t) == t
  {
    if digits == [] {
      assert digits + t == t;
    } else {
      assert (digits + t)[1..] == digits[1..] + t;
      SkipDigitsOver(digits[1..], t);
    }
  }

  lemma {:induction false} SkipDigitsSplits(s: seq<Byte>) returns (digits: seq<Byte>)
    ensures s == digits + SkipDigits(s) && Digits(digits) && !StartsWithDigit(SkipDigits(s))
    ensures StartsWithDigit(s) ==> digits != [] && digits[0] == s[0]
  {
    if StartsWithDigit(s) {
      digits := SkipDigitsSplits(s[1..]);
      digits := [s[0]] + digits;
    } else {
      digits := [];
    }
  }

  /** Nothing in `rest` could continue a number. */
  predicate EndsNumber(rest: seq<Byte>) {
    rest == [] || (!IsDigit(rest[0]) && rest[0] != POINT && rest[0] != 0x65 && rest[0] != 0x45)
  }

  lemma ExponentComplete(mark: Byte, sign: seq<Byte>, digits: seq<Byte>, rest: seq<Byte>)
    requires ValidExponent(mark, sign, digits) && EndsNumber(rest)
    ensures var t := ExponentText(mark, sign, digits) + rest;
            ReadExponent(t) == Done((), rest) && (t != [] ==> t[0] != POINT && !IsDigit(t[0]))
  {
    hide SkipDigits;
    var t := ExponentText(mark, sign, digits) + rest;
    if digits == [] {
      assert t == rest;
    } else {
      var u, w := sign + (digits + rest), digits + rest;
      Assoc([mark], sign + digits, rest);
      Assoc(sign, digits, rest);
      SkipDigitsOver(digits, rest);
      SignComplete(sign, w);
      hide ReadExponent, ExponentText;
      ExponentStep(mark, u, w);
    }
  }

  lemma ExponentStep(mark: Byte, u: seq<Byte>, w: seq<Byte>)
    requires (mark == 0x65 || mark == 0x45) && StartsWithDigit(w)
    requires u != [] && w == if u[0] == 0x2B || u[0] == MINUS then u[1..] else u
    ensures ReadExponent([mark] + u) == Done((), SkipDigits(w))
  {
    assert ([mark] + u)[1..] == u;
  }

  lemma SignComplete(sign: seq<Byte>, w: seq<Byte>)
    requires (sign == [] || sign == [0x2B] || sign == [MINUS]) && StartsWithDigit(w)
    ensures var u := sign + w;
            u != [] && w == if u[0] == 0x2B || u[0] == MINUS then u[1..] else u
  {
  }

  lemma FractionComplete(digits: seq<Byte>, tail: seq<Byte>)
    requires Digits(digits) && (tail != [] ==> tail[0] != POINT && !IsDigit(tail[0]))
    ensures ReadFraction(FractionText(digits) + tail) == ReadExponent(tail)
    ensures !StartsWithDigit(FractionText(digits) + tail)
  {
    hide SkipDigits, ReadExponent;
    if digits == [] {
      assert FractionText(digits) + tail == tail;
    } else {
      assert (FractionText(digits) + tail)[1..] == digits + tail;
      SkipDigitsOver(digits, tail);
    }
  }

  lemma WholeComplete(whole: seq<Byte>, tail: seq<Byte>)
    requires Digits(whole) && whole != [] && (whole[0] == ZERO ==> |whole| == 1) && !StartsWithDigit(tail)
    ensures ReadNumber(whole + tail) == ReadFraction(tail) == ReadNumber([MINUS] + (whole + tail))
  {
    hide SkipDigits, ReadFraction;
    assert ([MINUS] + (whole + tail))[1..] == whole + tail;
    if whole[0] == ZERO {
      assert (whole + tail)[1..] == tail;
    } else {
      SkipDigitsOver(whole, tail);
    }
  }

  lemma NumberComplete(n: Numeral, rest: seq<Byte>)
    requires n.Valid() && EndsNumber(rest)
    ensures n.Text() != [] && (n.Text()[0] == MINUS || IsDigit(n.Text()[0]))
    ensures ReadNumber(n.Text() + rest) == Done((), rest)
  {
    hide ReadNumber, ReadFraction, ReadExponent, FractionText, ExponentText;
    var tail := ExponentText(n.mark, n.sign, n.exponent) + rest;
    ExponentComplete(n.mark, n.sign, n.exponent, rest);
    FractionComplete(n.fraction, tail);
    WholeComplete(n.whole, FractionText(n.fraction) + tail);
    assert n.Text() + rest == (if n.negative then [MINUS] else []) + (n.whole + (FractionText(n.fraction) + tail));
    assert [] + (n.whole + (FractionText(n.fraction) + tail)) == n.whole + (FractionText(n.fraction) + tail);
  }

  lemma ExponentSound(t: seq<Byte>) returns (mark: Byte, sign: seq<Byte>, digits: seq<Byte>)
    requires ReadExponent(t).Done?
    ensures ValidExponent(mark, sign, digits) && t == ExponentText(mark, sign, digits) + ReadExponent(t).rest
  {
    hide SkipDigits;
    mark, sign, digits := 0x65, [], [];
    if t != [] && (t[0] == 0x65 || t[0] == 0x45) {
      mark := t[0];
      var u := t[1..];
      sign := if u != [] && (u[0] == 0x2B || u[0] == MINUS) then [u[0]] else [];
      var w := u[|sign|..];
      digits := SkipDigitsSplits(w);
      assert u == sign + w && t == [mark] + u;
      ExponentSplits(mark, sign, digits, SkipDigits(w));
    } else {
      assert t == [] + t;
    }
  }

  lemma ExponentSplits(mark: Byte, sign: seq<Byte>, digits: seq<Byte>, rest: seq<Byte>)
    ensures [mark] + (sign + (digits + rest)) == [mark] + (sign + digits) + rest
  {
    Assoc(sign, digits, rest);
    Assoc([mark], sign + digits, rest);
  }

  lemma FractionSound(t: seq<Byte>) returns (digits: seq<Byte>, tail: seq<Byte>)
    requires ReadFraction(t).Done?
    ensures Digits(digits) && t == FractionText(digits) + tail && ReadExponent(tail) == ReadFraction(t)
  {
    hide SkipDigits, ReadExponent;
    if t == [] || t[0] != POINT {
      digits, tail := [], t;
    } else {
      digits := SkipDigitsSplits(t[1..]);
      tail := SkipDigits(t[1..]);
      assert t == [POINT] + t[1..];
    }
  }

  lemma WholeSound(s: seq<Byte>) returns (negative: bool, whole: seq<Byte>, tail: seq<Byte>)
    requires s != [] && ReadNumber(s).Done?
    ensures Digits(whole) && whole != [] && (whole[0] == ZERO ==> |whole| == 1)
    ensures s == (if negative then [MINUS] else []) + (whole + tail) && ReadNumber(s) == ReadFraction(tail)
  {
    hide SkipDigits, ReadFraction;
    negative := s[0] == MINUS;
    var t := if negative then s[1..] else s;
    if t[0] == ZERO {
      whole, tail := [t[0]], t[1..];
    } else {
      whole := SkipDigitsSplits(t);
      tail := SkipDigits(t);
    }
    assert t == whole + tail && s == (if negative then [MINUS] else []) + t;
  }

  lemma NumberSound(s: seq<Byte>) returns (n: Numeral)
    requires s != [] && ReadNumber(s).Done?
    ensures n.Valid() && s == n.Text() + ReadNumber(s).rest
  {
    hide ReadNumber, ReadFraction, ReadExponent, FractionText, ExponentText;
    var negative, whole, tail := WholeSound(s);
    var fraction, last := FractionSound(tail);
    var mark, sign, exponent := ExponentSound(last);
    n := Numeral(negative, whole, fraction, mark, sign, exponent);
    assert s == n.Text() + ReadExponent(last).rest;
  }

  lemma HexComplete(digits: seq<Byte>, rest: seq<Byte>)
    requires Hex(digits)
    ensures ReadHex(digits + rest) == Done(HexValue(digits), rest)
  {
    hide HexDigit, HexValue;
    var s := digits + rest;
    assert forall i :: 0 <= i < 4 ==> s[i] == digits[i];
    var n := HexRun(s, 0);
    assert n == 4;
    assert s[..4] == digits && s[4..] == rest;
  }

  lemma HexSound(s: seq<Byte>)
    requires ReadHex(s).Done?
    ensures |s| >= 4 && Hex(s[..4]) && ReadHex(s) == Done(HexValue(s[..4]), s[4..])
  {
  }

  /** One escape, read back. */
  lemma EscapeComplete(p: Piece, tail: seq<Byte>)
    requires p.Valid() && !p.Plain?
    ensures p.Text() != [] && p.Text()[0] == BACKSLASH
    ensures ReadEscape(p.Text() + tail) == Done(p.Denote(), tail)
  {
    hide HexValue, HexDigit, Encode, Encoded, Hex, ReadHex;
    var s := p.Text() + tail;
    assert s[0] == BACKSLASH;
    match p
    case Escaped(letter) =>
      assert s[1] == letter && s[2..] == tail;
    case Unit(unit) =>
      assert s[1] == LOWER_U && s[2..] == unit + tail;
      HexComplete(unit, tail);
    case Pair(high, low) =>
      PairComplete(high, low, tail);
  }

  lemma PairComplete(high: seq<Byte>, low: seq<Byte>, tail: seq<Byte>)
    requires Pair(high, low).Valid()
    ensures ReadEscape(Pair(high, low).Text() + tail) == Done(Pair(high, low).Denote(), tail)
  {
    hide HexValue, HexDigit, Encode, Encoded, Hex, ReadHex;
    var s := Pair(high, low).Text() + tail;
    var rest := [BACKSLASH, LOWER_U] + (low + tail);
    Assoc([BACKSLASH, LOWER_U] + high, [BACKSLASH, LOWER_U] + low, tail);
    Assoc([BACKSLASH, LOWER_U], low, tail);
    Assoc([BACKSLASH, LOWER_U], high, rest);
    assert s == [BACKSLASH, LOWER_U] + (high + rest);
    assert s[1] == LOWER_U && s[2..] == high + rest && rest[2..] == low + tail;
    assert rest[0] == BACKSLASH && rest[1] == LOWER_U;
    HexComplete(high, rest);
    HexComplete(low, tail);
  }

  /** One piece of a string: reading goes on after it, with what it denotes. */
  lemma PieceComplete(p: Piece, tail: seq<Byte>, text: seq<Byte>)
    requires p.Valid()
    ensures ReadText(p.Text() + tail, text) == ReadText(tail, text + p.Denote())
  {
    var s := p.Text() + tail;
    if p.Plain? {
      assert s[..|p.bytes|] == p.bytes && s[|p.bytes|..] == tail && EncodedLength(s) == |p.bytes|;
      assert s[0] == p.bytes[0];
      hide Encoded;
    } else {
      EscapeComplete(p, tail);
      hide *;
      assert s != [] && s[0] == BACKSLASH;
      ReadEscapedText(s, text);
    }
  }

  lemma ReadEscapedText(s: seq<Byte>, text: seq<Byte>)
    requires s != [] && s[0] == BACKSLASH && ReadEscape(s).Done?
    ensures ReadText(s, text) == ReadText(ReadEscape(s).rest, text + ReadEscape(s).value)
  {
    hide ReadEscape;
  }

  lemma {:induction false} TextComplete(p: seq<Piece>, rest: seq<Byte>, text: seq<Byte>)
    requires ValidPieces(p)
    ensures ReadText(QuotedTail(p) + rest, text) == Done(text + DenotePieces(p), rest)
  {
    if p == [] {
      assert QuotedTail(p) + rest == [QUOTE] + rest;
      assert text + DenotePieces(p) == text;
    } else {
      hide ReadText;
      assert QuotedTail(p) + rest == p[0].Text() + (QuotedTail(p[1..]) + rest);
      PieceComplete(p[0], QuotedTail(p[1..]) + rest, text);
      TextComplete(p[1..], rest, text + p[0].Denote());
      assert text + p[0].Denote() + DenotePieces(p[1..]) == text + DenotePieces(p);
    }
  }

  lemma EscapeSound(s: seq<Byte>) returns (p: Piece)
    requires s != [] && s[0] == BACKSLASH && ReadEscape(s).Done?
    ensures p.Valid() && s == p.Text() + ReadEscape(s).rest && p.Denote() == ReadEscape(s).value
  {
    hide HexValue, HexDigit, Encode, Encoded, Hex, ReadUnit;
    if Short(s[1]) >= 0 {
      p := Escaped(s[1]);
      assert s == [s[0], s[1]] + s[2..];
    } else {
      p := UnitSound(s);
    }
  }

  lemma UnitSound(s: seq<Byte>) returns (p: Piece)
    requires |s| >= 2 && s[0] == BACKSLASH && s[1] == LOWER_U && ReadUnit(s).Done?
    ensures p.Valid() && s == p.Text() + ReadUnit(s).rest && p.Denote() == ReadUnit(s).value
  {
    hide HexValue, HexDigit, Encode, Encoded, Hex, ReadHex;
    var t := s[2..];
    HexSound(t);
    var first, rest := t[..4], t[4..];
    assert s == [BACKSLASH, LOWER_U] + first + rest;
    if High(HexValue(first)) {
      var u := rest[2..];
      HexSound(u);
      var second := u[..4];
      assert rest == [BACKSLASH, LOWER_U] + second + u[4..];
      p := Pair(first, second);
      assert s == p.Text() + u[4..];
    } else {
      p := Unit(first);
    }
  }

  lemma FirstPiece(s: seq<Byte>, text: seq<Byte>) returns (p: Piece, rest: seq<Byte>)
    requires ReadText(s, text).Done? && s[0] != QUOTE
    ensures p.Valid() && s == p.Text() + rest && |rest| < |s|
    ensures ReadText(s, text) == ReadText(rest, text + p.Denote())
  {
    if s[0] == BACKSLASH {
      hide *;
      p, rest := FirstEscape(s, text);
    } else {
      var n := EncodedLength(s);
      p, rest := Plain(s[..n]), s[n..];
      hide Encoded;
    }
  }

  lemma FirstEscape(s: seq<Byte>, text: seq<Byte>) returns (p: Piece, rest: seq<Byte>)
    requires ReadText(s, text).Done? && s[0] == BACKSLASH
    ensures p.Valid() && s == p.Text() + rest && |rest| < |s|
    ensures ReadText(s, text) == ReadText(rest, text + p.Denote())
  {
    hide ReadEscape;
    p := EscapeSound(s);
    rest := ReadEscape(s).rest;
  }

  lemma {:induction false} TextSound(s: seq<Byte>, text: seq<Byte>) returns (p: seq<Piece>)
    requires ReadText(s, text).Done?
    ensures ValidPieces(p) && s == QuotedTail(p) + ReadText(s, text).rest
    ensures ReadText(s, text).value == text + DenotePieces(p)
    decreases |s|
  {
    if s[0] == QUOTE {
      p := [];
      assert s == [QUOTE] + s[1..];
    } else {
      var first, rest := FirstPiece(s, text);
      hide *;
      var more := TextSound(rest, text + first.Denote());
      p := Prepend(first, more, s, text, ReadText(s, text));
    }
  }

  lemma Prepend(first: Piece, more: seq<Piece>, s: seq<Byte>, text: seq<Byte>, r: Outcome<seq<Byte>>)
    returns (p: seq<Piece>)
    requires first.Valid() && ValidPieces(more) && r.Done?
    requires s == first.Text() + (QuotedTail(more) + r.rest) && r.value == text + first.Denote() + DenotePieces(more)
    ensures ValidPieces(p) && s == QuotedTail(p) + r.rest && r.value == text + DenotePieces(p)
  {
    PiecesGrow(first, more);
    p := [first] + more;
    hide PiecesText, DenotePieces, Piece.Text, Piece.Denote;
    Assoc(first.Text(), PiecesText(more), [QUOTE]);
    Assoc(first.Text(), QuotedTail(more), r.rest);
    Assoc(text, first.Denote(), DenotePieces(more));
  }

  lemma PiecesGrow(first: Piece, p: seq<Piece>)
    requires first.Valid() && ValidPieces(p)
    ensures ValidPieces([first] + p) && PiecesText([first] + p) == first.Text() + PiecesText(p)
    ensures DenotePieces([first] + p) == first.Denote() + DenotePieces(p)
  {
    assert ([first] + p)[1..] == p;
  }

  /** What remains of the budgets is enough for a part of this size and depth. */
  predicate Fits(size: Usage, deep: nat, limits: Limits, depth: nat, used: Usage) {
    && used.values + size.values <= limits.values && used.items + size.items <= limits.items
    && (deep > 0 ==> depth + deep <= limits.depth)
  }

  /** A byte that can follow a value, or the end of the text. */
  predicate Separated(rest: seq<Byte>) {
    rest == [] || IsBlank(rest[0]) || rest[0] == COMMA || rest[0] == CLOSE_BRACKET || rest[0] == CLOSE_BRACE
  }

  /** The first byte of a value tells its kind. */
  lemma TextStarts(tree: Tree)
    requires tree.Valid()
    ensures tree.Text() != []
    ensures var b := tree.Text()[0];
            && !IsBlank(b) && b != CLOSE_BRACKET && b != CLOSE_BRACE
            && (tree.NumberTree? <==> b == MINUS || IsDigit(b))
  {
    if tree.NumberTree? {
      NumberComplete(tree.numeral, []);
    }
  }

  lemma ScalarComplete(tree: Tree, rest: seq<Byte>, limits: Limits, depth: nat, used: Usage)
    requires tree.Valid() && Separated(rest) && (tree.NullTree? || tree.BoolTree? || tree.NumberTree? || tree.TextTree?)
    ensures tree.Text() != [] && ReadToken(tree.Text() + rest, limits, depth, used) == Read(tree.Denote(), rest, used)
  {
    hide ReadNumber, ReadText, ReadArray, ReadObject, QuotedTail, DenotePieces, Numeral.Text;
    TextStarts(tree);
    var t := tree.Text() + rest;
    match tree
    case NumberTree(numeral) =>
      NumberComplete(numeral, rest);
      assert t[..|t| - |rest|] == numeral.Text();
    case TextTree(pieces) =>
      TextComplete(pieces, rest, []);
      assert t[1..] == QuotedTail(pieces) + rest;
      assert [] + DenotePieces(pieces) == DenotePieces(pieces);
    case NullTree => assert NULL_WORD <= t && t[|NULL_WORD|..] == rest;
    case BoolTree(flag) =>
      assert tree.Text() <= t && t[|tree.Text()|..] == rest;
  }

  /** Every valid tree within the limits is read back, whatever blanks precede it. */
  lemma {:induction false} ValueComplete(tree: Tree, before: seq<Byte>, rest: seq<Byte>, limits: Limits, depth: nat, used: Usage)
    requires tree.Valid() && Blank(before) && Separated(rest) && Fits(tree.Size(), tree.Depth(), limits, depth, used)
    ensures ReadValue(before + (tree.Text() + rest), limits, depth, used) == Read(tree.Denote(), rest, used.Add(tree.Size()))
    decreases tree, 1
  {
    hide ReadToken, Tree.Text, Tree.Denote, Tree.Valid, SkipBlank, Tree.Inner, Tree.Depth;
    TextStarts(tree);
    SkipBlankOver(before, tree.Text() + rest);
    TokenComplete(tree, rest, limits, depth, used.Add(Usage(1, 0)));
  }

  lemma {:induction false} TokenComplete(tree: Tree, rest: seq<Byte>, limits: Limits, depth: nat, used: Usage)
    requires tree.Valid() && Separated(rest) && Fits(tree.Inner(), tree.Depth(), limits, depth, used)
    ensures tree.Text() != []
    ensures ReadToken(tree.Text() + rest, limits, depth, used) == Read(tree.Denote(), rest, used.Add(tree.Inner()))
    decreases tree, 0
  {
    hide SkipBlank, ReadElements, ReadFields, ReadText, ReadNumber, ReadLiteral, Elements.Text, Fields.Text,
         Elements.Denote, Fields.Denote, Elements.Size, Fields.Size, Elements.Depth, Fields.Depth, Elements.Valid,
         Fields.Valid, Numeral.Text, Numeral.Valid, QuotedTail, DenotePieces, ValidPieces;
    TextStarts(tree);
    var t := tree.Text() + rest;
    match tree
    case EmptyArray(blank) =>
      assert t[1..] == blank + ([CLOSE_BRACKET] + rest);
      SkipBlankOver(blank, [CLOSE_BRACKET] + rest);
    case EmptyObject(blank) =>
      assert t[1..] == blank + ([CLOSE_BRACE] + rest);
      SkipBlankOver(blank, [CLOSE_BRACE] + rest);
    case FullArray(elements) =>
      assert t[1..] == elements.Text() + rest;
      SizeOfElements(elements);
      ElementsComplete(elements, rest, limits, depth, used, []);
      ElementsOpen(elements, rest, limits, depth, used);
      assert [] + elements.Denote() == elements.Denote();
    case FullObject(fields) =>
      assert t[1..] == fields.Text() + rest;
      SizeOfFields(fields);
      FieldsComplete(fields, rest, limits, depth, used, map[]);
      FieldsOpen(fields, rest, limits, depth, used);
      assert map[] + fields.Denote() == fields.Denote();
    case _ => ScalarComplete(tree, rest, limits, depth, used);
  }

  lemma SizeOfElements(e: Elements)
    ensures e.Size().items > 0
  {
  }

  lemma SizeOfFields(f: Fields)
    ensures f.Size().items > 0
  {
  }

  /** The text of a list of elements, taken apart at its first. */
  lemma ElementsText(e: Elements, rest: seq<Byte>) returns (tail: seq<Byte>)
    ensures e.Text() + rest == e.before + (e.tree.Text() + (e.after + tail))
    ensures tail == if e.Last? then [CLOSE_BRACKET] + rest else [COMMA] + (e.more.Text() + rest)
  {
    var end := if e.Last? then [CLOSE_BRACKET] else [COMMA] + e.more.Text();
    tail := end + rest;
    Regroup(e.before, e.tree.Text(), e.after, end, rest);
    if e.More? {
      Assoc([COMMA], e.more.Text(), rest);
    }
  }

  lemma Regroup(a: seq<Byte>, b: seq<Byte>, c: seq<Byte>, d: seq<Byte>, e: seq<Byte>)
    ensures (a + (b + (c + d))) + e == a + (b + (c + (d + e)))
  {
    Assoc(a, b + (c + d), e);
    Assoc(b, c + d, e);
    Assoc(c, d, e);
  }

  /** Blanks before the first element make no difference. */
  lemma ElementsOpen(e: Elements, rest: seq<Byte>, limits: Limits, depth: nat, used: Usage)
    requires e.Valid() && used.items < limits.items
    ensures var u := SkipBlank(e.Text() + rest);
            && u != [] && u[0] != CLOSE_BRACKET
            && ReadElements(u, limits, depth, used, []) == ReadElements(e.Text() + rest, limits, depth, used, [])
  {
    hide Tree.Text, Tree.Valid, Elements.Text;
    var tail := ElementsText(e, rest);
    TextStarts(e.tree);
    var u := e.tree.Text() + (e.after + tail);
    SkipBlankOver(e.before, u);
    assert SkipBlank(u) == u;
  }

  lemma {:induction false} ElementsComplete(e: Elements, rest: seq<Byte>, limits: Limits, depth: nat, used: Usage, values: seq<Value>)
    requires e.Valid() && Fits(e.Size(), 1 + e.Depth(), limits, depth, used)
    ensures ReadElements(e.Text() + rest, limits, depth, used, values)
         == Read(Array(values + e.Denote()), rest, used.Add(e.Size()))
    decreases e
  {
    hide Tree.Text, Tree.Valid, Tree.Denote, Tree.Size, Tree.Depth, Elements.Text, SkipBlank, ReadValue;
    var tail := ElementsText(e, rest);
    ValueComplete(e.tree, e.before, e.after + tail, limits, depth + 1, used.Add(Usage(0, 1)));
    SkipBlankOver(e.after, tail);
    if e.More? {
      ElementsComplete(e.more, rest, limits, depth, used.Add(Usage(0, 1)).Add(e.tree.Size()), values + [e.tree.Denote()]);
      assert tail[1..] == e.more.Text() + rest;
      assert values + [e.tree.Denote()] + e.more.Denote() == values + e.Denote();
    } else {
      assert e.Denote() == [e.tree.Denote()];
    }
  }

  lemma FieldsText(f: Fields, rest: seq<Byte>) returns (value: seq<Byte>, tail: seq<Byte>)
    ensures f.Text() + rest == f.before + ([QUOTE] + (QuotedTail(f.name) + (f.colon + ([COLON] + value))))
    ensures value == f.gap + (f.tree.Text() + (f.after + tail))
    ensures tail == if f.LastField? then [CLOSE_BRACE] + rest else [COMMA] + (f.more.Text() + rest)
  {
    var end := if f.LastField? then [CLOSE_BRACE] else [COMMA] + f.more.Text();
    tail := end + rest;
    var inner := f.gap + (f.tree.Text() + (f.after + end));
    value := f.gap + (f.tree.Text() + (f.after + tail));
    Regroup(f.gap, f.tree.Text(), f.after, end, rest);
    if f.MoreFields? {
      Assoc([COMMA], f.more.Text(), rest);
    }
    Assoc(f.before, [QUOTE] + (QuotedTail(f.name) + (f.colon + ([COLON] + inner))), rest);
    Regroup([QUOTE], QuotedTail(f.name), f.colon, [COLON] + inner, rest);
    Assoc([COLON], inner, rest);
  }

  lemma FieldsOpen(f: Fields, rest: seq<Byte>, limits: Limits, depth: nat, used: Usage)
    requires f.Valid()
    ensures var u := SkipBlank(f.Text() + rest);
            && u != [] && u[0] != CLOSE_BRACE
            && ReadFields(u, limits, depth, used, map[]) == ReadFields(f.Text() + rest, limits, depth, used, map[])
  {
    hide Tree.Text, Tree.Valid, Fields.Text, QuotedTail, ReadName, ReadValue;
    var value, tail := FieldsText(f, rest);
    var u := [QUOTE] + (QuotedTail(f.name) + (f.colon + ([COLON] + value)));
    SkipBlankOver(f.before, u);
    assert SkipBlank(u) == u;
  }

  lemma NameComplete(name: seq<Piece>, colon: seq<Byte>, value: seq<Byte>, members: map<seq<Byte>, Value>)
    requires ValidPieces(name) && Blank(colon) && DenotePieces(name) !in members
    ensures ReadName([QUOTE] + (QuotedTail(name) + (colon + ([COLON] + value))), members) == Done(DenotePieces(name), value)
  {
    hide QuotedTail, DenotePieces, ReadText, SkipBlank, ValidPieces;
    var s := colon + ([COLON] + value);
    assert ([QUOTE] + (QuotedTail(name) + s))[1..] == QuotedTail(name) + s;
    TextComplete(name, s, []);
    assert [] + DenotePieces(name) == DenotePieces(name);
    SkipBlankOver(colon, [COLON] + value);
  }

  lemma {:induction false} FieldsComplete(f: Fields, rest: seq<Byte>, limits: Limits, depth: nat, used: Usage,
                                          members: map<seq<Byte>, Value>)
    requires f.Valid() && Fits(f.Size(), 1 + f.Depth(), limits, depth, used) && f.Denote().Keys !! members.Keys
    ensures ReadFields(f.Text() + rest, limits, depth, used, members)
         == Read(Object(members + f.Denote()), rest, used.Add(f.Size()))
    decreases f
  {
    hide Tree.Text, Tree.Valid, Tree.Denote, Tree.Size, Tree.Depth, Fields.Text, SkipBlank, ReadValue, ReadName,
         QuotedTail, DenotePieces, ValidPieces;
    var value, tail := FieldsText(f, rest);
    var name := DenotePieces(f.name);
    SkipBlankOver(f.before, [QUOTE] + (QuotedTail(f.name) + (f.colon + ([COLON] + value))));
    assert name in f.Denote();
    NameComplete(f.name, f.colon, value, members);
    ValueComplete(f.tree, f.gap, f.after + tail, limits, depth + 1, used.Add(Usage(0, 1)));
    SkipBlankOver(f.after, tail);
    if f.MoreFields? {
      var all := members[name := f.tree.Denote()];
      FieldsComplete(f.more, rest, limits, depth, used.Add(Usage(0, 1)).Add(f.tree.Size()), all);
      assert tail[1..] == f.more.Text() + rest;
      assert all + f.more.Denote() == members + f.Denote();
    } else {
      assert members[name := f.tree.Denote()] == members + f.Denote();
    }
  }

  /** What was read is the text of a valid tree, within the limits, and the value it denotes. */
  ghost predicate Reads(tree: Tree, t: seq<Byte>, r: Reading, limits: Limits, depth: nat) {
    && r.Read? && tree.Valid() && t == tree.Text() + r.rest && r.value == tree.Denote()
    && (tree.Depth() > 0 ==> depth + tree.Depth() <= limits.depth)
  }

  lemma {:induction false} ValueSound(s: seq<Byte>, limits: Limits, depth: nat, used: Usage)
    returns (before: seq<Byte>, tree: Tree)
    requires ReadValue(s, limits, depth, used).Read?
    ensures Blank(before) && |before| <= |s| && s == before + s[|before|..]
    ensures Reads(tree, s[|before|..], ReadValue(s, limits, depth, used), limits, depth)
    ensures ReadValue(s, limits, depth, used).used == used.Add(tree.Size())
    ensures ReadValue(s, limits, depth, used).used.values <= limits.values
    ensures used.items <= limits.items ==> ReadValue(s, limits, depth, used).used.items <= limits.items
    decreases |s|, 2
  {
    hide ReadToken, SkipBlank, Reads, Tree.Inner, Tree.Text, Tree.Valid, Tree.Denote, Tree.Depth;
    before := SkipBlankSplits(s);
    assert s[|before|..] == SkipBlank(s);
    tree := TokenSound(SkipBlank(s), limits, depth, used.Add(Usage(1, 0)));
  }

  lemma {:induction false} TokenSound(t: seq<Byte>, limits: Limits, depth: nat, used: Usage) returns (tree: Tree)
    requires t != [] && ReadToken(t, limits, depth, used).Read? && used.values <= limits.values
    ensures Reads(tree, t, ReadToken(t, limits, depth, used), limits, depth)
    ensures ReadToken(t, limits, depth, used).used == used.Add(tree.Inner())
    ensures ReadToken(t, limits, depth, used).used.values <= limits.values
    ensures used.items <= limits.items ==> ReadToken(t, limits, depth, used).used.items <= limits.items
    decreases |t|, 1
  {
    if t[0] == OPEN_BRACKET {
      assert ReadToken(t, limits, depth, used) == ReadArray(t, limits, depth, used);
      hide *;
      tree := ArraySound(t, limits, depth, used);
    } else if t[0] == OPEN_BRACE {
      assert ReadToken(t, limits, depth, used) == ReadObject(t, limits, depth, used);
      hide *;
      tree := ObjectSound(t, limits, depth, used);
    } else {
      hide *;
      tree := ScalarSound(t, limits, depth, used);
    }
  }

  lemma ScalarSound(t: seq<Byte>, limits: Limits, depth: nat, used: Usage) returns (tree: Tree)
    requires t != [] && ReadToken(t, limits, depth, used).Read? && t[0] != OPEN_BRACKET && t[0] != OPEN_BRACE
    ensures Reads(tree, t, ReadToken(t, limits, depth, used), limits, depth) && tree.Inner() == Usage(0, 0)
    ensures ReadToken(t, limits, depth, used).used == used
  {
    hide ReadText, ReadNumber, QuotedTail, DenotePieces, Numeral.Text, Numeral.Valid, ValidPieces;
    if t[0] == NULL_WORD[0] {
      tree := NullTree;
    } else if t[0] == TRUE_WORD[0] {
      tree := BoolTree(true);
    } else if t[0] == FALSE_WORD[0] {
      tree := BoolTree(false);
    } else if t[0] == QUOTE {
      var pieces := TextSound(t[1..], []);
      assert t == [QUOTE] + t[1..];
      assert [] + DenotePieces(pieces) == DenotePieces(pieces);
      tree := TextTree(pieces);
      Assoc([QUOTE], QuotedTail(pieces), ReadText(t[1..], []).rest);
    } else {
      var numeral := NumberSound(t);
      assert t[..|t| - |ReadNumber(t).rest|] == numeral.Text();
      tree := NumberTree(numeral);
    }
  }

  /** The same for a list of elements, collected after `values`. */
  ghost predicate ReadsElements(e: Elements, s: seq<Byte>, r: Reading, values: seq<Value>, limits: Limits, depth: nat, used: Usage) {
    && r.Read? && e.Valid() && s == e.Text() + r.rest && r.value == Array(values + e.Denote())
    && depth + 1 + e.Depth() <= limits.depth && r.used == used.Add(e.Size())
    && r.used.values <= limits.values && r.used.items <= limits.items
  }

  lemma ArraySound(t: seq<Byte>, limits: Limits, depth: nat, used: Usage) returns (tree: Tree)
    requires t != [] && t[0] == OPEN_BRACKET && ReadArray(t, limits, depth, used).Read? && used.values <= limits.values
    ensures Reads(tree, t, ReadArray(t, limits, depth, used), limits, depth)
    ensures ReadArray(t, limits, depth, used).used == used.Add(tree.Inner())
    ensures ReadArray(t, limits, depth, used).used.values <= limits.values
    ensures used.items <= limits.items ==> ReadArray(t, limits, depth, used).used.items <= limits.items
    decreases |t|, 0
  {
    hide SkipBlank, ReadElements, Elements.Text, Elements.Denote, Elements.Valid, Elements.Size, Elements.Depth;
    var blank := SkipBlankSplits(t[1..]);
    var u := SkipBlank(t[1..]);
    assert t == [OPEN_BRACKET] + (blank + u);
    if u != [] && u[0] == CLOSE_BRACKET {
      tree := EmptyArray(blank);
      assert u == [CLOSE_BRACKET] + u[1..];
    } else {
      var e := ElementsSound(u, limits, depth, used, []);
      BlankElements(e, blank);
      e := e.(before := blank + e.before);
      assert [] + e.Denote() == e.Denote();
      tree := FullArray(e);
    }
  }

  lemma BlankElements(e: Elements, blank: seq<Byte>)
    requires e.Valid() && Blank(blank)
    ensures var f := e.(before := blank + e.before);
            && f.Valid() && f.Text() == blank + e.Text() && f.Denote() == e.Denote()
            && f.Size() == e.Size() && f.Depth() == e.Depth()
  {
    hide Tree.Text, Tree.Denote, Tree.Valid, Tree.Size, Tree.Depth;
    var end := if e.Last? then [CLOSE_BRACKET] else [COMMA] + e.more.Text();
    Assoc(blank, e.before, e.tree.Text() + (e.after + end));
  }

  lemma {:induction false} ElementsSound(s: seq<Byte>, limits: Limits, depth: nat, used: Usage, values: seq<Value>) returns (e: Elements)
    requires ReadElements(s, limits, depth, used, values).Read? && depth < limits.depth
    ensures ReadsElements(e, s, ReadElements(s, limits, depth, used, values), values, limits, depth, used)
    decreases |s|, 3
  {
    hide ReadValue, SkipBlank, Tree.Text, Tree.Denote, Tree.Valid, Tree.Size, Tree.Depth, Elements.Text;
    var item := ReadValue(s, limits, depth + 1, used.Add(Usage(0, 1)));
    var before, tree := ValueSound(s, limits, depth + 1, used.Add(Usage(0, 1)));
    var after := SkipBlankSplits(item.rest);
    var t := SkipBlank(item.rest);
    assert s == before + (tree.Text() + (after + t)) && t == [t[0]] + t[1..];
    if t[0] == CLOSE_BRACKET {
      e := Last(before, tree, after);
      var tail := ElementsText(e, t[1..]);
    } else {
      var more := ElementsSound(t[1..], limits, depth, item.used, values + [item.value]);
      e := More(before, tree, after, more);
      var tail := ElementsText(e, ReadElements(s, limits, depth, used, values).rest);
      assert values + [item.value] + more.Denote() == values + ([item.value] + more.Denote());
    }
  }

  /** The same for a list of members, added to `members`. */
  ghost predicate ReadsFields(f: Fields, s: seq<Byte>, r: Reading, members: map<seq<Byte>, Value>, limits: Limits, depth: nat,
                              used: Usage)
  {
    && r.Read? && f.Valid() && s == f.Text() + r.rest
    && f.Denote().Keys !! members.Keys && r.value == Object(members + f.Denote())
    && depth + 1 + f.Depth() <= limits.depth && r.used == used.Add(f.Size())
    && r.used.values <= limits.values && r.used.items <= limits.items
  }

  lemma ObjectSound(t: seq<Byte>, limits: Limits, depth: nat, used: Usage) returns (tree: Tree)
    requires t != [] && t[0] == OPEN_BRACE && ReadObject(t, limits, depth, used).Read? && used.values <= limits.values
    ensures Reads(tree, t, ReadObject(t, limits, depth, used), limits, depth)
    ensures ReadObject(t, limits, depth, used).used == used.Add(tree.Inner())
    ensures ReadObject(t, limits, depth, used).used.values <= limits.values
    ensures used.items <= limits.items ==> ReadObject(t, limits, depth, used).used.items <= limits.items
    decreases |t|, 0
  {
    hide SkipBlank, ReadFields, Fields.Text, Fields.Denote, Fields.Valid, Fields.Size, Fields.Depth;
    var blank := SkipBlankSplits(t[1..]);
    var u := SkipBlank(t[1..]);
    assert t == [OPEN_BRACE] + (blank + u);
    if u != [] && u[0] == CLOSE_BRACE {
      tree := EmptyObject(blank);
      assert u == [CLOSE_BRACE] + u[1..];
    } else {
      var f := FieldsSound(u, limits, depth, used, map[]);
      BlankFields(f, blank);
      f := f.(before := blank + f.before);
      assert map[] + f.Denote() == f.Denote();
      tree := FullObject(f);
    }
  }

  lemma BlankFields(f: Fields, blank: seq<Byte>)
    requires f.Valid() && Blank(blank)
    ensures var g := f.(before := blank + f.before);
            && g.Valid() && g.Text() == blank + f.Text() && g.Denote() == f.Denote()
            && g.Size() == f.Size() && g.Depth() == f.Depth()
  {
    hide Tree.Text, Tree.Denote, Tree.Valid, Tree.Size, Tree.Depth, QuotedTail, DenotePieces;
    var end := if f.LastField? then [CLOSE_BRACE] else [COMMA] + f.more.Text();
    Assoc(blank, f.before, [QUOTE] + (QuotedTail(f.name) + (f.colon + ([COLON] + (f.gap + (f.tree.Text() + (f.after + end)))))));
  }

  lemma NameSound(t: seq<Byte>, members: map<seq<Byte>, Value>) returns (name: seq<Piece>, colon: seq<Byte>)
    requires t != [] && t[0] == QUOTE && ReadName(t, members).Done?
    ensures ValidPieces(name) && Blank(colon) && DenotePieces(name) !in members
    ensures ReadName(t, members).value == DenotePieces(name)
    ensures t == [QUOTE] + (QuotedTail(name) + (colon + ([COLON] + ReadName(t, members).rest)))
  {
    hide ReadText, SkipBlank, QuotedTail, DenotePieces, ValidPieces;
    name := TextSound(t[1..], []);
    assert [] + DenotePieces(name) == DenotePieces(name);
    var rest := ReadText(t[1..], []).rest;
    colon := SkipBlankSplits(rest);
    var u := SkipBlank(rest);
    assert t == [QUOTE] + t[1..] && u == [COLON] + u[1..];
  }

  /** The first member of an object is added to those before it, and then come the others. */
  lemma FieldsDenote(f: Fields, members: map<seq<Byte>, Value>)
    requires f.Valid() && DenotePieces(f.name) !in members
    ensures var all := members[DenotePieces(f.name) := f.tree.Denote()];
            && members + f.Denote() == (if f.LastField? then all else all + f.more.Denote())
            && (f.Denote().Keys !! members.Keys <==> f.LastField? || f.more.Denote().Keys !! all.Keys)
  {
  }

  lemma {:induction false} FieldsSound(s: seq<Byte>, limits: Limits, depth: nat, used: Usage, members: map<seq<Byte>, Value>)
    returns (f: Fields)
    requires ReadFields(s, limits, depth, used, members).Read? && depth < limits.depth
    ensures ReadsFields(f, s, ReadFields(s, limits, depth, used, members), members, limits, depth, used)
    decreases |s|, 3
  {
    hide ReadValue, ReadName, SkipBlank, Tree.Text, Tree.Denote, Tree.Valid, Tree.Size, Tree.Depth, Fields.Text,
         QuotedTail, DenotePieces, ValidPieces;
    var blank := SkipBlankSplits(s);
    var t := SkipBlank(s);
    var name, colon := NameSound(t, members);
    var value := ReadName(t, members).rest;
    var item := ReadValue(value, limits, depth + 1, used.Add(Usage(0, 1)));
    var gap, tree := ValueSound(value, limits, depth + 1, used.Add(Usage(0, 1)));
    var after := SkipBlankSplits(item.rest);
    var u := SkipBlank(item.rest);
    var all := members[DenotePieces(name) := item.value];
    assert value == gap + (tree.Text() + (after + u)) && u == [u[0]] + u[1..];
    if u[0] == CLOSE_BRACE {
      f := LastField(blank, name, colon, gap, tree, after);
      var v, tail := FieldsText(f, u[1..]);
      FieldsDenote(f, members);
    } else {
      var more := FieldsSound(u[1..], limits, depth, item.used, all);
      f := MoreFields(blank, name, colon, gap, tree, after, more);
      var v, tail := FieldsText(f, ReadFields(s, limits, depth, used, members).rest);
      FieldsDenote(f, members);
    }
  }

  /** `s` is a JSON text with this syntax tree, within the limits of the options. */
  ghost predicate Spells(s: seq<Byte>, options: ParseOptions, before: seq<Byte>, tree: Tree, after: seq<Byte>) {
    && s == before + (tree.Text() + after) && Blank(before) && Blank(after) && tree.Valid()
    && |s| <= options.maxInputBytes
    && Fits(tree.Size(), tree.Depth(), options.Budget(), 0, Usage(0, 0))
  }

  /** The parser accepts exactly the JSON texts within its limits, and returns the value they denote. */
  lemma ParserIsGrammar(s: seq<Byte>, options: ParseOptions, v: Value)
    ensures ReadDocument(s, options) == Parsed(v)
       <==> exists before, tree, after :: Spells(s, options, before, tree, after) && tree.Denote() == v
  {
    hide ReadValue, SkipBlank, Tree.Text, Tree.Valid, Tree.Denote, Tree.Size, Tree.Depth;
    if ReadDocument(s, options) == Parsed(v) {
      var before, tree, after := DocumentSound(s, options);
      assert Spells(s, options, before, tree, after) && tree.Denote() == v;
    }
    if before, tree, after :| Spells(s, options, before, tree, after) && tree.Denote() == v {
      DocumentComplete(s, options, before, tree, after);
    }
  }

  lemma DocumentSound(s: seq<Byte>, options: ParseOptions) returns (before: seq<Byte>, tree: Tree, after: seq<Byte>)
    requires ReadDocument(s, options).Parsed?
    ensures Spells(s, options, before, tree, after) && ReadDocument(s, options) == Parsed(tree.Denote())
  {
    hide ReadValue, SkipBlank, Tree.Text, Tree.Valid, Tree.Denote, Tree.Inner, Tree.Depth;
    var r := ReadValue(s, options.Budget(), 0, Usage(0, 0));
    before, tree := ValueSound(s, options.Budget(), 0, Usage(0, 0));
    after := SkipBlankSplits(r.rest);
    assert after + [] == after;
  }

  lemma DocumentComplete(s: seq<Byte>, options: ParseOptions, before: seq<Byte>, tree: Tree, after: seq<Byte>)
    requires Spells(s, options, before, tree, after)
    ensures ReadDocument(s, options) == Parsed(tree.Denote())
  {
    hide ReadValue, SkipBlank, Tree.Text, Tree.Valid, Tree.Denote, Tree.Inner, Tree.Depth;
    ValueComplete(tree, before, after, options.Budget(), 0, Usage(0, 0));
    SkipBlankOver(after, []);
    assert after + [] == after;
  }

  /** A JSON text denotes one value, however it is taken apart. */
  lemma GrammarIsUnambiguous(t1: Tree, t2: Tree)
    requires t1.Valid() && t2.Valid() && t1.Text() == t2.Text()
    ensures t1.Denote() == t2.Denote()
  {
    hide ReadValue, Tree.Text, Tree.Valid, Tree.Denote, Tree.Size, Tree.Depth;
    var depth := t1.Depth() + t2.Depth();
    var values, items := t1.Size().values + t2.Size().values, t1.Size().items + t2.Size().items;
    var limits := Limits(depth, values, items);
    ValueComplete(t1, [], [], limits, 0, Usage(0, 0));
    ValueComplete(t2, [], [], limits, 0, Usage(0, 0));
  }

  lemma {:induction false} PiecesAreWellFormed(p: seq<Piece>)
    requires ValidPieces(p)
    ensures WellFormed(DenotePieces(p))
  {
    hide Encoded, Piece.Denote;
    if p != [] {
      PiecesAreWellFormed(p[1..]);
      var first := p[0].Denote();
      assert first[..|first|] == first;
      EncodedIsShort(first);
      WellFormedJoins(first, |first|, DenotePieces(p[1..]));
    }
  }

  lemma EncodedIsShort(s: seq<Byte>)
    requires Encoded(s)
    ensures 0 < |s| <= 4
  {
  }

  /** Whatever the escapes, every string the parser returns is well-formed UTF-8, names included. */
  lemma {:induction false} DenotesWellFormedStrings(tree: Tree)
    requires tree.Valid()
    ensures WellFormedStrings(tree.Denote())
    decreases tree
  {
    hide WellFormed, DenotePieces, ValidPieces;
    match tree
    case TextTree(pieces) => PiecesAreWellFormed(pieces);
    case FullArray(elements) => ElementsAreWellFormed(elements);
    case FullObject(fields) => FieldsAreWellFormed(fields);
    case _ =>
  }

  lemma {:induction false} ElementsAreWellFormed(e: Elements)
    requires e.Valid()
    ensures forall i :: 0 <= i < |e.Denote()| ==> WellFormedStrings(e.Denote()[i])
    decreases e
  {
    hide WellFormed, DenotePieces;
    DenotesWellFormedStrings(e.tree);
    if e.More? {
      ElementsAreWellFormed(e.more);
    }
  }

  lemma {:induction false} FieldsAreWellFormed(f: Fields)
    requires f.Valid()
    ensures forall name :: name in f.Denote() ==> WellFormed(name) && WellFormedStrings(f.Denote()[name])
    decreases f
  {
    hide WellFormed, DenotePieces, ValidPieces;
    PiecesAreWellFormed(f.name);
    DenotesWellFormedStrings(f.tree);
    if f.MoreFields? {
      FieldsAreWellFormed(f.more);
    }
  }

  lemma ParsedStringsAreWellFormed(s: seq<Byte>, options: ParseOptions)
    requires ReadDocument(s, options).Parsed?
    ensures WellFormedStrings(ReadDocument(s, options).value)
  {
    hide ReadDocument, WellFormedStrings;
    var before, tree, after := DocumentSound(s, options);
    DenotesWellFormedStrings(tree);
  }
}
