/**
  JSON texts as RFC 8259 defines them (sections 2 to 7), as concrete syntax trees: `Text` is what a
  tree spells, `Valid` the side conditions of the grammar, and `Denote` the value it stands for.
 */
module JsonSyntax {
  import opened Common
  import opened Utf8

  const QUOTE: Byte := 0x22
  const COMMA: Byte := 0x2C
  const MINUS: Byte := 0x2D
  const POINT: Byte := 0x2E
  const SLASH: Byte := 0x2F
  const ZERO: Byte := 0x30
  const NINE: Byte := 0x39
  const COLON: Byte := 0x3A
  const OPEN_BRACKET: Byte := 0x5B
  const BACKSLASH: Byte := 0x5C
  const CLOSE_BRACKET: Byte := 0x5D
  const LOWER_U: Byte := 0x75
  const OPEN_BRACE: Byte := 0x7B
  const CLOSE_BRACE: Byte := 0x7D

  const NULL_WORD: seq<Byte> := [0x6E, 0x75, 0x6C, 0x6C]
  const TRUE_WORD: seq<Byte> := [0x74, 0x72, 0x75, 0x65]
  const FALSE_WORD: seq<Byte> := [0x66, 0x61, 0x6C, 0x73, 0x65]

  datatype Value =
    | Null
    | Bool(flag: bool)
    | Number(text: seq<Byte>)
    | Str(bytes: seq<Byte>)
    | Array(values: seq<Value>)
    | Object(members: map<seq<Byte>, Value>)

  predicate IsBlank(b: Byte) {
    b == 0x20 || b == 0x09 || b == 0x0A || b == 0x0D
  }

  predicate Blank(s: seq<Byte>) {
    forall i :: 0 <= i < |s| ==> IsBlank(s[i])
  }

  predicate IsDigit(b: Byte) {
    ZERO <= b <= NINE
  }

  predicate Digits(s: seq<Byte>) {
    forall i :: 0 <= i < |s| ==> IsDigit(s[i])
  }

  /** Section 6: an optional minus, an integer without leading zeros, an optional fraction and an
      optional exponent; no digits stands for no such part. */
  datatype Numeral = Numeral(negative: bool, whole: seq<Byte>, fraction: seq<Byte>,
                             mark: Byte, sign: seq<Byte>, exponent: seq<Byte>)
  {
    predicate Valid() {
      && Digits(whole) && whole != [] && (whole[0] == ZERO ==> |whole| == 1)
      && Digits(fraction) && ValidExponent(mark, sign, exponent)
    }

    function Text(): seq<Byte> {
      (if negative then [MINUS] else []) + (whole + (FractionText(fraction) + ExponentText(mark, sign, exponent)))
    }
  }

  predicate ValidExponent(mark: Byte, sign: seq<Byte>, digits: seq<Byte>) {
    Digits(digits) && (mark == 0x65 || mark == 0x45) && (sign == [] || sign == [0x2B] || sign == [MINUS])
  }

  function FractionText(digits: seq<Byte>): seq<Byte> {
    if digits == [] then [] else [POINT] + digits
  }

  function ExponentText(mark: Byte, sign: seq<Byte>, digits: seq<Byte>): seq<Byte> {
    if digits == [] then [] else [mark] + (sign + digits)
  }

  function HexDigit(b: Byte): int {
    if ZERO <= b <= NINE then b - ZERO
    else if 0x61 <= b <= 0x66 then 10 + b - 0x61
    else if 0x41 <= b <= 0x46 then 10 + b - 0x41
    else -1
  }

  predicate Hex(s: seq<Byte>) {
    |s| == 4 && forall i :: 0 <= i < 4 ==> HexDigit(s[i]) >= 0
  }

  function HexValue(s: seq<Byte>): (v: nat)
    requires Hex(s)
    ensures v < 0x10000
  {
    HexDigit(s[0]) * 0x1000 + HexDigit(s[1]) * 0x100 + HexDigit(s[2]) * 0x10 + HexDigit(s[3])
  }

  predicate High(unit: int) {
    0xD800 <= unit <= 0xDBFF
  }

  predicate Low(unit: int) {
    0xDC00 <= unit <= 0xDFFF
  }

  function Paired(high: int, low: int): int {
    0x10000 + (high - 0xD800) * 0x400 + (low - 0xDC00)
  }

  /** What a two-character escape stands for; -1 when `letter` makes none. */
  function Short(letter: Byte): int {
    if letter == QUOTE || letter == BACKSLASH || letter == SLASH then letter
    else if letter == 0x62 then 0x08
    else if letter == 0x66 then 0x0C
    else if letter == 0x6E then 0x0A
    else if letter == 0x72 then 0x0D
    else if letter == 0x74 then 0x09
    else -1
  }

  /** Section 7: a character standing for itself, a two-character escape, an escaped code unit, or an
      escaped surrogate pair. */
  datatype Piece =
    | Plain(bytes: seq<Byte>)
    | Escaped(letter: Byte)
    | Unit(unit: seq<Byte>)
    | Pair(high: seq<Byte>, low: seq<Byte>)
  {
    predicate Valid() {
      match this
      case Plain(bytes) => Encoded(bytes) && bytes[0] >= 0x20 && bytes[0] != QUOTE && bytes[0] != BACKSLASH
      case Escaped(letter) => Short(letter) >= 0
      case Unit(unit) => Hex(unit) && !High(HexValue(unit)) && !Low(HexValue(unit))
      case Pair(high, low) => Hex(high) && Hex(low) && High(HexValue(high)) && Low(HexValue(low))
    }

    function Text(): (s: seq<Byte>)
      ensures Valid() ==> s != []
    {
      match this
      case Plain(bytes) => bytes
      case Escaped(letter) => [BACKSLASH, letter]
      case Unit(unit) => [BACKSLASH, LOWER_U] + unit
      case Pair(high, low) => [BACKSLASH, LOWER_U] + high + ([BACKSLASH, LOWER_U] + low)
    }

    function Denote(): (s: seq<Byte>)
      requires Valid()
      ensures Encoded(s)
    {
      match this
      case Plain(bytes) => bytes
      case Escaped(letter) => [Short(letter)]
      case Unit(unit) =>
        EncodeIsEncoded(HexValue(unit));
        Encode(HexValue(unit))
      case Pair(high, low) =>
        EncodeIsEncoded(Paired(HexValue(high), HexValue(low)));
        Encode(Paired(HexValue(high), HexValue(low)))
    }
  }

  predicate ValidPieces(p: seq<Piece>) {
    forall i :: 0 <= i < |p| ==> p[i].Valid()
  }

  function PiecesText(p: seq<Piece>): seq<Byte> {
    if p == [] then [] else p[0].Text() + PiecesText(p[1..])
  }

  function DenotePieces(p: seq<Piece>): seq<Byte>
    requires ValidPieces(p)
  {
    if p == [] then [] else p[0].Denote() + DenotePieces(p[1..])
  }

  /** A quoted string, after its opening quote. */
  function QuotedTail(p: seq<Piece>): seq<Byte> {
    PiecesText(p) + [QUOTE]
  }

  datatype Tree =
    | NullTree
    | BoolTree(flag: bool)
    | NumberTree(numeral: Numeral)
    | TextTree(pieces: seq<Piece>)
    | EmptyArray(blank: seq<Byte>)
    | FullArray(elements: Elements)
    | EmptyObject(blank: seq<Byte>)
    | FullObject(fields: Fields)
  {
    predicate Valid()
      decreases this, 0
    {
      match this
      case NullTree => true
      case BoolTree(_) => true
      case NumberTree(numeral) => numeral.Valid()
      case TextTree(pieces) => ValidPieces(pieces)
      case EmptyArray(blank) => Blank(blank)
      case FullArray(elements) => elements.Valid()
      case EmptyObject(blank) => Blank(blank)
      case FullObject(fields) => fields.Valid()
    }

    function Text(): (s: seq<Byte>)
      ensures Valid() ==> s != []
    {
      match this
      case NullTree => NULL_WORD
      case BoolTree(flag) => if flag then TRUE_WORD else FALSE_WORD
      case NumberTree(numeral) => numeral.Text()
      case TextTree(pieces) => [QUOTE] + QuotedTail(pieces)
      case EmptyArray(blank) => [OPEN_BRACKET] + blank + [CLOSE_BRACKET]
      case FullArray(elements) => [OPEN_BRACKET] + elements.Text()
      case EmptyObject(blank) => [OPEN_BRACE] + blank + [CLOSE_BRACE]
      case FullObject(fields) => [OPEN_BRACE] + fields.Text()
    }

    function Denote(): Value
      requires Valid()
      decreases this, 1
    {
      match this
      case NullTree => Null
      case BoolTree(flag) => Bool(flag)
      case NumberTree(numeral) => Number(numeral.Text())
      case TextTree(pieces) => Str(DenotePieces(pieces))
      case EmptyArray(_) => Array([])
      case FullArray(elements) => Array(elements.Denote())
      case EmptyObject(_) => Object(map[])
      case FullObject(fields) => Object(fields.Denote())
    }

    /** Nested arrays and objects, along the deepest branch. */
    function Depth(): nat {
      match this
      case EmptyArray(_) => 1
      case EmptyObject(_) => 1
      case FullArray(elements) => 1 + elements.Depth()
      case FullObject(fields) => 1 + fields.Depth()
      case _ => 0
    }

    /** What is inside an array or an object: its values, and the elements and members among them. */
    function Inner(): Usage
      decreases this, 0
    {
      match this
      case FullArray(elements) => elements.Size()
      case FullObject(fields) => fields.Size()
      case _ => Usage(0, 0)
    }

    function Size(): Usage
      decreases this, 1
    {
      Usage(1, 0).Add(Inner())
    }
  }

  datatype Usage = Usage(values: nat, items: nat) {
    function Add(other: Usage): Usage {
      Usage(values + other.values, items + other.items)
    }
  }

  /** The elements of an array that has some, after its opening bracket. */
  datatype Elements =
    | Last(before: seq<Byte>, tree: Tree, after: seq<Byte>)
    | More(before: seq<Byte>, tree: Tree, after: seq<Byte>, more: Elements)
  {
    predicate Valid()
      decreases this, 0
    {
      Blank(before) && Blank(after) && tree.Valid() && (More? ==> more.Valid())
    }

    function Text(): seq<Byte> {
      before + (tree.Text() + (after + (if Last? then [CLOSE_BRACKET] else [COMMA] + more.Text())))
    }

    function Denote(): seq<Value>
      requires Valid()
      decreases this, 1
    {
      [tree.Denote()] + (if Last? then [] else more.Denote())
    }

    function Depth(): nat {
      if Last? || more.Depth() <= tree.Depth() then tree.Depth() else more.Depth()
    }

    function Size(): Usage
      decreases this, 1
    {
      tree.Size().Add(Usage(0, 1)).Add(if Last? then Usage(0, 0) else more.Size())
    }
  }

  /** The members of an object that has some, after its opening brace.  No name occurs twice, however
      it is escaped. */
  datatype Fields =
    | LastField(before: seq<Byte>, name: seq<Piece>, colon: seq<Byte>, gap: seq<Byte>, tree: Tree, after: seq<Byte>)
    | MoreFields(before: seq<Byte>, name: seq<Piece>, colon: seq<Byte>, gap: seq<Byte>, tree: Tree, after: seq<Byte>,
                 more: Fields)
  {
    predicate Valid()
      decreases this, 0
    {
      && Blank(before) && Blank(colon) && Blank(gap) && Blank(after) && ValidPieces(name) && tree.Valid()
      && (MoreFields? ==> more.Valid() && DenotePieces(name) !in more.Denote())
    }

    function Text(): seq<Byte> {
      before + ([QUOTE] + (QuotedTail(name) + (colon + ([COLON] + (gap + (tree.Text() + (after +
        (if LastField? then [CLOSE_BRACE] else [COMMA] + more.Text()))))))))
    }

    function Denote(): map<seq<Byte>, Value>
      requires Valid()
      decreases this, 1
    {
      (if LastField? then map[] else more.Denote())[DenotePieces(name) := tree.Denote()]
    }

    function Depth(): nat {
      if LastField? || more.Depth() <= tree.Depth() then tree.Depth() else more.Depth()
    }

    function Size(): Usage
      decreases this, 1
    {
      tree.Size().Add(Usage(0, 1)).Add(if LastField? then Usage(0, 0) else more.Size())
    }
  }

  /** Every string of the value, names included, is well-formed UTF-8. */
  ghost predicate WellFormedStrings(v: Value) {
    match v
    case Str(bytes) => WellFormed(bytes)
    case Array(values) => forall i :: 0 <= i < |values| ==> WellFormedStrings(values[i])
    case Object(members) => forall name :: name in members ==> WellFormed(name) && WellFormedStrings(members[name])
    case _ => true
  }
}
