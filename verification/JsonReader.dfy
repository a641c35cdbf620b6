/**
  Recursive descent over JSON bytes, as a function of the bytes still to be read.  The parser's
  methods are proved to compute it, and `JsonProofs` proves what it accepts and what it returns.
 */
module JsonReader {
  import opened Common
  import opened Utf8
  import opened JsonSyntax

  datatype ErrorCode =
    | InputTooLarge | UnexpectedEnd | UnexpectedToken | InvalidLiteral | InvalidNumber | InvalidString
    | InvalidEscape | InvalidUnicodeEscape | InvalidUnicodeScalar | InvalidUtf8 | DuplicateKey
    | NestingTooDeep | TooManyValues | TooManyContainerItems | TrailingCharacters

  datatype Limits = Limits(depth: nat, values: nat, items: nat)

  /** A part read, with the bytes after it; or an error, located by the number of bytes left. */
  datatype Outcome<T> = Done(value: T, rest: seq<Byte>) | Failed(code: ErrorCode, left: nat)

  /** A value read, with what it used of the budgets so far. */
  datatype Reading = Read(value: Value, rest: seq<Byte>, used: Usage) | Refused(error: ErrorCode, left: nat)

  function SkipBlank(s: seq<Byte>): (rest: seq<Byte>)
    ensures |rest| <= |s|
  {
    if s != [] && IsBlank(s[0]) then SkipBlank(s[1..]) else s
  }

  function SkipDigits(s: seq<Byte>): (rest: seq<Byte>)
    ensures |rest| <= |s| && (s != [] && IsDigit(s[0]) ==> |rest| < |s|)
  {
    if s != [] && IsDigit(s[0]) then SkipDigits(s[1..]) else s
  }

  function ReadLiteral(s: seq<Byte>, word: seq<Byte>): Outcome<()> {
    if word <= s then Done((), s[|word|..]) else Failed(InvalidLiteral, |s|)
  }

  predicate StartsWithDigit(s: seq<Byte>) {
    s != [] && IsDigit(s[0])
  }

  /** What follows the number `s` begins with. */
  function ReadNumber(s: seq<Byte>): (r: Outcome<()>)
    requires s != []
    ensures r.Done? ==> |r.rest| < |s|
  {
    var t := if s[0] == MINUS then s[1..] else s;
    if t == [] then Failed(InvalidNumber, 0)
    else if t[0] == ZERO then
      if StartsWithDigit(t[1..]) then Failed(InvalidNumber, |t| - 1) else ReadFraction(t[1..])
    else if IsDigit(t[0]) then ReadFraction(SkipDigits(t))
    else Failed(InvalidNumber, |t|)
  }

  function ReadFraction(t: seq<Byte>): (r: Outcome<()>)
    ensures r.Done? ==> |r.rest| <= |t|
  {
    if t == [] || t[0] != POINT then ReadExponent(t)
    else if !StartsWithDigit(t[1..]) then Failed(InvalidNumber, |t| - 1)
    else ReadExponent(SkipDigits(t[1..]))
  }

  function ReadExponent(t: seq<Byte>): (r: Outcome<()>)
    ensures r.Done? ==> |r.rest| <= |t|
  {
    if t == [] || (t[0] != 0x65 && t[0] != 0x45) then Done((), t)
    else
      var u := t[1..];
      var w := if u != [] && (u[0] == 0x2B || u[0] == MINUS) then u[1..] else u;
      if !StartsWithDigit(w) then Failed(InvalidNumber, |w|) else Done((), SkipDigits(w))
  }

  /** How far the four hexadecimal digits of an escaped code unit go, from the `i`-th on. */
  function HexRun(s: seq<Byte>, i: nat): (n: nat)
    requires i <= 4 && i <= |s|
    ensures i <= n <= 4 && n <= |s|
    ensures forall k :: i <= k < n ==> HexDigit(s[k]) >= 0
    ensures n < 4 && n < |s| ==> HexDigit(s[n]) < 0
    decreases 4 - i
  {
    if i < 4 && i < |s| && HexDigit(s[i]) >= 0 then HexRun(s, i + 1) else i
  }

  function ReadHex(s: seq<Byte>): (r: Outcome<nat>)
    ensures r.Done? ==> r.value < 0x10000 && |r.rest| == |s| - 4
  {
    var n := HexRun(s, 0);
    if n < 4 then Failed(InvalidUnicodeEscape, |s| - n) else Done(HexValue(s[..4]), s[4..])
  }

  /** An escape, from its backslash on: the bytes it stands for. */
  function ReadEscape(s: seq<Byte>): (r: Outcome<seq<Byte>>)
    requires s != []
    ensures r.Done? ==> |r.rest| < |s|
  {
    if |s| == 1 then Failed(UnexpectedEnd, 0)
    else if Short(s[1]) >= 0 then Done([Short(s[1])], s[2..])
    else if s[1] == LOWER_U then ReadUnit(s)
    else Failed(InvalidEscape, |s| - 1)
  }

  function ReadUnit(s: seq<Byte>): (r: Outcome<seq<Byte>>)
    requires |s| >= 2
    ensures r.Done? ==> |r.rest| < |s|
  {
    var first := ReadHex(s[2..]);
    if first.Failed? then Failed(first.code, first.left)
    else
      var rest := first.rest;
      if High(first.value) then
        if |rest| < 2 || rest[0] != BACKSLASH || rest[1] != LOWER_U then Failed(InvalidUnicodeScalar, |s|)
        else
          var second := ReadHex(rest[2..]);
          if second.Failed? then Failed(second.code, second.left)
          else if !Low(second.value) then Failed(InvalidUnicodeScalar, |second.rest| + 4)
          else Done(Encode(Paired(first.value, second.value)), second.rest)
      else if Low(first.value) then Failed(InvalidUnicodeScalar, |s|)
      else Done(Encode(first.value), rest)
  }

  /** The rest of a string after its opening quote, decoded onto `text`. */
  function ReadText(s: seq<Byte>, text: seq<Byte>): (r: Outcome<seq<Byte>>)
    ensures r.Done? ==> |r.rest| < |s|
    decreases |s|
  {
    if s == [] then Failed(UnexpectedEnd, 0)
    else if s[0] == QUOTE then Done(text, s[1..])
    else if s[0] == BACKSLASH then
      var escape := ReadEscape(s);
      if escape.Failed? then escape else ReadText(escape.rest, text + escape.value)
    else if s[0] <= 0x1F then Failed(InvalidString, |s|)
    else
      var n := EncodedLength(s);
      if n == 0 then Failed(InvalidUtf8, |s|) else ReadText(s[n..], text + s[..n])
  }

  function ReadValue(s: seq<Byte>, limits: Limits, depth: nat, used: Usage): (r: Reading)
    ensures r.Read? ==> |r.rest| < |s|
    decreases |s|, 2
  {
    var t := SkipBlank(s);
    if t == [] then Refused(UnexpectedEnd, 0)
    else if used.values >= limits.values then Refused(TooManyValues, |t|)
    else ReadToken(t, limits, depth, used.Add(Usage(1, 0)))
  }

  /** The value whose first byte is `t[0]`; `used` already counts it. */
  function ReadToken(t: seq<Byte>, limits: Limits, depth: nat, used: Usage): (r: Reading)
    requires t != []
    ensures r.Read? ==> |r.rest| < |t|
    decreases |t|, 1
  {
    if t[0] == NULL_WORD[0] then Scalar(ReadLiteral(t, NULL_WORD), Null, used)
    else if t[0] == TRUE_WORD[0] then Scalar(ReadLiteral(t, TRUE_WORD), Bool(true), used)
    else if t[0] == FALSE_WORD[0] then Scalar(ReadLiteral(t, FALSE_WORD), Bool(false), used)
    else if t[0] == QUOTE then
      var text := ReadText(t[1..], []);
      if text.Failed? then Refused(text.code, text.left) else Read(Str(text.value), text.rest, used)
    else if t[0] == OPEN_BRACKET then ReadArray(t, limits, depth, used)
    else if t[0] == OPEN_BRACE then ReadObject(t, limits, depth, used)
    else if t[0] == MINUS || IsDigit(t[0]) then
      var number := ReadNumber(t);
      if number.Failed? then Refused(number.code, number.left)
      else Read(Number(t[..|t| - |number.rest|]), number.rest, used)
    else Refused(UnexpectedToken, |t|)
  }

  function Scalar(literal: Outcome<()>, value: Value, used: Usage): (r: Reading) {
    if literal.Failed? then Refused(literal.code, literal.left) else Read(value, literal.rest, used)
  }

  function ReadArray(t: seq<Byte>, limits: Limits, depth: nat, used: Usage): (r: Reading)
    requires t != []
    ensures r.Read? ==> |r.rest| < |t|
    decreases |t|, 0
  {
    if depth >= limits.depth then Refused(NestingTooDeep, |t|)
    else
      var u := SkipBlank(t[1..]);
      if u != [] && u[0] == CLOSE_BRACKET then Read(Array([]), u[1..], used)
      else ReadElements(u, limits, depth, used, [])
  }

  /** Elements up to and with the closing bracket, collected after `values`. */
  function ReadElements(s: seq<Byte>, limits: Limits, depth: nat, used: Usage, values: seq<Value>): (r: Reading)
    ensures r.Read? ==> |r.rest| < |s|
    decreases |s|, 3
  {
    if used.items >= limits.items then Refused(TooManyContainerItems, |s|)
    else
      var item := ReadValue(s, limits, depth + 1, used.Add(Usage(0, 1)));
      if item.Refused? then item
      else
        var t := SkipBlank(item.rest);
        if t == [] then Refused(UnexpectedEnd, 0)
        else if t[0] == CLOSE_BRACKET then Read(Array(values + [item.value]), t[1..], item.used)
        else if t[0] != COMMA then Refused(UnexpectedToken, |t|)
        else ReadElements(t[1..], limits, depth, item.used, values + [item.value])
  }

  function ReadObject(t: seq<Byte>, limits: Limits, depth: nat, used: Usage): (r: Reading)
    requires t != []
    ensures r.Read? ==> |r.rest| < |t|
    decreases |t|, 0
  {
    if depth >= limits.depth then Refused(NestingTooDeep, |t|)
    else
      var u := SkipBlank(t[1..]);
      if u != [] && u[0] == CLOSE_BRACE then Read(Object(map[]), u[1..], used)
      else ReadFields(u, limits, depth, used, map[])
  }

  /** The name of a member and its colon: a name not in `members`, and the bytes of its value. */
  function ReadName(t: seq<Byte>, members: map<seq<Byte>, Value>): (r: Outcome<seq<Byte>>)
    requires t != []
    ensures r.Done? ==> |r.rest| < |t|
  {
    var name := ReadText(t[1..], []);
    if name.Failed? then name
    else if name.value in members then Failed(DuplicateKey, |t|)
    else
      var u := SkipBlank(name.rest);
      if u == [] then Failed(UnexpectedEnd, 0)
      else if u[0] != COLON then Failed(UnexpectedToken, |u|)
      else Done(name.value, u[1..])
  }

  /** Members up to and with the closing brace, added to `members`. */
  function ReadFields(s: seq<Byte>, limits: Limits, depth: nat, used: Usage, members: map<seq<Byte>, Value>): (r: Reading)
    ensures r.Read? ==> |r.rest| < |s|
    decreases |s|, 3
  {
    var t := SkipBlank(s);
    if t == [] then Refused(UnexpectedEnd, 0)
    else if t[0] != QUOTE then Refused(UnexpectedToken, |t|)
    else if used.items >= limits.items then Refused(TooManyContainerItems, |t|)
    else
      var name := ReadName(t, members);
      if name.Failed? then Refused(name.code, name.left)
      else
        var item := ReadValue(name.rest, limits, depth + 1, used.Add(Usage(0, 1)));
        if item.Refused? then item
        else
          var u := SkipBlank(item.rest);
          var all := members[name.value := item.value];
          if u == [] then Refused(UnexpectedEnd, 0)
          else if u[0] == CLOSE_BRACE then Read(Object(all), u[1..], item.used)
          else if u[0] != COMMA then Refused(UnexpectedToken, |u|)
          else ReadFields(u[1..], limits, depth, item.used, all)
  }

  const ABSOLUTE_MAX_NESTING_DEPTH: nat := 1024

  datatype ParseOptions = ParseOptions(maxInputBytes: nat, maxNestingDepth: nat, maxValues: nat, maxContainerItems: nat) {
    function Budget(): Limits {
      Limits(if maxNestingDepth < ABSOLUTE_MAX_NESTING_DEPTH then maxNestingDepth else ABSOLUTE_MAX_NESTING_DEPTH,
             maxValues, maxContainerItems)
    }
  }

  datatype ParseResult = Parsed(value: Value) | Rejected(code: ErrorCode, offset: int)

  /** A whole document: one value, and nothing but blanks around it. */
  function ReadDocument(s: seq<Byte>, options: ParseOptions): ParseResult {
    if |s| > options.maxInputBytes then Rejected(InputTooLarge, options.maxInputBytes)
    else Located(|s|, ReadWhole(s, options.Budget()))
  }

  function ReadWhole(s: seq<Byte>, limits: Limits): Reading {
    var root := ReadValue(s, limits, 0, Usage(0, 0));
    if root.Refused? then root
    else
      var t := SkipBlank(root.rest);
      if t == [] then Read(root.value, t, root.used) else Refused(TrailingCharacters, |t|)
  }

  /** Errors are reported with their offset from the start of the `size` bytes of input. */
  function Located(size: nat, r: Reading): ParseResult {
    if r.Read? then Parsed(r.value) else Rejected(r.error, size - r.left)
  }
}
