/**
  The parser itself: a cursor that moves over the input, two running budgets and the first error.
 */
module JsonParser {
  import opened Common
  import opened Utf8
  import opened JsonSyntax
  import opened JsonReader

  datatype Error = NoError | At(code: ErrorCode, offset: int)

  class Parser {
    const input: seq<Byte>
    const limits: Limits
    var position: nat
    var valueCount: nat
    var containerItemCount: nat
    var error: Error

    constructor (input: seq<Byte>, limits: Limits)
      ensures this.input == input && this.limits == limits && Ready() && position == 0 && Used() == Usage(0, 0)
    {
      this.input, this.limits := input, limits;
      position, valueCount, containerItemCount, error := 0, 0, 0, NoError;
    }

    ghost predicate Ready()
      reads this
    {
      position <= |input| && error.NoError?
    }

    ghost function Left(): seq<Byte>
      requires position <= |input|
      reads this
    {
      input[position..]
    }

    ghost function Used(): Usage
      reads this
    {
      Usage(valueCount, containerItemCount)
    }

    /** The cursor stands behind what was read, or the error is recorded. */
    ghost predicate Yields(r: Reading, ok: bool, output: Value)
      reads this
    {
      && position <= |input|
      && match r
         case Read(value, rest, used) => ok && error.NoError? && output == value && Left() == rest && Used() == used
         case Refused(code, left) => !ok && error == At(code, |input| - left)
    }

    ghost predicate Follows<T>(r: Outcome<T>, ok: bool, output: T)
      reads this
    {
      && position <= |input|
      && match r
         case Done(value, rest) => ok && error.NoError? && output == value && Left() == rest
         case Failed(code, left) => !ok && error == At(code, |input| - left)
    }

    method Fail(code: ErrorCode, offset: int) returns (ok: bool)
      modifies this`error
      ensures !ok && error == if old(error.NoError?) then At(code, offset) else old(error)
    {
      if error.NoError? {
        error := At(code, offset);
      }
      ok := false;
    }

    method SkipWhitespace()
      requires Ready()
      modifies this`position
      ensures Ready() && Left() == SkipBlank(old(Left()))
    {
      while position < |input| && IsBlank(input[position])
        invariant position <= |input| && SkipBlank(Left()) == SkipBlank(old(Left()))
      {
        assert Left()[1..] == input[position + 1..];
        position := position + 1;
      }
    }

    method SkipDecimalDigits()
      requires Ready()
      modifies this`position
      ensures Ready() && Left() == SkipDigits(old(Left()))
    {
      while position < |input| && IsDigit(input[position])
        invariant position <= |input| && SkipDigits(Left()) == SkipDigits(old(Left()))
      {
        assert Left()[1..] == input[position + 1..];
        position := position + 1;
      }
    }

    method ConsumeValue(offset: nat) returns (ok: bool)
      requires Ready()
      modifies this`valueCount, this`error
      ensures ok == (old(valueCount) < limits.values)
      ensures ok ==> error.NoError? && valueCount == old(valueCount) + 1
      ensures !ok ==> error == At(TooManyValues, offset)
    {
      if valueCount >= limits.values {
        ok := Fail(TooManyValues, offset);
        return;
      }
      valueCount := valueCount + 1;
      ok := true;
    }

    method ConsumeContainerItem(offset: nat) returns (ok: bool)
      requires Ready()
      modifies this`containerItemCount, this`error
      ensures ok == (old(containerItemCount) < limits.items)
      ensures ok ==> error.NoError? && containerItemCount == old(containerItemCount) + 1
      ensures !ok ==> error == At(TooManyContainerItems, offset)
    {
      if containerItemCount >= limits.items {
        ok := Fail(TooManyContainerItems, offset);
        return;
      }
      containerItemCount := containerItemCount + 1;
      ok := true;
    }

    method ParseLiteral(word: seq<Byte>) returns (ok: bool)
      requires Ready()
      modifies this`position, this`error
      ensures Follows(ReadLiteral(old(Left()), word), ok, ())
    {
      if |input| - position < |word| || input[position..position + |word|] != word {
        assert !(word <= Left());
        ok := Fail(InvalidLiteral, position);
        return;
      }
      assert Left()[|word|..] == input[position + |word|..];
      position := position + |word|;
      ok := true;
    }

    /** The integer part: a single zero or digits without a leading zero. */
    method ParseWhole() returns (ok: bool)
      requires Ready() && position < |input|
      modifies this`position, this`error
      ensures position <= |input|
      ensures ok ==> error.NoError? && ReadNumber(old(Left())) == ReadFraction(Left())
      ensures !ok ==> Follows(ReadNumber(old(Left())), ok, ())
    {
      ghost var s := Left();
      if input[position] == MINUS {
        assert s[1..] == input[position + 1..];
        position := position + 1;
        if position == |input| {
          ok := Fail(InvalidNumber, position);
          return;
        }
      }
      ghost var t := Left();
      if input[position] == ZERO {
        assert t[1..] == input[position + 1..];
        position := position + 1;
        if position < |input| && IsDigit(input[position]) {
          ok := Fail(InvalidNumber, position);
          return;
        }
      } else if IsDigit(input[position]) {
        SkipDecimalDigits();
      } else {
        ok := Fail(InvalidNumber, position);
        return;
      }
      ok := true;
    }

    method ParseFraction() returns (ok: bool)
      requires Ready()
      modifies this`position, this`error
      ensures position <= |input|
      ensures ok ==> error.NoError? && ReadFraction(old(Left())) == ReadExponent(Left())
      ensures !ok ==> Follows(ReadFraction(old(Left())), ok, ())
    {
      ghost var t := Left();
      if position < |input| && input[position] == POINT {
        assert t[1..] == input[position + 1..];
        position := position + 1;
        if position == |input| || !IsDigit(input[position]) {
          ok := Fail(InvalidNumber, position);
          return;
        }
        SkipDecimalDigits();
      }
      ok := true;
    }

    method ParseExponent() returns (ok: bool)
      requires Ready()
      modifies this`position, this`error
      ensures Follows(ReadExponent(old(Left())), ok, ())
    {
      ghost var t := Left();
      if position < |input| && (input[position] == 0x65 || input[position] == 0x45) {
        assert t[1..] == input[position + 1..];
        position := position + 1;
        if position < |input| && (input[position] == 0x2B || input[position] == MINUS) {
          assert t[1..][1..] == input[position + 1..];
          position := position + 1;
        }
        if position == |input| || !IsDigit(input[position]) {
          ok := Fail(InvalidNumber, position);
          return;
        }
        SkipDecimalDigits();
      }
      ok := true;
    }

    method ParseNumber(ghost depth: nat) returns (ok: bool, output: Value)
      requires Ready() && position < |input| && (input[position] == MINUS || IsDigit(input[position]))
      modifies this`position, this`error
      ensures Used() == old(Used())
      ensures Yields(ReadToken(old(Left()), limits, depth, Used()), ok, output)
    {
      hide ReadNumber, ReadFraction, ReadExponent, ReadText, ReadArray, ReadObject;
      output := Null;
      var start := position;
      ghost var t := Left();
      ok := ParseWhole();
      if ok {
        ok := ParseFraction();
      }
      if ok {
        ok := ParseExponent();
      }
      if ok {
        output := Number(input[start..position]);
        assert t[..|t| - |Left()|] == input[start..position];
      }
    }

    method ParseHex4() returns (ok: bool, value: nat)
      requires Ready()
      modifies this`position, this`error
      ensures Follows(ReadHex(old(Left())), ok, value)
    {
      hide HexDigit;
      value := 0;
      ghost var s, start := Left(), position;
      for index := 0 to 4
        invariant position == start + index <= |input| && error.NoError?
        invariant HexRun(s, 0) == HexRun(s, index) && value == Horner(s, index)
      {
        if position == |input| {
          ok := Fail(InvalidUnicodeEscape, position);
          return;
        }
        assert input[position] == s[index];
        var digit := HexDigit(input[position]);
        if digit < 0 {
          ok := Fail(InvalidUnicodeEscape, position);
          return;
        }
        value := value * 0x10 + digit;
        position := position + 1;
      }
      assert s[4..] == Left();
      HornerIsHex(s);
      ok := true;
    }

    /** One code point copied from the input, if it is well-formed. */
    method CopyValidUtf8(text: seq<Byte>) returns (ok: bool, output: seq<Byte>)
      requires Ready() && position < |input| && input[position] >= 0x80
      modifies this`position, this`error
      ensures position <= |input|
      ensures var n := EncodedLength(old(Left()));
              if n > 0 then ok && error.NoError? && output == text + old(Left())[..n] && Left() == old(Left())[n..]
              else !ok && error == At(InvalidUtf8, |input| - |old(Left())|)
    {
      output := text;
      var start := position;
      var lead := input[position];
      ghost var s := Left();
      var length := if 0xC2 <= lead <= 0xDF then 2 else if 0xE0 <= lead <= 0xEF then 3
                    else if 0xF0 <= lead <= 0xF4 then 4 else 0;
      EncodedByLead(s, length);
      hide Encoded;
      if length == 0 || |input| - position < length {
        ok := Fail(InvalidUtf8, start);
        return;
      }
      var second := input[position + 1];
      assert second == s[1];
      if !Tail(second) || (lead == 0xE0 && second < 0xA0) || (lead == 0xED && second > 0x9F)
         || (lead == 0xF0 && second < 0x90) || (lead == 0xF4 && second > 0x8F) {
        ok := Fail(InvalidUtf8, start);
        return;
      }
      for index := 2 to length
        invariant position == start && error.NoError?
        invariant forall k :: 2 <= k < index ==> Tail(s[k])
      {
        assert input[position + index] == s[index];
        if !Tail(input[position + index]) {
          ok := Fail(InvalidUtf8, start);
          return;
        }
      }
      output := text + input[position..position + length];
      assert s[..length] == input[position..position + length] && s[length..] == input[position + length..];
      position := position + length;
      ok := true;
    }

    method ParseUnicodeEscape(escapeOffset: nat, text: seq<Byte>) returns (ok: bool, output: seq<Byte>)
      requires Ready() && escapeOffset + 2 == position && input[escapeOffset] == BACKSLASH && input[escapeOffset + 1] == LOWER_U
      modifies this`position, this`error
      ensures position <= |input|
      ensures var r := ReadUnit(input[escapeOffset..]);
              if r.Done? then ok && error.NoError? && output == text + r.value && Left() == r.rest
              else !ok && error == At(r.code, |input| - r.left)
    {
      hide ReadHex, Encode;
      output := text;
      assert input[escapeOffset..][2..] == Left();
      var first;
      ok, first := ParseHex4();
      if !ok {
        return;
      }
      var scalar := first;
      if High(first) {
        ghost var rest := Left();
        if |input| - position < 2 || input[position] != BACKSLASH || input[position + 1] != LOWER_U {
          ok := Fail(InvalidUnicodeScalar, escapeOffset);
          return;
        }
        assert rest[2..] == input[position + 2..];
        position := position + 2;
        var second;
        ok, second := ParseHex4();
        if !ok {
          return;
        }
        if !Low(second) {
          ok := Fail(InvalidUnicodeScalar, position - 4);
          return;
        }
        scalar := Paired(first, second);
      } else if Low(first) {
        ok := Fail(InvalidUnicodeScalar, escapeOffset);
        return;
      }
      output := text + Encode(scalar);
    }

    method ParseEscape(text: seq<Byte>) returns (ok: bool, output: seq<Byte>)
      requires Ready() && position < |input| && input[position] == BACKSLASH
      modifies this`position, this`error
      ensures position <= |input|
      ensures var r := ReadEscape(old(Left()));
              if r.Done? then ok && error.NoError? && output == text + r.value && Left() == r.rest
              else !ok && error == At(r.code, |input| - r.left)
    {
      hide ReadUnit;
      output := text;
      var escapeOffset := position;
      position := position + 1;
      if position == |input| {
        ok := Fail(UnexpectedEnd, position);
        return;
      }
      var escape := input[position];
      position := position + 1;
      assert input[escapeOffset..][2..] == Left();
      if Short(escape) >= 0 {
        ok, output := true, text + [Short(escape)];
      } else if escape == LOWER_U {
        ok, output := ParseUnicodeEscape(escapeOffset, text);
      } else {
        ok := Fail(InvalidEscape, position - 1);
      }
    }

    method ParseString() returns (ok: bool, output: seq<Byte>)
      requires Ready() && position < |input| && input[position] == QUOTE
      modifies this`position, this`error
      ensures Follows(ReadText(old(Left())[1..], []), ok, output)
    {
      hide ReadText, ReadEscape, Encoded, EncodedLength;
      output := [];
      assert Left()[1..] == input[position + 1..];
      position := position + 1;
      while position < |input|
        invariant Ready() && ReadText(Left(), output) == ReadText(old(Left())[1..], [])
        decreases |input| - position
      {
        ghost var s := Left();
        ReadTextStep(s, output);
        var byte := input[position];
        if byte == QUOTE {
          assert s[1..] == input[position + 1..];
          position := position + 1;
          ok := true;
          return;
        }
        if byte == BACKSLASH {
          ok, output := ParseEscape(output);
          if !ok {
            return;
          }
          continue;
        }
        if byte <= 0x1F {
          ok := Fail(InvalidString, position);
          return;
        }
        if byte < 0x80 {
          assert s[1..] == input[position + 1..] && s[..1] == [byte];
          AsciiIsEncoded(s);
          output := output + [byte];
          position := position + 1;
          continue;
        }
        ok, output := CopyValidUtf8(output);
        if !ok {
          return;
        }
      }
      ReadTextStep(Left(), output);
      ok := Fail(UnexpectedEnd, position);
    }

    method ParseValue(depth: nat) returns (ok: bool, output: Value)
      requires Ready()
      modifies this`position, this`valueCount, this`containerItemCount, this`error
      ensures Yields(ReadValue(old(Left()), limits, depth, old(Used())), ok, output)
      decreases |input| - position, 2
    {
      hide ReadText, ReadNumber, ReadLiteral, ReadArray, ReadObject;
      output := Null;
      SkipWhitespace();
      if position == |input| {
        ok := Fail(UnexpectedEnd, position);
        return;
      }
      ok := ConsumeValue(position);
      if !ok {
        return;
      }
      var first := input[position];
      if first == NULL_WORD[0] {
        ok := ParseLiteral(NULL_WORD);
      } else if first == TRUE_WORD[0] {
        ok := ParseLiteral(TRUE_WORD);
        output := Bool(true);
      } else if first == FALSE_WORD[0] {
        ok := ParseLiteral(FALSE_WORD);
        output := Bool(false);
      } else if first == QUOTE {
        var text;
        ok, text := ParseString();
        output := Str(text);
      } else if first == OPEN_BRACKET {
        ok, output := ParseArray(depth);
      } else if first == OPEN_BRACE {
        ok, output := ParseObject(depth);
      } else if first == MINUS || IsDigit(first) {
        ok, output := ParseNumber(depth);
      } else {
        ok := Fail(UnexpectedToken, position);
      }
    }

    /** What follows an element or a member: the closing bracket or brace, or a comma. */
    method CloseOrComma(close: Byte) returns (ok: bool, closed: bool)
      requires Ready() && close != COMMA
      modifies this`position, this`error
      ensures var u := SkipBlank(old(Left()));
              && position <= |input|
              && if u == [] then !ok && error == At(UnexpectedEnd, |input|)
                 else if u[0] != close && u[0] != COMMA then !ok && error == At(UnexpectedToken, |input| - |u|)
                 else ok && error.NoError? && (closed <==> u[0] == close) && Left() == u[1..]
    {
      closed := false;
      SkipWhitespace();
      if position == |input| {
        ok := Fail(UnexpectedEnd, position);
        return;
      }
      assert Left()[1..] == input[position + 1..];
      if input[position] == close {
        closed := true;
      } else if input[position] != COMMA {
        ok := Fail(UnexpectedToken, position);
        return;
      }
      position := position + 1;
      ok := true;
    }

    method ParseArray(depth: nat) returns (ok: bool, output: Value)
      requires Ready() && position < |input| && input[position] == OPEN_BRACKET
      modifies this`position, this`valueCount, this`containerItemCount, this`error
      ensures Yields(ReadArray(old(Left()), limits, depth, old(Used())), ok, output)
      decreases |input| - position, 1
    {
      hide ReadValue;
      output := Null;
      var start := position;
      if depth >= limits.depth {
        ok := Fail(NestingTooDeep, start);
        return;
      }
      assert Left()[1..] == input[position + 1..];
      position := position + 1;
      SkipWhitespace();
      if position < |input| && input[position] == CLOSE_BRACKET {
        assert Left()[1..] == input[position + 1..];
        position := position + 1;
        return true, Array([]);
      }
      hide ReadElements;
      var values := [];
      ghost var whole := ReadElements(Left(), limits, depth, Used(), []);
      while true
        invariant Ready() && position > start && ReadElements(Left(), limits, depth, Used(), values) == whole
        decreases |input| - position
      {
        var closed;
        ok, closed, values := ParseElement(depth, values);
        if !ok {
          return;
        }
        if closed {
          return true, Array(values);
        }
      }
    }

    /** One element of an array, with the comma or the bracket after it. */
    method ParseElement(depth: nat, values: seq<Value>) returns (ok: bool, closed: bool, grown: seq<Value>)
      requires Ready()
      modifies this`position, this`valueCount, this`containerItemCount, this`error
      ensures var r := ReadElements(old(Left()), limits, depth, old(Used()), values);
              if ok && !closed then
                && Ready() && position > old(position) && ReadElements(Left(), limits, depth, Used(), grown) == r
              else
                Yields(r, ok, Array(grown))
      decreases |input| - position, 3
    {
      hide ReadValue;
      closed, grown := false, values;
      ok := ConsumeContainerItem(position);
      if !ok {
        return;
      }
      var value;
      ok, value := ParseValue(depth + 1);
      if !ok {
        return;
      }
      grown := values + [value];
      ok, closed := CloseOrComma(CLOSE_BRACKET);
    }

    /** A member's name and its colon; the name must be new. */
    method ParseName(values: map<seq<Byte>, Value>) returns (ok: bool, key: seq<Byte>)
      requires Ready() && position < |input| && input[position] == QUOTE
      modifies this`position, this`error
      ensures Follows(ReadName(old(Left()), values), ok, key)
    {
      hide ReadText;
      var keyOffset := position;
      ok, key := ParseString();
      if !ok {
        return;
      }
      if key in values {
        ok := Fail(DuplicateKey, keyOffset);
        return;
      }
      SkipWhitespace();
      if position == |input| {
        ok := Fail(UnexpectedEnd, position);
        return;
      }
      if input[position] != COLON {
        ok := Fail(UnexpectedToken, position);
        return;
      }
      assert Left()[1..] == input[position + 1..];
      position := position + 1;
    }

    method ParseObject(depth: nat) returns (ok: bool, output: Value)
      requires Ready() && position < |input| && input[position] == OPEN_BRACE
      modifies this`position, this`valueCount, this`containerItemCount, this`error
      ensures Yields(ReadObject(old(Left()), limits, depth, old(Used())), ok, output)
      decreases |input| - position, 1
    {
      hide ReadValue, ReadName;
      output := Null;
      var start := position;
      if depth >= limits.depth {
        ok := Fail(NestingTooDeep, start);
        return;
      }
      assert Left()[1..] == input[position + 1..];
      position := position + 1;
      SkipWhitespace();
      if position < |input| && input[position] == CLOSE_BRACE {
        assert Left()[1..] == input[position + 1..];
        position := position + 1;
        return true, Object(map[]);
      }
      hide ReadFields;
      var values := map[];
      ghost var whole := ReadFields(Left(), limits, depth, Used(), map[]);
      while true
        invariant Ready() && position > start && ReadFields(Left(), limits, depth, Used(), values) == whole
        decreases |input| - position
      {
        var closed;
        ok, closed, values := ParseMember(depth, values);
        if !ok {
          return;
        }
        if closed {
          return true, Object(values);
        }
      }
    }

    /** The beginning of a member, up to its value. */
    method OpenMember(ghost depth: nat, values: map<seq<Byte>, Value>) returns (ok: bool, key: seq<Byte>)
      requires Ready()
      modifies this`position, this`containerItemCount, this`error
      ensures !ok ==> Yields(ReadFields(old(Left()), limits, depth, old(Used()), values), ok, Object(values))
      ensures ok ==>
                var t := SkipBlank(old(Left()));
                && Ready() && t != [] && t[0] == QUOTE && old(Used()).items < limits.items
                && Used() == old(Used()).Add(Usage(0, 1)) && ReadName(t, values) == Done(key, Left())
    {
      hide ReadValue, ReadName;
      key := [];
      SkipWhitespace();
      if position == |input| {
        ok := Fail(UnexpectedEnd, position);
        return;
      }
      if input[position] != QUOTE {
        ok := Fail(UnexpectedToken, position);
        return;
      }
      ok := ConsumeContainerItem(position);
      if !ok {
        return;
      }
      ok, key := ParseName(values);
    }

    /** One member of an object, with the comma or the brace after it. */
    method ParseMember(depth: nat, values: map<seq<Byte>, Value>)
      returns (ok: bool, closed: bool, grown: map<seq<Byte>, Value>)
      requires Ready()
      modifies this`position, this`valueCount, this`containerItemCount, this`error
      ensures var r := ReadFields(old(Left()), limits, depth, old(Used()), values);
              if ok && !closed then
                && Ready() && position > old(position) && ReadFields(Left(), limits, depth, Used(), grown) == r
              else
                Yields(r, ok, Object(grown))
      decreases |input| - position, 3
    {
      hide ReadValue, ReadName, SkipBlank;
      closed, grown := false, values;
      var key, value;
      ok, key := OpenMember(depth, values);
      if !ok {
        return;
      }
      ok, value := ParseValue(depth + 1);
      if !ok {
        return;
      }
      grown := values[key := value];
      ok, closed := CloseOrComma(CLOSE_BRACE);
    }

    /** One value, and nothing but blanks around it. */
    method Run() returns (ok: bool, root: Value)
      requires Ready() && position == 0 && Used() == Usage(0, 0)
      modifies this
      ensures Yields(ReadWhole(input, limits), ok, root)
    {
      hide ReadValue;
      assert Left() == input;
      SkipWhitespace();
      BlankOnce(input, limits, 0, Usage(0, 0));
      ok, root := ParseValue(0);
      if !ok {
        return;
      }
      SkipWhitespace();
      if position != |input| {
        ok := Fail(TrailingCharacters, position);
      }
    }
  }

  /** What the first byte of the rest of a string decides. */
  lemma ReadTextStep(s: seq<Byte>, text: seq<Byte>)
    ensures s == [] ==> ReadText(s, text) == Failed(UnexpectedEnd, 0)
    ensures s != [] && s[0] == QUOTE ==> ReadText(s, text) == Done(text, s[1..])
    ensures s != [] && s[0] == BACKSLASH ==>
              var escape := ReadEscape(s);
              ReadText(s, text) == if escape.Failed? then escape else ReadText(escape.rest, text + escape.value)
    ensures s != [] && s[0] != QUOTE && s[0] != BACKSLASH && s[0] <= 0x1F ==> ReadText(s, text) == Failed(InvalidString, |s|)
    ensures s != [] && s[0] != QUOTE && s[0] != BACKSLASH && s[0] > 0x1F ==>
              var n := EncodedLength(s);
              ReadText(s, text) == if n == 0 then Failed(InvalidUtf8, |s|) else ReadText(s[n..], text + s[..n])
  {
  }

  lemma BlankOnce(s: seq<Byte>, limits: Limits, depth: nat, used: Usage)
    ensures ReadValue(SkipBlank(s), limits, depth, used) == ReadValue(s, limits, depth, used)
  {
    SkipBlankTwice(s);
  }

  lemma SkipBlankTwice(s: seq<Byte>)
    ensures SkipBlank(SkipBlank(s)) == SkipBlank(s)
  {
  }

  /** The entry point: the input's size is checked, then the parser runs on it. */
  method Parse(input: seq<Byte>, options: ParseOptions) returns (result: ParseResult)
    ensures result == ReadDocument(input, options)
  {
    if |input| > options.maxInputBytes {
      return Rejected(InputTooLarge, options.maxInputBytes);
    }
    var parser := new Parser(input, options.Budget());
    var ok, root := parser.Run();
    result := if ok then Parsed(root) else Rejected(parser.error.code, parser.error.offset);
  }

  lemma AsciiIsEncoded(s: seq<Byte>)
    requires s != [] && s[0] < 0x80
    ensures EncodedLength(s) == 1
  {
    assert Encoded(s[..1]);
  }

  /** What the lead byte, the second byte and the rest say is what Table 3-7 says. */
  lemma EncodedByLead(s: seq<Byte>, length: nat)
    requires s != [] && s[0] >= 0x80
    requires length == if 0xC2 <= s[0] <= 0xDF then 2 else if 0xE0 <= s[0] <= 0xEF then 3
                       else if 0xF0 <= s[0] <= 0xF4 then 4 else 0
    ensures EncodedLength(s) == 0 || EncodedLength(s) == length
    ensures EncodedLength(s) > 0 <==>
              && length > 0 && |s| >= length && SecondFits(s[0], s[1])
              && (length > 2 ==> Tail(s[2])) && (length > 3 ==> Tail(s[3]))
  {
    var n := EncodedLength(s);
    if n > 0 {
      assert s[..n][0] == s[0];
    }
    if length > 0 && |s| >= length {
      assert Encoded(s[..length]) <==>
        SecondFits(s[0], s[1]) && (length > 2 ==> Tail(s[2])) && (length > 3 ==> Tail(s[3]));
    }
  }

  /** The first `k` digits of `s`, most significant first. */
  ghost function Horner(s: seq<Byte>, k: nat): int
    requires k <= |s|
  {
    if k == 0 then 0 else Horner(s, k - 1) * 0x10 + HexDigit(s[k - 1])
  }

  lemma HornerIsHex(s: seq<Byte>)
    requires |s| >= 4 && Hex(s[..4])
    ensures Horner(s, 4) == HexValue(s[..4])
  {
    assert Horner(s, 1) == HexDigit(s[0]) && Horner(s, 2) == Horner(s, 1) * 0x10 + HexDigit(s[1]);
    assert Horner(s, 3) == Horner(s, 2) * 0x10 + HexDigit(s[2]);
  }
}
