/**
  The header of a safetensors file, as a parsed JSON document.
 */
module SafetensorsHeader {
  import opened Common
  import opened Utf8
  import opened JsonSyntax
  import opened Coverage

  const METADATA := Ascii("__metadata__")
  const DTYPE := Ascii("dtype")
  const SHAPE := Ascii("shape")
  const DATA_OFFSETS := Ascii("data_offsets")

  /** The bits of one element; 0 for a name that is no dtype. */
  function BitWidth(name: seq<Byte>): nat {
    if name == Ascii("F4") then 4
    else if name == Ascii("F6_E2M3") || name == Ascii("F6_E3M2") then 6
    else if name == Ascii("BOOL") || name == Ascii("U8") || name == Ascii("I8") || name == Ascii("F8_E5M2")
            || name == Ascii("F8_E4M3") || name == Ascii("F8_E8M0") || name == Ascii("F8_E4M3FNUZ")
            || name == Ascii("F8_E5M2FNUZ") then 8
    else if name == Ascii("I16") || name == Ascii("U16") || name == Ascii("F16") || name == Ascii("BF16") then 16
    else if name == Ascii("I32") || name == Ascii("U32") || name == Ascii("F32") then 32
    else if name == Ascii("C64") || name == Ascii("F64") || name == Ascii("I64") || name == Ascii("U64") then 64
    else 0
  }

  function Decimal(digits: seq<Byte>): nat
    requires Digits(digits)
  {
    if digits == [] then 0 else Decimal(digits[..|digits| - 1]) * 10 + (digits[|digits| - 1] - ZERO)
  }

  /** A JSON number that is an unsigned 64-bit integer, spelled with digits only. */
  function ToUint64(v: Value): (r: Option<nat>)
    ensures r.Some? ==> r.value <= UINT64_MAX
  {
    if v.Number? && v.text != [] && Digits(v.text) && Decimal(v.text) <= UINT64_MAX then Some(Decimal(v.text)) else None
  }

  /** Of the numerals of the grammar exactly those are accepted that have no sign, fraction or exponent and fit. */
  lemma ToUint64OfNumeral(n: Numeral)
    requires n.Valid()
    ensures ToUint64(Number(n.Text())) ==
            if !n.negative && n.fraction == [] && n.exponent == [] && Decimal(n.whole) <= UINT64_MAX then Some(Decimal(n.whole))
            else None
  {
    hide Decimal;
    var text := n.Text();
    var tail := FractionText(n.fraction) + ExponentText(n.mark, n.sign, n.exponent);
    if n.negative {
      assert text[0] == MINUS;
    } else {
      assert text == n.whole + tail;
      if tail == [] {
        assert text == n.whole;
      } else {
        assert text[|n.whole|] == tail[0] && !IsDigit(tail[0]);
      }
    }
  }

  /** A number as it is written in decimal. */
  function DecimalText(n: nat): (text: seq<Byte>)
    ensures text != []
  {
    var last := [Ascii("0123456789")[n % 10]];
    if n < 10 then last else DecimalText(n / 10) + last
  }

  lemma DecimalDigit(d: nat)
    requires d < 10
    ensures Ascii("0123456789")[d] == ZERO + d && IsDigit(ZERO + d)
  {
  }

  lemma {:induction false} DecimalIsReadBack(n: nat)
    ensures Digits(DecimalText(n)) && Decimal(DecimalText(n)) == n
  {
    DecimalDigit(n % 10);
    hide Ascii;
    var text, last := DecimalText(n), [ZERO + n % 10];
    if n < 10 {
      assert text == last && last[..0] == [];
    } else {
      DecimalIsReadBack(n / 10);
      assert text == DecimalText(n / 10) + last && text[..|text| - 1] == DecimalText(n / 10);
    }
  }

  /** A number that fits 64 bits, written in decimal, is read back; a larger one is refused. */
  lemma NumbersAreReadBack(n: nat)
    ensures ToUint64(Number(DecimalText(n))) == if n <= UINT64_MAX then Some(n) else None
  {
    DecimalIsReadBack(n);
  }

  /** The dtype of four bits. */
  lemma WidthOfHalfByte(name: string)
    requires name == "F4"
    ensures BitWidth(Ascii(name)) == 4
  {
    var n := Ascii(name);
    assert |n| == 2 && n[0] == 0x46 && n[1] == 0x34;
  }

  /** The dtypes of six bits. */
  lemma WidthsOfSixBits(name: string)
    requires name == "F6_E2M3" || name == "F6_E3M2"
    ensures BitWidth(Ascii(name)) == 6
  {
    var n := Ascii(name);
    assert |n| == 7 && n[0] == 0x46 && n[1] == 0x36 && n[2] == 0x5F && n[3] == 0x45;
  }

  /** The dtypes of one byte. */
  lemma WidthsOfBytes(name: string)
    requires name == "BOOL" || name == "U8" || name == "I8"
    ensures BitWidth(Ascii(name)) == 8
  {
    var n := Ascii(name);
    assert name == "BOOL" ==> |n| == 4 && n[0] == 0x42 && n[1] == 0x4F && n[2] == 0x4F && n[3] == 0x4C;
    assert name == "U8" || name == "I8" ==> |n| == 2 && n[1] == 0x38;
  }

  /** The floating-point dtypes of one byte. */
  lemma WidthsOfByteFloats(name: string)
    requires name == "F8_E5M2" || name == "F8_E4M3" || name == "F8_E8M0" || name == "F8_E4M3FNUZ" || name == "F8_E5M2FNUZ"
    ensures BitWidth(Ascii(name)) == 8
  {
    var n := Ascii(name);
    assert name == "F8_E5M2" || name == "F8_E4M3" || name == "F8_E8M0" ==>
             |n| == 7 && n[0] == 0x46 && n[1] == 0x38 && n[2] == 0x5F && n[3] == 0x45;
    assert name == "F8_E4M3FNUZ" || name == "F8_E5M2FNUZ" ==>
             |n| == 11 && n[0] == 0x46 && n[1] == 0x38 && n[2] == 0x5F && n[3] == 0x45;
  }

  /** The dtypes of two bytes. */
  lemma WidthsOfHalves(name: string)
    requires name == "I16" || name == "U16" || name == "F16" || name == "BF16"
    ensures BitWidth(Ascii(name)) == 16
  {
    var n := Ascii(name);
    assert name == "I16" || name == "U16" || name == "F16" ==> |n| == 3 && n[1] == 0x31 && n[2] == 0x36;
    assert name == "BF16" ==> |n| == 4 && n[0] == 0x42 && n[1] == 0x46 && n[2] == 0x31 && n[3] == 0x36;
  }

  /** The dtypes of four bytes. */
  lemma WidthsOfWords(name: string)
    requires name == "I32" || name == "U32" || name == "F32"
    ensures BitWidth(Ascii(name)) == 32
  {
    var n := Ascii(name);
    assert |n| == 3 && n[1] == 0x33 && n[2] == 0x32;
  }

  /** The dtypes of eight bytes. */
  lemma WidthsOfLongs(name: string)
    requires name == "C64" || name == "F64" || name == "I64" || name == "U64"
    ensures BitWidth(Ascii(name)) == 64
  {
    var n := Ascii(name);
    assert |n| == 3 && n[1] == 0x36 && n[2] == 0x34;
  }

  datatype Tensor = Tensor(bits: nat, shape: seq<nat>, elements: nat, bytes: nat, begin: nat, end: nat)

  datatype HeaderError =
    | HeaderNotObject | InvalidHeaderLength | TooManyTensors | InvalidMetadata | TensorDescriptorNotObject
    | UnknownTensorField | MissingTensorField | UnsupportedDType | InvalidShape | RankLimitExceeded
    | ArithmeticOverflow | MisalignedTensor | InvalidDataOffsets | TensorSizeMismatch | DataOutOfRange
    | OverlappingData | DataGap | DataNotFullyCovered

  datatype Result<T> = Success(value: T) | Failure(error: HeaderError)

  function Product(shape: seq<nat>): nat {
    if shape == [] then 1 else Product(shape[..|shape| - 1]) * shape[|shape| - 1]
  }

  /** No running product leaves the 64 bits it is kept in, so none wraps around. */
  predicate NoOverflow(shape: seq<nat>) {
    forall i :: 0 <= i <= |shape| ==> Product(shape[..i]) <= UINT64_MAX
  }

  function CheckedMultiply(left: nat, right: nat): (r: Option<nat>)
    requires left <= UINT64_MAX && right <= UINT64_MAX
    ensures r == if left * right <= UINT64_MAX then Some(left * right) else None
  {
    if left != 0 && right > UINT64_MAX / left then
      OverflowCheck(left, right);
      None
    else
      assert left * right <= UINT64_MAX by {
        if left != 0 {
          OverflowCheck(left, right);
        }
      }
      Some(left * right)
  }

  /** The division that guards the product is exact. */
  lemma OverflowCheck(left: nat, right: nat)
    requires left != 0
    ensures right > UINT64_MAX / left <==> left * right > UINT64_MAX
  {
    var q := UINT64_MAX / left;
    assert left * q <= UINT64_MAX < left * (q + 1);
    if right > q {
      assert left * right >= left * (q + 1);
    } else {
      assert left * right <= left * q;
    }
  }

  /** The dimensions of a shape. */
  ghost predicate ShapeOf(v: Value, maxRank: nat, shape: seq<nat>) {
    && v.Array? && |v.values| == |shape| <= maxRank
    && forall i :: 0 <= i < |shape| ==> ToUint64(v.values[i]) == Some(shape[i])
  }

  ghost predicate OffsetsOf(v: Value, begin: nat, end: nat) {
    v.Array? && |v.values| == 2 && ToUint64(v.values[0]) == Some(begin) && ToUint64(v.values[1]) == Some(end)
  }

  /** A descriptor has the three known fields and no other; its size is what its shape and element
      width say, computed without wrap-around, and its bytes lie within the data. */
  ghost predicate Describes(v: Value, maxRank: nat, dataSize: nat, t: Tensor) {
    && v.Object? && v.members.Keys == {DTYPE, SHAPE, DATA_OFFSETS}
    && v.members[DTYPE].Str? && t.bits == BitWidth(v.members[DTYPE].bytes) > 0
    && ShapeOf(v.members[SHAPE], maxRank, t.shape) && NoOverflow(t.shape)
    && t.elements == Product(t.shape) && t.elements * t.bits <= UINT64_MAX && t.elements * t.bits == t.bytes * 8
    && OffsetsOf(v.members[DATA_OFFSETS], t.begin, t.end) && t.begin + t.bytes == t.end <= dataSize
  }

  lemma EmptyShape()
    ensures NoOverflow([]) && Product([]) == 1
  {
  }

  lemma OverflowStays(shape: seq<nat>, n: nat)
    requires n <= |shape| && Product(shape[..n]) > UINT64_MAX
    ensures !NoOverflow(shape)
  {
  }

  lemma ShapeGrows(shape: seq<nat>, dimension: nat)
    requires NoOverflow(shape)
    ensures Product(shape) <= UINT64_MAX && Product(shape + [dimension]) == Product(shape) * dimension
    ensures NoOverflow(shape + [dimension]) <==> Product(shape) * dimension <= UINT64_MAX
  {
    var grown := shape + [dimension];
    assert shape[..|shape|] == shape && grown[..|shape|] == shape && grown[..|shape| + 1] == grown;
    assert forall k :: 0 <= k <= |shape| ==> grown[..k] == shape[..k];
  }

  method ReadShape(v: Value, maxRank: nat) returns (r: Result<(seq<nat>, nat)>)
    ensures r.Success? ==> ShapeOf(v, maxRank, r.value.0) && NoOverflow(r.value.0) && r.value.1 == Product(r.value.0)
    ensures r.Failure? ==> forall shape :: !(ShapeOf(v, maxRank, shape) && NoOverflow(shape))
  {
    hide ToUint64, NoOverflow, Product;
    assert NoOverflow([]) && Product([]) == 1 by {
      EmptyShape();
    }
    if !v.Array? {
      return Failure(InvalidShape);
    }
    if |v.values| > maxRank {
      return Failure(RankLimitExceeded);
    }
    var shape, elements := [], 1;
    for i := 0 to |v.values|
      invariant |shape| == i && forall k :: 0 <= k < i ==> ToUint64(v.values[k]) == Some(shape[k])
      invariant elements == Product(shape) && NoOverflow(shape)
    {
      var dimension := ToUint64(v.values[i]);
      if dimension.None? {
        return Failure(InvalidShape);
      }
      ShapeGrows(shape, dimension.value);
      shape := shape + [dimension.value];
      var product := CheckedMultiply(elements, dimension.value);
      if product.None? {
        forall other | ShapeOf(v, maxRank, other)
          ensures !NoOverflow(other)
        {
          assert other[..i + 1] == shape;
          OverflowStays(other, i + 1);
        }
        return Failure(ArithmeticOverflow);
      }
      elements := product.value;
    }
    r := Success((shape, elements));
  }

  predicate KnownField(name: seq<Byte>) {
    name == DTYPE || name == SHAPE || name == DATA_OFFSETS
  }

  method ReadTensor(v: Value, maxRank: nat, dataOffset: nat, dataSize: nat) returns (r: Result<Tensor>)
    requires dataOffset + dataSize <= UINT64_MAX
    ensures r.Success? ==> Describes(v, maxRank, dataSize, r.value)
    ensures r.Failure? ==> forall t :: !Describes(v, maxRank, dataSize, t)
  {
    hide BitWidth, ToUint64, NoOverflow, Product;
    if !v.Object? {
      return Failure(TensorDescriptorNotObject);
    }
    if exists field :: field in v.members.Keys && !KnownField(field) {
      return Failure(UnknownTensorField);
    }
    if DTYPE !in v.members || SHAPE !in v.members || DATA_OFFSETS !in v.members {
      return Failure(MissingTensorField);
    }
    assert v.members.Keys == {DTYPE, SHAPE, DATA_OFFSETS};
    if !v.members[DTYPE].Str? || BitWidth(v.members[DTYPE].bytes) == 0 {
      return Failure(UnsupportedDType);
    }
    var bits := BitWidth(v.members[DTYPE].bytes);
    var read := ReadShape(v.members[SHAPE], maxRank);
    if read.Failure? {
      return Failure(read.error);
    }
    var (shape, elements) := read.value;
    OneShape(v.members[SHAPE], maxRank);
    WidthFits(v.members[DTYPE].bytes);
    assert elements <= UINT64_MAX by {
      ProductFits(shape);
    }
    var bitCount := CheckedMultiply(elements, bits);
    if bitCount.None? {
      return Failure(ArithmeticOverflow);
    }
    if bitCount.value % 8 != 0 {
      return Failure(MisalignedTensor);
    }
    var bytes := bitCount.value / 8;
    var offsets := v.members[DATA_OFFSETS];
    if !offsets.Array? || |offsets.values| != 2 {
      return Failure(InvalidDataOffsets);
    }
    var begin, end := ToUint64(offsets.values[0]), ToUint64(offsets.values[1]);
    if begin.None? || end.None? || end.value < begin.value {
      return Failure(InvalidDataOffsets);
    }
    if end.value - begin.value != bytes {
      return Failure(TensorSizeMismatch);
    }
    if begin.value > dataSize || end.value > dataSize {
      return Failure(DataOutOfRange);
    }
    if begin.value > UINT64_MAX - dataOffset || end.value > UINT64_MAX - dataOffset {
      return Failure(ArithmeticOverflow);
    }
    r := Success(Tensor(bits, shape, elements, bytes, begin.value, end.value));
  }

  lemma OneShape(v: Value, maxRank: nat)
    ensures forall a, b :: ShapeOf(v, maxRank, a) && ShapeOf(v, maxRank, b) ==> a == b
  {
    hide ToUint64;
    forall a, b | ShapeOf(v, maxRank, a) && ShapeOf(v, maxRank, b) ensures a == b {
      assert forall i :: 0 <= i < |a| ==> Some(a[i]) == ToUint64(v.values[i]) == Some(b[i]);
    }
  }

  lemma WidthFits(name: seq<Byte>)
    ensures BitWidth(name) <= 64
  {
    hide Ascii;
  }

  lemma ProductFits(shape: seq<nat>)
    requires NoOverflow(shape)
    ensures Product(shape) <= UINT64_MAX
  {
    assert shape[..|shape|] == shape;
  }

  datatype Header = Header(dataOffset: nat, dataSize: nat, tensors: map<seq<Byte>, Tensor>, metadata: map<seq<Byte>, Value>)

  datatype ReadOptions = ReadOptions(maxTensors: nat, maxRank: nat)

  ghost function RangeOf(name: seq<Byte>, t: Tensor): Range<seq<Byte>> {
    Range(t.begin, t.end, name)
  }

  ghost function RangesOf(tensors: map<seq<Byte>, Tensor>): set<Range<seq<Byte>>> {
    set name | name in tensors :: RangeOf(name, tensors[name])
  }

  /** A header the file's format allows: every entry describes a tensor (or is text metadata), and the
      tensors cover the data exactly. */
  ghost predicate HeaderOf(document: Value, fileSize: nat, headerSize: nat, options: ReadOptions, h: Header) {
    && document.Object? && 8 + headerSize <= fileSize
    && h.dataOffset == 8 + headerSize && h.dataOffset + h.dataSize == fileSize
    && h.tensors.Keys == document.members.Keys - {METADATA} && |h.tensors| <= options.maxTensors
    && MetadataOf(document.members, h.metadata)
    && (forall name :: name in h.tensors ==>
          Describes(document.members[name], options.maxRank, h.dataSize, h.tensors[name]))
    && ExactCover(multiset(RangesOf(h.tensors)), h.dataSize)
  }

  ghost predicate MetadataOf(members: map<seq<Byte>, Value>, metadata: map<seq<Byte>, Value>) {
    if METADATA in members then
      members[METADATA].Object? && metadata == members[METADATA].members && forall k :: k in metadata ==> metadata[k].Str?
    else
      metadata == map[]
  }

  /** What the entries read so far say. */
  ghost predicate Entries(members: map<seq<Byte>, Value>, done: set<seq<Byte>>, options: ReadOptions, dataSize: nat,
                          tensors: map<seq<Byte>, Tensor>, ranges: seq<Range<seq<Byte>>>)
  {
    && done <= members.Keys && tensors.Keys == done - {METADATA}
    && (forall name :: name in tensors ==> Describes(members[name], options.maxRank, dataSize, tensors[name]))
    && multiset(ranges) == multiset(RangesOf(tensors))
  }

  lemma EntryAdded(members: map<seq<Byte>, Value>, done: set<seq<Byte>>, options: ReadOptions, dataSize: nat,
                   tensors: map<seq<Byte>, Tensor>, ranges: seq<Range<seq<Byte>>>, name: seq<Byte>, t: Tensor)
    requires Entries(members, done, options, dataSize, tensors, ranges)
    requires name in members && name !in done && name != METADATA && Describes(members[name], options.maxRank, dataSize, t)
    ensures Entries(members, done + {name}, options, dataSize, tensors[name := t], ranges + [RangeOf(name, t)])
  {
    RangesGrow(tensors, name, t);
    hide Describes, RangesOf;
  }

  lemma RangesGrow(tensors: map<seq<Byte>, Tensor>, name: seq<Byte>, t: Tensor)
    requires name !in tensors
    ensures multiset(RangesOf(tensors[name := t])) == multiset(RangesOf(tensors)) + multiset{RangeOf(name, t)}
  {
    var grown := tensors[name := t];
    forall r | r in RangesOf(tensors) ensures r in RangesOf(grown) {
      assert r.name in tensors && r == RangeOf(r.name, grown[r.name]);
    }
    assert RangeOf(name, grown[name]) in RangesOf(grown);
    assert RangesOf(grown) == RangesOf(tensors) + {RangeOf(name, t)};
    assert RangeOf(name, t) !in RangesOf(tensors);
  }

  lemma RangesWithinData(members: map<seq<Byte>, Value>, done: set<seq<Byte>>, options: ReadOptions, dataSize: nat,
                         tensors: map<seq<Byte>, Tensor>, ranges: seq<Range<seq<Byte>>>)
    requires Entries(members, done, options, dataSize, tensors, ranges)
    ensures WithinData(multiset(ranges), dataSize)
  {
    hide BitWidth, ToUint64, NoOverflow, Product, ShapeOf, OffsetsOf;
  }

  /** The descriptors determine the tensors. */
  lemma OneTensor(v: Value, maxRank: nat, dataSize: nat, a: Tensor, b: Tensor)
    requires Describes(v, maxRank, dataSize, a) && Describes(v, maxRank, dataSize, b)
    ensures a == b
  {
    hide BitWidth, ToUint64, NoOverflow, Product;
    OneShape(v.members[SHAPE], maxRank);
  }

  lemma OneHeader(document: Value, fileSize: nat, headerSize: nat, options: ReadOptions, a: Header, b: Header)
    requires document.Object? && a.tensors.Keys == b.tensors.Keys <= document.members.Keys && a.dataSize == b.dataSize
    requires forall name :: name in a.tensors ==>
               && Describes(document.members[name], options.maxRank, a.dataSize, a.tensors[name])
               && Describes(document.members[name], options.maxRank, b.dataSize, b.tensors[name])
    ensures a.tensors == b.tensors
  {
    hide Describes;
    forall name | name in a.tensors ensures a.tensors[name] == b.tensors[name] {
      OneTensor(document.members[name], options.maxRank, a.dataSize, a.tensors[name], b.tensors[name]);
    }
  }

  /** Text metadata, if there is any. */
  method ReadMetadata(members: map<seq<Byte>, Value>) returns (r: Result<map<seq<Byte>, Value>>)
    ensures r.Success? ==> MetadataOf(members, r.value)
    ensures r.Failure? ==> forall metadata :: !MetadataOf(members, metadata)
  {
    if METADATA !in members {
      return Success(map[]);
    }
    if !members[METADATA].Object? {
      return Failure(InvalidMetadata);
    }
    var metadata := members[METADATA].members;
    if exists k :: k in metadata.Keys && !metadata[k].Str? {
      return Failure(InvalidMetadata);
    }
    r := Success(metadata);
  }

  /** The tensors of the document's entries. */
  method ReadEntries(members: map<seq<Byte>, Value>, dataOffset: nat, dataSize: nat, options: ReadOptions)
    returns (r: Result<(map<seq<Byte>, Tensor>, seq<Range<seq<Byte>>>)>)
    requires dataOffset + dataSize <= UINT64_MAX
    ensures r.Success? ==> Entries(members, members.Keys, options, dataSize, r.value.0, r.value.1)
    ensures r.Failure? ==> exists name :: name in members && name != METADATA
                             && forall t :: !Describes(members[name], options.maxRank, dataSize, t)
  {
    hide Describes, Entries;
    var tensors: map<seq<Byte>, Tensor>, ranges: seq<Range<seq<Byte>>> := map[], [];
    var left := members.Keys;
    NoEntries(members, options, dataSize);
    assert members.Keys - left == {};
    while left != {}
      invariant left <= members.Keys && Entries(members, members.Keys - left, options, dataSize, tensors, ranges)
      decreases |left|
    {
      var name :| name in left;
      ghost var done := members.Keys - left;
      left := left - {name};
      assert members.Keys - left == done + {name};
      if name == METADATA {
        MetadataSkipped(members, done, options, dataSize, tensors, ranges);
      } else {
        var tensor := ReadTensor(members[name], options.maxRank, dataOffset, dataSize);
        if tensor.Failure? {
          return Failure(tensor.error);
        }
        EntryAdded(members, done, options, dataSize, tensors, ranges, name, tensor.value);
        tensors := tensors[name := tensor.value];
        ranges := ranges + [Range(tensor.value.begin, tensor.value.end, name)];
      }
    }
    assert members.Keys - {} == members.Keys;
    r := Success((tensors, ranges));
  }

  lemma NoEntries(members: map<seq<Byte>, Value>, options: ReadOptions, dataSize: nat)
    ensures Entries(members, {}, options, dataSize, map[], [])
  {
  }

  lemma MetadataSkipped(members: map<seq<Byte>, Value>, done: set<seq<Byte>>, options: ReadOptions, dataSize: nat,
                        tensors: map<seq<Byte>, Tensor>, ranges: seq<Range<seq<Byte>>>)
    requires Entries(members, done, options, dataSize, tensors, ranges) && METADATA in members
    ensures Entries(members, done + {METADATA}, options, dataSize, tensors, ranges)
  {
    hide Describes;
    assert done + {METADATA} - {METADATA} == done - {METADATA};
  }

  /** The header is accepted exactly when the format allows it. */
  method ParseHeader(document: Value, fileSize: nat, headerSize: nat, options: ReadOptions) returns (r: Result<Header>)
    requires fileSize <= UINT64_MAX
    ensures r.Success? ==> HeaderOf(document, fileSize, headerSize, options, r.value)
    ensures r.Failure? ==> forall h :: !HeaderOf(document, fileSize, headerSize, options, h)
  {
    hide Describes, Entries, MetadataOf, ExactCover, RangesOf, HeaderOf, Covered;
    Requirements(document, fileSize, headerSize, options);
    if !document.Object? {
      return Failure(HeaderNotObject);
    }
    if headerSize > UINT64_MAX - 8 || 8 + headerSize > fileSize {
      return Failure(InvalidHeaderLength);
    }
    var dataOffset := 8 + headerSize;
    var dataSize := fileSize - dataOffset;
    if |document.members.Keys - {METADATA}| > options.maxTensors {
      return Failure(TooManyTensors);
    }
    var metadata := ReadMetadata(document.members);
    if metadata.Failure? {
      return Failure(metadata.error);
    }
    var entries := ReadEntries(document.members, dataOffset, dataSize, options);
    if entries.Failure? {
      BadEntry(document, fileSize, headerSize, options, dataSize);
      return Failure(entries.error);
    }
    var (tensors, ranges) := entries.value;
    var h := Header(dataOffset, dataSize, tensors, metadata.value);
    RangesWithinData(document.members, document.members.Keys, options, dataSize, tensors, ranges);
    EntriesFacts(document.members, options, dataSize, tensors, ranges);
    HeaderIfExact(document, fileSize, headerSize, options, h);
    var verdict := Sweep(ranges, dataSize);
    if !verdict.Exact? {
      return Failure(if verdict.Overlapping? then OverlappingData else if verdict.Gap? then DataGap else DataNotFullyCovered);
    }
    r := Success(h);
  }

  /** What every header needs, whatever its tensors turn out to be. */
  lemma Requirements(document: Value, fileSize: nat, headerSize: nat, options: ReadOptions)
    ensures forall h :: HeaderOf(document, fileSize, headerSize, options, h) ==>
              && document.Object? && 8 + headerSize <= fileSize
              && |document.members.Keys - {METADATA}| <= options.maxTensors
              && MetadataOf(document.members, h.metadata)
  {
    hide Describes, MetadataOf, ExactCover, RangesOf;
    assert forall h: Header :: |h.tensors| == |h.tensors.Keys|;
  }

  lemma BadEntry(document: Value, fileSize: nat, headerSize: nat, options: ReadOptions, dataSize: nat)
    requires document.Object? && 8 + headerSize + dataSize == fileSize
    requires exists name :: name in document.members && name != METADATA
               && forall t :: !Describes(document.members[name], options.maxRank, dataSize, t)
    ensures forall h :: !HeaderOf(document, fileSize, headerSize, options, h)
  {
    hide Describes, MetadataOf, ExactCover, RangesOf;
    var name :| name in document.members && name != METADATA
                && forall t :: !Describes(document.members[name], options.maxRank, dataSize, t);
    forall h
      ensures !HeaderOf(document, fileSize, headerSize, options, h)
    {
      if document.members.Keys - {METADATA} == h.tensors.Keys && h.dataSize == dataSize {
        assert name in h.tensors && !Describes(document.members[name], options.maxRank, dataSize, h.tensors[name]);
      }
    }
  }

  lemma HeaderIfExact(document: Value, fileSize: nat, headerSize: nat, options: ReadOptions, h: Header)
    requires document.Object? && h.dataOffset == 8 + headerSize && h.dataOffset + h.dataSize == fileSize
    requires h.tensors.Keys == document.members.Keys - {METADATA} && |document.members.Keys - {METADATA}| <= options.maxTensors
    requires MetadataOf(document.members, h.metadata)
    requires forall name :: name in h.tensors ==>
               Describes(document.members[name], options.maxRank, h.dataSize, h.tensors[name])
    ensures ExactCover(multiset(RangesOf(h.tensors)), h.dataSize) ==>
              HeaderOf(document, fileSize, headerSize, options, h)
    ensures !ExactCover(multiset(RangesOf(h.tensors)), h.dataSize) ==>
              forall other :: !HeaderOf(document, fileSize, headerSize, options, other)
  {
    hide Describes, MetadataOf, ExactCover, RangesOf;
    assert |h.tensors| == |h.tensors.Keys|;
    forall other | HeaderOf(document, fileSize, headerSize, options, other)
      ensures ExactCover(multiset(RangesOf(h.tensors)), h.dataSize)
    {
      ExactForBoth(document, fileSize, headerSize, options, h, other);
    }
  }

  /** What one header of a document covers exactly, another one does. */
  lemma ExactForBoth(document: Value, fileSize: nat, headerSize: nat, options: ReadOptions, h: Header, other: Header)
    requires HeaderOf(document, fileSize, headerSize, options, other)
    requires document.Object? && h.dataOffset == 8 + headerSize && h.dataOffset + h.dataSize == fileSize
    requires h.tensors.Keys == document.members.Keys - {METADATA}
    requires forall name :: name in h.tensors ==>
               Describes(document.members[name], options.maxRank, h.dataSize, h.tensors[name])
    ensures ExactCover(multiset(RangesOf(h.tensors)), h.dataSize)
  {
    hide Describes, MetadataOf, ExactCover, RangesOf;
    OneHeader(document, fileSize, headerSize, options, h, other);
  }

  lemma EntriesFacts(members: map<seq<Byte>, Value>, options: ReadOptions, dataSize: nat,
                     tensors: map<seq<Byte>, Tensor>, ranges: seq<Range<seq<Byte>>>)
    requires Entries(members, members.Keys, options, dataSize, tensors, ranges)
    ensures tensors.Keys == members.Keys - {METADATA} && multiset(ranges) == multiset(RangesOf(tensors))
    ensures forall name :: name in tensors ==> Describes(members[name], options.maxRank, dataSize, tensors[name])
  {
  }
}
