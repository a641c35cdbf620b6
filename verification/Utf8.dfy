/**
  UTF-8 as the Unicode Standard defines it: well-formed sequences (section 3.9, Table 3-7), maximal
  subparts (definition D93b) and, through RFC 3629 section 3, the scalar values they encode.
 */
module Utf8 {
  import opened Common

  predicate Tail(b: Byte) {
    0x80 <= b <= 0xBF
  }

  /** The rows of Table 3-7: `s` is the whole encoding of one scalar value. */
  predicate Encoded(s: seq<Byte>) {
    match |s|
    case 1 => s[0] <= 0x7F
    case 2 => 0xC2 <= s[0] <= 0xDF && Tail(s[1])
    case 3 =>
      && Tail(s[2])
      && ( || (s[0] == 0xE0 && 0xA0 <= s[1] <= 0xBF)
           || (0xE1 <= s[0] <= 0xEC && Tail(s[1]))
           || (s[0] == 0xED && 0x80 <= s[1] <= 0x9F)
           || (0xEE <= s[0] <= 0xEF && Tail(s[1])))
    case 4 =>
      && Tail(s[2]) && Tail(s[3])
      && ( || (s[0] == 0xF0 && 0x90 <= s[1] <= 0xBF)
           || (0xF1 <= s[0] <= 0xF3 && Tail(s[1]))
           || (s[0] == 0xF4 && 0x80 <= s[1] <= 0x8F))
    case _ => false
  }

  /** `s` is a string of encoded scalar values. */
  predicate WellFormed(s: seq<Byte>)
    decreases |s|
  {
    s == [] || exists n :: 1 <= n <= |s| && n <= 4 && Encoded(s[..n]) && WellFormed(s[n..])
  }

  /** More bytes could make `s` the encoding of a scalar value. */
  ghost predicate Truncated(s: seq<Byte>) {
    s != [] && exists rest: seq<Byte> :: rest != [] && Encoded(s + rest)
  }

  predicate SecondFits(lead: Byte, second: Byte) {
    && Tail(second)
    && (lead == 0xE0 ==> second >= 0xA0) && (lead == 0xED ==> second < 0xA0)
    && (lead == 0xF0 ==> second >= 0x90) && (lead == 0xF4 ==> second < 0x90)
  }

  /** What can be completed, without naming the completion. */
  lemma TruncatedTable(s: seq<Byte>)
    ensures Truncated(s) <==>
      match |s|
      case 1 => 0xC2 <= s[0] <= 0xF4
      case 2 => 0xE0 <= s[0] <= 0xF4 && SecondFits(s[0], s[1])
      case 3 => 0xF0 <= s[0] <= 0xF4 && SecondFits(s[0], s[1]) && Tail(s[2])
      case _ => false
  {
    if 1 <= |s| <= 3 && 0xC2 <= s[0] <= 0xF4 {
      var second: Byte := if |s| > 1 then s[1] else if s[0] == 0xE0 then 0xA0 else if s[0] == 0xF0 then 0x90 else 0x80;
      var third: Byte := if |s| > 2 then s[2] else 0x80;
      var whole: seq<Byte> := if s[0] <= 0xDF then [s[0], second]
                              else if s[0] <= 0xEF then [s[0], second, third]
                              else [s[0], second, third, 0x80];
      if |s| < |whole| {
        assert s + whole[|s|..] == whole;
      }
    }
    if Truncated(s) {
      var rest: seq<Byte> :| rest != [] && Encoded(s + rest);
      var whole := s + rest;
      assert whole[0] == s[0] && (|s| >= 2 ==> whole[1] == s[1]) && (|s| >= 3 ==> whole[2] == s[2]);
    }
  }

  /** The length of the encoding `s` begins with; 0 when it begins with none. */
  function EncodedLength(s: seq<Byte>): (n: nat)
    ensures n <= |s| && n <= 4 && (n > 0 ==> Encoded(s[..n]))
    ensures forall k :: 0 <= k <= |s| && Encoded(s[..k]) ==> k == n
  {
    EncodedOnce(s);
    if |s| >= 1 && Encoded(s[..1]) then 1
    else if |s| >= 2 && Encoded(s[..2]) then 2
    else if |s| >= 3 && Encoded(s[..3]) then 3
    else if |s| >= 4 && Encoded(s[..4]) then 4
    else 0
  }

  /** No encoding is the beginning of another. */
  lemma EncodedOnce(s: seq<Byte>)
    ensures forall j, k :: 0 <= j <= |s| && 0 <= k <= |s| && Encoded(s[..j]) && Encoded(s[..k]) ==> j == k
  {
    forall j, k | 0 <= j <= |s| && 0 <= k <= |s| && Encoded(s[..j]) && Encoded(s[..k])
      ensures j == k
    {
      assert s[..j][0] == s[0] == s[..k][0];
    }
  }

  lemma WellFormedStep(s: seq<Byte>, n: nat)
    requires 0 < n <= |s| && Encoded(s[..n])
    ensures WellFormed(s) <==> WellFormed(s[n..])
  {
    EncodedOnce(s);
  }

  /** The maximal subpart at the start of `s`: the longest beginning that could still be completed, or
      a single byte. */
  ghost function MaximalSubpart(s: seq<Byte>): (n: nat)
    requires s != []
    ensures 1 <= n <= |s| && n <= 3 && (n == 1 || Truncated(s[..n]))
    ensures forall k :: n < k <= |s| ==> !Truncated(s[..k])
  {
    hide Truncated;
    assert forall k :: 3 < k <= |s| ==> !Truncated(s[..k]) by {
      forall k | 3 < k <= |s| ensures !Truncated(s[..k]) {
        TruncatedTable(s[..k]);
      }
    }
    if |s| >= 3 && Truncated(s[..3]) then 3
    else if |s| >= 2 && Truncated(s[..2]) then 2
    else 1
  }

  const REPLACEMENT: seq<Byte> := [0xEF, 0xBF, 0xBD]

  datatype Rendering = Rendering(output: seq<Byte>, kept: seq<Byte>)

  /** Replacement of maximal subparts (Unicode Standard, section 3.9): every encoding is kept, every
      maximal subpart of anything else becomes U+FFFD.  Before the end of the text, a tail that
      could still be completed is kept back. */
  ghost function Render(s: seq<Byte>, final: bool): Rendering
    decreases |s|
  {
    if s == [] then Rendering([], [])
    else if !final && Truncated(s) then Rendering([], s)
    else
      var n := EncodedLength(s);
      if n > 0 then
        var rest := Render(s[n..], final);
        Rendering(s[..n] + rest.output, rest.kept)
      else
        var rest := Render(s[MaximalSubpart(s)..], final);
        Rendering(REPLACEMENT + rest.output, rest.kept)
  }

  lemma TruncatedPrefix(s: seq<Byte>, k: nat)
    requires Truncated(s) && 0 < k <= |s|
    ensures Truncated(s[..k])
  {
    var rest: seq<Byte> :| rest != [] && Encoded(s + rest);
    assert s[..k] + (s[k..] + rest) == s + rest;
  }

  /** What is complete, or already ill-formed, stays so whatever follows. */
  lemma FirstPieceIsStable(s: seq<Byte>, t: seq<Byte>)
    requires s != [] && !Truncated(s)
    ensures !Truncated(s + t) && EncodedLength(s + t) == EncodedLength(s)
    ensures EncodedLength(s) == 0 ==> MaximalSubpart(s + t) == MaximalSubpart(s)
  {
    hide Encoded;
    assert (s + t)[..|s|] == s;
    assert forall k :: 0 <= k <= |s| ==> (s + t)[..k] == s[..k];
    assert forall k :: |s| <= k <= |s + t| ==> (s + t)[..k] == s + t[..k - |s|];
    if Truncated(s + t) {
      TruncatedPrefix(s + t, |s|);
    }
    var n := EncodedLength(s + t);
    forall k | |s| <= k <= |s + t| && Truncated((s + t)[..k])
      ensures false
    {
      assert (s + t)[..k][..|s|] == s;
      TruncatedPrefix((s + t)[..k], |s|);
    }
  }

  lemma RenderWaits(s: seq<Byte>)
    requires s == [] || Truncated(s)
    ensures Render(s, false) == Rendering([], s)
  {
  }

  lemma RenderStep(s: seq<Byte>, final: bool, m: nat, piece: seq<Byte>)
    requires s != [] && (final || !Truncated(s))
    requires if EncodedLength(s) > 0 then m == EncodedLength(s) && piece == s[..m]
             else m == MaximalSubpart(s) && piece == REPLACEMENT
    ensures Render(s, final) == Rendering(piece + Render(s[m..], final).output, Render(s[m..], final).kept)
  {
  }

  /** Rendering `s`, then what was kept followed by `t`, is rendering `s + t`. */
  lemma {:induction false} RenderSplits(s: seq<Byte>, t: seq<Byte>, final: bool)
    ensures var first := Render(s, false);
            var second := Render(first.kept + t, final);
            Render(s + t, final) == Rendering(first.output + second.output, second.kept)
    decreases |s|
  {
    hide Truncated, Encoded, EncodedLength, MaximalSubpart, Render;
    if s == [] || Truncated(s) {
      RenderWaits(s);
    } else {
      FirstPieceIsStable(s, t);
      var n := EncodedLength(s);
      var m := if n > 0 then n else MaximalSubpart(s);
      var piece := if n > 0 then s[..m] else REPLACEMENT;
      assert (s + t)[m..] == s[m..] + t && (s + t)[..m] == s[..m];
      RenderSplits(s[m..], t, final);
      RenderStep(s, false, m, piece);
      RenderStep(s + t, final, m, piece);
      var rest, after := Render(s[m..], false), Render(Render(s[m..], false).kept + t, final);
      assert (piece + rest.output) + after.output == piece + (rest.output + after.output);
    }
  }

  /** The outputs of the calls on successive chunks, the last of them final, joined. */
  ghost function Streamed(kept: seq<Byte>, chunks: seq<seq<Byte>>): seq<Byte>
    requires chunks != []
    decreases |chunks|
  {
    if |chunks| == 1 then Render(kept + chunks[0], true).output
    else
      var r := Render(kept + chunks[0], false);
      r.output + Streamed(r.kept, chunks[1..])
  }

  function Joined(chunks: seq<seq<Byte>>): seq<Byte> {
    if chunks == [] then [] else chunks[0] + Joined(chunks[1..])
  }

  /** However a text is cut into chunks, the client receives what one final call on all of it gives. */
  lemma {:induction false} ChunksDoNotMatter(kept: seq<Byte>, chunks: seq<seq<Byte>>)
    requires chunks != []
    ensures Streamed(kept, chunks) == Render(kept + Joined(chunks), true).output
    decreases |chunks|
  {
    hide Render;
    if |chunks| == 1 {
      assert chunks[0] + Joined(chunks[1..]) == chunks[0];
    } else {
      var r := Render(kept + chunks[0], false);
      ChunksDoNotMatter(r.kept, chunks[1..]);
      RenderSplits(kept + chunks[0], Joined(chunks[1..]), true);
      assert kept + chunks[0] + Joined(chunks[1..]) == kept + Joined(chunks);
    }
  }

  lemma WellFormedJoins(s: seq<Byte>, n: nat, t: seq<Byte>)
    requires 0 < n <= |s| && Encoded(s[..n]) && WellFormed(t)
    ensures WellFormed(s[..n] + t)
  {
    var whole := s[..n] + t;
    assert whole[..n] == s[..n] && whole[n..] == t;
  }

  lemma ReplacementIsEncoded()
    ensures REPLACEMENT[..3] == REPLACEMENT && Encoded(REPLACEMENT) && REPLACEMENT == Encode(0xFFFD)
  {
  }

  /** The client only ever sees well-formed text, and at most three bytes wait for the next call. */
  lemma {:induction false} RenderIsWellFormed(s: seq<Byte>, final: bool)
    ensures WellFormed(Render(s, final).output)
    ensures var kept := Render(s, final).kept;
            && (kept == [] || (!final && Truncated(kept)))
            && |kept| <= 3 && |kept| <= |s| && kept == s[|s| - |kept|..]
    decreases |s|
  {
    hide Truncated, Encoded, EncodedLength, MaximalSubpart;
    if s == [] {
    } else if !final && Truncated(s) {
      TruncatedTable(s);
    } else {
      var n := EncodedLength(s);
      var m := if n > 0 then n else MaximalSubpart(s);
      RenderIsWellFormed(s[m..], final);
      ReplacementIsEncoded();
      WellFormedJoins(if n > 0 then s else REPLACEMENT, if n > 0 then n else 3, Render(s[m..], final).output);
    }
  }

  /** Text is passed through unchanged exactly when it is well-formed. */
  lemma {:induction false} WellFormedIsUnchanged(s: seq<Byte>)
    ensures WellFormed(s) ==> Render(s, false) == Render(s, true) == Rendering(s, [])
    ensures Render(s, true).output == s <==> WellFormed(s)
    decreases |s|
  {
    RenderIsWellFormed(s, true);
    hide Truncated, Encoded, EncodedLength, MaximalSubpart;
    if s != [] && WellFormed(s) {
      var n :| 1 <= n <= |s| && n <= 4 && Encoded(s[..n]) && WellFormed(s[n..]);
      assert EncodedLength(s) == n;
      EncodedIsNotTruncated(s, n);
      RenderStep(s, false, n, s[..n]);
      RenderStep(s, true, n, s[..n]);
      WellFormedIsUnchanged(s[n..]);
      hide Render, WellFormed;
      assert s == s[..n] + s[n..];
    }
  }

  lemma EncodedIsNotTruncated(s: seq<Byte>, n: nat)
    requires 0 < n <= |s| && Encoded(s[..n])
    ensures !Truncated(s)
  {
    if Truncated(s) {
      var rest: seq<Byte> :| rest != [] && Encoded(s + rest);
      assert (s + rest)[..n] == s[..n] && (s + rest)[..|s + rest|] == s + rest by {
        hide Encoded;
      }
      EncodedOnce(s + rest);
    }
  }

  predicate Scalar(v: int) {
    0 <= v <= 0x10FFFF && !(0xD800 <= v <= 0xDFFF)
  }

  /** RFC 3629, section 3: the bits of a scalar value distributed over one to four bytes. */
  function Encode(v: int): (s: seq<Byte>)
    requires 0 <= v <= 0x10FFFF
  {
    if v <= 0x7F then [v]
    else if v <= 0x7FF then [0xC0 + v / 0x40, 0x80 + v % 0x40]
    else if v <= 0xFFFF then [0xE0 + v / 0x1000, 0x80 + v / 0x40 % 0x40, 0x80 + v % 0x40]
    else [0xF0 + v / 0x40000, 0x80 + v / 0x1000 % 0x40, 0x80 + v / 0x40 % 0x40, 0x80 + v % 0x40]
  }

  /** The table and the bit distribution agree on the scalar values: neither lets a surrogate, an
      overlong form or a value past U+10FFFF through. */
  lemma TableIsEncoding(s: seq<Byte>)
    ensures Encoded(s) <==> exists v :: Scalar(v) && s == Encode(v)
  {
    if Encoded(s) {
      DecodeIsScalar(s);
    }
    if v :| Scalar(v) && s == Encode(v) {
      EncodeIsEncoded(v);
    }
  }

  /** The bits `s` carries, in groups of six below the lead byte. */
  function Decode(s: seq<Byte>): int
    requires Encoded(s)
  {
    var t := seq(|s|, i requires 0 <= i < |s| => s[i] as int);
    match |s|
    case 1 => t[0]
    case 2 => Bits(0, 0, t[0] - 0xC0, t[1] - 0x80)
    case 3 => Bits(0, t[0] - 0xE0, t[1] - 0x80, t[2] - 0x80)
    case _ => Bits(t[0] - 0xF0, t[1] - 0x80, t[2] - 0x80, t[3] - 0x80)
  }

  function Bits(a: int, b: int, c: int, d: int): int {
    a * 0x40000 + b * 0x1000 + c * 0x40 + d
  }

  lemma BitsApart(a: int, b: int, c: int, d: int)
    requires 0 <= b < 0x40 && 0 <= c < 0x40 && 0 <= d < 0x40
    ensures var v := Bits(a, b, c, d);
            v / 0x40000 == a && v / 0x1000 % 0x40 == b && v / 0x40 % 0x40 == c && v % 0x40 == d
    ensures Bits(a, b, c, d) / 0x1000 == a * 0x40 + b && Bits(a, b, c, d) / 0x40 == a * 0x1000 + b * 0x40 + c
  {
    assert Bits(a, b, c, d) == (a * 0x1000 + b * 0x40 + c) * 0x40 + d;
    assert Bits(a, b, c, d) / 0x1000 == a * 0x40 + b;
  }

  lemma EncodeBits(a: int, b: int, c: int, d: int)
    requires 0 <= a < 0x10 && 0 <= b < 0x40 && 0 <= c < 0x40 && 0 <= d < 0x40 && Bits(a, b, c, d) <= 0x10FFFF
    ensures Bits(a, b, c, d) > 0xFFFF ==> Encode(Bits(a, b, c, d)) == [0xF0 + a, 0x80 + b, 0x80 + c, 0x80 + d]
    ensures a == 0 && b < 0x10 && Bits(a, b, c, d) > 0x7FF ==> Encode(Bits(a, b, c, d)) == [0xE0 + b, 0x80 + c, 0x80 + d]
    ensures a == b == 0 && c < 0x20 && Bits(a, b, c, d) > 0x7F ==> Encode(Bits(a, b, c, d)) == [0xC0 + c, 0x80 + d]
  {
    assert a == 0 && b < 0x10 ==> Bits(a, b, c, d) <= 0xFFFF;
    assert a == b == 0 && c < 0x20 ==> Bits(a, b, c, d) <= 0x7FF;
    assert Bits(a, b, c, d) >= 0;
    BitsApart(a, b, c, d);
    hide Bits;
  }

  lemma EncodeAscii(v: int)
    requires 0 <= v <= 0x7F
    ensures Encode(v) == [v]
  {
  }

  lemma DecodeIsScalar(s: seq<Byte>)
    requires Encoded(s)
    ensures Scalar(Decode(s)) && Encode(Decode(s)) == s
  {
    hide Encode;
    var t := seq(|s|, i requires 0 <= i < |s| => s[i] as int);
    match |s|
    case 1 => EncodeAscii(t[0]);
    case 2 => EncodeBits(0, 0, t[0] - 0xC0, t[1] - 0x80);
    case 3 => EncodeBits(0, t[0] - 0xE0, t[1] - 0x80, t[2] - 0x80);
    case _ => EncodeBits(t[0] - 0xF0, t[1] - 0x80, t[2] - 0x80, t[3] - 0x80);
  }

  lemma EncodeIsEncoded(v: int)
    requires 0 <= v <= 0x10FFFF
    ensures Encoded(Encode(v)) <==> Scalar(v)
  {
    assert v / 0x40 / 0x40 == v / 0x1000 && v / 0x1000 / 0x40 == v / 0x40000;
  }
}
