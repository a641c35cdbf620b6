/**
  Streaming the bytes of a model's tokens to a client as text.
 */
module Utf8Output {
  import opened Common
  import opened Utf8

  /** The bytes of a reply that are not sent yet. */
  class PendingText {
    var bytes: seq<Byte>

    constructor ()
      ensures bytes == []
    {
      bytes := [];
    }

    /** A token's bytes arrive. */
    method Append(delta: seq<Byte>)
      modifies this
      ensures bytes == old(bytes) + delta
    {
      bytes := bytes + delta;
    }

    /** Everything that can be sent now, as well-formed text. */
    method RenderOutput(final: bool) returns (output: seq<Byte>)
      modifies this
      ensures Rendering(output, bytes) == Render(old(bytes), final)
      ensures WellFormed(output) && |bytes| <= 3 && (final ==> bytes == [])
    {
      hide Render, Encoded, Truncated, EncodedLength, MaximalSubpart, WellFormed, Announced;
      output := [];
      var i := 0;
      RenderWaits([]);
      while i < |bytes|
        invariant i <= |bytes| && bytes == old(bytes)
        invariant var rest := Render(bytes[i..], final);
                  Render(bytes, final) == Rendering(output + rest.output, rest.kept)
      {
        ghost var rest, sent := bytes[i..], output;
        var count := Announced(bytes[i]);
        if count == 0 {
          BadLead(rest);
          RenderPiece(bytes, sent, i, final, 1, REPLACEMENT);
          output := output + REPLACEMENT;
          i := i + 1;
          continue;
        }
        var j := Matching(bytes[i..], count);
        if j == count {
          RenderPiece(bytes, sent, i, final, count, bytes[i..i + count]);
          output := output + bytes[i..i + count];
          i := i + count;
        } else if i + j == |bytes| && !final {
          RenderWaits(rest);
          break;
        } else {
          RenderPiece(bytes, sent, i, final, j, REPLACEMENT);
          output := output + REPLACEMENT;
          i := i + j;
        }
      }
      RenderIsWellFormed(bytes, final);
      RenderNothing(final);
      bytes := bytes[i..];
    }
  }

  lemma RenderNothing(final: bool)
    ensures Render([], final) == Rendering([], [])
  {
  }

  /** Sending one piece, an encoding or a replacement, moves the rendering on to what follows it. */
  lemma RenderPiece(bytes: seq<Byte>, output: seq<Byte>, i: nat, final: bool, n: nat, piece: seq<Byte>)
    requires i < |bytes| && i + n <= |bytes| && (final || !Truncated(bytes[i..]))
    requires if EncodedLength(bytes[i..]) > 0 then n == EncodedLength(bytes[i..]) && piece == bytes[i..i + n]
             else n == MaximalSubpart(bytes[i..]) && piece == REPLACEMENT
    requires var rest := Render(bytes[i..], final);
             Render(bytes, final) == Rendering(output + rest.output, rest.kept)
    ensures var rest := Render(bytes[i + n..], final);
            Render(bytes, final) == Rendering(output + piece + rest.output, rest.kept)
  {
    hide Truncated, Encoded, EncodedLength, MaximalSubpart, Render;
    assert bytes[i..][..n] == bytes[i..i + n] && bytes[i..][n..] == bytes[i + n..];
    RenderStep(bytes[i..], final, n, piece);
    assert output + (piece + Render(bytes[i + n..], final).output) == output + piece + Render(bytes[i + n..], final).output;
  }

  lemma BadLead(s: seq<Byte>)
    requires s != [] && Announced(s[0]) == 0
    ensures EncodedLength(s) == 0 && MaximalSubpart(s) == 1 && !Truncated(s)
  {
    assert forall k :: 1 <= k <= |s| ==> s[..k][..1] == [s[0]];
    assert s[..|s|] == s;
    forall k | 1 <= k <= |s| && Truncated(s[..k])
      ensures false
    {
      TruncatedPrefix(s[..k], 1);
    }
  }

  /** How many bytes a lead byte announces; 0 when none can start an encoding. */
  function Announced(lead: Byte): (count: nat)
    ensures count == 0 <==> !Encoded([lead]) && !Truncated([lead])
  {
    TruncatedTable([lead]);
    if lead < 0x80 then 1
    else if 0xC2 <= lead <= 0xDF then 2
    else if 0xE0 <= lead <= 0xEF then 3
    else if 0xF0 <= lead <= 0xF4 then 4
    else 0
  }

  /** How far `s` follows what its first byte announces: all the way exactly when it begins with an
      encoding, otherwise to the end of the maximal subpart. */
  method Matching(s: seq<Byte>, count: nat) returns (j: nat)
    requires s != [] && count == Announced(s[0]) > 0
    ensures 1 <= j <= count && j <= |s|
    ensures j == count <==> EncodedLength(s) == count
    ensures j == count <==> EncodedLength(s) > 0
    ensures j < count ==> j == MaximalSubpart(s) && (j == |s| <==> Truncated(s))
    ensures j == count ==> !Truncated(s)
  {
    j := 1;
    while j < count && j < |s|
      invariant 1 <= j <= count && j <= |s|
      invariant forall k :: 1 <= k < j ==> Follows(s, k)
    {
      var byte, first := s[j], s[0];
      if byte < 0x80 || byte > 0xBF
         || (j == 1 && ((first == 0xE0 && byte < 0xA0) || (first == 0xED && byte >= 0xA0)
                        || (first == 0xF0 && byte < 0x90) || (first == 0xF4 && byte >= 0x90))) {
        break;
      }
      j := j + 1;
    }
    MatchingEnds(s, count, j);
  }

  predicate Follows(s: seq<Byte>, k: nat)
    requires 1 <= k < |s|
  {
    if k == 1 then SecondFits(s[0], s[1]) else Tail(s[k])
  }

  lemma MatchingEnds(s: seq<Byte>, count: nat, j: nat)
    requires s != [] && count == Announced(s[0]) > 0 && 1 <= j <= count && j <= |s|
    requires forall k :: 1 <= k < j ==> Follows(s, k)
    requires j == count || j == |s| || !Follows(s, j)
    ensures j == count <==> EncodedLength(s) == count
    ensures j == count <==> EncodedLength(s) > 0
    ensures j < count ==> j == MaximalSubpart(s) && (j == |s| <==> Truncated(s))
    ensures j == count ==> !Truncated(s)
  {
    assert s[..|s|] == s;
    forall k | 1 <= k <= |s|
      ensures Encoded(s[..k]) <==> Announced(s[0]) == k && forall i :: 1 <= i < k ==> Follows(s, i)
      ensures Truncated(s[..k]) <==> k < Announced(s[0]) && forall i :: 1 <= i < k ==> Follows(s, i)
    {
      FollowsIsTable(s, k);
    }
    hide Encoded, Truncated, Announced, Follows;
    if j == count {
      EncodedIsNotTruncated(s, count);
    } else {
      assert EncodedLength(s) == 0;
    }
  }

  /** Following the lead byte's announcement is following Table 3-7. */
  lemma FollowsIsTable(s: seq<Byte>, k: nat)
    requires 1 <= k <= |s|
    ensures Encoded(s[..k]) <==> Announced(s[0]) == k && forall i :: 1 <= i < k ==> Follows(s, i)
    ensures Truncated(s[..k]) <==> k < Announced(s[0]) && forall i :: 1 <= i < k ==> Follows(s, i)
  {
    TruncatedTable(s[..k]);
    hide Truncated;
    assert (forall i :: 1 <= i < k ==> Follows(s, i)) <==>
           && (k > 1 ==> Follows(s, 1)) && (k > 2 ==> Follows(s, 2)) && (k > 3 ==> Follows(s, 3))
           && forall i :: 4 <= i < k ==> Follows(s, i);
    assert forall i :: 0 <= i < k ==> s[..k][i] == s[i];
  }
}
