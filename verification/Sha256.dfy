/**
  The streaming hash, and the loader that hashes a file while it copies a slice of it.
 */
module Sha256Stream {
  import opened Common
  import opened Sha256Spec

  const UINT64_MODULUS: nat := 0x1_0000_0000_0000_0000

  ghost function StateVars(s: seq<Word>): Vars
    requires |s| == 8
  {
    Vars(s[0], s[1], s[2], s[3], s[4], s[5], s[6], s[7])
  }

  lemma ModuloOnce(x: nat, y: nat)
    ensures (x % WORD_MODULUS + y) % WORD_MODULUS == (x + y) % WORD_MODULUS
  {
  }

  lemma SumOfFour(a: Word, b: Word, c: Word, d: Word)
    ensures Add(Add(Add(a, b), c), d) == (a + b + c + d) % WORD_MODULUS
  {
    ModuloOnce(a + b, c);
    ModuloOnce(a + b + c, d);
  }

  /** The terms of the schedule may be added in any order. */
  lemma ScheduleOrder(w16: Word, s0: Word, w7: Word, s1: Word)
    ensures Add(Add(Add(w16, s0), w7), s1) == Add(Add(Add(s1, w7), s0), w16)
  {
    hide Add;
    SumOfFour(w16, s0, w7, s1);
    SumOfFour(s1, w7, s0, w16);
  }

  lemma {:induction false} HashBlocksAppend(m: seq<Byte>, block: Block)
    requires WholeBlocks(m)
    ensures WholeBlocks(m + block) && HashBlocks(m + block) == Compress(HashBlocks(m), block)
  {
    hide Compress, Rounds;
    assert (m + block)[..|m + block| - 64] == m && (m + block)[|m + block| - 64..] == block;
  }

  lemma Sliced(m: seq<Byte>, s: seq<Byte>, i: nat, j: nat)
    requires i <= j <= |s|
    ensures m + s[..i] + s[i..j] == m + s[..j] && s[i..|s|] == s[i..]
    ensures i == 0 ==> m + s[..i] == m
    ensures j == |s| ==> m + s[..j] == m + s
  {
  }

  /** The digest with the length in 64 bits, which is the standard's below 2^61 bytes. */
  ghost function DigestOf(m: seq<Byte>): seq<Byte> {
    Digest(HashBlocks(Pad(m, 8 * |m| % UINT64_MODULUS)))
  }

  lemma DigestIsStandard(m: seq<Byte>)
    requires |m| < MESSAGE_LIMIT
    ensures DigestOf(m) == Sha256Spec.Sha256(m)
  {
    hide HashBlocks, Pad, Digest;
  }

  lemma NothingHashed()
    ensures HashBlocks(Whole([])) == INITIAL && Rest([]) == []
  {
  }

  ghost function FirstWords(state: seq<Word>, n: nat): seq<Byte>
    requires n <= |state|
  {
    if n == 0 then [] else FirstWords(state, n - 1) + WordBytes(state[n - 1])
  }

  lemma EightWords(state: seq<Word>)
    requires |state| == 8
    ensures FirstWords(state, 8) == Digest(StateVars(state))
  {
    hide WordBytes;
    assert FirstWords(state, 1) == WordBytes(state[0]);
    assert FirstWords(state, 4) == FirstWords(state, 3) + WordBytes(state[3]);
    assert FirstWords(state, 6) == FirstWords(state, 5) + WordBytes(state[5]);
  }

  /** The whole blocks of a message. */
  ghost function Whole(m: seq<Byte>): (whole: seq<Byte>)
    ensures WholeBlocks(whole)
  {
    m[..|m| - |m| % 64]
  }

  /** What is left over of a message after its whole blocks. */
  ghost function Rest(m: seq<Byte>): (rest: seq<Byte>)
    ensures |rest| == |m| % 64 && Whole(m) + rest == m
  {
    m[|m| - |m| % 64..]
  }

  /** The rest of a message that leaves no room for the length, filled up with zeros. */
  ghost function FullBlock(ending: seq<Byte>): (block: seq<Byte>)
    requires |ending| <= 64
    ensures |block| == 64
  {
    ending + Zeros(64 - |ending|)
  }

  /** The block that ends with the length. */
  ghost function FinalBlock(ending: seq<Byte>, bits: nat): (block: seq<Byte>)
    requires |ending| <= 56
    ensures |block| == 64
  {
    ending + Zeros(56 - |ending|) + LengthBytes(bits)
  }

  lemma Regroup(a: seq<Byte>, b: seq<Byte>, c: seq<Byte>, d: seq<Byte>, e: seq<Byte>)
    ensures a + b + c + d + e == (a + (b + c + d)) + e && a + b + c + d == a + (b + c + d)
  {
  }

  lemma ZerosSplit(m: nat, n: nat)
    ensures Zeros(m + n) == Zeros(m) + Zeros(n)
  {
  }

  /** The padded message is its whole blocks, then one or two more. */
  lemma PadShape(m: seq<Byte>, bits: nat)
    ensures var whole, ending := Whole(m), Rest(m) + [0x80];
            && |ending| <= 64
            && (|ending| <= 56 ==> Pad(m, bits) == whole + FinalBlock(ending, bits))
            && (|ending| > 56 ==> Pad(m, bits) == whole + FullBlock(ending) + FinalBlock([], bits))
  {
    var rest := |m| % 64;
    var whole, tail := Whole(m), Rest(m);
    assert ZeroCount(|m|) == if rest < 56 then 55 - rest else 119 - rest;
    if rest < 56 {
      hide *;
      PadOne(m, whole, tail, bits, rest);
    } else {
      hide *;
      PadTwo(m, whole, tail, bits, rest);
    }
  }

  lemma PadOne(m: seq<Byte>, whole: seq<Byte>, tail: seq<Byte>, bits: nat, rest: nat)
    requires m == whole + tail && rest < 56 && ZeroCount(|m|) == 55 - rest
    ensures |tail| == rest ==> Pad(m, bits) == whole + FinalBlock(tail + [0x80], bits)
  {
    hide LengthBytes, Zeros, ZeroCount;
    Regroup(whole, tail, [0x80], Zeros(55 - rest), LengthBytes(bits));
    Regroup(whole, tail + [0x80], Zeros(55 - rest), LengthBytes(bits), []);
  }

  lemma PadTwo(m: seq<Byte>, whole: seq<Byte>, tail: seq<Byte>, bits: nat, rest: nat)
    requires m == whole + tail && 56 <= rest < 64 && ZeroCount(|m|) == 119 - rest
    ensures |tail| == rest ==> Pad(m, bits) == whole + FullBlock(tail + [0x80]) + FinalBlock([], bits)
  {
    ZerosSplit(63 - rest, 56);
    hide LengthBytes, Zeros, ZeroCount;
    Regroup(whole, tail, [0x80], Zeros(63 - rest), []);
    var front := whole + (tail + [0x80] + Zeros(63 - rest));
    assert whole + tail + [0x80] + (Zeros(63 - rest) + Zeros(56)) == whole + tail + [0x80] + Zeros(63 - rest) + Zeros(56);
    assert front + Zeros(56) + LengthBytes(bits) == front + ([] + Zeros(56) + LengthBytes(bits));
  }

  class Sha256 {
    const state: array<Word>
    const buffer: array<Byte>
    var bufferSize: nat
    var totalBytes: nat
    var finalized: bool
    var digest: seq<Byte>
    ghost var message: seq<Byte>

    constructor ()
      ensures Valid() && fresh(state) && fresh(buffer) && message == [] && !finalized
    {
      state := new Word[8];
      buffer := new Byte[64];
      bufferSize, totalBytes, finalized, digest, message := 0, 0, false, [], [];
      new;
      Reset();
    }

    method Reset()
      requires state.Length == 8 && buffer.Length == 64 && bufferSize == totalBytes == 0 && !finalized && message == []
      modifies state
      ensures Valid()
    {
      hide Sha256.Represents, DigestOf, WholeBlocks, StateVars, HashBlocks;
      SetInitialState();
      StartsEmpty();
    }

    method SetInitialState()
      requires state.Length == 8
      modifies state
      ensures StateVars(state[..]) == INITIAL
    {
      state[0], state[1], state[2], state[3] := 0x6a09e667, 0xbb67ae85, 0x3c6ef372, 0xa54ff53a;
      state[4], state[5], state[6], state[7] := 0x510e527f, 0x9b05688c, 0x1f83d9ab, 0x5be0cd19;
    }

    /** State and buffer stand for `m`: its whole blocks are in the state, the rest is in the buffer. */
    ghost predicate Represents(m: seq<Byte>)
      reads this`bufferSize, state, buffer
    {
      && state.Length == 8 && buffer.Length == 64 && bufferSize == |m| % 64
      && StateVars(state[..]) == HashBlocks(Whole(m)) && buffer[..bufferSize] == Rest(m)
    }

    lemma StartsEmpty()
      requires state.Length == 8 && buffer.Length == 64 && bufferSize == 0 && StateVars(state[..]) == INITIAL
      ensures Represents([])
    {
      NothingHashed();
      hide HashBlocks, Whole, Rest;
    }

    ghost predicate Valid()
      reads this, state, buffer
    {
      && state.Length == 8 && buffer.Length == 64 && totalBytes == |message| <= UINT64_MAX
      && (!finalized ==> Represents(message))
      && (finalized ==> digest == DigestOf(message))
    }

    /** Adds the next bytes of the message; refused after the digest was taken. */
    method Update(data: Option<seq<Byte>>, size: nat) returns (ok: bool)
      requires Valid() && (data.Some? ==> |data.value| == size)
      modifies this, state, buffer
      ensures Valid() && finalized == old(finalized)
      ensures ok <==> !old(finalized) && (data.Some? || size == 0) && old(|message|) + size <= UINT64_MAX
      ensures message == old(message) + if ok && data.Some? then data.value else []
      ensures old(finalized) ==> digest == old(digest)
    {
      hide Sha256.Represents, DigestOf;
      if finalized || (data.None? && size != 0) || size > UINT64_MAX - totalBytes {
        return false;
      }
      var input := if data.Some? then data.value else [];
      totalBytes := totalBytes + size;
      Absorb(input, message);
      message := message + input;
      ok := true;
    }

    method Absorb(input: seq<Byte>, ghost m: seq<Byte>)
      requires Represents(m)
      modifies this`bufferSize, state, buffer
      ensures Represents(m + input)
    {
      var i := 0;
      assert bufferSize < 64;
      hide *;
      Sliced(m, input, 0, 0);
      if bufferSize != 0 && input != [] {
        i := FillBuffer(input, m);
      }
      i := AbsorbBlocks(input, i, m);
      Sliced(m, input, i, |input|);
      if i != |input| {
        KeepRest(input[i..], m + input[..i]);
      }
    }

    /** Whole blocks go into the state without passing through the buffer. */
    method AbsorbBlocks(input: seq<Byte>, start: nat, ghost m: seq<Byte>) returns (i: nat)
      requires start <= |input| && Represents(m + input[..start]) && (bufferSize == 0 || start == |input|)
      modifies state
      ensures i <= |input| && Represents(m + input[..i]) && (bufferSize == 0 || i == |input|) && |input| - i < 64
    {
      hide *;
      i := start;
      while |input| - i >= 64
        invariant i <= |input| && Represents(m + input[..i]) && (bufferSize == 0 || i == |input|)
      {
        Sliced(m, input, i, i + 64);
        AbsorbBlock(input[i..i + 64], m + input[..i]);
        i := i + 64;
      }
    }

    /** Tops up a buffer that holds something; once it is full its block is absorbed. */
    method FillBuffer(input: seq<Byte>, ghost m: seq<Byte>) returns (copied: nat)
      requires Represents(m) && bufferSize != 0 && input != []
      modifies this`bufferSize, state, buffer
      ensures copied <= |input| && Represents(m + input[..copied]) && (bufferSize == 0 || copied == |input|)
    {
      hide HashBlocks, Compress;
      copied := if |input| <= 64 - bufferSize then |input| else 64 - bufferSize;
      CopyInto(bufferSize, input[..copied]);
      ghost var whole, grown := Whole(m), m + input[..copied];
      bufferSize := bufferSize + copied;
      assert buffer[..bufferSize] == grown[|whole|..] && grown[..|whole|] == whole;
      if bufferSize == 64 {
        assert buffer[..] == buffer[..64] && whole + buffer[..] == grown;
        HashBlocksAppend(whole, buffer[..]);
        Transform(buffer[..]);
        bufferSize := 0;
        assert grown[..|grown|] == grown;
      }
    }

    method CopyInto(offset: nat, bytes: seq<Byte>)
      requires buffer.Length == 64 && offset + |bytes| <= 64
      modifies buffer
      ensures buffer[..offset] == old(buffer[..offset]) && buffer[offset..offset + |bytes|] == bytes
    {
      for k := 0 to |bytes|
        invariant buffer[..offset] == old(buffer[..offset])
        invariant forall j :: 0 <= j < k ==> buffer[offset + j] == bytes[j]
      {
        buffer[offset + k] := bytes[k];
      }
    }

    method AbsorbBlock(block: Block, ghost m: seq<Byte>)
      requires Represents(m) && bufferSize == 0
      modifies state
      ensures Represents(m + block)
    {
      hide HashBlocks, Compress;
      assert m[..|m|] == m && (m + block)[..|m + block|] == m + block;
      HashBlocksAppend(m, block);
      Transform(block);
    }

    method KeepRest(rest: seq<Byte>, ghost m: seq<Byte>)
      requires Represents(m) && bufferSize == 0 && |rest| < 64
      modifies this`bufferSize, buffer
      ensures Represents(m + rest)
    {
      hide HashBlocks, Compress;
      CopyInto(0, rest);
      bufferSize := |rest|;
      assert (m + rest)[..|m|] == m[..|m|] && (m + rest)[|m|..] == rest;
    }

    /** Pads, hashes the last block or two and keeps the digest; later calls return it again. */
    method Finalize() returns (result: seq<Byte>)
      requires Valid()
      modifies this, state, buffer
      ensures Valid() && finalized && message == old(message) && result == digest
      ensures |message| < MESSAGE_LIMIT ==> result == Sha256Spec.Sha256(message)
      ensures old(finalized) ==> result == old(digest)
    {
      hide HashBlocks, Pad, Compress, Digest;
      if |message| < MESSAGE_LIMIT {
        DigestIsStandard(message);
      }
      if finalized {
        return digest;
      }
      var bitLength := totalBytes * 8 % UINT64_MODULUS;
      PadBlocks(bitLength);
      digest := StateBytes();
      finalized := true;
      result := digest;
    }

    /** The padding, written into the buffer and absorbed. */
    method PadBlocks(bitLength: nat)
      requires Represents(message)
      modifies this`bufferSize, state, buffer
      ensures StateVars(state[..]) == HashBlocks(Pad(message, bitLength))
    {
      hide HashBlocks, Pad, FinalBlock, FullBlock, Whole, Rest, WholeBlocks;
      PadShape(message, bitLength);
      buffer[bufferSize] := 0x80;
      bufferSize := bufferSize + 1;
      assert buffer[..bufferSize] == Rest(message) + [0x80];
      FinishPadding(Whole(message), Rest(message) + [0x80], Pad(message, bitLength), bitLength);
    }

    /** One or two blocks, depending on the room left for the length. */
    method FinishPadding(ghost whole: seq<Byte>, ghost ending: seq<Byte>, ghost padded: seq<Byte>, bitLength: nat)
      requires state.Length == 8 && buffer.Length == 64 && bufferSize == |ending| <= 64 && WholeBlocks(whole)
      requires StateVars(state[..]) == HashBlocks(whole) && buffer[..bufferSize] == ending
      requires |ending| <= 56 ==> padded == whole + FinalBlock(ending, bitLength)
      requires |ending| > 56 ==> padded == whole + FullBlock(ending) + FinalBlock([], bitLength)
      modifies this`bufferSize, state, buffer
      ensures WholeBlocks(padded) && StateVars(state[..]) == HashBlocks(padded)
    {
      hide HashBlocks, WholeBlocks, FullBlock, FinalBlock;
      if bufferSize > 56 {
        FlushPadding(whole, ending);
        LastBlock(whole + FullBlock(ending), [], bitLength);
      } else {
        LastBlock(whole, ending, bitLength);
      }
    }

    /** The message's end leaves no room for the length: zeros fill its block. */
    method FlushPadding(ghost whole: seq<Byte>, ghost start: seq<Byte>)
      requires state.Length == 8 && buffer.Length == 64 && bufferSize <= 64 && WholeBlocks(whole)
      requires StateVars(state[..]) == HashBlocks(whole) && buffer[..bufferSize] == start
      modifies this`bufferSize, state, buffer
      ensures bufferSize == 0 && WholeBlocks(whole + FullBlock(start))
      ensures StateVars(state[..]) == HashBlocks(whole + FullBlock(start))
    {
      hide HashBlocks, Compress;
      FillZeros(bufferSize, 64);
      HashBlocksAppend(whole, buffer[..]);
      Transform(buffer[..]);
      bufferSize := 0;
    }

    method LastBlock(ghost whole: seq<Byte>, ghost start: seq<Byte>, bitLength: nat)
      requires state.Length == 8 && buffer.Length == 64 && bufferSize <= 56 && WholeBlocks(whole)
      requires StateVars(state[..]) == HashBlocks(whole) && buffer[..bufferSize] == start
      modifies state, buffer
      ensures WholeBlocks(whole + FinalBlock(start, bitLength))
      ensures StateVars(state[..]) == HashBlocks(whole + FinalBlock(start, bitLength))
    {
      hide HashBlocks, Compress, LengthBytes;
      FillZeros(bufferSize, 56);
      assert buffer[..56] == start + Zeros(56 - |start|) by {
        assert buffer[..56] == buffer[..bufferSize] + buffer[bufferSize..56];
      }
      WriteLength(bitLength);
      assert buffer[..] == buffer[..56] + buffer[56..];
      HashBlocksAppend(whole, buffer[..]);
      Transform(buffer[..]);
    }

    method FillZeros(from: nat, to: nat)
      requires buffer.Length == 64 && from <= to <= 64
      modifies buffer
      ensures buffer[..from] == old(buffer[..from]) && buffer[from..to] == Zeros(to - from)
      ensures to == 64 ==> buffer[..] == old(buffer[..from]) + Zeros(64 - from)
    {
      for k := from to to
        invariant buffer[..from] == old(buffer[..from]) && forall j :: from <= j < k ==> buffer[j] == 0
      {
        buffer[k] := 0;
      }
      assert to == 64 ==> buffer[..] == buffer[..from] + buffer[from..to];
    }

    /** The length in bits, least significant byte last. */
    method WriteLength(bitLength: nat)
      requires buffer.Length == 64
      modifies buffer
      ensures buffer[..56] == old(buffer[..56]) && buffer[56..] == LengthBytes(bitLength)
    {
      hide Power256;
      for index := 0 to 8
        invariant buffer[..56] == old(buffer[..56])
        invariant forall j :: 0 <= j < index ==> buffer[63 - j] == bitLength / Power256(j) % 0x100
      {
        buffer[63 - index] := bitLength / Power256(index) % 0x100;
      }
      forall i | 0 <= i < 8 ensures buffer[56 + i] == LengthBytes(bitLength)[i] {
        assert buffer[63 - (7 - i)] == bitLength / Power256(7 - i) % 0x100;
      }
    }

    method StateBytes() returns (bytes: seq<Byte>)
      requires state.Length == 8
      ensures bytes == Digest(StateVars(state[..]))
    {
      hide WordBytes;
      bytes := [];
      for index := 0 to 8
        invariant bytes == FirstWords(state[..], index)
      {
        bytes := bytes + WordBytes(state[index]);
      }
      EightWords(state[..]);
    }

    method Transform(block: Block)
      requires state.Length == 8
      modifies state
      ensures StateVars(state[..]) == Compress(old(StateVars(state[..])), block)
    {
      hide Add, Rounds;
      var schedule := MakeSchedule(block);
      var v := RunRounds(schedule, block, Vars(state[0], state[1], state[2], state[3], state[4], state[5], state[6], state[7]));
      state[0] := Add(state[0], v.a);
      state[1] := Add(state[1], v.b);
      state[2] := Add(state[2], v.c);
      state[3] := Add(state[3], v.d);
      state[4] := Add(state[4], v.e);
      state[5] := Add(state[5], v.f);
      state[6] := Add(state[6], v.g);
      state[7] := Add(state[7], v.h);
    }
  }

  /** The sixty-four words of a block's schedule. */
  method MakeSchedule(block: Block) returns (schedule: array<Word>)
    ensures fresh(schedule) && schedule.Length == 64 && forall i :: 0 <= i < 64 ==> schedule[i] == Schedule(block, i)
  {
    hide Add, SmallSigma0, SmallSigma1, BigEndian;
    schedule := new Word[64];
    for index := 0 to 16
      invariant forall i :: 0 <= i < index ==> schedule[i] == Schedule(block, i)
    {
      schedule[index] := BigEndian(block[4 * index], block[4 * index + 1], block[4 * index + 2], block[4 * index + 3]);
    }
    for index := 16 to 64
      invariant forall i :: 0 <= i < index ==> schedule[i] == Schedule(block, i)
    {
      var sigma0 := SmallSigma0(schedule[index - 15]);
      var sigma1 := SmallSigma1(schedule[index - 2]);
      ScheduleOrder(schedule[index - 16], sigma0, schedule[index - 7], sigma1);
      schedule[index] := Add(Add(Add(schedule[index - 16], sigma0), schedule[index - 7]), sigma1);
    }
  }

  /** The sixty-four rounds, on eight working variables. */
  method RunRounds(schedule: array<Word>, block: Block, start: Vars) returns (v: Vars)
    requires schedule.Length == 64 && forall i :: 0 <= i < 64 ==> schedule[i] == Schedule(block, i)
    ensures v == Rounds(start, block, 64)
  {
    hide Add, Schedule, BigSigma0, BigSigma1, Ch, Maj, RoundConstant;
    var a, b, c, d, e, f, g, h := start.a, start.b, start.c, start.d, start.e, start.f, start.g, start.h;
    for index := 0 to 64
      invariant Vars(a, b, c, d, e, f, g, h) == Rounds(start, block, index)
    {
      var temporary1 := Add(Add(Add(Add(h, BigSigma1(e)), Ch(e, f, g)), RoundConstant(index)), schedule[index]);
      var temporary2 := Add(BigSigma0(a), Maj(a, b, c));
      h := g;
      g := f;
      f := e;
      e := Add(d, temporary1);
      d := c;
      c := b;
      b := a;
      a := Add(temporary1, temporary2);
    }
    v := Vars(a, b, c, d, e, f, g, h);
  }

  function Joined(chunks: seq<seq<Byte>>): seq<Byte> {
    if chunks == [] then [] else Joined(chunks[..|chunks| - 1]) + chunks[|chunks| - 1]
  }

  /** The digest of a file, from whatever its successive reads return; `canOpen` and `atEnd` say whether the
      file could be opened and was read to its end.  However the reads cut it, the digest is that of the file. */
  method HashFile(pieces: seq<seq<Byte>>, canOpen: bool, atEnd: bool) returns (digest: Option<seq<Byte>>)
    ensures digest.Some? <==> canOpen && atEnd && |Joined(pieces)| <= UINT64_MAX
    ensures digest.Some? && |Joined(pieces)| < MESSAGE_LIMIT ==> digest.value == Sha256Spec.Sha256(Joined(pieces))
  {
    hide DigestOf, Sha256Spec.Sha256, Sha256.Represents;
    if !canOpen {
      return None;
    }
    var hasher := new Sha256();
    for i := 0 to |pieces|
      modifies hasher, hasher.state, hasher.buffer
      invariant hasher.Valid() && !hasher.finalized && hasher.message == Joined(pieces[..i])
    {
      assert pieces[..i + 1][..i] == pieces[..i];
      if |pieces[i]| > 0 {
        var ok := hasher.Update(Some(pieces[i]), |pieces[i]|);
        if !ok {
          JoinedGrows(pieces, i + 1);
          return None;
        }
      }
    }
    assert pieces[..|pieces|] == pieces;
    if !atEnd {
      return None;
    }
    var result := hasher.Finalize();
    digest := Some(result);
  }

  lemma {:induction false} JoinedGrows(chunks: seq<seq<Byte>>, n: nat)
    requires n <= |chunks|
    ensures |Joined(chunks[..n])| <= |Joined(chunks)|
    decreases |chunks|
  {
    if n < |chunks| {
      assert chunks[..|chunks| - 1][..n] == chunks[..n];
      JoinedGrows(chunks[..|chunks| - 1], n);
    } else {
      assert chunks[..n] == chunks;
    }
  }

  const CHUNK_BYTES: nat := 0x200_0000

  /** What a read returns: no more than was asked for; zero or less is the end of the file or a failure. */
  function Received(results: nat -> int, k: nat, wanted: nat): int {
    if results(k) <= wanted then results(k) else wanted
  }

  function Wanted(left: nat): nat {
    if CHUNK_BYTES <= left then CHUNK_BYTES else left
  }

  /** From the `k`-th read on, the reads get through what is left of the file. */
  predicate GetsThrough(results: nat -> int, k: nat, left: nat)
    decreases left
  {
    left == 0 || (Received(results, k, Wanted(left)) > 0 && GetsThrough(results, k + 1, left - Received(results, k, Wanted(left))))
  }

  /** The loader of the draft's weights: the pinned file is read in pieces of any size, all of it is hashed,
      and the pinned slice of it is copied to the arena on the way.  It is accepted exactly when no read fails,
      the file ends where it should, was not changed meanwhile and has the pinned digest. */
  method LoadWeights(file: seq<Byte>, fileSize: nat, begin: nat, bytes: nat, pinned: seq<Byte>, results: nat -> int,
                     atEnd: bool, stable: bool)
    returns (ok: bool, arena: array<Byte>)
    requires |file| == fileSize < MESSAGE_LIMIT && begin + bytes <= fileSize
    ensures fresh(arena) && arena.Length == bytes
    ensures ok <==> GetsThrough(results, 0, fileSize) && atEnd && stable && pinned == Sha256Spec.Sha256(file)
    ensures ok ==> arena[..] == file[begin..begin + bytes]
  {
    hide DigestOf, Sha256Spec.Sha256, Sha256.Represents;
    arena := new Byte[bytes] (_ => 0);
    var hash := new Sha256();
    var offset, k := 0, 0;
    while offset < fileSize
      modifies hash, hash.state, hash.buffer, arena
      invariant offset <= fileSize && hash.Valid() && !hash.finalized && hash.message == file[..offset]
      invariant GetsThrough(results, 0, fileSize) <==> GetsThrough(results, k, fileSize - offset)
      invariant forall k :: 0 <= k < bytes && begin + k < offset ==> arena[k] == file[begin + k]
    {
      var received := Received(results, k, Wanted(fileSize - offset));
      if received <= 0 {
        return false, arena;
      }
      var chunk := file[offset..offset + received];
      ok := hash.Update(Some(chunk), received);
      if !ok {
        return;
      }
      CopyOverlap(arena, begin, chunk, offset);
      assert file[..offset] + chunk == file[..offset + received];
      offset, k := offset + received, k + 1;
    }
    assert file[..offset] == file;
    if !atEnd || !stable {
      return false, arena;
    }
    var digest := hash.Finalize();
    ok := digest == pinned;
  }

  /** Copies the part of a chunk of the file at `offset` that belongs to the arena, which begins at `begin`. */
  method CopyOverlap(arena: array<Byte>, begin: nat, chunk: seq<Byte>, offset: nat)
    modifies arena
    ensures forall k :: 0 <= k < arena.Length ==>
              arena[k] == if offset <= begin + k < offset + |chunk| then chunk[begin + k - offset] else old(arena[k])
  {
    var from := if offset >= begin then offset else begin;
    var to := if offset + |chunk| <= begin + arena.Length then offset + |chunk| else begin + arena.Length;
    if from < to {
      CopySlice(arena, from - begin, chunk[from - offset..to - offset]);
    }
  }

  method CopySlice(arena: array<Byte>, at: nat, bytes: seq<Byte>)
    requires at + |bytes| <= arena.Length
    modifies arena
    ensures forall k :: 0 <= k < arena.Length ==>
              arena[k] == if at <= k < at + |bytes| then bytes[k - at] else old(arena[k])
  {
    for i := 0 to |bytes|
      invariant forall k :: 0 <= k < arena.Length ==> arena[k] == if at <= k < at + i then bytes[k - at] else old(arena[k])
    {
      arena[at + i] := bytes[i];
    }
  }
}
