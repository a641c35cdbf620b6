/**
  Equal, disjoint pieces that fill a stretch of memory exactly can only be its consecutive blocks.
 */
module Packing {

  /** The pieces of `size` bytes that begin at these addresses do not overlap. */
  ghost predicate Disjoint(begins: set<nat>, size: nat) {
    forall a, b :: a in begins && b in begins && a != b ==> a + size <= b || b + size <= a
  }

  ghost predicate Within(begins: set<nat>, size: nat, low: nat, high: nat) {
    forall a :: a in begins ==> low <= a && a + size <= high
  }

  lemma {:induction false} HighestPiece(begins: set<nat>) returns (top: nat)
    requires begins != {}
    ensures top in begins && forall a :: a in begins ==> a <= top
    decreases |begins|
  {
    top :| top in begins;
    var rest := begins - {top};
    if rest != {} {
      var other := HighestPiece(rest);
      assert forall a :: a in begins ==> a == top || a in rest;
      if other > top {
        top := other;
      }
    }
  }

  /** Below the highest piece there is room for all the others. */
  lemma BelowHighest(begins: set<nat>, size: nat, low: nat, high: nat, top: nat)
    requires Disjoint(begins, size) && Within(begins, size, low, high) && size > 0
    requires top in begins && forall a :: a in begins ==> a <= top
    ensures Disjoint(begins - {top}, size) && Within(begins - {top}, size, low, top)
    ensures |begins - {top}| == |begins| - 1
  {
  }

  lemma {:induction false} RoomNeeded(begins: set<nat>, size: nat, low: nat, high: nat)
    requires Disjoint(begins, size) && Within(begins, size, low, high) && size > 0 && low <= high
    ensures |begins| * size <= high - low
    decreases |begins|
  {
    if begins != {} {
      var top := HighestPiece(begins);
      BelowHighest(begins, size, low, high, top);
      RoomNeeded(begins - {top}, size, low, top);
      assert |begins| * size == (|begins| - 1) * size + size;
    }
  }

  function Block(low: nat, size: nat, i: nat): nat {
    low + i * size
  }

  function Blocks(low: nat, size: nat, n: nat): set<nat> {
    set i | 0 <= i < n :: Block(low, size, i)
  }

  /** The pieces are the blocks: the i-th block of the stretch is one of them, and none is anything else. */
  lemma {:induction false} PiecesAreBlocks(begins: set<nat>, size: nat, low: nat)
    requires Disjoint(begins, size) && Within(begins, size, low, Block(low, size, |begins|)) && size > 0
    ensures begins == Blocks(low, size, |begins|)
    decreases |begins|
  {
    if begins != {} {
      var top := HighestPiece(begins);
      var rest := begins - {top};
      BelowHighest(begins, size, low, Block(low, size, |begins|), top);
      TopIsLastBlock(begins, rest, size, low, top);
      hide Disjoint, Within;
      PiecesAreBlocks(rest, size, low);
      BlocksGrow(low, size, |begins|);
    }
  }

  lemma TopIsLastBlock(begins: set<nat>, rest: set<nat>, size: nat, low: nat, top: nat)
    requires Within(begins, size, low, Block(low, size, |begins|)) && top in begins && |rest| == |begins| - 1
    requires Disjoint(rest, size) && Within(rest, size, low, top) && size > 0
    ensures top == Block(low, size, |rest|)
  {
    RoomNeeded(rest, size, low, top);
    var n := |begins|;
    assert n * size == (n - 1) * size + size;
  }

  lemma BlocksGrow(low: nat, size: nat, n: nat)
    requires n > 0
    ensures Blocks(low, size, n) == Blocks(low, size, n - 1) + {Block(low, size, n - 1)}
  {
    hide Block;
  }

  /** As many distinct elements of a set as it has are all of it. */
  lemma Pigeonhole<T>(some: set<T>, all: set<T>)
    requires some <= all && |some| == |all|
    ensures some == all
  {
    assert |all - some| == |all| - |some|;
  }

  function Elements<T>(s: seq<T>): set<T> {
    set x | x in s
  }

  /** A sequence without repetition has as many elements as places. */
  lemma {:induction false} DistinctCount<T>(s: seq<T>)
    requires forall i, j :: 0 <= i < j < |s| ==> s[i] != s[j]
    ensures |Elements(s)| == |s|
  {
    if s == [] {
      assert Elements(s) == {};
    } else {
      var init := s[..|s| - 1];
      assert forall i, j :: 0 <= i < j < |init| ==> init[i] != init[j];
      DistinctCount(init);
      assert Elements(s) == Elements(init) + {s[|s| - 1]};
    }
  }
}
