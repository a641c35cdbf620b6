/**
  Whether the tensors of a file account for every byte of its data, exactly once.
 */
module Coverage {

  datatype Range<Name> = Range(begin: nat, end: nat, name: Name)

  /** Neither range reaches into the other.  For an empty range this says that it does not lie strictly
      inside the other one. */
  predicate Apart<N>(a: Range<N>, b: Range<N>) {
    a.end <= b.begin || b.end <= a.begin
  }

  ghost predicate Covered<N>(ranges: multiset<Range<N>>, p: nat) {
    exists r :: r in ranges && r.begin <= p < r.end
  }

  /** The non-empty ranges tile [0, size), and every empty range sits on a tile boundary. */
  ghost predicate ExactCover<N>(ranges: multiset<Range<N>>, size: nat) {
    && (forall a, b :: a in ranges && b in ranges && a != b ==> Apart(a, b))
    && (forall p :: 0 <= p < size ==> Covered(ranges, p))
  }

  /** What the checks on single tensors have established before the sweep. */
  ghost predicate WithinData<N>(ranges: multiset<Range<N>>, size: nat) {
    forall r :: r in ranges ==> r.begin <= r.end <= size && ranges[r] == 1
  }

  /** The sort's order: by begin, then by end.  The order of names, which only separates ranges that are
      equal otherwise, plays no part. */
  predicate Before<N>(a: Range<N>, b: Range<N>) {
    a.begin < b.begin || (a.begin == b.begin && a.end <= b.end)
  }

  predicate Sorted<N>(s: seq<Range<N>>) {
    forall i, j :: 0 <= i < j < |s| ==> Before(s[i], s[j])
  }

  method Insert<N>(s: seq<Range<N>>, r: Range<N>) returns (t: seq<Range<N>>)
    requires Sorted(s)
    ensures Sorted(t) && multiset(t) == multiset(s) + multiset{r}
  {
    var i := 0;
    while i < |s| && Before(s[i], r)
      invariant i <= |s| && forall k :: 0 <= k < i ==> Before(s[k], r)
    {
      i := i + 1;
    }
    t := s[..i] + [r] + s[i..];
    assert s == s[..i] + s[i..];
  }

  method Sort<N>(ranges: seq<Range<N>>) returns (s: seq<Range<N>>)
    ensures Sorted(s) && multiset(s) == multiset(ranges)
  {
    s := [];
    for i := 0 to |ranges|
      invariant Sorted(s) && multiset(s) == multiset(ranges[..i])
    {
      assert ranges[..i + 1] == ranges[..i] + [ranges[i]];
      s := Insert(s, ranges[i]);
    }
    assert ranges[..|ranges|] == ranges;
  }

  /** Where the data covered by the first `i` ranges ends. */
  function Cursor<N>(s: seq<Range<N>>, i: nat): nat
    requires i <= |s|
  {
    if i == 0 then 0 else s[i - 1].end
  }

  /** Each range begins where the one before it ends. */
  predicate Chained<N>(s: seq<Range<N>>, n: nat)
    requires n <= |s|
  {
    forall i :: 0 <= i < n ==> s[i].begin == Cursor(s, i)
  }

  datatype Verdict = Exact | Overlapping(at: nat) | Gap(at: nat) | NotFullyCovered

  lemma {:induction false} ChainIsMonotone<N>(s: seq<Range<N>>, n: nat, i: nat, j: nat)
    requires n <= |s| && Chained(s, n) && (forall k :: 0 <= k < |s| ==> s[k].begin <= s[k].end) && i <= j <= n
    ensures Cursor(s, i) <= Cursor(s, j)
    ensures forall k :: i <= k < j ==> Cursor(s, i) <= s[k].begin && s[k].end <= Cursor(s, j)
    decreases j - i
  {
    if i < j {
      ChainIsMonotone(s, n, i, j - 1);
    }
  }

  lemma {:induction false} ChainCovers<N>(s: seq<Range<N>>, n: nat, p: nat)
    requires n <= |s| && Chained(s, n) && p < Cursor(s, n)
    ensures Covered(multiset(s), p)
    decreases n
  {
    if p >= Cursor(s, n - 1) {
      assert s[n - 1] in multiset(s);
    } else {
      ChainCovers(s, n - 1, p);
    }
  }

  /** A full chain is an exact cover. */
  lemma ChainIsCover<N>(s: seq<Range<N>>, size: nat)
    requires WithinData(multiset(s), size) && Chained(s, |s|) && Cursor(s, |s|) == size
    ensures ExactCover(multiset(s), size)
  {
    forall p | 0 <= p < size ensures Covered(multiset(s), p) {
      ChainCovers(s, |s|, p);
    }
    InOrder(s, size);
    forall a, b | a in multiset(s) && b in multiset(s) && a != b ensures Apart(a, b) {
      ApartMembers(s, a, b);
    }
    hide Chained, Cursor, Apart;
  }

  lemma ApartMembers<N>(s: seq<Range<N>>, a: Range<N>, b: Range<N>)
    requires Chained(s, |s|) && (forall k :: 0 <= k < |s| ==> s[k].begin <= s[k].end)
    requires a in multiset(s) && b in multiset(s) && a != b
    ensures Apart(a, b)
  {
    hide Chained, Apart;
    var i :| 0 <= i < |s| && s[i] == a;
    var j :| 0 <= j < |s| && s[j] == b;
    if i < j {
      ChainApart(s, i, j);
    } else {
      ChainApart(s, j, i);
      ApartIsSymmetric(a, b);
    }
  }

  lemma ApartIsSymmetric<N>(a: Range<N>, b: Range<N>)
    ensures Apart(a, b) <==> Apart(b, a)
  {
  }

  lemma ChainApart<N>(s: seq<Range<N>>, i: nat, j: nat)
    requires Chained(s, |s|) && (forall k :: 0 <= k < |s| ==> s[k].begin <= s[k].end) && i < j < |s|
    ensures Apart(s[i], s[j])
  {
    ChainIsMonotone(s, |s|, i + 1, j);
  }

  lemma InOrder<N>(s: seq<Range<N>>, size: nat)
    requires WithinData(multiset(s), size)
    ensures forall k :: 0 <= k < |s| ==> s[k].begin <= s[k].end <= size
  {
    forall k | 0 <= k < |s| ensures s[k].begin <= s[k].end <= size {
      assert s[k] in multiset(s);
    }
  }

  lemma Different<N>(s: seq<Range<N>>, size: nat, i: nat, j: nat)
    requires WithinData(multiset(s), size) && i < j < |s|
    ensures s[i] != s[j]
  {
    assert s == s[..j] + [s[j]] + s[j + 1..];
    assert s[i] == s[..j][i];
    assert s[i] in multiset(s[..j]);
    assert multiset(s) == multiset(s[..j]) + multiset{s[j]} + multiset(s[j + 1..]);
  }

  /** A range that begins before the cursor runs into the one before it: the order by end puts an empty
      range before the range it touches. */
  lemma EarlyRangeOverlaps<N>(s: seq<Range<N>>, size: nat, i: nat)
    requires WithinData(multiset(s), size) && Sorted(s) && i < |s| && s[i].begin < Cursor(s, i)
    ensures i > 0 && s[i - 1] in multiset(s) && s[i] in multiset(s) && s[i - 1] != s[i] && !Apart(s[i - 1], s[i])
  {
    InOrder(s, size);
    Different(s, size, i - 1, i);
    assert Before(s[i - 1], s[i]);
  }

  /** A range that begins after the cursor leaves the byte at the cursor to no tensor, and so does a
      sweep that ends before the data does. */
  lemma CursorUncovered<N>(s: seq<Range<N>>, size: nat, i: nat)
    requires WithinData(multiset(s), size) && Sorted(s) && i <= |s| && Chained(s, i)
    requires if i < |s| then s[i].begin > Cursor(s, i) else Cursor(s, i) != size
    ensures Cursor(s, i) < size && !Covered(multiset(s), Cursor(s, i))
  {
    InOrder(s, size);
    var p := Cursor(s, i);
    forall k | 0 <= k < |s|
      ensures !(s[k].begin <= p < s[k].end)
    {
      CursorMissed(s, i, k);
    }
    hide Sorted, Chained, Cursor;
  }

  lemma CursorMissed<N>(s: seq<Range<N>>, i: nat, k: nat)
    requires i <= |s| && Chained(s, i) && Sorted(s) && (forall k :: 0 <= k < |s| ==> s[k].begin <= s[k].end) && k < |s|
    requires i < |s| ==> s[i].begin > Cursor(s, i)
    ensures !(s[k].begin <= Cursor(s, i) < s[k].end)
  {
    hide Chained, Sorted;
    if k < i {
      ChainIsMonotone(s, i, k + 1, i);
    } else if k > i {
      LaterBegins(s, i, k);
    }
  }

  lemma LaterBegins<N>(s: seq<Range<N>>, i: nat, k: nat)
    requires Sorted(s) && i < k < |s|
    ensures s[i].begin <= s[k].begin
  {
    assert Before(s[i], s[k]);
  }

  /** The sweep over the sorted ranges.  It accepts exactly the exact covers; otherwise it points at two
      ranges that overlap, or at a byte that no range covers. */
  method Sweep<N>(ranges: seq<Range<N>>, size: nat) returns (verdict: Verdict)
    requires WithinData(multiset(ranges), size)
    ensures verdict.Exact? <==> ExactCover(multiset(ranges), size)
    ensures verdict.Overlapping? ==> exists a, b :: a in ranges && b in ranges && a != b && !Apart(a, b)
    ensures verdict.Gap? || verdict.NotFullyCovered? ==> exists p :: 0 <= p < size && !Covered(multiset(ranges), p)
    ensures verdict.Exact? ==> exists s :: multiset(s) == multiset(ranges) && Chained(s, |s|) && Cursor(s, |s|) == size
  {
    hide ExactCover, WithinData, Covered;
    var s := Sort(ranges);
    assert forall r :: r in multiset(ranges) <==> r in ranges;
    var cursor := 0;
    for i := 0 to |s|
      invariant cursor == Cursor(s, i) && Chained(s, i)
    {
      if s[i].begin < cursor {
        EarlyRangeOverlaps(s, size, i);
        NotCoverOverlap(s, size, s[i - 1], s[i]);
        return Overlapping(i);
      }
      if s[i].begin > cursor {
        CursorUncovered(s, size, i);
        NotCoverGap(s, size, cursor);
        return Gap(i);
      }
      cursor := s[i].end;
    }
    if cursor != size {
      CursorUncovered(s, size, |s|);
      NotCoverGap(s, size, cursor);
      return NotFullyCovered;
    }
    ChainIsCover(s, size);
    verdict := Exact;
  }

  lemma NotCoverOverlap<N>(s: seq<Range<N>>, size: nat, a: Range<N>, b: Range<N>)
    requires a in multiset(s) && b in multiset(s) && a != b && !Apart(a, b)
    ensures !ExactCover(multiset(s), size)
  {
  }

  lemma NotCoverGap<N>(s: seq<Range<N>>, size: nat, p: nat)
    requires p < size && !Covered(multiset(s), p)
    ensures !ExactCover(multiset(s), size)
  {
  }

  /** Sorting by begin alone would not do: it may put an empty tensor behind the one it precedes, and the
      sweep would refuse data that is covered exactly. */
  lemma TieBreakIsNeeded()
    ensures exists s: seq<Range<int>> ::
              && (forall i, j :: 0 <= i < j < |s| ==> s[i].begin <= s[j].begin)
              && WithinData(multiset(s), 4) && ExactCover(multiset(s), 4) && !Chained(s, |s|)
  {
    var a, b := Range(0, 4, 0), Range(0, 0, 1);
    var s: seq<Range<int>> := [a, b];
    assert multiset(s) == multiset{a, b};
    forall p | 0 <= p < 4
      ensures Covered(multiset(s), p)
    {
      assert a in multiset(s) && a.begin <= p < a.end;
    }
    assert s[1].begin != Cursor(s, 1);
  }
}
