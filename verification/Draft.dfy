/**
  The draft network: a cache of key/value rows that speculation extends and reconciliation rewinds.

  A row depends on the token, the hidden row it is conditioned on, and its position.  Only `position`
  says how many rows are live; rows beyond it are leftovers of rejected speculation.
 */
module MtpDraft {
  import opened MtpTarget
  import opened MtpVerifyRows

  const PREFILL_BATCH: nat := 32

  datatype DraftRow = DraftRow(key: seq<bv16>, value: seq<bv16>)

  datatype DraftModel = DraftModel(
    kvRow: (nat, Hidden, nat) -> DraftRow,
    hiddenOf: (nat, Hidden, seq<DraftRow>) -> Hidden,
    propose: Hidden -> nat,
    confidence: Hidden -> real)
  {
    /** The head's argmax is a vocabulary index and its softmax confidence a positive probability. */
    ghost predicate InRange() {
      forall h :: propose(h) < VOCABULARY && 0.0 < confidence(h) <= 1.0
    }
  }

  /** Where a speculation sets out from: the cache rows, the hidden row and the token it is conditioned on. */
  datatype Outset = Outset(dm: DraftModel, rows: seq<DraftRow>, hidden: Hidden, token: nat) {
    /** The draft after `n` steps, each of them feeding on the proposal and hidden row of the one before. */
    ghost function Ahead(n: nat): (o: Outset)
      ensures o.dm == dm
    {
      if n == 0 then this else Ahead(n - 1).Next()
    }

    ghost function Next(): (o: Outset)
      ensures o.dm == dm
    {
      var grown := rows + [dm.kvRow(token, hidden, |rows|)];
      var ahead := dm.hiddenOf(token, hidden, grown);
      Outset(dm, grown, ahead, dm.propose(ahead))
    }

    /** The `i`-th proposal, and the confidence the draft has in it. */
    ghost function Drafted(i: nat): nat {
      Ahead(i + 1).token
    }

    ghost function Sureness(i: nat): real {
      dm.confidence(Ahead(i + 1).hidden)
    }

    /** The proposals that drafting at most `maximum` tokens gives: it goes on as long as no proposal, but the
        last, is doubtful, and with an EOS frontier it stops before the stop token. */
    ghost predicate Yields(maximum: nat, eosFrontier: bool, stop: nat, count: nat, stopped: bool) {
      && count <= maximum
      && (forall i :: 0 <= i < count ==> eosFrontier ==> Drafted(i) != stop)
      && (forall i :: 0 <= i < count ==> (i + 1 < count || stopped) ==> Sureness(i) >= 0.4)
      && if stopped then eosFrontier && count < maximum && Drafted(count) == stop
         else 0 < count && (count == maximum || Sureness(count - 1) < 0.4)
    }
  }

  /** An optional cancellation callback; without one nothing is ever cancelled. */
  method Poll(present: bool) returns (cancelled: bool)
    ensures cancelled ==> present
  {
    cancelled := *;
    cancelled := cancelled && present;
  }

  class Draft {
    const dm: DraftModel
    const capacity: nat
    const healthy: bool
    const cache: array<DraftRow>
    var position: nat
    var preparedBegin: nat
    var preparedRows: nat
    var preparedCommitted: nat
    var finalHidden: Hidden
    var poisoned: bool

    ghost predicate Valid()
      reads this
    {
      cache.Length == capacity && position <= capacity && preparedBegin + preparedRows <= capacity
    }

    constructor (dm: DraftModel, capacity: nat, healthy: bool)
      ensures Valid() && this.dm == dm && this.capacity == capacity && this.healthy == healthy
      ensures position == 0 && !poisoned && fresh(cache)
    {
      this.dm, this.capacity, this.healthy := dm, capacity, healthy;
      cache := new DraftRow[capacity];
      position, poisoned, finalHidden := 0, false, Hidden([]);
      preparedBegin, preparedRows, preparedCommitted := 0, 0, 0;
    }

    /** A device call; a failure poisons the draft and forgets the prepared rows. */
    method Call() returns (ok: bool)
      modifies this`poisoned, this`preparedBegin, this`preparedRows, this`preparedCommitted
      ensures ok ==> poisoned == old(poisoned) && preparedBegin == old(preparedBegin)
                     && preparedRows == old(preparedRows) && preparedCommitted == old(preparedCommitted)
      ensures !ok ==> poisoned && preparedBegin == preparedRows == 0
      ensures healthy ==> ok
    {
      ok := Launch(healthy);
      if !ok {
        Invalid();
      }
    }

    /** An argument the device would reject is answered as a failed call. */
    method Invalid()
      modifies this`poisoned, this`preparedBegin, this`preparedRows, this`preparedCommitted
      ensures poisoned && preparedBegin == preparedRows == 0
    {
      poisoned := true;
      DiscardPrepared();
    }

    method DiscardPrepared()
      modifies this`preparedBegin, this`preparedRows, this`preparedCommitted
      ensures preparedBegin == preparedRows == preparedCommitted == 0
    {
      preparedBegin, preparedRows, preparedCommitted := 0, 0, 0;
    }

    method Rewind(target: nat) returns (ok: bool)
      requires Valid()
      modifies this`position, this`preparedBegin, this`preparedRows, this`preparedCommitted
      ensures Valid() && ok == (!poisoned && target <= old(position))
      ensures ok ==> position == target && preparedRows == preparedCommitted == 0
      ensures !ok ==> position == old(position)
    {
      if poisoned || target > position {
        return false;
      }
      DiscardPrepared();
      position := target;
      ok := true;
    }

    method Reset() returns (ok: bool)
      requires Valid()
      modifies this, cache
      ensures Valid()
      ensures ok ==> position == 0 && !poisoned && preparedRows == preparedCommitted == 0
      ensures healthy ==> ok
    {
      DiscardPrepared();
      forall p | 0 <= p < capacity {
        cache[p] := DraftRow([], []);
      }
      ok := Call();
      if !ok {
        return;
      }
      position := 0;
      poisoned := false;
    }

    method Poison() returns (ok: bool)
      requires Valid()
      modifies this`poisoned, this`preparedBegin, this`preparedRows, this`preparedCommitted
      ensures Valid() && poisoned && preparedRows == 0
    {
      DiscardPrepared();
      ok := Launch(healthy);
      poisoned := true;
    }

    /** Builds the cache of a prompt in batches, polling for cancellation between them. */
    method InitializeKv(tokens: seq<nat>, hidden: seq<Hidden>, cancel: bool) returns (ok: bool)
      requires Valid() && |tokens| == |hidden|
      modifies this, cache
      ensures Valid()
      ensures ok ==> position == |tokens| && !poisoned && preparedRows == preparedCommitted == 0
      ensures ok ==> forall p :: 0 <= p < |tokens| ==> cache[p] == dm.kvRow(tokens[p], hidden[p], p)
      ensures healthy && !old(poisoned) && old(position) == 0 && |tokens| <= capacity && !cancel ==>
                TokensValid(tokens) ==> ok
    {
      if poisoned {
        return false;
      }
      if position != 0 || |tokens| > capacity || !TokensValid(tokens) {
        Invalid();
        return false;
      }
      DiscardPrepared();
      var stop := Poll(cancel);
      if stop {
        ok := Poison();
        return false;
      }
      var first := 0;
      while first < |tokens|
        invariant Valid() && first == position <= |tokens|
        invariant !poisoned && preparedRows == preparedCommitted == 0
        invariant forall p :: 0 <= p < first ==> cache[p] == dm.kvRow(tokens[p], hidden[p], p)
      {
        var count := if |tokens| - first < PREFILL_BATCH then |tokens| - first else PREFILL_BATCH;
        for row := 0 to count
          modifies cache
          invariant forall p :: 0 <= p < first + row ==> cache[p] == dm.kvRow(tokens[p], hidden[p], p)
        {
          cache[first + row] := dm.kvRow(tokens[first + row], hidden[first + row], first + row);
        }
        ok := Call();
        if !ok {
          return;
        }
        position := first + count;
        stop := Poll(cancel);
        if stop {
          ok := Poison();
          return false;
        }
        first := first + count;
      }
      ok := true;
    }

    /** One target-conditioned row. */
    method AppendKv(token: nat, hidden: Hidden) returns (ok: bool)
      requires Valid()
      modifies this`position, this`poisoned, this`preparedBegin, this`preparedRows, this`preparedCommitted, cache
      ensures Valid()
      ensures ok ==> position == old(position) + 1 && !poisoned && preparedRows == preparedCommitted == 0
      ensures ok ==> cache[old(position)] == dm.kvRow(token, hidden, old(position))
      ensures forall p :: 0 <= p < capacity && p != old(position) ==> cache[p] == old(cache[p])
      ensures healthy && !old(poisoned) && token < VOCABULARY && old(position) < capacity ==> ok
    {
      if poisoned {
        return false;
      }
      if token >= VOCABULARY || position >= capacity {
        Invalid();
        return false;
      }
      DiscardPrepared();
      cache[position] := dm.kvRow(token, hidden, position);
      ok := Call();
      if !ok {
        return;
      }
      position := position + 1;
    }

    /** Writes a batch of rows past the live ones without making them live. */
    method PrepareKvPrefix(tokens: seq<nat>, hidden: seq<Hidden>) returns (ok: bool)
      requires Valid() && |tokens| == |hidden|
      modifies this`poisoned, this`preparedBegin, this`preparedRows, this`preparedCommitted, cache
      ensures Valid()
      ensures ok ==> preparedBegin == position && preparedRows == |tokens| && preparedCommitted == 0 && !poisoned
      ensures ok ==> position + |tokens| <= capacity && |tokens| >= 1
      ensures ok ==> forall p :: position <= p < position + |tokens| ==>
                cache[p] == dm.kvRow(tokens[p - position], hidden[p - position], p)
      ensures forall p :: 0 <= p < position ==> cache[p] == old(cache[p])
      ensures healthy && !old(poisoned) && 1 <= |tokens| <= 4 && old(preparedRows) == 0 ==>
                |tokens| <= capacity - position && TokensValid(tokens) ==> ok
    {
      if poisoned {
        return false;
      }
      if |tokens| < 1 || |tokens| > 4 || preparedRows != 0 || |tokens| > capacity - position
         || !TokensValid(tokens) {
        Invalid();
        return false;
      }
      for row := 0 to |tokens|
        modifies cache
        invariant forall p :: position <= p < position + row ==>
                    cache[p] == dm.kvRow(tokens[p - position], hidden[p - position], p)
        invariant forall p :: 0 <= p < position ==> cache[p] == old(cache[p])
      {
        cache[position + row] := dm.kvRow(tokens[row], hidden[row], position + row);
      }
      ok := Call();
      if !ok {
        return;
      }
      preparedBegin, preparedRows, preparedCommitted := position, |tokens|, 0;
    }

    /** Makes the next prepared row live; rows must be committed one after another. */
    method CommitPrepared(rows: nat) returns (ok: bool)
      requires Valid()
      modifies this`position, this`preparedCommitted
      ensures Valid()
      ensures ok == (!poisoned && preparedRows != 0 && rows == old(preparedCommitted) + 1 && rows <= preparedRows
                     && old(position) == preparedBegin + old(preparedCommitted))
      ensures ok ==> position == old(position) + 1 && preparedCommitted == rows
      ensures !ok ==> position == old(position) && preparedCommitted == old(preparedCommitted)
    {
      if poisoned || preparedRows == 0 || rows != preparedCommitted + 1 || rows > preparedRows
         || position != preparedBegin + preparedCommitted {
        return false;
      }
      position := preparedBegin + rows;
      preparedCommitted := rows;
      ok := true;
    }

    /** The live rows, as the draft's attention reads them. */
    function Rows(end: nat): (rows: seq<DraftRow>)
      requires end <= cache.Length
      reads cache
      ensures |rows| == end && forall p :: 0 <= p < end ==> rows[p] == cache[p]
    {
      cache[..end]
    }

    /** One speculative step: it appends a row and proposes the next token, however bad the draft's guess. */
    method Propose(token: nat, hidden: Hidden, wanted: bool) returns (ok: bool, prediction: nat, confidence: real)
      requires Valid()
      modifies this, cache
      ensures Valid()
      ensures ok ==> position == old(position) + 1 && !poisoned && preparedRows == preparedCommitted == 0
      ensures ok ==> cache[old(position)] == dm.kvRow(token, hidden, old(position)) && prediction < VOCABULARY
      ensures forall p :: 0 <= p < capacity && p != old(position) ==> cache[p] == old(cache[p])
      ensures ok ==> finalHidden == dm.hiddenOf(token, hidden, cache[..position]) && prediction == dm.propose(finalHidden)
      ensures ok ==> confidence == if wanted then dm.confidence(finalHidden) else 1.0
      ensures healthy && dm.InRange() && !old(poisoned) && token < VOCABULARY && old(position) < capacity ==> ok
    {
      ok, prediction, confidence := false, 0, 1.0;
      if poisoned {
        return;
      }
      if token >= VOCABULARY || position >= capacity {
        Invalid();
        return;
      }
      DiscardPrepared();
      cache[position] := dm.kvRow(token, hidden, position);
      finalHidden := dm.hiddenOf(token, hidden, Rows(position + 1));
      ok := Call();
      if !ok {
        return;
      }
      prediction := dm.propose(finalHidden);
      if wanted {
        confidence := dm.confidence(finalHidden);
      }
      if prediction >= VOCABULARY || confidence <= 0.0 || confidence > 1.0 {
        Invalid();
        ok := false;
        return;
      }
      position := position + 1;
    }
  }
}
