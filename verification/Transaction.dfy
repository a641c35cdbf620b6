/**
  The transactional backend of one speculative round: it proposes with the draft, verifies with the
  target, and then commits the accepted prefix row by row, reconciling the draft cache as it goes.
 */
module MtpTransaction {
  import opened Common
  import opened MtpTarget
  import opened MtpVerifyRows
  import opened MtpDraft

  const MAX_DRAFT: nat := 3

  class TargetTransaction {
    const target: TargetMemory
    const draft: Draft
    const multirow: bool
    const inputs: array<nat>
    const predictions: array<nat>
    var entry: nat
    var rows: nat
    var committed: nat
    var preparedTail: nat
    var cachedSeed: nat
    var seedCacheValid: bool
    var active: bool
    var verified: bool
    ghost var fed: seq<nat>         // the tokens consumed by the committed target state
    ghost var states: seq<State>    // one-token decoding on the staged rows
    ghost var aborts: nat

    constructor (target: TargetMemory, draft: Draft, multirow: bool)
      requires target.Shape() && draft.Valid() && target.owner == 0 && (target.zeroCopy ==> multirow)
      requires target.length <= target.capacity == draft.capacity && target.healthy == draft.healthy
      ensures Shape() && this.target == target && this.draft == draft && this.multirow == multirow
      ensures !active && aborts == 0 && fresh(inputs) && fresh(predictions)
    {
      this.target, this.draft, this.multirow := target, draft, multirow;
      inputs := new nat[ROWS];
      predictions := new nat[ROWS];
      entry, rows, committed, preparedTail, cachedSeed := 0, 0, 0, 0, 0;
      seedCacheValid, active, verified := false, false, false;
      fed, states, aborts := [], [], 0;
    }

    /** The sizes, ownership rules and bounds that hold at all times, even after a fault. */
    ghost predicate Shape()
      reads target, draft
    {
      && target.Shape() && draft.Valid()
      && target.owner <= ROWS && (!target.zeroCopy ==> target.owner == 0) && (target.zeroCopy ==> multirow)
      && target.length <= target.capacity == draft.capacity && target.healthy == draft.healthy
      && inputs.Length == predictions.Length == ROWS && inputs != predictions
    }

    ghost predicate Fresh()
      reads target, draft
    {
      !target.poisoned && !draft.poisoned
    }

    /** The draft row a plain recomputation puts at position `p` of the history `tokens`. */
    ghost function DraftRowOf(tokens: seq<nat>, p: nat): DraftRow
      requires p + 1 < |tokens|
    {
      draft.dm.kvRow(tokens[p + 1], HiddenAfter(target.m, tokens[..p + 1]), p)
    }

    /** The first `end` rows of the draft cache are those of a plain recomputation. */
    ghost predicate DraftHolds(tokens: seq<nat>, end: nat)
      requires draft.cache.Length == draft.capacity && end < |tokens|
      reads draft.cache
    {
      && end <= draft.capacity
      && forall p :: 0 <= p < end ==> draft.cache[p] == DraftRowOf(tokens, p)
    }

    /** The target memory is the state of one-token decoding after `tokens`. */
    ghost predicate TargetHolds(tokens: seq<nat>)
      requires target.Shape() && target.owner <= ROWS
      reads target, target.conv, target.gdn, target.kv
    {
      && tokens != [] && target.length == |tokens|
      && target.Entry(Run(target.m, tokens), target.owner, 0)
      && target.hidden == HiddenAfter(target.m, tokens)
    }

    /** Between rounds: no transaction is open, target and draft agree with the consumed tokens. */
    ghost predicate Idle()
      reads this, target, draft, inputs, predictions, draft.cache, target.conv, target.gdn, target.kv, target.slotHidden
    {
      && Shape() && Fresh() && !active && TargetHolds(fed)
      && draft.position + 1 == |fed| && DraftHolds(fed, |fed| - 1)
    }

    /** A round has begun and may have proposed: rows of the draft beyond the entry are speculative,
        except that the seed's row may already be the right one. */
    ghost predicate InFlight()
      reads this, target, draft, inputs, predictions, draft.cache, target.conv, target.gdn, target.kv, target.slotHidden
    {
      && Shape() && Fresh() && active && !verified && committed == 0 && preparedTail == 0
      && TargetHolds(fed) && entry == |fed| && 1 <= rows <= ROWS && entry + rows <= target.capacity
      && target.slotHidden[0] == HiddenAfter(target.m, fed)
      && DraftHolds(fed, entry - 1) && entry <= draft.position + 1
      && (seedCacheValid ==> entry <= draft.position && SeedRow(cachedSeed))
    }

    ghost predicate SeedRow(seed: nat)
      requires Shape() && 1 <= entry <= draft.capacity
      reads this, target, draft, draft.cache, target.slotHidden
    {
      draft.cache[entry - 1] == draft.dm.kvRow(seed, target.slotHidden[0], entry - 1)
    }

    /** What verification leaves and no commit changes: every slot and prediction is that of one-token
        decoding on the entry history followed by the staged rows. */
    ghost predicate Staged()
      reads this, target, draft, inputs, predictions, draft.cache, target.conv, target.gdn, target.kv, target.slotHidden
    {
      && Shape() && Fresh() && active && verified
      && 1 <= rows <= ROWS && 1 <= entry <= |fed| && entry + rows <= target.capacity && committed <= rows
      && fed == fed[..entry] + inputs[..committed] && TokensValid(inputs[..rows])
      && Steps(target.m, states, inputs[..rows]) && states[0] == Run(target.m, fed[..entry])
      && target.slotHidden[0] == HiddenAfter(target.m, fed[..entry])
      && SlotsReady(states, rows) && states[rows].length == entry + rows && target.KvHolds(states[rows], 0, LAYER_COUNT)
    }

    lemma StagedBounds()
      requires Staged()
      ensures Shape() && Fresh() && active && verified && 1 <= rows <= ROWS == inputs.Length == predictions.Length
    {
    }

    /** Slots 1 to `count` hold the prefixes of one-token decoding, with their greedy predictions. */
    ghost predicate SlotsReady(run: seq<State>, count: nat)
      requires target.Shape() && inputs.Length == predictions.Length == ROWS && count <= ROWS && |run| > count
      reads inputs, predictions, target.conv, target.gdn, target.slotHidden
    {
      && target.SlotsHold(run, count, LAYER_COUNT)
      && forall r :: 0 <= r < count ==>
           && target.slotHidden[r + 1] == HiddenOf(target.m, run[r], inputs[r])
           && predictions[r] == target.m.argmax(target.slotHidden[r + 1])
    }

    /** After `committed` rows: target and draft stand where one-token decoding would put them. */
    ghost predicate Reconciled()
      requires Staged()
      reads this, target, draft, inputs, predictions, draft.cache, target.conv, target.gdn, target.kv, target.slotHidden
    {
      && (forall r :: 1 <= r < committed ==> inputs[r] == predictions[r - 1])
      && DraftSide() && (committed > 0 ==> TargetHolds(fed)) && (preparedTail != 0 ==> committed >= 2)
    }

    ghost predicate DraftSide()
      requires Staged()
      reads this, target, draft, inputs, predictions, draft.cache, target.conv, target.gdn, target.kv, target.slotHidden
    {
      && DraftHolds(fed, if committed == 0 then entry - 1 else |fed| - 1)
      && if committed == 0 then
           && preparedTail == draft.preparedRows == 0
           && draft.position == entry - (if seedCacheValid then 0 else 1)
           && (seedCacheValid ==> cachedSeed == inputs[0] && SeedRow(inputs[0]))
         else
           && draft.position + 1 == |fed| && TailTracks(committed - 1)
    }

    /** Of the prepared tail, if there is one, `done` rows are live. */
    ghost predicate TailTracks(done: nat)
      requires Staged()
      reads this, target, draft, inputs, predictions, draft.cache, target.conv, target.gdn, target.kv, target.slotHidden
    {
      if preparedTail == 0 then draft.preparedRows == 0 else draft.preparedCommitted == done && Prepared()
    }

    /** The prepared tail is the longest run of accepted rows, written past the seed's row. */
    ghost predicate Prepared()
      requires Staged()
      reads this, target, draft, inputs, predictions, draft.cache, target.conv, target.gdn, target.kv, target.slotHidden
    {
      && 2 <= preparedTail < rows && draft.preparedBegin == entry && draft.preparedRows == preparedTail
      && (preparedTail + 1 < rows ==> inputs[preparedTail + 1] != predictions[preparedTail])
      && forall p :: entry <= p < entry + preparedTail ==>
           draft.cache[p] == draft.dm.kvRow(inputs[p - entry + 1], target.slotHidden[p - entry + 1], p)
    }

    lemma IdleBounds()
      requires Idle()
      ensures Shape() && Fresh() && |fed| == target.length >= 1 && draft.position + 1 == |fed|
    {
    }

    lemma TargetFacts(tokens: seq<nat>)
      requires target.Shape() && target.owner <= ROWS && TargetHolds(tokens)
      ensures target.length == |tokens| >= 1 && target.hidden == HiddenAfter(target.m, tokens)
    {
    }

    /** A new transaction: nothing staged, no speculative draft row, nothing prepared. */
    method Arm(count: nat)
      requires Idle()
      modifies this, draft
      ensures Shape() && Fresh() && fed == old(fed) && aborts == old(aborts)
      ensures active && !verified && committed == 0 && preparedTail == 0 && !seedCacheValid
      ensures TargetHolds(fed) && draft.position + 1 == entry == |fed| && rows == count && DraftHolds(fed, entry - 1)
    {
      hide Run, Step, Input, HiddenOf, HiddenAfter, TargetTransaction.TargetHolds, TargetTransaction.DraftHolds;
      TargetFacts(fed);
      active, seedCacheValid, verified, committed, preparedTail := true, false, false, 0, 0;
      draft.DiscardPrepared();
      entry, rows := target.length, count;
    }

    method Open(count: nat) returns (ok: bool)
      requires Idle() && 1 <= count <= ROWS && target.length + count <= target.capacity
      modifies this, draft, target.slotHidden
      ensures Shape() && fed == old(fed) && aborts == old(aborts)
      ensures ok ==> InFlight() && rows == count && !seedCacheValid && draft.position + 1 == entry == |fed|
      ensures target.healthy ==> ok
    {
      hide Run, Step, Input, HiddenOf, HiddenAfter, TargetTransaction.TargetHolds, TargetTransaction.DraftHolds;
      Arm(count);
      TargetFacts(fed);
      ok := target.SnapshotEntry();
      assert TargetHolds(fed) && DraftHolds(fed, |fed| - 1);
    }

    /** Opens a transaction for up to `count` rows and keeps the entry's hidden row. */
    method Begin(count: nat) returns (ok: bool)
      requires Shape() && (!active && !target.poisoned ==> Idle())
      modifies this, draft, target.slotHidden
      ensures Shape() && fed == old(fed) && aborts == old(aborts)
      ensures ok ==> InFlight() && rows == count && !seedCacheValid
      ensures ok ==> draft.position + 1 == entry == |fed|
      ensures old(target.poisoned) || old(active) ==> !ok
      ensures target.healthy && old(!active && !target.poisoned) && !target.wholeRequestActive ==>
                1 <= count <= ROWS && target.length + count <= target.capacity ==> ok
    {
      hide TargetTransaction.Idle, TargetTransaction.InFlight;
      if Idle() {
        IdleBounds();
      }
      if active || target.poisoned || target.wholeRequestActive || count < 1 || count > ROWS
         || target.length == 0 || draft.position + 1 != target.length
         || count > target.capacity - target.length {
        return false;
      }
      ok := Open(count);
    }

    lemma InFlightBounds()
      requires InFlight()
      ensures Shape() && active && !verified && committed == 0 && 1 <= rows <= ROWS
      ensures 1 <= entry && entry + rows <= target.capacity && fed != []
    {
    }

    /** A draft that has consumed `tokens` and sets out from `seed`: its cache is that of a plain recomputation. */
    ghost function OutsetOf(tokens: seq<nat>, seed: nat): Outset
      requires tokens != []
    {
      Outset(draft.dm, seq(|tokens| - 1, p requires 0 <= p < |tokens| - 1 => DraftRowOf(tokens, p)),
             HiddenAfter(target.m, tokens), seed)
    }

    /** The draft stands where `i` steps of speculation lead. */
    ghost predicate Follows(from: Outset, i: nat)
      reads draft, draft.cache
    {
      && from.dm == draft.dm && draft.position <= draft.cache.Length && draft.cache[..draft.position] == from.Ahead(i).rows
      && (i > 0 ==> draft.finalHidden == from.Ahead(i).hidden)
    }

    /** Before the first step the cache is still that of the committed tokens. */
    lemma SettingOut(seed: nat)
      requires InFlight() && draft.position == entry - 1
      ensures fed != [] && Follows(OutsetOf(fed, seed), 0) && target.slotHidden[0] == OutsetOf(fed, seed).hidden
    {
      hide Run, Step, Input, HiddenAfter;
      assert draft.cache[..entry - 1] == OutsetOf(fed, seed).rows;
    }

    /** One speculative step of the draft: the first consumes the seed on the entry's hidden row, the
        later ones the previous proposal on the draft's own hidden row. */
    method StepDraft(i: nat, seed: nat, previous: nat, wanted: bool, ghost from: Outset)
      returns (ok: bool, proposal: nat, confidence: real)
      requires Shape() && Follows(from, i) && from.token == seed && from.hidden == target.slotHidden[0]
      requires i > 0 ==> previous == from.Ahead(i).token
      modifies draft, draft.cache
      ensures Shape()
      ensures ok ==> draft.position == old(draft.position) + 1 && !draft.poisoned
                     && draft.preparedRows == draft.preparedCommitted == 0
      ensures ok ==> draft.cache[old(draft.position)] ==
                     draft.dm.kvRow(if i == 0 then seed else previous, if i == 0 then target.slotHidden[0] else old(draft.finalHidden),
                                    old(draft.position))
      ensures forall p :: 0 <= p < draft.capacity && p != old(draft.position) ==> draft.cache[p] == old(draft.cache[p])
      ensures ok ==> proposal < VOCABULARY && Follows(from, i + 1) && proposal == from.Drafted(i) == from.Ahead(i + 1).token
      ensures ok ==> confidence == if wanted then from.Sureness(i) else 1.0
      ensures draft.healthy && draft.dm.InRange() && !old(draft.poisoned) && old(draft.position) < draft.capacity ==>
                (if i == 0 then seed else previous) < VOCABULARY ==> ok
    {
      ghost var before := from.Ahead(i);
      ok, proposal, confidence := draft.Propose(if i == 0 then seed else previous,
                                                if i == 0 then target.slotHidden[0] else draft.finalHidden, wanted);
      if ok {
        assert from.Ahead(i + 1) == before.Next();
        assert draft.cache[..draft.position] == before.rows + [draft.cache[draft.position - 1]];
      }
    }

    method ProposeOne(i: nat, seed: nat, previous: nat, wanted: bool, ghost from: Outset)
      returns (ok: bool, proposal: nat, confidence: real)
      requires InFlight() && draft.position == entry - 1 + i && entry + i <= draft.capacity
      requires i > 0 ==> seedCacheValid && cachedSeed == seed
      requires Follows(from, i) && from.token == seed && from.hidden == target.slotHidden[0]
      requires i > 0 ==> previous == from.Ahead(i).token
      modifies this`seedCacheValid, this`cachedSeed, draft, draft.cache
      ensures Shape()
      ensures ok ==> InFlight() && draft.position == entry + i && seedCacheValid && cachedSeed == seed
      ensures ok ==> proposal < VOCABULARY && Follows(from, i + 1) && proposal == from.Drafted(i) == from.Ahead(i + 1).token
      ensures ok ==> confidence == if wanted then from.Sureness(i) else 1.0
      ensures draft.healthy && draft.dm.InRange() && (if i == 0 then seed else previous) < VOCABULARY ==> ok
    {
      hide Run, Step, Input, HiddenAfter, TargetTransaction.Follows, Outset.Ahead, Outset.Drafted, Outset.Sureness;
      ok, proposal, confidence := StepDraft(i, seed, previous, wanted, from);
      if ok && i == 0 {
        cachedSeed, seedCacheValid := seed, true;
      }
    }

    /** Exactly `count` proposals. */
    method Propose(seed: nat, count: nat) returns (ok: bool, proposals: seq<nat>)
      requires Shape() && (active && !verified ==> InFlight())
      modifies this`seedCacheValid, this`cachedSeed, draft, draft.cache
      ensures Shape() && |proposals| == MAX_DRAFT
      ensures ok && count > 0 ==> InFlight() && rows == count + 1
      ensures ok ==> forall i :: 0 <= i < count < ROWS ==> proposals[i] < VOCABULARY
      ensures ok ==> fed != [] && forall i :: 0 <= i < count < ROWS ==> proposals[i] == OutsetOf(fed, seed).Drafted(i)
      ensures draft.healthy && draft.dm.InRange() && old(InFlight() && draft.position + 1 == entry) ==>
                count + 1 == rows && seed < VOCABULARY ==> ok
    {
      hide Run, Step, Input, HiddenAfter, TargetTransaction.InFlight, TargetTransaction.Idle, TargetTransaction.Follows,
           Outset.Ahead, Outset.Drafted;
      if InFlight() {
        InFlightBounds();
      }
      proposals := seq(MAX_DRAFT, _ => 0);
      if !active || verified || count + 1 != rows || draft.position + 1 != entry {
        return false, proposals;
      }
      SettingOut(seed);
      ghost var from := OutsetOf(fed, seed);
      for i := 0 to count
        invariant Shape() && InFlight() && draft.position == entry - 1 + i && |proposals| == MAX_DRAFT
        invariant i > 0 ==> seedCacheValid && cachedSeed == seed && proposals[i - 1] == from.Ahead(i).token
        invariant Follows(from, i) && from.hidden == target.slotHidden[0]
        invariant forall j :: 0 <= j < i ==> proposals[j] < VOCABULARY && proposals[j] == from.Drafted(j)
      {
        var proposal, confidence := 0, 1.0;
        ok, proposal, confidence := ProposeOne(i, seed, if i == 0 then 0 else proposals[i - 1], false, from);
        if !ok {
          return;
        }
        proposals := proposals[i := proposal];
      }
      ok := true;
    }

    /** Staged verification is restricted to the rows actually proposed. */
    method Restrict(count: nat)
      requires InFlight() && 1 <= count <= rows
      modifies this`rows
      ensures InFlight() && rows == count
    {
      rows := count;
    }

    /** The drafting loop: it ends before a stop token, and after a proposal of low confidence. */
    method DraftPrefix(seed: nat, maximum: nat, eosFrontier: bool, stop: nat, ghost from: Outset)
      returns (ok: bool, proposals: seq<nat>, actual: nat, stopped: bool)
      requires InFlight() && draft.position == entry - 1 && entry + maximum <= draft.capacity && maximum <= MAX_DRAFT
      requires Follows(from, 0) && from.token == seed && from.hidden == target.slotHidden[0] && maximum > 0
      modifies this`seedCacheValid, this`cachedSeed, draft, draft.cache
      ensures Shape() && |proposals| == MAX_DRAFT && (ok ==> InFlight())
      ensures ok ==> from.Yields(maximum, eosFrontier, stop, actual, stopped)
      ensures ok ==> forall i :: 0 <= i < actual || (stopped && i == actual) ==> proposals[i] == from.Drafted(i)
      ensures ok ==> forall i :: 0 <= i < actual ==> proposals[i] < VOCABULARY
      ensures draft.healthy && draft.dm.InRange() && seed < VOCABULARY ==> ok
    {
      hide Run, Step, Input, HiddenAfter, TargetTransaction.InFlight, TargetTransaction.Follows,
           Outset.Ahead, Outset.Drafted, Outset.Sureness;
      proposals, actual, stopped, ok := seq(MAX_DRAFT, _ => 0), 0, false, true;
      InFlightBounds();
      while actual < maximum
        invariant actual <= maximum && |proposals| == MAX_DRAFT && !stopped && Shape()
        invariant InFlight() && draft.position == entry - 1 + actual && entry + maximum <= draft.capacity
        invariant actual > 0 ==> seedCacheValid && cachedSeed == seed && proposals[actual - 1] == from.Ahead(actual).token
        invariant Follows(from, actual) && from.hidden == target.slotHidden[0]
        invariant forall j :: 0 <= j < actual ==> proposals[j] < VOCABULARY && proposals[j] == from.Drafted(j)
        invariant forall j :: 0 <= j < actual ==> eosFrontier ==> from.Drafted(j) != stop
        invariant forall j :: 0 <= j < actual && j + 1 < maximum ==> from.Sureness(j) >= 0.4
      {
        var proposal, confidence;
        ok, proposal, confidence := ProposeOne(actual, seed, if actual == 0 then 0 else proposals[actual - 1],
                                               actual + 1 < maximum, from);
        if !ok {
          return;
        }
        proposals := proposals[actual := proposal];
        if eosFrontier && proposal == stop {
          stopped := true;
          return;
        }
        actual := actual + 1;
        if confidence < 0.4 {
          return;
        }
      }
    }

    /** At most `maximum` proposals: drafting stops before a stop token, which stays unverified, and
        after a proposal of low confidence. */
    method ProposePrefix(seed: nat, maximum: nat, eosFrontier: bool, stop: nat)
      returns (ok: bool, proposals: seq<nat>, actual: nat, stopped: bool)
      requires Shape() && (active && !verified ==> InFlight())
      modifies this`rows, this`seedCacheValid, this`cachedSeed, draft, draft.cache
      ensures Shape() && |proposals| == MAX_DRAFT
      ensures ok ==> InFlight() && rows == actual + 1 && actual <= maximum < ROWS
      ensures ok ==> forall i :: 0 <= i < actual ==> proposals[i] < VOCABULARY
      ensures ok ==> (actual == 0 ==> stopped)
      ensures ok && stopped ==> eosFrontier && actual < maximum && proposals[actual] == stop
      ensures ok ==> fed != [] && OutsetOf(fed, seed).Yields(maximum, eosFrontier, stop, actual, stopped)
      ensures ok ==> forall i :: 0 <= i < actual ==> proposals[i] == OutsetOf(fed, seed).Drafted(i)
      ensures !ok ==> rows == old(rows)
      ensures draft.healthy && draft.dm.InRange() && old(InFlight() && draft.position + 1 == entry) ==>
                maximum > 0 && maximum + 1 == old(rows) && seed < VOCABULARY ==> ok
    {
      hide Run, Step, Input, HiddenAfter, TargetTransaction.InFlight, TargetTransaction.Idle, TargetTransaction.Follows,
           Outset.Ahead, Outset.Drafted, Outset.Sureness;
      if InFlight() {
        InFlightBounds();
      }
      proposals, actual, stopped := seq(MAX_DRAFT, _ => 0), 0, false;
      if !active || verified || maximum == 0 || maximum + 1 != rows || draft.position + 1 != entry {
        ok := false;
        return;
      }
      SettingOut(seed);
      ok, proposals, actual, stopped := DraftPrefix(seed, maximum, eosFrontier, stop, OutsetOf(fed, seed));
      if ok {
        Restrict(actual + 1);
      }
    }

    /** The batched verification: the owner of the live GDN state is published, then all rows run. */
    method VerifyMultirow() returns (ok: bool)
      requires Shape() && 1 <= rows <= ROWS
      requires Steps(target.m, states, inputs[..rows]) && states[0].length == target.length
      requires target.Entry(states[0], target.owner, 0) && target.length == entry
      modifies target`handle, target.conv, target.gdn, target.kv, target.act, target.mixed,
               target.slotHidden, predictions
      ensures Shape() && target.slotHidden[0] == old(target.slotHidden[0])
      ensures ok ==> states[rows].length == entry + rows <= target.capacity && TokensValid(inputs[..rows])
      ensures ok ==> SlotsReady(states, rows) && target.KvHolds(states[rows], 0, LAYER_COUNT)
      ensures target.healthy && target.m.InVocabulary() && active && !verified ==>
                entry + rows <= target.capacity && TokensValid(inputs[..rows]) ==> ok
    {
      hide Step, Input, HiddenOf, TargetMemory.SlotsHold, TargetMemory.KvHolds, TargetMemory.Entry;
      if !active || verified || target.length != entry || entry + rows > target.capacity
         || !TokensValid(inputs[..rows]) {
        return false;
      }
      target.handle := target.owner;
      ok := target.EnqueueMultirow(inputs, rows, states, inputs[..rows]);
      if !ok {
        return;
      }
      ok := Launch(target.healthy);
      if !ok {
        return;
      }
      ok := ReadPredictions();
    }

    /** The predictions of the staged rows, each a vocabulary index. */
    method ReadPredictions() returns (ok: bool)
      requires target.slotHidden.Length == ROWS + 1 && predictions.Length == ROWS && rows <= ROWS
      modifies predictions
      ensures ok ==> forall r :: 0 <= r < rows ==> predictions[r] == target.m.argmax(target.slotHidden[r + 1])
      ensures target.m.InVocabulary() ==> ok
    {
      for row := 0 to rows
        modifies predictions
        invariant forall r :: 0 <= r < row ==> predictions[r] == target.m.argmax(target.slotHidden[r + 1])
      {
        var index := target.m.argmax(target.slotHidden[row + 1]);
        if index >= VOCABULARY {
          return false;
        }
        predictions[row] := index;
      }
      ok := true;
    }

    /** The rows have run but the draft still holds the speculation. */
    ghost predicate Checked()
      reads this, target, draft, inputs, predictions, draft.cache, target.conv, target.gdn, target.kv, target.slotHidden
    {
      && Shape() && Fresh() && active && !verified && committed == 0 && preparedTail == 0
      && 1 <= rows <= ROWS && 1 <= entry == |fed| && entry + rows <= target.capacity
      && TokensValid(inputs[..rows]) && Steps(target.m, states, inputs[..rows]) && states[0] == Run(target.m, fed)
      && target.slotHidden[0] == HiddenAfter(target.m, fed)
      && SlotsReady(states, rows) && states[rows].length == entry + rows && target.KvHolds(states[rows], 0, LAYER_COUNT)
      && DraftHolds(fed, entry - 1) && entry <= draft.position + 1
      && (seedCacheValid ==> entry <= draft.position && SeedRow(cachedSeed))
    }

    /** The rows of a round: the seed, then the proposals; `states` is what one-token decoding makes of them. */
    method StageInputs(seed: nat, proposals: seq<nat>)
      requires InFlight() && rows - 1 <= |proposals|
      modifies this`states, inputs
      ensures InFlight() && inputs[0] == seed && forall i :: 1 <= i < rows ==> inputs[i] == proposals[i - 1]
      ensures |states| == rows + 1 && Steps(target.m, states, inputs[..rows]) && states[0] == Run(target.m, fed)
      ensures seed < VOCABULARY && TokensValid(proposals[..rows - 1]) ==> TokensValid(inputs[..rows])
    {
      hide Run, Step, Input, HiddenOf, HiddenAfter;
      for i := 0 to rows
        invariant i > 0 ==> inputs[0] == seed
        invariant forall j :: 1 <= j < i ==> inputs[j] == proposals[j - 1]
      {
        inputs[i] := if i == 0 then seed else proposals[i - 1];
      }
      assert forall i :: 1 <= i < rows ==> inputs[i] == proposals[..rows - 1][i - 1];
      states := StepsExist(target.m, Run(target.m, fed), inputs[..rows]);
    }

    /** Runs the staged rows: several rows in one batch, a single row by the native step. */
    method RunRows() returns (ok: bool)
      requires InFlight() && |states| == rows + 1
      requires Steps(target.m, states, inputs[..rows]) && states[0] == Run(target.m, fed)
      modifies target`handle, target`length, target`hidden, target.conv, target.gdn, target.kv, target.act,
               target.mixed, target.slotHidden, predictions
      ensures Shape() && (ok ==> Checked())
      ensures target.healthy && target.m.InVocabulary() && !target.wholeRequestActive ==>
                TokensValid(inputs[..rows]) ==> ok
    {
      hide Run, Step, Input, HiddenOf, HiddenAfter;
      if multirow && rows > 1 {
        ok := VerifyMultirow();
      } else {
        ok := target.ScalarRows(inputs, predictions, rows, states, inputs[..rows]);
      }
    }

    /** Rewinds the draft to what the entry's hidden row justifies: the seed's row is kept if the
        proposals started from this very seed.  From here on the round can commit. */
    method Conclude(seed: nat)
      requires Checked() && inputs[0] == seed
      modifies this`seedCacheValid, this`verified, draft`position,
               draft`preparedBegin, draft`preparedRows, draft`preparedCommitted
      ensures Staged() && Reconciled()
    {
      hide Run, Step, Input, HiddenOf, HiddenAfter;
      seedCacheValid := seedCacheValid && cachedSeed == seed;
      var ok := draft.Rewind(if seedCacheValid then entry else entry - 1);
      verified := true;
      assert fed[..entry] == fed;
    }

    /** Stages the seed and the proposals, verifies them, and rewinds the draft. */
    method Verify(seed: nat, proposals: seq<nat>, count: nat) returns (ok: bool, results: seq<nat>)
      requires Shape() && count <= |proposals| && (active && !verified ==> InFlight())
      modifies this, target`handle, target`length, target`hidden, target.conv, target.gdn, target.kv, target.act,
               target.mixed, target.slotHidden, predictions, inputs, draft`position,
               draft`preparedBegin, draft`preparedRows, draft`preparedCommitted
      ensures Shape() && fed == old(fed) && aborts == old(aborts) && committed == old(committed)
      ensures ok ==> Staged() && Reconciled() && rows == count + 1 && results == predictions[..rows]
      ensures ok ==> inputs[0] == seed && forall i :: 1 <= i <= count ==> inputs[i] == proposals[i - 1]
      ensures target.healthy && target.m.InVocabulary() && !target.wholeRequestActive && old(InFlight()) ==>
                count + 1 == old(rows) && seed < VOCABULARY && TokensValid(proposals[..count]) ==> ok
    {
      hide Run, Step, Input, HiddenOf, HiddenAfter, TargetTransaction.Reconciled, TargetTransaction.Checked,
           TargetTransaction.InFlight, TargetTransaction.Staged;
      if InFlight() {
        InFlightBounds();
      }
      results := [];
      if !active || verified || count + 1 != rows {
        return false, results;
      }
      StageInputs(seed, proposals);
      ok := RunRows();
      if ok {
        Conclude(seed);
        StagedBounds();
        results := predictions[..rows];
      }
    }

    /** The slots hold what one-token decoding leaves after the entry history and `r` staged rows. */
    lemma SlotIsHistory(r: nat)
      requires Staged() && r <= rows
      ensures states[r] == Run(target.m, fed[..entry] + inputs[..r]) && states[r].length == entry + r
      ensures target.slotHidden[r] == HiddenAfter(target.m, fed[..entry] + inputs[..r])
    {
      hide Step, Input, HiddenOf;
      StepsAreRuns(target.m, fed[..entry], states, inputs[..rows], r);
      assert inputs[..rows][..r] == inputs[..r];
      if r == 0 {
        assert fed[..entry] + inputs[..0] == fed[..entry];
      } else {
        assert inputs[..rows][r - 1] == inputs[r - 1];
      }
    }

    /** The rows of the history a longer history begins with are the same draft rows. */
    lemma DraftRowsExtend(token: nat, end: nat)
      requires draft.cache.Length == draft.capacity && end < |fed| && DraftHolds(fed, end)
      ensures DraftHolds(fed + [token], end)
    {
      hide HiddenAfter;
      forall p | 0 <= p < end
        ensures draft.cache[p] == DraftRowOf(fed + [token], p)
      {
        assert draft.cache[p] == DraftRowOf(fed, p);
        assert (fed + [token])[..p + 1] == fed[..p + 1];
      }
    }

    /** How many staged rows will be accepted: the longest run of inputs that were predicted. */
    method AcceptedRows() returns (valid: nat)
      requires Shape() && 1 <= rows <= ROWS
      ensures 1 <= valid <= rows
      ensures forall r :: 1 <= r < valid ==> inputs[r] == predictions[r - 1]
      ensures valid < rows ==> inputs[valid] != predictions[valid - 1]
    {
      valid := 1;
      while valid < rows && inputs[valid] == predictions[valid - 1]
        invariant 1 <= valid <= rows
        invariant forall r :: 1 <= r < valid ==> inputs[r] == predictions[r - 1]
      {
        valid := valid + 1;
      }
    }

    method PrepareBatch(tail: nat) returns (ok: bool)
      requires Staged() && Reconciled() && committed == 1 && 2 <= tail < rows
      requires tail + 1 < rows ==> inputs[tail + 1] != predictions[tail]
      modifies this`preparedTail, draft`poisoned, draft`preparedBegin, draft`preparedRows,
               draft`preparedCommitted, draft.cache
      ensures Shape() && (ok ==> Staged() && DraftSide())
      ensures target.healthy ==> ok
    {
      hide Run, Step, Input, HiddenOf, HiddenAfter, TargetTransaction.SlotsReady, TargetMemory.KvHolds;
      var tokens := inputs[1..1 + tail];
      var hiddenRows := target.slotHidden[1..1 + tail];
      assert TokensValid(tokens) by {
        assert tokens == inputs[..rows][1..1 + tail];
      }
      ok := draft.PrepareKvPrefix(tokens, hiddenRows);
      if !ok {
        return;
      }
      preparedTail := tail;
    }

    /** Before the second row commits, the draft rows of every proposal that will be accepted are
        computed in one batch.  The seed's row is already live, and no row becomes live here. */
    method PrepareTail() returns (ok: bool)
      requires Staged() && Reconciled() && committed == 1 && 2 <= rows
      modifies this`preparedTail, draft`poisoned, draft`preparedBegin, draft`preparedRows,
               draft`preparedCommitted, draft.cache
      ensures Shape() && (ok ==> Staged() && DraftSide())
      ensures target.healthy ==> ok
    {
      hide Run, Step, Input, HiddenOf, HiddenAfter, TargetTransaction.SlotsReady, TargetTransaction.DraftSide;
      var valid := AcceptedRows();
      ok := true;
      if valid - 1 >= 2 {
        ok := PrepareBatch(valid - 1);
      }
    }

    /** The draft already holds the row that committing `inputs[committed]` makes live. */
    ghost predicate DraftAhead()
      requires Staged() && committed < rows
      reads this, target, draft, inputs, predictions, draft.cache, target.conv, target.gdn, target.kv, target.slotHidden
    {
      draft.position == |fed| && TailTracks(committed) && DraftHolds(fed + [inputs[committed]], |fed|)
    }

    /** The row a plain recomputation appends when `inputs[committed]` is consumed. */
    lemma NextDraftRow()
      requires Staged() && DraftSide() && committed < rows
      ensures |fed| == entry + committed && inputs[committed] < VOCABULARY
      ensures DraftRowOf(fed + [inputs[committed]], |fed| - 1)
           == draft.dm.kvRow(inputs[committed], target.slotHidden[committed], |fed| - 1)
      ensures DraftHolds(fed + [inputs[committed]], if committed == 0 then entry - 1 else |fed| - 1)
    {
      hide Run, Step, Input, HiddenOf, HiddenAfter, TargetTransaction.SlotsReady, TargetMemory.KvHolds;
      SlotIsHistory(committed);
      assert inputs[..rows][committed] == inputs[committed];
      DraftRowsExtend(inputs[committed], if committed == 0 then entry - 1 else |fed| - 1);
      assert (fed + [inputs[committed]])[..|fed|] == fed;
    }

    /** The seed's row is still live from the proposals. */
    method ReuseSeedRow() returns (ok: bool)
      requires Staged() && DraftSide() && committed == 0 && seedCacheValid
      modifies this`seedCacheValid
      ensures ok && Shape() && Staged() && DraftAhead()
    {
      hide Run, Step, Input, HiddenOf, HiddenAfter, TargetTransaction.SlotsReady, TargetMemory.KvHolds;
      NextDraftRow();
      if draft.position != entry {
        return false;
      }
      seedCacheValid := false;
      ok := true;
    }

    method PublishPreparedRow() returns (ok: bool)
      requires Staged() && DraftSide() && 0 < committed < rows && preparedTail != 0
      requires inputs[committed] == predictions[committed - 1]
      modifies draft`position, draft`preparedCommitted
      ensures ok && Shape() && Staged() && DraftAhead()
    {
      hide Run, Step, Input, HiddenOf, HiddenAfter, TargetTransaction.SlotsReady, TargetMemory.KvHolds;
      NextDraftRow();
      assert draft.cache[|fed| - 1] == DraftRowOf(fed + [inputs[committed]], |fed| - 1);
      ok := draft.CommitPrepared(committed);
    }

    method AppendRow() returns (ok: bool)
      requires Staged() && DraftSide() && committed < rows && preparedTail == 0
      requires committed == 0 ==> !seedCacheValid
      modifies draft, draft.cache
      ensures Shape() && (ok ==> Staged() && DraftAhead())
      ensures target.healthy ==> ok
    {
      hide Run, Step, Input, HiddenOf, HiddenAfter, TargetTransaction.SlotsReady, TargetMemory.KvHolds;
      NextDraftRow();
      ok := draft.AppendKv(inputs[committed], target.slotHidden[committed]);
    }

    /** The draft's side of committing the next row: the seed's row is reused, a prepared row made
        live, or a row appended; each way the row is the one a plain recomputation gives. */
    method ReconcileDraft() returns (ok: bool)
      requires Staged() && DraftSide() && committed < rows
      requires committed > 0 ==> inputs[committed] == predictions[committed - 1]
      modifies this`seedCacheValid, draft, draft.cache
      ensures Shape() && (ok ==> Staged() && DraftAhead())
      ensures target.healthy ==> ok
    {
      hide Run, Step, Input, HiddenOf, HiddenAfter, TargetTransaction.SlotsReady, TargetMemory.KvHolds, TargetTransaction.DraftAhead;
      if committed == 0 && seedCacheValid {
        ok := ReuseSeedRow();
      } else if preparedTail != 0 {
        ok := PublishPreparedRow();
      } else {
        ok := AppendRow();
      }
    }

    /** Slot `r`, which holds the prefix `run`, has been restored to the live memory. */
    ghost predicate Restored(r: nat, run: State)
      requires target.Shape() && 1 <= r <= ROWS
      reads target, target.conv, target.gdn, target.slotHidden
    {
      && target.hidden == target.slotHidden[r]
      && target.ConvHolds(0, run, 0, LAYER_COUNT)
      && target.GdnHolds(if target.zeroCopy then r else 0, run, 0, LAYER_COUNT)
    }

    method RestoreTarget(r: nat) returns (ok: bool)
      requires Staged() && DraftSide() && 1 <= r <= rows
      modifies target`hidden, target.conv, target.gdn
      ensures Shape() && Staged() && DraftSide() && (ok ==> Restored(r, states[r]))
      ensures target.healthy ==> ok
    {
      hide Run, Step, Input, HiddenOf, HiddenAfter;
      ghost var run := states[r];
      assert target.ConvHolds(r, run, 0, LAYER_COUNT) && target.GdnHolds(r, run, 0, LAYER_COUNT);
      ok := target.Restore(r);
      assert target.SlotsHold(states, rows, LAYER_COUNT);
    }

    /** The rows written for a whole batch serve each of its prefixes. */
    lemma SlotKvHolds(r: nat)
      requires Staged() && r <= rows
      ensures states[r].length == entry + r && target.KvHolds(states[r], 0, LAYER_COUNT)
    {
      hide Run, Step, Input, HiddenOf, HiddenAfter, TargetTransaction.SlotsReady;
      SlotIsHistory(r);
      forall l | 0 <= l < LAYER_COUNT && FullAttention(l)
        ensures states[r].kv[l] <= states[rows].kv[l]
      {
        KvIsStable(target.m, states, inputs[..rows], r, rows, l);
      }
    }

    /** Makes slot `r` the live state: with zero copy it becomes the owner of the GDN state. */
    method PublishTarget(r: nat) returns (ok: bool)
      requires Staged() && committed < rows && r == committed + 1 && DraftAhead() && Restored(r, states[r])
      modifies target`owner, target`length
      ensures ok && Shape() && Staged() && DraftAhead()
      ensures TargetHolds(fed[..entry] + inputs[..r])
    {
      hide Run, Step, Input, HiddenOf, HiddenAfter, TargetTransaction.SlotsReady, TargetMemory.KvHolds;
      SlotIsHistory(r);
      SlotKvHolds(r);
      ok := true;
      if target.zeroCopy {
        ok := target.SelectOwner(r);
        if !ok {
          return;
        }
      }
      ok := target.SetLength(entry + r);
    }

    /** Once target and draft both stand past the row, the history grows by it. */
    method Adopt(r: nat)
      requires Staged() && committed < rows && r == committed + 1 && DraftAhead()
      requires TargetHolds(fed[..entry] + inputs[..r])
      requires forall q :: 1 <= q < r ==> inputs[q] == predictions[q - 1]
      requires preparedTail != 0 ==> r >= 2
      modifies this`committed, this`fed
      ensures Staged() && Reconciled() && committed == r && fed == old(fed) + [inputs[r - 1]]
    {
      hide Run, Step, Input, HiddenOf, HiddenAfter, TargetTransaction.SlotsReady, TargetTransaction.TargetHolds,
           TargetTransaction.Restored, TargetTransaction.DraftRowOf, TargetMemory.KvHolds, Draft.Valid, TargetMemory.Shape, Steps,
           TokensValid;
      assert inputs[..r] == inputs[..r - 1] + [inputs[r - 1]];
      assert fed[..entry] + inputs[..r] == fed + [inputs[r - 1]];
      fed := fed + [inputs[committed]];
      committed := r;
      assert fed[..entry] == old(fed[..entry]);
    }

    /** The steps of one commit, once its guard has passed. */
    method CommitNext(r: nat) returns (ok: bool)
      requires Staged() && Reconciled() && committed < rows && r == committed + 1
      requires r > 1 ==> inputs[r - 1] == predictions[r - 2]
      modifies this`committed, this`fed, this`preparedTail, this`seedCacheValid, target`hidden, target`owner,
               target`length, target.conv, target.gdn, draft, draft.cache
      ensures Shape()
      ensures ok ==> Staged() && Reconciled() && committed == r && fed == old(fed) + [inputs[r - 1]]
      ensures !ok ==> fed == old(fed)
      ensures target.healthy ==> ok
    {
      hide Run, Step, Input, HiddenOf, HiddenAfter, TargetTransaction.SlotsReady, TargetTransaction.DraftAhead, TargetTransaction.Restored,
           TargetTransaction.TargetHolds, TargetTransaction.DraftSide, TargetTransaction.Staged;
      if multirow && r == 2 {
        ok := PrepareTail();
        if !ok {
          return;
        }
      }
      ok := RestoreTarget(r);
      if !ok {
        return;
      }
      ok := ReconcileDraft();
      if !ok {
        return;
      }
      ok := PublishTarget(r);
      Adopt(r);
    }

    /** The token emitted with a committed row is the greedy continuation of the history. */
    lemma CommittedToken()
      requires Staged() && Reconciled() && committed > 0
      ensures predictions[committed - 1] == Next(target.m, fed) && target.length == |fed|
    {
      hide Run, Step, Input, HiddenOf, HiddenAfter;
      SlotIsHistory(committed);
    }

    /** Commits the prefix of `r` rows: the next row only, whose token must be the one predicted and
        whose input must have been predicted by the row before it. */
    method CommitPrefix(r: nat, pending: nat) returns (ok: bool)
      requires Shape() && (active && verified ==> Staged() && Reconciled())
      modifies this`committed, this`fed, this`preparedTail, this`seedCacheValid, target`hidden, target`owner,
               target`length, target.conv, target.gdn, draft, draft.cache
      ensures Shape()
      ensures ok ==> Staged() && Reconciled() && committed == r == old(committed) + 1
      ensures ok ==> fed == old(fed) + [inputs[r - 1]] && predictions[r - 1] == pending
      ensures ok ==> pending == Next(target.m, fed) && target.length == |fed|
      ensures !ok ==> fed == old(fed)
      ensures target.healthy && active && verified && r == old(committed) + 1 <= rows && predictions[r - 1] == pending ==>
                (r > 1 ==> inputs[r - 1] == predictions[r - 2]) ==> ok
    {
      hide Run, Step, Input, HiddenOf, HiddenAfter;
      if !active || !verified || r != committed + 1 || r > rows || predictions[r - 1] != pending
         || (r > 1 && inputs[r - 1] != predictions[r - 2]) {
        return false;
      }
      ok := CommitNext(r);
      if ok {
        CommittedToken();
      }
    }

    /** Retires the transaction. */
    method Finish() returns (ok: bool)
      requires Shape() && (active && verified ==> Staged() && Reconciled())
      modifies this`active, this`verified, this`seedCacheValid, this`preparedTail,
               draft`preparedBegin, draft`preparedRows, draft`preparedCommitted
      ensures Shape() && (ok ==> Idle() && !active)
      ensures old(active && verified && committed > 0) ==> ok
    {
      hide Run, Step, Input, HiddenOf, HiddenAfter;
      if !active || !verified || committed == 0 || target.length != entry + committed
         || draft.position + 1 != target.length {
        return false;
      }
      draft.DiscardPrepared();
      preparedTail, active, seedCacheValid, verified := 0, false, false, false;
      ok := true;
    }

    /** Drains the device and poisons both networks; nothing of an aborted round is ever reused. */
    method Abort() returns (ok: bool)
      requires Shape()
      modifies this`active, this`verified, this`seedCacheValid, this`preparedTail, this`aborts,
               target`poisoned, draft`poisoned, draft`preparedBegin, draft`preparedRows, draft`preparedCommitted
      ensures Shape() && target.poisoned && draft.poisoned && !active && aborts == old(aborts) + 1
    {
      ok := Launch(target.healthy);
      var drained := draft.Poison();
      target.poisoned := true;
      draft.DiscardPrepared();
      preparedTail, active, seedCacheValid, verified := 0, false, false, false;
      aborts := aborts + 1;
      ok := ok && drained;
    }

    /** What prefill hands over: the memory holds the state of one-token decoding after the prompt, and
        the residual rows are the last layer's activations of every prompt token. */
    ghost predicate Prefilled(prompt: seq<nat>, residual: seq<Activation>)
      requires Shape()
      reads target, draft, target.conv, target.gdn, target.kv
    {
      && prompt != [] && |residual| == |prompt| == target.length
      && target.Entry(Run(target.m, prompt), target.owner, 0)
      && forall i :: 0 <= i < |prompt| ==>
           residual[i] == Input(target.m, Run(target.m, prompt[..i]), prompt[i], LAYER_COUNT)
    }

    /** The hidden rows of the prompt, as the final norm publishes them. */
    lemma PromptHidden(prompt: seq<nat>, residual: seq<Activation>, i: nat)
      requires Shape() && Prefilled(prompt, residual) && i < |prompt|
      ensures target.m.finalHidden(residual[i]) == HiddenAfter(target.m, prompt[..i + 1])
    {
      hide Run, Step, Input;
      assert prompt[..i + 1][..i] == prompt[..i];
    }

    /** The final norm, for every row of the prompt. */
    method PromptRows(prompt: seq<nat>, residual: seq<Activation>) returns (hiddenRows: seq<Hidden>)
      requires Shape() && Prefilled(prompt, residual)
      ensures prompt != [] && |hiddenRows| == |prompt| == target.length && target.Entry(Run(target.m, prompt), target.owner, 0)
      ensures forall i :: 0 <= i < |prompt| ==> hiddenRows[i] == HiddenAfter(target.m, prompt[..i + 1])
    {
      hide Run, Step, Input, HiddenOf, HiddenAfter;
      hiddenRows := seq(|prompt|, i requires 0 <= i < |prompt| => target.m.finalHidden(residual[i]));
      forall i | 0 <= i < |prompt|
        ensures hiddenRows[i] == HiddenAfter(target.m, prompt[..i + 1])
      {
        PromptHidden(prompt, residual, i);
      }
    }

    /** The draft cache of a prompt: row `p` pairs the hidden row after `p + 1` tokens with the token
        that follows. */
    method BuildDraft(prompt: seq<nat>, hiddenRows: seq<Hidden>, cancel: bool) returns (ok: bool)
      requires Shape() && 0 < |prompt| == |hiddenRows| <= target.capacity && TokensValid(prompt)
      requires forall i :: 0 <= i < |prompt| ==> hiddenRows[i] == HiddenAfter(target.m, prompt[..i + 1])
      modifies draft, draft.cache
      ensures Shape()
      ensures ok ==> !draft.poisoned && draft.position + 1 == |prompt| && DraftHolds(prompt, |prompt| - 1)
      ensures target.healthy && !cancel ==> ok
    {
      hide Run, Step, Input, HiddenOf, HiddenAfter;
      ok := draft.Reset();
      if ok {
        assert TokensValid(prompt[1..]) by {
          assert forall i :: 0 <= i < |prompt| - 1 ==> prompt[1..][i] == prompt[i + 1];
        }
        ok := draft.InitializeKv(prompt[1..], hiddenRows[..|prompt| - 1], cancel);
      }
    }

    /** Publishes the hidden row the prompt ends on, and builds the draft's cache. */
    method HandOver(prompt: seq<nat>, hiddenRows: seq<Hidden>, cancel: bool) returns (ok: bool)
      requires Shape() && 0 < |prompt| == |hiddenRows| == target.length && TokensValid(prompt)
      requires forall i :: 0 <= i < |prompt| ==> hiddenRows[i] == HiddenAfter(target.m, prompt[..i + 1])
      modifies target`hidden, draft, draft.cache
      ensures Shape()
      ensures ok ==> !draft.poisoned && draft.position + 1 == |prompt| && DraftHolds(prompt, |prompt| - 1)
      ensures ok ==> target.hidden == HiddenAfter(target.m, prompt)
      ensures target.healthy && !cancel ==> ok
    {
      hide Run, Step, Input, HiddenOf, HiddenAfter, TargetTransaction.DraftHolds;
      assert prompt[..|prompt|] == prompt;
      target.hidden := hiddenRows[|prompt| - 1];
      ok := Launch(target.healthy);
      if ok {
        ok := BuildDraft(prompt, hiddenRows, cancel);
      }
    }

    /** Takes over a prompt the target has consumed: publishes its hidden rows, builds the draft cache. */
    method InitializePrefill(prompt: seq<nat>, residual: seq<Activation>, routeReady: bool, cancel: bool)
      returns (ok: bool)
      requires Shape() && (!active && |prompt| == target.length > 0 ==> Prefilled(prompt, residual))
      modifies this, target`hidden, target`poisoned, draft, draft.cache
      ensures Shape() && (ok ==> Idle() && fed == prompt)
      ensures target.healthy && old(!active && !target.poisoned) && !target.wholeRequestActive && target.owner == 0 ==>
                |prompt| == target.length > 0 && routeReady && TokensValid(prompt) && !cancel ==> ok
    {
      hide Run, Step, Input, HiddenOf, HiddenAfter, TargetTransaction.DraftHolds, TargetMemory.Entry,
           TargetTransaction.Prefilled;
      if target.owner != 0 || active || target.poisoned || target.wholeRequestActive || |prompt| == 0
         || |prompt| != target.length || !routeReady || !TokensValid(prompt) {
        return false;
      }
      seedCacheValid, preparedTail := false, 0;
      var hiddenRows := PromptRows(prompt, residual);
      ok := HandOver(prompt, hiddenRows, cancel);
      if !ok {
        ok := Abort();
        return false;
      }
      fed := prompt;
    }
  }
}
