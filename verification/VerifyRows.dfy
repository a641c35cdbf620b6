/**
  The verifier's device memory and the layer-major batch of up to four rows.

  Row 0 of `conv` and `gdn` is the request arena; rows 1 to 4 are the snapshot slots.  `owner` is
  the row that holds the live GDN state, so after a commit it may be one of the very slots the next
  verification writes.
 */
module MtpVerifyRows {
  import opened Common
  import opened MtpTarget

  const ROWS: nat := 4

  /** A device call: it may fail at any time unless the device is healthy.  What a failed call was to write
      is arbitrary afterwards; what it was not to write is untouched. */
  method Launch(healthy: bool) returns (ok: bool)
    ensures healthy ==> ok
  {
    ok := *;
    if healthy {
      ok := true;
    }
  }

  /** Arbitrary contents for some of the cells. */
  method Garble<T(0)>(a: array<T>, from: nat, to: nat)
    requires from <= to <= a.Length
    modifies a
    ensures forall i :: 0 <= i < a.Length && !(from <= i < to) ==> a[i] == old(a[i])
  {
    for i := from to to
      invariant forall j :: 0 <= j < a.Length && !(from <= j < to) ==> a[j] == old(a[j])
    {
      a[i] := *;
    }
  }

  method GarbleRow<T(0)>(a: array2<T>, row: nat, from: nat, to: nat)
    requires row < a.Length0 && from <= to <= a.Length1
    modifies a
    ensures forall i, l :: 0 <= i < a.Length0 && 0 <= l < a.Length1 && !(i == row && from <= l < to) ==> a[i, l] == old(a[i, l])
  {
    for k := from to to
      invariant forall i, l :: 0 <= i < a.Length0 && 0 <= l < a.Length1 && !(i == row && from <= l < to) ==>
                  a[i, l] == old(a[i, l])
    {
      a[row, k] := *;
    }
  }

  /** The keys and values already written for all the rows of a batch begin with what row `r` sees. */
  lemma VisiblePrefix(m: Model, states: seq<State>, tokens: seq<nat>, r: nat, l: nat)
    requires Steps(m, states, tokens) && r < |tokens| && l < LAYER_COUNT && FullAttention(l)
    ensures |states[|tokens|].kv[l]| == states[0].length + |tokens|
    ensures states[|tokens|].kv[l][..states[0].length + r + 1]
         == states[r].kv[l] + [m.kvRow(l, Input(m, states[r], tokens[r], l), states[0].length + r)]
  {
    hide Step, Input;
    AttentionStep(m, states[r], tokens[r], l);
    KvIsStable(m, states, tokens, 0, r, l);
    KvIsStable(m, states, tokens, r + 1, |tokens|, l);
    KvIsStable(m, states, tokens, 0, |tokens|, l);
  }

  class TargetMemory {
    const m: Model
    const capacity: nat
    const zeroCopy: bool   // whether the live GDN state may stay in a slot
    const healthy: bool
    const conv: array2<ConvState>
    const gdn: array2<GdnState>
    const kv: array2<KvRow>
    const slotHidden: array<Hidden>
    const act: array<Activation>
    const mixed: array<Mixed>
    var hidden: Hidden
    var length: nat
    var owner: nat
    var handle: nat        // where row 0 of a batch reads its GDN state
    var poisoned: bool
    var wholeRequestActive: bool

    ghost predicate Shape() {
      && conv.Length0 == gdn.Length0 == ROWS + 1
      && conv.Length1 == gdn.Length1 == kv.Length0 == LAYER_COUNT
      && kv.Length1 == capacity
      && slotHidden.Length == ROWS + 1
      && act.Length == mixed.Length == ROWS
    }

    constructor (m: Model, capacity: nat, zeroCopy: bool, healthy: bool)
      ensures Shape() && this.m == m && this.capacity == capacity
      ensures this.zeroCopy == zeroCopy && this.healthy == healthy
      ensures length == owner == 0 && !poisoned && !wholeRequestActive
      ensures fresh(conv) && fresh(gdn) && fresh(kv) && fresh(slotHidden) && fresh(act) && fresh(mixed)
    {
      this.m, this.capacity, this.zeroCopy, this.healthy := m, capacity, zeroCopy, healthy;
      conv := new ConvState[ROWS + 1, LAYER_COUNT];
      gdn := new GdnState[ROWS + 1, LAYER_COUNT];
      kv := new KvRow[LAYER_COUNT, capacity];
      slotHidden := new Hidden[ROWS + 1];
      act := new Activation[ROWS];
      mixed := new Mixed[ROWS];
      hidden, length, owner, handle := Hidden([]), 0, 0, 0;
      poisoned, wholeRequestActive := false, false;
    }

    ghost predicate ConvHolds(row: nat, st: State, from: nat, to: nat)
      requires Shape() && row <= ROWS && to <= LAYER_COUNT
      reads conv
    {
      forall l :: from <= l < to && !FullAttention(l) ==> conv[row, l] == st.conv[l]
    }

    ghost predicate GdnHolds(row: nat, st: State, from: nat, to: nat)
      requires Shape() && row <= ROWS && to <= LAYER_COUNT
      reads gdn
    {
      forall l :: from <= l < to && !FullAttention(l) ==> gdn[row, l] == st.gdn[l]
    }

    ghost predicate KvHolds(st: State, from: nat, to: nat)
      requires Shape() && to <= LAYER_COUNT && st.length <= capacity
      reads kv
    {
      forall l, p :: from <= l < to && FullAttention(l) && 0 <= p < st.length ==> kv[l, p] == st.kv[l][p]
    }

    /** The live state of the target is `st`, with the GDN part held by row `source`. */
    ghost predicate Entry(st: State, source: nat, from: nat)
      requires Shape() && source <= ROWS && from <= LAYER_COUNT
      reads conv, gdn, kv
    {
      && st.length <= capacity
      && ConvHolds(0, st, from, LAYER_COUNT)
      && GdnHolds(source, st, from, LAYER_COUNT)
      && KvHolds(st, from, LAYER_COUNT)
    }

    /** Slot `r + 1` holds the recurrent state after `r + 1` one-token steps, for the layers below `to`. */
    ghost predicate SlotsHold(states: seq<State>, count: nat, to: nat)
      requires Shape() && count <= ROWS && count < |states| && to <= LAYER_COUNT
      reads conv, gdn
    {
      forall r :: 1 <= r <= count ==> ConvHolds(r, states[r], 0, to) && GdnHolds(r, states[r], 0, to)
    }

    /** Row `r` carries what one-token decoding would feed layer `layer` with `tokens[r]`. */
    ghost predicate RowsAt(states: seq<State>, tokens: seq<nat>, layer: nat)
      requires Shape() && |tokens| <= ROWS && |states| == |tokens| + 1 && layer <= LAYER_COUNT
      reads act
    {
      forall r :: 0 <= r < |tokens| ==> act[r] == Input(m, states[r], tokens[r], layer)
    }

    /** The tail of every layer, for all rows: output projection, residual, norm and MLP. */
    method FinishLayer(layer: nat, count: nat, ghost states: seq<State>, ghost tokens: seq<nat>) returns (ok: bool)
      requires Shape() && layer < LAYER_COUNT && count == |tokens| <= ROWS && Steps(m, states, tokens)
      requires RowsAt(states, tokens, layer)
      requires forall r :: 0 <= r < count ==> mixed[r] == Mix(m, states[r], act[r], layer)
      modifies act
      ensures ok ==> RowsAt(states, tokens, layer + 1)
      ensures healthy ==> ok
    {
      hide Step, Mix;
      for row := 0 to count
        invariant forall r :: 0 <= r < row ==> act[r] == Input(m, states[r], tokens[r], layer + 1)
        invariant forall r :: row <= r < count ==> act[r] == Input(m, states[r], tokens[r], layer)
        invariant forall r :: row <= r < count ==> mixed[r] == Mix(m, states[r], act[r], layer)
      {
        act[row] := m.layerOut(layer, act[row], mixed[row]);
      }
      ok := Launch(healthy);
      if !ok {
        Garble(act, 0, count);
      }
    }

    /** Row `row` of a linear-attention layer: it advances the arena's convolution, saves it in the
        row's slot, and writes the row's GDN state from the state before it.  Row 0 reads that state
        through the published handle, which may name the slot being written. */
    method LinearRow(layer: nat, row: nat, ghost st: State, ghost token: nat) returns (ok: bool)
      requires Shape() && layer < LAYER_COUNT && !FullAttention(layer) && handle <= ROWS && row < ROWS
      requires act[row] == Input(m, st, token, layer) && conv[0, layer] == st.conv[layer]
      requires gdn[if row == 0 then handle else row, layer] == st.gdn[layer]
      modifies conv, gdn, mixed
      ensures ok ==> conv[0, layer] == conv[row + 1, layer] == Step(m, st, token).conv[layer]
      ensures ok ==> gdn[row + 1, layer] == Step(m, st, token).gdn[layer]
      ensures ok ==> mixed[row] == Mix(m, st, act[row], layer)
      ensures forall i, l :: 0 <= i <= ROWS && 0 <= l < LAYER_COUNT && (l != layer || (i != 0 && i != row + 1)) ==>
                conv[i, l] == old(conv[i, l])
      ensures forall i, l :: 0 <= i <= ROWS && 0 <= l < LAYER_COUNT && (l != layer || i != row + 1) ==>
                gdn[i, l] == old(gdn[i, l])
      ensures forall r :: 0 <= r < ROWS && r != row ==> mixed[r] == old(mixed[r])
      ensures healthy ==> ok
    {
      hide Step, Input, Mix;
      LinearStep(m, st, token, layer);
      var convolved := m.convOut(layer, conv[0, layer], act[row]);
      conv[0, layer] := m.convNext(layer, conv[0, layer], act[row]);
      var source := if row == 0 then gdn[handle, layer] else gdn[row, layer];
      mixed[row] := m.gdnOut(layer, source, convolved, act[row]);
      gdn[row + 1, layer] := m.gdnNext(layer, source, convolved, act[row]);
      conv[row + 1, layer] := conv[0, layer];
      ok := Launch(healthy);
      if !ok {
        conv[0, layer] := *;
        conv[row + 1, layer], gdn[row + 1, layer], mixed[row] := *, *, *;
      }
    }

    /** One linear-attention layer for all rows: row `r` reads the slot of row `r - 1`. */
    method LinearLayer(layer: nat, count: nat, ghost states: seq<State>, ghost tokens: seq<nat>) returns (ok: bool)
      requires Shape() && layer < LAYER_COUNT && !FullAttention(layer) && handle <= ROWS
      requires 1 <= count == |tokens| <= ROWS && Steps(m, states, tokens)
      requires RowsAt(states, tokens, layer)
      requires conv[0, layer] == states[0].conv[layer] && gdn[handle, layer] == states[0].gdn[layer]
      modifies conv, gdn, act, mixed
      ensures ok ==> RowsAt(states, tokens, layer + 1)
      ensures ok ==> forall r :: 1 <= r <= count ==>
                conv[r, layer] == states[r].conv[layer] && gdn[r, layer] == states[r].gdn[layer]
      ensures forall i, l :: 0 <= i <= ROWS && 0 <= l < LAYER_COUNT && l != layer ==>
                conv[i, l] == old(conv[i, l]) && gdn[i, l] == old(gdn[i, l])
      ensures healthy ==> ok
    {
      hide Step, Input, Mix;
      for row := 0 to count
        modifies conv, gdn, mixed
        invariant conv[0, layer] == states[row].conv[layer]
        invariant row == 0 ==> gdn[handle, layer] == states[0].gdn[layer]
        invariant forall r :: 1 <= r <= row ==>
                    conv[r, layer] == states[r].conv[layer] && gdn[r, layer] == states[r].gdn[layer]
        invariant forall r :: 0 <= r < row ==> mixed[r] == Mix(m, states[r], act[r], layer)
        invariant forall i, l :: 0 <= i <= ROWS && 0 <= l < LAYER_COUNT && l != layer ==>
                    conv[i, l] == old(conv[i, l]) && gdn[i, l] == old(gdn[i, l])
      {
        ok := LinearRow(layer, row, states[row], tokens[row]);
        if !ok {
          return;
        }
      }
      ok := FinishLayer(layer, count, states, tokens);
    }

    /** The rows of layer `layer`'s cache before position `end`. */
    function CacheRows(layer: nat, end: nat): (rows: seq<KvRow>)
      requires Shape() && layer < LAYER_COUNT && end <= capacity
      reads kv
      ensures |rows| == end && forall p :: 0 <= p < end ==> rows[p] == kv[layer, p]
    {
      seq(end, p requires 0 <= p < end reads kv => kv[layer, p])
    }

    /** The keys and values of all rows are written to the cache at their own positions. */
    method WriteKeys(layer: nat, count: nat, entry: nat, ghost states: seq<State>, ghost tokens: seq<nat>)
      returns (ok: bool)
      requires Shape() && layer < LAYER_COUNT && FullAttention(layer)
      requires 1 <= count == |tokens| <= ROWS && Steps(m, states, tokens)
      requires entry == states[0].length && entry + count <= capacity
      requires RowsAt(states, tokens, layer)
      requires forall p :: 0 <= p < entry ==> kv[layer, p] == states[0].kv[layer][p]
      modifies kv
      ensures |states[count].kv[layer]| == entry + count
      ensures ok ==> forall p :: 0 <= p < entry + count ==> kv[layer, p] == states[count].kv[layer][p]
      ensures forall l, p :: 0 <= l < LAYER_COUNT && 0 <= p < capacity && (l != layer || p < entry) ==>
                kv[l, p] == old(kv[l, p])
      ensures healthy ==> ok
    {
      hide Step, Input, Mix;
      KvIsStable(m, states, tokens, 0, count, layer);
      ghost var all := states[count].kv[layer];
      for row := 0 to count
        invariant forall p :: 0 <= p < entry + row ==> kv[layer, p] == all[p]
        invariant forall l, p :: 0 <= l < LAYER_COUNT && 0 <= p < capacity && (l != layer || p < entry) ==>
                    kv[l, p] == old(kv[l, p])
      {
        VisiblePrefix(m, states, tokens, row, layer);
        assert all[entry + row] == all[..entry + row + 1][entry + row];
        kv[layer, entry + row] := m.kvRow(layer, act[row], entry + row);
      }
      ok := Launch(healthy);
      if !ok {
        GarbleRow(kv, layer, entry, entry + count);
      }
    }

    /** Row `r` attends to the positions up to its own, though later rows' keys are in the cache. */
    method AttendRows(layer: nat, count: nat, entry: nat, ghost states: seq<State>, ghost tokens: seq<nat>)
      returns (ok: bool)
      requires Shape() && layer < LAYER_COUNT && FullAttention(layer)
      requires 1 <= count == |tokens| <= ROWS && Steps(m, states, tokens)
      requires entry == states[0].length && entry + count <= capacity
      requires RowsAt(states, tokens, layer) && |states[count].kv[layer]| == entry + count
      requires forall p :: 0 <= p < entry + count ==> kv[layer, p] == states[count].kv[layer][p]
      modifies mixed
      ensures ok ==> forall r :: 0 <= r < count ==> mixed[r] == Mix(m, states[r], act[r], layer)
      ensures healthy ==> ok
    {
      hide Step, Input, Mix;
      for row := 0 to count
        invariant forall r :: 0 <= r < row ==> mixed[r] == Mix(m, states[r], act[r], layer)
      {
        VisiblePrefix(m, states, tokens, row, layer);
        KvIsStable(m, states, tokens, 0, row, layer);
        AttentionStep(m, states[row], tokens[row], layer);
        var rows := CacheRows(layer, entry + row + 1);
        assert rows == states[count].kv[layer][..entry + row + 1];
        mixed[row] := m.attend(layer, act[row], rows);
      }
      ok := Launch(healthy);
      if !ok {
        Garble(mixed, 0, count);
      }
    }

    /** One full-attention layer for all rows. */
    method AttentionLayer(layer: nat, count: nat, entry: nat, ghost states: seq<State>, ghost tokens: seq<nat>)
      returns (ok: bool)
      requires Shape() && layer < LAYER_COUNT && FullAttention(layer)
      requires 1 <= count == |tokens| <= ROWS && Steps(m, states, tokens)
      requires entry == states[0].length && entry + count <= capacity
      requires RowsAt(states, tokens, layer)
      requires forall p :: 0 <= p < entry ==> kv[layer, p] == states[0].kv[layer][p]
      modifies kv, act, mixed
      ensures |states[count].kv[layer]| == entry + count
      ensures ok ==> RowsAt(states, tokens, layer + 1)
      ensures ok ==> forall p :: 0 <= p < entry + count ==> kv[layer, p] == states[count].kv[layer][p]
      ensures forall l, p :: 0 <= l < LAYER_COUNT && 0 <= p < capacity && (l != layer || p < entry) ==>
                kv[l, p] == old(kv[l, p])
      ensures healthy ==> ok
    {
      hide Step, Input, Mix;
      ok := WriteKeys(layer, count, entry, states, tokens);
      if !ok {
        return;
      }
      ok := AttendRows(layer, count, entry, states, tokens);
      if !ok {
        return;
      }
      ok := FinishLayer(layer, count, states, tokens);
    }

    /** The wavefront of a layer-major batch before layer `layer`: the rows stand at that layer, the
        slots are assembled below it, and the entry state is intact from it upwards. */
    ghost predicate Wavefront(states: seq<State>, tokens: seq<nat>, layer: nat)
      requires Shape() && handle <= ROWS && layer <= LAYER_COUNT
      reads this, conv, gdn, kv, act
    {
      && 1 <= |tokens| <= ROWS && Steps(m, states, tokens)
      && states[0].length + |tokens| == states[|tokens|].length <= capacity
      && RowsAt(states, tokens, layer) && SlotsHold(states, |tokens|, layer)
      && Entry(states[0], handle, layer) && KvHolds(states[|tokens|], 0, layer)
    }

    method AdvanceLinear(layer: nat, count: nat, ghost states: seq<State>, ghost tokens: seq<nat>) returns (ok: bool)
      requires Shape() && layer < LAYER_COUNT && !FullAttention(layer) && handle <= ROWS
      requires count == |tokens| && Wavefront(states, tokens, layer)
      modifies conv, gdn, act, mixed
      ensures ok ==> Wavefront(states, tokens, layer + 1)
      ensures healthy ==> ok
    {
      hide Step, Input, Mix;
      ok := LinearLayer(layer, count, states, tokens);
    }

    method AdvanceAttention(layer: nat, count: nat, ghost states: seq<State>, ghost tokens: seq<nat>) returns (ok: bool)
      requires Shape() && layer < LAYER_COUNT && FullAttention(layer) && handle <= ROWS && length <= capacity
      requires count == |tokens| && Wavefront(states, tokens, layer) && length == states[0].length
      modifies kv, act, mixed
      ensures ok ==> Wavefront(states, tokens, layer + 1)
      ensures forall l, p :: 0 <= l < LAYER_COUNT && 0 <= p < length ==> kv[l, p] == old(kv[l, p])
      ensures healthy ==> ok
    {
      hide Step, Input, Mix;
      ok := AttentionLayer(layer, count, length, states, tokens);
    }

    /** Three linear layers recorded as one graph. */
    method LinearBlock(first: nat, count: nat, ghost states: seq<State>, ghost tokens: seq<nat>) returns (ok: bool)
      requires Shape() && first % 4 == 0 && first + 3 < LAYER_COUNT && handle <= ROWS
      requires count == |tokens| && Wavefront(states, tokens, first)
      modifies conv, gdn, act, mixed
      ensures ok ==> Wavefront(states, tokens, first + 3)
      ensures healthy ==> ok
    {
      hide Step, Input, Mix, TargetMemory.Wavefront;
      for layer := first to first + 3
        invariant Wavefront(states, tokens, layer)
      {
        ok := AdvanceLinear(layer, count, states, tokens);
        if !ok {
          return;
        }
      }
      ok := true;
    }

    /** All layers for all rows.  Each layer is visited once: blocks of three linear layers and the
        full-attention layer that follows them when several rows are verified, single layers otherwise. */
    method EnqueueLayers(count: nat, ghost states: seq<State>, ghost tokens: seq<nat>) returns (ok: bool)
      requires Shape() && handle <= ROWS && length <= capacity
      requires count == |tokens| && Wavefront(states, tokens, 0) && length == states[0].length
      modifies conv, gdn, kv, act, mixed
      ensures ok ==> Wavefront(states, tokens, LAYER_COUNT)
      ensures forall l, p :: 0 <= l < LAYER_COUNT && 0 <= p < length ==> kv[l, p] == old(kv[l, p])
      ensures healthy ==> ok
    {
      hide Step, Input, Mix, TargetMemory.Wavefront;
      var layer := 0;
      while layer < LAYER_COUNT
        invariant 0 <= layer <= LAYER_COUNT && (count > 1 ==> layer % 4 == 0 || layer % 4 == 3)
        invariant Wavefront(states, tokens, layer)
        invariant forall l, p :: 0 <= l < LAYER_COUNT && 0 <= p < length ==> kv[l, p] == old(kv[l, p])
      {
        if count > 1 && layer % 4 == 0 {
          ok := LinearBlock(layer, count, states, tokens);
          if !ok {
            return;
          }
          layer := layer + 3;
          continue;
        }
        if !FullAttention(layer) {
          ok := AdvanceLinear(layer, count, states, tokens);
        } else {
          ok := AdvanceAttention(layer, count, states, tokens);
        }
        if !ok {
          return;
        }
        layer := layer + 1;
      }
      ok := true;
    }

    method EmbedRows(inputs: array<nat>, count: nat, ghost states: seq<State>, ghost tokens: seq<nat>)
      returns (ok: bool)
      requires Shape() && inputs.Length == ROWS && count == |tokens| <= ROWS && inputs[..count] == tokens
      requires |states| == |tokens| + 1
      modifies act
      ensures ok ==> RowsAt(states, tokens, 0)
      ensures healthy ==> ok
    {
      for row := 0 to count
        invariant forall r :: 0 <= r < row ==> act[r] == m.embed(tokens[r])
      {
        act[row] := m.embed(inputs[..][row]);
      }
      ok := Launch(healthy);
      if !ok {
        Garble(act, 0, count);
      }
    }

    method PublishHidden(count: nat, ghost states: seq<State>, ghost tokens: seq<nat>) returns (ok: bool)
      requires Shape() && count == |tokens| <= ROWS && |states| == |tokens| + 1
      requires RowsAt(states, tokens, LAYER_COUNT)
      modifies slotHidden
      ensures ok ==> forall r :: 0 <= r < count ==> slotHidden[r + 1] == HiddenOf(m, states[r], tokens[r])
      ensures slotHidden[0] == old(slotHidden[0])
      ensures healthy ==> ok
    {
      hide Input;
      for row := 0 to count
        invariant forall r :: 0 <= r < row ==> slotHidden[r + 1] == HiddenOf(m, states[r], tokens[r])
        invariant slotHidden[0] == old(slotHidden[0])
      {
        slotHidden[row + 1] := m.finalHidden(act[row]);
      }
      ok := Launch(healthy);
      if !ok {
        Garble(slotHidden, 1, count + 1);
      }
    }

    /** The batched verification: embed the rows, climb the layers, publish every row's hidden state. */
    method EnqueueMultirow(inputs: array<nat>, count: nat, ghost states: seq<State>, ghost tokens: seq<nat>)
      returns (ok: bool)
      requires Shape() && handle <= ROWS
      requires 1 <= count == |tokens| <= ROWS && inputs.Length == ROWS && inputs[..count] == tokens
      requires Steps(m, states, tokens) && states[0].length == length && length + count <= capacity
      requires Entry(states[0], handle, 0)
      modifies conv, gdn, kv, act, mixed, slotHidden
      ensures states[count].length == length + count
      ensures ok ==> SlotsHold(states, count, LAYER_COUNT) && KvHolds(states[count], 0, LAYER_COUNT)
      ensures ok ==> forall r :: 0 <= r < count ==> slotHidden[r + 1] == HiddenOf(m, states[r], tokens[r])
      ensures slotHidden[0] == old(slotHidden[0])
      ensures forall l, p :: 0 <= l < LAYER_COUNT && 0 <= p < length ==> kv[l, p] == old(kv[l, p])
      ensures healthy ==> ok
    {
      hide Step, Input, Mix;
      KvIsStable(m, states, tokens, 0, count, 3);
      ok := EmbedRows(inputs, count, states, tokens);
      if !ok {
        return;
      }
      ok := EnqueueLayers(count, states, tokens);
      if !ok {
        return;
      }
      ok := PublishHidden(count, states, tokens);
    }

    /** A linear layer of the native one-token step: the recurrent state advances where it lives. */
    method StepLinear(layer: nat, ghost st: State, ghost token: nat) returns (ok: bool)
      requires Shape() && layer < LAYER_COUNT && !FullAttention(layer) && owner <= ROWS
      requires act[0] == Input(m, st, token, layer)
      requires conv[0, layer] == st.conv[layer] && gdn[owner, layer] == st.gdn[layer]
      modifies conv, gdn, act, mixed
      ensures ok ==> act[0] == Input(m, st, token, layer + 1)
      ensures ok ==> conv[0, layer] == Step(m, st, token).conv[layer] && gdn[owner, layer] == Step(m, st, token).gdn[layer]
      ensures forall i, l :: 0 <= i <= ROWS && 0 <= l < LAYER_COUNT && (i != 0 || l != layer) ==>
                conv[i, l] == old(conv[i, l])
      ensures forall i, l :: 0 <= i <= ROWS && 0 <= l < LAYER_COUNT && (i != owner || l != layer) ==>
                gdn[i, l] == old(gdn[i, l])
      ensures healthy ==> ok
    {
      hide Step, Input, Mix;
      InputNext(m, st, token, layer);
      LinearStep(m, st, token, layer);
      var convolved := m.convOut(layer, conv[0, layer], act[0]);
      conv[0, layer] := m.convNext(layer, conv[0, layer], act[0]);
      var source := gdn[owner, layer];
      mixed[0] := m.gdnOut(layer, source, convolved, act[0]);
      gdn[owner, layer] := m.gdnNext(layer, source, convolved, act[0]);
      act[0] := m.layerOut(layer, act[0], mixed[0]);
      ok := Launch(healthy);
      if !ok {
        conv[0, layer], gdn[owner, layer], mixed[0], act[0] := *, *, *, *;
      }
    }

    /** A full-attention layer of the native one-token step: one more row, then attention to all. */
    method StepAttention(layer: nat, ghost st: State, ghost token: nat) returns (ok: bool)
      requires Shape() && layer < LAYER_COUNT && FullAttention(layer) && st.length == length < capacity
      requires act[0] == Input(m, st, token, layer)
      requires forall p :: 0 <= p < length ==> kv[layer, p] == st.kv[layer][p]
      modifies kv, act, mixed
      ensures |Step(m, st, token).kv[layer]| == length + 1 && (ok ==> act[0] == Input(m, st, token, layer + 1))
      ensures ok ==> forall p :: 0 <= p <= length ==> kv[layer, p] == Step(m, st, token).kv[layer][p]
      ensures forall l, p :: 0 <= l < LAYER_COUNT && 0 <= p < capacity && l != layer ==> kv[l, p] == old(kv[l, p])
      ensures healthy ==> ok
    {
      hide Step, Input, Mix;
      InputNext(m, st, token, layer);
      AttentionStep(m, st, token, layer);
      kv[layer, length] := m.kvRow(layer, act[0], length);
      var rows := CacheRows(layer, length + 1);
      assert rows == Step(m, st, token).kv[layer];
      mixed[0] := m.attend(layer, act[0], rows);
      act[0] := m.layerOut(layer, act[0], mixed[0]);
      ok := Launch(healthy);
      if !ok {
        kv[layer, length], mixed[0], act[0] := *, *, *;
      }
    }

    /** The native one-token step, in place: the arena's convolution, the owner's GDN state and one
        more cache row.  No other row of either array changes. */
    method ScalarStep(token: nat, ghost st: State) returns (ok: bool)
      requires Shape() && owner <= ROWS && st.length == length <= capacity && Entry(st, owner, 0)
      modifies this`length, this`hidden, conv, gdn, kv, act, mixed
      ensures ok ==> length == st.length + 1 <= capacity && Step(m, st, token).length == length
      ensures ok ==> token < VOCABULARY
      ensures !ok ==> length == old(length)
      ensures ok ==> Entry(Step(m, st, token), owner, 0) && hidden == HiddenOf(m, st, token)
      ensures forall i, l :: 1 <= i <= ROWS && 0 <= l < LAYER_COUNT ==> conv[i, l] == old(conv[i, l])
      ensures forall i, l :: 0 <= i <= ROWS && i != owner && 0 <= l < LAYER_COUNT ==> gdn[i, l] == old(gdn[i, l])
      ensures healthy && token < VOCABULARY && st.length < capacity && !poisoned && !wholeRequestActive ==> ok
    {
      hide Step, Mix, Input;
      assert m.embed(token) == Input(m, st, token, 0) by {
        EmbedIsInput(m, st, token);
      }
      if wholeRequestActive || poisoned || length >= capacity || token >= VOCABULARY {
        ok := false;
        return;
      }
      AttentionStep(m, st, token, 3);
      act[0] := m.embed(token);
      for layer := 0 to LAYER_COUNT
        modifies conv, gdn, kv, act, mixed
        invariant act[0] == Input(m, st, token, layer) && Entry(st, owner, layer)
        invariant ConvHolds(0, Step(m, st, token), 0, layer) && GdnHolds(owner, Step(m, st, token), 0, layer)
        invariant KvHolds(Step(m, st, token), 0, layer)
        invariant forall i, l :: 1 <= i <= ROWS && 0 <= l < LAYER_COUNT ==> conv[i, l] == old(conv[i, l])
        invariant forall i, l :: 0 <= i <= ROWS && i != owner && 0 <= l < LAYER_COUNT ==> gdn[i, l] == old(gdn[i, l])
      {
        if FullAttention(layer) {
          ok := StepAttention(layer, st, token);
        } else {
          ok := StepLinear(layer, st, token);
        }
        if !ok {
          return;
        }
      }
      hidden := m.finalHidden(act[0]);
      length := length + 1;
      ok := true;
    }

    /** Slot 0 keeps only the hidden row of the entry. */
    method SnapshotEntry() returns (ok: bool)
      requires Shape()
      modifies slotHidden
      ensures ok ==> slotHidden[0] == hidden
      ensures healthy ==> ok
    {
      slotHidden[0] := hidden;
      ok := Launch(healthy);
      if !ok {
        slotHidden[0] := *;
      }
    }

    /** The other slots keep a whole recurrent prefix; the owner's own slot needs no GDN copy. */
    method Snapshot(slot: nat) returns (ok: bool)
      requires Shape() && 1 <= slot <= ROWS && owner <= ROWS && (!zeroCopy ==> owner == 0)
      modifies conv, gdn, slotHidden
      ensures ok ==> slotHidden[slot] == hidden
      ensures forall r :: 0 <= r <= ROWS && r != slot ==> slotHidden[r] == old(slotHidden[r])
      ensures ok ==> forall l :: 0 <= l < LAYER_COUNT ==>
                conv[slot, l] == old(conv[0, l]) && gdn[slot, l] == old(gdn[owner, l])
      ensures forall i, l :: 0 <= i <= ROWS && 0 <= l < LAYER_COUNT && i != slot ==>
                conv[i, l] == old(conv[i, l]) && gdn[i, l] == old(gdn[i, l])
      ensures healthy ==> ok
    {
      if zeroCopy {
        if owner != slot {
          forall l | 0 <= l < LAYER_COUNT {
            gdn[slot, l] := gdn[owner, l];
          }
        }
      } else {
        forall l | 0 <= l < LAYER_COUNT {
          gdn[slot, l] := gdn[0, l];
        }
      }
      forall l | 0 <= l < LAYER_COUNT {
        conv[slot, l] := conv[0, l];
      }
      slotHidden[slot] := hidden;
      ok := Launch(healthy);
      if !ok {
        slotHidden[slot] := *;
        GarbleRow(conv, slot, 0, LAYER_COUNT);
        GarbleRow(gdn, slot, 0, LAYER_COUNT);
      }
    }

    /** Selects a prefix: its convolution and hidden row are copied to the arena; its GDN state is
        copied only when the slot cannot become the owner. */
    method Restore(slot: nat) returns (ok: bool)
      requires Shape() && 1 <= slot <= ROWS
      modifies this`hidden, conv, gdn
      ensures ok ==> hidden == slotHidden[slot]
      ensures ok ==> forall l :: 0 <= l < LAYER_COUNT ==> conv[0, l] == old(conv[slot, l])
      ensures ok && !zeroCopy ==> forall l :: 0 <= l < LAYER_COUNT ==> gdn[0, l] == old(gdn[slot, l])
      ensures forall i, l :: 1 <= i <= ROWS && 0 <= l < LAYER_COUNT ==>
                conv[i, l] == old(conv[i, l]) && gdn[i, l] == old(gdn[i, l])
      ensures healthy ==> ok
    {
      forall l | 0 <= l < LAYER_COUNT {
        conv[0, l] := conv[slot, l];
      }
      if !zeroCopy {
        forall l | 0 <= l < LAYER_COUNT {
          gdn[0, l] := gdn[slot, l];
        }
      }
      hidden := slotHidden[slot];
      ok := Launch(healthy);
      if !ok {
        hidden := *;
        GarbleRow(conv, 0, 0, LAYER_COUNT);
        if !zeroCopy {
          GarbleRow(gdn, 0, 0, LAYER_COUNT);
        }
      }
    }

    /** A commit lets the slot own the live GDN state instead of copying it. */
    method SelectOwner(slot: nat) returns (ok: bool)
      modifies this`owner
      ensures ok == (slot <= ROWS) && (ok ==> owner == slot) && (!ok ==> owner == old(owner))
    {
      if slot > ROWS {
        return false;
      }
      owner := slot;
      ok := true;
    }

    method SetLength(newLength: nat) returns (ok: bool)
      modifies this`length
      ensures ok == (newLength <= capacity) && length == if ok then newLength else old(length)
    {
      if newLength > capacity {
        return false;
      }
      length := newLength;
      ok := true;
    }

    /** One native step, whose result becomes the next slot. */
    method ScalarRow(i: nat, token: nat, ghost states: seq<State>) returns (ok: bool)
      requires Shape() && i < ROWS && i + 1 < |states| && states[i + 1] == Step(m, states[i], token)
      requires owner <= ROWS && (if zeroCopy then i == 0 else owner == 0)
      requires states[i].length == length <= capacity && Entry(states[i], owner, 0) && SlotsHold(states, i, LAYER_COUNT)
      modifies this`length, this`hidden, conv, gdn, kv, act, mixed, slotHidden
      ensures ok ==> length == states[i + 1].length == states[i].length + 1 <= capacity
      ensures ok ==> Entry(states[i + 1], owner, 0) && SlotsHold(states, i + 1, LAYER_COUNT)
      ensures ok ==> hidden == slotHidden[i + 1] == HiddenOf(m, states[i], token) && token < VOCABULARY
      ensures forall r :: 0 <= r <= ROWS && r != i + 1 ==> slotHidden[r] == old(slotHidden[r])
      ensures length <= capacity
      ensures healthy && token < VOCABULARY && old(length) < capacity && !poisoned && !wholeRequestActive ==> ok
    {
      hide Step, Input, HiddenOf;
      ok := ScalarStep(token, states[i]);
      if !ok {
        return;
      }
      assert SlotsHold(states, i, LAYER_COUNT);
      ok := Snapshot(i + 1);
    }

    /** Verification by native steps; the zero-copy owner allows only one row, since every step
        overwrites the state in place. */
    method ScalarRows(inputs: array<nat>, predictions: array<nat>, count: nat,
                      ghost states: seq<State>, ghost tokens: seq<nat>) returns (ok: bool)
      requires Shape() && owner <= ROWS && (if zeroCopy then count == 1 else owner == 0)
      requires 1 <= count == |tokens| <= ROWS && inputs.Length == predictions.Length == ROWS && inputs != predictions
      requires inputs[..count] == tokens && Steps(m, states, tokens)
      requires states[0].length == length && length + count <= capacity && Entry(states[0], owner, 0)
      modifies this`length, this`hidden, conv, gdn, kv, act, mixed, slotHidden, predictions
      ensures states[count].length == old(length) + count && length <= capacity
      ensures ok ==> TokensValid(tokens)
      ensures ok ==> SlotsHold(states, count, LAYER_COUNT) && KvHolds(states[count], 0, LAYER_COUNT)
      ensures ok ==> forall r :: 0 <= r < count ==> slotHidden[r + 1] == HiddenOf(m, states[r], tokens[r])
                                                    && predictions[r] == m.argmax(slotHidden[r + 1])
      ensures slotHidden[0] == old(slotHidden[0])
      ensures healthy && TokensValid(tokens) && !poisoned && !wholeRequestActive ==> ok
    {
      hide Step, Input, HiddenOf;
      KvIsStable(m, states, tokens, 0, count, 3);
      for i := 0 to count
        invariant length == states[i].length == old(length) + i && Entry(states[i], owner, 0)
        invariant SlotsHold(states, i, LAYER_COUNT) && slotHidden[0] == old(slotHidden[0])
        invariant forall r :: 0 <= r < i ==> tokens[r] < VOCABULARY
        invariant forall r :: 0 <= r < i ==> slotHidden[r + 1] == HiddenOf(m, states[r], tokens[r])
                                             && predictions[r] == m.argmax(slotHidden[r + 1])
      {
        assert inputs[i] == inputs[..count][i] == tokens[i];
        assert TokensValid(tokens) ==> tokens[i] < VOCABULARY;
        ok := ScalarRow(i, inputs[i], states);
        if !ok {
          return;
        }
        predictions[i] := m.argmax(hidden);
      }
      ok := true;
    }
  }
}
