/**
  The attach and detach calls on a loaded model.  Each validates everything before it changes anything.
 */
module Sidecars {
  import opened Common
  import opened Packing
  import opened SidecarModel

  /** One call's descriptors, checked one after the other against all before. */
  method ValidateDescriptors(ds: seq<Descriptor>, arena: Arena, kind: Kind, eligible: set<nat>) returns (ok: bool)
    requires ArenaFits(arena, kind, |ds|) && kind.size > 0
    ensures ok <==> Placed(ds, |ds|, arena, kind, eligible)
  {
    var seen: set<nat> := {};
    for index := 0 to |ds|
      invariant Placed(ds, index, arena, kind, eligible)
      invariant forall i :: 0 <= i < index ==> ds[i].layer in seen
      invariant forall l :: l in seen ==> exists i :: 0 <= i < index && ds[i].layer == l
    {
      var d := ds[index];
      if !Located(d, arena, kind, eligible) || d.layer in seen {
        return false;
      }
      for prior := 0 to index
        invariant forall i :: 0 <= i < prior ==> !Overlap(ds[i], d)
      {
        if Overlap(ds[prior], d) {
          return false;
        }
      }
      seen := seen + {d.layer};
    }
    ok := true;
  }

  lemma SpansPrefix(spans: seq<Span>, more: seq<Span>)
    requires Separate(spans + more)
    ensures Separate(spans)
  {
    assert forall i :: 0 <= i < |spans| ==> (spans + more)[i] == spans[i];
  }

  /** Adds the spans one by one, each checked against all before. */
  method AppendSpans(spans: seq<Span>, more: seq<Span>) returns (ok: bool, all: seq<Span>)
    requires Separate(spans)
    ensures ok <==> Separate(spans + more)
    ensures ok ==> all == spans + more
  {
    all := spans;
    for i := 0 to |more|
      invariant all == spans + more[..i] && Separate(all)
    {
      assert spans + more == all + more[i..] && (all + more[i..])[|all|] == more[i];
      for prior := 0 to |all|
        invariant forall k :: 0 <= k < prior ==> !Meet(all[k], more[i])
      {
        if Meet(all[prior], more[i]) {
          assert (all + more[i..])[prior] == all[prior];
          return false, all;
        }
      }
      all := all + [more[i]];
      assert more[..i + 1] == more[..i] + [more[i]];
    }
    assert more[..|more|] == more;
    ok := true;
  }

  lemma {:induction false} PayloadsGrow(layers: seq<Layer>, n: nat) returns (rest: seq<Span>)
    requires n <= |layers| && Complete(layers)
    ensures PayloadsOf(layers) == PayloadsOf(layers[..n]) + rest
    decreases |layers|
  {
    if n == |layers| {
      assert layers[..n] == layers;
      rest := [];
    } else {
      var init := layers[..|layers| - 1];
      assert init[..n] == layers[..n];
      rest := PayloadsGrow(init, n);
      rest := rest + PayloadOf(layers[|layers| - 1]);
    }
  }

  lemma PayloadsStep(layers: seq<Layer>, n: nat)
    requires n < |layers| && Complete(layers)
    ensures PayloadsOf(layers[..n + 1]) == PayloadsOf(layers[..n]) + PayloadOf(layers[n])
    ensures Separate(PayloadsOf(layers)) ==> Separate(PayloadsOf(layers[..n + 1]))
  {
    assert layers[..n + 1][..n] == layers[..n];
    var rest := PayloadsGrow(layers, n + 1);
    if Separate(PayloadsOf(layers)) {
      SpansPrefix(PayloadsOf(layers[..n + 1]), rest);
    }
  }

  /** The descriptors of `slots` slots per layer: each slot filled once, each identity used once, and all
      memory separate from `reserved` and from each other. */
  method ValidateArtifacts(ds: seq<ArtifactDescriptor>, slots: nat, reserved: seq<Span>) returns (ok: bool)
    requires Separate(reserved)
    ensures ok <==> Grid(ds, slots) && Separate(reserved + SpansOf(ds))
  {
    hide Grid, Separate, HasArtifact, SpansOf, Filled;
    var seen: set<(nat, nat)> := {};
    var spans := reserved;
    NothingFilled(ds, slots, reserved);
    for index := 0 to |ds|
      invariant spans == reserved + SpansOf(ds[..index]) && Separate(spans) && Filled(ds, index, slots)
      invariant forall l: nat, k: nat :: (l, k) in seen <==> HasArtifact(ds[..index], l, k)
    {
      var d := ds[index];
      if d.layer >= LAYER_COUNT || d.slot >= slots || !d.admissible || d.artifact.identity == 0 {
        NotAdmissible(ds, index, slots);
        return false;
      }
      if (d.layer, d.slot) in seen {
        AlreadyFilled(ds, index, slots);
        return false;
      }
      for prior := 0 to index
        invariant forall i :: 0 <= i < prior ==> ds[i].artifact.identity != d.artifact.identity
      {
        if ds[prior].artifact.identity == d.artifact.identity {
          IdentityReused(ds, prior, index, slots);
          return false;
        }
      }
      ok, spans := AppendSpans(spans, d.artifact.spans);
      SpansStep(ds, index, reserved);
      if !ok {
        return;
      }
      FilledStep(ds, index, slots);
      seen := seen + {(d.layer, d.slot)};
    }
    assert ds[..|ds|] == ds;
    for l := 0 to LAYER_COUNT
      invariant forall i, k :: 0 <= i < l && 0 <= k < slots ==> HasArtifact(ds, i, k)
    {
      for k := 0 to slots
        invariant forall i :: 0 <= i < k ==> HasArtifact(ds, l, i)
      {
        if (l, k) !in seen {
          SlotEmpty(ds, slots, l, k);
          return false;
        }
      }
    }
    FilledIsGrid(ds, slots);
    ok := true;
  }

  lemma NothingFilled(ds: seq<ArtifactDescriptor>, slots: nat, reserved: seq<Span>)
    ensures reserved == reserved + SpansOf(ds[..0]) && Filled(ds, 0, slots)
    ensures forall l: nat, k: nat :: !HasArtifact(ds[..0], l, k)
  {
  }

  lemma NotAdmissible(ds: seq<ArtifactDescriptor>, n: nat, slots: nat)
    requires n < |ds|
    requires ds[n].layer >= LAYER_COUNT || ds[n].slot >= slots || !ds[n].admissible || ds[n].artifact.identity == 0
    ensures !Grid(ds, slots)
  {
  }

  lemma IdentityReused(ds: seq<ArtifactDescriptor>, i: nat, j: nat, slots: nat)
    requires i < j < |ds| && ds[i].artifact.identity == ds[j].artifact.identity
    ensures !Grid(ds, slots)
  {
    assert IdentitiesOf(ds)[i] == IdentitiesOf(ds)[j];
  }

  lemma SlotEmpty(ds: seq<ArtifactDescriptor>, slots: nat, l: nat, k: nat)
    requires l < LAYER_COUNT && k < slots && !HasArtifact(ds, l, k)
    ensures !Grid(ds, slots)
  {
  }

  /** The first `n` descriptors fill different slots with different identities. */
  ghost predicate Filled(ds: seq<ArtifactDescriptor>, n: nat, slots: nat)
    requires n <= |ds|
  {
    && (forall i :: 0 <= i < n ==> ds[i].layer < LAYER_COUNT && ds[i].slot < slots && ds[i].admissible && ds[i].artifact.identity != 0)
    && (forall i, j :: 0 <= i < j < n ==>
          (ds[i].layer, ds[i].slot) != (ds[j].layer, ds[j].slot) && ds[i].artifact.identity != ds[j].artifact.identity)
  }

  lemma FilledStep(ds: seq<ArtifactDescriptor>, n: nat, slots: nat)
    requires n < |ds| && Filled(ds, n, slots) && !HasArtifact(ds[..n], ds[n].layer, ds[n].slot)
    requires ds[n].layer < LAYER_COUNT && ds[n].slot < slots && ds[n].admissible && ds[n].artifact.identity != 0
    requires forall i :: 0 <= i < n ==> ds[i].artifact.identity != ds[n].artifact.identity
    ensures Filled(ds, n + 1, slots)
    ensures forall l: nat, k: nat :: HasArtifact(ds[..n + 1], l, k) <==> HasArtifact(ds[..n], l, k) || (l, k) == (ds[n].layer, ds[n].slot)
  {
    assert forall i :: 0 <= i < n ==> ds[..n][i] == ds[i] == ds[..n + 1][i];
    assert ds[..n + 1][n] == ds[n];
    forall l: nat, k: nat
      ensures HasArtifact(ds[..n + 1], l, k) <==> HasArtifact(ds[..n], l, k) || (l, k) == (ds[n].layer, ds[n].slot)
    {
      if HasArtifact(ds[..n], l, k) {
        var i :| 0 <= i < n && ds[..n][i].layer == l && ds[..n][i].slot == k;
        assert ds[..n + 1][i] == ds[i];
      }
    }
  }

  lemma AlreadyFilled(ds: seq<ArtifactDescriptor>, n: nat, slots: nat)
    requires n < |ds| && HasArtifact(ds[..n], ds[n].layer, ds[n].slot)
    ensures !Grid(ds, slots)
  {
    var i :| 0 <= i < n && ds[..n][i].layer == ds[n].layer && ds[..n][i].slot == ds[n].slot;
    assert ds[i] == ds[..n][i];
  }

  lemma FilledIsGrid(ds: seq<ArtifactDescriptor>, slots: nat)
    requires Filled(ds, |ds|, slots) && forall l, k :: 0 <= l < LAYER_COUNT && 0 <= k < slots ==> HasArtifact(ds, l, k)
    ensures Grid(ds, slots)
  {
  }

  lemma {:induction false} SpansGrow(ds: seq<ArtifactDescriptor>, n: nat) returns (rest: seq<Span>)
    requires n <= |ds|
    ensures SpansOf(ds) == SpansOf(ds[..n]) + rest
    decreases |ds|
  {
    if n == |ds| {
      assert ds[..n] == ds;
      rest := [];
    } else {
      var init := ds[..|ds| - 1];
      assert init[..n] == ds[..n];
      rest := SpansGrow(init, n);
      rest := rest + ds[|ds| - 1].artifact.spans;
    }
  }

  lemma SpansStep(ds: seq<ArtifactDescriptor>, n: nat, reserved: seq<Span>)
    requires n < |ds|
    ensures reserved + SpansOf(ds[..n + 1]) == reserved + SpansOf(ds[..n]) + ds[n].artifact.spans
    ensures Separate(reserved + SpansOf(ds)) ==> Separate(reserved + SpansOf(ds[..n + 1]))
  {
    hide Separate;
    OneMoreSpans(ds, n);
    var rest := SpansGrow(ds, n + 1);
    hide SpansOf;
    Concat(reserved, SpansOf(ds[..n]), ds[n].artifact.spans);
    Concat(reserved, SpansOf(ds[..n + 1]), rest);
    if Separate(reserved + SpansOf(ds)) {
      SpansPrefix(reserved + SpansOf(ds[..n + 1]), rest);
    }
  }

  lemma OneMoreSpans(ds: seq<ArtifactDescriptor>, n: nat)
    requires n < |ds|
    ensures SpansOf(ds[..n + 1]) == SpansOf(ds[..n]) + ds[n].artifact.spans
  {
    assert ds[..n + 1][..n] == ds[..n];
  }

  lemma Concat<T>(a: seq<T>, b: seq<T>, c: seq<T>)
    ensures a + (b + c) == (a + b) + c
  {
  }

  class ModelWeights {
    var layers: seq<Layer>

    constructor (layers: seq<Layer>)
      ensures this.layers == layers
    {
      this.layers := layers;
    }

    /** The QKV sidecars of all linear layers, or a detach. */
    method AttachQkvRegisterFeed(arena: Arena, d: Given<Descriptor>) returns (ok: bool)
      requires |layers| == LAYER_COUNT
      modifies this
      ensures ok <==> Accepted(old(layers), Qkv(arena, d))
      ensures |layers| == LAYER_COUNT && layers == Apply(old(layers), Qkv(arena, d))
    {
      if d.Count() == 0 {
        if !Empty(d) || arena != Arena(0, 0) {
          return false;
        }
        ClearQkv();
        return true;
      }
      if d.Count() != LINEAR_LAYER_COUNT || d.NoPointer? || !ArenaFits(arena, QKV, |d.items|) {
        return false;
      }
      var linear := LinearLayers(layers);
      if (exists l :: l in linear && !QkvFits(layers[l])) || |linear| != LINEAR_LAYER_COUNT {
        return false;
      }
      ok := ValidateDescriptors(d.items, arena, QKV, linear);
      if !ok {
        return;
      }
      ReplaceQkv(d.items);
    }

    /** Replaces the sparse set of scale6 sidecars; the consumer-order weights, which need them, go. */
    method AttachDownScale6(arena: Arena, d: Given<Descriptor>) returns (ok: bool)
      requires |layers| == LAYER_COUNT
      modifies this
      ensures ok <==> Accepted(old(layers), Scale6(arena, d))
      ensures |layers| == LAYER_COUNT && layers == Apply(old(layers), Scale6(arena, d))
    {
      if d.Count() == 0 {
        if !Empty(d) || arena != Arena(0, 0) {
          return false;
        }
        ClearScale6();
        return true;
      }
      if d.NoPointer? || d.Count() > LAYER_COUNT || !ArenaFits(arena, SCALE6, |d.items|) {
        return false;
      }
      if exists i :: 0 <= i < |d.items| && d.items[i].scaleBase > MAXIMUM_SCALE_BASE {
        return false;
      }
      var eligible := DownLayers(layers);
      ok := ValidateDescriptors(d.items, arena, SCALE6, eligible);
      if !ok {
        return;
      }
      ReplaceScale6(d.items);
    }

    /** Replaces the sparse set of consumer-order weights, each beside a scale6 sidecar. */
    method AttachDownConsumerOrder(arena: Arena, d: Given<Descriptor>) returns (ok: bool)
      requires |layers| == LAYER_COUNT
      modifies this
      ensures ok <==> Accepted(old(layers), ConsumerOrder(arena, d))
      ensures |layers| == LAYER_COUNT && layers == Apply(old(layers), ConsumerOrder(arena, d))
    {
      if d.Count() == 0 {
        if !Empty(d) || arena != Arena(0, 0) {
          return false;
        }
        ClearConsumerOrder();
        return true;
      }
      if d.NoPointer? || d.Count() > LAYER_COUNT || !ArenaFits(arena, CONSUMER_ORDER, |d.items|) {
        return false;
      }
      var eligible := Scale6Layers(layers);
      ok := ValidateDescriptors(d.items, arena, CONSUMER_ORDER, eligible);
      if !ok {
        return;
      }
      ReplaceConsumerOrder(d.items);
    }

    method ReplaceScale6(ds: seq<Descriptor>)
      requires |layers| == LAYER_COUNT && forall i :: 0 <= i < |ds| ==> ds[i].layer < LAYER_COUNT
      modifies this
      ensures |layers| == LAYER_COUNT && forall l :: 0 <= l < LAYER_COUNT ==> layers[l] == WithScale6(old(layers)[l], ds, l)
    {
      ClearScale6();
      for index := 0 to |ds|
        modifies this
        invariant |layers| == LAYER_COUNT
        invariant forall l :: 0 <= l < LAYER_COUNT ==> layers[l] == WithScale6(old(layers)[l], ds[..index], l)
      {
        var item := ds[index];
        assert ds[..index + 1][..index] == ds[..index];
        layers := layers[item.layer := SetScale6(layers[item.layer], item.sidecar, item.scaleBase)];
      }
      assert ds[..|ds|] == ds;
    }

    method ClearScale6()
      requires |layers| == LAYER_COUNT
      modifies this
      ensures |layers| == LAYER_COUNT && forall l :: 0 <= l < LAYER_COUNT ==> layers[l] == WithScale6(old(layers)[l], [], l)
    {
      for l := 0 to LAYER_COUNT
        modifies this
        invariant |layers| == LAYER_COUNT
        invariant forall k :: 0 <= k < LAYER_COUNT ==>
                    layers[k] == if k < l then SetConsumerOrder(SetScale6(old(layers)[k], 0, 0), 0) else old(layers)[k]
      {
        layers := layers[l := SetConsumerOrder(SetScale6(layers[l], 0, 0), 0)];
      }
    }

    method ReplaceConsumerOrder(ds: seq<Descriptor>)
      requires |layers| == LAYER_COUNT && forall i :: 0 <= i < |ds| ==> ds[i].layer < LAYER_COUNT
      modifies this
      ensures |layers| == LAYER_COUNT && forall l :: 0 <= l < LAYER_COUNT ==> layers[l] == WithConsumerOrder(old(layers)[l], ds, l)
    {
      ClearConsumerOrder();
      for index := 0 to |ds|
        modifies this
        invariant |layers| == LAYER_COUNT
        invariant forall l :: 0 <= l < LAYER_COUNT ==> layers[l] == WithConsumerOrder(old(layers)[l], ds[..index], l)
      {
        var item := ds[index];
        assert ds[..index + 1][..index] == ds[..index];
        layers := layers[item.layer := SetConsumerOrder(layers[item.layer], item.sidecar)];
      }
      assert ds[..|ds|] == ds;
    }

    method ClearConsumerOrder()
      requires |layers| == LAYER_COUNT
      modifies this
      ensures |layers| == LAYER_COUNT && forall l :: 0 <= l < LAYER_COUNT ==> layers[l] == WithConsumerOrder(old(layers)[l], [], l)
    {
      for l := 0 to LAYER_COUNT
        modifies this
        invariant |layers| == LAYER_COUNT
        invariant forall k :: 0 <= k < LAYER_COUNT ==>
                    layers[k] == if k < l then SetConsumerOrder(old(layers)[k], 0) else old(layers)[k]
      {
        layers := layers[l := SetConsumerOrder(layers[l], 0)];
      }
    }

    method ReplaceQkv(ds: seq<Descriptor>)
      requires |layers| == LAYER_COUNT && forall i :: 0 <= i < |ds| ==> ds[i].layer < LAYER_COUNT
      modifies this
      ensures |layers| == LAYER_COUNT && forall l :: 0 <= l < LAYER_COUNT ==> layers[l] == WithQkv(old(layers)[l], ds, l)
    {
      ClearQkv();
      for index := 0 to |ds|
        modifies this
        invariant |layers| == LAYER_COUNT
        invariant forall l :: 0 <= l < LAYER_COUNT ==> layers[l] == WithQkv(old(layers)[l], ds[..index], l)
      {
        var item := ds[index];
        assert ds[..index + 1][..index] == ds[..index];
        layers := layers[item.layer := SetQkv(layers[item.layer], item.sidecar)];
      }
      assert ds[..|ds|] == ds;
    }

    method ClearQkv()
      requires |layers| == LAYER_COUNT
      modifies this
      ensures |layers| == LAYER_COUNT && forall l :: 0 <= l < LAYER_COUNT ==> layers[l] == WithQkv(old(layers)[l], [], l)
    {
      for l := 0 to LAYER_COUNT
        modifies this
        invariant |layers| == LAYER_COUNT
        invariant forall k :: 0 <= k < LAYER_COUNT ==>
                    layers[k] == if k < l then SetQkv(old(layers)[k], 0) else old(layers)[k]
      {
        layers := layers[l := SetQkv(layers[l], 0)];
      }
    }

    /** The Marlin layout of all projections, or a detach. */
    method AttachMarlinPrefill(d: Given<MarlinDescriptor>, service: bool) returns (ok: bool)
      requires |layers| == LAYER_COUNT
      modifies this
      ensures ok <==> Accepted(old(layers), MarlinPrefill(d, service))
      ensures |layers| == LAYER_COUNT && layers == Apply(old(layers), MarlinPrefill(d, service))
    {
      if d.Count() == 0 {
        if !Empty(d) {
          return false;
        }
        ReplaceMarlin([]);
        return true;
      }
      if d.NoPointer? || d.Count() != LAYER_COUNT {
        return false;
      }
      ok := ValidateMarlin(d.items, service);
      if !ok || exists l :: 0 <= l < LAYER_COUNT && !MarlinAdmits(layers[l]) {
        return false;
      }
      ReplaceMarlin(d.items);
    }

    method ReplaceMarlin(ds: seq<MarlinDescriptor>)
      requires |layers| == LAYER_COUNT
      modifies this
      ensures |layers| == LAYER_COUNT
      ensures forall l :: 0 <= l < LAYER_COUNT ==> layers[l] == WithMarlin(old(layers)[l], MarlinFor(ds, l))
    {
      for l := 0 to LAYER_COUNT
        modifies this
        invariant |layers| == LAYER_COUNT
        invariant forall k :: 0 <= k < LAYER_COUNT ==>
                    layers[k] == if k < l then WithMarlin(old(layers)[k], MarlinFor(ds, k)) else old(layers)[k]
      {
        layers := layers[l := WithMarlin(layers[l], MarlinFor(ds, l))];
      }
    }

    /** The packed layout of all projections, FP8 included, or a detach. */
    method AttachPacked(d: Given<ArtifactDescriptor>) returns (ok: bool)
      requires |layers| == LAYER_COUNT
      modifies this
      ensures ok <==> Accepted(old(layers), Packed(d))
      ensures |layers| == LAYER_COUNT && layers == Apply(old(layers), Packed(d))
    {
      if Empty(d) {
        ReplaceArtifacts(Packed(d));
        return true;
      }
      if d.NoPointer? || d.Count() != 4 * LAYER_COUNT {
        return false;
      }
      ok := ValidateArtifacts(d.items, 4, []);
      assert [] + SpansOf(d.items) == SpansOf(d.items);
      if !ok || exists l :: 0 <= l < LAYER_COUNT && !PackedAdmits(layers[l]) {
        return false;
      }
      ReplaceArtifacts(Packed(d));
    }

    /** The packed layout of the NVFP4 projections only, or a detach. */
    method AttachPackedNvFp4(d: Given<ArtifactDescriptor>) returns (ok: bool)
      requires |layers| == LAYER_COUNT
      modifies this
      ensures ok <==> Accepted(old(layers), PackedNvFp4(d))
      ensures |layers| == LAYER_COUNT && layers == Apply(old(layers), PackedNvFp4(d))
    {
      if Empty(d) {
        ReplaceArtifacts(PackedNvFp4(d));
        return true;
      }
      if d.NoPointer? || d.Count() != 2 * LAYER_COUNT {
        return false;
      }
      ok := ValidateArtifacts(d.items, 2, []);
      assert [] + SpansOf(d.items) == SpansOf(d.items);
      if !ok || exists l :: 0 <= l < LAYER_COUNT && !PackedNvFp4Admits(layers[l]) {
        return false;
      }
      ReplaceArtifacts(PackedNvFp4(d));
    }

    /** The parity artifacts, clear of every canonical payload, or a detach. */
    method AttachParity(d: Given<ArtifactDescriptor>) returns (ok: bool)
      requires |layers| == LAYER_COUNT
      modifies this
      ensures ok <==> Accepted(old(layers), Parity(d))
      ensures |layers| == LAYER_COUNT && layers == Apply(old(layers), Parity(d))
    {
      if Empty(d) {
        ReplaceArtifacts(Parity(d));
        return true;
      }
      if d.NoPointer? || d.Count() != 2 * LAYER_COUNT {
        return false;
      }
      if exists l :: 0 <= l < LAYER_COUNT && !ParityAdmits(layers[l]) {
        return false;
      }
      var payloads;
      ok, payloads := CollectPayloads();
      if !ok {
        if Separate(PayloadsOf(layers) + SpansOf(d.items)) {
          SpansPrefix(PayloadsOf(layers), SpansOf(d.items));
        }
        return;
      }
      ok := ValidateArtifacts(d.items, 2, payloads);
      if !ok {
        return;
      }
      ok := DifferentSources(d.items);
      if ok {
        ReplaceArtifacts(Parity(d));
      }
    }

    /** The canonical payloads of all layers, each checked against all before. */
    method CollectPayloads() returns (ok: bool, spans: seq<Span>)
      requires |layers| == LAYER_COUNT && Complete(layers)
      ensures ok <==> Separate(PayloadsOf(layers))
      ensures ok ==> spans == PayloadsOf(layers)
    {
      spans := [];
      for l := 0 to LAYER_COUNT
        invariant spans == PayloadsOf(layers[..l]) && Separate(spans)
      {
        PayloadsStep(layers, l);
        ok, spans := AppendSpans(spans, PayloadOf(layers[l]));
        if !ok {
          return;
        }
      }
      assert layers[..LAYER_COUNT] == layers;
      ok := true;
    }

    method ReplaceArtifacts(call: Call)
      requires |layers| == LAYER_COUNT && (call.Packed? || call.PackedNvFp4? || call.Parity?)
      modifies this
      ensures |layers| == LAYER_COUNT && forall l :: 0 <= l < LAYER_COUNT ==> layers[l] == Effect(old(layers)[l], call, l)
    {
      for l := 0 to LAYER_COUNT
        modifies this
        invariant |layers| == LAYER_COUNT
        invariant forall k :: 0 <= k < LAYER_COUNT ==>
                    layers[k] == if k < l then Effect(old(layers)[k], call, k) else old(layers)[k]
      {
        layers := layers[l := Effect(layers[l], call, l)];
      }
    }
  }

  /** No tensor is the source of two artifacts. */
  method DifferentSources(ds: seq<ArtifactDescriptor>) returns (ok: bool)
    ensures ok <==> AllDifferent(SourcesOf(ds))
  {
    var all := SourcesOf(ds);
    for i := 0 to |all|
      invariant forall j, k :: 0 <= j < k < i ==> all[j] != all[k]
    {
      for prior := 0 to i
        invariant forall j :: 0 <= j < prior ==> all[j] != all[i]
      {
        if all[prior] == all[i] {
          return false;
        }
      }
    }
    ok := true;
  }

  lemma MarlinForNext(ds: seq<MarlinDescriptor>, index: nat)
    requires index < |ds|
    ensures forall l: nat :: MarlinFor(ds[..index + 1], l).Some? <==> ds[index].layer == l || MarlinFor(ds[..index], l).Some?
  {
    var before, after := ds[..index], ds[..index + 1];
    assert after != [] && after[|after| - 1] == ds[index] && after[..|after| - 1] == before;
    forall l: nat
      ensures MarlinFor(after, l).Some? <==> ds[index].layer == l || MarlinFor(before, l).Some?
    {
      assert MarlinFor(after, l) == if ds[index].layer == l then Some(ds[index]) else MarlinFor(before, l);
    }
  }

  /** One descriptor for every layer, with the pointers its layout needs. */
  method ValidateMarlin(ds: seq<MarlinDescriptor>, service: bool) returns (ok: bool)
    ensures ok <==> MarlinGrid(ds, service)
  {
    assert forall l: nat :: MarlinFor(ds[..0], l).None?;
    hide MarlinPointers, MarlinFor;
    var seen: set<nat> := {};
    for index := 0 to |ds|
      invariant forall i :: 0 <= i < index ==> ds[i].layer < LAYER_COUNT && MarlinPointers(ds[i], service) && ds[i].layer in seen
      invariant forall i, j :: 0 <= i < j < index ==> ds[i].layer != ds[j].layer
      invariant forall l: nat :: l in seen <==> MarlinFor(ds[..index], l).Some?
    {
      var d := ds[index];
      MarlinForNext(ds, index);
      if d.layer >= LAYER_COUNT || !MarlinPointers(d, service) {
        return false;
      }
      if d.layer in seen {
        MarlinFound(ds[..index], d.layer);
        return false;
      }
      seen := seen + {d.layer};
    }
    assert ds[..|ds|] == ds;
    if exists l :: 0 <= l < LAYER_COUNT && l !in seen {
      return false;
    }
    ok := true;
  }
}
