/**
  What an accepted attach leaves in the layers, descriptor by descriptor.
 */
module SidecarLaws {
  import opened Common
  import opened SidecarModel

  /** The parts of a layer that an attach may replace. */
  datatype Part = FeedPart | Scale6Part | OrderPart | MarlinPart | PackedPart | ParityPart

  /** Two projections that differ in one part at most, or in the two that belong together. */
  predicate SameProjection(p: Option<NvFp4>, q: Option<NvFp4>, changed: Part) {
    && p.Some? == q.Some?
    && (p.Some? ==>
          && p.value.valid == q.value.valid && p.value.rows == q.value.rows && p.value.columns == q.value.columns
          && p.value.scaleBits == q.value.scaleBits && p.value.payload == q.value.payload
          && (!changed.Scale6Part? ==> p.value.scale6 == q.value.scale6 && p.value.scale6Base == q.value.scale6Base)
          && (!changed.Scale6Part? && !changed.OrderPart? ==> p.value.consumerOrder == q.value.consumerOrder)
          && (!changed.MarlinPart? ==> p.value.marlin == q.value.marlin)
          && (!changed.PackedPart? ==> p.value.packed == q.value.packed)
          && (!changed.ParityPart? ==> p.value.parity == q.value.parity))
  }

  predicate SameFeed(p: Option<Fp8>, q: Option<Fp8>, changed: Part) {
    && p.Some? == q.Some?
    && (p.Some? ==>
          && p.value.valid == q.value.valid && p.value.rows == q.value.rows && p.value.columns == q.value.columns
          && (!changed.FeedPart? ==> p.value.registerFeed == q.value.registerFeed))
  }

  /** Two layers that differ in that part only; scale6 sidecars and consumer-order weights are on down alone. */
  predicate SameLayer(a: Layer, b: Layer, changed: Part) {
    && a.linear == b.linear && a.fp8Present == b.fp8Present && a.fp8Valid == b.fp8Valid && a.fp8Claimed == b.fp8Claimed
    && (!changed.PackedPart? ==> a.fp8Packed == b.fp8Packed) && SameFeed(a.qkv, b.qkv, changed)
    && SameProjection(a.down, b.down, changed)
    && if changed.Scale6Part? || changed.OrderPart? then a.gate == b.gate && a.up == b.up
       else SameProjection(a.gate, b.gate, changed) && SameProjection(a.up, b.up, changed)
  }

  predicate NoPacked(p: Option<NvFp4>) {
    p.Some? ==> p.value.packed.None?
  }

  predicate HasNoParity(p: Option<NvFp4>) {
    p.Some? ==> p.value.parity.None?
  }

  predicate HasNoMarlin(p: Option<NvFp4>) {
    p.Some? ==> p.value.marlin == Marlin(Unbound, 0, 0, 0)
  }

  lemma SameAsItself(layer: Layer, changed: Part)
    ensures SameLayer(layer, layer, changed)
  {
  }

  lemma PackedAlone(layer: Layer, a: Option<Artifact>, b: Option<Artifact>, fp8: bool)
    ensures SameLayer(WithPacked(layer, a, b).(fp8Packed := fp8), layer, PackedPart)
    ensures SameLayer(WithPacked(layer, a, b), layer, PackedPart) && WithPacked(layer, a, b).fp8Packed == layer.fp8Packed
  {
    hide SameProjection;
    SetPackedAlone(layer.gate, a);
    SetPackedAlone(layer.up, a);
    SetPackedAlone(layer.down, b);
    hide SetPackedOf;
  }

  lemma SetPackedAlone(p: Option<NvFp4>, a: Option<Artifact>)
    ensures SameProjection(SetPackedOf(p, a), p, PackedPart)
    ensures SetPackedOf(p, a).Some? ==> SetPackedOf(p, a).value.packed == a
  {
  }

  lemma ParityAlone(layer: Layer, a: Option<Artifact>, b: Option<Artifact>)
    ensures SameLayer(WithParity(layer, a, b), layer, ParityPart)
  {
    hide SameProjection;
    SetParityAlone(layer.gate, a);
    SetParityAlone(layer.up, a);
    SetParityAlone(layer.down, b);
    hide SetParityOf;
  }

  lemma SetParityAlone(p: Option<NvFp4>, a: Option<Artifact>)
    ensures SameProjection(SetParityOf(p, a), p, ParityPart)
  {
  }

  lemma MarlinAlone(layer: Layer, d: Option<MarlinDescriptor>)
    ensures SameLayer(WithMarlin(layer, d), layer, MarlinPart)
  {
    hide SameProjection;
    var gateUp := if d.Some? then d.value.gateUp.(layout := d.value.layout) else NO_MARLIN;
    var down := if d.Some? then d.value.down.(layout := Unbound) else NO_MARLIN;
    SetMarlinAlone(layer.gate, gateUp);
    SetMarlinAlone(layer.up, gateUp);
    SetMarlinAlone(layer.down, down);
    hide SetMarlinOf;
  }

  lemma SetMarlinAlone(p: Option<NvFp4>, m: Marlin)
    ensures SameProjection(SetMarlinOf(p, m), p, MarlinPart)
  {
  }

  lemma Scale6Alone(layer: Layer, sidecar: Address, base: nat)
    ensures SameLayer(SetConsumerOrder(SetScale6(layer, sidecar, base), 0), layer, Scale6Part)
  {
  }

  lemma OrderAlone(layer: Layer, weight: Address)
    ensures SameLayer(SetConsumerOrder(layer, weight), layer, OrderPart)
  {
  }

  lemma FeedAlone(layer: Layer, sidecar: Address)
    ensures SameLayer(SetQkv(layer, sidecar), layer, FeedPart)
  {
  }

  lemma {:induction false} OwnArtifact(ds: seq<ArtifactDescriptor>, i: nat)
    requires i < |ds| && forall a, b :: 0 <= a < b < |ds| ==> (ds[a].layer, ds[a].slot) != (ds[b].layer, ds[b].slot)
    ensures ArtifactFor(ds, ds[i].layer, ds[i].slot) == Some(ds[i].artifact)
  {
    if i < |ds| - 1 {
      assert (ds[i].layer, ds[i].slot) != (ds[|ds| - 1].layer, ds[|ds| - 1].slot);
      assert ds[..|ds| - 1][i] == ds[i];
      OwnArtifact(ds[..|ds| - 1], i);
    }
  }

  lemma {:induction false} OwnMarlin(ds: seq<MarlinDescriptor>, i: nat)
    requires i < |ds| && forall a, b :: 0 <= a < b < |ds| ==> ds[a].layer != ds[b].layer
    ensures MarlinFor(ds, ds[i].layer) == Some(ds[i])
  {
    if i < |ds| - 1 {
      assert ds[i].layer != ds[|ds| - 1].layer;
      assert ds[..|ds| - 1][i] == ds[i];
      OwnMarlin(ds[..|ds| - 1], i);
    }
  }

  lemma OwnDescriptor(ds: seq<Descriptor>, arena: Arena, kind: Kind, eligible: set<nat>, i: nat)
    requires i < |ds| && Placed(ds, |ds|, arena, kind, eligible)
    ensures Find(ds, ds[i].layer) == i && ds[i].layer in eligible
  {
  }

  /** An accepted packed attach, of all or of the NVFP4 projections: the artifact of slot 0 reaches gate and up of its
      layer, that of slot 1 reaches down, and nothing but packed artifacts changes anywhere. */
  lemma PackedReaches(layers: seq<Layer>, call: Call, i: nat)
    requires (call.Packed? || call.PackedNvFp4?) && call.artifacts.Pointer? && Accepted(layers, call)
    requires |layers| == LAYER_COUNT && i < |call.artifacts.items|
    ensures var item, after := call.artifacts.items[i], Apply(layers, call);
            && item.layer < LAYER_COUNT && item.slot < (if call.Packed? then 4 else 2)
            && var layer := after[item.layer];
            && layer.gate.Some? && layer.up.Some? && layer.down.Some?
            && (item.slot == 0 ==> layer.gate.value.packed == layer.up.value.packed == Some(item.artifact))
            && (item.slot == 1 ==> layer.down.value.packed == Some(item.artifact))
  {
    hide Separate, AllDifferent;
    var item := call.artifacts.items[i];
    OwnArtifact(call.artifacts.items, i);
    hide Grid, ArtifactFor;
  }

  lemma PackedReachesNothingElse(layers: seq<Layer>, call: Call, l: nat)
    requires (call.Packed? || call.PackedNvFp4?) && l < |layers|
    ensures SameLayer(Apply(layers, call)[l], layers[l], PackedPart)
    ensures call.PackedNvFp4? || !Accepted(layers, call) ==> Apply(layers, call)[l].fp8Packed == layers[l].fp8Packed
    ensures call.Packed? && Accepted(layers, call) ==> Apply(layers, call)[l].fp8Packed == call.artifacts.Pointer?
  {
    hide Grid, Separate, ArtifactFor, SameLayer, WithPacked, AllDifferent;
    SameAsItself(layers[l], PackedPart);
    var ds := call.artifacts.Items();
    PackedAlone(layers[l], ArtifactFor(ds, l, 0), ArtifactFor(ds, l, 1), ds != []);
  }

  /** The same of parity artifacts. */
  lemma ParityReaches(layers: seq<Layer>, d: Given<ArtifactDescriptor>, i: nat)
    requires d.Pointer? && Accepted(layers, Parity(d)) && |layers| == LAYER_COUNT && i < |d.items|
    ensures var item, after := d.items[i], Apply(layers, Parity(d));
            && item.layer < LAYER_COUNT && item.slot < 2
            && var layer := after[item.layer];
            && layer.gate.Some? && layer.up.Some? && layer.down.Some?
            && (item.slot == 0 ==> layer.gate.value.parity == layer.up.value.parity == Some(item.artifact))
            && (item.slot == 1 ==> layer.down.value.parity == Some(item.artifact))
  {
    hide Separate, AllDifferent;
    OwnArtifact(d.items, i);
    hide Grid, ArtifactFor;
  }

  lemma ParityReachesNothingElse(layers: seq<Layer>, d: Given<ArtifactDescriptor>, l: nat)
    requires l < |layers|
    ensures SameLayer(Apply(layers, Parity(d))[l], layers[l], ParityPart)
  {
    hide Accepted, ArtifactFor, SameLayer, WithParity;
    SameAsItself(layers[l], ParityPart);
    ParityAlone(layers[l], ArtifactFor(d.Items(), l, 0), ArtifactFor(d.Items(), l, 1));
  }

  /** An accepted Marlin attach: the pointers for gate and up reach both of them, with the layout, and those for down
      reach down. */
  lemma MarlinReaches(layers: seq<Layer>, d: Given<MarlinDescriptor>, service: bool, i: nat)
    requires d.Pointer? && Accepted(layers, MarlinPrefill(d, service)) && |layers| == LAYER_COUNT && i < |d.items|
    ensures var item, after := d.items[i], Apply(layers, MarlinPrefill(d, service));
            && item.layer < LAYER_COUNT
            && var layer := after[item.layer];
            && layer.gate.Some? && layer.up.Some? && layer.down.Some?
            && layer.gate.value.marlin == layer.up.value.marlin
               == Marlin(item.layout, item.gateUp.weight, item.gateUp.scales, item.gateUp.globalScale)
            && layer.down.value.marlin == Marlin(Unbound, item.down.weight, item.down.scales, item.down.globalScale)
  {
    OwnMarlin(d.items, i);
    hide MarlinGrid, MarlinFor;
  }

  lemma MarlinReachesNothingElse(layers: seq<Layer>, d: Given<MarlinDescriptor>, service: bool, l: nat)
    requires l < |layers|
    ensures SameLayer(Apply(layers, MarlinPrefill(d, service))[l], layers[l], MarlinPart)
  {
    hide Accepted, MarlinFor, SameLayer, WithMarlin;
    SameAsItself(layers[l], MarlinPart);
    MarlinAlone(layers[l], MarlinFor(d.Items(), l));
  }

  /** An accepted scale6 attach: sidecar and base reach the down projection of their layer; every other layer, and
      every consumer-order weight, is cleared. */
  lemma Scale6Reaches(layers: seq<Layer>, arena: Arena, d: Given<Descriptor>, l: nat)
    requires d.Pointer? && Accepted(layers, Scale6(arena, d)) && l < |layers|
    ensures var after := Apply(layers, Scale6(arena, d))[l];
            && (forall i :: 0 <= i < |d.items| && d.items[i].layer == l ==>
                  after.down.Some? && after.down.value.scale6 == d.items[i].sidecar && after.down.value.scale6Base == d.items[i].scaleBase)
            && ((forall i :: 0 <= i < |d.items| ==> d.items[i].layer != l) && after.down.Some? ==>
                  after.down.value.scale6 == after.down.value.scale6Base == 0)
            && (after.down.Some? ==> after.down.value.consumerOrder == 0)
  {
    var ds := d.items;
    forall i | 0 <= i < |ds| && ds[i].layer == l
      ensures Find(ds, l) == i && layers[l].down.Some?
    {
      OwnDescriptor(ds, arena, SCALE6, DownLayers(layers), i);
    }
    hide Placed, Find;
  }

  /** An accepted consumer-order attach: the weight reaches the down projection of its layer, every other one is
      cleared. */
  lemma ConsumerOrderReaches(layers: seq<Layer>, arena: Arena, d: Given<Descriptor>, l: nat)
    requires d.Pointer? && Accepted(layers, ConsumerOrder(arena, d)) && l < |layers|
    ensures var after := Apply(layers, ConsumerOrder(arena, d))[l];
            && (forall i :: 0 <= i < |d.items| && d.items[i].layer == l ==>
                  after.down.Some? && after.down.value.consumerOrder == d.items[i].sidecar)
            && ((forall i :: 0 <= i < |d.items| ==> d.items[i].layer != l) && after.down.Some? ==>
                  after.down.value.consumerOrder == 0)
  {
    var ds := d.items;
    forall i | 0 <= i < |ds| && ds[i].layer == l
      ensures Find(ds, l) == i && layers[l].down.Some?
    {
      OwnDescriptor(ds, arena, CONSUMER_ORDER, Scale6Layers(layers), i);
    }
    hide Placed, Find;
  }

  /** An accepted QKV attach: the sidecar reaches the QKV projection of its linear layer. */
  lemma QkvReaches(layers: seq<Layer>, arena: Arena, d: Given<Descriptor>, l: nat)
    requires d.Pointer? && Accepted(layers, Qkv(arena, d)) && l < |layers|
    ensures var after := Apply(layers, Qkv(arena, d))[l];
            && (forall i :: 0 <= i < |d.items| && d.items[i].layer == l ==>
                  after.linear && after.qkv.Some? && after.qkv.value.registerFeed == d.items[i].sidecar)
  {
    var ds := d.items;
    forall i | 0 <= i < |ds| && ds[i].layer == l
      ensures Find(ds, l) == i && layers[l].linear && layers[l].qkv.Some?
    {
      OwnDescriptor(ds, arena, QKV, LinearLayers(layers), i);
    }
    hide Placed, Find;
  }

  /** The arena attaches change nothing but their own parts; scale6 takes the consumer-order weights with it. */
  lemma SidecarsReachNothingElse(layers: seq<Layer>, arena: Arena, d: Given<Descriptor>, l: nat)
    requires l < |layers|
    ensures SameLayer(Apply(layers, Qkv(arena, d))[l], layers[l], FeedPart)
    ensures SameLayer(Apply(layers, Scale6(arena, d))[l], layers[l], Scale6Part)
    ensures SameLayer(Apply(layers, ConsumerOrder(arena, d))[l], layers[l], OrderPart)
  {
    hide Accepted, Find, SameLayer, SetQkv, SetScale6, SetConsumerOrder;
    SameAsItself(layers[l], FeedPart);
    SameAsItself(layers[l], Scale6Part);
    SameAsItself(layers[l], OrderPart);
    var i := Find(d.Items(), l);
    var sidecar, base := if i < |d.Items()| then d.Items()[i].sidecar else 0, if i < |d.Items()| then d.Items()[i].scaleBase else 0;
    FeedAlone(layers[l], sidecar);
    Scale6Alone(layers[l], sidecar, base);
    OrderAlone(layers[l], sidecar);
  }

  /** A detach, which is always accepted, clears its own kind in every layer. */
  lemma PackedDetachesClear(layers: seq<Layer>, l: nat)
    requires l < |layers|
    ensures var all, nvfp4 := Apply(layers, Packed(NoPointer(0)))[l], Apply(layers, PackedNvFp4(NoPointer(0)))[l];
            && NoPacked(all.gate) && NoPacked(all.up) && NoPacked(all.down) && !all.fp8Packed
            && NoPacked(nvfp4.gate) && NoPacked(nvfp4.up) && NoPacked(nvfp4.down)
  {
    assert ArtifactFor([], l, 0) == ArtifactFor([], l, 1) == None;
  }

  lemma LayoutDetachesClear(layers: seq<Layer>, service: bool, l: nat)
    requires l < |layers|
    ensures var after := Apply(layers, Parity(NoPointer(0)))[l];
            HasNoParity(after.gate) && HasNoParity(after.up) && HasNoParity(after.down)
    ensures var after := Apply(layers, MarlinPrefill(NoPointer(0), service))[l];
            HasNoMarlin(after.gate) && HasNoMarlin(after.up) && HasNoMarlin(after.down)
  {
  }

  lemma SidecarDetachesClear(layers: seq<Layer>, l: nat)
    requires l < |layers|
    ensures var feed := Apply(layers, Qkv(Arena(0, 0), NoPointer(0)))[l];
            feed.linear && feed.qkv.Some? ==> feed.qkv.value.registerFeed == 0
    ensures var scale := Apply(layers, Scale6(Arena(0, 0), NoPointer(0)))[l];
            scale.down.Some? ==> scale.down.value.scale6 == scale.down.value.scale6Base == scale.down.value.consumerOrder == 0
    ensures var order := Apply(layers, ConsumerOrder(Arena(0, 0), NoPointer(0)))[l];
            order.down.Some? ==> order.down.value.consumerOrder == 0
  {
  }
}
