/**
  Packed and Marlin weights.  A packed attach refuses a layer with Marlin weights, but a Marlin attach does
  not look for packed ones: this module says exactly when a projection comes to hold both.
 */
module SidecarExclusion {
  import opened Common
  import opened SidecarModel

  predicate Both(p: Option<NvFp4>) {
    p.Some? && p.value.packed.Some? && p.value.marlin != NO_MARLIN
  }

  predicate IsPacked(p: Option<NvFp4>) {
    p.Some? && p.value.packed.Some?
  }

  /** No projection holds a packed artifact and Marlin weights together. */
  ghost predicate Exclusive(layers: seq<Layer>) {
    forall l :: 0 <= l < |layers| ==> !Both(layers[l].gate) && !Both(layers[l].up) && !Both(layers[l].down)
  }

  ghost predicate AnyPacked(layers: seq<Layer>) {
    exists l :: 0 <= l < |layers| && (IsPacked(layers[l].gate) || IsPacked(layers[l].up) || IsPacked(layers[l].down))
  }

  predicate Bare(p: Option<NvFp4>) {
    p.Some? ==> p.value.marlin == NO_MARLIN
  }

  /** Without a Marlin weight for the down projection a layer has nothing of a Marlin layout. */
  predicate MarlinIsWhole(layer: Layer) {
    layer.down.None? || layer.down.value.marlin.weight == 0 ==> Bare(layer.gate) && Bare(layer.up) && Bare(layer.down)
  }

  ghost predicate AllWhole(layers: seq<Layer>) {
    |layers| == LAYER_COUNT && forall l :: 0 <= l < |layers| ==> MarlinIsWhole(layers[l])
  }

  /** The call that the code lets through: Marlin weights for a model that holds packed artifacts. */
  ghost predicate Clashes(layers: seq<Layer>, call: Call) {
    call.MarlinPrefill? && call.marlin.Pointer? && Accepted(layers, call) && AnyPacked(layers)
  }

  /** After an accepted Marlin attach a projection holds both exactly when it was packed before. */
  lemma MarlinOverPacked(layers: seq<Layer>, m: Given<MarlinDescriptor>, service: bool, l: nat)
    requires m.Pointer? && Accepted(layers, MarlinPrefill(m, service)) && l < |layers| == LAYER_COUNT
    ensures var after := Effect(layers[l], MarlinPrefill(m, service), l);
            && (Both(after.gate) <==> IsPacked(layers[l].gate))
            && (Both(after.up) <==> IsPacked(layers[l].up))
            && (Both(after.down) <==> IsPacked(layers[l].down))
            && after.down.Some? && after.down.value.marlin.weight != 0
  {
    hide MarlinGrid;
    MarlinGridHas(m.items, service, l);
    assert MarlinAdmits(layers[l]);
  }

  /** Every call, accepted or not, keeps Marlin layouts whole. */
  lemma CallsKeepWhole(layers: seq<Layer>, call: Call)
    requires AllWhole(layers)
    ensures AllWhole(Apply(layers, call))
  {
    hide Placed, Grid, MarlinGrid, Separate, AllDifferent, QkvAccepted, Scale6Accepted, ConsumerOrderAccepted;
    forall l | 0 <= l < |layers| && Accepted(layers, call)
      ensures MarlinIsWhole(Effect(layers[l], call, l))
    {
      assert MarlinIsWhole(layers[l]);
      if call.MarlinPrefill? && call.marlin.Pointer? {
        MarlinOverPacked(layers, call.marlin, call.service, l);
      }
    }
  }

  /** A call ends exclusion exactly when it attaches Marlin weights to a model that holds packed ones. */
  lemma ExclusionIsKeptUnless(layers: seq<Layer>, call: Call)
    requires AllWhole(layers) && Exclusive(layers)
    ensures Exclusive(Apply(layers, call)) <==> !Clashes(layers, call)
  {
    hide Placed, Grid, MarlinGrid, Separate, AllDifferent, QkvAccepted, Scale6Accepted, ConsumerOrderAccepted, Accepted;
    if call.MarlinPrefill? && call.marlin.Pointer? && Accepted(layers, call) {
      MarlinKeepsUnless(layers, call);
    } else if Accepted(layers, call) {
      forall l | 0 <= l < |layers|
        ensures var after := Effect(layers[l], call, l);
                !Both(after.gate) && !Both(after.up) && !Both(after.down)
      {
        OtherCallsKeep(layers, call, l);
      }
    }
  }

  lemma MarlinKeepsUnless(layers: seq<Layer>, call: Call)
    requires |layers| == LAYER_COUNT && call.MarlinPrefill? && call.marlin.Pointer? && Accepted(layers, call)
    ensures Exclusive(Apply(layers, call)) <==> !AnyPacked(layers)
  {
    hide Accepted, Effect;
    forall l | 0 <= l < |layers|
      ensures var after := Apply(layers, call)[l];
              && (Both(after.gate) <==> IsPacked(layers[l].gate)) && (Both(after.up) <==> IsPacked(layers[l].up))
              && (Both(after.down) <==> IsPacked(layers[l].down))
    {
      MarlinOverPacked(layers, call.marlin, call.service, l);
    }
  }

  lemma OtherCallsKeep(layers: seq<Layer>, call: Call, l: nat)
    requires AllWhole(layers) && Exclusive(layers) && Accepted(layers, call) && l < |layers|
    requires call.MarlinPrefill? ==> !call.marlin.Pointer?
    ensures var after := Effect(layers[l], call, l);
            !Both(after.gate) && !Both(after.up) && !Both(after.down)
  {
    hide Placed, Grid, MarlinGrid, Separate, AllDifferent, QkvAccepted, Scale6Accepted, ConsumerOrderAccepted, Effect;
    assert MarlinIsWhole(layers[l]);
    if (call.Packed? || call.PackedNvFp4?) && call.artifacts.Pointer? {
      assert layers[l].down.value.marlin.weight == 0;
      PackingBareKeeps(layers[l], call, l);
    } else {
      OthersKeep(layers[l], call, l);
    }
  }

  /** Only the packed attaches and the Marlin one can bring both together. */
  lemma PackingBareKeeps(layer: Layer, call: Call, l: nat)
    requires call.Packed? || call.PackedNvFp4?
    requires Bare(layer.gate) && Bare(layer.up) && Bare(layer.down)
    ensures var after := Effect(layer, call, l);
            !Both(after.gate) && !Both(after.up) && !Both(after.down)
  {
    hide ArtifactFor;
  }

  lemma OthersKeep(layer: Layer, call: Call, l: nat)
    requires call.Packed? || call.PackedNvFp4? ==> call.artifacts.Items() == []
    requires call.MarlinPrefill? ==> call.marlin.Items() == []
    requires !Both(layer.gate) && !Both(layer.up) && !Both(layer.down)
    ensures var after := Effect(layer, call, l);
            !Both(after.gate) && !Both(after.up) && !Both(after.down)
  {
    hide Find, ArtifactFor, MarlinFor, WithQkv, WithScale6, WithConsumerOrder, WithMarlin, WithPacked, WithParity;
    match call
    case Qkv(_, d) => QkvKeeps(layer, d.Items(), l);
    case Scale6(_, d) => Scale6Keeps(layer, d.Items(), l);
    case ConsumerOrder(_, d) => ConsumerOrderKeeps(layer, d.Items(), l);
    case MarlinPrefill(_, _) => DetachKeeps(layer, l);
    case Packed(_) => DetachKeeps(layer, l);
    case PackedNvFp4(_) => DetachKeeps(layer, l);
    case Parity(d) => ParityKeeps(layer, ArtifactFor(d.Items(), l, 0), ArtifactFor(d.Items(), l, 1));
  }

  lemma QkvKeeps(layer: Layer, ds: seq<Descriptor>, l: nat)
    ensures var after := WithQkv(layer, ds, l);
            after.gate == layer.gate && after.up == layer.up && after.down == layer.down
  {
    hide Find;
  }

  lemma SetScale6Keeps(layer: Layer, sidecar: Address, base: nat)
    ensures var after := SetScale6(layer, sidecar, base);
            after.gate == layer.gate && after.up == layer.up && (Both(after.down) <==> Both(layer.down))
  {
  }

  lemma SetConsumerOrderKeeps(layer: Layer, weight: Address)
    ensures var after := SetConsumerOrder(layer, weight);
            after.gate == layer.gate && after.up == layer.up && (Both(after.down) <==> Both(layer.down))
  {
  }

  lemma Scale6Keeps(layer: Layer, ds: seq<Descriptor>, l: nat)
    requires !Both(layer.down)
    ensures var after := WithScale6(layer, ds, l);
            after.gate == layer.gate && after.up == layer.up && !Both(after.down)
  {
    hide Find, SetScale6, SetConsumerOrder, Both;
    var i := Find(ds, l);
    var sidecar, base := if i < |ds| then ds[i].sidecar else 0, if i < |ds| then ds[i].scaleBase else 0;
    SetScale6Keeps(layer, sidecar, base);
    SetConsumerOrderKeeps(SetScale6(layer, sidecar, base), 0);
  }

  lemma ConsumerOrderKeeps(layer: Layer, ds: seq<Descriptor>, l: nat)
    requires !Both(layer.down)
    ensures var after := WithConsumerOrder(layer, ds, l);
            after.gate == layer.gate && after.up == layer.up && !Both(after.down)
  {
    hide Find, SetConsumerOrder, Both;
    SetConsumerOrderKeeps(layer, if Find(ds, l) < |ds| then ds[Find(ds, l)].sidecar else 0);
  }

  lemma ParityKeeps(layer: Layer, gateUp: Option<Artifact>, down: Option<Artifact>)
    requires !Both(layer.gate) && !Both(layer.up) && !Both(layer.down)
    ensures var after := WithParity(layer, gateUp, down);
            !Both(after.gate) && !Both(after.up) && !Both(after.down)
  {
  }

  /** After a detach nothing of the layout is left to hold together with another. */
  lemma DetachKeeps(layer: Layer, l: nat)
    ensures var bare := WithMarlin(layer, MarlinFor([], l));
            var unpacked := WithPacked(layer, ArtifactFor([], l, 0), ArtifactFor([], l, 1));
            && !Both(bare.gate) && !Both(bare.up) && !Both(bare.down)
            && !Both(unpacked.gate) && !Both(unpacked.up) && !Both(unpacked.down)
  {
  }

  /** Exclusion held before, between and after all the calls. */
  ghost predicate ExclusiveThroughout(layers: seq<Layer>, calls: seq<Call>) {
    forall i :: 0 <= i <= |calls| ==> Exclusive(Drive(layers, calls[..i]))
  }

  ghost predicate NoneClashes(layers: seq<Layer>, calls: seq<Call>) {
    forall i :: 0 <= i < |calls| ==> !Clashes(Drive(layers, calls[..i]), calls[i])
  }

  lemma ThroughoutGrows(layers: seq<Layer>, calls: seq<Call>)
    requires calls != []
    ensures var before := calls[..|calls| - 1];
            && (ExclusiveThroughout(layers, calls) <==> ExclusiveThroughout(layers, before) && Exclusive(Drive(layers, calls)))
            && (NoneClashes(layers, calls) <==>
                NoneClashes(layers, before) && !Clashes(Drive(layers, before), calls[|calls| - 1]))
  {
    hide Exclusive, Clashes, Drive;
    var before := calls[..|calls| - 1];
    assert calls[..|calls|] == calls && before[..|before|] == before;
    assert forall i :: 0 <= i <= |before| ==> before[..i] == calls[..i];
  }

  /** Over any run of calls: exclusion holds throughout exactly when no call clashes. */
  lemma {:induction false} RunsStayExclusive(layers: seq<Layer>, calls: seq<Call>)
    requires AllWhole(layers) && Exclusive(layers)
    ensures AllWhole(Drive(layers, calls)) && (ExclusiveThroughout(layers, calls) ==> Exclusive(Drive(layers, calls)))
    ensures ExclusiveThroughout(layers, calls) <==> NoneClashes(layers, calls)
  {
    hide Exclusive, AllWhole, Clashes, Apply;
    if calls == [] {
      assert calls[..0] == calls;
    } else {
      var before := calls[..|calls| - 1];
      RunsStayExclusive(layers, before);
      ThroughoutGrows(layers, calls);
      hide ExclusiveThroughout, NoneClashes;
      CallsKeepWhole(Drive(layers, before), calls[|calls| - 1]);
      if Exclusive(Drive(layers, before)) {
        ExclusionIsKeptUnless(Drive(layers, before), calls[|calls| - 1]);
      }
    }
  }

  /** A packed attach, of all projections or of the NVFP4 ones, does not stand in the way of Marlin weights:
      what would have been accepted before it still is, and every projection then holds both. */
  lemma MarlinDoesNotSeePacked(layers: seq<Layer>, packed: Call, m: Given<MarlinDescriptor>, service: bool)
    requires (packed.Packed? || packed.PackedNvFp4?) && packed.artifacts.Pointer? && Accepted(layers, packed)
    requires m.Pointer? && Accepted(layers, MarlinPrefill(m, service)) && |layers| == LAYER_COUNT
    ensures Accepted(Apply(layers, packed), MarlinPrefill(m, service)) && AnyPacked(Apply(layers, packed))
    ensures forall l :: 0 <= l < LAYER_COUNT ==>
              var layer := Apply(Apply(layers, packed), MarlinPrefill(m, service))[l];
              Both(layer.gate) && Both(layer.up) && Both(layer.down)
  {
    hide Separate, AllDifferent, MarlinGrid, Grid;
    var after := Apply(layers, packed);
    forall l | 0 <= l < LAYER_COUNT
      ensures MarlinAdmits(after[l]) && IsPacked(after[l].gate) && IsPacked(after[l].up) && IsPacked(after[l].down)
    {
      assert MarlinAdmits(layers[l]);
      GridHas(packed.artifacts.items, if packed.Packed? then 4 else 2, l, 0);
      GridHas(packed.artifacts.items, if packed.Packed? then 4 else 2, l, 1);
    }
    assert IsPacked(after[0].gate);
    forall l | 0 <= l < LAYER_COUNT
      ensures var layer := Apply(after, MarlinPrefill(m, service))[l];
              Both(layer.gate) && Both(layer.up) && Both(layer.down)
    {
      MarlinOverPacked(after, m, service, l);
    }
  }

  function Plain(rows: nat, columns: nat): Option<NvFp4> {
    Some(NvFp4(true, rows, columns, 0, [], 0, 0, 0, NO_MARLIN, None, None))
  }

  /** A loaded model to which nothing has been attached. */
  function PlainModel(): seq<Layer> {
    seq(LAYER_COUNT, l => Layer((l + 1) % 4 != 0, None, Plain(GATE_ROWS, HIDDEN), Plain(GATE_ROWS, HIDDEN),
                                Plain(HIDDEN, GATE_ROWS), true, true, false, false))
  }

  function BlockAt(i: nat): Span {
    Span(256 * (i + 1), 256 * (i + 1) + 256)
  }

  /** Artifacts slot by slot, each in a block of its own. */
  function Artifacts(n: nat): seq<ArtifactDescriptor> {
    seq(n, i requires 0 <= i < n =>
      ArtifactDescriptor(i % LAYER_COUNT, i / LAYER_COUNT, Artifact(i + 1, [BlockAt(i)]), [i], true))
  }

  function MarlinWeights(n: nat): seq<MarlinDescriptor> {
    seq(n, l requires 0 <= l < n =>
      MarlinDescriptor(l, CanonicalGateThenUp, Marlin(Unbound, 16, 16, 16), Marlin(Unbound, 16, 16, 16)))
  }

  lemma {:induction false} SpansOfArtifacts(n: nat)
    ensures SpansOf(Artifacts(n)) == seq(n, i requires 0 <= i < n => BlockAt(i))
  {
    if n > 0 {
      SpansOfArtifacts(n - 1);
      assert Artifacts(n)[..n - 1] == Artifacts(n - 1);
    }
  }

  lemma ArtifactsAreGrid(slots: nat)
    ensures Grid(Artifacts(slots * LAYER_COUNT), slots) && Separate(SpansOf(Artifacts(slots * LAYER_COUNT)))
  {
    var ds := Artifacts(slots * LAYER_COUNT);
    SpansOfArtifacts(|ds|);
    forall l, k | 0 <= l < LAYER_COUNT && 0 <= k < slots
      ensures HasArtifact(ds, l, k)
    {
      assert ds[k * LAYER_COUNT + l].layer == l && ds[k * LAYER_COUNT + l].slot == k;
    }
  }

  lemma {:induction false} MarlinForEach(n: nat, l: nat)
    requires l < n
    ensures MarlinFor(MarlinWeights(n), l).Some?
  {
    if l < n - 1 {
      assert MarlinWeights(n)[..n - 1] == MarlinWeights(n - 1);
      MarlinForEach(n - 1, l);
    }
  }

  /** It happens: from a plain model both packed attaches are accepted, and after either of them so is a Marlin
      attach, with which every projection holds both. */
  lemma ClashesHappen(service: bool)
    ensures AllWhole(PlainModel()) && Exclusive(PlainModel())
    ensures forall packed :: packed in {Packed(Pointer(Artifacts(4 * LAYER_COUNT))),
                                        PackedNvFp4(Pointer(Artifacts(2 * LAYER_COUNT)))} ==>
              var after, marlin := Apply(PlainModel(), packed), MarlinPrefill(Pointer(MarlinWeights(LAYER_COUNT)), service);
              Accepted(PlainModel(), packed) && Clashes(after, marlin) && !Exclusive(Apply(after, marlin))
  {
    var layers, m := PlainModel(), Pointer(MarlinWeights(LAYER_COUNT));
    assert MarlinGrid(m.items, service) by {
      forall l | 0 <= l < LAYER_COUNT
        ensures MarlinFor(m.items, l).Some?
      {
        MarlinForEach(LAYER_COUNT, l);
      }
    }
    ArtifactsAreGrid(4);
    ArtifactsAreGrid(2);
    hide Grid, Separate, MarlinGrid, Artifacts, MarlinWeights;
    var all, nvfp4 := Packed(Pointer(Artifacts(4 * LAYER_COUNT))), PackedNvFp4(Pointer(Artifacts(2 * LAYER_COUNT)));
    forall packed | packed == all || packed == nvfp4
      ensures var after, marlin := Apply(layers, packed), MarlinPrefill(m, service);
              Accepted(layers, packed) && Clashes(after, marlin) && !Exclusive(Apply(after, marlin))
    {
      assert Accepted(layers, packed);
      MarlinDoesNotSeePacked(layers, packed, m, service);
      var layer := Apply(Apply(layers, packed), MarlinPrefill(m, service))[0];
      assert Both(layer.gate);
    }
  }
}
