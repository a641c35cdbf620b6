/**
  Sidecars: alternative layouts of a layer's weights, attached to a loaded model all at once or not at
  all.  Addresses are numbers, and 0 is the null pointer.
 */
module SidecarModel {
  import opened Common
  import opened Packing

  type Address = nat

  const POINTER_MAX: nat := UINT64_MAX
  const LINEAR_LAYER_COUNT: nat := 48
  const QKV_ROWS: nat := 10240
  const QKV_COLUMNS: nat := 5120
  const QKV_BYTES: nat := 52428800
  const DOWN_ROWS: nat := 5120
  const DOWN_COLUMNS: nat := 17408
  const SCALE6_BYTES: nat := 4177920
  const CONSUMER_ORDER_BYTES: nat := 44564480
  const MAXIMUM_SCALE_BASE: nat := 192

  datatype Layout = Unbound | CanonicalGateThenUp | InterleavedGateUp | CanonicalSourceOnly

  datatype Marlin = Marlin(layout: Layout, weight: Address, scales: Address, globalScale: Address)

  const NO_MARLIN := Marlin(Unbound, 0, 0, 0)

  datatype Span = Span(begin: Address, end: Address)

  /** A packed or parity artifact as a projection refers to it, with the memory it occupies. */
  datatype Artifact = Artifact(identity: nat, spans: seq<Span>)

  /** An NVFP4 projection; `valid` says that its canonical payload, which occupies the spans, is present
      and finite. */
  datatype NvFp4 = NvFp4(valid: bool, rows: nat, columns: nat, scaleBits: nat, payload: seq<Span>, scale6: Address,
                         scale6Base: nat, consumerOrder: Address, marlin: Marlin, packed: Option<Artifact>,
                         parity: Option<Artifact>)

  datatype Fp8 = Fp8(valid: bool, rows: nat, columns: nat, registerFeed: Address)

  /** A decoder layer.  A projection that is not of the type named is absent.  The layer's FP8 attention
      projections are packed together, which is what `fp8Packed` says; `fp8Claimed` says that some of them
      hold another prefill layout, `fp8Present` that all are FP8, and `fp8Valid` that all are usable. */
  datatype Layer = Layer(linear: bool, qkv: Option<Fp8>, gate: Option<NvFp4>, up: Option<NvFp4>, down: Option<NvFp4>,
                         fp8Present: bool, fp8Valid: bool, fp8Packed: bool, fp8Claimed: bool)

  datatype Descriptor = Descriptor(layer: nat, sidecar: Address, bytes: nat, rows: nat, columns: nat, scaleBase: nat)

  /** The block of memory the descriptors of one call share. */
  datatype Arena = Arena(address: Address, bytes: nat)

  datatype Kind = Kind(size: nat, alignment: nat, rows: nat, columns: nat)

  const QKV := Kind(QKV_BYTES, 16, QKV_ROWS, QKV_COLUMNS)
  const SCALE6 := Kind(SCALE6_BYTES, 32, DOWN_ROWS, DOWN_COLUMNS)
  const CONSUMER_ORDER := Kind(CONSUMER_ORDER_BYTES, 16, DOWN_ROWS, DOWN_COLUMNS)

  predicate ArenaFits(arena: Arena, kind: Kind, count: nat) {
    && arena.address != 0 && kind.alignment > 0 && arena.address % kind.alignment == 0
    && arena.bytes == count * kind.size && arena.address + arena.bytes <= POINTER_MAX
  }

  predicate Overlap(a: Descriptor, b: Descriptor) {
    a.sidecar < b.sidecar + b.bytes && b.sidecar < a.sidecar + a.bytes
  }

  predicate Located(d: Descriptor, arena: Arena, kind: Kind, eligible: set<nat>) {
    && d.layer in eligible && d.bytes == kind.size && d.rows == kind.rows && d.columns == kind.columns
    && kind.alignment > 0 && d.sidecar % kind.alignment == 0 && d.sidecar != 0
    && arena.address <= d.sidecar && d.sidecar + d.bytes <= arena.address + arena.bytes
  }

  /** Every descriptor is a well-shaped piece of the arena for its own layer, and no two of them overlap. */
  ghost predicate Placed(ds: seq<Descriptor>, n: nat, arena: Arena, kind: Kind, eligible: set<nat>)
    requires n <= |ds|
  {
    && (forall i :: 0 <= i < n ==> Located(ds[i], arena, kind, eligible))
    && (forall i, j :: 0 <= i < j < n ==> ds[i].layer != ds[j].layer && !Overlap(ds[i], ds[j]))
  }

  ghost function Begins(ds: seq<Descriptor>): seq<nat> {
    seq(|ds|, i requires 0 <= i < |ds| => ds[i].sidecar)
  }

  ghost function LayersOf(ds: seq<Descriptor>): seq<nat> {
    seq(|ds|, i requires 0 <= i < |ds| => ds[i].layer)
  }

  lemma BeginsAreDisjoint(ds: seq<Descriptor>, arena: Arena, kind: Kind, eligible: set<nat>)
    requires kind.size > 0 && Placed(ds, |ds|, arena, kind, eligible)
    ensures forall i, j :: 0 <= i < |ds| && 0 <= j < |ds| && i != j ==>
              ds[i].sidecar + kind.size <= ds[j].sidecar || ds[j].sidecar + kind.size <= ds[i].sidecar
  {
    forall i, j | 0 <= i < |ds| && 0 <= j < |ds| && i != j
      ensures ds[i].sidecar + kind.size <= ds[j].sidecar || ds[j].sidecar + kind.size <= ds[i].sidecar
    {
      if i < j {
        assert !Overlap(ds[i], ds[j]);
      } else {
        assert !Overlap(ds[j], ds[i]);
      }
    }
  }

  lemma BeginsFit(ds: seq<Descriptor>, size: nat)
    requires size > 0 && forall i, j :: 0 <= i < |ds| && 0 <= j < |ds| && i != j ==>
               ds[i].sidecar + size <= ds[j].sidecar || ds[j].sidecar + size <= ds[i].sidecar
    ensures Disjoint(Elements(Begins(ds)), size) && |Elements(Begins(ds))| == |ds|
  {
    forall i, j | 0 <= i < j < |ds| ensures Begins(ds)[i] != Begins(ds)[j] {
      assert ds[i].sidecar + size <= ds[j].sidecar || ds[j].sidecar + size <= ds[i].sidecar;
    }
    DistinctCount(Begins(ds));
    forall a, b | a in Elements(Begins(ds)) && b in Elements(Begins(ds)) && a != b
      ensures a + size <= b || b + size <= a
    {
      var i :| 0 <= i < |ds| && Begins(ds)[i] == a;
      var j :| 0 <= j < |ds| && Begins(ds)[j] == b;
    }
  }

  /** An accepted set of descriptors is the arena cut into consecutive blocks: every byte of the arena
      belongs to exactly one of them. */
  lemma PlacementIsExactCover(ds: seq<Descriptor>, arena: Arena, kind: Kind, eligible: set<nat>)
    requires kind.size > 0 && ArenaFits(arena, kind, |ds|) && Placed(ds, |ds|, arena, kind, eligible)
    ensures Elements(Begins(ds)) == Blocks(arena.address, kind.size, |ds|)
    ensures |Elements(LayersOf(ds))| == |ds| && Elements(LayersOf(ds)) <= eligible
  {
    BeginsAreDisjoint(ds, arena, kind, eligible);
    assert forall i :: 0 <= i < |ds| ==> Located(ds[i], arena, kind, eligible);
    DistinctCount(LayersOf(ds)) by {
      assert forall i, j :: 0 <= i < j < |ds| ==> LayersOf(ds)[i] != LayersOf(ds)[j];
    }
    hide Placed, Blocks;
    var begins := Elements(Begins(ds));
    BeginsFit(ds, kind.size);
    assert Within(begins, kind.size, arena.address, Block(arena.address, kind.size, |begins|));
    PiecesAreBlocks(begins, kind.size, arena.address);
  }

  /** With as many descriptors as there are eligible layers, each of them has one. */
  lemma EveryLayerIsCovered(ds: seq<Descriptor>, arena: Arena, kind: Kind, eligible: set<nat>)
    requires kind.size > 0 && ArenaFits(arena, kind, |ds|) && Placed(ds, |ds|, arena, kind, eligible)
    requires |eligible| == |ds|
    ensures Elements(LayersOf(ds)) == eligible
    ensures forall l :: l in eligible ==> Find(ds, l) < |ds|
  {
    PlacementIsExactCover(ds, arena, kind, eligible);
    Pigeonhole(Elements(LayersOf(ds)), eligible);
    forall l | l in eligible ensures Find(ds, l) < |ds| {
      assert l in LayersOf(ds);
      var i :| 0 <= i < |ds| && LayersOf(ds)[i] == l;
    }
  }

  predicate QkvFits(layer: Layer) {
    layer.linear && layer.qkv.Some? && layer.qkv.value.valid && layer.qkv.value.rows == QKV_ROWS
    && layer.qkv.value.columns == QKV_COLUMNS
  }

  predicate DownFits(layer: Layer) {
    layer.down.Some? && layer.down.value.valid && layer.down.value.rows == DOWN_ROWS
    && layer.down.value.columns == DOWN_COLUMNS
  }

  function LinearLayers(layers: seq<Layer>): set<nat> {
    set l | 0 <= l < |layers| && layers[l].linear
  }

  function DownLayers(layers: seq<Layer>): set<nat> {
    set l | 0 <= l < |layers| && DownFits(layers[l])
  }

  function Scale6Layers(layers: seq<Layer>): set<nat> {
    set l | 0 <= l < |layers| && DownFits(layers[l]) && layers[l].down.value.scale6 != 0
  }

  function SetQkv(layer: Layer, sidecar: Address): Layer {
    if layer.linear && layer.qkv.Some? then layer.(qkv := Some(layer.qkv.value.(registerFeed := sidecar))) else layer
  }

  function SetScale6(layer: Layer, sidecar: Address, base: nat): Layer {
    if layer.down.Some? then layer.(down := Some(layer.down.value.(scale6 := sidecar, scale6Base := base))) else layer
  }

  function SetConsumerOrder(layer: Layer, weight: Address): Layer {
    if layer.down.Some? then layer.(down := Some(layer.down.value.(consumerOrder := weight))) else layer
  }

  /** The position of the layer's descriptor; the number of descriptors when it has none. */
  function Find(ds: seq<Descriptor>, layer: nat): (i: nat)
    ensures i <= |ds| && (i < |ds| ==> ds[i].layer == layer)
    ensures i == |ds| ==> forall k :: 0 <= k < |ds| ==> ds[k].layer != layer
  {
    if ds == [] then 0
    else if ds[|ds| - 1].layer == layer then |ds| - 1
    else
      var i := Find(ds[..|ds| - 1], layer);
      if i == |ds| - 1 then |ds| else i
  }

  /** What a layer shows after the call: its own descriptor's sidecar, or none. */
  function WithQkv(layer: Layer, ds: seq<Descriptor>, l: nat): Layer {
    SetQkv(layer, if Find(ds, l) < |ds| then ds[Find(ds, l)].sidecar else 0)
  }

  function WithScale6(layer: Layer, ds: seq<Descriptor>, l: nat): Layer {
    var i := Find(ds, l);
    SetConsumerOrder(if i < |ds| then SetScale6(layer, ds[i].sidecar, ds[i].scaleBase) else SetScale6(layer, 0, 0), 0)
  }

  function WithConsumerOrder(layer: Layer, ds: seq<Descriptor>, l: nat): Layer {
    SetConsumerOrder(layer, if Find(ds, l) < |ds| then ds[Find(ds, l)].sidecar else 0)
  }

  /** The caller's pointer and count: null, or an array of that many descriptors. */
  datatype Given<D> = NoPointer(count: nat) | Pointer(items: seq<D>) {
    function Count(): nat {
      if NoPointer? then count else |items|
    }

    function Items(): seq<D> {
      if NoPointer? then [] else items
    }
  }

  /** The one way to ask for a detach. */
  predicate Empty<D>(d: Given<D>) {
    d == NoPointer(0)
  }

  ghost predicate QkvAccepted(layers: seq<Layer>, arena: Arena, d: Given<Descriptor>) {
    || (Empty(d) && arena == Arena(0, 0))
    || (d.Pointer? && |d.items| == LINEAR_LAYER_COUNT && ArenaFits(arena, QKV, |d.items|)
        && (forall l :: l in LinearLayers(layers) ==> QkvFits(layers[l])) && |LinearLayers(layers)| == LINEAR_LAYER_COUNT
        && Placed(d.items, |d.items|, arena, QKV, LinearLayers(layers)))
  }

  ghost predicate Scale6Accepted(layers: seq<Layer>, arena: Arena, d: Given<Descriptor>) {
    || (Empty(d) && arena == Arena(0, 0))
    || (d.Pointer? && 0 < |d.items| <= LAYER_COUNT && ArenaFits(arena, SCALE6, |d.items|)
        && (forall i :: 0 <= i < |d.items| ==> d.items[i].scaleBase <= MAXIMUM_SCALE_BASE)
        && Placed(d.items, |d.items|, arena, SCALE6, DownLayers(layers)))
  }

  ghost predicate ConsumerOrderAccepted(layers: seq<Layer>, arena: Arena, d: Given<Descriptor>) {
    || (Empty(d) && arena == Arena(0, 0))
    || (d.Pointer? && 0 < |d.items| <= LAYER_COUNT && ArenaFits(arena, CONSUMER_ORDER, |d.items|)
        && Placed(d.items, |d.items|, arena, CONSUMER_ORDER, Scale6Layers(layers)))
  }

  const GATE_ROWS: nat := 17408
  const HIDDEN: nat := 5120

  datatype MarlinDescriptor = MarlinDescriptor(layer: nat, layout: Layout, gateUp: Marlin, down: Marlin)

  /** A packed or parity artifact for one slot of one layer: slot 0 serves gate and up, slot 1 down, and
      slots 2 and 3 the FP8 projections.  `admissible` stands for the checks of the artifact's own manifest
      against the constants of its role; `sources` are the identities of the tensors it was made from. */
  datatype ArtifactDescriptor = ArtifactDescriptor(layer: nat, slot: nat, artifact: Artifact, sources: seq<nat>, admissible: bool)

  predicate Shaped(p: Option<NvFp4>, rows: nat, columns: nat) {
    p.Some? && p.value.valid && p.value.rows == rows && p.value.columns == columns
  }

  predicate DenseShape(layer: Layer) {
    Shaped(layer.gate, GATE_ROWS, HIDDEN) && Shaped(layer.up, GATE_ROWS, HIDDEN) && Shaped(layer.down, HIDDEN, GATE_ROWS)
  }

  predicate Usable(p: Option<NvFp4>) {
    p.Some? && p.value.valid
  }

  predicate NoParity(layer: Layer)
    requires layer.gate.Some? && layer.up.Some? && layer.down.Some?
  {
    layer.gate.value.parity.None? && layer.up.value.parity.None? && layer.down.value.parity.None?
  }

  predicate MarlinAdmits(layer: Layer) {
    DenseShape(layer) && NoParity(layer)
  }

  predicate PackedAdmits(layer: Layer) {
    && Usable(layer.gate) && Usable(layer.up) && Usable(layer.down) && NoParity(layer)
    && layer.gate.value.marlin.weight == layer.up.value.marlin.weight == layer.down.value.marlin.weight == 0
    && layer.fp8Valid && !layer.fp8Claimed
  }

  predicate PackedNvFp4Admits(layer: Layer) {
    && DenseShape(layer) && NoParity(layer) && layer.gate.value.marlin == layer.up.value.marlin == NO_MARLIN
    && layer.down.value.marlin.(layout := Unbound) == NO_MARLIN
    && layer.fp8Present && !layer.fp8Packed
  }

  predicate ParityAdmits(layer: Layer) {
    && DenseShape(layer) && layer.gate.value.scaleBits == layer.up.value.scaleBits
    && layer.gate.value.marlin == layer.up.value.marlin == layer.down.value.marlin == NO_MARLIN
    && layer.gate.value.packed.None? && layer.up.value.packed.None? && layer.down.value.packed.None?
  }

  /** The pointers a Marlin descriptor must carry: with a layout taken from the canonical source, which only
      the served build knows, there are none for gate and up. */
  predicate MarlinPointers(d: MarlinDescriptor, service: bool) {
    && (if service && d.layout.CanonicalSourceOnly? then
          d.gateUp.weight == d.gateUp.scales == d.gateUp.globalScale == 0
        else
          d.gateUp.weight != 0 && d.gateUp.scales != 0 && d.gateUp.globalScale != 0
          && (d.layout.CanonicalGateThenUp? || d.layout.InterleavedGateUp?))
    && d.down.weight != 0 && d.down.scales != 0 && d.down.globalScale != 0
    && d.gateUp.weight % 16 == d.gateUp.scales % 16 == d.down.weight % 16 == d.down.scales % 16 == 0
    && d.gateUp.globalScale % 4 == d.down.globalScale % 4 == 0
  }

  predicate Meet(a: Span, b: Span) {
    a.begin < b.end && b.begin < a.end
  }

  ghost predicate Separate(spans: seq<Span>) {
    forall i, j :: 0 <= i < j < |spans| ==> !Meet(spans[i], spans[j])
  }

  ghost predicate AllDifferent(s: seq<nat>) {
    forall i, j :: 0 <= i < j < |s| ==> s[i] != s[j]
  }

  function SpansOf(ds: seq<ArtifactDescriptor>): seq<Span> {
    if ds == [] then [] else SpansOf(ds[..|ds| - 1]) + ds[|ds| - 1].artifact.spans
  }

  function SourcesOf(ds: seq<ArtifactDescriptor>): seq<nat> {
    if ds == [] then [] else SourcesOf(ds[..|ds| - 1]) + ds[|ds| - 1].sources
  }

  function IdentitiesOf(ds: seq<ArtifactDescriptor>): seq<nat> {
    seq(|ds|, i requires 0 <= i < |ds| => ds[i].artifact.identity)
  }

  function PayloadOf(layer: Layer): seq<Span>
    requires layer.gate.Some? && layer.up.Some? && layer.down.Some?
  {
    layer.gate.value.payload + layer.up.value.payload + layer.down.value.payload
  }

  predicate Complete(layers: seq<Layer>) {
    forall l :: 0 <= l < |layers| ==> layers[l].gate.Some? && layers[l].up.Some? && layers[l].down.Some?
  }

  function PayloadsOf(layers: seq<Layer>): seq<Span>
    requires Complete(layers)
  {
    if layers == [] then [] else PayloadsOf(layers[..|layers| - 1]) + PayloadOf(layers[|layers| - 1])
  }

  /** Every slot of every layer has exactly one admissible artifact, each with its own identity. */
  ghost predicate Grid(ds: seq<ArtifactDescriptor>, slots: nat) {
    && (forall i :: 0 <= i < |ds| ==> ds[i].layer < LAYER_COUNT && ds[i].slot < slots && ds[i].admissible && ds[i].artifact.identity != 0)
    && (forall i, j :: 0 <= i < j < |ds| ==> (ds[i].layer, ds[i].slot) != (ds[j].layer, ds[j].slot))
    && (forall l, k :: 0 <= l < LAYER_COUNT && 0 <= k < slots ==> HasArtifact(ds, l, k))
    && AllDifferent(IdentitiesOf(ds))
  }

  ghost predicate HasArtifact(ds: seq<ArtifactDescriptor>, l: nat, k: nat) {
    exists i :: 0 <= i < |ds| && ds[i].layer == l && ds[i].slot == k
  }

  /** The artifact for a slot of a layer, if there is one. */
  function ArtifactFor(ds: seq<ArtifactDescriptor>, l: nat, k: nat): Option<Artifact> {
    if ds == [] then None
    else if ds[|ds| - 1].layer == l && ds[|ds| - 1].slot == k then Some(ds[|ds| - 1].artifact)
    else ArtifactFor(ds[..|ds| - 1], l, k)
  }

  function MarlinFor(ds: seq<MarlinDescriptor>, l: nat): Option<MarlinDescriptor> {
    if ds == [] then None
    else if ds[|ds| - 1].layer == l then Some(ds[|ds| - 1])
    else MarlinFor(ds[..|ds| - 1], l)
  }

  ghost predicate MarlinGrid(ds: seq<MarlinDescriptor>, service: bool) {
    && (forall i :: 0 <= i < |ds| ==> ds[i].layer < LAYER_COUNT && MarlinPointers(ds[i], service))
    && (forall i, j :: 0 <= i < j < |ds| ==> ds[i].layer != ds[j].layer)
    && (forall l :: 0 <= l < LAYER_COUNT ==> MarlinFor(ds, l).Some?)
  }

  function SetMarlinOf(p: Option<NvFp4>, m: Marlin): Option<NvFp4> {
    if p.Some? then Some(p.value.(marlin := m)) else p
  }

  function SetPackedOf(p: Option<NvFp4>, a: Option<Artifact>): Option<NvFp4> {
    if p.Some? then Some(p.value.(packed := a)) else p
  }

  function SetParityOf(p: Option<NvFp4>, a: Option<Artifact>): Option<NvFp4> {
    if p.Some? then Some(p.value.(parity := a)) else p
  }

  function WithMarlin(layer: Layer, d: Option<MarlinDescriptor>): Layer {
    var gateUp := if d.Some? then d.value.gateUp.(layout := d.value.layout) else NO_MARLIN;
    var down := if d.Some? then d.value.down.(layout := Unbound) else NO_MARLIN;
    layer.(gate := SetMarlinOf(layer.gate, gateUp), up := SetMarlinOf(layer.up, gateUp), down := SetMarlinOf(layer.down, down))
  }

  function WithPacked(layer: Layer, gateUp: Option<Artifact>, down: Option<Artifact>): Layer {
    layer.(gate := SetPackedOf(layer.gate, gateUp), up := SetPackedOf(layer.up, gateUp), down := SetPackedOf(layer.down, down))
  }

  function WithParity(layer: Layer, gateUp: Option<Artifact>, down: Option<Artifact>): Layer {
    layer.(gate := SetParityOf(layer.gate, gateUp), up := SetParityOf(layer.up, gateUp), down := SetParityOf(layer.down, down))
  }

  datatype Call =
    | Qkv(arena: Arena, placed: Given<Descriptor>)
    | Scale6(arena: Arena, placed: Given<Descriptor>)
    | ConsumerOrder(arena: Arena, placed: Given<Descriptor>)
    | MarlinPrefill(marlin: Given<MarlinDescriptor>, service: bool)
    | Packed(artifacts: Given<ArtifactDescriptor>)
    | PackedNvFp4(artifacts: Given<ArtifactDescriptor>)
    | Parity(artifacts: Given<ArtifactDescriptor>)

  ghost predicate MarlinAccepted(layers: seq<Layer>, d: Given<MarlinDescriptor>, service: bool) {
    || Empty(d)
    || (d.Pointer? && |d.items| == LAYER_COUNT && MarlinGrid(d.items, service)
        && forall l :: 0 <= l < |layers| ==> MarlinAdmits(layers[l]))
  }

  ghost predicate PackedAccepted(layers: seq<Layer>, d: Given<ArtifactDescriptor>) {
    || Empty(d)
    || (d.Pointer? && |d.items| == 4 * LAYER_COUNT && Grid(d.items, 4) && Separate(SpansOf(d.items))
        && forall l :: 0 <= l < |layers| ==> PackedAdmits(layers[l]))
  }

  ghost predicate PackedNvFp4Accepted(layers: seq<Layer>, d: Given<ArtifactDescriptor>) {
    || Empty(d)
    || (d.Pointer? && |d.items| == 2 * LAYER_COUNT && Grid(d.items, 2) && Separate(SpansOf(d.items))
        && forall l :: 0 <= l < |layers| ==> PackedNvFp4Admits(layers[l]))
  }

  /** Parity artifacts must also keep clear of every projection's canonical payload, and no tensor may be
      the source of two of them. */
  ghost predicate ParityAccepted(layers: seq<Layer>, d: Given<ArtifactDescriptor>) {
    || Empty(d)
    || (d.Pointer? && |d.items| == 2 * LAYER_COUNT && Grid(d.items, 2)
        && (forall l :: 0 <= l < |layers| ==> ParityAdmits(layers[l]))
        && Separate(PayloadsOf(layers) + SpansOf(d.items)) && AllDifferent(SourcesOf(d.items)))
  }

  ghost predicate Accepted(layers: seq<Layer>, call: Call) {
    match call
    case Qkv(arena, d) => QkvAccepted(layers, arena, d)
    case Scale6(arena, d) => Scale6Accepted(layers, arena, d)
    case ConsumerOrder(arena, d) => ConsumerOrderAccepted(layers, arena, d)
    case MarlinPrefill(d, service) => MarlinAccepted(layers, d, service)
    case Packed(d) => PackedAccepted(layers, d)
    case PackedNvFp4(d) => PackedNvFp4Accepted(layers, d)
    case Parity(d) => ParityAccepted(layers, d)
  }

  /** What an accepted call makes of one layer. */
  function Effect(layer: Layer, call: Call, l: nat): Layer {
    match call
    case Qkv(_, d) => WithQkv(layer, d.Items(), l)
    case Scale6(_, d) => WithScale6(layer, d.Items(), l)
    case ConsumerOrder(_, d) => WithConsumerOrder(layer, d.Items(), l)
    case MarlinPrefill(d, _) => WithMarlin(layer, MarlinFor(d.Items(), l))
    case Packed(d) =>
      WithPacked(layer, ArtifactFor(d.Items(), l, 0), ArtifactFor(d.Items(), l, 1)).(fp8Packed := d.Items() != [])
    case PackedNvFp4(d) => WithPacked(layer, ArtifactFor(d.Items(), l, 0), ArtifactFor(d.Items(), l, 1))
    case Parity(d) => WithParity(layer, ArtifactFor(d.Items(), l, 0), ArtifactFor(d.Items(), l, 1))
  }

  /** All of the call, or nothing of it. */
  ghost function Apply(layers: seq<Layer>, call: Call): (after: seq<Layer>)
    ensures |after| == |layers|
  {
    if Accepted(layers, call) then
      seq(|layers|, l requires 0 <= l < |layers| => Effect(layers[l], call, l))
    else layers
  }

  predicate SoundProjection(p: Option<NvFp4>) {
    p.Some? && p.value.parity.Some? ==> p.value.marlin == NO_MARLIN && p.value.packed.None?
  }

  /** A consumer-order weight stands beside a scale6 sidecar, and a projection with a parity artifact holds
      neither a Marlin nor a packed one. */
  predicate SoundLayer(layer: Layer) {
    && (layer.down.Some? && layer.down.value.consumerOrder != 0 ==> layer.down.value.scale6 != 0)
    && SoundProjection(layer.gate) && SoundProjection(layer.up) && SoundProjection(layer.down)
  }

  ghost predicate Sound(layers: seq<Layer>) {
    forall l :: 0 <= l < |layers| ==> SoundLayer(layers[l])
  }

  lemma ConsumerOrderNeedsScale6(layers: seq<Layer>, arena: Arena, d: Given<Descriptor>, l: nat)
    requires ConsumerOrderAccepted(layers, arena, d) && l < |layers|
    ensures var i := Find(d.Items(), l);
            i < |d.Items()| ==> layers[l].down.Some? && layers[l].down.value.scale6 != 0
  {
  }

  /** Every call, accepted or not, keeps the layers sound. */
  lemma CallsKeepSound(layers: seq<Layer>, call: Call)
    requires Sound(layers)
    ensures Sound(Apply(layers, call))
  {
    hide Accepted, Effect, SoundLayer;
    if Accepted(layers, call) {
      forall l | 0 <= l < |layers|
        ensures SoundLayer(Effect(layers[l], call, l))
      {
        EffectKeepsSound(layers, call, l);
      }
    }
  }

  lemma EffectKeepsSound(layers: seq<Layer>, call: Call, l: nat)
    requires Accepted(layers, call) && l < |layers| && SoundLayer(layers[l])
    ensures SoundLayer(Effect(layers[l], call, l))
  {
    hide Placed, Grid, MarlinGrid, Separate, AllDifferent, QkvAccepted, Scale6Accepted, ConsumerOrderAccepted, SoundLayer,
         ArtifactFor, MarlinFor, Find, WithQkv, WithScale6, WithConsumerOrder, WithMarlin, WithPacked, WithParity;
    var layer := layers[l];
    match call
    case Qkv(_, d) => FeedKeepsSound(layer, d.Items(), l);
    case Scale6(_, d) => Scale6KeepsSound(layer, d.Items(), l);
    case ConsumerOrder(arena, d) =>
      ConsumerOrderNeedsScale6(layers, arena, d, l);
      OrderKeepsSound(layer, d.Items(), l);
    case MarlinPrefill(d, _) =>
      DetachedMarlin(l);
      MarlinLayoutKeepsSound(layer, MarlinFor(d.Items(), l));
    case Packed(d) =>
      DetachedArtifact(l);
      PackedLayoutKeepsSound(layer, ArtifactFor(d.Items(), l, 0), ArtifactFor(d.Items(), l, 1));
      FlagKeepsSound(WithPacked(layer, ArtifactFor(d.Items(), l, 0), ArtifactFor(d.Items(), l, 1)), d.Items() != []);
    case PackedNvFp4(d) =>
      DetachedArtifact(l);
      PackedLayoutKeepsSound(layer, ArtifactFor(d.Items(), l, 0), ArtifactFor(d.Items(), l, 1));
    case Parity(d) =>
      DetachedArtifact(l);
      ParityKeepsSound(layer, ArtifactFor(d.Items(), l, 0), ArtifactFor(d.Items(), l, 1));
  }

  lemma DetachedMarlin(l: nat)
    ensures MarlinFor([], l) == None
  {
  }

  lemma DetachedArtifact(l: nat)
    ensures ArtifactFor([], l, 0) == ArtifactFor([], l, 1) == None
  {
  }

  lemma FeedKeepsSound(layer: Layer, ds: seq<Descriptor>, l: nat)
    requires SoundLayer(layer)
    ensures SoundLayer(WithQkv(layer, ds, l))
  {
    hide Find;
  }

  lemma Scale6KeepsSound(layer: Layer, ds: seq<Descriptor>, l: nat)
    requires SoundLayer(layer)
    ensures SoundLayer(WithScale6(layer, ds, l))
  {
    hide Find;
  }

  lemma OrderKeepsSound(layer: Layer, ds: seq<Descriptor>, l: nat)
    requires SoundLayer(layer) && (Find(ds, l) < |ds| ==> layer.down.Some? && layer.down.value.scale6 != 0)
    ensures SoundLayer(WithConsumerOrder(layer, ds, l))
  {
    hide Find;
  }

  predicate FreeOfParity(layer: Layer) {
    layer.gate.Some? && layer.up.Some? && layer.down.Some? && NoParity(layer)
  }

  lemma MarlinLayoutKeepsSound(layer: Layer, d: Option<MarlinDescriptor>)
    requires SoundLayer(layer)
    requires FreeOfParity(layer) || d.None?
    ensures SoundLayer(WithMarlin(layer, d))
  {
  }

  lemma PackedLayoutKeepsSound(layer: Layer, gateUp: Option<Artifact>, down: Option<Artifact>)
    requires SoundLayer(layer)
    requires FreeOfParity(layer) || (gateUp.None? && down.None?)
    ensures SoundLayer(WithPacked(layer, gateUp, down))
  {
  }

  lemma FlagKeepsSound(layer: Layer, packed: bool)
    requires SoundLayer(layer)
    ensures SoundLayer(layer.(fp8Packed := packed))
  {
  }

  lemma ParityKeepsSound(layer: Layer, gateUp: Option<Artifact>, down: Option<Artifact>)
    requires SoundLayer(layer) && (ParityAdmits(layer) || (gateUp.None? && down.None?))
    ensures SoundLayer(WithParity(layer, gateUp, down))
  {
  }

  ghost function Drive(layers: seq<Layer>, calls: seq<Call>): seq<Layer> {
    if calls == [] then layers else Apply(Drive(layers, calls[..|calls| - 1]), calls[|calls| - 1])
  }

  /** Whatever is attached and detached, in any order, a sound model stays sound. */
  lemma {:induction false} RunsKeepSound(layers: seq<Layer>, calls: seq<Call>)
    requires Sound(layers)
    ensures Sound(Drive(layers, calls)) && |Drive(layers, calls)| == |layers|
  {
    if calls != [] {
      RunsKeepSound(layers, calls[..|calls| - 1]);
      CallsKeepSound(Drive(layers, calls[..|calls| - 1]), calls[|calls| - 1]);
    }
  }

  lemma {:induction false} FirstArtifact(ds: seq<ArtifactDescriptor>, l: nat, k: nat)
    requires HasArtifact(ds, l, k)
    ensures ArtifactFor(ds, l, k).Some?
  {
    var i :| 0 <= i < |ds| && ds[i].layer == l && ds[i].slot == k;
    if i < |ds| - 1 {
      assert ds[..|ds| - 1][i] == ds[i];
      FirstArtifact(ds[..|ds| - 1], l, k);
    }
  }

  lemma GridHas(ds: seq<ArtifactDescriptor>, slots: nat, l: nat, k: nat)
    requires Grid(ds, slots) && l < LAYER_COUNT && k < slots
    ensures ArtifactFor(ds, l, k).Some?
  {
    assert HasArtifact(ds, l, k);
    FirstArtifact(ds, l, k);
  }

  lemma {:induction false} MarlinFound(ds: seq<MarlinDescriptor>, l: nat)
    requires MarlinFor(ds, l).Some?
    ensures exists i :: 0 <= i < |ds| && ds[i] == MarlinFor(ds, l).value && ds[i].layer == l
  {
    if ds[|ds| - 1].layer != l {
      MarlinFound(ds[..|ds| - 1], l);
      var i :| 0 <= i < |ds| - 1 && ds[..|ds| - 1][i] == MarlinFor(ds, l).value;
      assert ds[i] == ds[..|ds| - 1][i];
    }
  }

  lemma MarlinGridHas(ds: seq<MarlinDescriptor>, service: bool, l: nat)
    requires MarlinGrid(ds, service) && l < LAYER_COUNT
    ensures MarlinFor(ds, l).Some? && MarlinPointers(MarlinFor(ds, l).value, service)
  {
    MarlinFound(ds, l);
  }

  /** The QKV sidecars of an accepted call: one for every linear layer, and together the whole arena. */
  lemma QkvCoversLinearLayers(layers: seq<Layer>, arena: Arena, d: Given<Descriptor>)
    requires QkvAccepted(layers, arena, d) && d.Pointer?
    ensures Elements(LayersOf(d.items)) == LinearLayers(layers)
    ensures Elements(Begins(d.items)) == Blocks(arena.address, QKV_BYTES, LINEAR_LAYER_COUNT)
    ensures forall l :: 0 <= l < |layers| ==>
              && (layers[l].linear <==> Find(d.items, l) < LINEAR_LAYER_COUNT)
              && (layers[l].linear ==> Effect(layers[l], Qkv(arena, d), l).qkv.value.registerFeed
                                       == d.items[Find(d.items, l)].sidecar != 0)
  {
    EveryLayerIsCovered(d.items, arena, QKV, LinearLayers(layers));
    PlacementIsExactCover(d.items, arena, QKV, LinearLayers(layers));
    forall l | 0 <= l < |layers|
      ensures layers[l].linear <==> Find(d.items, l) < LINEAR_LAYER_COUNT
      ensures layers[l].linear ==> QkvFits(layers[l]) && d.items[Find(d.items, l)].sidecar != 0
    {
      var i := Find(d.items, l);
      if i < |d.items| {
        assert Located(d.items[i], arena, QKV, LinearLayers(layers));
      }
      assert layers[l].linear <==> l in LinearLayers(layers);
    }
  }
}
