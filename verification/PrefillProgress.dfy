/**
  Progress through a prefill plan.  Device completions are reported by guarded transitions that may
  be called in any order and with any arguments; only the plan's own walk gets through.
 */
module PrefillProgress {
  import opened Common
  import opened PrefillPlan

  /** Device-completion evidence of one layer under the parity tactic. */
  datatype Receipt = Receipt(layer: nat, lockClears: nat, gateUpFull: nat, gateUpTail: nat, silu: nat,
                             downFull: nat, downTail: nat, residual: nat, attestations: seq<bool>)

  const FULL_SEGMENTS: nat := 39
  const TAIL_SEGMENTS: nat := 1

  predicate ValidReceipt(layer: nat, r: Receipt) {
    && r.layer == layer && r.lockClears == (if layer == 0 then 1 else 0)
    && r.gateUpFull == r.downFull == FULL_SEGMENTS && r.gateUpTail == r.downTail == TAIL_SEGMENTS
    && r.silu == r.residual == 1
    && |r.attestations| == 8 && forall i :: 0 <= i < 8 ==> r.attestations[i]
  }

  /** What a completion reports: the work of a panel, a phase or a whole layer. */
  datatype Action =
    | OperatorPanel(layer: nat, panel: nat)
    | LayerWideMlp(layer: nat)
    | Fill(layer: nat, panel: nat)
    | PromptCore(layer: nat)
    | Drain(layer: nat, panel: nat)
    | PersistentMlp(layer: nat)
    | ResetLayer(layer: nat)
    | PackedLayer(layer: nat)
    | PackedV2Layer(layer: nat)
    | ParityLayer(layer: nat, receipt: Receipt)

  datatype Call = Advance(action: Action) | MarkHidden | Publish

  datatype Response =
    | Accepted | InvalidPlan | LayerOutOfRange | PanelOutOfRange | OutOfOrder | ExecutionIncomplete
    | CommitNotReady | AlreadyCommitted | InvalidCompletionReceipt

  /** Where the walk stands: `phase` actions of layer `layer` are done, and all of the layers before. */
  datatype Walk = Walk(layer: nat, phase: nat, hidden: bool, committed: bool)

  const START := Walk(0, 0, false, false)

  /** How many actions a layer takes. */
  function Phases(plan: Plan): nat {
    match plan.tactic
    case PerOperatorPanel => |plan.panels|
    case LayerWideP40ExactFullM => |plan.panels| + 1
    case WholeCore => 2 * |plan.panels| + 2
    case _ => 1
  }

  /** The walk's only next action.  The parity tactic accepts any valid receipt with it. */
  predicate IsNext(plan: Plan, w: Walk, a: Action) {
    && w.layer < LAYER_COUNT
    && var n, j := |plan.panels|, w.phase;
       match plan.tactic
       case PerOperatorPanel => a == OperatorPanel(w.layer, j)
       case LayerWideP40ExactFullM => a == if j < n then OperatorPanel(w.layer, j) else LayerWideMlp(w.layer)
       case WholeCore =>
         a == if j < n then Fill(w.layer, j)
              else if j == n then PromptCore(w.layer)
              else if j <= 2 * n then Drain(w.layer, j - n - 1)
              else PersistentMlp(w.layer)
       case ProjectionReset => a == ResetLayer(w.layer)
       case PackedProjection => a == PackedLayer(w.layer)
       case PackedNvfp4V2 => a == PackedV2Layer(w.layer)
       case VllmMarlinParity => a.ParityLayer? && a.layer == w.layer
  }

  predicate HasPanel(a: Action) {
    a.OperatorPanel? || a.Fill? || a.Drain?
  }

  function Step(plan: Plan, w: Walk): Walk {
    if w.phase + 1 == Phases(plan) then w.(layer := w.layer + 1, phase := 0) else w.(phase := w.phase + 1)
  }

  /** The specification: the response to a call, and where the walk stands after it. */
  function Respond(plan: Plan, valid: bool, w: Walk, call: Call): (Walk, Response) {
    match call
    case Advance(a) =>
      if !valid then (w, InvalidPlan)
      else if a.OperatorPanel? && plan.tactic.FixedGeometry() then (w, OutOfOrder)
      else if a.layer >= LAYER_COUNT then (w, LayerOutOfRange)
      else if HasPanel(a) && a.panel >= |plan.panels| then (w, PanelOutOfRange)
      else if !IsNext(plan, w, a) then (w, OutOfOrder)
      else if a.ParityLayer? && !ValidReceipt(a.layer, a.receipt) then (w, InvalidCompletionReceipt)
      else (Step(plan, w), Accepted)
    case MarkHidden =>
      if !valid || w.layer != LAYER_COUNT then (w, ExecutionIncomplete)
      else if w.committed then (w, AlreadyCommitted)
      else (w.(hidden := true), Accepted)
    case Publish =>
      if w.committed then (w, AlreadyCommitted)
      else if !valid || w.layer != LAYER_COUNT || !w.hidden then (w, CommitNotReady)
      else (w.(committed := true), Accepted)
  }

  datatype LayerProgress = LayerProgress(end: nat, panels: nat, mlp: nat, fill: nat, core: nat, drain: nat)

  function Least(a: int, b: int): int {
    if a <= b then a else b
  }

  /** The end position a layer has reached after `n` panels. */
  function EndAfter(plan: Plan, n: nat): nat
    requires n <= |plan.panels|
  {
    if n == 0 then plan.first else plan.panels[n - 1].end
  }

  /** What a layer shows after `j` of its actions. */
  function AfterPhases(plan: Plan, j: nat): LayerProgress
    requires j <= Phases(plan)
  {
    var n := |plan.panels|;
    match plan.tactic
    case PerOperatorPanel => LayerProgress(EndAfter(plan, j), j, j, 0, 0, 0)
    case LayerWideP40ExactFullM =>
      LayerProgress(EndAfter(plan, Least(j, n)), Least(j, n), if j == n + 1 then 1 else 0, 0, 0, 0)
    case WholeCore =>
      var drained := if j <= n + 1 then 0 else Least(j - n - 1, n);
      LayerProgress(if j <= n then plan.first else plan.final, drained, if j == 2 * n + 2 then 1 else 0,
                    Least(j, n), if j <= n then 0 else 1, drained)
    case _ => if j == 0 then LayerProgress(plan.first, 0, 0, 0, 0, 0) else LayerProgress(plan.final, n, 1, 0, 0, 0)
  }

  /** How many phases of layer `l` are done. */
  function PhasesOf(plan: Plan, w: Walk, l: nat): nat {
    if l < w.layer then Phases(plan) else if l == w.layer then w.phase else 0
  }

  /** The panel the walk points at. */
  function PanelOf(plan: Plan, w: Walk): nat {
    var n := |plan.panels|;
    if plan.tactic.WholeCore? && w.phase > n then (if w.phase <= 2 * n then w.phase - n - 1 else 0)
    else if w.phase < n then w.phase else 0
  }

  /** The ways a walk can stand. */
  predicate Standing(plan: Plan, w: Walk) {
    && w.layer <= LAYER_COUNT && (if w.layer < LAYER_COUNT then w.phase < Phases(plan) else w.phase == 0)
    && (w.hidden ==> w.layer == LAYER_COUNT) && (w.committed ==> w.hidden)
  }

  class Progress {
    var kvVisibleEnd: seq<nat>
    var gdnAdvancedEnd: seq<nat>
    var completedPanels: seq<nat>
    var completedMlpPhases: seq<nat>
    var completedFillPanels: seq<nat>
    var completedPromptCorePhases: seq<nat>
    var completedDrainPanels: seq<nat>
    var nextLayer: nat
    var nextPanel: nat
    var finalHiddenReady: bool
    var committed: bool
    ghost var walk: Walk

    constructor (build: Build, plan: Plan)
      ensures Tracks(build, plan) && walk == START
    {
      kvVisibleEnd, gdnAdvancedEnd := seq(LAYER_COUNT, _ => plan.first), seq(LAYER_COUNT, _ => plan.first);
      completedPanels, completedMlpPhases := seq(LAYER_COUNT, _ => 0), seq(LAYER_COUNT, _ => 0);
      completedFillPanels, completedPromptCorePhases := seq(LAYER_COUNT, _ => 0), seq(LAYER_COUNT, _ => 0);
      completedDrainPanels := seq(LAYER_COUNT, _ => 0);
      nextLayer, nextPanel, finalHiddenReady, committed, walk := 0, 0, false, false, START;
      new;
      if ValidTopology(build, plan) {
        PhasesArePositive(build, plan);
      }
    }

    ghost predicate Sized()
      reads this
    {
      && |kvVisibleEnd| == |gdnAdvancedEnd| == |completedPanels| == |completedMlpPhases| == LAYER_COUNT
      && |completedFillPanels| == |completedPromptCorePhases| == |completedDrainPanels| == LAYER_COUNT
    }

    ghost function LayerAt(l: nat): LayerProgress
      requires Sized() && l < LAYER_COUNT
      reads this
    {
      LayerProgress(if DomainOf(l).KvCache? then kvVisibleEnd[l] else gdnAdvancedEnd[l], completedPanels[l],
                    completedMlpPhases[l], completedFillPanels[l], completedPromptCorePhases[l], completedDrainPanels[l])
    }

    /** The recorded progress is exactly that of a standing walk. */
    ghost predicate AtWalk(plan: Plan)
      reads this
    {
      && Sized() && Standing(plan, walk)
      && nextLayer == walk.layer && nextPanel == PanelOf(plan, walk)
      && finalHiddenReady == walk.hidden && committed == walk.committed
      && forall l :: 0 <= l < LAYER_COUNT ==>
           && LayerAt(l) == AfterPhases(plan, PhasesOf(plan, walk, l))
           && (if DomainOf(l).KvCache? then gdnAdvancedEnd[l] else kvVisibleEnd[l]) == plan.first
    }

    /** Progress made under a plan; under a plan of invalid topology there is none. */
    ghost predicate Tracks(build: Build, plan: Plan)
      reads this
    {
      && Sized() && finalHiddenReady == walk.hidden && committed == walk.committed
      && (if ValidTopology(build, plan) then AtWalk(plan) else walk == START)
    }

    method DomainEnd(layer: nat) returns (end: nat)
      requires Sized() && layer < LAYER_COUNT
      ensures end == LayerAt(layer).end
    {
      end := if DomainOf(layer).KvCache? then kvVisibleEnd[layer] else gdnAdvancedEnd[layer];
    }

    method MoveEnd(layer: nat, end: nat)
      requires Sized() && layer < LAYER_COUNT
      modifies this`kvVisibleEnd, this`gdnAdvancedEnd
      ensures Sized()
      ensures if DomainOf(layer).KvCache? then
                kvVisibleEnd == old(kvVisibleEnd)[layer := end] && gdnAdvancedEnd == old(gdnAdvancedEnd)
              else
                gdnAdvancedEnd == old(gdnAdvancedEnd)[layer := end] && kvVisibleEnd == old(kvVisibleEnd)
    {
      if DomainOf(layer).KvCache? {
        kvVisibleEnd := kvVisibleEnd[layer := end];
      } else {
        gdnAdvancedEnd := gdnAdvancedEnd[layer := end];
      }
    }

    /** Moves the walk on, once the fields of its layer show one phase more. */
    ghost method Arrive(build: Build, plan: Plan)
      requires ValidTopology(build, plan) && Sized() && Standing(plan, walk) && walk.layer < LAYER_COUNT
      requires nextLayer == Step(plan, walk).layer && nextPanel == PanelOf(plan, Step(plan, walk))
      requires !finalHiddenReady && !committed
      requires LayerAt(walk.layer) == AfterPhases(plan, walk.phase + 1)
      requires forall l :: 0 <= l < LAYER_COUNT ==>
                 && (l != walk.layer ==> LayerAt(l) == AfterPhases(plan, PhasesOf(plan, walk, l)))
                 && (if DomainOf(l).KvCache? then gdnAdvancedEnd[l] else kvVisibleEnd[l]) == plan.first
      modifies this`walk
      ensures AtWalk(plan) && walk == Step(plan, old(walk))
    {
      hide AfterPhases, ValidTopology, PanelOf;
      PhasesArePositive(build, plan);
      walk := Step(plan, walk);
    }

    method NextPanelOrLayer(plan: Plan)
      modifies this`nextPanel, this`nextLayer
      ensures var wrapped := old(nextPanel) + 1 == |plan.panels|;
              && nextPanel == (if wrapped then 0 else old(nextPanel) + 1)
              && nextLayer == old(nextLayer) + if wrapped && plan.tactic.PerOperatorPanel? then 1 else 0
    {
      nextPanel := nextPanel + 1;
      if nextPanel == |plan.panels| {
        nextPanel := 0;
        if plan.tactic.PerOperatorPanel? {
          nextLayer := nextLayer + 1;
        }
      }
    }

    /** The fields of a layer, one panel further; with a panelwise MLP that phase is done as well. */
    method CountPanel(layer: nat, end: nat, mlp: bool)
      requires Sized() && layer < LAYER_COUNT
      modifies this`kvVisibleEnd, this`gdnAdvancedEnd, this`completedPanels, this`completedMlpPhases
      ensures Sized()
      ensures var before := old(LayerAt(layer));
              LayerAt(layer) == before.(end := end, panels := before.panels + 1, mlp := before.mlp + if mlp then 1 else 0)
      ensures forall l :: 0 <= l < LAYER_COUNT && l != layer ==> LayerAt(l) == old(LayerAt(l))
      ensures forall l :: 0 <= l < LAYER_COUNT ==>
                (if DomainOf(l).KvCache? then gdnAdvancedEnd[l] else kvVisibleEnd[l]) ==
                old(if DomainOf(l).KvCache? then gdnAdvancedEnd[l] else kvVisibleEnd[l])
    {
      MoveEnd(layer, end);
      completedPanels := completedPanels[layer := completedPanels[layer] + 1];
      if mlp {
        completedMlpPhases := completedMlpPhases[layer := completedMlpPhases[layer] + 1];
      }
    }

    method RecordPanel(build: Build, plan: Plan, layer: nat, panel: nat)
      requires ValidTopology(build, plan) && AtWalk(plan) && IsNext(plan, walk, OperatorPanel(layer, panel))
      modifies this
      ensures AtWalk(plan) && walk == Step(plan, old(walk))
    {
      hide ValidTopology, Tiles, AfterPhases;
      PhasesArePositive(build, plan);
      PanelPhase(plan, panel);
      ghost var now := LayerAt(layer);
      assert walk.phase == panel == nextPanel;
      CountPanel(layer, plan.panels[panel].end, plan.tactic.PerOperatorPanel?);
      NextPanelOrLayer(plan);
      Arrive(build, plan);
    }

    method AdvancePanel(build: Build, plan: Plan, layer: nat, panel: nat) returns (r: Response)
      requires Tracks(build, plan)
      modifies this
      ensures Tracks(build, plan)
      ensures (walk, r) == Respond(plan, ValidTopology(build, plan), old(walk), Advance(OperatorPanel(layer, panel)))
      ensures !r.Accepted? ==> unchanged(this)
    {
      var valid := ValidPlanTopology(build, plan);
      if !valid {
        return InvalidPlan;
      }
      PhasesArePositive(build, plan);
      hide ValidTopology;
      if plan.tactic.FixedGeometry() {
        return OutOfOrder;
      }
      if layer >= LAYER_COUNT {
        return LayerOutOfRange;
      }
      if panel >= |plan.panels| {
        return PanelOutOfRange;
      }
      ghost var now := LayerAt(layer);
      if committed || layer != nextLayer || panel != nextPanel || completedPanels[layer] != panel {
        return OutOfOrder;
      }
      var end := DomainEnd(layer);
      if end != plan.panels[panel].first {
        return OutOfOrder;
      }
      RecordPanel(build, plan, layer, panel);
      r := Accepted;
    }

    /** The MLP of a layer, run over the whole prompt, is the layer's last phase. */
    method RecordMlp(build: Build, plan: Plan, layer: nat)
      requires ValidTopology(build, plan) && AtWalk(plan) && layer == walk.layer < LAYER_COUNT && !walk.committed
      requires IsNext(plan, walk, LayerWideMlp(layer)) || IsNext(plan, walk, PersistentMlp(layer))
      requires completedMlpPhases[layer] == 0
      modifies this
      ensures AtWalk(plan) && walk == Step(plan, old(walk))
    {
      PhasesArePositive(build, plan);
      hide ValidTopology, Tiles;
      ghost var now := LayerAt(layer);
      completedMlpPhases := completedMlpPhases[layer := 1];
      nextLayer := nextLayer + 1;
      Arrive(build, plan);
    }

    method AdvanceLayerWideMlp(build: Build, plan: Plan, layer: nat) returns (r: Response)
      requires Tracks(build, plan)
      modifies this
      ensures Tracks(build, plan)
      ensures (walk, r) == Respond(plan, ValidTopology(build, plan), old(walk), Advance(LayerWideMlp(layer)))
      ensures !r.Accepted? ==> unchanged(this)
    {
      var valid := ValidPlanTopology(build, plan);
      if !valid {
        return InvalidPlan;
      }
      PhasesArePositive(build, plan);
      hide ValidTopology, Tiles;
      if layer >= LAYER_COUNT {
        return LayerOutOfRange;
      }
      ghost var now := LayerAt(layer);
      if !plan.tactic.LayerWideP40ExactFullM? || committed || nextLayer != layer || nextPanel != 0
         || completedPanels[layer] != |plan.panels| || completedMlpPhases[layer] != 0 {
        return OutOfOrder;
      }
      RecordMlp(build, plan, layer);
      r := Accepted;
    }

    method RecordFill(build: Build, plan: Plan, layer: nat, panel: nat)
      requires ValidTopology(build, plan) && AtWalk(plan) && IsNext(plan, walk, Fill(layer, panel))
      modifies this
      ensures AtWalk(plan) && walk == Step(plan, old(walk))
    {
      PhasesArePositive(build, plan);
      hide ValidTopology, Tiles;
      ghost var now := LayerAt(layer);
      completedFillPanels := completedFillPanels[layer := completedFillPanels[layer] + 1];
      nextPanel := nextPanel + 1;
      if nextPanel == |plan.panels| {
        nextPanel := 0;
      }
      Arrive(build, plan);
    }

    method AdvanceFill(build: Build, plan: Plan, layer: nat, panel: nat) returns (r: Response)
      requires Tracks(build, plan)
      modifies this
      ensures Tracks(build, plan)
      ensures (walk, r) == Respond(plan, ValidTopology(build, plan), old(walk), Advance(Fill(layer, panel)))
      ensures !r.Accepted? ==> unchanged(this)
    {
      var valid := ValidPlanTopology(build, plan);
      if !valid {
        return InvalidPlan;
      }
      PhasesArePositive(build, plan);
      hide ValidTopology, Tiles;
      if layer >= LAYER_COUNT {
        return LayerOutOfRange;
      }
      if panel >= |plan.panels| {
        return PanelOutOfRange;
      }
      ghost var now := LayerAt(layer);
      if !plan.tactic.WholeCore? || committed || nextLayer != layer || nextPanel != panel
         || completedFillPanels[layer] != panel || completedPromptCorePhases[layer] != 0
         || completedDrainPanels[layer] != 0 || completedPanels[layer] != 0 || completedMlpPhases[layer] != 0 {
        return OutOfOrder;
      }
      RecordFill(build, plan, layer, panel);
      r := Accepted;
    }

    method RecordPromptCore(build: Build, plan: Plan, layer: nat)
      requires ValidTopology(build, plan) && AtWalk(plan) && IsNext(plan, walk, PromptCore(layer))
      modifies this
      ensures AtWalk(plan) && walk == Step(plan, old(walk))
    {
      PhasesArePositive(build, plan);
      hide ValidTopology, Tiles;
      ghost var now := LayerAt(layer);
      MoveEnd(layer, plan.final);
      completedPromptCorePhases := completedPromptCorePhases[layer := 1];
      Arrive(build, plan);
    }

    method AdvancePromptCore(build: Build, plan: Plan, layer: nat) returns (r: Response)
      requires Tracks(build, plan)
      modifies this
      ensures Tracks(build, plan)
      ensures (walk, r) == Respond(plan, ValidTopology(build, plan), old(walk), Advance(PromptCore(layer)))
      ensures !r.Accepted? ==> unchanged(this)
    {
      var valid := ValidPlanTopology(build, plan);
      if !valid {
        return InvalidPlan;
      }
      PhasesArePositive(build, plan);
      hide ValidTopology, Tiles;
      if layer >= LAYER_COUNT {
        return LayerOutOfRange;
      }
      ghost var now := LayerAt(layer);
      if !plan.tactic.WholeCore? || committed || nextLayer != layer || nextPanel != 0
         || completedFillPanels[layer] != |plan.panels| || completedPromptCorePhases[layer] != 0
         || completedDrainPanels[layer] != 0 || completedPanels[layer] != 0 || completedMlpPhases[layer] != 0 {
        return OutOfOrder;
      }
      var end := DomainEnd(layer);
      if end != plan.first {
        return OutOfOrder;
      }
      RecordPromptCore(build, plan, layer);
      r := Accepted;
    }

    method RecordDrain(build: Build, plan: Plan, layer: nat, panel: nat)
      requires ValidTopology(build, plan) && AtWalk(plan) && IsNext(plan, walk, Drain(layer, panel))
      modifies this
      ensures AtWalk(plan) && walk == Step(plan, old(walk))
    {
      PhasesArePositive(build, plan);
      hide ValidTopology, Tiles;
      ghost var now := LayerAt(layer);
      completedDrainPanels := completedDrainPanels[layer := completedDrainPanels[layer] + 1];
      completedPanels := completedPanels[layer := completedPanels[layer] + 1];
      nextPanel := nextPanel + 1;
      if nextPanel == |plan.panels| {
        nextPanel := 0;
      }
      Arrive(build, plan);
    }

    method AdvanceDrain(build: Build, plan: Plan, layer: nat, panel: nat) returns (r: Response)
      requires Tracks(build, plan)
      modifies this
      ensures Tracks(build, plan)
      ensures (walk, r) == Respond(plan, ValidTopology(build, plan), old(walk), Advance(Drain(layer, panel)))
      ensures !r.Accepted? ==> unchanged(this)
    {
      var valid := ValidPlanTopology(build, plan);
      if !valid {
        return InvalidPlan;
      }
      PhasesArePositive(build, plan);
      hide ValidTopology, Tiles;
      if layer >= LAYER_COUNT {
        return LayerOutOfRange;
      }
      if panel >= |plan.panels| {
        return PanelOutOfRange;
      }
      ghost var now := LayerAt(layer);
      if !plan.tactic.WholeCore? || committed || nextLayer != layer || nextPanel != panel
         || completedFillPanels[layer] != |plan.panels| || completedPromptCorePhases[layer] != 1
         || completedDrainPanels[layer] != panel || completedPanels[layer] != panel || completedMlpPhases[layer] != 0 {
        return OutOfOrder;
      }
      RecordDrain(build, plan, layer, panel);
      r := Accepted;
    }

    method AdvancePersistentMlp(build: Build, plan: Plan, layer: nat) returns (r: Response)
      requires Tracks(build, plan)
      modifies this
      ensures Tracks(build, plan)
      ensures (walk, r) == Respond(plan, ValidTopology(build, plan), old(walk), Advance(PersistentMlp(layer)))
      ensures !r.Accepted? ==> unchanged(this)
    {
      var valid := ValidPlanTopology(build, plan);
      if !valid {
        return InvalidPlan;
      }
      PhasesArePositive(build, plan);
      hide ValidTopology, Tiles;
      if layer >= LAYER_COUNT {
        return LayerOutOfRange;
      }
      ghost var now := LayerAt(layer);
      if !plan.tactic.WholeCore? || committed || nextLayer != layer || nextPanel != 0
         || completedFillPanels[layer] != |plan.panels| || completedPromptCorePhases[layer] != 1
         || completedDrainPanels[layer] != |plan.panels| || completedPanels[layer] != |plan.panels|
         || completedMlpPhases[layer] != 0 {
        return OutOfOrder;
      }
      RecordMlp(build, plan, layer);
      r := Accepted;
    }

    /** Nothing of this layer has been reported yet. */
    predicate Untouched(layer: nat)
      requires Sized() && layer < LAYER_COUNT
      reads this
    {
      && completedPanels[layer] == 0 && completedMlpPhases[layer] == 0 && completedFillPanels[layer] == 0
      && completedPromptCorePhases[layer] == 0 && completedDrainPanels[layer] == 0
    }

    /** The common part of the tactics that report a whole layer at once. */
    method CompleteLayer(build: Build, plan: Plan, layer: nat) returns (r: Response)
      requires Tracks(build, plan) && ValidTopology(build, plan) && layer < LAYER_COUNT && layer == walk.layer
      requires !plan.tactic.PerOperatorPanel? && !plan.tactic.LayerWideP40ExactFullM? && !plan.tactic.WholeCore?
      modifies this
      ensures r.Accepted? && Tracks(build, plan) && walk == Step(plan, old(walk))
    {
      PhasesArePositive(build, plan);
      hide ValidTopology, Tiles;
      ghost var now := LayerAt(layer);
      var end := DomainEnd(layer);
      if end != plan.first {
        return OutOfOrder;
      }
      MoveEnd(layer, plan.final);
      completedPanels := completedPanels[layer := |plan.panels|];
      completedMlpPhases := completedMlpPhases[layer := 1];
      nextLayer := nextLayer + 1;
      Arrive(build, plan);
      r := Accepted;
    }

    method AdvanceResetLayer(build: Build, plan: Plan, layer: nat) returns (r: Response)
      requires Tracks(build, plan)
      modifies this
      ensures Tracks(build, plan)
      ensures (walk, r) == Respond(plan, ValidTopology(build, plan), old(walk), Advance(ResetLayer(layer)))
      ensures !r.Accepted? ==> unchanged(this)
    {
      var valid := ValidPlanTopology(build, plan);
      if !valid {
        return InvalidPlan;
      }
      PhasesArePositive(build, plan);
      hide ValidTopology, Tiles;
      if layer >= LAYER_COUNT {
        return LayerOutOfRange;
      }
      ghost var now := LayerAt(layer);
      if !plan.tactic.ProjectionReset? || committed || nextLayer != layer || nextPanel != 0 || !Untouched(layer) {
        return OutOfOrder;
      }
      r := CompleteLayer(build, plan, layer);
    }

    method AdvancePackedLayer(build: Build, plan: Plan, layer: nat) returns (r: Response)
      requires Tracks(build, plan)
      modifies this
      ensures Tracks(build, plan)
      ensures (walk, r) == Respond(plan, ValidTopology(build, plan), old(walk), Advance(PackedLayer(layer)))
      ensures !r.Accepted? ==> unchanged(this)
    {
      var valid := ValidPlanTopology(build, plan);
      if !valid {
        return InvalidPlan;
      }
      PhasesArePositive(build, plan);
      hide ValidTopology, Tiles;
      if layer >= LAYER_COUNT {
        return LayerOutOfRange;
      }
      ghost var now := LayerAt(layer);
      if !plan.tactic.PackedProjection? || committed || nextLayer != layer || nextPanel != 0 || !Untouched(layer) {
        return OutOfOrder;
      }
      r := CompleteLayer(build, plan, layer);
    }

    method AdvancePackedV2Layer(build: Build, plan: Plan, layer: nat) returns (r: Response)
      requires Tracks(build, plan)
      modifies this
      ensures Tracks(build, plan)
      ensures (walk, r) == Respond(plan, ValidTopology(build, plan), old(walk), Advance(PackedV2Layer(layer)))
      ensures !r.Accepted? ==> unchanged(this)
    {
      var valid := ValidPlanTopology(build, plan);
      if !valid {
        return InvalidPlan;
      }
      PhasesArePositive(build, plan);
      hide ValidTopology, Tiles;
      if layer >= LAYER_COUNT {
        return LayerOutOfRange;
      }
      ghost var now := LayerAt(layer);
      if !plan.tactic.PackedNvfp4V2? || committed || nextLayer != layer || nextPanel != 0 || !Untouched(layer) {
        return OutOfOrder;
      }
      r := CompleteLayer(build, plan, layer);
    }

    method AdvanceParityLayer(build: Build, plan: Plan, layer: nat, receipt: Receipt) returns (r: Response)
      requires Tracks(build, plan)
      modifies this
      ensures Tracks(build, plan)
      ensures (walk, r) == Respond(plan, ValidTopology(build, plan), old(walk), Advance(ParityLayer(layer, receipt)))
      ensures !r.Accepted? ==> unchanged(this)
    {
      var valid := ValidPlanTopology(build, plan);
      if !valid {
        return InvalidPlan;
      }
      PhasesArePositive(build, plan);
      hide ValidTopology, Tiles;
      if layer >= LAYER_COUNT {
        return LayerOutOfRange;
      }
      ghost var now := LayerAt(layer);
      if !plan.tactic.VllmMarlinParity? || committed || nextLayer != layer || nextPanel != 0 || !Untouched(layer) {
        return OutOfOrder;
      }
      if !ValidReceipt(layer, receipt) {
        return InvalidCompletionReceipt;
      }
      r := CompleteLayer(build, plan, layer);
    }

    /** Whether every layer has been walked. */
    method ExecutionComplete(build: Build, plan: Plan) returns (complete: bool)
      requires Tracks(build, plan)
      ensures complete <==> ValidTopology(build, plan) && walk.layer == LAYER_COUNT
    {
      complete := ValidPlanTopology(build, plan);
      if !complete || nextLayer != LAYER_COUNT || nextPanel != 0 {
        return false;
      }
      PhasesArePositive(build, plan);
      var whole := plan.tactic.WholeCore?;
      for layer := 0 to LAYER_COUNT
      {
        ghost var now := LayerAt(layer);
        if completedPanels[layer] != |plan.panels| || completedMlpPhases[layer] != plan.mlpPhases {
          return false;
        }
        if whole {
          if completedFillPanels[layer] != |plan.panels| || completedPromptCorePhases[layer] != 1
             || completedDrainPanels[layer] != |plan.panels| {
            return false;
          }
        } else if completedFillPanels[layer] != 0 || completedPromptCorePhases[layer] != 0
                  || completedDrainPanels[layer] != 0 {
          return false;
        }
        if plan.layers[layer].domain.KvCache? {
          if kvVisibleEnd[layer] != plan.final || gdnAdvancedEnd[layer] != plan.first {
            return false;
          }
        } else if gdnAdvancedEnd[layer] != plan.final || kvVisibleEnd[layer] != plan.first {
          return false;
        }
      }
      complete := true;
    }

    method MarkFinalHiddenReady(build: Build, plan: Plan) returns (r: Response)
      requires Tracks(build, plan)
      modifies this
      ensures Tracks(build, plan)
      ensures (walk, r) == Respond(plan, ValidTopology(build, plan), old(walk), MarkHidden)
      ensures !r.Accepted? ==> unchanged(this)
    {
      hide ValidTopology, AfterPhases;
      var complete := ExecutionComplete(build, plan);
      if !complete {
        return ExecutionIncomplete;
      }
      if committed {
        return AlreadyCommitted;
      }
      finalHiddenReady := true;
      walk := walk.(hidden := true);
      r := Accepted;
    }

    method FinalCommitReady(build: Build, plan: Plan) returns (ready: bool)
      requires Tracks(build, plan)
      ensures ready <==> ValidTopology(build, plan) && walk.layer == LAYER_COUNT && walk.hidden && !walk.committed
    {
      hide ValidTopology, AtWalk;
      var complete := ExecutionComplete(build, plan);
      ready := !committed && finalHiddenReady && complete;
    }

    method PublishCommitted(build: Build, plan: Plan) returns (r: Response)
      requires Tracks(build, plan)
      modifies this
      ensures Tracks(build, plan)
      ensures (walk, r) == Respond(plan, ValidTopology(build, plan), old(walk), Publish)
      ensures !r.Accepted? ==> unchanged(this)
    {
      hide ValidTopology, AfterPhases;
      if committed {
        return AlreadyCommitted;
      }
      var ready := FinalCommitReady(build, plan);
      if !ready {
        return CommitNotReady;
      }
      committed := true;
      walk := walk.(committed := true);
      r := Accepted;
    }
  }

  /** What a panel's completion changes in its layer's record. */
  lemma PanelPhase(plan: Plan, j: nat)
    requires !plan.tactic.FixedGeometry() && j < |plan.panels|
    ensures j < Phases(plan)
    ensures var before, after := AfterPhases(plan, j), AfterPhases(plan, j + 1);
            after == before.(end := plan.panels[j].end, panels := before.panels + 1,
                             mlp := before.mlp + if plan.tactic.PerOperatorPanel? then 1 else 0)
  {
  }

  lemma PhasesArePositive(build: Build, plan: Plan)
    requires ValidTopology(build, plan)
    ensures |plan.panels| > 0 && Phases(plan) > 0
    ensures Tiles(plan.panels, PanelLimit(plan.tactic.FixedGeometry()), 0, plan.first, plan.final)
  {
    TilingTiles(plan.tactic.FixedGeometry(), 0, plan.first, plan.tokens);
  }
}
