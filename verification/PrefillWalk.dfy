/**
  Whole runs of prefill progress: any sequence of calls, with any arguments.
 */
module PrefillWalk {
  import opened Common
  import opened PrefillPlan
  import opened PrefillProgress

  /** The only receipt a layer's completion is accepted with. */
  function ReceiptOf(layer: nat): Receipt {
    Receipt(layer, if layer == 0 then 1 else 0, FULL_SEGMENTS, TAIL_SEGMENTS, 1, FULL_SEGMENTS, TAIL_SEGMENTS, 1,
            seq(8, _ => true))
  }

  /** A receipt is valid for a layer exactly when it reports 39 full segments and a tail for both projections, one
      activation, one residual, the lock cleared for the first layer only, and nothing left unattested. */
  lemma TheOnlyReceipt(layer: nat, r: Receipt)
    ensures ValidReceipt(layer, r) <==>
            r == Receipt(layer, if layer == 0 then 1 else 0, 39, 1, 1, 39, 1, 1, [true, true, true, true, true, true, true, true])
    ensures ValidReceipt(layer, ReceiptOf(layer))
  {
    if ValidReceipt(layer, r) {
      assert r.attestations == [true, true, true, true, true, true, true, true];
    }
  }

  function ActionAt(plan: Plan, layer: nat, phase: nat): Action {
    var n := |plan.panels|;
    match plan.tactic
    case PerOperatorPanel => OperatorPanel(layer, phase)
    case LayerWideP40ExactFullM => if phase < n then OperatorPanel(layer, phase) else LayerWideMlp(layer)
    case WholeCore =>
      if phase < n then Fill(layer, phase)
      else if phase == n then PromptCore(layer)
      else if phase <= 2 * n then Drain(layer, phase - n - 1)
      else PersistentMlp(layer)
    case ProjectionReset => ResetLayer(layer)
    case PackedProjection => PackedLayer(layer)
    case PackedNvfp4V2 => PackedV2Layer(layer)
    case VllmMarlinParity => ParityLayer(layer, ReceiptOf(layer))
  }

  /** While layers remain, exactly one action is accepted; afterwards none is. */
  lemma OneActionAccepted(plan: Plan, w: Walk, a: Action)
    requires Standing(plan, w)
    ensures Respond(plan, true, w, Advance(a)).1.Accepted? <==> w.layer < LAYER_COUNT && a == ActionAt(plan, w.layer, w.phase)
    ensures Respond(plan, true, w, Advance(a)).1.Accepted? ==> Respond(plan, true, w, Advance(a)).0 == Step(plan, w)
    ensures !Respond(plan, true, w, Advance(a)).1.Accepted? ==> Respond(plan, true, w, Advance(a)).0 == w
  {
    if a.ParityLayer? && ValidReceipt(a.layer, a.receipt) {
      assert a.receipt.attestations == seq(8, _ => true);
    }
  }

  /** The first `phases` actions of a layer. */
  function LayerActions(plan: Plan, layer: nat, phases: nat): seq<Call> {
    seq(phases, j requires 0 <= j < phases => Advance(ActionAt(plan, layer, j)))
  }

  /** The canonical walk over the first `layers` layers. */
  function LayersWalked(plan: Plan, layers: nat): seq<Call> {
    if layers == 0 then [] else LayersWalked(plan, layers - 1) + LayerActions(plan, layers - 1, Phases(plan))
  }

  function Walked(plan: Plan, w: Walk): seq<Call> {
    LayersWalked(plan, w.layer) + LayerActions(plan, w.layer, w.phase)
  }

  /** Any calls, one after the other: where they lead, and which of them were accepted. */
  function Drive(plan: Plan, valid: bool, calls: seq<Call>): (Walk, seq<Call>) {
    if calls == [] then (START, []) else
      var before := Drive(plan, valid, calls[..|calls| - 1]);
      var call := calls[|calls| - 1];
      var r := Respond(plan, valid, before.0, call);
      (r.0, if r.1.Accepted? then before.1 + [call] else before.1)
  }

  lemma WalkedStep(plan: Plan, w: Walk)
    requires Standing(plan, w) && w.layer < LAYER_COUNT
    ensures Walked(plan, Step(plan, w)) == Walked(plan, w) + [Advance(ActionAt(plan, w.layer, w.phase))]
  {
    var last := [Advance(ActionAt(plan, w.layer, w.phase))];
    assert LayerActions(plan, w.layer, w.phase + 1) == LayerActions(plan, w.layer, w.phase) + last;
    assert LayerActions(plan, w.layer + 1, 0) == [];
    assert LayersWalked(plan, w.layer) + (LayerActions(plan, w.layer, w.phase) + last) == Walked(plan, w) + last;
  }

  /** Whatever was called, the accepted calls are the canonical walk so far, then markings of the final
      hidden row once the walk is whole, then at most one commit, the last accepted call of all. */
  lemma {:induction false} AcceptedCallsAreTheWalk(plan: Plan, calls: seq<Call>) returns (marks: nat)
    requires Phases(plan) > 0
    ensures var (w, accepted) := Drive(plan, true, calls);
            && Standing(plan, w)
            && accepted == Walked(plan, w) + seq(marks, _ => MarkHidden) + (if w.committed then [Publish] else [])
            && (w.hidden <==> marks > 0)
            && (marks > 0 ==> Walked(plan, w) == LayersWalked(plan, LAYER_COUNT))
  {
    hide ActionAt, LayersWalked, LayerActions, IsNext, ValidReceipt, Phases;
    if calls == [] {
      marks := 0;
      assert Walked(plan, START) == [] by {
        NothingWalked(plan);
      }
    } else {
      var earlier := calls[..|calls| - 1];
      var call := calls[|calls| - 1];
      marks := AcceptedCallsAreTheWalk(plan, earlier);
      var (w, accepted) := Drive(plan, true, earlier);
      var r := Respond(plan, true, w, call);
      if r.1.Accepted? {
        if call.Advance? {
          OneActionAccepted(plan, w, call.action);
          WalkedStep(plan, w);
          hide Walked;
          assert Walked(plan, w) + seq(marks, _ => MarkHidden) + [] == Walked(plan, w);
          assert Walked(plan, r.0) + seq(marks, _ => MarkHidden) + [] == Walked(plan, r.0);
        } else if call.MarkHidden? {
          WholeWalked(plan, w);
          hide Walked;
          assert seq(marks + 1, _ => MarkHidden) == seq(marks, _ => MarkHidden) + [MarkHidden];
          assert Walked(plan, w) + seq(marks, _ => MarkHidden) + [] + [MarkHidden]
              == Walked(plan, w) + seq(marks + 1, _ => MarkHidden) + [];
          assert Walked(plan, r.0) == Walked(plan, w) by {
            WholeWalked(plan, r.0);
          }
          marks := marks + 1;
        } else {
          hide Walked;
          WholeWalked(plan, w);
          WholeWalked(plan, r.0);
          assert Walked(plan, w) + seq(marks, _ => MarkHidden) + [] + [Publish]
              == Walked(plan, w) + seq(marks, _ => MarkHidden) + [Publish];
        }
      }
    }
  }

  lemma NothingWalked(plan: Plan)
    ensures Walked(plan, START) == []
  {
  }

  lemma WholeWalked(plan: Plan, w: Walk)
    requires Standing(plan, w) && w.layer == LAYER_COUNT
    ensures Walked(plan, w) == LayersWalked(plan, LAYER_COUNT)
  {
    assert LayerActions(plan, w.layer, 0) == [];
  }

  /** The canonical walk, up to `phase` actions of a layer, grows action by action and layer by layer. */
  lemma WalkGrows(plan: Plan, layer: nat, phase: nat)
    requires phase <= Phases(plan)
    ensures phase > 0 ==> LayersWalked(plan, layer) + LayerActions(plan, layer, phase) ==
                          LayersWalked(plan, layer) + LayerActions(plan, layer, phase - 1)
                          + [Advance(ActionAt(plan, layer, phase - 1))]
    ensures phase == 0 && layer > 0 ==>
              LayersWalked(plan, layer) + LayerActions(plan, layer, phase) ==
              LayersWalked(plan, layer - 1) + LayerActions(plan, layer - 1, Phases(plan))
    ensures phase == layer == 0 ==> LayersWalked(plan, layer) + LayerActions(plan, layer, phase) == []
  {
    hide ActionAt, Phases;
    if phase > 0 {
      assert LayerActions(plan, layer, phase)
          == LayerActions(plan, layer, phase - 1) + [Advance(ActionAt(plan, layer, phase - 1))];
    } else {
      assert LayersWalked(plan, layer) + LayerActions(plan, layer, 0) == LayersWalked(plan, layer);
    }
  }

  /** The walk can be finished: its calls in order are all accepted, and so are the two that end it. */
  lemma {:induction false} WalkIsAccepted(plan: Plan, layer: nat, phase: nat)
    requires layer < LAYER_COUNT && phase <= Phases(plan) && Phases(plan) > 0
    ensures var calls := LayersWalked(plan, layer) + LayerActions(plan, layer, phase);
            Drive(plan, true, calls) ==
            (if phase < Phases(plan) then Walk(layer, phase, false, false) else Walk(layer + 1, 0, false, false), calls)
    decreases layer, phase
  {
    hide *;
    WalkGrows(plan, layer, phase);
    if phase == 0 {
      if layer > 0 {
        WalkIsAccepted(plan, layer - 1, Phases(plan));
      } else {
        NothingDriven(plan);
      }
    } else {
      WalkIsAccepted(plan, layer, phase - 1);
      ActionIsAccepted(plan, layer, phase - 1, LayersWalked(plan, layer) + LayerActions(plan, layer, phase - 1));
    }
  }

  lemma NothingDriven(plan: Plan)
    ensures Drive(plan, true, []) == (Walk(0, 0, false, false), [])
  {
  }

  lemma ActionIsAccepted(plan: Plan, layer: nat, phase: nat, calls: seq<Call>)
    requires layer < LAYER_COUNT && phase < Phases(plan)
    requires Drive(plan, true, calls) == (Walk(layer, phase, false, false), calls)
    ensures var after := calls + [Advance(ActionAt(plan, layer, phase))];
            Drive(plan, true, after) ==
            (if phase + 1 < Phases(plan) then Walk(layer, phase + 1, false, false) else Walk(layer + 1, 0, false, false), after)
  {
    hide ActionAt, Phases, Respond, Drive;
    DriveOn(plan, calls, Advance(ActionAt(plan, layer, phase)));
    OneActionAccepted(plan, Walk(layer, phase, false, false), ActionAt(plan, layer, phase));
  }

  lemma CommitIsReached(plan: Plan)
    requires Phases(plan) > 0
    ensures var calls := LayersWalked(plan, LAYER_COUNT) + [MarkHidden, Publish];
            Drive(plan, true, calls) == (Walk(LAYER_COUNT, 0, true, true), calls)
  {
    hide ActionAt, Phases, LayersWalked;
    assert LayersWalked(plan, LAYER_COUNT) == LayersWalked(plan, LAYER_COUNT - 1) + LayerActions(plan, LAYER_COUNT - 1, Phases(plan)) by {
      LastLayerWalked(plan);
    }
    hide LayerActions;
    WalkIsAccepted(plan, LAYER_COUNT - 1, Phases(plan));
    var walked := LayersWalked(plan, LAYER_COUNT);
    DriveOn(plan, walked, MarkHidden);
    DriveOn(plan, walked + [MarkHidden], Publish);
    assert walked + [MarkHidden] + [Publish] == walked + [MarkHidden, Publish];
  }

  lemma LastLayerWalked(plan: Plan)
    ensures LayersWalked(plan, LAYER_COUNT) ==
            LayersWalked(plan, LAYER_COUNT - 1) + LayerActions(plan, LAYER_COUNT - 1, Phases(plan))
  {
  }

  lemma DriveOn(plan: Plan, calls: seq<Call>, call: Call)
    ensures var before := Drive(plan, true, calls);
            var r := Respond(plan, true, before.0, call);
            Drive(plan, true, calls + [call]) == (r.0, if r.1.Accepted? then before.1 + [call] else before.1)
  {
    assert (calls + [call])[..|calls|] == calls;
  }

  /** The key/value or recurrent end of a layer starts at the first position, moves only forward and
      only from one panel to the next or over the whole prompt, and ends at the final position. */
  lemma EndsMoveAlongPanels(build: Build, plan: Plan, j: nat)
    requires ValidTopology(build, plan) && j < Phases(plan)
    ensures AfterPhases(plan, 0).end == plan.first && AfterPhases(plan, Phases(plan)).end == plan.final
    ensures var from, to := AfterPhases(plan, j).end, AfterPhases(plan, j + 1).end;
            || from == to
            || (from == plan.first && to == plan.final)
            || exists p :: 0 <= p < |plan.panels| && from == plan.panels[p].first && to == plan.panels[p].end
    ensures AfterPhases(plan, j).end <= AfterPhases(plan, j + 1).end
  {
    PhasesArePositive(build, plan);
    hide ValidTopology;
    var n := |plan.panels|;
    if !plan.tactic.FixedGeometry() && j < n {
      assert EndAfter(plan, j) == plan.panels[j].first && EndAfter(plan, j + 1) == plan.panels[j].end;
    }
    assert EndAfter(plan, n) == plan.final;
  }

  /** The canonical walk, the final hidden row marked so many times, and the commit. */
  function WholeWalk(plan: Plan, marks: nat): seq<Call> {
    LayersWalked(plan, LAYER_COUNT) + seq(marks, _ => MarkHidden) + [Publish]
  }

  /** Under a plan of invalid topology no call is ever accepted. */
  lemma {:induction false} InvalidPlanGoesNowhere(plan: Plan, calls: seq<Call>)
    ensures Drive(plan, false, calls) == (START, [])
  {
    if calls != [] {
      InvalidPlanGoesNowhere(plan, calls[..|calls| - 1]);
    }
  }

  method Perform(p: Progress, build: Build, plan: Plan, call: Call) returns (r: Response)
    requires p.Tracks(build, plan)
    modifies p
    ensures p.Tracks(build, plan) && (p.walk, r) == Respond(plan, ValidTopology(build, plan), old(p.walk), call)
    ensures !r.Accepted? ==> unchanged(p)
  {
    hide Progress.Tracks, Respond, ValidTopology;
    match call
    case MarkHidden => r := p.MarkFinalHiddenReady(build, plan);
    case Publish => r := p.PublishCommitted(build, plan);
    case Advance(OperatorPanel(layer, panel)) => r := p.AdvancePanel(build, plan, layer, panel);
    case Advance(LayerWideMlp(layer)) => r := p.AdvanceLayerWideMlp(build, plan, layer);
    case Advance(Fill(layer, panel)) => r := p.AdvanceFill(build, plan, layer, panel);
    case Advance(PromptCore(layer)) => r := p.AdvancePromptCore(build, plan, layer);
    case Advance(Drain(layer, panel)) => r := p.AdvanceDrain(build, plan, layer, panel);
    case Advance(PersistentMlp(layer)) => r := p.AdvancePersistentMlp(build, plan, layer);
    case Advance(ResetLayer(layer)) => r := p.AdvanceResetLayer(build, plan, layer);
    case Advance(PackedLayer(layer)) => r := p.AdvancePackedLayer(build, plan, layer);
    case Advance(PackedV2Layer(layer)) => r := p.AdvancePackedV2Layer(build, plan, layer);
    case Advance(ParityLayer(layer, receipt)) => r := p.AdvanceParityLayer(build, plan, layer, receipt);
  }

  /** Any calls on a fresh record, whatever their arguments.  The record ends up committed only if the accepted
      ones are the canonical walk over every layer, then markings of the final hidden row, then the commit. */
  method PerformAll(build: Build, plan: Plan, calls: seq<Call>) returns (p: Progress, accepted: seq<Call>)
    ensures fresh(p) && p.Tracks(build, plan)
    ensures (p.walk, accepted) == Drive(plan, ValidTopology(build, plan), calls)
    ensures p.committed ==> ValidTopology(build, plan) && exists marks: nat :: marks > 0 && accepted == WholeWalk(plan, marks)
  {
    p := new Progress(build, plan);
    accepted := [];
    hide Progress.Tracks, Respond, ValidTopology;
    for i := 0 to |calls|
      modifies p
      invariant p.Tracks(build, plan) && (p.walk, accepted) == Drive(plan, ValidTopology(build, plan), calls[..i])
    {
      DriveNext(plan, ValidTopology(build, plan), calls, i);
      var r := Perform(p, build, plan, calls[i]);
      if r.Accepted? {
        accepted := accepted + [calls[i]];
      }
    }
    assert calls[..|calls|] == calls;
    CommittedIsWalked(p, build, plan, calls);
  }

  lemma DriveNext(plan: Plan, valid: bool, calls: seq<Call>, i: nat)
    requires i < |calls|
    ensures var before := Drive(plan, valid, calls[..i]);
            var r := Respond(plan, valid, before.0, calls[i]);
            Drive(plan, valid, calls[..i + 1]) == (r.0, if r.1.Accepted? then before.1 + [calls[i]] else before.1)
  {
    assert calls[..i + 1][..i] == calls[..i];
  }

  lemma CommittedIsWalked(p: Progress, build: Build, plan: Plan, calls: seq<Call>)
    requires p.Tracks(build, plan) && p.walk == Drive(plan, ValidTopology(build, plan), calls).0
    ensures p.committed ==> ValidTopology(build, plan) && exists marks: nat ::
                              marks > 0 && Drive(plan, true, calls).1 == WholeWalk(plan, marks)
  {
    if p.committed {
      if !ValidTopology(build, plan) {
        InvalidPlanGoesNowhere(plan, calls);
      } else {
        PhasesArePositive(build, plan);
        hide ValidTopology, Drive;
        var marks := AcceptedCallsAreTheWalk(plan, calls);
        assert marks > 0 && Drive(plan, true, calls).1 == WholeWalk(plan, marks);
      }
    }
  }
}
