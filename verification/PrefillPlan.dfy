/**
  The layer-major prefill plan: a prompt cut into operator panels, run through 64 layers.
 */
module PrefillPlan {
  import opened Common

  const OPERATOR_PANEL_TOKENS: nat := 8192
  const P40_PANEL_TOKENS: nat := 8000
  const MAXIMUM_SEQUENCE_TOKENS: nat := 262144
  const MAXIMUM_PANEL_COUNT: nat := 32
  const ALIGNMENT_TOKENS: nat := 64

  datatype Tactic =
    | PerOperatorPanel | LayerWideP40ExactFullM | WholeCore | ProjectionReset | PackedProjection
    | PackedNvfp4V2 | VllmMarlinParity
  {
    /** The tactics whose panels are cut at 8000 tokens. */
    predicate FixedGeometry() {
      !PerOperatorPanel? && !LayerWideP40ExactFullM?
    }
  }

  /** What the binary was compiled with: the admitted tactics, and the served whole-core geometry. */
  datatype Build = Build(admitted: set<Tactic>, service: bool) {
    function Capacity(): nat {
      if service then 44095 else 40016
    }

    function PromptTokens(): nat {
      if service then 44096 else 40000
    }

    predicate WholeCoreAdmits(tokens: nat) {
      if service then 1 <= tokens <= Capacity() else tokens == 40000
    }

    predicate Supports(tactic: Tactic) {
      tactic.PerOperatorPanel? || tactic in admitted
    }

    /** The prompts a tactic is meant for; the incumbent takes any. */
    predicate Admits(tactic: Tactic, first: nat, tokens: nat) {
      || tactic.PerOperatorPanel?
      || (first == 0 && if tactic.WholeCore? then WholeCoreAdmits(tokens)
                        else tokens == PromptTokens() && tokens % ALIGNMENT_TOKENS == 0)
    }
  }

  datatype Panel = Panel(ordinal: nat, first: nat, tokens: nat, end: nat)

  datatype LayerType = LinearAttention | FullAttention

  datatype Domain = KvCache | GdnState

  datatype LayerExecution = LayerExecution(index: nat, kind: LayerType, domain: Domain, panelCount: nat)

  datatype FinalCommit = FinalCommit(initialLength: nat, committedLength: nat, count: nat)

  datatype Plan = Plan(tactic: Tactic, first: nat, tokens: nat, final: nat, panels: seq<Panel>,
                       layers: seq<LayerExecution>, mlpPhases: nat, commit: FinalCommit)

  function LayerTypeOf(layer: nat): LayerType {
    if (layer + 1) % 4 == 0 then FullAttention else LinearAttention
  }

  function DomainOf(layer: nat): Domain {
    if LayerTypeOf(layer).FullAttention? then KvCache else GdnState
  }

  /** The next operator panel: full, except that the last two of a longer prompt share its rest evenly. */
  function NextOperatorPanel(remaining: nat): nat {
    if remaining <= OPERATOR_PANEL_TOKENS then remaining
    else if remaining < 2 * OPERATOR_PANEL_TOKENS then (remaining + 1) / 2
    else OPERATOR_PANEL_TOKENS
  }

  function NextPanel(fixed: bool, remaining: nat): (tokens: nat)
    ensures tokens <= remaining && (remaining > 0 ==> 0 < tokens <= PanelLimit(fixed))
  {
    if !fixed then NextOperatorPanel(remaining)
    else if remaining < P40_PANEL_TOKENS then remaining else P40_PANEL_TOKENS
  }

  function PanelLimit(fixed: bool): nat {
    if fixed then P40_PANEL_TOKENS else OPERATOR_PANEL_TOKENS
  }

  function PanelCount(fixed: bool, tokens: nat): nat {
    (tokens + PanelLimit(fixed) - 1) / PanelLimit(fixed)
  }

  /** The panels of `remaining` tokens from position `first`, numbered from `ordinal`. */
  function Tiling(fixed: bool, ordinal: nat, first: nat, remaining: nat): seq<Panel>
    decreases remaining
  {
    if remaining == 0 then [] else
      var n := NextPanel(fixed, remaining);
      [Panel(ordinal, first, n, first + n)] + Tiling(fixed, ordinal + 1, first + n, remaining - n)
  }

  /** The tiling has as many panels as equal full panels would need; halving the rest adds none. */
  lemma {:induction false} TilingCount(fixed: bool, ordinal: nat, first: nat, remaining: nat)
    ensures |Tiling(fixed, ordinal, first, remaining)| == PanelCount(fixed, remaining)
    decreases remaining
  {
    if remaining > 0 {
      var n := NextPanel(fixed, remaining);
      TilingCount(fixed, ordinal + 1, first + n, remaining - n);
    }
  }

  /** Contiguous, non-empty panels no larger than the limit cover the tokens exactly. */
  ghost predicate Tiles(panels: seq<Panel>, limit: nat, ordinal: nat, first: nat, final: nat) {
    && (if panels == [] then first == final else panels[0].first == first && panels[|panels| - 1].end == final)
    && (forall i :: 1 <= i < |panels| ==> panels[i].first == panels[i - 1].end)
    && forall i :: 0 <= i < |panels| ==>
         && panels[i].ordinal == ordinal + i && 0 < panels[i].tokens <= limit
         && panels[i].end == panels[i].first + panels[i].tokens && panels[i].end <= final
  }

  lemma {:induction false} TilingTiles(fixed: bool, ordinal: nat, first: nat, remaining: nat)
    ensures Tiles(Tiling(fixed, ordinal, first, remaining), PanelLimit(fixed), ordinal, first, first + remaining)
    decreases remaining
  {
    if remaining > 0 {
      var n := NextPanel(fixed, remaining);
      TilingTiles(fixed, ordinal + 1, first + n, remaining - n);
      var panels, rest := Tiling(fixed, ordinal, first, remaining), Tiling(fixed, ordinal + 1, first + n, remaining - n);
      assert forall i :: 1 <= i < |panels| ==> panels[i] == rest[i - 1];
      assert n < remaining ==> rest != [];
    }
  }

  /** The two panels of a prompt that does not fill them differ by at most one token. */
  lemma LastPanelsAreEven(first: nat, remaining: nat)
    requires OPERATOR_PANEL_TOKENS < remaining < 2 * OPERATOR_PANEL_TOKENS
    ensures var panels := Tiling(false, 0, first, remaining);
            |panels| == 2 && 0 <= panels[0].tokens - panels[1].tokens <= 1
  {
    var n := NextPanel(false, remaining);
    assert Tiling(false, 0, first, remaining) == [Panel(0, first, n, first + n)] + Tiling(false, 1, first + n, remaining - n);
    assert Tiling(false, 1, first + n, remaining - n) == [Panel(1, first + n, remaining - n, first + remaining)]
        + Tiling(false, 2, first + remaining, 0);
  }

  /** How a prompt is shared out.  In fixed geometry every panel but the last has 8000 tokens.  Operator panels have
      8192, except that the last two differ by at most one token, the larger first; there are no more of them than
      that many tokens need. */
  ghost predicate Shared(fixed: bool, panels: seq<Panel>, tokens: nat) {
    var n := |panels|;
    if fixed then
      n == (tokens + 7999) / 8000 && forall i :: 0 <= i < n - 1 ==> panels[i].tokens == 8000
    else
      && n == (tokens + 8191) / 8192 && (forall i :: 0 <= i < n - 2 ==> panels[i].tokens == 8192)
      && (n >= 2 ==> 0 <= panels[n - 2].tokens - panels[n - 1].tokens <= 1)
  }

  lemma {:induction false} TilingShares(fixed: bool, ordinal: nat, first: nat, remaining: nat)
    ensures Shared(fixed, Tiling(fixed, ordinal, first, remaining), remaining)
    decreases remaining
  {
    hide Shared, NextPanel, PanelCount;
    TilingCount(fixed, ordinal, first, remaining);
    if remaining == 0 {
      NothingShared(fixed);
    } else {
      var n := NextPanel(fixed, remaining);
      TilingShares(fixed, ordinal + 1, first + n, remaining - n);
      TilingCount(fixed, ordinal + 1, first + n, remaining - n);
      if n < remaining {
        FirstOfTiling(fixed, ordinal + 1, first + n, remaining - n);
      }
      OneMorePanel(fixed, Panel(ordinal, first, n, first + n), Tiling(fixed, ordinal + 1, first + n, remaining - n), remaining);
    }
  }

  lemma NothingShared(fixed: bool)
    ensures Shared(fixed, [], 0)
  {
  }

  lemma FirstOfTiling(fixed: bool, ordinal: nat, first: nat, remaining: nat)
    requires remaining > 0
    ensures var panels := Tiling(fixed, ordinal, first, remaining);
            && panels != [] && panels[0].tokens == NextPanel(fixed, remaining)
            && (NextPanel(fixed, remaining) == remaining ==> |panels| == 1)
  {
    assert Tiling(fixed, ordinal + 1, first + remaining, 0) == [];
  }

  lemma OneMorePanel(fixed: bool, panel: Panel, rest: seq<Panel>, remaining: nat)
    requires remaining > 0 && panel.tokens == NextPanel(fixed, remaining)
    requires Shared(fixed, rest, remaining - panel.tokens)
    requires panel.tokens < remaining ==> rest != [] && rest[0].tokens == NextPanel(fixed, remaining - panel.tokens)
    requires |rest| + 1 == PanelCount(fixed, remaining)
    ensures Shared(fixed, [panel] + rest, remaining)
  {
    var panels := [panel] + rest;
    assert forall i :: 1 <= i < |panels| ==> panels[i] == rest[i - 1];
  }

  /** There is one such way to cut a prompt into panels. */
  lemma SharesDetermine(fixed: bool, a: seq<Panel>, b: seq<Panel>, ordinal: nat, first: nat, tokens: nat)
    requires Tiles(a, PanelLimit(fixed), ordinal, first, first + tokens) && Shared(fixed, a, tokens)
    requires Tiles(b, PanelLimit(fixed), ordinal, first, first + tokens) && Shared(fixed, b, tokens)
    ensures a == b
  {
    hide Tiles, Shared, PanelLimit;
    var n, limit, final := |a|, PanelLimit(fixed), first + tokens;
    SameCount(a, b, fixed, tokens);
    if n > 0 {
      var sure := if fixed || n == 1 then n - 1 else n - 2;
      TilesEnd(a, limit, ordinal, first, final);
      TilesEnd(b, limit, ordinal, first, final);
      SamePrefix(a, b, limit, ordinal, first, final, sure);
      TileAt(a, limit, ordinal, first, final, sure);
      TileAt(b, limit, ordinal, first, final, sure);
      TileAt(a, limit, ordinal, first, final, n - 1);
      TileAt(b, limit, ordinal, first, final, n - 1);
      SameTokens(a, b, fixed, tokens, sure);
      SamePrefix(a, b, limit, ordinal, first, final, n);
    }
  }

  lemma SameCount(a: seq<Panel>, b: seq<Panel>, fixed: bool, tokens: nat)
    requires Shared(fixed, a, tokens) && Shared(fixed, b, tokens)
    ensures |a| == |b| && forall i :: 0 <= i < (if fixed || |a| <= 1 then |a| - 1 else |a| - 2) ==> a[i].tokens == b[i].tokens
  {
  }

  lemma TilesEnd(panels: seq<Panel>, limit: nat, ordinal: nat, first: nat, final: nat)
    requires Tiles(panels, limit, ordinal, first, final) && panels != []
    ensures panels[|panels| - 1].end == final
  {
  }

  lemma SameTokens(a: seq<Panel>, b: seq<Panel>, fixed: bool, tokens: nat, sure: nat)
    requires Shared(fixed, a, tokens) && Shared(fixed, b, tokens) && a != []
    requires sure == if fixed || |a| == 1 then |a| - 1 else |a| - 2
    requires a[sure].first == b[sure].first && a[|a| - 1].end == b[|b| - 1].end
    requires a[sure].end == a[sure].first + a[sure].tokens && b[sure].end == b[sure].first + b[sure].tokens
    requires sure < |a| - 1 ==> a[|a| - 1].first == a[sure].end && b[|a| - 1].first == b[sure].end
    requires a[|a| - 1].end == a[|a| - 1].first + a[|a| - 1].tokens && b[|a| - 1].end == b[|a| - 1].first + b[|a| - 1].tokens
    ensures forall i :: 0 <= i < |a| ==> a[i].tokens == b[i].tokens
  {
    forall i | 0 <= i < |a|
      ensures a[i].tokens == b[i].tokens
    {
    }
  }

  lemma TileAt(panels: seq<Panel>, limit: nat, ordinal: nat, first: nat, final: nat, i: nat)
    requires Tiles(panels, limit, ordinal, first, final) && i < |panels|
    ensures var start := if i == 0 then first else panels[i - 1].end;
            panels[i] == Panel(ordinal + i, start, panels[i].tokens, start + panels[i].tokens)
  {
    var panel := panels[i];
    assert panel == Panel(panel.ordinal, panel.first, panel.tokens, panel.end);
  }

  lemma {:induction false} SamePrefix(a: seq<Panel>, b: seq<Panel>, limit: nat, ordinal: nat, first: nat, final: nat, n: nat)
    requires Tiles(a, limit, ordinal, first, final) && Tiles(b, limit, ordinal, first, final) && n <= |a| && n <= |b|
    requires forall i :: 0 <= i < n ==> a[i].tokens == b[i].tokens
    ensures forall i :: 0 <= i < n ==> a[i] == b[i]
  {
    if n > 0 {
      SamePrefix(a, b, limit, ordinal, first, final, n - 1);
      TileAt(a, limit, ordinal, first, final, n - 1);
      TileAt(b, limit, ordinal, first, final, n - 1);
      hide Tiles;
      assert n > 1 ==> a[n - 2] == b[n - 2];
    }
  }

  function LayersOf(panelCount: nat): seq<LayerExecution> {
    seq(LAYER_COUNT, l requires 0 <= l < LAYER_COUNT => LayerExecution(l, LayerTypeOf(l), DomainOf(l), panelCount))
  }

  /** The hybrid schedule: every fourth layer is full attention and keeps a cache, the others are recurrent. */
  lemma LayersAreHybrid(panelCount: nat, l: nat)
    requires l < 64
    ensures |LayersOf(panelCount)| == 64
    ensures LayersOf(panelCount)[l] ==
            if l % 4 == 3 then LayerExecution(l, FullAttention, KvCache, panelCount)
            else LayerExecution(l, LinearAttention, GdnState, panelCount)
  {
  }

  /** A well-formed plan: its panels are the tiling of its prompt, its layers the hybrid schedule. */
  ghost predicate ValidTopology(build: Build, plan: Plan) {
    && 0 < plan.tokens <= MAXIMUM_SEQUENCE_TOKENS && plan.first + plan.tokens == plan.final <= MAXIMUM_SEQUENCE_TOKENS
    && build.Supports(plan.tactic) && build.Admits(plan.tactic, plan.first, plan.tokens)
    && plan.commit == FinalCommit(plan.first, plan.final, 1)
    && plan.panels == Tiling(plan.tactic.FixedGeometry(), 0, plan.first, plan.tokens)
    && |plan.panels| <= MAXIMUM_PANEL_COUNT
    && plan.layers == LayersOf(|plan.panels|)
    && plan.mlpPhases == if plan.tactic.PerOperatorPanel? then |plan.panels| else 1
  }

  method ValidMlpSchedule(build: Build, plan: Plan) returns (ok: bool)
    ensures ok <==> build.Supports(plan.tactic) && build.Admits(plan.tactic, plan.first, plan.tokens)
                    && plan.mlpPhases == (if plan.tactic.PerOperatorPanel? then |plan.panels| else 1)
                    && (plan.tactic.PerOperatorPanel? || plan.final == plan.tokens)
  {
    if !build.Supports(plan.tactic) {
      return false;
    }
    if plan.tactic.PerOperatorPanel? {
      return plan.mlpPhases == |plan.panels|;
    }
    ok := plan.first == 0 && plan.final == plan.tokens && plan.mlpPhases == 1
       && if plan.tactic.WholeCore? then build.WholeCoreAdmits(plan.tokens)
          else plan.tokens == build.PromptTokens() && plan.tokens % ALIGNMENT_TOKENS == 0;
  }

  /** How a tiling goes on after its first panels. */
  lemma TilingStep(fixed: bool, panels: seq<Panel>, ordinal: nat, first: nat, remaining: nat, whole: seq<Panel>)
    requires whole == panels + Tiling(fixed, ordinal, first, remaining)
    ensures remaining == 0 ==> whole == panels
    ensures var n := NextPanel(fixed, remaining);
            && n <= remaining && (remaining > 0 ==> n > 0)
            && (remaining > 0 ==>
                  && |whole| > |panels| && whole[|panels|] == Panel(ordinal, first, n, first + n)
                  && whole == panels + [Panel(ordinal, first, n, first + n)] + Tiling(fixed, ordinal + 1, first + n, remaining - n))
  {
    hide NextPanel;
    if remaining > 0 {
      var n := NextPanel(fixed, remaining);
      assert Tiling(fixed, ordinal, first, remaining)
          == [Panel(ordinal, first, n, first + n)] + Tiling(fixed, ordinal + 1, first + n, remaining - n);
    }
  }

  /** The walk over the panels: each must be the next of the tiling. */
  method ValidPanels(plan: Plan) returns (ok: bool)
    requires plan.first <= plan.final
    ensures ok <==> plan.panels == Tiling(plan.tactic.FixedGeometry(), 0, plan.first, plan.tokens)
                    && plan.final == plan.first + plan.tokens
  {
    var fixed := plan.tactic.FixedGeometry();
    hide Tiling, NextPanel;
    ghost var whole := Tiling(fixed, 0, plan.first, plan.tokens);
    assert plan.panels[..0] + whole == whole;
    var nextPosition: nat, remaining: nat := plan.first, plan.tokens;
    for i := 0 to |plan.panels|
      invariant nextPosition + remaining == plan.first + plan.tokens
      invariant whole == plan.panels[..i] + Tiling(fixed, i, nextPosition, remaining)
    {
      var panel := plan.panels[i];
      var expected := NextPanel(fixed, remaining);
      TilingStep(fixed, plan.panels[..i], i, nextPosition, remaining, whole);
      if panel.ordinal != i || panel.first != nextPosition || panel.tokens != expected
         || panel.end <= panel.first || panel.end - panel.first != panel.tokens {
        return false;
      }
      assert plan.panels[..i + 1] == plan.panels[..i] + [panel];
      nextPosition, remaining := panel.end, remaining - panel.tokens;
    }
    assert plan.panels[..|plan.panels|] == plan.panels;
    TilingStep(fixed, plan.panels, |plan.panels|, nextPosition, remaining, whole);
    ok := remaining == 0 && nextPosition == plan.final;
  }

  method ValidLayers(plan: Plan) returns (ok: bool)
    requires |plan.layers| == LAYER_COUNT
    ensures ok <==> plan.layers == LayersOf(|plan.panels|)
  {
    for l := 0 to LAYER_COUNT
      invariant forall i :: 0 <= i < l ==> plan.layers[i] == LayersOf(|plan.panels|)[i]
    {
      var layer := plan.layers[l];
      if layer.index != l || layer.kind != LayerTypeOf(l) || layer.domain != DomainOf(l)
         || layer.panelCount != |plan.panels| {
        assert layer != LayersOf(|plan.panels|)[l];
        return false;
      }
    }
    ok := true;
  }

  /** Whether a plan has the topology this binary accepts. */
  method ValidPlanTopology(build: Build, plan: Plan) returns (ok: bool)
    ensures ok <==> ValidTopology(build, plan)
  {
    TilingCount(plan.tactic.FixedGeometry(), 0, plan.first, plan.tokens);
    if plan.tokens == 0 || plan.panels == [] || |plan.panels| > MAXIMUM_PANEL_COUNT
       || plan.tokens > MAXIMUM_SEQUENCE_TOKENS || plan.final <= plan.first || plan.final > MAXIMUM_SEQUENCE_TOKENS
       || plan.final - plan.first != plan.tokens || plan.commit != FinalCommit(plan.first, plan.final, 1)
       || |plan.layers| != LAYER_COUNT {
      return false;
    }
    ok := ValidMlpSchedule(build, plan);
    if !ok || |plan.panels| != PanelCount(plan.tactic.FixedGeometry(), plan.tokens) {
      return false;
    }
    ok := ValidPanels(plan);
    if ok {
      ok := ValidLayers(plan);
    }
  }

  datatype Options = Options(first: nat, tokens: nat, maxSequence: nat, tactic: Tactic)

  datatype PlanError = InvalidArgument | ArithmeticOverflow | CapacityExceeded | InvalidTopology

  datatype PlanResult = Built(plan: Plan) | NotBuilt(error: PlanError)

  /** What a caller must ask for. */
  predicate Buildable(build: Build, options: Options) {
    Admissible(build, options) && options.first + options.tokens <= options.maxSequence
  }

  /** What can be asked for at all, whether or not it fits. */
  predicate Admissible(build: Build, options: Options) {
    && 0 < options.tokens && 0 < options.maxSequence <= MAXIMUM_SEQUENCE_TOKENS
    && build.Supports(options.tactic) && build.Admits(options.tactic, options.first, options.tokens)
    && (options.tactic.FixedGeometry() ==> options.maxSequence == build.Capacity())
  }

  method BuildPanels(fixed: bool, first: nat, tokens: nat) returns (panels: seq<Panel>)
    ensures panels == Tiling(fixed, 0, first, tokens)
  {
    hide Tiling, NextPanel, PanelCount;
    TilingCount(fixed, 0, first, tokens);
    panels := [];
    assert [] + Tiling(fixed, 0, first, tokens) == Tiling(fixed, 0, first, tokens);
    var nextPosition: nat, remaining: nat := first, tokens;
    for i := 0 to PanelCount(fixed, tokens)
      invariant |panels| == i && nextPosition + remaining == first + tokens
      invariant Tiling(fixed, 0, first, tokens) == panels + Tiling(fixed, i, nextPosition, remaining)
    {
      TilingCount(fixed, i, nextPosition, remaining);
      TilingStep(fixed, panels, i, nextPosition, remaining, Tiling(fixed, 0, first, tokens));
      var n := NextPanel(fixed, remaining);
      panels := panels + [Panel(i, nextPosition, n, nextPosition + n)];
      nextPosition, remaining := nextPosition + n, remaining - n;
    }
    TilingCount(fixed, |panels|, nextPosition, remaining);
    assert panels + [] == panels;
  }

  /** The builder succeeds exactly on buildable requests, with a plan of valid topology; that its own
      final check could refuse what it built is excluded. */
  method BuildPlan(build: Build, options: Options) returns (result: PlanResult)
    requires options.first <= UINT64_MAX && options.tokens <= UINT64_MAX
    ensures result.Built? <==> Buildable(build, options)
    ensures result.Built? ==>
              var p := result.plan;
              && ValidTopology(build, p) && p.tactic == options.tactic && p.first == options.first && p.tokens == options.tokens
              && Tiles(p.panels, if p.tactic.FixedGeometry() then 8000 else 8192, 0, p.first, p.final)
              && Shared(p.tactic.FixedGeometry(), p.panels, p.tokens)
    ensures result != NotBuilt(InvalidTopology)
    ensures result == NotBuilt(InvalidArgument) <==> !Admissible(build, options)
    ensures result == NotBuilt(ArithmeticOverflow) <==> Admissible(build, options) && options.first + options.tokens > UINT64_MAX
  {
    hide Tiling, Tiles, Shared, NextPanel;
    if options.tokens == 0 || options.maxSequence == 0 || options.maxSequence > MAXIMUM_SEQUENCE_TOKENS
       || !build.Supports(options.tactic) {
      return NotBuilt(InvalidArgument);
    }
    if !build.Admits(options.tactic, options.first, options.tokens) {
      return NotBuilt(InvalidArgument);
    }
    var fixed := options.tactic.FixedGeometry();
    if fixed && options.maxSequence != build.Capacity() {
      return NotBuilt(InvalidArgument);
    }
    if options.tokens > UINT64_MAX - options.first {
      return NotBuilt(ArithmeticOverflow);
    }
    var final := options.first + options.tokens;
    if final > options.maxSequence || final > MAXIMUM_SEQUENCE_TOKENS {
      return NotBuilt(CapacityExceeded);
    }
    var panelCount := PanelCount(fixed, options.tokens);
    if panelCount == 0 || panelCount > MAXIMUM_PANEL_COUNT {
      return NotBuilt(InvalidTopology);
    }
    var panels := BuildPanels(fixed, options.first, options.tokens);
    TilingTiles(fixed, 0, options.first, options.tokens);
    TilingShares(fixed, 0, options.first, options.tokens);
    TilingCount(fixed, 0, options.first, options.tokens);
    var plan := Plan(options.tactic, options.first, options.tokens, final, panels, LayersOf(panelCount),
                     if options.tactic.PerOperatorPanel? then panelCount else 1,
                     FinalCommit(options.first, final, 1));
    var valid := ValidPlanTopology(build, plan);
    if !valid {
      return NotBuilt(InvalidTopology);
    }
    result := Built(plan);
  }

  /** Exactly which requests each tactic can be built for.  In the served geometry the tactics with a fixed
      prompt ask for 44096 tokens: that is one more than the request capacity, to which the tactics of fixed
      geometry are held, but not the layer-wide MLP one. */
  lemma BuildableRequests(build: Build, options: Options)
    ensures Buildable(build, options) <==>
            && build.Supports(options.tactic) && 0 < options.tokens && options.maxSequence <= MAXIMUM_SEQUENCE_TOKENS
            && match options.tactic
               case PerOperatorPanel => options.first + options.tokens <= options.maxSequence
               case LayerWideP40ExactFullM =>
                 && options.first == 0 && options.tokens == (if build.service then 44096 else 40000)
                 && options.tokens <= options.maxSequence
               case WholeCore =>
                 && options.first == 0
                 && if build.service then options.tokens <= 44095 == options.maxSequence
                    else options.tokens == 40000 && options.maxSequence == 40016
               case _ => !build.service && options.first == 0 && options.tokens == 40000 && options.maxSequence == 40016
  {
  }
}
