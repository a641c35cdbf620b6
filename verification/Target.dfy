/**
  The target network of speculative decoding, as a sequential machine.

  Every kernel is an arbitrary pure function of the buffers it reads, so whatever is proved here
  holds for any weights and any arithmetic.  `Step` consumes one token the way one-token decoding
  does: the token's activation climbs through all 64 layers, reading only the state left by the
  tokens before it.  This is the reference that the batched verifier is compared with.
 */
module MtpTarget {
  import opened Common

  const VOCABULARY: nat := 248320

  datatype Activation = Activation(bf16: seq<bv16>)
  datatype Mixed = Mixed(bf16: seq<bv16>)
  datatype ConvState = ConvState(bf16: seq<bv16>)
  datatype GdnState = GdnState(bf16: seq<bv16>)
  datatype KvRow = KvRow(key: seq<bv16>, value: seq<bv16>)
  datatype Hidden = Hidden(bf16: seq<bv16>)

  /** The kernels of the target, layer by layer.  `gdnNext` and `gdnOut` are the two results of one
      gated-delta-net update; `layerOut` is everything after the mixer: output projection, residual,
      norm, MLP and the next layer's norm. */
  datatype Model = Model(
    conv0: ConvState,
    gdn0: GdnState,
    embed: nat -> Activation,
    convNext: (nat, ConvState, Activation) -> ConvState,
    convOut: (nat, ConvState, Activation) -> Mixed,
    gdnNext: (nat, GdnState, Mixed, Activation) -> GdnState,
    gdnOut: (nat, GdnState, Mixed, Activation) -> Mixed,
    kvRow: (nat, Activation, nat) -> KvRow,
    attend: (nat, Activation, seq<KvRow>) -> Mixed,
    layerOut: (nat, Activation, Mixed) -> Activation,
    finalHidden: Activation -> Hidden,
    argmax: Hidden -> nat)
  {
    /** The argmax over the vocabulary's logits is a vocabulary index. */
    ghost predicate InVocabulary() {
      forall h :: argmax(h) < VOCABULARY
    }
  }

  /** Every token is a vocabulary index. */
  predicate TokensValid(tokens: seq<nat>) {
    forall i :: 0 <= i < |tokens| ==> tokens[i] < VOCABULARY
  }

  /** The hybrid schedule: three linear-attention layers, then one full-attention layer. */
  predicate FullAttention(layer: nat) {
    layer % 4 == 3
  }

  datatype RawState = RawState(conv: seq<ConvState>, gdn: seq<GdnState>, kv: seq<seq<KvRow>>, length: nat)

  /** One entry per layer; only a full-attention layer caches keys and values, one row a position. */
  type State = s: RawState |
    && |s.conv| == |s.gdn| == |s.kv| == LAYER_COUNT
    && forall l :: 0 <= l < LAYER_COUNT ==> |s.kv[l]| == if FullAttention(l) then s.length else 0
    ghost witness RawState(seq(LAYER_COUNT, _ => ConvState([])), seq(LAYER_COUNT, _ => GdnState([])), seq(LAYER_COUNT, _ => []), 0)

  ghost function Initial(m: Model): State {
    RawState(seq(LAYER_COUNT, _ => m.conv0), seq(LAYER_COUNT, _ => m.gdn0), seq(LAYER_COUNT, _ => []), 0)
  }

  /** What `token`, consumed in state `st`, feeds into layer `layer`. */
  ghost function Input(m: Model, st: State, token: nat, layer: nat): Activation
    requires layer <= LAYER_COUNT
  {
    if layer == 0 then m.embed(token) else
      var x := Input(m, st, token, layer - 1);
      m.layerOut(layer - 1, x, Mix(m, st, x, layer - 1))
  }

  ghost function Mix(m: Model, st: State, x: Activation, layer: nat): Mixed
    requires layer < LAYER_COUNT
  {
    if FullAttention(layer) then
      m.attend(layer, x, st.kv[layer] + [m.kvRow(layer, x, st.length)])
    else
      m.gdnOut(layer, st.gdn[layer], m.convOut(layer, st.conv[layer], x), x)
  }

  ghost function ConvAfter(m: Model, st: State, token: nat, layer: nat): ConvState
    requires layer < LAYER_COUNT
  {
    if FullAttention(layer) then st.conv[layer]
    else m.convNext(layer, st.conv[layer], Input(m, st, token, layer))
  }

  ghost function GdnAfter(m: Model, st: State, token: nat, layer: nat): GdnState
    requires layer < LAYER_COUNT
  {
    var x := Input(m, st, token, layer);
    if FullAttention(layer) then st.gdn[layer]
    else m.gdnNext(layer, st.gdn[layer], m.convOut(layer, st.conv[layer], x), x)
  }

  ghost function KvAfter(m: Model, st: State, token: nat, layer: nat): seq<KvRow>
    requires layer < LAYER_COUNT
  {
    if FullAttention(layer) then
      st.kv[layer] + [m.kvRow(layer, Input(m, st, token, layer), st.length)]
    else
      []
  }

  /** One decoding step. */
  ghost function Step(m: Model, st: State, token: nat): State {
    RawState(
      seq(LAYER_COUNT, l requires 0 <= l < LAYER_COUNT => ConvAfter(m, st, token, l)),
      seq(LAYER_COUNT, l requires 0 <= l < LAYER_COUNT => GdnAfter(m, st, token, l)),
      seq(LAYER_COUNT, l requires 0 <= l < LAYER_COUNT => KvAfter(m, st, token, l)),
      st.length + 1)
  }

  /** The normalized hidden row the last layer publishes for `token`. */
  ghost function HiddenOf(m: Model, st: State, token: nat): Hidden {
    m.finalHidden(Input(m, st, token, LAYER_COUNT))
  }

  ghost function Run(m: Model, tokens: seq<nat>): (st: State)
    ensures st.length == |tokens|
  {
    if tokens == [] then Initial(m) else Step(m, Run(m, tokens[..|tokens| - 1]), tokens[|tokens| - 1])
  }

  /** The hidden row left by the last of `tokens`. */
  ghost function HiddenAfter(m: Model, tokens: seq<nat>): Hidden
    requires tokens != []
  {
    HiddenOf(m, Run(m, tokens[..|tokens| - 1]), tokens[|tokens| - 1])
  }

  /** Greedy decoding: the token that follows `tokens`. */
  ghost function Next(m: Model, tokens: seq<nat>): nat
    requires tokens != []
  {
    m.argmax(HiddenAfter(m, tokens))
  }

  /** `states` is the run of one-token steps on `tokens` from `states[0]`. */
  ghost predicate Steps(m: Model, states: seq<State>, tokens: seq<nat>) {
    && |states| == |tokens| + 1
    && forall r :: 0 <= r < |tokens| ==> states[r + 1] == Step(m, states[r], tokens[r])
  }

  /** What one step does to a linear-attention layer. */
  lemma LinearStep(m: Model, st: State, token: nat, l: nat)
    requires l < LAYER_COUNT && !FullAttention(l)
    ensures var x := Input(m, st, token, l);
            && Step(m, st, token).conv[l] == m.convNext(l, st.conv[l], x)
            && Step(m, st, token).gdn[l] == m.gdnNext(l, st.gdn[l], m.convOut(l, st.conv[l], x), x)
            && Mix(m, st, x, l) == m.gdnOut(l, st.gdn[l], m.convOut(l, st.conv[l], x), x)
  {
  }

  /** What one step does to a full-attention layer: it appends one row and attends to all rows up to it. */
  lemma AttentionStep(m: Model, st: State, token: nat, l: nat)
    requires l < LAYER_COUNT && FullAttention(l)
    ensures var x := Input(m, st, token, l);
            && Step(m, st, token).kv[l] == st.kv[l] + [m.kvRow(l, x, st.length)]
            && Step(m, st, token).length == st.length + 1
            && Mix(m, st, x, l) == m.attend(l, x, Step(m, st, token).kv[l])
  {
  }

  lemma EmbedIsInput(m: Model, st: State, token: nat)
    ensures Input(m, st, token, 0) == m.embed(token)
  {
  }

  lemma InputNext(m: Model, st: State, token: nat, l: nat)
    requires l < LAYER_COUNT
    ensures var x := Input(m, st, token, l);
            Input(m, st, token, l + 1) == m.layerOut(l, x, Mix(m, st, x, l))
  {
  }

  lemma {:induction false} StepsExist(m: Model, st: State, tokens: seq<nat>) returns (states: seq<State>)
    ensures Steps(m, states, tokens) && states[0] == st
  {
    hide Step;
    if tokens == [] {
      states := [st];
    } else {
      states := StepsExist(m, st, tokens[..|tokens| - 1]);
      states := states + [Step(m, states[|tokens| - 1], tokens[|tokens| - 1])];
    }
  }

  lemma RunAppend(m: Model, tokens: seq<nat>, token: nat)
    ensures Run(m, tokens + [token]) == Step(m, Run(m, tokens), token)
    ensures HiddenAfter(m, tokens + [token]) == HiddenOf(m, Run(m, tokens), token)
  {
    assert (tokens + [token])[..|tokens|] == tokens;
  }

  /** The run of steps on `tokens` after `fed` passes through the states of the longer histories. */
  lemma {:induction false} StepsAreRuns(m: Model, fed: seq<nat>, states: seq<State>, tokens: seq<nat>, r: nat)
    requires Steps(m, states, tokens) && states[0] == Run(m, fed) && r <= |tokens|
    ensures states[r] == Run(m, fed + tokens[..r])
    ensures r > 0 ==> HiddenAfter(m, fed + tokens[..r]) == HiddenOf(m, states[r - 1], tokens[r - 1])
  {
    hide Step;
    if r == 0 {
      assert fed + tokens[..0] == fed;
    } else {
      StepsAreRuns(m, fed, states, tokens, r - 1);
      RunAppend(m, fed + tokens[..r - 1], tokens[r - 1]);
      assert fed + tokens[..r] == (fed + tokens[..r - 1]) + [tokens[r - 1]];
    }
  }

  /** A cached row is never rewritten by a later step. */
  lemma {:induction false} KvIsStable(m: Model, states: seq<State>, tokens: seq<nat>, r: nat, s: nat, l: nat)
    requires Steps(m, states, tokens) && r <= s <= |tokens| && l < LAYER_COUNT && FullAttention(l)
    ensures states[s].length == states[r].length + (s - r)
    ensures states[r].kv[l] <= states[s].kv[l]
    decreases s - r
  {
    hide Step;
    if r < s {
      KvIsStable(m, states, tokens, r, s - 1, l);
      AttentionStep(m, states[s - 1], tokens[s - 1], l);
    }
  }
}
