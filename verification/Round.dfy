/**
  One speculative round: propose, verify, then commit and emit row after row until a proposal is
  refused, a stop token appears, the observer cancels or the output is complete.
 */
module MtpRound {
  import opened MtpTarget
  import opened MtpVerifyRows
  import opened MtpDraft
  import opened MtpTransaction

  datatype RoundOptions = RoundOptions(
    draftLength: nat,
    seedToken: nat,
    remainingOutput: nat,
    availableTargetRows: nat,
    vocabularySize: nat,
    stopToken: nat,
    confidenceLookahead: bool,
    eosFrontier: bool)
  {
    predicate Valid() {
      && (draftLength == 2 || draftLength == 3)
      && seedToken < vocabularySize && stopToken < vocabularySize && seedToken != stopToken
      && 0 < remainingOutput <= availableTargetRows
    }
  }

  /** The most a round may draft: there must be room for the token after the last proposal. */
  function Maximum(options: RoundOptions): (maximum: nat)
    requires options.Valid()
    ensures maximum <= options.draftLength <= MAX_DRAFT && maximum < options.remainingOutput
    ensures maximum == options.draftLength || maximum == options.remainingOutput - 1
  {
    if options.draftLength < options.remainingOutput - 1 then options.draftLength else options.remainingOutput - 1
  }

  /** How many tokens the options' policy makes the draft propose. */
  ghost predicate DraftCount(from: Outset, options: RoundOptions, maximum: nat, count: nat, stopped: bool) {
    if maximum == 0 then count == 0 && !stopped
    else if options.eosFrontier || options.confidenceLookahead then
      from.Yields(maximum, options.eosFrontier, if options.eosFrontier then options.stopToken else 0, count, stopped)
    else count == maximum && !stopped
  }

  /** The proposals are the draft's own, as many as the policy asks for. */
  ghost predicate DraftedBy(from: Outset, options: RoundOptions, maximum: nat, proposals: seq<nat>, count: nat, stopped: bool) {
    && DraftCount(from, options, maximum, count, stopped) && count <= |proposals|
    && forall i :: 0 <= i < count ==> proposals[i] == from.Drafted(i)
  }

  /** The accepted proposals are those that the emitted tokens begin with. */
  ghost predicate Accepts(output: seq<nat>, proposals: seq<nat>, count: nat, accepted: nat) {
    && accepted <= count <= |proposals| && accepted <= |output|
    && (forall i :: 0 <= i < accepted ==> output[i] == proposals[i])
    && (accepted < |output| && accepted < count ==> output[accepted] != proposals[accepted])
  }

  /** What the draft contributed to a round that set out from there. */
  ghost predicate Drafts(r: RoundResult, from: Outset, options: RoundOptions)
    requires options.Valid()
  {
    && DraftCount(from, options, Maximum(options), r.proposedTokens, r.eosFrontierStopped)
    && r.acceptedTokens <= r.proposedTokens && r.acceptedTokens <= |r.output|
    && (forall i :: 0 <= i < r.acceptedTokens ==> r.output[i] == from.Drafted(i))
    && (r.acceptedTokens < |r.output| && r.acceptedTokens < r.proposedTokens ==>
          r.output[r.acceptedTokens] != from.Drafted(r.acceptedTokens))
  }

  /** A round with room for more than one token drafts, unless the draft's first proposal is the stop token at the
      frontier; and it drafts all it may when the draft is sure of it and does not stop. */
  lemma RoundsDraft(r: RoundResult, from: Outset, options: RoundOptions)
    requires options.Valid() && Drafts(r, from, options)
    ensures r.proposedTokens <= options.draftLength && r.proposedTokens < options.remainingOutput
    ensures options.remainingOutput > 1 && r.proposedTokens == 0 ==>
              r.eosFrontierStopped && options.eosFrontier && from.Drafted(0) == options.stopToken
    ensures (forall i :: 0 <= i < Maximum(options) ==> from.Sureness(i) >= 0.4 && from.Drafted(i) != options.stopToken) ==>
              && (r.proposedTokens == options.draftLength || r.proposedTokens == options.remainingOutput - 1)
              && !r.eosFrontierStopped
  {
    hide Outset.Drafted, Outset.Sureness;
  }

  lemma DraftsWhenAccepted(r: RoundResult, from: Outset, options: RoundOptions, proposals: seq<nat>)
    requires options.Valid() && DraftedBy(from, options, Maximum(options), proposals, r.proposedTokens, r.eosFrontierStopped)
    requires Accepts(r.output, proposals, r.proposedTokens, r.acceptedTokens)
    ensures Drafts(r, from, options)
  {
    hide Outset.Drafted, DraftCount;
  }

  datatype RoundStatus = Continue | Length | Stop | Cancelled | InvalidOptions | BackendFailure | InvalidPrediction

  datatype RoundResult = RoundResult(
    status: RoundStatus,
    output: seq<nat>,
    proposedTokens: nat,
    acceptedTokens: nat,
    verifiedRows: nat,
    committedTargetRows: nat,
    eosFrontierStopped: bool,
    abortSucceeded: bool)
  {
    predicate Ok() {
      status.Continue? || status.Length? || status.Stop? || status.Cancelled?
    }

    /** What a round has recorded of its proposals before it commits anything. */
    predicate SameProposals(other: RoundResult) {
      && proposedTokens == other.proposedTokens && verifiedRows == other.verifiedRows
      && eosFrontierStopped == other.eosFrontierStopped
    }
  }

  /** How many tokens the next round may draft: two, unless a cap of three lets one round emit the last
      four tokens. */
  function OutputTailBudget(configured: nat, remaining: nat): (budget: nat)
    ensures configured in {2, 3} ==> budget in {2, 3} && budget <= configured
    ensures configured == 3 ==> (budget == 3 <==> remaining == 4)
  {
    if configured == 3 && remaining != 4 then 2 else configured
  }

  datatype StepRecord = StepRecord(position: nat, input: nat, prediction: nat)

  /** What the client sees: the emitted tokens and a record of each decoding step.  `keep` is the
      client's callback on a token and its index; when it answers no, generation is cancelled there. */
  class Observer {
    const keep: (nat, nat) -> bool
    const target: TargetMemory
    var tokens: seq<nat>
    var steps: seq<StepRecord>
    var emitted: nat

    constructor (target: TargetMemory, keep: (nat, nat) -> bool, first: nat)
      ensures this.target == target && this.keep == keep && tokens == [first] && steps == [] && emitted == 0
    {
      this.target, this.keep := target, keep;
      tokens, steps, emitted := [first], [], 0;
    }

    method Emit(token: nat) returns (proceed: bool)
      requires tokens != [] && target.length > 0
      modifies this
      ensures tokens == old(tokens) + [token] && emitted == old(emitted) + 1
      ensures steps == old(steps) + [StepRecord(target.length - 1, old(tokens[|tokens| - 1]), token)]
      ensures proceed == keep(token, |old(tokens)|)
    {
      steps := steps + [StepRecord(target.length - 1, tokens[|tokens| - 1], token)];
      var index := |tokens|;
      tokens := tokens + [token];
      emitted := emitted + 1;
      proceed := keep(token, index);
    }
  }

  /** From index `from` on, every token is the greedy continuation of `context` and the tokens before it. */
  ghost predicate GreedyFrom(m: Model, context: seq<nat>, tokens: seq<nat>, from: nat) {
    && context != []
    && forall i :: from <= i < |tokens| ==> tokens[i] == Next(m, context + tokens[..i])
  }

  /** No token in the range ends the generation. */
  ghost predicate Uncut(tokens: seq<nat>, from: nat, to: int, stop: nat, keep: (nat, nat) -> bool) {
    forall i :: from <= i < to && i < |tokens| ==> tokens[i] != stop && keep(tokens[i], i)
  }

  /** The step records of tokens `from` onwards: consecutive positions, each token fed by its predecessor. */
  ghost predicate Recorded(steps: seq<StepRecord>, firstStep: nat, tokens: seq<nat>, from: nat, position: nat) {
    && from >= 1 && from <= |tokens| && |steps| == firstStep + |tokens| - from
    && forall i :: from <= i < |tokens| ==>
         steps[firstStep + (i - from)] == StepRecord(position + (i - from), tokens[i - 1], tokens[i])
  }

  /** How a round that emitted the tokens from `from` on was cut. */
  ghost predicate StatusFits(r: RoundResult, tokens: seq<nat>, options: RoundOptions, keep: (nat, nat) -> bool) {
    && tokens != [] && |r.output| <= options.remainingOutput
    && var last := tokens[|tokens| - 1];
       var index := |tokens| - 1;
       match r.status
       case Stop => last == options.stopToken
       case Cancelled => last != options.stopToken && !keep(last, index)
       case Length => last != options.stopToken && keep(last, index) && |r.output| == options.remainingOutput
       case Continue => last != options.stopToken && keep(last, index) && |r.output| < options.remainingOutput
       case _ => false
  }

  /** The counters of a successful round. */
  ghost predicate Accounts(r: RoundResult) {
    && 1 <= |r.output| == r.committedTargetRows <= r.verifiedRows == r.proposedTokens + 1 <= ROWS
    && r.acceptedTokens <= r.proposedTokens
    && (|r.output| == r.acceptedTokens || |r.output| == r.acceptedTokens + 1)
    && (r.status.Continue? || r.status.Length? ==> |r.output| == r.acceptedTokens + 1)
    && (r.status.Length? ==> r.acceptedTokens == r.proposedTokens)
  }

  /** What a round has emitted so far, starting from `from` tokens: the committed history is the
      context followed by all tokens but the pending last one, and the tokens are greedy. */
  ghost predicate Emitted(tx: TargetTransaction, o: Observer, context: seq<nat>, from: nat, firstStep: nat)
    reads tx`fed, o`tokens, o`steps
  {
    && 1 <= from <= |o.tokens| && tx.fed == context + o.tokens[..|o.tokens| - 1]
    && GreedyFrom(tx.target.m, context, o.tokens, from)
    && Recorded(o.steps, firstStep, o.tokens, from, |context| + from - 1)
  }

  lemma GreedyExtends(m: Model, context: seq<nat>, tokens: seq<nat>, token: nat, from: nat)
    requires GreedyFrom(m, context, tokens, from) && from <= |tokens| && token == Next(m, context + tokens)
    ensures GreedyFrom(m, context, tokens + [token], from)
  {
    hide Next;
    assert (tokens + [token])[..|tokens|] == tokens;
    forall i | from <= i < |tokens|
      ensures (tokens + [token])[i] == Next(m, context + (tokens + [token])[..i])
    {
      assert (tokens + [token])[..i] == tokens[..i];
    }
  }

  lemma RecordedExtends(steps: seq<StepRecord>, firstStep: nat, tokens: seq<nat>, token: nat, from: nat, position: nat)
    requires Recorded(steps, firstStep, tokens, from, position)
    ensures Recorded(steps + [StepRecord(position + |tokens| - from, tokens[|tokens| - 1], token)],
                     firstStep, tokens + [token], from, position)
  {
  }

  /** Commits one row and emits its token. */
  method CommitRow(tx: TargetTransaction, o: Observer, i: nat, token: nat,
                   ghost context: seq<nat>, ghost from: nat, ghost firstStep: nat) returns (ok: bool, proceed: bool)
    requires o.target == tx.target && tx.Shape() && tx.Staged() && tx.Reconciled() && tx.committed == i < tx.rows
    requires token == tx.predictions[i] && o.tokens != [] && tx.inputs[i] == o.tokens[|o.tokens| - 1]
    requires i > 0 ==> tx.inputs[i] == tx.predictions[i - 1]
    requires Emitted(tx, o, context, from, firstStep) && context != []
    modifies o, tx`committed, tx`fed, tx`preparedTail, tx`seedCacheValid, tx.target`hidden, tx.target`owner,
             tx.target`length, tx.target.conv, tx.target.gdn, tx.draft, tx.draft.cache
    ensures tx.Shape() && Emitted(tx, o, context, from, firstStep)
    ensures ok ==> tx.Staged() && tx.Reconciled() && tx.committed == i + 1
    ensures ok ==> o.tokens == old(o.tokens) + [token] && o.emitted == old(o.emitted) + 1
    ensures ok ==> proceed == o.keep(token, |old(o.tokens)|)
    ensures !ok ==> o.tokens == old(o.tokens) && o.emitted == old(o.emitted)
    ensures old(o.steps) <= o.steps
    ensures tx.target.healthy ==> ok
  {
    hide Run, Step, Input, HiddenOf, HiddenAfter, Next, GreedyFrom, Recorded, TargetTransaction.Reconciled,
         TargetTransaction.Staged, TargetTransaction.Shape;
    ghost var before := o.tokens;
    proceed := false;
    tx.StagedBounds();
    ok := tx.CommitPrefix(i + 1, token);
    if !ok {
      return;
    }
    assert tx.fed == context + before by {
      assert before == before[..|before| - 1] + [before[|before| - 1]];
    }
    GreedyExtends(tx.target.m, context, before, token, from);
    RecordedExtends(o.steps, firstStep, before, token, from, |context| + from - 1);
    proceed := o.Emit(token);
    assert o.tokens[..|o.tokens| - 1] == before;
  }

  lemma NoneYet(tokens: seq<nat>, stop: nat, keep: (nat, nat) -> bool)
    ensures Uncut(tokens, |tokens|, |tokens| - 1, stop, keep) && Uncut(tokens, |tokens|, |tokens|, stop, keep)
  {
  }

  lemma UncutButLast(tokens: seq<nat>, from: nat, stop: nat, keep: (nat, nat) -> bool)
    requires Uncut(tokens, from, |tokens|, stop, keep)
    ensures Uncut(tokens, from, |tokens| - 1, stop, keep)
  {
  }

  /** A semantic stop takes precedence over a cancellation, and both over the length of the output. */
  function AddToken(r: RoundResult, token: nat, agrees: bool, proceed: bool, options: RoundOptions): RoundResult {
    var output := r.output + [token];
    r.(committedTargetRows := r.committedTargetRows + 1,
       output := output,
       acceptedTokens := r.acceptedTokens + (if agrees then 1 else 0),
       status := if token == options.stopToken then Stop
                 else if !proceed then Cancelled
                 else if |output| == options.remainingOutput then Length
                 else Continue)
  }

  lemma TokenOutcome(r: RoundResult, token: nat, agrees: bool, options: RoundOptions, before: seq<nat>, from: nat,
                     keep: (nat, nat) -> bool)
    requires Uncut(before, from, |before|, options.stopToken, keep) && from <= |before|
    requires |r.output| == r.committedTargetRows == r.acceptedTokens <= r.proposedTokens < options.remainingOutput
    requires r.verifiedRows == r.proposedTokens + 1 <= ROWS && (agrees ==> |r.output| < r.proposedTokens)
    ensures var s, tokens := AddToken(r, token, agrees, keep(token, |before|), options), before + [token];
            && s.Ok() && StatusFits(s, tokens, options, keep)
            && Uncut(tokens, from, |tokens| - 1, options.stopToken, keep)
            && (s.status.Continue? ==> Uncut(tokens, from, |tokens|, options.stopToken, keep))
            && (!(s.status.Continue? && agrees) ==> Accounts(s))
  {
  }

  /** A round part way through its commits: `|r.output|` rows are committed and emitted, and `more`
      says whether the next one may follow. */
  ghost predicate Committing(tx: TargetTransaction, o: Observer, options: RoundOptions, r: RoundResult, more: bool,
                             context: seq<nat>, from: nat, firstStep: nat)
    reads tx, o, tx.target, tx.draft, tx.inputs, tx.predictions, tx.draft.cache, tx.target.conv, tx.target.gdn,
          tx.target.kv, tx.target.slotHidden
  {
    && o.target == tx.target && tx.Shape() && tx.Staged() && tx.Reconciled() && Emitted(tx, o, context, from, firstStep)
    && context != [] && |o.tokens| == from + |r.output|
    && tx.committed == |r.output| == r.committedTargetRows <= options.remainingOutput && r.acceptedTokens <= r.proposedTokens
    && r.verifiedRows == r.proposedTokens + 1 == tx.rows && r.proposedTokens < options.remainingOutput
    && if more then
         var i := |r.output|;
         && r.acceptedTokens == i < tx.rows && tx.inputs[i] == o.tokens[|o.tokens| - 1]
         && (i > 0 ==> tx.inputs[i] == tx.predictions[i - 1])
         && Uncut(o.tokens, from, |o.tokens|, options.stopToken, o.keep)
       else
         && r.output != [] && Uncut(o.tokens, from, |o.tokens| - 1, options.stopToken, o.keep)
         && r.Ok() && StatusFits(r, o.tokens, options, o.keep) && Accounts(r)
  }

  lemma CommittingFacts(tx: TargetTransaction, o: Observer, options: RoundOptions, r: RoundResult, more: bool,
                        context: seq<nat>, from: nat, firstStep: nat)
    requires Committing(tx, o, options, r, more, context, from, firstStep)
    ensures o.target == tx.target && tx.Shape() && Emitted(tx, o, context, from, firstStep)
    ensures tx.rows == r.proposedTokens + 1 && r.acceptedTokens <= r.proposedTokens && |r.output| <= options.remainingOutput
    ensures more ==> |r.output| <= r.proposedTokens
    ensures Uncut(o.tokens, from, |o.tokens| - 1, options.stopToken, o.keep)
    ensures !more ==> tx.Staged() && tx.Reconciled() && tx.committed == |r.output| > 0 && r.Ok() && Accounts(r)
    ensures !more ==> StatusFits(r, o.tokens, options, o.keep)
  {
    hide TargetTransaction.Reconciled, TargetTransaction.Staged, TargetTransaction.Shape, Emitted, StatusFits, Accounts;
    if more {
      UncutButLast(o.tokens, from, options.stopToken, o.keep);
    }
  }

  lemma CommittingStarts(tx: TargetTransaction, o: Observer, options: RoundOptions, so: RoundResult,
                         context: seq<nat>, firstStep: nat)
    requires o.target == tx.target && tx.Shape() && tx.Staged() && tx.Reconciled() && tx.committed == 0
    requires context != [] && o.tokens != [] && Emitted(tx, o, context, |o.tokens|, firstStep)
    requires so.output == [] && so.acceptedTokens == so.committedTargetRows == 0
    requires so.verifiedRows == so.proposedTokens + 1 == tx.rows && so.proposedTokens < options.remainingOutput
    requires tx.inputs[0] == o.tokens[|o.tokens| - 1]
    ensures Committing(tx, o, options, so, true, context, |o.tokens|, firstStep)
  {
    hide TargetTransaction.Reconciled, TargetTransaction.Staged, TargetTransaction.Shape, Emitted;
    NoneYet(o.tokens, options.stopToken, o.keep);
  }

  /** One turn: commit the next row, emit its token, and judge whether another row may follow. */
  method CommitTurn(tx: TargetTransaction, o: Observer, options: RoundOptions, so: RoundResult, token: nat, agrees: bool,
                    ghost context: seq<nat>, ghost from: nat, ghost firstStep: nat) returns (ok: bool, r: RoundResult)
    requires Committing(tx, o, options, so, true, context, from, firstStep)
    requires |so.output| < tx.rows <= ROWS == tx.inputs.Length == tx.predictions.Length
    requires token == tx.predictions[|so.output|]
    requires agrees <==> |so.output| + 1 < tx.rows && tx.inputs[|so.output| + 1] == token
    modifies o, tx`committed, tx`fed, tx`preparedTail, tx`seedCacheValid, tx.target`hidden, tx.target`owner,
             tx.target`length, tx.target.conv, tx.target.gdn, tx.draft, tx.draft.cache
    ensures !ok ==> tx.Shape() && Emitted(tx, o, context, from, firstStep) && r == so
    ensures !ok ==> o.tokens == old(o.tokens) && o.emitted == old(o.emitted)
    ensures ok ==> Committing(tx, o, options, r, r.status.Continue? && agrees, context, from, firstStep)
    ensures ok ==> r.output == so.output + [token] && r.acceptedTokens == so.acceptedTokens + if agrees then 1 else 0
    ensures r.SameProposals(so)
    ensures ok ==> o.tokens == old(o.tokens) + [token] && o.emitted == old(o.emitted) + 1
    ensures old(o.steps) <= o.steps
    ensures tx.target.healthy ==> ok
  {
    hide Run, Step, Input, HiddenOf, HiddenAfter, Next, TargetTransaction.Reconciled, TargetTransaction.Staged,
         TargetTransaction.Shape, Uncut, StatusFits, Accounts, GreedyFrom, Recorded;
    ghost var before := o.tokens;
    r := so;
    var proceed := false;
    ok, proceed := CommitRow(tx, o, |so.output|, token, context, from, firstStep);
    if ok {
      TokenOutcome(so, token, agrees, options, before, from, o.keep);
      r := AddToken(so, token, agrees, proceed, options);
    }
  }

  /** The commits of one round, after verification: row after row until a proposal is refused, a stop
      token appears, the observer cancels or the output is complete. */
  method CommitRows(tx: TargetTransaction, o: Observer, options: RoundOptions, proposals: seq<nat>, count: nat,
                    predictions: seq<nat>, so: RoundResult,
                    ghost context: seq<nat>, ghost from: nat, ghost firstStep: nat)
    returns (ok: bool, r: RoundResult)
    requires so.output == [] && so.proposedTokens == count <= |proposals| && so.acceptedTokens == 0
    requires Committing(tx, o, options, so, true, context, from, firstStep)
    requires tx.rows == count + 1 <= ROWS == tx.inputs.Length == tx.predictions.Length
    requires predictions == tx.predictions[..count + 1]
    requires forall i :: 1 <= i <= count ==> tx.inputs[i] == proposals[i - 1]
    modifies o, tx`committed, tx`fed, tx`preparedTail, tx`seedCacheValid, tx.target`hidden, tx.target`owner,
             tx.target`length, tx.target.conv, tx.target.gdn, tx.draft, tx.draft.cache
    ensures tx.Shape() && Emitted(tx, o, context, from, firstStep)
    ensures o.tokens == old(o.tokens) + r.output && o.emitted == old(o.emitted) + |r.output|
    ensures Uncut(o.tokens, from, |o.tokens| - 1, options.stopToken, o.keep)
    ensures ok ==> tx.Staged() && tx.Reconciled() && tx.committed == |r.output| > 0
    ensures r.acceptedTokens <= count && old(o.steps) <= o.steps && |r.output| <= options.remainingOutput
    ensures r.SameProposals(so)
    ensures ok ==> StatusFits(r, o.tokens, options, o.keep) && Accounts(r) && r.Ok()
    ensures ok ==> Accepts(r.output, proposals, count, r.acceptedTokens)
    ensures tx.target.healthy ==> ok
  {
    hide Committing, TargetTransaction.Reconciled, TargetTransaction.Staged, TargetTransaction.Shape, Uncut, StatusFits,
         Accounts, Emitted;
    r, ok := so, true;
    CommittingFacts(tx, o, options, r, true, context, from, firstStep);
    var i := 0;
    var more := true;
    while more
      invariant Committing(tx, o, options, r, more, context, from, firstStep)
      invariant |r.output| == i && r.SameProposals(so) && (more ==> i <= count && r.acceptedTokens == i)
      invariant Accepts(r.output, proposals, count, r.acceptedTokens)
      invariant o.tokens == old(o.tokens) + r.output && o.emitted == old(o.emitted) + i && old(o.steps) <= o.steps
      decreases if more then 1 else 0, count - i
    {
      CommittingFacts(tx, o, options, r, more, context, from, firstStep);
      var token := predictions[i];
      var agrees := i < count && proposals[i] == token;
      ok, r := CommitTurn(tx, o, options, r, token, agrees, context, from, firstStep);
      if !ok {
        return;
      }
      i := i + 1;
      more := r.status.Continue? && agrees;
      CommittingFacts(tx, o, options, r, more, context, from, firstStep);
    }
    CommittingFacts(tx, o, options, r, more, context, from, firstStep);
  }

  /** A proposal list the round accepts from the backend: no longer than asked for, empty only when drafting
      stopped before the stop token. */
  predicate Acceptable(options: RoundOptions, maximum: nat, proposals: seq<nat>, count: nat, stopped: bool)
    requires |proposals| == MAX_DRAFT && maximum <= MAX_DRAFT
  {
    && count <= maximum && (count == 0 ==> stopped)
    && (stopped ==> count < maximum && proposals[count] == options.stopToken)
  }

  /** Drafting by the policy the options select; what comes back is checked as the round must check a
      backend it does not trust. */
  method DraftProposals(tx: TargetTransaction, options: RoundOptions, maximum: nat)
    returns (status: RoundStatus, proposals: seq<nat>, count: nat, stopped: bool)
    requires tx.Shape() && tx.InFlight() && tx.draft.position + 1 == tx.entry && tx.rows == maximum + 1
    requires 0 < maximum <= MAX_DRAFT
    modifies tx`rows, tx`seedCacheValid, tx`cachedSeed, tx.draft, tx.draft.cache
    ensures tx.Shape() && |proposals| == MAX_DRAFT
    ensures status.Continue? || status.BackendFailure? || status.InvalidPrediction?
    ensures status.Continue? ==> tx.InFlight() && tx.rows == count + 1 && Acceptable(options, maximum, proposals, count, stopped)
    ensures status.Continue? ==> TokensValid(proposals[..count])
    ensures !status.Continue? ==> count == 0 && !stopped
    ensures status.Continue? ==>
              tx.fed != [] && DraftedBy(tx.OutsetOf(tx.fed, options.seedToken), options, maximum, proposals, count, stopped)
    ensures tx.draft.healthy && tx.draft.dm.InRange() && options.seedToken < VOCABULARY ==> status.Continue?
  {
    hide TargetTransaction.InFlight, TargetTransaction.Shape, TargetTransaction.OutsetOf, Outset.Yields, Outset.Drafted;
    var ok;
    status, count, stopped := Continue, maximum, false;
    if options.eosFrontier {
      ok, proposals, count, stopped := tx.ProposePrefix(options.seedToken, maximum, true, options.stopToken);
    } else if options.confidenceLookahead {
      ok, proposals, count, stopped := tx.ProposePrefix(options.seedToken, maximum, false, 0);
    } else {
      ok, proposals := tx.Propose(options.seedToken, maximum);
    }
    if !ok {
      status, count, stopped := BackendFailure, 0, false;
    } else if !Acceptable(options, maximum, proposals, count, stopped) {
      status, count, stopped := InvalidPrediction, 0, false;
    }
  }

  ghost predicate WithinVocabulary(proposals: seq<nat>, count: nat, vocabularySize: nat) {
    count <= |proposals| && forall i :: 0 <= i < count ==> proposals[i] < vocabularySize
  }

  /** The proposals of a round: drafted, acceptable, and all of them vocabulary indices. */
  method ProposeRound(tx: TargetTransaction, options: RoundOptions, maximum: nat)
    returns (status: RoundStatus, proposals: seq<nat>, count: nat, stopped: bool)
    requires tx.Shape() && tx.InFlight() && tx.draft.position + 1 == tx.entry && tx.rows == maximum + 1
    requires maximum <= MAX_DRAFT
    modifies tx`rows, tx`seedCacheValid, tx`cachedSeed, tx.draft, tx.draft.cache
    ensures tx.Shape() && |proposals| == MAX_DRAFT && count <= maximum
    ensures status.Continue? ==> tx.InFlight() && tx.rows == count + 1 && TokensValid(proposals[..count])
    ensures status.Continue? && maximum > 0 ==> Acceptable(options, maximum, proposals, count, stopped)
    ensures status.Continue? ==> WithinVocabulary(proposals, count, options.vocabularySize)
    ensures status.Continue? ==>
              tx.fed != [] && DraftedBy(tx.OutsetOf(tx.fed, options.seedToken), options, maximum, proposals, count, stopped)
    ensures status.Continue? || status.BackendFailure? || status.InvalidPrediction?
    ensures !status.Continue? && (count > 0 || stopped) ==>
              status.InvalidPrediction? && !WithinVocabulary(proposals, count, options.vocabularySize)
    ensures tx.draft.healthy && tx.draft.dm.InRange() && options.seedToken < VOCABULARY <= options.vocabularySize ==>
              status.Continue?
  {
    hide TargetTransaction.InFlight, TargetTransaction.Shape, Acceptable, TargetTransaction.OutsetOf, DraftedBy;
    tx.InFlightBounds();
    if maximum == 0 {
      status, proposals, count, stopped := Continue, [0, 0, 0], 0, false;
      NothingDrafted(tx.OutsetOf(tx.fed, options.seedToken), options, proposals);
      return;
    }
    status, proposals, count, stopped := DraftProposals(tx, options, maximum);
    BoundedWhenAcceptable(options, maximum, proposals, count, stopped);
    if status.Continue? {
      VocabularyHolds(proposals, count, options.vocabularySize);
      hide WithinVocabulary, TokensValid;
      var inRange := AllInRange(proposals, count, options.vocabularySize);
      if !inRange {
        status := InvalidPrediction;
      }
    }
  }

  lemma VocabularyHolds(proposals: seq<nat>, count: nat, vocabularySize: nat)
    requires count <= |proposals|
    ensures TokensValid(proposals[..count]) && VOCABULARY <= vocabularySize ==> WithinVocabulary(proposals, count, vocabularySize)
  {
    assert forall i :: 0 <= i < count ==> proposals[..count][i] == proposals[i];
  }

  method AllInRange(proposals: seq<nat>, count: nat, vocabularySize: nat) returns (ok: bool)
    requires count <= |proposals|
    ensures ok <==> WithinVocabulary(proposals, count, vocabularySize)
  {
    for i := 0 to count
      invariant forall j :: 0 <= j < i ==> proposals[j] < vocabularySize
    {
      if proposals[i] >= vocabularySize {
        return false;
      }
    }
    ok := true;
  }

  lemma NothingDrafted(from: Outset, options: RoundOptions, proposals: seq<nat>)
    ensures DraftedBy(from, options, 0, proposals, 0, false)
  {
  }

  lemma BoundedWhenAcceptable(options: RoundOptions, maximum: nat, proposals: seq<nat>, count: nat, stopped: bool)
    requires |proposals| == MAX_DRAFT && maximum <= MAX_DRAFT
    ensures Acceptable(options, maximum, proposals, count, stopped) ==> count <= maximum
  {
  }

  /** The first half of a round: begin a transaction for at most `maximum` proposals, and draft them. */
  method OpenRound(tx: TargetTransaction, options: RoundOptions, maximum: nat)
    returns (status: RoundStatus, proposals: seq<nat>, count: nat, stopped: bool)
    requires tx.Shape() && !tx.active && (!tx.target.poisoned ==> tx.Idle()) && maximum <= MAX_DRAFT
    modifies tx, tx.draft, tx.draft.cache, tx.target.slotHidden
    ensures tx.Shape() && tx.fed == old(tx.fed) && tx.aborts == old(tx.aborts) && |proposals| == MAX_DRAFT && count <= maximum
    ensures status.Continue? ==> !tx.target.poisoned && tx.InFlight() && tx.rows == count + 1 && TokensValid(proposals[..count])
    ensures status.Continue? || status.BackendFailure? || status.InvalidPrediction?
    ensures !status.Continue? && (count > 0 || stopped) ==>
              status.InvalidPrediction? && !WithinVocabulary(proposals, count, options.vocabularySize)
    ensures status.Continue? ==>
              tx.fed != [] && DraftedBy(tx.OutsetOf(tx.fed, options.seedToken), options, maximum, proposals, count, stopped)
    ensures tx.target.healthy && tx.draft.dm.InRange() && !tx.target.poisoned && !tx.target.wholeRequestActive ==>
              tx.target.length + maximum < tx.target.capacity ==>
                options.seedToken < VOCABULARY <= options.vocabularySize ==> status.Continue?
  {
    hide TargetTransaction.InFlight, TargetTransaction.Idle, TargetTransaction.Shape, TargetTransaction.OutsetOf, DraftedBy;
    status, proposals, count, stopped := BackendFailure, seq(MAX_DRAFT, _ => 0), 0, false;
    TxHealth(tx);
    var ok := tx.Begin(maximum + 1);
    if ok {
      status, proposals, count, stopped := ProposeRound(tx, options, maximum);
    }
  }

  lemma TxHealth(tx: TargetTransaction)
    requires tx.Shape()
    ensures tx.target.healthy == tx.draft.healthy
  {
  }

  /** Closes a failed round: the backend is aborted exactly once. */
  method Fail(tx: TargetTransaction, so: RoundResult, status: RoundStatus) returns (r: RoundResult)
    requires tx.Shape()
    modifies tx`active, tx`verified, tx`seedCacheValid, tx`preparedTail, tx`aborts, tx.target`poisoned,
             tx.draft`poisoned, tx.draft`preparedBegin, tx.draft`preparedRows, tx.draft`preparedCommitted
    ensures tx.Shape() && tx.target.poisoned && !tx.active && tx.aborts == old(tx.aborts) + 1
    ensures r == so.(status := status, abortSucceeded := r.abortSucceeded)
  {
    var drained := tx.Abort();
    r := so.(status := status, abortSucceeded := drained);
  }

  /** The device and the two networks behave: no call fails and every prediction is a vocabulary index. */
  ghost predicate FaultFree(tx: TargetTransaction)
    reads tx, tx.target
  {
    && tx.target.healthy && tx.target.m.InVocabulary() && tx.draft.dm.InRange()
    && !tx.target.poisoned && !tx.target.wholeRequestActive
  }

  /** What a round is given: a backend between rounds, or one poisoned by an earlier abort. */
  ghost predicate Admitted(tx: TargetTransaction, o: Observer, context: seq<nat>)
    reads tx, o, tx.target, tx.draft, tx.inputs, tx.predictions, tx.draft.cache, tx.target.conv, tx.target.gdn,
          tx.target.kv, tx.target.slotHidden
  {
    && o.target == tx.target && tx.Shape() && !tx.active && (!tx.target.poisoned ==> tx.Idle())
    && context != [] && o.tokens != [] && tx.fed == context + o.tokens[..|o.tokens| - 1]
  }

  lemma NothingYet(m: Model, context: seq<nat>, tokens: seq<nat>, steps: seq<StepRecord>, position: nat)
    requires context != [] && tokens != []
    ensures GreedyFrom(m, context, tokens, |tokens|) && Recorded(steps, |steps|, tokens, |tokens|, position)
  {
  }

  lemma EmittedStarts(tx: TargetTransaction, o: Observer, context: seq<nat>)
    requires context != [] && o.tokens != [] && tx.fed == context + o.tokens[..|o.tokens| - 1]
    ensures Emitted(tx, o, context, |o.tokens|, |o.steps|)
  {
    NothingYet(tx.target.m, context, o.tokens, o.steps, |context| + |o.tokens| - 1);
  }

  /** Verification, with the round's own check that every prediction is a vocabulary index. */
  method VerifyRound(tx: TargetTransaction, options: RoundOptions, proposals: seq<nat>, count: nat)
    returns (status: RoundStatus, predictions: seq<nat>)
    requires tx.Shape() && tx.InFlight() && count <= |proposals|
    modifies tx, tx.target`handle, tx.target`length, tx.target`hidden, tx.target.conv, tx.target.gdn, tx.target.kv,
             tx.target.act, tx.target.mixed, tx.target.slotHidden, tx.predictions, tx.inputs, tx.draft`position,
             tx.draft`preparedBegin, tx.draft`preparedRows, tx.draft`preparedCommitted
    ensures tx.Shape() && tx.fed == old(tx.fed) && tx.aborts == old(tx.aborts)
    ensures status.Continue? || status.BackendFailure? || status.InvalidPrediction?
    ensures status.Continue? ==> tx.Staged() && tx.Reconciled() && tx.committed == 0 && tx.rows == count + 1 <= ROWS
    ensures status.Continue? ==> predictions == tx.predictions[..count + 1] && tx.inputs[0] == options.seedToken
    ensures status.Continue? ==> forall i :: 1 <= i <= count ==> tx.inputs[i] == proposals[i - 1]
    ensures tx.target.healthy && tx.target.m.InVocabulary() && !tx.target.wholeRequestActive ==>
              count + 1 == old(tx.rows) && options.seedToken < VOCABULARY && TokensValid(proposals[..count]) ==>
                options.vocabularySize == VOCABULARY ==> status.Continue?
  {
    hide Run, Step, Input, HiddenOf, HiddenAfter, Next, TargetTransaction.Reconciled, TargetTransaction.InFlight;
    tx.InFlightBounds();
    var ok;
    ok, predictions := tx.Verify(options.seedToken, proposals, count);
    if !ok {
      status := BackendFailure;
      return;
    }
    status := if exists i :: 0 <= i <= count && predictions[i] >= options.vocabularySize then InvalidPrediction
              else Continue;
  }

  /** The commits of one round, and the end of its transaction. */
  method CommitAndFinish(tx: TargetTransaction, o: Observer, options: RoundOptions, proposals: seq<nat>, count: nat,
                         predictions: seq<nat>, so: RoundResult, ghost context: seq<nat>)
    returns (ok: bool, r: RoundResult)
    requires so.output == [] && so.proposedTokens == count <= |proposals| && so.acceptedTokens == 0
    requires Committing(tx, o, options, so, true, context, |o.tokens|, |o.steps|)
    requires tx.rows == count + 1 <= ROWS == tx.inputs.Length == tx.predictions.Length
    requires predictions == tx.predictions[..count + 1]
    requires forall i :: 1 <= i <= count ==> tx.inputs[i] == proposals[i - 1]
    modifies o, tx`committed, tx`fed, tx`preparedTail, tx`seedCacheValid, tx`active, tx`verified, tx.target`hidden,
             tx.target`owner, tx.target`length, tx.target.conv, tx.target.gdn, tx.draft, tx.draft.cache
    ensures tx.Shape() && Emitted(tx, o, context, |old(o.tokens)|, |old(o.steps)|)
    ensures o.tokens == old(o.tokens) + r.output && o.emitted == old(o.emitted) + |r.output| && old(o.steps) <= o.steps
    ensures Uncut(o.tokens, |old(o.tokens)|, |o.tokens| - 1, options.stopToken, o.keep)
    ensures r.acceptedTokens <= count && |r.output| <= options.remainingOutput && r.SameProposals(so)
    ensures ok ==> tx.Idle() && !tx.active && StatusFits(r, o.tokens, options, o.keep) && Accounts(r) && r.Ok()
    ensures ok ==> Accepts(r.output, proposals, count, r.acceptedTokens)
    ensures tx.target.healthy ==> ok
  {
    hide Committing, TargetTransaction.Idle, TargetTransaction.Reconciled, TargetTransaction.Staged,
         TargetTransaction.Shape, Uncut, StatusFits, Accounts, Emitted, Accepts;
    ok, r := CommitRows(tx, o, options, proposals, count, predictions, so, context, |o.tokens|, |o.steps|);
    if ok {
      tx.StagedBounds();
      ok := tx.Finish();
    }
  }

  /** The second half of a round: verify the proposals, then commit and emit. */
  method VerifyAndCommit(tx: TargetTransaction, o: Observer, options: RoundOptions, proposals: seq<nat>, count: nat,
                         so: RoundResult, ghost context: seq<nat>) returns (r: RoundResult)
    requires o.target == tx.target && tx.Shape() && tx.InFlight() && tx.rows == count + 1 && |proposals| == MAX_DRAFT
    requires context != [] && o.tokens != [] && tx.fed == context + o.tokens[..|o.tokens| - 1]
    requires options.seedToken == o.tokens[|o.tokens| - 1] && options.Valid() && count < options.remainingOutput
    requires so.output == [] && so.proposedTokens == count && so.acceptedTokens == so.committedTargetRows == 0
    requires TokensValid(proposals[..count])
    modifies o, tx, tx.target, tx.draft, tx.inputs, tx.predictions, tx.draft.cache, tx.target.conv, tx.target.gdn,
             tx.target.kv, tx.target.slotHidden, tx.target.act, tx.target.mixed
    ensures tx.Shape() && !tx.active && r.acceptedTokens <= MAX_DRAFT && |r.output| <= options.remainingOutput
    ensures o.tokens == old(o.tokens) + r.output && o.emitted == old(o.emitted) + |r.output| && old(o.steps) <= o.steps
    ensures Emitted(tx, o, context, |old(o.tokens)|, |old(o.steps)|)
    ensures Uncut(o.tokens, |old(o.tokens)|, |o.tokens| - 1, options.stopToken, o.keep)
    ensures r.Ok() ==> tx.Idle() && !tx.target.poisoned && tx.aborts == old(tx.aborts)
    ensures r.Ok() ==> Accounts(r) && StatusFits(r, o.tokens, options, o.keep)
    ensures r.Ok() ==> Accepts(r.output, proposals, count, r.acceptedTokens)
    ensures !r.Ok() ==> tx.target.poisoned && tx.aborts == old(tx.aborts) + 1 && !r.status.InvalidOptions?
    ensures r.proposedTokens == count && r.eosFrontierStopped == so.eosFrontierStopped
    ensures r.verifiedRows == count + 1 || (r.verifiedRows == so.verifiedRows && r.status.BackendFailure? && r.output == [])
    ensures tx.target.wholeRequestActive == old(tx.target.wholeRequestActive)
    ensures tx.target.healthy && tx.target.m.InVocabulary() && !tx.target.wholeRequestActive ==>
              options.vocabularySize == VOCABULARY ==> r.Ok()
  {
    hide Run, Step, Input, HiddenOf, HiddenAfter, Next, TargetTransaction.Staged, TargetTransaction.Reconciled,
         TargetTransaction.InFlight, TargetTransaction.Shape, TargetTransaction.Idle, GreedyFrom, Recorded, Uncut, Accounts,
         StatusFits, Committing, Accepts, Emitted;
    tx.InFlightBounds();
    EmittedStarts(tx, o, context);
    NoneYet(o.tokens, options.stopToken, o.keep);
    var status, predictions := VerifyRound(tx, options, proposals, count);
    r := if status.BackendFailure? then so else so.(verifiedRows := count + 1);
    if status.Continue? {
      tx.StagedBounds();
      CommittingStarts(tx, o, options, r, context, |o.steps|);
      var ok;
      ok, r := CommitAndFinish(tx, o, options, proposals, count, predictions, r, context);
      status := if ok then Continue else BackendFailure;
    }
    if !status.Continue? {
      r := Fail(tx, r, status);
    }
  }

  /** One round.  Whatever the draft proposes, the emitted tokens are greedy, at most the last of them
      ends the generation, and the target has consumed exactly the tokens before the pending last one. */
  method RunRound(tx: TargetTransaction, o: Observer, options: RoundOptions, ghost context: seq<nat>)
    returns (r: RoundResult)
    requires Admitted(tx, o, context) && options.seedToken == o.tokens[|o.tokens| - 1]
    modifies o, tx, tx.target, tx.draft, tx.inputs, tx.predictions, tx.draft.cache, tx.target.conv, tx.target.gdn,
             tx.target.kv, tx.target.slotHidden, tx.target.act, tx.target.mixed
    ensures Admitted(tx, o, context) && r.acceptedTokens <= MAX_DRAFT && |r.output| <= options.remainingOutput
    ensures o.tokens == old(o.tokens) + r.output && o.emitted == old(o.emitted) + |r.output| && old(o.steps) <= o.steps
    ensures Emitted(tx, o, context, |old(o.tokens)|, |old(o.steps)|)
    ensures Uncut(o.tokens, |old(o.tokens)|, |o.tokens| - 1, options.stopToken, o.keep)
    ensures r.Ok() ==> tx.Idle() && !tx.target.poisoned && tx.aborts == old(tx.aborts)
    ensures r.Ok() ==> Accounts(r) && StatusFits(r, o.tokens, options, o.keep)
    ensures r.Ok() ==> options.Valid() && !old(tx.target.poisoned)
    ensures r.Ok() ==> old(tx.fed) != [] && Drafts(r, tx.OutsetOf(old(tx.fed), options.seedToken), options)
    ensures !r.Ok() && options.Valid() ==> tx.target.poisoned && tx.aborts == old(tx.aborts) + 1
    ensures !options.Valid() ==> r.status.InvalidOptions? && tx.aborts == old(tx.aborts) && r.output == []
    ensures r.verifiedRows == r.proposedTokens + 1 || (r.verifiedRows == 0 && !r.Ok() && r.output == [])
    ensures old(tx.target.poisoned) ==> r.output == [] && tx.target.poisoned
    ensures tx.target.wholeRequestActive == old(tx.target.wholeRequestActive)
    ensures old(FaultFree(tx)) && options.Valid() && options.vocabularySize == VOCABULARY ==>
              options.availableTargetRows == old(tx.target.capacity - tx.target.length) ==> r.Ok()
  {
    hide Run, Step, Input, HiddenOf, HiddenAfter, Next, TargetTransaction.Staged, TargetTransaction.Reconciled,
         TargetTransaction.InFlight, TargetTransaction.Shape, TargetTransaction.Idle, GreedyFrom, Recorded, Uncut,
         Accounts, StatusFits, Accepts, DraftedBy, Drafts, TargetTransaction.OutsetOf;
    EmittedStarts(tx, o, context);
    NoneYet(o.tokens, options.stopToken, o.keep);
    if !tx.target.poisoned {
      tx.IdleBounds();
    }
    r := RoundResult(InvalidOptions, [], 0, 0, 0, 0, false, true);
    if !options.Valid() {
      return;
    }
    var maximum := Maximum(options);
    var status, proposals, count, stopped := OpenRound(tx, options, maximum);
    r := r.(eosFrontierStopped := stopped, proposedTokens := count);
    if status.Continue? {
      ghost var from := tx.OutsetOf(tx.fed, options.seedToken);
      r := VerifyAndCommit(tx, o, options, proposals, count, r, context);
      if r.Ok() {
        DraftsWhenAccepted(r, from, options, proposals);
      }
    } else {
      r := Fail(tx, r, status);
    }
  }
}
