/**
  Whole requests: rounds until the output is complete, a stop token is emitted, or the client cancels.

  `Reference` is the engine's ordinary loop, which decodes one token at a time without a draft.
 */
module MtpService {
  import opened MtpTarget
  import opened MtpVerifyRows
  import opened MtpDraft
  import opened MtpTransaction
  import opened MtpRound

  /** One-token greedy decoding after `context`, of which `tokens` are already emitted: cut at the
      output limit, at a stop token, or at the token on which the client cancels. */
  ghost function Reference(m: Model, context: seq<nat>, tokens: seq<nat>, limit: nat, stop: nat,
                           keep: (nat, nat) -> bool): seq<nat>
    requires context != []
    decreases limit - |tokens|
  {
    if |tokens| >= limit then tokens else
      var token := Next(m, context + tokens);
      if token == stop || !keep(token, |tokens|) then tokens + [token]
      else Reference(m, context, tokens + [token], limit, stop, keep)
  }

  /** Greedy tokens none of which but the last ends the generation are a beginning of the reference,
      and the whole of it once the last one does or the limit is reached. */
  lemma {:induction false} GreedyIsReference(m: Model, context: seq<nat>, tokens: seq<nat>, n: nat, limit: nat,
                                             stop: nat, keep: (nat, nat) -> bool)
    requires context != [] && n <= |tokens| && (n < |tokens| ==> |tokens| <= limit)
    requires GreedyFrom(m, context, tokens, n) && Uncut(tokens, n, |tokens| - 1, stop, keep)
    ensures tokens <= Reference(m, context, tokens[..n], limit, stop, keep)
    ensures |tokens| >= limit || (n < |tokens| && !Uncut(tokens, n, |tokens|, stop, keep)) ==>
              tokens == Reference(m, context, tokens[..n], limit, stop, keep)
    ensures n <= |tokens| < limit && Uncut(tokens, n, |tokens|, stop, keep) ==>
              |tokens| < |Reference(m, context, tokens[..n], limit, stop, keep)|
    decreases |tokens| - n
  {
    hide Next;
    if n == |tokens| {
      assert tokens[..n] == tokens;
      ReferenceExtends(m, context, tokens, limit, stop, keep);
    } else {
      assert tokens[..n + 1] == tokens[..n] + [tokens[n]];
      if n + 1 < |tokens| {
        GreedyIsReference(m, context, tokens, n + 1, limit, stop, keep);
      } else {
        assert tokens[..n + 1] == tokens;
        ReferenceExtends(m, context, tokens, limit, stop, keep);
      }
    }
  }

  lemma {:induction false} ReferenceExtends(m: Model, context: seq<nat>, tokens: seq<nat>, limit: nat, stop: nat,
                                            keep: (nat, nat) -> bool)
    requires context != []
    ensures tokens <= Reference(m, context, tokens, limit, stop, keep)
    ensures |tokens| < limit ==> |tokens| < |Reference(m, context, tokens, limit, stop, keep)|
    decreases limit - |tokens|
  {
    hide Next;
    if |tokens| < limit {
      ReferenceExtends(m, context, tokens + [Next(m, context + tokens)], limit, stop, keep);
    }
  }

  /** The reference begins with the greedy first token: it is all of it if it ends the generation, and the
      rest is the reference from it otherwise. */
  lemma FirstTokenIsReference(m: Model, prompt: seq<nat>, limit: nat, stop: nat, keep: (nat, nat) -> bool)
    requires prompt != [] && limit > 0
    ensures var first := Next(m, prompt);
            Reference(m, prompt, [], limit, stop, keep) ==
            if first == stop || !keep(first, 0) then [first] else Reference(m, prompt, [first], limit, stop, keep)
  {
    hide Next;
    assert prompt + [] == prompt && [] + [Next(m, prompt)] == [Next(m, prompt)];
  }

  lemma GreedyJoin(m: Model, context: seq<nat>, before: seq<nat>, tokens: seq<nat>, from: nat)
    requires GreedyFrom(m, context, before, from) && before <= tokens && from <= |before|
    requires GreedyFrom(m, context, tokens, |before|)
    ensures GreedyFrom(m, context, tokens, from)
  {
    hide Next;
    forall i | from <= i < |tokens|
      ensures tokens[i] == Next(m, context + tokens[..i])
    {
      if i < |before| {
        assert tokens[..i] == before[..i];
      }
    }
  }

  lemma RecordedJoin(before: seq<StepRecord>, steps: seq<StepRecord>, firstStep: nat, earlier: seq<nat>, tokens: seq<nat>,
                     from: nat, position: nat)
    requires Recorded(before, firstStep, earlier, from, position) && before <= steps && earlier <= tokens
    requires Recorded(steps, |before|, tokens, |earlier|, position + |earlier| - from)
    ensures Recorded(steps, firstStep, tokens, from, position)
  {
    forall i | from <= i < |tokens|
      ensures steps[firstStep + (i - from)] == StepRecord(position + (i - from), tokens[i - 1], tokens[i])
    {
      if i < |earlier| {
        assert steps[firstStep + (i - from)] == before[firstStep + (i - from)];
      } else {
        assert steps[|before| + (i - |earlier|)] == StepRecord(position + |earlier| - from + (i - |earlier|), tokens[i - 1], tokens[i]);
      }
    }
  }

  function Sum(counts: seq<nat>): nat {
    if counts == [] then 0 else counts[0] + Sum(counts[1..])
  }

  datatype StopReason = MaxTokens | ImEnd | Cancelled

  /** Why a generation that emitted the tokens from `from` on ended: on the stop token, on a token the client
      refused, because the client's cancellation was polled, or at the limit. */
  function StopOf(tokens: seq<nat>, from: nat, limit: nat, stop: nat, keep: (nat, nat) -> bool): StopReason {
    if from < |tokens| && tokens[|tokens| - 1] == stop then ImEnd
    else if from < |tokens| && !keep(tokens[|tokens| - 1], |tokens| - 1) then StopReason.Cancelled
    else if |tokens| < limit then StopReason.Cancelled
    else MaxTokens
  }

  lemma StopFits(tokens: seq<nat>, from: nat, limit: nat, stop: nat, keep: (nat, nat) -> bool)
    ensures Uncut(tokens, from, |tokens|, stop, keep) ==>
              && StopOf(tokens, from, limit, stop, keep) == (if |tokens| < limit then StopReason.Cancelled else MaxTokens)
              && Uncut(tokens, from, |tokens| - 1, stop, keep)
    ensures Uncut(tokens, from, |tokens| - 1, stop, keep) && !Uncut(tokens, from, |tokens|, stop, keep) ==>
              && tokens != []
              && StopOf(tokens, from, limit, stop, keep) == if tokens[|tokens| - 1] == stop then ImEnd else StopReason.Cancelled
  {
  }

  class Service {
    const tx: TargetTransaction
    const configured: nat
    var rounds: nat
    var proposed: nat
    var accepted: nat
    var verified: nat
    var eosFrontierStops: nat
    var acceptedByPosition: seq<nat>
    var initialized: bool
    var cancelled: bool
    var failed: bool
    ghost var lastEndedAccepted: bool

    constructor (tx: TargetTransaction, configured: nat)
      requires configured == 2 || configured == 3
      ensures this.tx == tx && this.configured == configured && ReportReset() && !initialized
    {
      this.tx, this.configured := tx, configured;
      rounds, proposed, accepted, verified, eosFrontierStops, acceptedByPosition := 0, 0, 0, 0, 0, [0, 0, 0];
      initialized, cancelled, failed, lastEndedAccepted := false, false, false, false;
    }

    /** No round has been booked, and nothing has gone wrong. */
    ghost predicate ReportReset()
      reads this
    {
      && rounds == proposed == accepted == verified == eosFrontierStops == 0 && acceptedByPosition == [0, 0, 0]
      && !cancelled && !failed && !lastEndedAccepted
    }

    /** A new request begins with an empty report, whatever the last one left. */
    method ResetReport()
      modifies this
      ensures ReportReset() && !initialized
    {
      rounds, proposed, accepted, verified, eosFrontierStops, acceptedByPosition := 0, 0, 0, 0, 0, [0, 0, 0];
      initialized, cancelled, failed, lastEndedAccepted := false, false, false, false;
    }

    /** The accounting of the rounds so far, which emitted `emitted` tokens. */
    ghost predicate Books(emitted: nat)
      reads this`rounds, this`proposed, this`accepted, this`verified, this`acceptedByPosition, this`lastEndedAccepted
    {
      && accepted + rounds == emitted + (if lastEndedAccepted then 1 else 0)
      && verified == proposed + rounds && accepted <= proposed
      && |acceptedByPosition| == MAX_DRAFT && Sum(acceptedByPosition) == accepted
      && acceptedByPosition[0] >= acceptedByPosition[1] >= acceptedByPosition[2]
    }

    /** No round was without a draft: each proposed a token or stopped before the stop token, except a last round
        with room for one token only. */
    ghost predicate EachDrafted(full: bool)
      reads this`rounds, this`proposed, this`eosFrontierStops
    {
      rounds <= proposed + eosFrontierStops + if full then 1 else 0
    }

    /** Adds a round to the report. */
    method Book(r: RoundResult)
      requires |acceptedByPosition| == MAX_DRAFT && r.acceptedTokens <= MAX_DRAFT
      modifies this`rounds, this`proposed, this`accepted, this`verified, this`eosFrontierStops, this`acceptedByPosition,
               this`lastEndedAccepted
      ensures eosFrontierStops == old(eosFrontierStops) + if r.eosFrontierStopped then 1 else 0
      ensures rounds == old(rounds) + 1 && proposed == old(proposed) + r.proposedTokens
      ensures accepted == old(accepted) + r.acceptedTokens && verified == old(verified) + r.verifiedRows
      ensures |acceptedByPosition| == MAX_DRAFT && lastEndedAccepted == (|r.output| == r.acceptedTokens)
      ensures forall j :: 0 <= j < MAX_DRAFT ==>
                acceptedByPosition[j] == old(acceptedByPosition[j]) + if j < r.acceptedTokens then 1 else 0
      ensures Accounts(r) && old(Books(rounds + accepted) && !lastEndedAccepted) ==>
                Books(old(rounds + accepted) + |r.output|)
    {
      rounds, proposed, accepted := rounds + 1, proposed + r.proposedTokens, accepted + r.acceptedTokens;
      verified := verified + r.verifiedRows;
      eosFrontierStops := eosFrontierStops + if r.eosFrontierStopped then 1 else 0;
      for i := 0 to r.acceptedTokens
        modifies this`acceptedByPosition
        invariant |acceptedByPosition| == MAX_DRAFT
        invariant forall j :: 0 <= j < MAX_DRAFT ==>
                    acceptedByPosition[j] == old(acceptedByPosition[j]) + if j < i then 1 else 0
      {
        acceptedByPosition := acceptedByPosition[i := acceptedByPosition[i] + 1];
      }
      SumOfThree(old(acceptedByPosition));
      SumOfThree(acceptedByPosition);
      lastEndedAccepted := |r.output| == r.acceptedTokens;
    }

    lemma SumOfThree(s: seq<nat>)
      requires |s| == 3
      ensures Sum(s) == s[0] + s[1] + s[2]
    {
      assert Sum(s[2..]) == s[2] + Sum(s[2..][1..]) && s[2..][1..] == [];
      assert Sum(s[1..]) == s[1] + Sum(s[1..][1..]) && s[1..][1..] == s[2..];
    }

    /** Takes over the prompt; a cancelled or failed takeover is reported and nothing is decoded. */
    method Initialize(prompt: seq<nat>, residual: seq<Activation>, routeReady: bool, cancel: bool) returns (ok: bool)
      requires tx.Shape() && (!tx.active && |prompt| == tx.target.length > 0 ==> tx.Prefilled(prompt, residual))
      modifies this`initialized, this`cancelled, this`failed, tx, tx.target`hidden, tx.target`poisoned, tx.draft,
               tx.draft.cache
      ensures tx.Shape() && initialized == ok && (ok ==> tx.Idle() && tx.fed == prompt)
      ensures ok ==> cancelled == old(cancelled) && failed == old(failed)
      ensures !ok ==> cancelled != failed
      ensures tx.target.healthy && old(!tx.active && !tx.target.poisoned) && !tx.target.wholeRequestActive ==>
                tx.target.owner == 0 && |prompt| == tx.target.length > 0 && routeReady && TokensValid(prompt) && !cancel
                ==> ok
    {
      hide Run, Step, Input, HiddenOf, HiddenAfter, TargetTransaction.Idle, TargetTransaction.Shape,
           TargetTransaction.Prefilled;
      ok := tx.InitializePrefill(prompt, residual, routeReady, cancel);
      initialized := ok;
      if !ok {
        cancelled := Poll(cancel);
        failed := !cancelled;
      }
    }

    /** A prompt taken over and its first token are what decoding starts from; the report is still empty. */
    lemma TakenOverIsAdmitted(o: Observer, prompt: seq<nat>)
      requires tx.Idle() && tx.fed == prompt && prompt != [] && o.target == tx.target && |o.tokens| == 1
      ensures Admitted(tx, o, prompt)
    {
      assert prompt + o.tokens[..0] == prompt;
    }

    /** The options of the next round. */
    function NextRound(o: Observer, limit: nat, stop: nat): (options: RoundOptions)
      requires o.tokens != [] && |o.tokens| < limit && o.target == tx.target && tx.target.length <= tx.target.capacity
      reads this, o, tx, tx.target
      ensures options.seedToken == o.tokens[|o.tokens| - 1] && options.stopToken == stop
      ensures options.remainingOutput == limit - |o.tokens| && options.vocabularySize == VOCABULARY
      ensures options.availableTargetRows == tx.target.capacity - tx.target.length
      ensures options.draftLength == OutputTailBudget(configured, options.remainingOutput)
      ensures options.eosFrontier && options.confidenceLookahead
      ensures options.Valid() <==> configured in {2, 3} && options.seedToken < VOCABULARY && stop < VOCABULARY
                                   && options.seedToken != stop && tx.target.length + limit <= tx.target.capacity + |o.tokens|
    {
      var remaining := limit - |o.tokens|;
      RoundOptions(OutputTailBudget(configured, remaining), o.tokens[|o.tokens| - 1], remaining,
                   tx.target.capacity - tx.target.length, VOCABULARY, stop, true, true)
    }

    /** A round may follow, and its options are valid. */
    ghost predicate Drafting(o: Observer, limit: nat, stop: nat)
      reads this, o, tx, tx.target
    {
      && o.tokens != [] && |o.tokens| < limit && o.target == tx.target && tx.target.length <= tx.target.capacity
      && NextRound(o, limit, stop).Valid()
    }

    /** What a round's status says about the tokens so far. */
    lemma RoundOutcome(r: RoundResult, before: seq<nat>, tokens: seq<nat>, options: RoundOptions, from: nat,
                       limit: nat, keep: (nat, nat) -> bool)
      requires tokens == before + r.output && from <= |before| && before != []
      requires Uncut(before, from, |before|, options.stopToken, keep)
      requires Uncut(tokens, |before|, |tokens| - 1, options.stopToken, keep)
      requires options.remainingOutput == limit - |before| && |before| < limit
      ensures Uncut(tokens, from, |tokens| - 1, options.stopToken, keep)
      ensures r.Ok() && StatusFits(r, tokens, options, keep) && Accounts(r) ==>
                && |before| < |tokens| <= limit && (r.status.Length? ==> |tokens| == limit)
                && (Uncut(tokens, from, |tokens|, options.stopToken, keep) <==> r.status.Continue? || r.status.Length?)
                && (r.status.Stop? <==> tokens[|tokens| - 1] == options.stopToken)
                && (r.status.Continue? || r.status.Length? ==> |r.output| != r.acceptedTokens)
    {
    }

    lemma AdmittedFacts(o: Observer, prompt: seq<nat>)
      requires Admitted(tx, o, prompt)
      ensures o.target == tx.target && o.tokens != [] && prompt != [] && tx.target.length <= tx.target.capacity
      ensures !tx.target.poisoned ==> tx.target.length == |prompt| + |o.tokens| - 1
      ensures Emitted(tx, o, prompt, |o.tokens|, |o.steps|)
    {
      NothingYet(tx.target.m, prompt, o.tokens, o.steps, |prompt| + |o.tokens| - 1);
      if !tx.target.poisoned {
        tx.IdleBounds();
      }
    }

    /** A request under way: what holds between rounds, whether or not the device has failed. */
    ghost predicate Underway(o: Observer, prompt: seq<nat>, first: seq<nat>, firstStep: nat, limit: nat)
      reads this`acceptedByPosition, o, tx, tx.target, tx.draft, tx.inputs, tx.predictions, tx.draft.cache, tx.target.conv,
            tx.target.gdn, tx.target.kv, tx.target.slotHidden
    {
      && Admitted(tx, o, prompt) && first != [] && first <= o.tokens && o.emitted == |o.tokens| - |first|
      && Emitted(tx, o, prompt, |first|, firstStep) && |acceptedByPosition| == MAX_DRAFT
      && (|first| < |o.tokens| ==> |o.tokens| <= limit)
    }

    /** One turn of the decoding loop. */
    method DecodeRound(o: Observer, limit: nat, stop: nat, ghost prompt: seq<nat>, ghost first: seq<nat>,
                       ghost firstStep: nat) returns (r: RoundResult)
      requires Underway(o, prompt, first, firstStep, limit) && |o.tokens| < limit
      requires Uncut(o.tokens, |first|, |o.tokens|, stop, o.keep)
      modifies this`rounds, this`proposed, this`accepted, this`verified, this`eosFrontierStops, this`acceptedByPosition,
               this`lastEndedAccepted, o, tx, tx.target, tx.draft, tx.inputs, tx.predictions, tx.draft.cache,
               tx.target.conv, tx.target.gdn, tx.target.kv, tx.target.slotHidden, tx.target.act, tx.target.mixed
      ensures Underway(o, prompt, first, firstStep, limit)
      ensures Uncut(o.tokens, |first|, |o.tokens| - 1, stop, o.keep)
      ensures r.Ok() ==> !tx.target.poisoned && |old(o.tokens)| < |o.tokens|
      ensures r.Ok() ==> (r.status.Length? ==> |o.tokens| == limit)
      ensures r.Ok() ==> old(tx.fed != [] && Drafting(o, limit, stop))
                         && Drafts(r, tx.OutsetOf(old(tx.fed), old(o.tokens[|o.tokens| - 1])), old(NextRound(o, limit, stop)))
      ensures r.Ok() && old(EachDrafted(false)) ==> EachDrafted(|o.tokens| >= limit)
      ensures r.Ok() ==> (Uncut(o.tokens, |first|, |o.tokens|, stop, o.keep) <==> r.status.Continue? || r.status.Length?)
      ensures r.Ok() ==> (r.status.Stop? <==> o.tokens[|o.tokens| - 1] == stop)
      ensures r.Ok() && old(Books(o.emitted) && !lastEndedAccepted) ==> Books(o.emitted)
      ensures r.Ok() && (r.status.Continue? || r.status.Length?) ==> !lastEndedAccepted
      ensures tx.target.wholeRequestActive == old(tx.target.wholeRequestActive)
      ensures old(tx.target.poisoned) ==> !r.Ok() && o.tokens == old(o.tokens)
      ensures old(FaultFree(tx)) && stop < VOCABULARY && configured in {2, 3} && |prompt| + limit - 1 <= tx.target.capacity
              ==> old(o.tokens[|o.tokens| - 1]) < VOCABULARY && old(o.tokens[|o.tokens| - 1]) != stop ==> r.Ok()
    {
      hide Run, Step, Input, HiddenOf, HiddenAfter, Next, TargetTransaction.Idle, TargetTransaction.Shape,
           GreedyFrom, Recorded, Uncut, Accounts, StatusFits, Admitted, Drafts, TargetTransaction.OutsetOf;
      ghost var before, steps := o.tokens, o.steps;
      AdmittedFacts(o, prompt);
      var options := NextRound(o, limit, stop);
      ghost var from := tx.OutsetOf(tx.fed, options.seedToken);
      r := RunRound(tx, o, options, prompt);
      GreedyJoin(tx.target.m, prompt, before, o.tokens, |first|);
      RecordedJoin(steps, o.steps, firstStep, before, o.tokens, |first|, |prompt| + |first| - 1);
      RoundOutcome(r, before, o.tokens, options, |first|, limit, o.keep);
      if r.Ok() {
        RoundsDraft(r, from, options);
      }
      Book(r);
    }

    /** The emitted tokens after the first `n`, when no token but the last may end the generation. */
    lemma ReferenceSoFar(o: Observer, prompt: seq<nat>, first: seq<nat>, limit: nat, stop: nat, firstStep: nat)
      requires Underway(o, prompt, first, firstStep, limit)
      requires Uncut(o.tokens, |first|, |o.tokens| - 1, stop, o.keep)
      ensures Admitted(tx, o, prompt) && first <= o.tokens && o.emitted == |o.tokens| - |first|
      ensures o.tokens <= Reference(tx.target.m, prompt, first, limit, stop, o.keep)
      ensures |o.tokens| >= limit || !Uncut(o.tokens, |first|, |o.tokens|, stop, o.keep) ==>
                o.tokens == Reference(tx.target.m, prompt, first, limit, stop, o.keep)
      ensures Recorded(o.steps, firstStep, o.tokens, |first|, |prompt| + |first| - 1)
    {
      hide Run, Step, Input, HiddenOf, HiddenAfter, Next, TargetTransaction.Idle, TargetTransaction.Shape;
      assert o.tokens[..|first|] == first;
      GreedyIsReference(tx.target.m, prompt, o.tokens, |first|, limit, stop, o.keep);
    }

    /** A token emitted by a sane target is a vocabulary index. */
    lemma LastInVocabulary(o: Observer, prompt: seq<nat>, first: seq<nat>, firstStep: nat, limit: nat)
      requires Underway(o, prompt, first, firstStep, limit)
      ensures first != [] && o.tokens != [] && |first| <= |o.tokens|
      ensures |o.tokens| == |first| ==> o.tokens == first
      ensures tx.target.m.InVocabulary() && |first| < |o.tokens| ==> o.tokens[|o.tokens| - 1] < VOCABULARY
    {
      hide Run, Step, Input, HiddenOf, HiddenAfter, TargetTransaction.Idle, TargetTransaction.Shape;
    }

    /** A request still `running`, or ended for `reason` without a failure. */
    ghost predicate Decoding(o: Observer, prompt: seq<nat>, first: seq<nat>, firstStep: nat, limit: nat, stop: nat,
                             cancel: bool, running: bool, reason: StopReason)
      reads this, o, tx, tx.target, tx.draft, tx.inputs, tx.predictions, tx.draft.cache, tx.target.conv,
            tx.target.gdn, tx.target.kv, tx.target.slotHidden
    {
      && Underway(o, prompt, first, firstStep, limit) && Books(o.emitted) && !failed
      && Uncut(o.tokens, |first|, if running then |o.tokens| else |o.tokens| - 1, stop, o.keep)
      && EachDrafted(|o.tokens| >= limit) && (running ==> !lastEndedAccepted) && (running <==> reason.MaxTokens?)
      && (!running ==> !Uncut(o.tokens, |first|, |o.tokens|, stop, o.keep) || (cancel && reason.Cancelled?))
      && (!running ==> reason == StopOf(o.tokens, |first|, limit, stop, o.keep)) && (cancelled <==> reason.Cancelled?)
    }

    /** A sane device and a request that fits: no round fails. */
    ghost predicate Sane(o: Observer, prompt: seq<nat>, limit: nat, stop: nat)
      requires o.tokens != []
      reads this, o, tx, tx.target
    {
      && FaultFree(tx) && stop < VOCABULARY && configured in {2, 3} && |prompt| + limit - 1 <= tx.target.capacity
      && o.tokens[|o.tokens| - 1] < VOCABULARY && o.tokens[|o.tokens| - 1] != stop
    }

    /** One turn of the decoding loop: the client's cancellation is polled, then a round is run. */
    method DecodeTurn(o: Observer, limit: nat, stop: nat, cancel: bool, ghost prompt: seq<nat>, ghost first: seq<nat>,
                      ghost firstStep: nat) returns (ok: bool, running: bool, reason: StopReason)
      requires Decoding(o, prompt, first, firstStep, limit, stop, cancel, true, MaxTokens)
      requires o.tokens != [] && |o.tokens| < limit
      modifies this, o, tx, tx.target, tx.draft, tx.inputs, tx.predictions, tx.draft.cache,
               tx.target.conv, tx.target.gdn, tx.target.kv, tx.target.slotHidden, tx.target.act, tx.target.mixed
      ensures ok ==> Decoding(o, prompt, first, firstStep, limit, stop, cancel, running, reason)
      ensures !ok ==> failed && Underway(o, prompt, first, firstStep, limit)
      ensures !ok ==> Uncut(o.tokens, |first|, |o.tokens| - 1, stop, o.keep)
      ensures ok && running ==> |old(o.tokens)| < |o.tokens|
      ensures old(tx.target.poisoned) ==> o.tokens == old(o.tokens) && (ok ==> !running)
      ensures old(Sane(o, prompt, limit, stop)) ==> ok && (running ==> o.tokens != [] && Sane(o, prompt, limit, stop))
    {
      hide Run, Step, Input, HiddenOf, HiddenAfter, Next, Underway, Books, Uncut, EachDrafted, StopOf, Drafts, Drafting,
           TargetTransaction.OutsetOf;
      ok, running, reason := true, true, MaxTokens;
      StopFits(o.tokens, |first|, limit, stop, o.keep);
      LastInVocabulary(o, prompt, first, firstStep, limit);
      var stopNow := Poll(cancel);
      if stopNow {
        reason, cancelled, running := StopReason.Cancelled, true, false;
        return;
      }
      var r := DecodeRound(o, limit, stop, prompt, first, firstStep);
      LastInVocabulary(o, prompt, first, firstStep, limit);
      StopFits(o.tokens, |first|, limit, stop, o.keep);
      if !r.Ok() {
        failed, ok := true, false;
      } else if r.status.Stop? {
        reason, running := ImEnd, false;
      } else if r.status.Cancelled? {
        reason, cancelled, running := StopReason.Cancelled, true, false;
      }
    }

    lemma DecodingFacts(o: Observer, prompt: seq<nat>, first: seq<nat>, firstStep: nat, limit: nat, stop: nat,
                        cancel: bool, running: bool, reason: StopReason)
      requires Decoding(o, prompt, first, firstStep, limit, stop, cancel, running, reason)
      ensures Underway(o, prompt, first, firstStep, limit) && Books(o.emitted) && !failed && o.tokens != []
      ensures EachDrafted(|o.tokens| >= limit)
      ensures Uncut(o.tokens, |first|, |o.tokens| - 1, stop, o.keep) && (running ==> !lastEndedAccepted)
      ensures running <==> reason.MaxTokens?
      ensures !running ==> !Uncut(o.tokens, |first|, |o.tokens|, stop, o.keep) || (cancel && reason.Cancelled?)
      ensures !running || |o.tokens| >= limit ==> reason == StopOf(o.tokens, |first|, limit, stop, o.keep)
      ensures cancelled <==> reason.Cancelled?
    {
      hide Run, Step, Input, HiddenOf, HiddenAfter, Next, Books, EachDrafted, Uncut, StopOf;
      StopFits(o.tokens, |first|, limit, stop, o.keep);
    }

    /** The whole request after its first token.  With a draft of any quality the emitted tokens are a
        beginning of one-token greedy decoding, and all of it once a token is the stop token, is one the
        client cancels on, or reaches the limit; on success only a cancellation polled between two rounds
        leaves it short. */
    method Decode(o: Observer, limit: nat, stop: nat, cancel: bool, ghost prompt: seq<nat>)
      returns (ok: bool, reason: StopReason)
      requires Admitted(tx, o, prompt) && ReportReset() && o.emitted == 0
      modifies this, o, tx, tx.target, tx.draft, tx.inputs, tx.predictions, tx.draft.cache,
               tx.target.conv, tx.target.gdn, tx.target.kv, tx.target.slotHidden, tx.target.act, tx.target.mixed
      ensures Admitted(tx, o, prompt) && old(o.tokens) <= o.tokens && o.emitted == |o.tokens| - |old(o.tokens)|
      ensures o.tokens <= Reference(tx.target.m, prompt, old(o.tokens), limit, stop, o.keep)
      ensures ok ==> if Uncut(o.tokens, |old(o.tokens)|, |o.tokens|, stop, o.keep) && |o.tokens| < limit
                     then cancel && reason.Cancelled?
                     else o.tokens == Reference(tx.target.m, prompt, old(o.tokens), limit, stop, o.keep)
      ensures ok ==> reason == StopOf(o.tokens, |old(o.tokens)|, limit, stop, o.keep) && (cancelled <==> reason.Cancelled?)
      ensures ok && reason.MaxTokens? ==> !lastEndedAccepted
      ensures Recorded(o.steps, |old(o.steps)|, o.tokens, |old(o.tokens)|, |prompt| + |old(o.tokens)| - 1)
      ensures ok ==> Books(o.emitted) && EachDrafted(|o.tokens| >= limit) && !failed
      ensures !ok ==> failed
      ensures old(tx.target.poisoned) ==> o.tokens == old(o.tokens)
      ensures old(FaultFree(tx)) && stop < VOCABULARY && configured in {2, 3} && |prompt| + limit - 1 <= tx.target.capacity
              ==> old(o.tokens[|o.tokens| - 1]) < VOCABULARY && old(o.tokens[|o.tokens| - 1]) != stop ==> ok
    {
      hide Run, Step, Input, HiddenOf, HiddenAfter, Next, Reference, TargetTransaction.Idle, TargetTransaction.Shape,
           Recorded, Admitted, GreedyFrom, Emitted;
      AdmittedFacts(o, prompt);
      ghost var first, firstStep := o.tokens, |o.steps|;
      assert Books(0) by {
        SumOfThree(acceptedByPosition);
      }
      ok, reason := true, MaxTokens;
      var running := true;
      ghost var sane := Sane(o, prompt, limit, stop);
      assert Decoding(o, prompt, first, firstStep, limit, stop, cancel, running, reason);
      hide Service.Books, Service.Underway, Service.Decoding, Service.Sane;
      while running && |o.tokens| < limit
        invariant o.tokens != [] && Decoding(o, prompt, first, firstStep, limit, stop, cancel, running, reason)
        invariant sane && running ==> Sane(o, prompt, limit, stop)
        invariant old(tx.target.poisoned) ==> o.tokens == first && (running ==> tx.target.poisoned)
        decreases if running then 1 else 0, limit - |o.tokens|
      {
        ok, running, reason := DecodeTurn(o, limit, stop, cancel, prompt, first, firstStep);
        if !ok {
          ReferenceSoFar(o, prompt, first, limit, stop, firstStep);
          return;
        }
        DecodingFacts(o, prompt, first, firstStep, limit, stop, cancel, running, reason);
      }
      DecodingFacts(o, prompt, first, firstStep, limit, stop, cancel, running, reason);
      ReferenceSoFar(o, prompt, first, limit, stop, firstStep);
    }

    /** A request from its prompt on: the report is reset, the prompt taken over, the token predicted by
        the prompt's processing emitted, and the rest decoded in rounds.  The tokens are those of one-token
        greedy decoding from the prompt alone. */
    method Generate(prompt: seq<nat>, residual: seq<Activation>, routeReady: bool, predicted: nat, limit: nat, stop: nat,
                    keep: (nat, nat) -> bool, cancel: bool) returns (ok: bool, reason: StopReason, tokens: seq<nat>)
      requires tx.Shape() && (!tx.active && |prompt| == tx.target.length > 0 ==> tx.Prefilled(prompt, residual))
      requires limit > 0 && prompt != [] && predicted == Next(tx.target.m, prompt)
      modifies this, tx, tx.target, tx.draft, tx.inputs, tx.predictions, tx.draft.cache,
               tx.target.conv, tx.target.gdn, tx.target.kv, tx.target.slotHidden, tx.target.act, tx.target.mixed
      ensures tokens <= Reference(tx.target.m, prompt, [], limit, stop, keep)
      ensures ok ==> tokens != []
      ensures ok ==> if Uncut(tokens, 0, |tokens|, stop, keep) && |tokens| < limit then cancel && reason.Cancelled?
                     else tokens == Reference(tx.target.m, prompt, [], limit, stop, keep)
      ensures ok ==> reason == StopOf(tokens, 0, limit, stop, keep) && !failed
      ensures ok ==> (cancelled <==> reason.Cancelled? && keep(predicted, 0))
      ensures !ok ==> failed || cancelled
      ensures old(FaultFree(tx) && !tx.active && tx.target.owner == 0 && |prompt| == tx.target.length) && routeReady ==>
                TokensValid(prompt) && stop < VOCABULARY && configured in {2, 3} && !cancel ==>
                  |prompt| + limit - 1 <= tx.target.capacity ==> ok
    {
      hide Run, Step, Input, HiddenOf, HiddenAfter, Reference, TargetTransaction.Idle, TargetTransaction.Shape,
           TargetTransaction.Prefilled, Admitted, Recorded, EachDrafted, Books;
      ResetReport();
      reason, tokens := MaxTokens, [];
      ok := Initialize(prompt, residual, routeReady, cancel);
      if !ok {
        return;
      }
      var o := new Observer(tx.target, keep, predicted);
      FirstTokenIsReference(tx.target.m, prompt, limit, stop, keep);
      var proceed := keep(predicted, 0);
      if predicted == stop {
        reason := ImEnd;
      } else if !proceed {
        reason := StopReason.Cancelled;
      } else {
        TakenOverIsAdmitted(o, prompt);
        tx.IdleBounds();
        ok, reason := Decode(o, limit, stop, cancel, prompt);
      }
      tokens := o.tokens;
      assert tokens[0] == predicted;
    }
  }
}
