/**
  Evidence of the route a prefill request took: per operator role, how often each kind of
  implementation completed, added up layer pass by layer pass.
 */
module RouteEvidence {
  import opened Common

  const ROLES: nat := 7
  const BOUNDARIES: nat := 5

  /** The logical operators of one full pass: gate+up, down, QKV, Z, output projection, attention, GDN. */
  function Expected(role: nat): nat
    requires role < ROLES
  {
    [64, 64, 96, 48, 64, 16, 48][role]
  }

  /** A terminal prefix leaves out one invocation of these four. */
  predicate Elided(role: nat) {
    role == 0 || role == 1 || role == 4 || role == 5
  }

  /** How often a role is invoked in one layer: a linear layer has one QKV, one Z and one GDN, a full-attention layer
      has Q, K and V and one attention; both have gate+up, down and the output projection. */
  function InLayer(role: nat, layer: nat): nat
    requires role < ROLES
  {
    var full := layer % 4 == 3;
    if role == 0 || role == 1 || role == 4 then 1
    else if role == 2 then (if full then 3 else 1)
    else if role == 5 then (if full then 1 else 0)
    else if full then 0 else 1
  }

  function InLayers(role: nat, layers: nat): nat
    requires role < ROLES
  {
    if layers == 0 then 0 else InLayers(role, layers - 1) + InLayer(role, layers - 1)
  }

  /** The schedule repeats every four layers. */
  lemma {:induction false} FourLayers(role: nat, groups: nat)
    requires role < ROLES
    ensures InLayers(role, 4 * groups) == groups * InLayers(role, 4)
  {
    hide InLayers, InLayer;
    if groups == 0 {
      NoLayers(role);
    } else {
      FourLayers(role, groups - 1);
      NextFour(role, 4 * (groups - 1));
      var four := InLayers(role, 4);
      assert groups * four == (groups - 1) * four + four;
    }
  }

  lemma NoLayers(role: nat)
    requires role < ROLES
    ensures InLayers(role, 0) == 0
  {
  }

  lemma NextFour(role: nat, n: nat)
    requires role < ROLES && n % 4 == 0
    ensures InLayers(role, n + 4) == InLayers(role, n) + InLayers(role, 4)
  {
    assert InLayer(role, n) == InLayer(role, 0) && InLayer(role, n + 1) == InLayer(role, 1);
    assert InLayer(role, n + 2) == InLayer(role, 2) && InLayer(role, n + 3) == InLayer(role, 3);
    OneMoreLayer(role, n);
    OneMoreLayer(role, n + 1);
    OneMoreLayer(role, n + 2);
    OneMoreLayer(role, n + 3);
    OneMoreLayer(role, 0);
    OneMoreLayer(role, 1);
    OneMoreLayer(role, 2);
    OneMoreLayer(role, 3);
    assert InLayers(role, 0) == 0;
    hide InLayer, InLayers;
  }

  lemma OneMoreLayer(role: nat, n: nat)
    requires role < ROLES
    ensures InLayers(role, n + 1) == InLayers(role, n) + InLayer(role, n)
  {
  }

  /** The expected counts are those of the hybrid schedule of 64 layers; a terminal prefix leaves out what the last layer,
      a full-attention one, invokes once. */
  lemma ExpectedOfSchedule(role: nat)
    requires role < ROLES
    ensures Expected(role) == InLayers(role, LAYER_COUNT) && (Elided(role) <==> InLayer(role, LAYER_COUNT - 1) == 1)
  {
    FourLayers(role, 16);
    OneMoreLayer(role, 0);
    OneMoreLayer(role, 1);
    OneMoreLayer(role, 2);
    OneMoreLayer(role, 3);
  }

  function Due(role: nat, elision: bool): nat
    requires role < ROLES
  {
    Expected(role) - if elision && Elided(role) then 1 else 0
  }

  datatype Error =
    | NoError | InactiveRequest | InvalidRole | InvalidDisposition | InvalidBoundary | CounterOverflow
    | IncompleteTile | UnexpectedLayerPassCount | ForbiddenRoute

  datatype Counts = Counts(production: nat, fallback: nat, forbidden: nat) {
    function Sum(): nat {
      production + fallback + forbidden
    }

    predicate Fits() {
      production <= UINT64_MAX && fallback <= UINT64_MAX && forbidden <= UINT64_MAX
    }

    function Plus(other: Counts): Counts {
      Counts(production + other.production, fallback + other.fallback, forbidden + other.forbidden)
    }
  }

  datatype Evidence = Evidence(operators: seq<Counts>, boundaries: seq<nat>, completed: nat, expected: nat, active: bool,
                               complete: bool, valid: bool, error: Error)
  {
    predicate Sized() {
      |operators| == ROLES && |boundaries| == BOUNDARIES && completed <= UINT64_MAX
      && (forall r :: 0 <= r < ROLES ==> operators[r].Fits()) && forall b :: 0 <= b < BOUNDARIES ==> boundaries[b] <= UINT64_MAX
    }

    /** The first error is kept. */
    function Failed(e: Error): Evidence {
      this.(valid := false, error := if error.NoError? then e else error)
    }

    /** One role was counted in every pass, except in m passes when a terminal prefix leaves it out. */
    predicate Tally(role: nat, m: int)
      requires Sized() && role < ROLES
    {
      operators[role].Sum() == completed * Expected(role) - if Elided(role) then m else 0
    }

    predicate Tallies(m: int)
      requires Sized()
    {
      && 0 <= m <= completed <= UINT64_MAX / 96
      && forall r :: 0 <= r < ROLES ==> Tally(r, m)
    }

    predicate Forbidden() {
      || (exists r :: 0 <= r < |operators| && operators[r].forbidden != 0)
      || (exists b :: 0 <= b < |boundaries| && boundaries[b] != 0)
    }
  }

  const NO_COUNTS := Counts(0, 0, 0)

  /** A number of hits of one disposition. */
  function Hits(disposition: nat, count: nat): Counts {
    if disposition == 0 then Counts(count, 0, 0)
    else if disposition == 1 then Counts(0, count, 0)
    else Counts(0, 0, count)
  }

  function Fresh(active: bool): Evidence {
    Evidence(seq(ROLES, _ => NO_COUNTS), seq(BOUNDARIES, _ => 0), 0, 0, active, false, false, NoError)
  }

  /** A record of one whole pass, not of a request, with every role due in it counted. */
  predicate PassComplete(pass: Evidence, elision: bool)
    requires pass.Sized()
  {
    && pass.error.NoError? && !pass.active && !pass.complete && !pass.valid && pass.completed == pass.expected == 0
    && forall r :: 0 <= r < ROLES ==> pass.operators[r].Sum() == Due(r, elision)
  }

  function Pairwise(a: seq<Counts>, b: seq<Counts>): seq<Counts>
    requires |a| == |b|
  {
    seq(|a|, r requires 0 <= r < |a| => a[r].Plus(b[r]))
  }

  function PairwiseSum(a: seq<nat>, b: seq<nat>): seq<nat>
    requires |a| == |b|
  {
    seq(|a|, i requires 0 <= i < |a| => a[i] + b[i])
  }

  function Added(request: Evidence, pass: Evidence): Evidence
    requires request.Sized() && pass.Sized()
  {
    request.(operators := Pairwise(request.operators, pass.operators),
             boundaries := PairwiseSum(request.boundaries, pass.boundaries),
             completed := request.completed + 1)
  }

  /** A commit merges the whole pass or none of it. */
  function Committed(request: Evidence, pass: Evidence, elision: bool): (Evidence, bool)
    requires request.Sized() && pass.Sized()
  {
    if !request.active || request.complete then (request.Failed(InactiveRequest), false)
    else if !PassComplete(pass, elision) then (request.Failed(IncompleteTile), false)
    else if !Added(request, pass).Sized() then (request.Failed(CounterOverflow), false)
    else
      var merged := Added(request, pass);
      (if merged.Forbidden() then merged.Failed(ForbiddenRoute) else merged, true)
  }

  function Finalized(request: Evidence, expectedPasses: nat): Evidence {
    var checked := if !request.active || request.complete then request.Failed(InactiveRequest)
                   else if request.completed != expectedPasses then request.Failed(UnexpectedLayerPassCount)
                   else if request.Forbidden() then request.Failed(ForbiddenRoute)
                   else request;
    checked.(active := false, complete := true, expected := expectedPasses, valid := checked.error.NoError?)
  }

  /** Counts of one role that no number of elided passes explains. */
  lemma NothingTallies(e: Evidence, role: nat)
    requires e.Sized() && role < ROLES
    requires var wanted, sum := e.completed * Expected(role), e.operators[role].Sum();
             || e.completed > UINT64_MAX / Expected(role) || sum > wanted || sum > UINT64_MAX
             || if Elided(role) then wanted - sum > e.completed else wanted != sum
    ensures forall m: nat :: !e.Tallies(m)
  {
    assert e.completed * Expected(role) <= e.completed * 96;
    forall m: nat
      ensures !e.Tallies(m)
    {
      assert e.Tallies(m) ==> e.Tally(role, m);
    }
  }

  lemma TallyAll(e: Evidence, m: nat)
    requires e.Sized() && m <= e.completed <= UINT64_MAX / 96 && forall r :: 0 <= r < ROLES ==> e.Tally(r, m)
    ensures e.Tallies(m)
  {
  }

  lemma OneTally(e: Evidence, role: nat, m: nat)
    requires e.Sized() && role < ROLES && Elided(role) && e.Tally(role, m)
    ensures forall other: nat :: e.Tallies(other) ==> other == m
  {
    forall other: nat | e.Tallies(other)
      ensures other == m
    {
      assert e.Tally(role, other);
    }
  }

  class Recorder {
    var operators: seq<Counts>
    var boundaries: seq<nat>
    var completed: nat
    var expected: nat
    var active: bool
    var complete: bool
    var valid: bool
    var error: Error

    constructor ()
      ensures View() == Fresh(false)
    {
      operators, boundaries := seq(ROLES, _ => NO_COUNTS), seq(BOUNDARIES, _ => 0);
      completed, expected, active, complete, valid, error := 0, 0, false, false, false, NoError;
    }

    function View(): Evidence
      reads this
    {
      Evidence(operators, boundaries, completed, expected, active, complete, valid, error)
    }

    method Reset()
      modifies this
      ensures View() == Fresh(true)
    {
      operators, boundaries := seq(ROLES, _ => NO_COUNTS), seq(BOUNDARIES, _ => 0);
      completed, expected, active, complete, valid, error := 0, 0, true, false, false, NoError;
    }

    method Fail(e: Error)
      modifies this`valid, this`error
      ensures View() == old(View()).Failed(e)
    {
      valid := false;
      if error.NoError? {
        error := e;
      }
    }

    /** Counts completed operators of a role; dispositions are production, exact fallback and forbidden. */
    method RecordOperator(role: nat, disposition: nat, count: nat) returns (ok: bool)
      requires View().Sized() && count <= UINT64_MAX
      modifies this`operators, this`valid, this`error
      ensures View().Sized()
      ensures ok <==> role < ROLES && disposition <= 2 && old(operators)[role].Plus(Hits(disposition, count)).Fits()
      ensures ok ==> View() == old(View()).(operators := old(operators)[role := old(operators)[role].Plus(Hits(disposition, count))])
      ensures !ok ==> View() == old(View()).Failed(
                                  if role >= ROLES then InvalidRole
                                  else if disposition > 2 then InvalidDisposition
                                  else CounterOverflow)
    {
      if role >= ROLES {
        Fail(InvalidRole);
        return false;
      }
      var counts := operators[role];
      if disposition > 2 {
        Fail(InvalidDisposition);
        return false;
      }
      var current := if disposition == 0 then counts.production else if disposition == 1 then counts.fallback else counts.forbidden;
      if count > UINT64_MAX - current {
        Fail(CounterOverflow);
        return false;
      }
      operators := operators[role := if disposition == 0 then counts.(production := current + count)
                                     else if disposition == 1 then counts.(fallback := current + count)
                                     else counts.(forbidden := current + count)];
      ok := true;
    }

    method RecordBoundary(boundary: nat, count: nat) returns (ok: bool)
      requires View().Sized() && count <= UINT64_MAX
      modifies this`boundaries, this`valid, this`error
      ensures View().Sized()
      ensures ok <==> boundary < BOUNDARIES && old(boundaries)[boundary] + count <= UINT64_MAX
      ensures ok ==> View() == old(View()).(boundaries := old(boundaries)[boundary := old(boundaries)[boundary] + count])
      ensures !ok ==> View() == old(View()).Failed(if boundary >= BOUNDARIES then InvalidBoundary else CounterOverflow)
    {
      if boundary >= BOUNDARIES {
        Fail(InvalidBoundary);
        return false;
      }
      if count > UINT64_MAX - boundaries[boundary] {
        Fail(CounterOverflow);
        return false;
      }
      boundaries := boundaries[boundary := boundaries[boundary] + count];
      ok := true;
    }

    /** Whether this is the record of one whole pass. */
    method LayerPassIsComplete(elision: bool) returns (ok: bool)
      requires View().Sized()
      ensures ok <==> PassComplete(View(), elision)
    {
      if !error.NoError? || active || complete || valid || completed != 0 || expected != 0 {
        return false;
      }
      for role := 0 to ROLES
        invariant forall r :: 0 <= r < role ==> operators[r].Sum() == Due(r, elision)
      {
        var counts := operators[role];
        if counts.fallback > UINT64_MAX - counts.production
           || counts.forbidden > UINT64_MAX - (counts.production + counts.fallback)
           || counts.Sum() != Due(role, elision) {
          return false;
        }
      }
      ok := true;
    }

    /** The operator counters with those of a pass added, unless one of them overflows. */
    method MergeOperators(pass: Recorder) returns (merged: seq<Counts>, ok: bool)
      requires View().Sized() && pass.View().Sized()
      ensures ok <==> forall r :: 0 <= r < ROLES ==> operators[r].Plus(pass.operators[r]).Fits()
      ensures ok ==> merged == Pairwise(operators, pass.operators)
    {
      merged := operators;
      for role := 0 to ROLES
        invariant |merged| == ROLES
        invariant forall r :: 0 <= r < ROLES ==>
                    merged[r] == if r < role then operators[r].Plus(pass.operators[r]) else operators[r]
        invariant forall r :: 0 <= r < role ==> operators[r].Plus(pass.operators[r]).Fits()
      {
        var source, destination := pass.operators[role], merged[role];
        if source.production > UINT64_MAX - destination.production || source.fallback > UINT64_MAX - destination.fallback
           || source.forbidden > UINT64_MAX - destination.forbidden {
          assert !operators[role].Plus(pass.operators[role]).Fits();
          return merged, false;
        }
        merged := merged[role := destination.Plus(source)];
      }
      ok := true;
    }

    method MergeBoundaries(pass: Recorder) returns (merged: seq<nat>, ok: bool)
      requires View().Sized() && pass.View().Sized()
      ensures ok <==> forall b :: 0 <= b < BOUNDARIES ==> boundaries[b] + pass.boundaries[b] <= UINT64_MAX
      ensures ok ==> merged == PairwiseSum(boundaries, pass.boundaries)
    {
      merged := boundaries;
      for boundary := 0 to BOUNDARIES
        invariant |merged| == BOUNDARIES
        invariant forall b :: 0 <= b < BOUNDARIES ==>
                    merged[b] == if b < boundary then boundaries[b] + pass.boundaries[b] else boundaries[b]
        invariant forall b :: 0 <= b < boundary ==> boundaries[b] + pass.boundaries[b] <= UINT64_MAX
      {
        if pass.boundaries[boundary] > UINT64_MAX - merged[boundary] {
          return merged, false;
        }
        merged := merged[boundary := merged[boundary] + pass.boundaries[boundary]];
      }
      ok := true;
    }

    /** Merges one whole pass into the request; a pass that cannot be merged leaves every counter alone. */
    method CommitLayerPass(pass: Recorder, elision: bool) returns (ok: bool)
      requires View().Sized() && pass.View().Sized() && pass != this
      modifies this
      ensures (View(), ok) == Committed(old(View()), pass.View(), elision)
    {
      hide PassComplete;
      if !active || complete {
        Fail(InactiveRequest);
        return false;
      }
      ok := pass.LayerPassIsComplete(elision);
      if !ok {
        Fail(IncompleteTile);
        return;
      }
      var newOperators, operatorsFit := MergeOperators(pass);
      assert forall r :: 0 <= r < ROLES ==> Added(View(), pass.View()).operators[r] == operators[r].Plus(pass.operators[r]);
      if !operatorsFit {
        Fail(CounterOverflow);
        return false;
      }
      var newBoundaries, boundariesFit := MergeBoundaries(pass);
      assert forall b :: 0 <= b < BOUNDARIES ==> Added(View(), pass.View()).boundaries[b] == boundaries[b] + pass.boundaries[b];
      if !boundariesFit || completed == UINT64_MAX {
        Fail(CounterOverflow);
        return false;
      }
      operators, boundaries, completed := newOperators, newBoundaries, completed + 1;
      if HasForbidden() {
        Fail(ForbiddenRoute);
      }
      ok := true;
    }

    /** How many of the merged passes had their terminal prefix elided, if the counters allow any number at all. */
    method TerminalPrefixElidedLayerPasses() returns (omitted: Option<nat>)
      requires View().Sized()
      ensures forall m: nat :: omitted == Some(m) <==> View().Tallies(m)
    {
      hide Evidence.Tallies;
      omitted := None;
      for role := 0 to ROLES
        invariant role > 2 ==> completed <= UINT64_MAX / 96
        invariant omitted.None? <==> role == 0
        invariant omitted.Some? ==> omitted.value <= completed
        invariant forall r :: 0 <= r < role ==> View().Tally(r, omitted.value)
      {
        var counts := operators[role];
        if completed > UINT64_MAX / Expected(role) || counts.fallback > UINT64_MAX - counts.production
           || counts.forbidden > UINT64_MAX - (counts.production + counts.fallback)
           || counts.Sum() > completed * Expected(role) {
          NothingTallies(View(), role);
          return None;
        }
        var deficit := completed * Expected(role) - counts.Sum();
        if Elided(role) {
          if deficit > completed {
            NothingTallies(View(), role);
            return None;
          }
          OneTally(View(), role, deficit);
          if omitted.Some? && omitted.value != deficit {
            OneTally(View(), 0, omitted.value);
            return None;
          }
          omitted := Some(deficit);
        } else if deficit != 0 {
          NothingTallies(View(), role);
          return None;
        }
      }
      TallyAll(View(), omitted.value);
      OneTally(View(), 0, omitted.value);
    }

    predicate HasForbidden()
      reads this
    {
      View().Forbidden()
    }

    method Finalize(expectedPasses: nat) returns (result: Evidence)
      requires View().Sized()
      modifies this
      ensures result == View() == Finalized(old(View()), expectedPasses)
    {
      if !active || complete {
        Fail(InactiveRequest);
      } else if completed != expectedPasses {
        Fail(UnexpectedLayerPassCount);
      } else if HasForbidden() {
        Fail(ForbiddenRoute);
      }
      active, complete, expected := false, true, expectedPasses;
      valid := error.NoError?;
      result := View();
    }
  }

  /** One commit of a request: the record of a pass, and whether its terminal prefix was elided. */
  datatype Pass = Pass(record: Evidence, elision: bool)

  ghost predicate AllSized(passes: seq<Pass>) {
    forall i :: 0 <= i < |passes| ==> passes[i].record.Sized()
  }

  /** The request after a reset and one commit for each pass; its counters always fit their width. */
  ghost function After(passes: seq<Pass>): (e: Evidence)
    requires AllSized(passes)
    ensures e.Sized() && e.active && !e.complete
  {
    if passes == [] then Fresh(true)
    else
      var last := passes[|passes| - 1];
      Committed(After(passes[..|passes| - 1]), last.record, last.elision).0
  }

  /** The passes that were merged. */
  ghost function Merged(passes: seq<Pass>): (merged: seq<Pass>)
    requires AllSized(passes)
    ensures |merged| <= |passes| && (|merged| == |passes| ==> merged == passes)
  {
    if passes == [] then []
    else
      var before, last := passes[..|passes| - 1], passes[|passes| - 1];
      Merged(before) + if Committed(After(before), last.record, last.elision).1 then [last] else []
  }

  function ElidedPasses(passes: seq<Pass>): nat {
    if passes == [] then 0
    else ElidedPasses(passes[..|passes| - 1]) + if passes[|passes| - 1].elision then 1 else 0
  }

  ghost predicate AnyForbidden(passes: seq<Pass>) {
    exists i :: 0 <= i < |passes| && passes[i].record.Forbidden()
  }

  /** A commit that is refused leaves every counter as it was and marks the request. */
  lemma RefusedCommitKeepsCounters(request: Evidence, pass: Evidence, elision: bool)
    requires request.Sized() && pass.Sized() && !Committed(request, pass, elision).1
    ensures var after := Committed(request, pass, elision).0;
            && after.(valid := request.valid, error := request.error) == request
            && !after.valid && !after.error.NoError?
            && (!request.error.NoError? ==> after.error == request.error)
  {
  }

  /** What a merged pass adds: one pass, its due count to every role, and its forbidden hits. */
  lemma MergedPassAddsItsDue(request: Evidence, pass: Evidence, elision: bool)
    requires request.Sized() && pass.Sized() && Committed(request, pass, elision).1
    ensures var after := Committed(request, pass, elision).0;
            && after.Sized() && after.completed == request.completed + 1
            && (forall r :: 0 <= r < ROLES ==> after.operators[r].Sum() == request.operators[r].Sum() + Due(r, elision))
            && (after.Forbidden() <==> request.Forbidden() || pass.Forbidden())
            && (after.error.NoError? <==> request.error.NoError? && !after.Forbidden())
  {
    var added := Added(request, pass);
    assert forall r :: 0 <= r < ROLES ==> added.operators[r].forbidden == request.operators[r].forbidden + pass.operators[r].forbidden;
    assert forall b :: 0 <= b < BOUNDARIES ==> added.boundaries[b] == request.boundaries[b] + pass.boundaries[b];
    if request.Forbidden() || pass.Forbidden() {
      if r :| 0 <= r < ROLES && (request.operators[r].forbidden != 0 || pass.operators[r].forbidden != 0) {
        assert added.operators[r].forbidden != 0;
      } else {
        var b :| 0 <= b < BOUNDARIES && (request.boundaries[b] != 0 || pass.boundaries[b] != 0);
        assert added.boundaries[b] != 0;
      }
    }
  }

  /** The counters are those of the merged passes, elided work left out. */
  ghost predicate Accounts(e: Evidence, merged: seq<Pass>)
    requires e.Sized()
  {
    && e.completed == |merged| && ElidedPasses(merged) <= |merged|
    && (forall r :: 0 <= r < ROLES ==> e.Tally(r, ElidedPasses(merged)))
    && (e.Forbidden() <==> AnyForbidden(merged))
  }

  /** Over any run of commits the counters account for the merged passes; no error means all were merged and none forbidden. */
  lemma {:induction false} CountersAreMergedPasses(passes: seq<Pass>)
    requires AllSized(passes)
    ensures Accounts(After(passes), Merged(passes))
    ensures After(passes).error.NoError? <==> Merged(passes) == passes && !AnyForbidden(passes)
  {
    hide Committed, Due, Accounts;
    if passes == [] {
      NothingAccounted();
    } else {
      var before, last := passes[..|passes| - 1], passes[|passes| - 1];
      CountersAreMergedPasses(before);
      assert passes == before + [last];
      ForbiddenSoFar(before, last);
      if Committed(After(before), last.record, last.elision).1 {
        AccountsGrow(After(before), Merged(before), last);
      } else {
        AccountsStay(After(before), Merged(before), last);
        assert Merged(passes) == Merged(before);
      }
    }
  }

  lemma NothingAccounted()
    ensures Accounts(Fresh(true), [])
  {
  }

  lemma AccountsGrow(e: Evidence, merged: seq<Pass>, last: Pass)
    requires e.Sized() && last.record.Sized() && Accounts(e, merged) && Committed(e, last.record, last.elision).1
    ensures var after := Committed(e, last.record, last.elision).0;
            && after.Sized() && Accounts(after, merged + [last])
            && (after.error.NoError? <==> e.error.NoError? && !AnyForbidden(merged + [last]))
  {
    hide Committed, Due;
    MergedPassAddsItsDue(e, last.record, last.elision);
    assert (merged + [last])[..|merged|] == merged;
    ForbiddenSoFar(merged, last);
    DueAddsUp(e, Committed(e, last.record, last.elision).0, last.elision, ElidedPasses(merged), ElidedPasses(merged + [last]));
  }

  lemma AccountsStay(e: Evidence, merged: seq<Pass>, last: Pass)
    requires e.Sized() && last.record.Sized() && Accounts(e, merged) && !Committed(e, last.record, last.elision).1
    ensures var after := Committed(e, last.record, last.elision).0;
            after.Sized() && Accounts(after, merged) && !after.error.NoError?
  {
    hide Committed;
    RefusedCommitKeepsCounters(e, last.record, last.elision);
    var m, after := ElidedPasses(merged), Committed(e, last.record, last.elision).0;
    forall r | 0 <= r < ROLES
      ensures after.Tally(r, m)
    {
      assert e.Tally(r, m);
    }
  }

  lemma ForbiddenSoFar(passes: seq<Pass>, last: Pass)
    ensures AnyForbidden(passes + [last]) <==> AnyForbidden(passes) || last.record.Forbidden()
  {
    var all := passes + [last];
    assert all[|passes|] == last;
    assert forall i :: 0 <= i < |passes| ==> all[i] == passes[i];
  }

  lemma DueAddsUp(before: Evidence, after: Evidence, elision: bool, m: nat, n: nat)
    requires before.Sized() && after.Sized() && after.completed == before.completed + 1
    requires n == m + if elision then 1 else 0
    requires forall r :: 0 <= r < ROLES ==> before.Tally(r, m)
    requires forall r :: 0 <= r < ROLES ==> after.operators[r].Sum() == before.operators[r].Sum() + Due(r, elision)
    ensures forall r :: 0 <= r < ROLES ==> after.Tally(r, n)
  {
    forall r | 0 <= r < ROLES
      ensures after.Tally(r, n)
    {
      assert before.Tally(r, m);
      assert after.completed * Expected(r) == before.completed * Expected(r) + Expected(r);
    }
  }

  /** The number of elided passes is recovered from the counters alone, as long as 96 a pass fits the width. */
  lemma ElisionsAreRecovered(passes: seq<Pass>, m: nat)
    requires AllSized(passes)
    ensures After(passes).Tallies(m) <==> m == ElidedPasses(Merged(passes)) && |Merged(passes)| <= UINT64_MAX / 96
  {
    CountersAreMergedPasses(passes);
    var e, elided := After(passes), ElidedPasses(Merged(passes));
    assert e.Tally(0, elided);
    if e.Tallies(m) {
      assert e.Tally(0, m);
    }
  }

  /** A request ends valid exactly when every pass was merged, none held a forbidden hit and their number is the one expected. */
  lemma FinalizedIsValid(passes: seq<Pass>, expectedPasses: nat)
    requires AllSized(passes)
    ensures Finalized(After(passes), expectedPasses).valid
            <==> Merged(passes) == passes && |passes| == expectedPasses && !AnyForbidden(passes)
  {
    CountersAreMergedPasses(passes);
  }

  /** After finalizing, no pass is merged until the next reset. */
  lemma FinalizedIsClosed(request: Evidence, expectedPasses: nat, pass: Evidence, elision: bool)
    requires request.Sized() && pass.Sized()
    ensures !Committed(Finalized(request, expectedPasses), pass, elision).1
  {
  }
}
