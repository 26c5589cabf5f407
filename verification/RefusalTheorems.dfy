/** What a refused write is told: exactly which obstacles are named, and in which order the checks speak. */
module RefusalTheorems {
  import opened Resources
  import opened SyncGate
  import opened WritePermit
  import opened PermitTheorems

  ghost predicate WellFormedRequest(input: WriteDecisionInput) {
    input.resources != [] && forall r :: r in input.resources ==> Writable(r)
  }

  /** An empty request, or a reference that cannot be written. */
  ghost predicate NamesResource(input: WriteDecisionInput, b: Blocker) {
    || (input.resources == [] && b == Blocker(ResourceBlocker, ""))
    || exists r :: r in input.resources && !Writable(r) && b == Blocker(ResourceBlocker, r.locator)
  }

  /** A gate or a claim that stands in the way. */
  ghost predicate NamesObstacle(env: Env, input: WriteDecisionInput, b: Blocker) {
    || (exists g :: g in input.activeGates && GateStands(env, input, g) && b == Blocker(SyncGateBlocker, g.id))
    || (exists c :: ClaimStands(env, input, c) && b == Blocker(ResourceClaimBlocker, c.id))
  }

  /** The memory behind a constraint blocker, else its projection, else its rule, whichever is named first. */
  predicate Behind(v: ConstraintBlocker, id: string) {
    if v.sourceMemoryId != "" then id == v.sourceMemoryId
    else if v.projectionId != "" then id == v.projectionId
    else id == if v.rule != "" then v.rule else "constraint"
  }

  ghost predicate NamesConstraint(input: WriteDecisionInput, b: Blocker) {
    input.constraintDecision.Some?
    && var v := input.constraintDecision.value;
       if v.runtimeUnavailable then b == Blocker(ConstraintRuntimeBlocker, "runtime_unavailable")
       else !v.permitted && exists c, id :: c in v.blockers && Behind(c, id) && b == Blocker(ConstraintRuntimeBlocker, id)
  }

  lemma {:induction false} InvalidRefsName(resources: seq<ResourceRef>, b: Blocker)
    ensures b in InvalidRefs(resources) <==> exists r :: r in resources && !Writable(r) && b == Blocker(ResourceBlocker, r.locator)
    decreases |resources|
  {
    if resources != [] {
      InvalidRefsName(resources[1..], b);
      assert ValidRef(resources[0]) <==> Writable(resources[0]);
      assert resources == [resources[0]] + resources[1..];
    }
  }

  lemma GateBlockersName(gates: seq<Gate>, b: Blocker)
    ensures b in GateBlockers(gates) <==> exists g :: g in gates && b == Blocker(SyncGateBlocker, g.id)
  {
    if g :| g in gates && b == Blocker(SyncGateBlocker, g.id) {
      var i :| 0 <= i < |gates| && gates[i] == g;
      assert GateBlockers(gates)[i] == b;
    }
  }

  lemma ClaimBlockersName(claims: seq<Claim>, b: Blocker)
    ensures b in ClaimBlockers(claims) <==> exists c :: c in claims && b == Blocker(ResourceClaimBlocker, c.id)
  {
    if c :| c in claims && b == Blocker(ResourceClaimBlocker, c.id) {
      var i :| 0 <= i < |claims| && claims[i] == c;
      assert ClaimBlockers(claims)[i] == b;
    }
  }

  lemma ExternalName(env: Env, input: WriteDecisionInput, b: Blocker)
    ensures b in ExternalBlockers(env, input) <==> NamesObstacle(env, input, b)
  {
    var gates, claims := RelevantBlockingGates(env, input), ConflictingExclusiveClaims(env, input);
    GateBlockersName(gates, b);
    ClaimBlockersName(claims, b);
    forall g ensures g in gates <==> g in input.activeGates && GateStands(env, input, g) {
      GateStandsExact(env, input, g);
    }
    forall c ensures c in claims <==> ClaimStands(env, input, c) {
      ClaimStandsExact(env, input, c);
    }
  }

  lemma ConstraintsName(input: WriteDecisionInput, b: Blocker)
    ensures b in ConstraintBlockers(input) <==> NamesConstraint(input, b)
  {
    if input.constraintDecision.Some? {
      var vs := input.constraintDecision.value.blockers;
      forall c ensures Behind(c, ConstraintId(c)) && forall id :: Behind(c, id) ==> id == ConstraintId(c) {
      }
      if NamesConstraint(input, b) && !input.constraintDecision.value.runtimeUnavailable {
        var c, id :| c in vs && Behind(c, id) && b == Blocker(ConstraintRuntimeBlocker, id);
        var i :| 0 <= i < |vs| && vs[i] == c;
        assert ConstraintBlockers(input)[i] == b;
      }
    }
  }

  /** A refusal names exactly what the first check that objects has found: the request itself, then gates and claims, then
      constraints, then the missing authorisation, for which the operation, if any, is named. */
  lemma RefusalNamesExact(env: Env, input: WriteDecisionInput, b: Blocker)
    requires !Decide(env, input).permitted
    ensures Decide(env, input).reason == BLOCKED
    ensures b in Decide(env, input).blockers
       <==> if !WellFormedRequest(input) then NamesResource(input, b)
            else if !NothingStands(env, input) then NamesObstacle(env, input, b)
            else if !ConstraintsAgree(input) then NamesConstraint(input, b)
            else b == Blocker(AuthorizationBlocker, if input.operation.Some? then input.operation.value.id else "")
  {
    InvalidRefsExact(input.resources);
    InvalidRefsName(input.resources, b);
    ExternalExact(env, input);
    ExternalName(env, input, b);
    ConstraintsExact(input);
    ConstraintsName(input, b);
  }
}
