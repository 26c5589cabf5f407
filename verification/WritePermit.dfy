/** The decision whether an agent may write a set of resources. */
module WritePermit {
  import opened Text
  import opened Resources
  import opened SyncGate
  import opened Filters
  import opened FileAudit

  datatype OperationStatus = DRAFT | SUBMITTED | CONFLICTING | APPROVED | REJECTED | APPLIED | OP_CANCELLED

  datatype Operation = Operation(id: string, actorId: string, taskId: string, sessionId: string,
                                 status: OperationStatus, targetResources: seq<ResourceRef>)

  /** Absent strings are empty: the program tests them for truth. */
  datatype ConstraintBlocker = ConstraintBlocker(rule: string, sourceMemoryId: string, projectionId: string)

  datatype ConstraintVerdict = ConstraintVerdict(permitted: bool, blockers: seq<ConstraintBlocker>, runtimeUnavailable: bool)

  datatype WriteDecisionInput = WriteDecisionInput(
    actorId: string, taskId: string, sessionId: string, resources: seq<ResourceRef>, operation: Option<Operation>,
    activeClaims: seq<Claim>, activeGates: seq<Gate>, constraintDecision: Option<ConstraintVerdict>)

  datatype BlockerType = ResourceBlocker | SyncGateBlocker | ResourceClaimBlocker | ConstraintRuntimeBlocker | AuthorizationBlocker

  datatype Blocker = Blocker(kind: BlockerType, id: string)

  datatype Reason = OWNED_CLAIM | SHARED_CLAIM | APPROVED_OPERATION | BLOCKED

  datatype WriteDecision = WriteDecision(permitted: bool, reason: Reason, blockers: seq<Blocker>)

  // ---- helpers --------------------------------------------------------------------------------------------

  predicate ValidRef(r: ResourceRef) {
    r.rtype != "" && r.locator != "" && (r.lineRange.Some? ==> r.lineRange.value.start >= 0 && r.lineRange.value.end >= 0)
  }

  /** Two sessions are in each other's scope unless both are named and differ. */
  predicate SessionMatches(a: string, b: string) {
    a == "" || b == "" || a == b
  }

  predicate GateOverlapsResource(env: Env, gate: Gate, resource: ResourceRef) {
    AnyOverlaps(env, gate.relatedResources, resource)
    || (resource.rtype == "file" && AnyFileOverlaps(env, gate.relatedFiles, resource))
  }

  predicate IsRelevantBlockingGate(env: Env, input: WriteDecisionInput, gate: Gate) {
    && IsGateBlocking(gate)
    && (gate.taskId == "" || gate.taskId == input.taskId)
    && SessionMatches(input.sessionId, gate.sessionId)
    && (input.actorId in gate.requiredAgentIds
        || exists r :: r in input.resources && GateOverlapsResource(env, gate, r))
  }

  function RelevantBlockingGates(env: Env, input: WriteDecisionInput): seq<Gate> {
    Filter(input.activeGates, (g: Gate) => IsRelevantBlockingGate(env, input, g))
  }

  predicate InScope(input: WriteDecisionInput, claim: Claim) {
    claim.status.ACTIVE? && SessionMatches(input.sessionId, claim.sessionId)
  }

  predicate Own(input: WriteDecisionInput, claim: Claim) {
    claim.actorId == input.actorId && claim.taskId == input.taskId
  }

  predicate TouchesAny(env: Env, claim: Claim, resources: seq<ResourceRef>) {
    exists r :: r in resources && Touches(env, claim, r)
  }

  function ActiveClaimsInScope(input: WriteDecisionInput): seq<Claim> {
    Filter(input.activeClaims, (c: Claim) => InScope(input, c))
  }

  function ConflictingExclusiveClaims(env: Env, input: WriteDecisionInput): seq<Claim> {
    Filter(ActiveClaimsInScope(input), (c: Claim) => !Own(input, c) && c.mode.EXCLUSIVE? && TouchesAny(env, c, input.resources))
  }

  function OwnClaims(input: WriteDecisionInput): seq<Claim> {
    Filter(ActiveClaimsInScope(input), (c: Claim) => Own(input, c))
  }

  function ClaimsCoveringAllResources(env: Env, input: WriteDecisionInput): seq<Claim> {
    var actorClaims := OwnClaims(input);
    if forall r :: r in input.resources ==> exists c :: c in actorClaims && Touches(env, c, r) then
      Filter(actorClaims, (c: Claim) => TouchesAny(env, c, input.resources))
    else
      []
  }

  predicate IsApprovedOperationAuthorized(env: Env, input: WriteDecisionInput) {
    && input.operation.Some?
    && var op := input.operation.value;
       && op.status.APPROVED? && op.actorId == input.actorId && op.taskId == input.taskId
       && SessionMatches(input.sessionId, op.sessionId)
       && op.targetResources != []
       && forall r :: r in input.resources ==> AnyOverlaps(env, op.targetResources, r)
  }

  // ---- the four checks ------------------------------------------------------------------------------------

  function InvalidRefs(resources: seq<ResourceRef>): seq<Blocker> {
    if resources == [] then []
    else (if ValidRef(resources[0]) then [] else [Blocker(ResourceBlocker, resources[0].locator)]) + InvalidRefs(resources[1..])
  }

  function ResourceBlockers(input: WriteDecisionInput): seq<Blocker> {
    (if input.resources == [] then [Blocker(ResourceBlocker, "")] else []) + InvalidRefs(input.resources)
  }

  method ValidateResources(input: WriteDecisionInput) returns (blockers: seq<Blocker>)
    ensures blockers == ResourceBlockers(input)
  {
    blockers := [];
    if |input.resources| == 0 {
      blockers := blockers + [Blocker(ResourceBlocker, "")];
    }
    for i := 0 to |input.resources|
      invariant blockers + InvalidRefs(input.resources[i..]) == ResourceBlockers(input)
    {
      assert input.resources[i..][1..] == input.resources[i + 1..];
      if !ValidRef(input.resources[i]) {
        Regroup(blockers, Blocker(ResourceBlocker, input.resources[i].locator), InvalidRefs(input.resources[i + 1..]));
        blockers := blockers + [Blocker(ResourceBlocker, input.resources[i].locator)];
      }
    }
  }

  function GateBlockers(gates: seq<Gate>): (r: seq<Blocker>)
    ensures |r| == |gates|
  {
    seq(|gates|, i requires 0 <= i < |gates| => Blocker(SyncGateBlocker, gates[i].id))
  }

  function ClaimBlockers(claims: seq<Claim>): (r: seq<Blocker>)
    ensures |r| == |claims|
  {
    seq(|claims|, i requires 0 <= i < |claims| => Blocker(ResourceClaimBlocker, claims[i].id))
  }

  function ExternalBlockers(env: Env, input: WriteDecisionInput): seq<Blocker> {
    GateBlockers(RelevantBlockingGates(env, input)) + ClaimBlockers(ConflictingExclusiveClaims(env, input))
  }

  method CheckExternalConflicts(env: Env, input: WriteDecisionInput) returns (blockers: seq<Blocker>)
    ensures blockers == ExternalBlockers(env, input)
  {
    blockers := [];
    var gates := RelevantBlockingGates(env, input);
    for i := 0 to |gates|
      invariant blockers == GateBlockers(gates)[..i]
    {
      blockers := blockers + [Blocker(SyncGateBlocker, gates[i].id)];
    }
    ghost var first := blockers;
    var claims := ConflictingExclusiveClaims(env, input);
    for i := 0 to |claims|
      invariant blockers == first + ClaimBlockers(claims)[..i]
    {
      blockers := blockers + [Blocker(ResourceClaimBlocker, claims[i].id)];
    }
  }

  /** The first of memory, projection and rule that is named. */
  function ConstraintId(b: ConstraintBlocker): string {
    if b.sourceMemoryId != "" then b.sourceMemoryId
    else if b.projectionId != "" then b.projectionId
    else if b.rule != "" then b.rule
    else "constraint"
  }

  function ConstraintBlockers(input: WriteDecisionInput): seq<Blocker> {
    if input.constraintDecision.None? then []
    else
      var v := input.constraintDecision.value;
      if v.runtimeUnavailable then [Blocker(ConstraintRuntimeBlocker, "runtime_unavailable")]
      else if v.permitted then []
      else seq(|v.blockers|, i requires 0 <= i < |v.blockers| => Blocker(ConstraintRuntimeBlocker, ConstraintId(v.blockers[i])))
  }

  method CheckConstraintRuntime(input: WriteDecisionInput) returns (blockers: seq<Blocker>)
    ensures blockers == ConstraintBlockers(input)
  {
    blockers := [];
    if input.constraintDecision.Some? && input.constraintDecision.value.runtimeUnavailable {
      blockers := [Blocker(ConstraintRuntimeBlocker, "runtime_unavailable")];
    } else if input.constraintDecision.Some? && !input.constraintDecision.value.permitted {
      var reported := input.constraintDecision.value.blockers;
      for i := 0 to |reported|
        invariant blockers == ConstraintBlockers(input)[..i]
      {
        blockers := blockers + [Blocker(ConstraintRuntimeBlocker, ConstraintId(reported[i]))];
      }
    }
  }

  function AuthorizationBlockers(env: Env, input: WriteDecisionInput): seq<Blocker> {
    if !IsApprovedOperationAuthorized(env, input) && ClaimsCoveringAllResources(env, input) == [] then
      [Blocker(AuthorizationBlocker, if input.operation.Some? then input.operation.value.id else "")]
    else
      []
  }

  function DeterminePermitReason(env: Env, input: WriteDecisionInput): WriteDecision {
    var covering := ClaimsCoveringAllResources(env, input);
    if IsApprovedOperationAuthorized(env, input) && covering == [] then WriteDecision(true, APPROVED_OPERATION, [])
    else WriteDecision(true, if exists c :: c in covering && c.mode.EXCLUSIVE? then OWNED_CLAIM else SHARED_CLAIM, [])
  }

  function Refusal(blockers: seq<Blocker>): WriteDecision {
    WriteDecision(false, BLOCKED, blockers)
  }

  /** The checks in their order; the first that reports anything decides. */
  function Decide(env: Env, input: WriteDecisionInput): WriteDecision {
    if ResourceBlockers(input) != [] then Refusal(ResourceBlockers(input))
    else if ExternalBlockers(env, input) != [] then Refusal(ExternalBlockers(env, input))
    else if ConstraintBlockers(input) != [] then Refusal(ConstraintBlockers(input))
    else if AuthorizationBlockers(env, input) != [] then Refusal(AuthorizationBlockers(env, input))
    else DeterminePermitReason(env, input)
  }

  method EvaluateWriteDecision(env: Env, input: WriteDecisionInput) returns (d: WriteDecision)
    ensures d == Decide(env, input)
  {
    var blockers := ValidateResources(input);
    if |blockers| > 0 {
      return Refusal(blockers);
    }
    blockers := CheckExternalConflicts(env, input);
    if |blockers| > 0 {
      return Refusal(blockers);
    }
    blockers := CheckConstraintRuntime(input);
    if |blockers| > 0 {
      return Refusal(blockers);
    }
    blockers := AuthorizationBlockers(env, input);
    if |blockers| > 0 {
      return Refusal(blockers);
    }
    d := DeterminePermitReason(env, input);
  }
}
