/** Exactly when a write is permitted, and what a permit excludes. */
module PermitTheorems {
  import opened Text
  import opened Resources
  import opened SyncGate
  import opened FileAudit
  import opened WritePermit

  // ---- the permit condition -------------------------------------------------------------------------------

  /** The reference overlaps one of these. */
  ghost predicate MeetsOne(env: Env, refs: seq<ResourceRef>, r: ResourceRef) {
    exists q :: q in refs && ResourceLocatorsOverlap(env, q, r)
  }

  /** A file list names one or, joined by the double arrow, several locators. */
  ghost predicate MeetsNamedFile(env: Env, files: seq<string>, r: ResourceRef) {
    exists f, l :: f in files && EntryNames(f, l)
                   && ResourceLocatorsOverlap(env, ResourceRef("file", l, FileScope, None, None), r)
  }

  /** Neither is bound to a session the other is not in. */
  predicate SharedSession(a: string, b: string) {
    a != "" && b != "" ==> a == b
  }

  /** A gate stands in the way: it waits for synchronisation, is about the task and session or about none in particular,
      and requires the actor or concerns one of the resources. */
  ghost predicate GateStands(env: Env, input: WriteDecisionInput, g: Gate) {
    && g.status in {NEEDS_SYNC, SYNC_REQUESTED, SYNC_ACKED}
    && g.taskId in {"", input.taskId} && SharedSession(input.sessionId, g.sessionId)
    && (input.actorId in g.requiredAgentIds
        || exists r :: r in input.resources
                       && (MeetsOne(env, g.relatedResources, r)
                           || (r.rtype == "file" && MeetsNamedFile(env, g.relatedFiles, r))))
  }

  /** A claim counts when it is active and its session is shared. */
  ghost predicate Counts(input: WriteDecisionInput, c: Claim) {
    c in input.activeClaims && c.status == ACTIVE && SharedSession(input.sessionId, c.sessionId)
  }

  /** An exclusive claim of another actor, or for another task, on one of the resources. */
  ghost predicate ClaimStands(env: Env, input: WriteDecisionInput, c: Claim) {
    && Counts(input, c) && c.mode == EXCLUSIVE && (c.actorId != input.actorId || c.taskId != input.taskId)
    && exists r :: r in input.resources && MeetsOne(env, c.resources, r)
  }

  ghost predicate NothingStands(env: Env, input: WriteDecisionInput) {
    (forall g :: g in input.activeGates ==> !GateStands(env, input, g)) && (forall c :: !ClaimStands(env, input, c))
  }

  /** A denial only counts when it names a blocker. */
  ghost predicate ConstraintsAgree(input: WriteDecisionInput) {
    input.constraintDecision.Some? ==>
      var v := input.constraintDecision.value;
      !v.runtimeUnavailable && (v.permitted || v.blockers == [])
  }

  /** Every resource is held by a claim of the actor for the task. */
  ghost predicate CoveredByOwnClaims(env: Env, input: WriteDecisionInput) {
    forall r :: r in input.resources ==>
      exists c :: Counts(input, c) && c.actorId == input.actorId && c.taskId == input.taskId && MeetsOne(env, c.resources, r)
  }

  /** The operation that was handed in is approved, the actor's own for the task, and has a target for every resource. */
  ghost predicate OperationCovers(env: Env, input: WriteDecisionInput) {
    && input.operation.Some?
    && input.operation.value.status == APPROVED
    && input.operation.value.actorId == input.actorId && input.operation.value.taskId == input.taskId
    && SharedSession(input.sessionId, input.operation.value.sessionId)
    && input.operation.value.targetResources != []
    && forall r :: r in input.resources ==> MeetsOne(env, input.operation.value.targetResources, r)
  }

  /** A reference that can be written: type and locator are named, and its line numbers are not negative. */
  predicate Writable(r: ResourceRef) {
    r.rtype != "" && r.locator != ""
    && (r.lineRange == None || (r.lineRange.value.start >= 0 && r.lineRange.value.end >= 0))
  }

  ghost predicate PermitCondition(env: Env, input: WriteDecisionInput) {
    && input.resources != []
    && (forall r :: r in input.resources ==> Writable(r))
    && NothingStands(env, input)
    && ConstraintsAgree(input)
    && (CoveredByOwnClaims(env, input) || OperationCovers(env, input))
  }

  // ---- the program's tests mean that ------------------------------------------------------------------------

  lemma MeetsOneExact(env: Env, refs: seq<ResourceRef>, r: ResourceRef)
    ensures AnyOverlaps(env, refs, r) <==> MeetsOne(env, refs, r)
  {
  }

  lemma MeetsFileExact(env: Env, files: seq<string>, r: ResourceRef)
    ensures AnyFileOverlaps(env, files, r) <==> MeetsNamedFile(env, files, r)
  {
    forall l ensures l in ParseRelatedFileLocators(files) <==> exists f :: f in files && EntryNames(f, l) {
      ParsedExact(files, l);
    }
    assert forall l :: FileRef(l) == ResourceRef("file", l, FileScope, None, None);
  }

  lemma GateStandsExact(env: Env, input: WriteDecisionInput, g: Gate)
    ensures IsRelevantBlockingGate(env, input, g) <==> GateStands(env, input, g)
  {
    forall r ensures GateOverlapsResource(env, g, r)
                <==> MeetsOne(env, g.relatedResources, r) || (r.rtype == "file" && MeetsNamedFile(env, g.relatedFiles, r)) {
      MeetsOneExact(env, g.relatedResources, r);
      MeetsFileExact(env, g.relatedFiles, r);
    }
  }

  lemma ClaimStandsExact(env: Env, input: WriteDecisionInput, c: Claim)
    ensures (c in input.activeClaims && InScope(input, c) && !Own(input, c) && c.mode.EXCLUSIVE? && TouchesAny(env, c, input.resources))
       <==> ClaimStands(env, input, c)
  {
    forall r ensures Touches(env, c, r) <==> MeetsOne(env, c.resources, r) {
      MeetsOneExact(env, c.resources, r);
    }
  }

  lemma CoveredExact(env: Env, input: WriteDecisionInput)
    ensures CoveredByOwnClaims(env, input)
       <==> forall r :: r in input.resources ==>
              exists c :: c in input.activeClaims && InScope(input, c) && Own(input, c) && Touches(env, c, r)
  {
    forall c: Claim, r ensures Touches(env, c, r) <==> MeetsOne(env, c.resources, r) {
      MeetsOneExact(env, c.resources, r);
    }
  }

  /** An operation authorises a write exactly when it covers it. */
  lemma OperationExact(env: Env, input: WriteDecisionInput)
    ensures IsApprovedOperationAuthorized(env, input) <==> OperationCovers(env, input)
  {
    if input.operation.Some? {
      forall r ensures AnyOverlaps(env, input.operation.value.targetResources, r)
                  <==> MeetsOne(env, input.operation.value.targetResources, r) {
        MeetsOneExact(env, input.operation.value.targetResources, r);
      }
    }
  }

  lemma {:induction false} InvalidRefsExact(resources: seq<ResourceRef>)
    ensures InvalidRefs(resources) == [] <==> forall r :: r in resources ==> Writable(r)
    decreases |resources|
  {
    if resources != [] {
      InvalidRefsExact(resources[1..]);
      assert resources == [resources[0]] + resources[1..];
      assert ValidRef(resources[0]) <==> Writable(resources[0]);
    }
  }

  lemma ExternalExact(env: Env, input: WriteDecisionInput)
    ensures ExternalBlockers(env, input) == [] <==> NothingStands(env, input)
  {
    var gates, claims := RelevantBlockingGates(env, input), ConflictingExclusiveClaims(env, input);
    assert |ExternalBlockers(env, input)| == |gates| + |claims|;
    assert gates != [] ==> gates[0] in gates;
    assert claims != [] ==> claims[0] in claims;
    forall g {
      GateStandsExact(env, input, g);
    }
    forall c {
      ClaimStandsExact(env, input, c);
    }
  }

  lemma ConstraintsExact(input: WriteDecisionInput)
    ensures ConstraintBlockers(input) == [] <==> ConstraintsAgree(input)
  {
  }

  lemma CoverExact(env: Env, input: WriteDecisionInput)
    requires input.resources != []
    ensures ClaimsCoveringAllResources(env, input) != [] <==> CoveredByOwnClaims(env, input)
  {
    var own, covering := OwnClaims(input), ClaimsCoveringAllResources(env, input);
    assert forall c :: c in own <==> c in input.activeClaims && InScope(input, c) && Own(input, c);
    CoveredExact(env, input);
    if CoveredByOwnClaims(env, input) {
      var r := input.resources[0];
      assert r in input.resources;
      var c :| c in input.activeClaims && InScope(input, c) && Own(input, c) && Touches(env, c, r);
      assert c in own && TouchesAny(env, c, input.resources);
      assert c in covering;
    }
  }

  /** A write is permitted exactly under the permit condition. */
  lemma PermitExact(env: Env, input: WriteDecisionInput)
    ensures Decide(env, input).permitted <==> PermitCondition(env, input)
  {
    InvalidRefsExact(input.resources);
    ExternalExact(env, input);
    ConstraintsExact(input);
    OperationExact(env, input);
    if input.resources != [] {
      CoverExact(env, input);
    }
  }

  /** An exclusive claim of the actor for the task holds one of the resources. */
  ghost predicate HoldsOne(env: Env, input: WriteDecisionInput) {
    exists c, r :: Counts(input, c) && c.actorId == input.actorId && c.taskId == input.taskId && c.mode == EXCLUSIVE
                   && r in input.resources && MeetsOne(env, c.resources, r)
  }

  lemma TouchesAnyExact(env: Env, input: WriteDecisionInput, c: Claim)
    ensures TouchesAny(env, c, input.resources) <==> exists r :: r in input.resources && MeetsOne(env, c.resources, r)
  {
    forall r ensures Touches(env, c, r) <==> MeetsOne(env, c.resources, r) {
      MeetsOneExact(env, c.resources, r);
    }
  }

  lemma OwnExact(input: WriteDecisionInput, c: Claim)
    ensures c in OwnClaims(input) <==> Counts(input, c) && c.actorId == input.actorId && c.taskId == input.taskId
  {
  }

  lemma CoveringIs(env: Env, input: WriteDecisionInput, c: Claim)
    requires forall r :: r in input.resources ==> exists d :: d in OwnClaims(input) && Touches(env, d, r)
    ensures c in ClaimsCoveringAllResources(env, input) <==> c in OwnClaims(input) && TouchesAny(env, c, input.resources)
  {
  }

  lemma OwnClaimsTouchAll(env: Env, input: WriteDecisionInput)
    requires CoveredByOwnClaims(env, input)
    ensures forall r :: r in input.resources ==> exists d :: d in OwnClaims(input) && Touches(env, d, r)
  {
    forall r | r in input.resources ensures exists d :: d in OwnClaims(input) && Touches(env, d, r) {
      var c :| Counts(input, c) && c.actorId == input.actorId && c.taskId == input.taskId && MeetsOne(env, c.resources, r);
      OwnExact(input, c);
      MeetsOneExact(env, c.resources, r);
    }
  }

  lemma CoveringExact(env: Env, input: WriteDecisionInput, c: Claim)
    requires CoveredByOwnClaims(env, input)
    ensures c in ClaimsCoveringAllResources(env, input) && c.mode == EXCLUSIVE ==> HoldsOne(env, input)
    ensures Counts(input, c) && c.actorId == input.actorId && c.taskId == input.taskId
            && (exists r :: r in input.resources && MeetsOne(env, c.resources, r)) ==>
              c in ClaimsCoveringAllResources(env, input)
  {
    OwnClaimsTouchAll(env, input);
    CoveringIs(env, input, c);
    OwnExact(input, c);
    TouchesAnyExact(env, input, c);
  }

  lemma ExclusiveCoverExact(env: Env, input: WriteDecisionInput)
    requires CoveredByOwnClaims(env, input)
    ensures (exists c :: c in ClaimsCoveringAllResources(env, input) && c.mode.EXCLUSIVE?) <==> HoldsOne(env, input)
  {
    if c :| c in ClaimsCoveringAllResources(env, input) && c.mode.EXCLUSIVE? {
      CoveringExact(env, input, c);
    }
    if HoldsOne(env, input) {
      var c, r :| Counts(input, c) && c.actorId == input.actorId && c.taskId == input.taskId && c.mode == EXCLUSIVE
                  && r in input.resources && MeetsOne(env, c.resources, r);
      CoveringExact(env, input, c);
    }
  }

  lemma ReasonIs(env: Env, input: WriteDecisionInput)
    requires Decide(env, input).permitted
    ensures var covering := ClaimsCoveringAllResources(env, input);
            Decide(env, input).reason
            == if covering == [] then APPROVED_OPERATION
               else if exists c :: c in covering && c.mode.EXCLUSIVE? then OWNED_CLAIM else SHARED_CLAIM
    ensures input.resources != []
  {
  }

  /** The reason of a permit names what covers it: claims before operations, exclusive before shared. */
  lemma PermitReasonExact(env: Env, input: WriteDecisionInput)
    requires Decide(env, input).permitted
    ensures var reason := Decide(env, input).reason;
            && reason != BLOCKED
            && (reason == APPROVED_OPERATION <==> !CoveredByOwnClaims(env, input))
            && (reason == OWNED_CLAIM <==> CoveredByOwnClaims(env, input) && HoldsOne(env, input))
  {
    ReasonIs(env, input);
    CoverExact(env, input);
    if CoveredByOwnClaims(env, input) {
      ExclusiveCoverExact(env, input);
    }
  }

  /** Only ConstraintsAgree looks at the constraint verdict. */
  lemma VerdictIsSeparate(env: Env, input: WriteDecisionInput, verdict: Option<ConstraintVerdict>)
    ensures var other := input.(constraintDecision := verdict);
            && (NothingStands(env, other) <==> NothingStands(env, input))
            && (CoveredByOwnClaims(env, other) <==> CoveredByOwnClaims(env, input))
            && (OperationCovers(env, other) <==> OperationCovers(env, input))
  {
    var other := input.(constraintDecision := verdict);
    assert forall g :: GateStands(env, other, g) == GateStands(env, input, g);
    assert forall c :: Counts(other, c) == Counts(input, c) && ClaimStands(env, other, c) == ClaimStands(env, input, c);
  }

  // ---- exclusion ------------------------------------------------------------------------------------------

  /** Two different owners can both be permitted on a resource only if no active exclusive claim in their scope
      touches it. */
  lemma NoSharedPermitUnderExclusiveClaim(env: Env, a: WriteDecisionInput, b: WriteDecisionInput, r: ResourceRef, c: Claim)
    requires a.activeClaims == b.activeClaims
    requires a.actorId != b.actorId || a.taskId != b.taskId
    requires r in a.resources && r in b.resources
    requires c in a.activeClaims && InScope(a, c) && InScope(b, c) && c.mode.EXCLUSIVE?
    ensures Decide(env, a).permitted && Decide(env, b).permitted ==> !Touches(env, c, r)
  {
    PermitExact(env, a);
    PermitExact(env, b);
    if Touches(env, c, r) {
      ForeignClaimStands(env, a, r, c);
      ForeignClaimStands(env, b, r, c);
    }
  }

  lemma ForeignClaimStands(env: Env, input: WriteDecisionInput, r: ResourceRef, c: Claim)
    requires r in input.resources && c in input.activeClaims && InScope(input, c) && c.mode.EXCLUSIVE? && Touches(env, c, r)
    ensures !Own(input, c) ==> ClaimStands(env, input, c)
  {
    MeetsOneExact(env, c.resources, r);
  }

  /** Adding foreign claims and gates never turns a refusal into a permit. */
  lemma MoreObstaclesNeverPermit(env: Env, input: WriteDecisionInput, more: WriteDecisionInput)
    requires more == input.(activeClaims := more.activeClaims, activeGates := more.activeGates)
    requires forall g :: g in input.activeGates ==> g in more.activeGates
    requires forall c :: c in input.activeClaims ==> c in more.activeClaims
    requires forall c :: c in more.activeClaims && Own(input, c) ==> c in input.activeClaims
    requires Decide(env, more).permitted
    ensures Decide(env, input).permitted && Decide(env, input).reason == Decide(env, more).reason
  {
    PermitExact(env, input);
    PermitExact(env, more);
    FewerObstacles(env, input, more);
    PermitReasonExact(env, input);
    PermitReasonExact(env, more);
  }

  lemma FewerObstacles(env: Env, input: WriteDecisionInput, more: WriteDecisionInput)
    requires more == input.(activeClaims := more.activeClaims, activeGates := more.activeGates)
    requires forall g :: g in input.activeGates ==> g in more.activeGates
    requires forall c :: c in input.activeClaims ==> c in more.activeClaims
    requires forall c :: c in more.activeClaims && Own(input, c) ==> c in input.activeClaims
    ensures NothingStands(env, more) ==> NothingStands(env, input)
    ensures CoveredByOwnClaims(env, more) <==> CoveredByOwnClaims(env, input)
    ensures OperationCovers(env, more) <==> OperationCovers(env, input)
    ensures PermitCondition(env, more) ==> PermitCondition(env, input)
  {
    assert forall g :: GateStands(env, input, g) == GateStands(env, more, g);
    assert forall c :: ClaimStands(env, input, c) ==> ClaimStands(env, more, c);
    forall c | Own(input, c) ensures Counts(input, c) <==> Counts(more, c) {
    }
  }

  // ---- the later audit ------------------------------------------------------------------------------------

  function ContextOf(g: Gate): GateContext {
    GateContext(g.id, g.relatedFiles, g.relatedResources)
  }

  /** The permit skips file lists for other resource types; such lists never match them anyway. */
  lemma SameGateTest(env: Env, g: Gate, r: ResourceRef)
    ensures GateOverlapsResource(env, g, r) == GateMatchesResource(env, ContextOf(g), r)
  {
  }

  /** The audit looks at the claims and gates the permit looked at. */
  ghost predicate SameView(input: WriteDecisionInput, audit: AuditInput) {
    && audit.actorId == input.actorId
    && audit.activeClaims == input.activeClaims
    && (forall c :: c in input.activeClaims ==> InScope(input, c))
    && (forall ag :: ag in audit.blockingGates ==>
          exists g :: g in input.activeGates && ag == ContextOf(g) && IsGateBlocking(g)
                      && (g.taskId == "" || g.taskId == input.taskId) && SessionMatches(input.sessionId, g.sessionId))
  }

  /** A permitted write is never reported as pollution or alert; it audits as a claimed write when own claims
      covered it. */
  lemma PermittedWriteIsClean(env: Env, input: WriteDecisionInput, audit: AuditInput)
    requires Decide(env, input).permitted && audit.changedResource in input.resources && SameView(input, audit)
    ensures var kind := EvaluateFileAuditChange(env, audit).kind;
            && (kind == CLAIMED_WRITE || kind == FILE_CHANGED)
            && (Decide(env, input).reason != APPROVED_OPERATION ==> kind == CLAIMED_WRITE)
  {
    var r := audit.changedResource;
    PermitExact(env, input);
    PermitReasonExact(env, input);
    AuditVerdictExact(env, audit);
    forall ag | ag in audit.blockingGates ensures !GateMatchesResource(env, ag, r) {
      var g :| g in input.activeGates && ag == ContextOf(g) && IsGateBlocking(g)
               && (g.taskId == "" || g.taskId == input.taskId) && SessionMatches(input.sessionId, g.sessionId);
      SameGateTest(env, g, r);
    }
    forall c | c in input.activeClaims && c.actorId != input.actorId && c.mode.EXCLUSIVE? ensures !Touches(env, c, r) {
      assert Touches(env, c, r) ==> TouchesAny(env, c, input.resources);
    }
  }

  /** c stands against a write of the resource in the eyes of the permit. */
  predicate Against(env: Env, input: WriteDecisionInput, r: ResourceRef, c: Claim) {
    c in input.activeClaims && !Own(input, c) && c.mode.EXCLUSIVE? && Touches(env, c, r)
  }

  /** Permit and audit on one resource, for claims in scope and no gate that meets it. A claim against it refuses the
      write. The audit calls the same write pollution exactly when one of those claims belongs to another actor; they
      disagree exactly when all of them are the same actor's, for other tasks, and then the audit calls the write
      claimed. */
  lemma RefusalAuditsExact(env: Env, input: WriteDecisionInput, audit: AuditInput)
    requires audit.actorId == input.actorId && audit.activeClaims == input.activeClaims
    requires audit.changedResource in input.resources
    requires forall c :: c in input.activeClaims ==> InScope(input, c)
    requires forall g :: g in audit.blockingGates ==> !GateMatchesResource(env, g, audit.changedResource)
    requires exists c :: Against(env, input, audit.changedResource, c)
    ensures !Decide(env, input).permitted
    ensures EvaluateFileAuditChange(env, audit).kind == FILE_POLLUTION_DETECTED
       <==> exists c :: Against(env, input, audit.changedResource, c) && c.actorId != input.actorId
    ensures EvaluateFileAuditChange(env, audit).kind != FILE_POLLUTION_DETECTED
       <==> forall c :: Against(env, input, audit.changedResource, c) ==>
                          c.actorId == input.actorId && c.taskId != input.taskId
    ensures EvaluateFileAuditChange(env, audit).kind != FILE_POLLUTION_DETECTED ==>
              EvaluateFileAuditChange(env, audit).kind == CLAIMED_WRITE
  {
    var r := audit.changedResource;
    var c :| Against(env, input, r, c);
    ForeignClaimStands(env, input, r, c);
    ClaimRefuses(env, input, c);
    AuditVerdictExact(env, audit);
  }

  lemma ClaimRefuses(env: Env, input: WriteDecisionInput, c: Claim)
    requires ClaimStands(env, input, c)
    ensures !Decide(env, input).permitted
  {
    PermitExact(env, input);
  }

  /** For example: a write that is refused because the same actor holds the file for another task
      audits as a claimed write. */
  lemma AuditForgetsTasks(env: Env, r: ResourceRef)
    requires ValidRef(r) && ReflexiveMatchers(env) && r.scope.FileScope?
    ensures var claim := Claim("c", "a", "t2", "", [r], EXCLUSIVE, ACTIVE);
            var input := WriteDecisionInput("a", "t1", "", [r], None, [claim], [], None);
            && Decide(env, input) == Refusal([Blocker(ResourceClaimBlocker, "c")])
            && EvaluateFileAuditChange(env, AuditInput("a", r, [claim], [])).kind == CLAIMED_WRITE
  {
    var claim := Claim("c", "a", "t2", "", [r], EXCLUSIVE, ACTIVE);
    var input := WriteDecisionInput("a", "t1", "", [r], None, [claim], [], None);
    SelfOverlapExact(env, r);
    assert ResourceLocatorsOverlap(env, claim.resources[0], r);
    assert Touches(env, claim, r);
    assert TouchesAny(env, claim, input.resources);
    AuditVerdictExact(env, AuditInput("a", r, [claim], []));
    InvalidRefsExact(input.resources);
    assert RelevantBlockingGates(env, input) == [];
    assert [claim][1..] == [];
    assert ActiveClaimsInScope(input) == [claim];
    assert ConflictingExclusiveClaims(env, input) == [claim];
    assert ExternalBlockers(env, input) == [Blocker(ResourceClaimBlocker, "c")];
  }
}
