/** From project memories to the refusal of a write: the four packages composed the way a write check composes them. */
module Pipeline {
  import opened Text
  import opened Filters
  import opened NormalizedPath
  import opened ResourcePath
  import opened Resources
  import opened RootedPath
  import opened ProjectionRouting
  import opened Projection
  import opened Constraints
  import opened ConstraintTheorems
  import opened WriteContext
  import ProjectionTheorems
  import Locators
  import W = WritePermit
  import P = PermitTheorems

  // ---- which memories protect -----------------------------------------------------------------------------

  /** A memory that ends up among the do-not-touch rules. */
  predicate Enforced(m: Memory) {
    || (m.kind == "do_not_touch" && m.projectionTarget != "protocol_gate")
    || (m.projectionTarget == "constraint_runtime" && Contains(m.kind, P4))
  }

  predicate Protects(matchers: Matchers, ctx: Context, resources: seq<ResourceRef>, m: Memory) {
    && !Outdated(m)
    && IsRelevant(matchers, m.appliesTo, ctx)
    && Enforced(m)
    && ScopeOverlaps(matchers, resources, m.appliesTo) != []
  }

  /** A memory is enforced exactly when its route leads to the do-not-touch bucket, or to the constraint rules with
      the do-not-touch mark. */
  lemma EnforcedIsRouted(m: Memory)
    ensures Enforced(m) <==>
            var b := RouteBucket(m.kind, m.projectionTarget);
            b == DoNotTouch || (b == ConstraintRules && IsDoNotTouch(ItemOf(m)))
  {
    if m.projectionTarget == "constraint_runtime" {
      ExplicitReasonMark(m.kind);
    } else if RouteBucket(m.kind, m.projectionTarget) == ConstraintRules {
      DefaultConstraintReasonUnmarked();
    }
  }

  /** The items checked for protected scopes are exactly those of the live, relevant, enforced memories. */
  lemma RulesComeFromMemories(rt: Runtime, projectionId: string, memories: seq<Memory>, ctx: Context, item: Item)
    ensures item in DoNotTouchRules(Project(rt.matchers, projectionId, memories, ctx))
            <==> exists m :: m in memories && !Outdated(m) && IsRelevant(rt.matchers, m.appliesTo, ctx) && Enforced(m) && item == ItemOf(m)
  {
    ProjectionTheorems.InBucket(rt.matchers, ctx, memories, DoNotTouch, item);
    ProjectionTheorems.InBucket(rt.matchers, ctx, memories, ConstraintRules, item);
    forall m {
      EnforcedIsRouted(m);
    }
  }

  /** The input a projection is checked with. */
  function InputFor(rt: Runtime, action: string, projectionId: string, memories: seq<Memory>, ctx: Context,
                    touched: seq<ResourceRef>, snapshotValid: Option<bool>, gateBlockers: seq<string>): ConstraintInput {
    ConstraintInput(action, Project(rt.matchers, projectionId, memories, ctx), touched, snapshotValid, gateBlockers)
  }

  /** Protection, end to end: a do-not-touch blocker with an id is reported exactly when a protecting memory has
      that id. */
  lemma ProtectionExact(rt: Runtime, projectionId: string, memories: seq<Memory>, ctx: Context, input: ConstraintInput, id: string)
    requires input.projection == Project(rt.matchers, projectionId, memories, ctx)
    ensures (exists v :: v in DoNotTouchBlockers(rt.matchers, input) && v.sourceMemoryId == id)
            <==> exists m :: m in memories && m.id == id && Protects(rt.matchers, ctx, input.touchedResources, m)
  {
    if v :| v in DoNotTouchBlockers(rt.matchers, input) && v.sourceMemoryId == id {
      BlockerComesFromMemory(rt, projectionId, memories, ctx, input, v);
    }
    if m :| m in memories && m.id == id && Protects(rt.matchers, ctx, input.touchedResources, m) {
      var v := MemoryYieldsBlocker(rt, projectionId, memories, ctx, input, m);
    }
  }

  lemma BlockerComesFromMemory(rt: Runtime, projectionId: string, memories: seq<Memory>, ctx: Context, input: ConstraintInput, v: Violation)
    requires input.projection == Project(rt.matchers, projectionId, memories, ctx)
    requires v in DoNotTouchBlockers(rt.matchers, input)
    ensures exists m :: m in memories && m.id == v.sourceMemoryId && Protects(rt.matchers, ctx, input.touchedResources, m)
  {
    var rules := DoNotTouchRules(input.projection);
    InProtected(rt.matchers, input, rules, v);
    var item :| item in rules && v in ProtectedBlocker(rt.matchers, input, item);
    RulesComeFromMemories(rt, projectionId, memories, ctx, item);
  }

  lemma MemoryYieldsBlocker(rt: Runtime, projectionId: string, memories: seq<Memory>, ctx: Context, input: ConstraintInput, m: Memory)
    returns (v: Violation)
    requires input.projection == Project(rt.matchers, projectionId, memories, ctx)
    requires m in memories && Protects(rt.matchers, ctx, input.touchedResources, m)
    ensures v in DoNotTouchBlockers(rt.matchers, input) && v.sourceMemoryId == m.id
  {
    RulesComeFromMemories(rt, projectionId, memories, ctx, ItemOf(m));
    v := ProtectedBlocker(rt.matchers, input, ItemOf(m))[0];
    InProtected(rt.matchers, input, DoNotTouchRules(input.projection), v);
  }

  // ---- relevance in the write path ------------------------------------------------------------------------

  /** Two different comparisons must both succeed: a memory protects a write exactly when it is live and enforced, its
      scope overlaps the written resources, and one of its fields has a hit among the targets the relevance filter
      sees. */
  lemma WriteProtectionExact(matchers: Matchers, norm: Norm, resources: seq<ResourceRef>, m: Memory)
    ensures Protects(matchers, WriteContextOf(norm, resources), resources, m)
            <==> && !Outdated(m) && Enforced(m) && ScopeOverlaps(matchers, resources, m.appliesTo) != []
                 && exists f :: f in m.appliesTo.value && SeenHits(matchers, norm, resources, f) != []
  {
    if ScopeOverlaps(matchers, resources, m.appliesTo) != [] {
      ScopeOverlapsExact(matchers, resources, m.appliesTo);
      var f :| f in m.appliesTo.value && FieldHits(matchers, resources, f) != [];
      assert f.patterns != [];
      forall f {
        MatchIsHit(matchers, norm, resources, f);
      }
    }
  }

  /** An overlap on a field that the filter sees as it was written is enough. */
  lemma OverlapSeenAsWrittenProtects(matchers: Matchers, norm: Norm, resources: seq<ResourceRef>, m: Memory, f: ScopeField)
    requires !Outdated(m) && Enforced(m) && m.appliesTo.Some? && f in m.appliesTo.value
    requires FieldHits(matchers, resources, f) != [] && SeenAsWritten(matchers, norm, resources, f.field)
    ensures Protects(matchers, WriteContextOf(norm, resources), resources, m)
  {
    ScopeOverlapsExact(matchers, resources, m.appliesTo);
    MatchIsHit(matchers, norm, resources, f);
  }

  /** The filter sees nothing on a field without a typed matcher, other than the two locator fields: a memory whose
      scope has only such fields protects no write, whatever is registered, requested or rooted. */
  lemma CustomFieldIsNotProtected(matchers: Matchers, norm: Norm, resources: seq<ResourceRef>, m: Memory)
    requires m.appliesTo.Some?
    requires forall f :: f in m.appliesTo.value ==> !TypedField(matchers, f.field) && !LocatorField(f.field)
    ensures !Protects(matchers, WriteContextOf(norm, resources), resources, m)
  {
    WriteProtectionExact(matchers, norm, resources, m);
  }

  /** The generic plugin registers assetTypes without types, and matches by equality. */
  ghost predicate GenericAssetTypes(matchers: Matchers) {
    && "assetTypes" in matchers && matchers["assetTypes"].resourceTypes == []
    && forall p, t :: matchers["assetTypes"].findOverlaps(p, t) == Filter(t, (x: string) => x in p)
  }

  /** So the plugin's own field assetTypes protects nothing, although the scope check has a hit exactly when a pattern
      is the locator of a written resource. */
  lemma AssetTypesAreNotProtected(matchers: Matchers, norm: Norm, resources: seq<ResourceRef>, m: Memory, patterns: seq<string>)
    requires GenericAssetTypes(matchers) && m.appliesTo == Some([ScopeField("assetTypes", patterns)])
    ensures !Protects(matchers, WriteContextOf(norm, resources), resources, m)
    ensures ScopeOverlaps(matchers, resources, m.appliesTo) != [] <==> exists r :: r in resources && r.locator in patterns
  {
    var f := ScopeField("assetTypes", patterns);
    assert f in m.appliesTo.value;
    CustomFieldIsNotProtected(matchers, norm, resources, m);
    ScopeOverlapsExact(matchers, resources, m.appliesTo);
    EqualLocatorsHit(matchers, resources, f);
  }

  lemma EqualLocatorsHit(matchers: Matchers, resources: seq<ResourceRef>, f: ScopeField)
    requires GenericAssetTypes(matchers) && f.field == "assetTypes"
    ensures FieldHits(matchers, resources, f) != [] <==> exists r :: r in resources && r.locator in f.patterns
  {
    var locators := LocatorsOf(resources);
    var hits := Filter(locators, (x: string) => x in f.patterns);
    if hits != [] {
      assert hits[0] in hits;
      var i :| 0 <= i < |resources| && locators[i] == hits[0];
      assert resources[i] in resources;
    }
    if r :| r in resources && r.locator in f.patterns {
      var i :| 0 <= i < |resources| && resources[i] == r;
      assert locators[i] == r.locator;
      assert r.locator in hits;
    }
  }

  /** Files the second rooting leaves alone. */
  predicate FilesSettled(norm: Norm, resources: seq<ResourceRef>) {
    forall r :: r in resources && r.rtype == "file" ==> norm(r.locator) == r.locator
  }

  /** On the fields of the code plugin a live enforced memory protects a write exactly when one of its patterns overlaps
      one of the files, whatever else is written. */
  lemma FileProtectionExact(matchers: Matchers, norm: Norm, resources: seq<ResourceRef>, m: Memory)
    requires m.appliesTo.Some? && forall f :: f in m.appliesTo.value ==> CodeField(matchers, f.field)
    requires FilesSettled(norm, resources)
    ensures Protects(matchers, WriteContextOf(norm, resources), resources, m)
            <==> !Outdated(m) && Enforced(m) && exists f :: f in m.appliesTo.value && Touched(f.patterns, resources)
  {
    WriteProtectionExact(matchers, norm, resources, m);
    ScopeOverlapsExact(matchers, resources, m.appliesTo);
    forall f | f in m.appliesTo.value ensures FieldHits(matchers, resources, f) != [] <==> Touched(f.patterns, resources) {
      FileHitsExact(matchers, resources, f);
    }
    if f :| f in m.appliesTo.value && Touched(f.patterns, resources) {
      var p, r :| p in f.patterns && r in resources && r.rtype == "file" && Locators.PathsOverlap(p, r.locator);
      FileHitsAreSeen(matchers, norm, resources, f, r);
    }
  }

  /** One touched field of the code plugin is enough. */
  lemma TouchedFieldProtects(matchers: Matchers, norm: Norm, resources: seq<ResourceRef>, m: Memory, f: ScopeField, r: ResourceRef)
    requires !Outdated(m) && Enforced(m) && m.appliesTo.Some? && f in m.appliesTo.value && CodeField(matchers, f.field)
    requires r in resources && r.rtype == "file" && norm(r.locator) == r.locator
    requires exists p :: p in f.patterns && Locators.PathsOverlap(p, r.locator)
    ensures Protects(matchers, WriteContextOf(norm, resources), resources, m)
  {
    FileHitsExact(matchers, resources, f);
    ScopeOverlapsExact(matchers, resources, m.appliesTo);
    FileHitsAreSeen(matchers, norm, resources, f, r);
    WriteProtectionExact(matchers, norm, resources, m);
  }

  /** The generic plugin is registered for the resources field and for this type. */
  ghost predicate GenericResources(matchers: Matchers, rtype: string) {
    && "resources" in matchers && rtype in matchers["resources"].resourceTypes
    && forall p, t :: matchers["resources"].findOverlaps(p, t) == GenericOverlaps(p, t)
  }

  predicate PlainLocator(locator: string) {
    && locator != "" && Trimmed(locator) && !IsUriScheme(locator) && !IsAbsolutePath(locator)
    && StartsPlain(Locators.LocatorPath(locator))
  }

  predicate StartsPlain(path: string) {
    path != "" && path[0] != '/'
  }

  predicate StartsAtSlash(path: string) {
    path != "" && path[0] == '/'
  }

  /** A do-not-touch memory that names a resource by its own plain locator overlaps a write of that resource and is
      filtered out below every POSIX root: the filter compares the rooted locator with the plain one. */
  lemma PlainLocatorIsNotProtected(matchers: Matchers, root: string, caseSensitive: bool, r: ResourceRef, m: Memory)
    requires r.rtype != "file" && GenericResources(matchers, r.rtype) && PlainLocator(r.locator)
    requires StartsAtSlash(root) && Home(root) != ""
    requires !Outdated(m) && m.kind == "do_not_touch" && m.projectionTarget != "protocol_gate"
    requires m.appliesTo == Some([ScopeField("resources", [r.locator])])
    ensures ScopeOverlaps(matchers, [r], m.appliesTo) != []
    ensures !Protects(matchers, WriteContextOf(InRoot(root, caseSensitive), [r]), [r], m)
  {
    BelowSlashRoot(r.locator, root, caseSensitive);
    RootedAwayIsNotProtected(matchers, InRoot(root, caseSensitive), r, m);
  }

  lemma RootedAwayIsNotProtected(matchers: Matchers, norm: Norm, r: ResourceRef, m: Memory)
    requires r.rtype != "file" && GenericResources(matchers, r.rtype)
    requires StartsAtSlash(norm(r.locator)) && StartsPlain(Locators.LocatorPath(r.locator))
    requires !Outdated(m) && m.kind == "do_not_touch" && m.projectionTarget != "protocol_gate"
    requires m.appliesTo == Some([ScopeField("resources", [r.locator])])
    ensures ScopeOverlaps(matchers, [r], m.appliesTo) != []
    ensures !Protects(matchers, WriteContextOf(norm, [r]), [r], m)
  {
    var f := ScopeField("resources", [r.locator]);
    PlainNamesItself(matchers, r, f);
    assert f in m.appliesTo.value;
    ScopeOverlapsExact(matchers, [r], m.appliesTo);
    RootedIsNotPlain(norm(r.locator), r.locator);
    LoneResourceSeen(matchers, norm, r);
    RootedMissesPlain(matchers, norm, r, f);
    WriteProtectionExact(matchers, norm, [r], m);
  }

  lemma PlainNamesItself(matchers: Matchers, r: ResourceRef, f: ScopeField)
    requires GenericResources(matchers, r.rtype) && f == ScopeField("resources", [r.locator])
    ensures FieldHits(matchers, [r], f) != []
  {
    var one := [r];
    var typed := OfTypes(one, matchers["resources"].resourceTypes);
    assert r in one && r in typed;
    var i :| 0 <= i < |typed| && typed[i] == r;
    assert LocatorsOf(typed)[i] == r.locator;
    Locators.LocatorOverlapIsAncestry(r.locator, r.locator);
    assert r.locator in f.patterns;
    assert r.locator in GenericOverlaps(f.patterns, LocatorsOf(typed));
  }

  lemma RootedIsNotPlain(rooted: string, locator: string)
    requires StartsAtSlash(rooted) && StartsPlain(Locators.LocatorPath(locator))
    ensures rooted != locator
  {
    PathOfAnchored(rooted);
  }

  lemma RootedMissesPlain(matchers: Matchers, norm: Norm, r: ResourceRef, f: ScopeField)
    requires GenericResources(matchers, r.rtype) && f == ScopeField("resources", [r.locator])
    requires Seen(matchers, norm, [r], "resources") == [norm(r.locator)]
    requires StartsAtSlash(norm(r.locator)) && StartsPlain(Locators.LocatorPath(r.locator))
    ensures SeenHits(matchers, norm, [r], f) == []
  {
    AnchoredNeverOverlapsPlain(norm(r.locator), r.locator);
    var hits := GenericOverlaps(f.patterns, [norm(r.locator)]);
    assert forall t :: t !in hits;
  }

  /** For example the artifact "logo" of a project at "/p". */
  lemma LogoIsNotProtected(matchers: Matchers, caseSensitive: bool, m: Memory)
    requires GenericResources(matchers, "artifact")
    requires !Outdated(m) && m.kind == "do_not_touch" && m.projectionTarget != "protocol_gate"
    requires m.appliesTo == Some([ScopeField("resources", ["logo"])])
    ensures var r := ResourceRef("artifact", "logo", FileScope, None, None);
            && ScopeOverlaps(matchers, [r], m.appliesTo) != []
            && !Protects(matchers, WriteContextOf(InRoot("/p", caseSensitive), [r]), [r], m)
  {
    PlainLogo();
    PlainLocatorIsNotProtected(matchers, "/p", caseSensitive, ResourceRef("artifact", "logo", FileScope, None, None), m);
  }

  lemma PlainLogo()
    ensures PlainLocator("logo") && Home("/p") == "/p"
  {
    var logo := "logo";
    assert logo[0] == 'l' && logo[3] == 'o';
    forall i ensures !OccursAt(logo, "://", i) {
      if OccursAt(logo, "://", i) {
        OccursThree(logo, i);
      }
    }
    forall i ensures !OccursAt(logo, "#", i) {
      OccursChar(logo, '#', i);
    }
    assert !Locators.HasScheme(logo);
    assert IndexFrom(logo, "#", 0) == -1;
    assert Slashes("/p") == "/p";
  }

  // ---- the write check ------------------------------------------------------------------------------------

  function RuleText(rule: RuleName): string {
    match rule
    case ProjectionInvalid => "projection_invalid"
    case ProjectionConflict => "projection_conflict"
    case DoNotTouchScopeOverlap => "do_not_touch_scope_overlap"
    case ProtocolGateBlocked => "protocol_gate_blocked"
    case SnapshotLockedInvalid => "snapshot_locked_invalid"
    case RequireReview => "hard_constraint_require_review"
    case HardConstraintAdvisory => "hard_constraint_advisory"
    case PluginRule(name) => name
  }

  function ToBlocker(v: Violation): W.ConstraintBlocker {
    W.ConstraintBlocker(RuleText(v.rule), v.sourceMemoryId, v.projectionId)
  }

  function ToVerdict(d: Decision): W.ConstraintVerdict {
    W.ConstraintVerdict(d.permitted, seq(|d.blockers|, i requires 0 <= i < |d.blockers| => ToBlocker(d.blockers[i])), false)
  }

  /** What the constraints say about a write of these resources. */
  function WriteConstraintInput(rt: Runtime, norm: Norm, projectionId: string, memories: seq<Memory>,
                                resources: seq<ResourceRef>): ConstraintInput {
    InputFor(rt, "operation_apply", projectionId, memories, WriteContextOf(norm, resources), resources, None, [])
  }

  /** The decision on a request as it stands: what a check comes to after rooting its locators, and what an issued
      permit is validated with again. norm roots the locators of the context. */
  function WriteCheck(env: Env, rt: Runtime, norm: Norm, projectionId: string, memories: seq<Memory>,
                      request: W.WriteDecisionInput): W.WriteDecision {
    var verdict := ToVerdict(Evaluate(rt, WriteConstraintInput(rt, norm, projectionId, memories, request.resources)));
    W.Decide(env, request.(constraintDecision := Some(verdict)))
  }

  /** The guarded root, which the request's file locators are rooted at, and the project root of the projection. */
  datatype Roots = Roots(guarded: string, project: string)

  function RootedRequest(env: Env, roots: Roots, request: W.WriteDecisionInput): W.WriteDecisionInput {
    request.(resources := RootedRefs(InRoot(roots.guarded, env.caseSensitive), request.resources))
  }

  method DecideWrite(env: Env, rt: Runtime, norm: Norm, projectionId: string, memories: seq<Memory>,
                     request: W.WriteDecisionInput)
    returns (d: W.WriteDecision)
    ensures d == WriteCheck(env, rt, norm, projectionId, memories, request)
  {
    var projection := BuildRealityProjection(rt.matchers, projectionId, memories, WriteContextOf(norm, request.resources));
    var decision := EvaluateConstraints(rt, ConstraintInput("operation_apply", projection, request.resources, None, []));
    d := W.EvaluateWriteDecision(env, request.(constraintDecision := Some(ToVerdict(decision))));
  }

  method CheckWrite(env: Env, rt: Runtime, roots: Roots, projectionId: string, memories: seq<Memory>,
                    request: W.WriteDecisionInput)
    returns (d: W.WriteDecision)
    ensures d == WriteCheck(env, rt, InRoot(roots.project, env.caseSensitive), projectionId, memories,
                            RootedRequest(env, roots, request))
  {
    d := DecideWrite(env, rt, InRoot(roots.project, env.caseSensitive), projectionId, memories,
                     RootedRequest(env, roots, request));
  }

  /** A denied evaluation always names a blocker, so the write decision takes it seriously. */
  lemma DenialIsHeard(rt: Runtime, input: ConstraintInput, request: W.WriteDecisionInput)
    requires request.constraintDecision == Some(ToVerdict(Evaluate(rt, input)))
    ensures P.ConstraintsAgree(request) <==> AllBlockers(rt, input) == []
    ensures |W.ConstraintBlockers(request)| == |AllBlockers(rt, input)|
  {
  }

  /** A denial without blockers would pass: the decision only counts blockers. */
  lemma EmptyDenialWouldPass(request: W.WriteDecisionInput)
    requires request.constraintDecision == Some(W.ConstraintVerdict(false, [], false))
    ensures W.ConstraintBlockers(request) == []
  {
  }

  /** A typed rule blocks the action: it demands a review, or its plugin finds something. */
  ghost predicate TypedViolation(rt: Runtime, input: ConstraintInput, item: Item) {
    item in input.projection.constraintRules && Blocks(rt.evaluators, input, item)
  }

  ghost predicate ConstraintsClear(rt: Runtime, norm: Norm, projectionId: string, memories: seq<Memory>, resources: seq<ResourceRef>) {
    var input := WriteConstraintInput(rt, norm, projectionId, memories, resources);
    && input.projection.conflicts == []
    && (forall m :: m in memories ==> !Protects(rt.matchers, WriteContextOf(norm, resources), resources, m))
    && (forall item :: !TypedViolation(rt, input, item))
  }

  lemma NoProtectedExact(rt: Runtime, projectionId: string, memories: seq<Memory>, ctx: Context, input: ConstraintInput)
    requires input.projection == Project(rt.matchers, projectionId, memories, ctx)
    ensures DoNotTouchBlockers(rt.matchers, input) == []
            <==> forall m :: m in memories ==> !Protects(rt.matchers, ctx, input.touchedResources, m)
  {
    var vs := DoNotTouchBlockers(rt.matchers, input);
    if vs != [] {
      assert vs[0] in vs;
      ProtectionExact(rt, projectionId, memories, ctx, input, vs[0].sourceMemoryId);
    }
    if m :| m in memories && Protects(rt.matchers, ctx, input.touchedResources, m) {
      ProtectionExact(rt, projectionId, memories, ctx, input, m.id);
    }
  }

  lemma AllBlockersLength(rt: Runtime, input: ConstraintInput)
    ensures |AllBlockers(rt, input)| == |InvalidBlockers(input)| + |ConflictBlockers(input)| + |DoNotTouchBlockers(rt.matchers, input)|
                                        + |ProtocolBlockers(input)| + |SnapshotBlockers(input)|
                                        + |TypedBlockers(rt.evaluators, input, input.projection.constraintRules)|
  {
  }

  lemma NoTypedExact(rt: Runtime, input: ConstraintInput)
    ensures TypedBlockers(rt.evaluators, input, input.projection.constraintRules) == []
            <==> forall item :: !TypedViolation(rt, input, item)
  {
    NoTypedBlockers(rt.evaluators, input, input.projection.constraintRules);
    assert forall item :: TypedViolation(rt, input, item)
             <==> item in input.projection.constraintRules && Blocks(rt.evaluators, input, item);
  }

  /** In a write check nothing else can block: a built projection is never invalid, and no snapshot or gate verdict
      is passed on. */
  lemma ClearExact(rt: Runtime, norm: Norm, projectionId: string, memories: seq<Memory>, resources: seq<ResourceRef>)
    ensures AllBlockers(rt, WriteConstraintInput(rt, norm, projectionId, memories, resources)) == []
            <==> ConstraintsClear(rt, norm, projectionId, memories, resources)
  {
    var input := WriteConstraintInput(rt, norm, projectionId, memories, resources);
    AllBlockersLength(rt, input);
    NoProtectedExact(rt, projectionId, memories, WriteContextOf(norm, resources), input);
    NoTypedExact(rt, input);
    assert input.touchedResources == resources;
    assert |InvalidBlockers(input)| == 0;
    assert |ProtocolBlockers(input)| == 0;
    assert |SnapshotBlockers(input)| == 0;
    assert |ConflictBlockers(input)| == 0 <==> input.projection.conflicts == [];
    assert AllBlockers(rt, input) == [] <==> |AllBlockers(rt, input)| == 0;
  }

  lemma SamePermitCondition(env: Env, request: W.WriteDecisionInput, verdict: Option<W.ConstraintVerdict>)
    ensures P.PermitCondition(env, request.(constraintDecision := verdict))
            <==> P.PermitCondition(env, request.(constraintDecision := None))
                 && P.ConstraintsAgree(request.(constraintDecision := verdict))
  {
    P.VerdictIsSeparate(env, request, verdict);
    P.VerdictIsSeparate(env, request, None);
  }

  /** The whole pipeline: a write is permitted exactly when claims, gates and operations allow it and the projected
      memories hold no conflict, no protecting memory and no typed violation. */
  lemma WriteCheckExact(env: Env, rt: Runtime, norm: Norm, projectionId: string, memories: seq<Memory>, request: W.WriteDecisionInput)
    ensures WriteCheck(env, rt, norm, projectionId, memories, request).permitted
            <==> P.PermitCondition(env, request.(constraintDecision := None))
                 && ConstraintsClear(rt, norm, projectionId, memories, request.resources)
  {
    var input := WriteConstraintInput(rt, norm, projectionId, memories, request.resources);
    var verdict := Some(ToVerdict(Evaluate(rt, input)));
    var full := request.(constraintDecision := verdict);
    P.PermitExact(env, full);
    SamePermitCondition(env, request, verdict);
    DenialIsHeard(rt, input, full);
    ClearExact(rt, norm, projectionId, memories, request.resources);
  }

  /** A protecting memory refuses the write, whatever claims the agent holds. */
  lemma ProtectedScopeRefusesWrite(env: Env, rt: Runtime, norm: Norm, projectionId: string, memories: seq<Memory>,
                                   request: W.WriteDecisionInput, m: Memory)
    requires m in memories && Protects(rt.matchers, WriteContextOf(norm, request.resources), request.resources, m)
    ensures !WriteCheck(env, rt, norm, projectionId, memories, request).permitted
  {
    WriteCheckExact(env, rt, norm, projectionId, memories, request);
  }

  /** A rule of the constraint runtime: its kind or its target sends it there. */
  predicate ForRuntime(m: Memory) {
    m.projectionTarget == "constraint_runtime"
    || (m.kind == "hard_constraint" && m.projectionTarget !in {"protocol_gate", "context_snapshot"})
  }

  /** No protected scope by its kind. */
  predicate Unmarked(m: Memory) {
    m.kind != "do_not_touch" && !Contains(m.kind, P4)
  }

  lemma RuntimeRule(m: Memory)
    requires ForRuntime(m) && Unmarked(m)
    ensures RouteBucket(m.kind, m.projectionTarget) == ConstraintRules && !IsDoNotTouch(ItemOf(m))
  {
    BucketReachedExact(m.kind, m.projectionTarget);
    if m.projectionTarget == "constraint_runtime" {
      ExplicitReasonMark(m.kind);
    } else {
      DefaultConstraintReasonUnmarked();
    }
  }

  /** The memory demands a review before a write is applied. */
  predicate ReviewRule(m: Memory) {
    && m.validatorType == "require_review"
    && (m.validatorConfig == None || m.validatorConfig.value.actions == [] || "operation_apply" in m.validatorConfig.value.actions)
  }

  lemma ReviewRuleBlocks(rt: Runtime, norm: Norm, projectionId: string, memories: seq<Memory>, resources: seq<ResourceRef>, m: Memory)
    requires m in memories && !Outdated(m) && IsRelevant(rt.matchers, m.appliesTo, WriteContextOf(norm, resources))
    requires ForRuntime(m) && Unmarked(m) && ReviewRule(m)
    ensures TypedViolation(rt, WriteConstraintInput(rt, norm, projectionId, memories, resources), ItemOf(m))
  {
    RuntimeRule(m);
    ProjectionTheorems.InBucket(rt.matchers, WriteContextOf(norm, resources), memories, ConstraintRules, ItemOf(m));
  }

  /** A live, relevant rule that demands a review refuses every write, whatever claims the agent holds. */
  lemma ReviewRuleRefusesWrite(env: Env, rt: Runtime, norm: Norm, projectionId: string, memories: seq<Memory>,
                               request: W.WriteDecisionInput, m: Memory)
    requires m in memories && !Outdated(m) && IsRelevant(rt.matchers, m.appliesTo, WriteContextOf(norm, request.resources))
    requires ForRuntime(m) && Unmarked(m) && ReviewRule(m)
    ensures !WriteCheck(env, rt, norm, projectionId, memories, request).permitted
  {
    ReviewRuleBlocks(rt, norm, projectionId, memories, request.resources, m);
    WriteCheckExact(env, rt, norm, projectionId, memories, request);
  }

  /** The locators of a rooted request of files are settled when they have no outer white space and are no bare
      drive. */
  lemma RootedFilesSettle(env: Env, roots: Roots, request: W.WriteDecisionInput)
    requires IsAbsolutePath(roots.guarded) && Home(roots.guarded) != ""
    requires IsAbsolutePath(roots.project) && Home(roots.project) != ""
    requires forall r :: r in request.resources ==> r.rtype == "file"
    requires forall r :: r in RootedRequest(env, roots, request).resources ==> Trimmed(r.locator) && !BareDrive(r.locator)
    ensures Settled(InRoot(roots.project, env.caseSensitive), RootedRequest(env, roots, request).resources)
  {
    var rooted := RootedRequest(env, roots, request).resources;
    forall i | 0 <= i < |rooted| ensures InRoot(roots.project, env.caseSensitive)(rooted[i].locator) == rooted[i].locator {
      assert request.resources[i] in request.resources && rooted[i] in rooted;
      SecondRootingExact(request.resources[i].locator, roots.guarded, roots.project, env.caseSensitive);
    }
  }

  lemma SettledOverlapRefusesWrite(env: Env, rt: Runtime, norm: Norm, projectionId: string, memories: seq<Memory>,
                                   request: W.WriteDecisionInput, m: Memory, f: ScopeField)
    requires Settled(norm, request.resources) && forall r :: r in request.resources ==> r.rtype == "file"
    requires m in memories && !Outdated(m) && Enforced(m) && m.appliesTo.Some? && f in m.appliesTo.value
    requires LocatorField(f.field) || TypedField(rt.matchers, f.field)
    requires FieldHits(rt.matchers, request.resources, f) != []
    ensures !WriteCheck(env, rt, norm, projectionId, memories, request).permitted
  {
    SettledFilesAreSeen(rt.matchers, norm, request.resources, f.field);
    OverlapSeenAsWrittenProtects(rt.matchers, norm, request.resources, m, f);
    ProtectedScopeRefusesWrite(env, rt, norm, projectionId, memories, request, m);
  }

  /** A file is protected in every request, whatever else the request names, whatever claims the agent holds and
      whichever two absolute roots are in use: a live enforced memory whose patterns, on a field of the code plugin,
      overlap the rooted file refuses the write. */
  lemma FileOverlapRefusesWrite(env: Env, rt: Runtime, roots: Roots, projectionId: string, memories: seq<Memory>,
                                request: W.WriteDecisionInput, m: Memory, f: ScopeField, r: ResourceRef)
    requires IsAbsolutePath(roots.guarded) && Home(roots.guarded) != ""
    requires IsAbsolutePath(roots.project) && Home(roots.project) != ""
    requires m in memories && !Outdated(m) && Enforced(m) && m.appliesTo.Some? && f in m.appliesTo.value
    requires CodeField(rt.matchers, f.field)
    requires r in RootedRequest(env, roots, request).resources && r.rtype == "file"
    requires Trimmed(r.locator) && !BareDrive(r.locator)
    requires exists p :: p in f.patterns && Locators.PathsOverlap(p, r.locator)
    ensures !WriteCheck(env, rt, InRoot(roots.project, env.caseSensitive), projectionId, memories,
                        RootedRequest(env, roots, request)).permitted
  {
    RootedFileSettles(env, roots, request, r);
    SettledFileRefusesWrite(env, rt, InRoot(roots.project, env.caseSensitive), projectionId, memories,
                            RootedRequest(env, roots, request), m, f, r);
  }

  lemma RootedFileSettles(env: Env, roots: Roots, request: W.WriteDecisionInput, r: ResourceRef)
    requires IsAbsolutePath(roots.guarded) && Home(roots.guarded) != ""
    requires IsAbsolutePath(roots.project) && Home(roots.project) != ""
    requires r in RootedRequest(env, roots, request).resources && r.rtype == "file"
    requires Trimmed(r.locator) && !BareDrive(r.locator)
    ensures InRoot(roots.project, env.caseSensitive)(r.locator) == r.locator
  {
    var i :| 0 <= i < |request.resources| && RootedRequest(env, roots, request).resources[i] == r;
    SecondRootingExact(request.resources[i].locator, roots.guarded, roots.project, env.caseSensitive);
  }

  lemma RootedMember(env: Env, roots: Roots, request: W.WriteDecisionInput, r: ResourceRef) returns (r': ResourceRef)
    requires r in request.resources && r.rtype == "file"
    ensures r' in RootedRequest(env, roots, request).resources && r'.rtype == "file"
    ensures r'.locator == InRoot(roots.guarded, env.caseSensitive)(r.locator)
  {
    var i :| 0 <= i < |request.resources| && request.resources[i] == r;
    r' := RootedRequest(env, roots, request).resources[i];
  }

  lemma SettledFileRefusesWrite(env: Env, rt: Runtime, norm: Norm, projectionId: string, memories: seq<Memory>,
                                request: W.WriteDecisionInput, m: Memory, f: ScopeField, r: ResourceRef)
    requires m in memories && !Outdated(m) && Enforced(m) && m.appliesTo.Some? && f in m.appliesTo.value
    requires CodeField(rt.matchers, f.field)
    requires r in request.resources && r.rtype == "file" && norm(r.locator) == r.locator
    requires exists p :: p in f.patterns && Locators.PathsOverlap(p, r.locator)
    ensures !WriteCheck(env, rt, norm, projectionId, memories, request).permitted
  {
    TouchedFieldProtects(rt.matchers, norm, request.resources, m, f, r);
    ProtectedScopeRefusesWrite(env, rt, norm, projectionId, memories, request, m);
  }

  /** A request of files only is protected on the locator fields and on every field whose matcher names types, for any
      matchers: a live enforced memory with a hit among the rooted files refuses the write. */
  lemma AnyMatcherProtectsFiles(env: Env, rt: Runtime, roots: Roots, projectionId: string, memories: seq<Memory>,
                                request: W.WriteDecisionInput, m: Memory, f: ScopeField)
    requires IsAbsolutePath(roots.guarded) && Home(roots.guarded) != ""
    requires IsAbsolutePath(roots.project) && Home(roots.project) != ""
    requires forall r :: r in request.resources ==> r.rtype == "file"
    requires forall r :: r in RootedRequest(env, roots, request).resources ==> Trimmed(r.locator) && !BareDrive(r.locator)
    requires m in memories && !Outdated(m) && Enforced(m) && m.appliesTo.Some? && f in m.appliesTo.value
    requires LocatorField(f.field) || TypedField(rt.matchers, f.field)
    requires FieldHits(rt.matchers, RootedRequest(env, roots, request).resources, f) != []
    ensures !WriteCheck(env, rt, InRoot(roots.project, env.caseSensitive), projectionId, memories,
                        RootedRequest(env, roots, request)).permitted
  {
    RootedFilesSettle(env, roots, request);
    RootedFilesAreFiles(env, roots, request);
    SettledOverlapRefusesWrite(env, rt, InRoot(roots.project, env.caseSensitive), projectionId, memories,
                               RootedRequest(env, roots, request), m, f);
  }

  lemma RootedFilesAreFiles(env: Env, roots: Roots, request: W.WriteDecisionInput)
    requires forall r :: r in request.resources ==> r.rtype == "file"
    ensures forall r :: r in RootedRequest(env, roots, request).resources ==> r.rtype == "file"
  {
    assert forall i :: 0 <= i < |request.resources| ==> request.resources[i] in request.resources;
  }

  /** When nothing earlier refuses the write, the refusal names the protecting memory. */
  lemma RefusalNamesMemory(env: Env, rt: Runtime, norm: Norm, projectionId: string, memories: seq<Memory>,
                           request: W.WriteDecisionInput, m: Memory)
    requires m in memories && m.id != ""
    requires W.ResourceBlockers(request) == [] && P.NothingStands(env, request)
    ensures Protects(rt.matchers, WriteContextOf(norm, request.resources), request.resources, m) ==>
              W.Blocker(W.ConstraintRuntimeBlocker, m.id) in WriteCheck(env, rt, norm, projectionId, memories, request).blockers
  {
    if Protects(rt.matchers, WriteContextOf(norm, request.resources), request.resources, m) {
      ProtectorIsNamed(env, rt, norm, projectionId, memories, request, m);
    }
  }

  lemma ProtectorIsNamed(env: Env, rt: Runtime, norm: Norm, projectionId: string, memories: seq<Memory>,
                         request: W.WriteDecisionInput, m: Memory)
    requires m in memories && Protects(rt.matchers, WriteContextOf(norm, request.resources), request.resources, m) && m.id != ""
    requires W.ResourceBlockers(request) == [] && P.NothingStands(env, request)
    ensures W.Blocker(W.ConstraintRuntimeBlocker, m.id) in WriteCheck(env, rt, norm, projectionId, memories, request).blockers
  {
    var input := WriteConstraintInput(rt, norm, projectionId, memories, request.resources);
    var full := request.(constraintDecision := Some(ToVerdict(Evaluate(rt, input))));
    ProtectionExact(rt, projectionId, memories, WriteContextOf(norm, request.resources), input, m.id);
    var v :| v in DoNotTouchBlockers(rt.matchers, input) && v.sourceMemoryId == m.id;
    NamedBlocker(rt, input, full, v);
    NothingElseStands(env, request, full);
  }

  lemma NothingElseStands(env: Env, request: W.WriteDecisionInput, full: W.WriteDecisionInput)
    requires full == request.(constraintDecision := full.constraintDecision)
    requires W.ResourceBlockers(request) == [] && P.NothingStands(env, request) && W.ConstraintBlockers(full) != []
    ensures W.Decide(env, full).blockers == W.ConstraintBlockers(full)
  {
    P.VerdictIsSeparate(env, request, full.constraintDecision);
    P.ExternalExact(env, full);
  }

  /** Every blocker of the evaluation that names a memory shows up in the write decision under that name. */
  lemma NamedBlocker(rt: Runtime, input: ConstraintInput, full: W.WriteDecisionInput, v: Violation)
    requires full.constraintDecision == Some(ToVerdict(Evaluate(rt, input)))
    requires v in DoNotTouchBlockers(rt.matchers, input) && v.sourceMemoryId != ""
    ensures W.Blocker(W.ConstraintRuntimeBlocker, v.sourceMemoryId) in W.ConstraintBlockers(full)
  {
    var all := AllBlockers(rt, input);
    assert v in all;
    var i :| 0 <= i < |all| && all[i] == v;
    assert W.ConstraintBlockers(full)[i] == W.Blocker(W.ConstraintRuntimeBlocker, v.sourceMemoryId);
  }
}
