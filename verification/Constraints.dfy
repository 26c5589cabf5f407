/** The pure constraint checker that turns a projection and an action into blockers and warnings. */
module Constraints {
  import opened Text
  import opened Resources
  import opened Filters
  import opened ProjectionRouting
  import opened Projection

  datatype RuleName =
    | ProjectionInvalid | ProjectionConflict | DoNotTouchScopeOverlap | ProtocolGateBlocked | SnapshotLockedInvalid
    | RequireReview | HardConstraintAdvisory | PluginRule(name: string)

  datatype Violation = Violation(rule: RuleName, sourceMemoryId: string, projectionId: string, evidence: seq<string>)

  datatype RuleSpec = RuleSpec(rule: string, message: Option<string>, actions: seq<string>)

  datatype ConstraintInput = ConstraintInput(action: string, projection: RealityProjection, touchedResources: seq<ResourceRef>,
                                             snapshotValid: Option<bool>, protocolGateBlockers: seq<string>)

  datatype Decision = Decision(permitted: bool, blockers: seq<Violation>, warnings: seq<Violation>, projectionId: string)

  type Evaluators = map<string, (ConstraintInput, Item, RuleSpec) -> Option<Violation>>

  datatype Runtime = Runtime(matchers: Matchers, evaluators: Evaluators)

  // ---- scope overlap --------------------------------------------------------------------------------------

  /** The locators a scope field is checked against: those of the matcher's types, if it names any. */
  function FieldLocators(matchers: Matchers, resources: seq<ResourceRef>, field: string): seq<string> {
    LocatorsOf(if TypedField(matchers, field) then OfTypes(resources, matchers[field].resourceTypes) else resources)
  }

  function FieldHits(matchers: Matchers, resources: seq<ResourceRef>, f: ScopeField): seq<string> {
    var locators := FieldLocators(matchers, resources, f.field);
    if f.patterns == [] || locators == [] then [] else FindOverlaps(matchers, f.field, f.patterns, locators)
  }

  /** Set insertion that remembers the order of first arrival. */
  function AddNew(seen: seq<string>, hits: seq<string>): (r: seq<string>)
    ensures forall x :: x in r <==> x in seen || x in hits
    decreases |hits|
  {
    if hits == [] then seen
    else
      assert hits == [hits[0]] + hits[1..];
      AddNew(if hits[0] in seen then seen else seen + [hits[0]], hits[1..])
  }

  function CollectHits(matchers: Matchers, resources: seq<ResourceRef>, scope: Scope, seen: seq<string>): seq<string> {
    if scope == [] then seen
    else CollectHits(matchers, resources, scope[1..], AddNew(seen, FieldHits(matchers, resources, scope[0])))
  }

  function ScopeOverlaps(matchers: Matchers, resources: seq<ResourceRef>, scope: Option<Scope>): seq<string> {
    if scope.None? || resources == [] then [] else CollectHits(matchers, resources, scope.value, [])
  }

  method FindAllScopeOverlaps(matchers: Matchers, resources: seq<ResourceRef>, scope: Option<Scope>) returns (overlaps: seq<string>)
    ensures overlaps == ScopeOverlaps(matchers, resources, scope)
  {
    overlaps := [];
    if scope.None? || |resources| == 0 {
      return;
    }
    var fields := scope.value;
    for i := 0 to |fields|
      invariant CollectHits(matchers, resources, fields[i..], overlaps) == CollectHits(matchers, resources, fields, [])
    {
      assert fields[i..][1..] == fields[i + 1..];
      if fields[i].patterns == [] {
        continue;
      }
      var locators := FieldLocators(matchers, resources, fields[i].field);
      if |locators| == 0 {
        continue;
      }
      overlaps := AddNew(overlaps, FindOverlaps(matchers, fields[i].field, fields[i].patterns, locators));
    }
  }

  lemma {:induction false} CollectHitsExact(matchers: Matchers, resources: seq<ResourceRef>, scope: Scope, seen: seq<string>, x: string)
    ensures x in CollectHits(matchers, resources, scope, seen)
            <==> x in seen || exists f :: f in scope && x in FieldHits(matchers, resources, f)
    decreases |scope|
  {
    if scope != [] {
      CollectHitsExact(matchers, resources, scope[1..], AddNew(seen, FieldHits(matchers, resources, scope[0])), x);
      assert scope == [scope[0]] + scope[1..];
    }
  }

  /** A scope overlaps the resources exactly when one of its fields has a hit. */
  lemma ScopeOverlapsExact(matchers: Matchers, resources: seq<ResourceRef>, scope: Option<Scope>)
    ensures ScopeOverlaps(matchers, resources, scope) != []
            <==> scope.Some? && exists f :: f in scope.value && FieldHits(matchers, resources, f) != []
  {
    if scope.Some? {
      var hits := CollectHits(matchers, resources, scope.value, []);
      if hits != [] {
        CollectHitsExact(matchers, resources, scope.value, [], hits[0]);
      }
      if f :| f in scope.value && FieldHits(matchers, resources, f) != [] {
        CollectHitsExact(matchers, resources, scope.value, [], FieldHits(matchers, resources, f)[0]);
      }
    }
  }

  // ---- what each evaluator reports ------------------------------------------------------------------------

  predicate IsDoNotTouch(item: Item) {
    item.kind == "do_not_touch" || Contains(item.source.projectionReason, P4)
  }

  function InvalidBlockers(input: ConstraintInput): seq<Violation> {
    if input.projection.validity == INVALID then [Violation(ProjectionInvalid, "", input.projection.projectionId, [])] else []
  }

  function ConflictBlocker(input: ConstraintInput, c: Conflict): Violation {
    Violation(ProjectionConflict, c.itemA.sourceMemoryId, input.projection.projectionId, [c.itemA.sourceMemoryId, c.itemB.sourceMemoryId])
  }

  function ConflictBlockers(input: ConstraintInput): (r: seq<Violation>)
    ensures |r| == |input.projection.conflicts|
  {
    seq(|input.projection.conflicts|, i requires 0 <= i < |input.projection.conflicts| => ConflictBlocker(input, input.projection.conflicts[i]))
  }

  function DoNotTouchRules(p: RealityProjection): seq<Item> {
    Filter(p.constraintRules, (item: Item) => IsDoNotTouch(item)) + p.doNotTouch
  }

  /** The blocker of one protected item, if its scope is touched. */
  function ProtectedBlocker(matchers: Matchers, input: ConstraintInput, item: Item): seq<Violation> {
    var overlaps := ScopeOverlaps(matchers, input.touchedResources, item.scope);
    if overlaps == [] then []
    else [Violation(DoNotTouchScopeOverlap, item.source.sourceMemoryId, input.projection.projectionId, overlaps)]
  }

  function ProtectedBlockers(matchers: Matchers, input: ConstraintInput, items: seq<Item>): seq<Violation> {
    if items == [] then [] else ProtectedBlocker(matchers, input, items[0]) + ProtectedBlockers(matchers, input, items[1..])
  }

  function DoNotTouchBlockers(matchers: Matchers, input: ConstraintInput): seq<Violation> {
    if input.touchedResources == [] then [] else ProtectedBlockers(matchers, input, DoNotTouchRules(input.projection))
  }

  function ProtocolBlockers(input: ConstraintInput): (r: seq<Violation>)
    ensures |r| == |input.protocolGateBlockers|
  {
    seq(|input.protocolGateBlockers|, _ => Violation(ProtocolGateBlocked, "", input.projection.projectionId, []))
  }

  function SnapshotBlockers(input: ConstraintInput): seq<Violation> {
    if input.snapshotValid == Some(false) then [Violation(SnapshotLockedInvalid, "", input.projection.projectionId, [])] else []
  }

  predicate IsKnownRule(evaluators: Evaluators, rule: string) {
    rule == "require_review" || rule == "custom" || rule in evaluators
  }

  function ResolveRuntimeSpec(evaluators: Evaluators, item: Item): Option<RuleSpec> {
    if item.validatorType != "" && IsKnownRule(evaluators, item.validatorType) then
      Some(RuleSpec(item.validatorType,
                    if item.validatorConfig.Some? then item.validatorConfig.value.message else None,
                    if item.validatorConfig.Some? then item.validatorConfig.value.actions else []))
    else None
  }

  /** The spec under which an item is evaluated for this action, if any. */
  function ApplicableSpec(evaluators: Evaluators, input: ConstraintInput, item: Item): Option<RuleSpec> {
    if IsDoNotTouch(item) then None
    else
      var spec := ResolveRuntimeSpec(evaluators, item);
      if spec.Some? && spec.value.actions != [] && input.action !in spec.value.actions then None else spec
  }

  /** What a typed item blocks, and whether a typed rule took charge of it. */
  function TypedBlocker(evaluators: Evaluators, input: ConstraintInput, item: Item): seq<Violation> {
    var spec := ApplicableSpec(evaluators, input, item);
    if spec.None? || spec.value.rule == "custom" then []
    else if spec.value.rule == "require_review" then
      if input.action != "operation_submit" && input.action != "operation_apply" then []
      else [Violation(RequireReview, item.source.sourceMemoryId, input.projection.projectionId, [])]
    else if spec.value.rule in evaluators then
      var violation := evaluators[spec.value.rule](input, item, spec.value);
      if violation.Some? then [violation.value] else []
    else []
  }

  predicate Claimed(evaluators: Evaluators, input: ConstraintInput, item: Item) {
    var spec := ApplicableSpec(evaluators, input, item);
    spec.Some? && spec.value.rule != "custom" && (spec.value.rule == "require_review" || spec.value.rule in evaluators)
  }

  function TypedBlockers(evaluators: Evaluators, input: ConstraintInput, items: seq<Item>): seq<Violation> {
    if items == [] then [] else TypedBlocker(evaluators, input, items[0]) + TypedBlockers(evaluators, input, items[1..])
  }

  function TypedIds(evaluators: Evaluators, input: ConstraintInput, items: seq<Item>): set<string> {
    set item | item in items && Claimed(evaluators, input, item) :: item.source.sourceMemoryId
  }

  function AdvisoryWarnings(input: ConstraintInput, items: seq<Item>, typedIds: set<string>): seq<Violation> {
    if items == [] then []
    else (if IsDoNotTouch(items[0]) || items[0].source.sourceMemoryId in typedIds then []
          else [Violation(HardConstraintAdvisory, items[0].source.sourceMemoryId, input.projection.projectionId, [])])
         + AdvisoryWarnings(input, items[1..], typedIds)
  }

  function AllBlockers(rt: Runtime, input: ConstraintInput): seq<Violation> {
    InvalidBlockers(input) + ConflictBlockers(input) + DoNotTouchBlockers(rt.matchers, input) + ProtocolBlockers(input)
    + SnapshotBlockers(input) + TypedBlockers(rt.evaluators, input, input.projection.constraintRules)
  }

  function Evaluate(rt: Runtime, input: ConstraintInput): Decision {
    var blockers := AllBlockers(rt, input);
    var rules := input.projection.constraintRules;
    Decision(blockers == [], blockers, AdvisoryWarnings(input, rules, TypedIds(rt.evaluators, input, rules)), input.projection.projectionId)
  }

  // ---- the run --------------------------------------------------------------------------------------------

  /** One evaluation: the evaluators push into shared lists, each appending its own findings and nothing else. */
  class ConstraintRun {
    const rt: Runtime
    const input: ConstraintInput
    var blockers: seq<Violation>
    var warnings: seq<Violation>
    var typedIds: set<string>

    constructor (rt: Runtime, input: ConstraintInput)
      ensures this.rt == rt && this.input == input && blockers == [] && warnings == [] && typedIds == {}
    {
      this.rt, this.input := rt, input;
      blockers, warnings, typedIds := [], [], {};
    }

    method EvaluateProjectionInvalid()
      modifies this`blockers
      ensures blockers == old(blockers) + InvalidBlockers(input)
    {
      if input.projection.validity == INVALID {
        blockers := blockers + [Violation(ProjectionInvalid, "", input.projection.projectionId, [])];
      }
    }

    method EvaluateProjectionConflicts()
      modifies this`blockers
      ensures blockers == old(blockers) + ConflictBlockers(input)
    {
      var conflicts := input.projection.conflicts;
      for i := 0 to |conflicts|
        invariant blockers == old(blockers) + ConflictBlockers(input)[..i]
      {
        blockers := blockers + [ConflictBlocker(input, conflicts[i])];
      }
    }

    method EvaluateOneProtected(item: Item)
      modifies this`blockers
      ensures blockers == old(blockers) + ProtectedBlocker(rt.matchers, input, item)
    {
      var overlaps := FindAllScopeOverlaps(rt.matchers, input.touchedResources, item.scope);
      if |overlaps| > 0 {
        blockers := blockers + [Violation(DoNotTouchScopeOverlap, item.source.sourceMemoryId, input.projection.projectionId, overlaps)];
      }
    }

    method EvaluateProtected(rules: seq<Item>)
      modifies this`blockers
      ensures blockers == old(blockers) + ProtectedBlockers(rt.matchers, input, rules)
    {
      for i := 0 to |rules|
        invariant blockers + ProtectedBlockers(rt.matchers, input, rules[i..]) == old(blockers) + ProtectedBlockers(rt.matchers, input, rules)
      {
        assert rules[i..][1..] == rules[i + 1..];
        Assoc(blockers, ProtectedBlocker(rt.matchers, input, rules[i]), ProtectedBlockers(rt.matchers, input, rules[i + 1..]));
        EvaluateOneProtected(rules[i]);
      }
    }

    method EvaluateDoNotTouchScopeOverlap()
      modifies this`blockers
      ensures blockers == old(blockers) + DoNotTouchBlockers(rt.matchers, input)
    {
      if |input.touchedResources| > 0 {
        EvaluateProtected(DoNotTouchRules(input.projection));
      }
    }

    method EvaluateProtocolGateBlocked()
      modifies this`blockers
      ensures blockers == old(blockers) + ProtocolBlockers(input)
    {
      for i := 0 to |input.protocolGateBlockers|
        invariant blockers == old(blockers) + ProtocolBlockers(input)[..i]
      {
        blockers := blockers + [Violation(ProtocolGateBlocked, "", input.projection.projectionId, [])];
      }
    }

    method EvaluateSnapshotLockedInvalid()
      modifies this`blockers
      ensures blockers == old(blockers) + SnapshotBlockers(input)
    {
      if input.snapshotValid == Some(false) {
        blockers := blockers + [Violation(SnapshotLockedInvalid, "", input.projection.projectionId, [])];
      }
    }

    /** The body of the typed loop for one constraint. */
    method EvaluateOneTyped(cr: Item)
      modifies this`blockers, this`typedIds
      ensures blockers == old(blockers) + TypedBlocker(rt.evaluators, input, cr)
      ensures typedIds == old(typedIds) + (if Claimed(rt.evaluators, input, cr) then {cr.source.sourceMemoryId} else {})
    {
      if IsDoNotTouch(cr) {
        return;
      }
      var resolved := ResolveRuntimeSpec(rt.evaluators, cr);
      if resolved.None? {
        return;
      }
      var spec := resolved.value;
      if |spec.actions| > 0 && input.action !in spec.actions {
        return;
      }
      var claimed := false;
      if spec.rule == "require_review" {
        claimed := true;
        if input.action == "operation_submit" || input.action == "operation_apply" {
          blockers := blockers + [Violation(RequireReview, cr.source.sourceMemoryId, input.projection.projectionId, [])];
        }
      } else if spec.rule == "custom" {
      } else if spec.rule in rt.evaluators {
        claimed := true;
        var violation := rt.evaluators[spec.rule](input, cr, spec);
        if violation.Some? {
          blockers := blockers + [violation.value];
        }
      }
      if claimed {
        typedIds := typedIds + {cr.source.sourceMemoryId};
      }
    }

    method EvaluateHardConstraintTyped()
      requires typedIds == {}
      modifies this`blockers, this`typedIds
      ensures blockers == old(blockers) + TypedBlockers(rt.evaluators, input, input.projection.constraintRules)
      ensures typedIds == TypedIds(rt.evaluators, input, input.projection.constraintRules)
    {
      var rules := input.projection.constraintRules;
      for i := 0 to |rules|
        invariant blockers + TypedBlockers(rt.evaluators, input, rules[i..]) == old(blockers) + TypedBlockers(rt.evaluators, input, rules)
        invariant typedIds == TypedIds(rt.evaluators, input, rules[..i])
      {
        assert rules[i..][1..] == rules[i + 1..];
        assert rules[..i + 1] == rules[..i] + [rules[i]];
        Assoc(blockers, TypedBlocker(rt.evaluators, input, rules[i]), TypedBlockers(rt.evaluators, input, rules[i + 1..]));
        EvaluateOneTyped(rules[i]);
      }
      assert rules[..|rules|] == rules;
    }

    method EvaluateHardConstraintAdvisory()
      modifies this`warnings
      ensures warnings == old(warnings) + AdvisoryWarnings(input, input.projection.constraintRules, typedIds)
    {
      var rules := input.projection.constraintRules;
      for i := 0 to |rules|
        invariant warnings + AdvisoryWarnings(input, rules[i..], typedIds) == old(warnings) + AdvisoryWarnings(input, rules, typedIds)
      {
        var cr := rules[i];
        assert rules[i..][1..] == rules[i + 1..];
        if IsDoNotTouch(cr) {
          continue;
        }
        if cr.source.sourceMemoryId in typedIds {
          continue;
        }
        Regroup(warnings, Violation(HardConstraintAdvisory, cr.source.sourceMemoryId, input.projection.projectionId, []),
                AdvisoryWarnings(input, rules[i + 1..], typedIds));
        warnings := warnings + [Violation(HardConstraintAdvisory, cr.source.sourceMemoryId, input.projection.projectionId, [])];
      }
    }
  }

  lemma NothingBefore<T>(s: seq<T>)
    ensures [] + s == s
  {
  }

  method EvaluateConstraints(rt: Runtime, input: ConstraintInput) returns (d: Decision)
    ensures d == Evaluate(rt, input)
  {
    var run := new ConstraintRun(rt, input);
    run.EvaluateProjectionInvalid();
    NothingBefore(InvalidBlockers(input));
    run.EvaluateProjectionConflicts();
    run.EvaluateDoNotTouchScopeOverlap();
    run.EvaluateProtocolGateBlocked();
    run.EvaluateSnapshotLockedInvalid();
    run.EvaluateHardConstraintTyped();
    run.EvaluateHardConstraintAdvisory();
    NothingBefore(AdvisoryWarnings(input, input.projection.constraintRules, run.typedIds));
    d := Decision(|run.blockers| == 0, run.blockers, run.warnings, input.projection.projectionId);
  }
}
