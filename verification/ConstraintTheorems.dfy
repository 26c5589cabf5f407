/** What the constraint checker reports, in the terms of the rules it is given. */
module ConstraintTheorems {
  import opened Text
  import opened Projection
  import opened Constraints

  // ---- typed rules ------------------------------------------------------------------------------------------

  /** Protected scopes have a check of their own: these are recognised by their kind or by the enforcement mark. */
  ghost predicate Protected(item: Item) {
    item.kind == "do_not_touch" || Contains(item.source.projectionReason, "P4 enforcement")
  }

  /** A typed rule speaks about the action: it is no protected scope, and its list of actions is empty or names it. */
  ghost predicate SpeaksAbout(item: Item, action: string) {
    && !Protected(item)
    && (item.validatorConfig.Some? && item.validatorConfig.value.actions != [] ==> action in item.validatorConfig.value.actions)
  }

  /** A review is demanded before an operation is submitted or applied. */
  ghost predicate DemandsReview(item: Item, action: string) {
    item.validatorType == "require_review" && SpeaksAbout(item, action) && action in {"operation_submit", "operation_apply"}
  }

  /** A rule of a plugin's type, which is none of the built-in names. */
  ghost predicate ForPlugin(evaluators: Evaluators, item: Item, action: string) {
    item.validatorType !in {"", "require_review", "custom"} && item.validatorType in evaluators && SpeaksAbout(item, action)
  }

  /** What the plugin's evaluator finds; it is handed the rule with its own message and actions. */
  function PluginFinds(evaluators: Evaluators, input: ConstraintInput, item: Item): Option<Violation>
    requires item.validatorType in evaluators
  {
    var c := item.validatorConfig;
    evaluators[item.validatorType](input, item,
      RuleSpec(item.validatorType, if c.Some? then c.value.message else None, if c.Some? then c.value.actions else []))
  }

  lemma SpecExact(evaluators: Evaluators, input: ConstraintInput, item: Item)
    ensures ApplicableSpec(evaluators, input, item).Some?
       <==> SpeaksAbout(item, input.action) && item.validatorType != ""
            && (item.validatorType in {"require_review", "custom"} || item.validatorType in evaluators)
    ensures ApplicableSpec(evaluators, input, item).Some? ==>
              ApplicableSpec(evaluators, input, item).value.rule == item.validatorType
  {
  }

  /** A typed rule reports one review blocker with its id, or what its plugin finds, or nothing; "custom" and unknown
      types report nothing. */
  lemma TypedBlockerExact(evaluators: Evaluators, input: ConstraintInput, item: Item)
    ensures TypedBlocker(evaluators, input, item)
         == if DemandsReview(item, input.action) then
              [Violation(RequireReview, item.source.sourceMemoryId, input.projection.projectionId, [])]
            else if ForPlugin(evaluators, item, input.action) && PluginFinds(evaluators, input, item).Some? then
              [PluginFinds(evaluators, input, item).value]
            else []
  {
    SpecExact(evaluators, input, item);
  }

  /** A rule is taken up by the typed check when it speaks about the action and its type is known and not "custom". */
  ghost predicate TakenUp(evaluators: Evaluators, item: Item, action: string) {
    && SpeaksAbout(item, action)
    && item.validatorType !in {"", "custom"}
    && (item.validatorType == "require_review" || item.validatorType in evaluators)
  }

  lemma TakenUpExact(evaluators: Evaluators, input: ConstraintInput, item: Item)
    ensures Claimed(evaluators, input, item) <==> TakenUp(evaluators, item, input.action)
  {
    SpecExact(evaluators, input, item);
  }

  /** The item's typed rule blocks the action. */
  ghost predicate Blocks(evaluators: Evaluators, input: ConstraintInput, item: Item) {
    || DemandsReview(item, input.action)
    || (ForPlugin(evaluators, item, input.action) && PluginFinds(evaluators, input, item).Some?)
  }

  lemma {:induction false} InTypedBlockers(evaluators: Evaluators, input: ConstraintInput, items: seq<Item>, v: Violation)
    ensures v in TypedBlockers(evaluators, input, items)
            <==> exists item :: item in items && v in TypedBlocker(evaluators, input, item)
    decreases |items|
  {
    if items != [] {
      InTypedBlockers(evaluators, input, items[1..], v);
      assert items == [items[0]] + items[1..];
    }
  }

  /** Exactly the review blockers of the rules that demand one, and the findings of the plugins. */
  lemma TypedBlockersExact(evaluators: Evaluators, input: ConstraintInput, items: seq<Item>, v: Violation)
    ensures v in TypedBlockers(evaluators, input, items)
       <==> || (exists item :: item in items && DemandsReview(item, input.action)
                  && v == Violation(RequireReview, item.source.sourceMemoryId, input.projection.projectionId, []))
            || (exists item :: item in items && ForPlugin(evaluators, item, input.action)
                  && PluginFinds(evaluators, input, item) == Some(v))
  {
    InTypedBlockers(evaluators, input, items, v);
    forall item {
      TypedBlockerExact(evaluators, input, item);
    }
  }

  lemma {:induction false} NoTypedBlockers(evaluators: Evaluators, input: ConstraintInput, items: seq<Item>)
    ensures TypedBlockers(evaluators, input, items) == [] <==> forall item :: item in items ==> !Blocks(evaluators, input, item)
    decreases |items|
  {
    if items != [] {
      var first, rest := items[0], items[1..];
      NoTypedBlockers(evaluators, input, rest);
      TypedBlockerExact(evaluators, input, first);
      assert items == [first] + rest;
      assert TypedBlocker(evaluators, input, first) == [] <==> !Blocks(evaluators, input, first);
      assert forall item :: item in items <==> item == first || item in rest;
    }
  }

  // ---- advice -----------------------------------------------------------------------------------------------

  /** A rule is left to advice: it is no protected scope, and no rule of the same memory was taken up. */
  ghost predicate LeftToAdvice(evaluators: Evaluators, input: ConstraintInput, items: seq<Item>, item: Item) {
    && !Protected(item)
    && forall other :: other in items && other.source.sourceMemoryId == item.source.sourceMemoryId ==>
                         !TakenUp(evaluators, other, input.action)
  }

  lemma {:induction false} InAdvisory(input: ConstraintInput, items: seq<Item>, ids: set<string>, v: Violation)
    ensures v in AdvisoryWarnings(input, items, ids)
       <==> exists item :: item in items && !Protected(item) && item.source.sourceMemoryId !in ids
              && v == Violation(HardConstraintAdvisory, item.source.sourceMemoryId, input.projection.projectionId, [])
    decreases |items|
  {
    if items != [] {
      InAdvisory(input, items[1..], ids, v);
      assert items == [items[0]] + items[1..];
    }
  }

  /** The warnings are exactly the advice of the rules left to it; so a "custom" rule, a rule of an unknown type and a
      rule for other actions only ever warn. */
  lemma WarningsExact(rt: Runtime, input: ConstraintInput, v: Violation)
    ensures v in Evaluate(rt, input).warnings
       <==> exists item :: item in input.projection.constraintRules
              && LeftToAdvice(rt.evaluators, input, input.projection.constraintRules, item)
              && v == Violation(HardConstraintAdvisory, item.source.sourceMemoryId, input.projection.projectionId, [])
  {
    var items := input.projection.constraintRules;
    var ids := TypedIds(rt.evaluators, input, items);
    InAdvisory(input, items, ids, v);
    forall item | item in items
      ensures (!Protected(item) && item.source.sourceMemoryId !in ids) <==> LeftToAdvice(rt.evaluators, input, items, item) {
      LeftExact(rt.evaluators, input, items, item);
    }
  }

  lemma LeftExact(evaluators: Evaluators, input: ConstraintInput, items: seq<Item>, item: Item)
    ensures (!Protected(item) && item.source.sourceMemoryId !in TypedIds(evaluators, input, items))
       <==> LeftToAdvice(evaluators, input, items, item)
  {
    forall other {
      TakenUpExact(evaluators, input, other);
    }
  }

  // ---- the whole decision -----------------------------------------------------------------------------------

  /** What a protected scope reports: the written locators inside it. */
  ghost predicate ReportsScope(matchers: Matchers, input: ConstraintInput, item: Item, v: Violation) {
    && (item in input.projection.doNotTouch || (item in input.projection.constraintRules && Protected(item)))
    && ScopeOverlaps(matchers, input.touchedResources, item.scope) != []
    && v == Violation(DoNotTouchScopeOverlap, item.source.sourceMemoryId, input.projection.projectionId,
                      ScopeOverlaps(matchers, input.touchedResources, item.scope))
  }

  /** Why something is reported at all. */
  ghost predicate Reported(rt: Runtime, input: ConstraintInput, v: Violation) {
    var p := input.projection;
    || (v == Violation(ProjectionInvalid, "", p.projectionId, []) && p.validity == INVALID)
    || (exists c :: c in p.conflicts
          && v == Violation(ProjectionConflict, c.itemA.sourceMemoryId, p.projectionId, [c.itemA.sourceMemoryId, c.itemB.sourceMemoryId]))
    || (exists item :: ReportsScope(rt.matchers, input, item, v))
    || (v == Violation(ProtocolGateBlocked, "", p.projectionId, []) && input.protocolGateBlockers != [])
    || (v == Violation(SnapshotLockedInvalid, "", p.projectionId, []) && input.snapshotValid == Some(false))
    || v in TypedBlockers(rt.evaluators, input, p.constraintRules)
  }

  lemma {:induction false} InProtected(matchers: Matchers, input: ConstraintInput, items: seq<Item>, v: Violation)
    ensures v in ProtectedBlockers(matchers, input, items) <==> exists item :: item in items && v in ProtectedBlocker(matchers, input, item)
    decreases |items|
  {
    if items != [] {
      InProtected(matchers, input, items[1..], v);
      assert items == [items[0]] + items[1..];
    }
  }

  lemma ScopeBlockersExact(matchers: Matchers, input: ConstraintInput, v: Violation)
    ensures v in DoNotTouchBlockers(matchers, input) <==> exists item :: ReportsScope(matchers, input, item, v)
  {
    var items := DoNotTouchRules(input.projection);
    InProtected(matchers, input, items, v);
    assert forall item :: item in items
             <==> item in input.projection.doNotTouch || (item in input.projection.constraintRules && Protected(item));
    forall item | item in items ensures v in ProtectedBlocker(matchers, input, item) <==> ReportsScope(matchers, input, item, v) {
    }
  }

  lemma ConflictBlockersExact(input: ConstraintInput, v: Violation)
    ensures v in ConflictBlockers(input)
       <==> exists c :: c in input.projection.conflicts
              && v == Violation(ProjectionConflict, c.itemA.sourceMemoryId, input.projection.projectionId,
                                [c.itemA.sourceMemoryId, c.itemB.sourceMemoryId])
  {
    var cs := input.projection.conflicts;
    if c :| c in cs && v == Violation(ProjectionConflict, c.itemA.sourceMemoryId, input.projection.projectionId,
                                      [c.itemA.sourceMemoryId, c.itemB.sourceMemoryId]) {
      var i :| 0 <= i < |cs| && cs[i] == c;
      assert ConflictBlockers(input)[i] == v;
    }
  }

  lemma ProtocolBlockersExact(input: ConstraintInput, v: Violation)
    ensures v in ProtocolBlockers(input)
       <==> v == Violation(ProtocolGateBlocked, "", input.projection.projectionId, []) && input.protocolGateBlockers != []
  {
    if input.protocolGateBlockers != [] {
      assert ProtocolBlockers(input)[0] in ProtocolBlockers(input);
    }
  }

  /** The decision: denied exactly when something is reported, and the blockers are exactly what is. */
  lemma BlockersExact(rt: Runtime, input: ConstraintInput, v: Violation)
    ensures v in Evaluate(rt, input).blockers <==> Reported(rt, input, v)
    ensures Evaluate(rt, input).permitted <==> Evaluate(rt, input).blockers == []
  {
    ConflictBlockersExact(input, v);
    ScopeBlockersExact(rt.matchers, input, v);
    ProtocolBlockersExact(input, v);
  }
}
