/** When a scope meets its surroundings and when two scopes collide, read off their fields and patterns. */
module ScopeTheorems {
  import opened Text
  import opened Resources
  import opened Projection
  import opened ProjectionTheorems

  /** The registered matcher of the field finds something; without one, a pattern is itself among the targets. */
  predicate Meet(matchers: Matchers, field: string, patterns: seq<string>, targets: seq<string>) {
    if field in matchers then matchers[field].findOverlaps(patterns, targets) != []
    else exists t :: t in targets && t in patterns
  }

  lemma MeetExact(matchers: Matchers, field: string, patterns: seq<string>, targets: seq<string>)
    ensures FindOverlaps(matchers, field, patterns, targets) != [] <==> Meet(matchers, field, patterns, targets)
  {
    if field !in matchers {
      var hits := FindOverlaps(matchers, field, patterns, targets);
      assert forall t :: t in hits <==> t in targets && t in patterns;
      assert hits != [] ==> hits[0] in hits;
    }
  }

  // ---- relevance --------------------------------------------------------------------------------------------

  /** What the context itself says about a field: the working resources for the two locator fields, the current modules
      for modules, nothing for any other. */
  predicate Says(ctx: Context, field: string, t: string) {
    || (field in {"files", "resources"} && t in ctx.workingResources)
    || (field == "modules" && t in ctx.currentModules)
  }

  /** The references of the context decide instead: they are known, the field's matcher names resource types, and all the
      context says about the field are locators of references. */
  predicate ByReference(matchers: Matchers, ctx: Context, field: string) {
    && ctx.workingResourceRefs.Some?
    && field in matchers && matchers[field].resourceTypes != []
    && forall t :: t in ctx.workingResources + ctx.currentModules && Says(ctx, field, t) ==>
         exists r :: r in ctx.workingResourceRefs.value && r.locator == t
  }

  /** The field has a target: a locator of a reference of the matcher's types, or something the context says. */
  predicate IsTarget(matchers: Matchers, ctx: Context, field: string, t: string) {
    if ByReference(matchers, ctx, field) then
      exists r :: r in ctx.workingResourceRefs.value && r.locator == t && r.rtype in matchers[field].resourceTypes
    else Says(ctx, field, t)
  }

  lemma SaysExact(ctx: Context, field: string, t: string)
    ensures t in ContextTargets(ctx, field) <==> Says(ctx, field, t)
  {
  }

  lemma InLocators(refs: seq<ResourceRef>, t: string)
    ensures t in LocatorsOf(refs) <==> exists r :: r in refs && r.locator == t
  {
    if t in LocatorsOf(refs) {
      var i :| 0 <= i < |refs| && LocatorsOf(refs)[i] == t;
      assert refs[i] in refs;
    }
    if r :| r in refs && r.locator == t {
      var i :| 0 <= i < |refs| && refs[i] == r;
      assert LocatorsOf(refs)[i] == t;
    }
  }

  lemma TypedLocators(refs: seq<ResourceRef>, types: seq<string>, t: string)
    ensures t in LocatorsOf(OfTypes(refs, types)) <==> exists r :: r in refs && r.locator == t && r.rtype in types
  {
    InLocators(OfTypes(refs, types), t);
  }

  lemma ByReferenceExact(matchers: Matchers, ctx: Context, field: string)
    requires ctx.workingResourceRefs.Some? && TypedField(matchers, field)
    ensures (ContextTargets(ctx, field) == []
             || forall t :: t in ContextTargets(ctx, field) ==> t in LocatorsOf(ctx.workingResourceRefs.value))
       <==> ByReference(matchers, ctx, field)
  {
    forall t ensures (t in ContextTargets(ctx, field) <==> Says(ctx, field, t))
                  && (Says(ctx, field, t) ==> t in ctx.workingResources + ctx.currentModules)
                  && (t in LocatorsOf(ctx.workingResourceRefs.value) <==> exists r :: r in ctx.workingResourceRefs.value && r.locator == t) {
      SaysExact(ctx, field, t);
      InLocators(ctx.workingResourceRefs.value, t);
    }
  }

  /** The targets of the relevance filter are exactly those. */
  lemma TargetsExact(matchers: Matchers, ctx: Context, field: string, t: string)
    ensures t in FieldTargets(matchers, ctx, field) <==> IsTarget(matchers, ctx, field, t)
  {
    SaysExact(ctx, field, t);
    if ctx.workingResourceRefs.Some? && TypedField(matchers, field) {
      ByReferenceExact(matchers, ctx, field);
      TypedLocators(ctx.workingResourceRefs.value, matchers[field].resourceTypes, t);
    }
  }

  /** A memory is relevant exactly when it has no patterns at all, or the patterns of one of its fields meet the targets
      of that field, of which there are some. */
  lemma RelevantExact(matchers: Matchers, appliesTo: Option<Scope>, ctx: Context)
    ensures IsRelevant(matchers, appliesTo, ctx)
       <==> || (forall f :: appliesTo.Some? && f in appliesTo.value ==> f.patterns == [])
            || exists f :: appliesTo.Some? && f in appliesTo.value && f.patterns != []
                           && (exists t :: t in FieldTargets(matchers, ctx, f.field))
                           && Meet(matchers, f.field, f.patterns, FieldTargets(matchers, ctx, f.field))
  {
    forall f ensures FieldMatches(matchers, ctx, f)
                <==> f.patterns != [] && (exists t :: t in FieldTargets(matchers, ctx, f.field))
                     && Meet(matchers, f.field, f.patterns, FieldTargets(matchers, ctx, f.field)) {
      var targets := FieldTargets(matchers, ctx, f.field);
      assert targets != [] ==> targets[0] in targets;
      MeetExact(matchers, f.field, f.patterns, targets);
    }
  }

  // ---- collision --------------------------------------------------------------------------------------------

  /** Each field is there once. */
  predicate Once(scope: Scope) {
    forall i, j :: 0 <= i < j < |scope| ==> scope[i].field != scope[j].field
  }

  lemma {:induction false} LookupExact(scope: Scope, f: ScopeField)
    requires Once(scope)
    ensures f in scope ==> Lookup(scope, f.field) == f.patterns
    ensures (forall g :: g in scope ==> g.field != f.field) ==> Lookup(scope, f.field) == []
    decreases |scope|
  {
    if scope != [] {
      assert scope == [scope[0]] + scope[1..];
      LookupExact(scope[1..], f);
    }
  }

  /** Two scopes collide exactly when some field is in both and its patterns meet. */
  lemma CollisionExact(matchers: Matchers, a: Scope, b: Scope)
    requires Once(a) && Once(b)
    ensures ScopesCollide(matchers, Some(a), Some(b))
       <==> exists f, g :: f in a && g in b && f.field == g.field && f.patterns != [] && g.patterns != []
                           && Meet(matchers, f.field, f.patterns, g.patterns)
  {
    if ScopesCollide(matchers, Some(a), Some(b)) {
      var field :| FieldCollides(matchers, a, b, field);
      LookupIsListed(a, field);
      LookupIsListed(b, field);
      var f :| f in a && f.field == field;
      var g :| g in b && g.field == field;
      LookupExact(a, f);
      LookupExact(b, g);
      MeetExact(matchers, field, f.patterns, g.patterns);
    }
    if f, g :| f in a && g in b && f.field == g.field && f.patterns != [] && g.patterns != []
               && Meet(matchers, f.field, f.patterns, g.patterns) {
      LookupExact(a, f);
      LookupExact(b, g);
      MeetExact(matchers, f.field, f.patterns, g.patterns);
      assert FieldCollides(matchers, a, b, f.field);
    }
  }
}
