/** The task-scoped view of project memory. */
module Projection {
  import opened Text
  import opened Resources
  import opened Filters
  import opened ProjectionRouting

  datatype ScopeField = ScopeField(field: string, patterns: seq<string>)

  /** Scope fields in the order they were written; an object has each field once. */
  type Scope = seq<ScopeField>

  datatype ScopeMatcher = ScopeMatcher(resourceTypes: seq<string>, findOverlaps: (seq<string>, seq<string>) -> seq<string>)

  type Matchers = map<string, ScopeMatcher>

  /** The registry of scope matchers; a later registration for the same field wins. */
  class ScopeMatcherRegistry {
    var matchers: Matchers

    constructor ()
      ensures matchers == map[]
    {
      matchers := map[];
    }

    method Register(field: string, m: ScopeMatcher)
      modifies this
      ensures matchers == old(matchers)[field := m]
    {
      matchers := matchers[field := m];
    }

    method Clear()
      modifies this
      ensures matchers == map[]
    {
      matchers := map[];
    }
  }

  datatype ValidatorConfig = ValidatorConfig(message: Option<string>, actions: seq<string>)

  /** A memory as it is collected; appliesTo is already parsed, None when absent or not readable. */
  datatype Memory = Memory(id: string, title: string, content: string, kind: string, projectionTarget: string,
                           appliesTo: Option<Scope>, severity: string, validityStatus: string,
                           validatorType: string, validatorConfig: Option<ValidatorConfig>)

  datatype Context = Context(workingResources: seq<string>, workingResourceRefs: Option<seq<ResourceRef>>,
                             currentModules: seq<string>)

  datatype Source = Source(sourceMemoryId: string, projectionReason: string, confidence: string)

  datatype Item = Item(source: Source, content: string, title: string, kind: string, scope: Option<Scope>,
                       validatorType: string, validatorConfig: Option<ValidatorConfig>)

  datatype Conflict = Conflict(itemA: Source, itemB: Source, field: string)

  datatype Validity = FRESH | NEEDS_REVALIDATION | STALE | INVALID

  datatype RealityProjection = RealityProjection(
    projectionId: string, verifiedFacts: seq<Item>, activeConstraints: seq<Item>, risks: seq<Item>, doNotTouch: seq<Item>,
    protocolRules: seq<Item>, constraintRules: seq<Item>, conflicts: seq<Conflict>, validity: Validity, skippedStale: seq<Source>)

  // ---- relevance ------------------------------------------------------------------------------------------

  function FindOverlaps(matchers: Matchers, field: string, patterns: seq<string>, targets: seq<string>): seq<string> {
    if field in matchers then matchers[field].findOverlaps(patterns, targets)
    else Filter(targets, (t: string) => t in patterns)
  }

  function LocatorsOf(refs: seq<ResourceRef>): (r: seq<string>)
    ensures |r| == |refs| && forall i :: 0 <= i < |refs| ==> r[i] == refs[i].locator
  {
    seq(|refs|, i requires 0 <= i < |refs| => refs[i].locator)
  }

  function OfTypes(refs: seq<ResourceRef>, types: seq<string>): seq<ResourceRef> {
    Filter(refs, (r: ResourceRef) => r.rtype in types)
  }

  function ContextTargets(ctx: Context, field: string): seq<string> {
    if field == "files" || field == "resources" then ctx.workingResources
    else if field == "modules" then ctx.currentModules
    else []
  }

  predicate TypedField(matchers: Matchers, field: string) {
    field in matchers && matchers[field].resourceTypes != []
  }

  /** What a scope field is compared with: locators of the matcher's resource types when the field is backed by
      locators, the context's own values otherwise. */
  function FieldTargets(matchers: Matchers, ctx: Context, field: string): seq<string> {
    var contextTargets := ContextTargets(ctx, field);
    if ctx.workingResourceRefs.Some? && TypedField(matchers, field)
       && (contextTargets == [] || forall t :: t in contextTargets ==> t in LocatorsOf(ctx.workingResourceRefs.value))
    then LocatorsOf(OfTypes(ctx.workingResourceRefs.value, matchers[field].resourceTypes))
    else contextTargets
  }

  predicate FieldMatches(matchers: Matchers, ctx: Context, f: ScopeField) {
    && f.patterns != []
    && FieldTargets(matchers, ctx, f.field) != []
    && FindOverlaps(matchers, f.field, f.patterns, FieldTargets(matchers, ctx, f.field)) != []
  }

  /** Relevant: no scope, a scope without patterns, or a field that matches. */
  predicate IsRelevant(matchers: Matchers, appliesTo: Option<Scope>, ctx: Context) {
    appliesTo.None?
    || (forall f :: f in appliesTo.value ==> f.patterns == [])
    || (exists f :: f in appliesTo.value && FieldMatches(matchers, ctx, f))
  }

  method IsRelevantToContext(matchers: Matchers, appliesTo: Option<Scope>, ctx: Context) returns (relevant: bool)
    ensures relevant <==> IsRelevant(matchers, appliesTo, ctx)
  {
    if appliesTo.None? {
      return true;
    }
    var scope := appliesTo.value;
    var hasScope, matched := false, false;
    for i := 0 to |scope|
      invariant !matched
      invariant hasScope <==> exists j :: 0 <= j < i && scope[j].patterns != []
      invariant forall j :: 0 <= j < i ==> !FieldMatches(matchers, ctx, scope[j])
    {
      if scope[i].patterns == [] {
        continue;
      }
      hasScope := true;
      var targets := FieldTargets(matchers, ctx, scope[i].field);
      if |targets| == 0 {
        continue;
      }
      var overlaps := FindOverlaps(matchers, scope[i].field, scope[i].patterns, targets);
      if |overlaps| > 0 {
        matched := true;
        assert FieldMatches(matchers, ctx, scope[i]);
        break;
      }
    }
    relevant := !(hasScope && !matched);
  }

  // ---- conflicts ------------------------------------------------------------------------------------------

  /** The patterns of a field, empty when the scope does not have it. */
  function Lookup(scope: Scope, field: string): seq<string> {
    if scope == [] then []
    else if scope[0].field == field then scope[0].patterns
    else Lookup(scope[1..], field)
  }

  predicate FieldCollides(matchers: Matchers, a: Scope, b: Scope, field: string) {
    Lookup(a, field) != [] && Lookup(b, field) != [] && FindOverlaps(matchers, field, Lookup(a, field), Lookup(b, field)) != []
  }

  /** The first field of fields on which the two scopes collide. */
  function FirstCollision(matchers: Matchers, fields: Scope, a: Scope, b: Scope): Option<string> {
    if fields == [] then None
    else if FieldCollides(matchers, a, b, fields[0].field) then Some(fields[0].field)
    else FirstCollision(matchers, fields[1..], a, b)
  }

  type ParsedScopes = map<string, Option<Scope>>

  function ScopeOf(parsed: ParsedScopes, item: Item): Option<Scope> {
    if item.source.sourceMemoryId in parsed then parsed[item.source.sourceMemoryId] else None
  }

  /** At most one conflict for a pair of items. */
  function PairConflict(matchers: Matchers, parsed: ParsedScopes, a: Item, b: Item): seq<Conflict> {
    var sa, sb := ScopeOf(parsed, a), ScopeOf(parsed, b);
    if sa.None? || sb.None? then []
    else
      var field := FirstCollision(matchers, sa.value, sa.value, sb.value);
      if field.None? then [] else [Conflict(a.source, b.source, field.value)]
  }

  function ConflictsWith(matchers: Matchers, parsed: ParsedScopes, a: Item, rest: seq<Item>): seq<Conflict> {
    if rest == [] then [] else PairConflict(matchers, parsed, a, rest[0]) + ConflictsWith(matchers, parsed, a, rest[1..])
  }

  function ConflictsAmong(matchers: Matchers, parsed: ParsedScopes, items: seq<Item>): seq<Conflict> {
    if items == [] then []
    else ConflictsWith(matchers, parsed, items[0], items[1..]) + ConflictsAmong(matchers, parsed, items[1..])
  }

  method FindCollision(matchers: Matchers, a: Scope, b: Scope) returns (field: Option<string>)
    ensures field == FirstCollision(matchers, a, a, b)
  {
    field := None;
    for i := 0 to |a|
      invariant field == None
      invariant FirstCollision(matchers, a[i..], a, b) == FirstCollision(matchers, a, a, b)
    {
      assert a[i..][1..] == a[i + 1..];
      var patternsA, patternsB := Lookup(a, a[i].field), Lookup(b, a[i].field);
      if |patternsA| == 0 || |patternsB| == 0 {
        continue;
      }
      var overlaps := FindOverlaps(matchers, a[i].field, patternsA, patternsB);
      if |overlaps| > 0 {
        field := Some(a[i].field);
        break;
      }
    }
  }

  method DetectWith(matchers: Matchers, parsed: ParsedScopes, a: Item, rest: seq<Item>) returns (conflicts: seq<Conflict>)
    ensures conflicts == ConflictsWith(matchers, parsed, a, rest)
  {
    conflicts := [];
    for j := 0 to |rest|
      invariant conflicts + ConflictsWith(matchers, parsed, a, rest[j..]) == ConflictsWith(matchers, parsed, a, rest)
    {
      var b := rest[j];
      assert rest[j..][1..] == rest[j + 1..];
      Assoc(conflicts, PairConflict(matchers, parsed, a, b), ConflictsWith(matchers, parsed, a, rest[j + 1..]));
      var scopeA, scopeB := ScopeOf(parsed, a), ScopeOf(parsed, b);
      if scopeA.None? || scopeB.None? {
        continue;
      }
      var field := FindCollision(matchers, scopeA.value, scopeB.value);
      if field.Some? {
        conflicts := conflicts + [Conflict(a.source, b.source, field.value)];
      }
    }
  }

  method DetectConflicts(matchers: Matchers, parsed: ParsedScopes, items: seq<Item>) returns (conflicts: seq<Conflict>)
    ensures conflicts == ConflictsAmong(matchers, parsed, items)
  {
    conflicts := [];
    for i := 0 to |items|
      invariant conflicts + ConflictsAmong(matchers, parsed, items[i..]) == ConflictsAmong(matchers, parsed, items)
    {
      assert items[i..][1..] == items[i + 1..];
      var found := DetectWith(matchers, parsed, items[i], items[i + 1..]);
      Assoc(conflicts, found, ConflictsAmong(matchers, parsed, items[i + 1..]));
      conflicts := conflicts + found;
    }
  }

  // ---- the projection -------------------------------------------------------------------------------------

  predicate Outdated(m: Memory) {
    m.validityStatus == "invalid" || m.validityStatus == "stale"
  }

  function SourceOf(m: Memory, reason: string): Source {
    Source(m.id, reason, if m.severity == "blocking" then "high" else if m.severity == "warning" then "medium" else "low")
  }

  function SkippedSource(m: Memory): Source {
    SourceOf(m, "skipped: validity=" + m.validityStatus)
  }

  function ItemOf(m: Memory): Item {
    Item(SourceOf(m, ResolveProjectionRoute(m.kind, m.projectionTarget).reason), m.content, m.title, m.kind, m.appliesTo,
         m.validatorType, m.validatorConfig)
  }

  /** Where one memory ends up. */
  datatype Fate = Skipped | Irrelevant | Into(bucket: BucketName)

  function FateOf(matchers: Matchers, ctx: Context, m: Memory): Fate {
    if Outdated(m) then Skipped
    else if !IsRelevant(matchers, m.appliesTo, ctx) then Irrelevant
    else Into(RouteBucket(m.kind, m.projectionTarget))
  }

  function Bucket(matchers: Matchers, ctx: Context, memories: seq<Memory>, b: BucketName): seq<Item> {
    if memories == [] then []
    else if FateOf(matchers, ctx, memories[0]) == Into(b) then [ItemOf(memories[0])] + Bucket(matchers, ctx, memories[1..], b)
    else Bucket(matchers, ctx, memories[1..], b)
  }

  function SkippedOf(memories: seq<Memory>): seq<Source> {
    if memories == [] then []
    else if Outdated(memories[0]) then [SkippedSource(memories[0])] + SkippedOf(memories[1..])
    else SkippedOf(memories[1..])
  }

  /** The scopes kept for conflict detection: of every memory that is not outdated, the last one for an id. */
  function ParsedOf(memories: seq<Memory>): ParsedScopes {
    if memories == [] then map[]
    else (if Outdated(memories[0]) then map[] else map[memories[0].id := memories[0].appliesTo]) + ParsedOf(memories[1..])
  }

  predicate NeedsRevalidation(memories: seq<Memory>) {
    exists m :: m in memories && m.validityStatus == "needs_revalidation"
  }

  function AllConflicts(matchers: Matchers, ctx: Context, memories: seq<Memory>): seq<Conflict> {
    var parsed := ParsedOf(memories);
    ConflictsAmong(matchers, parsed, Bucket(matchers, ctx, memories, ConstraintRules))
    + ConflictsAmong(matchers, parsed, Bucket(matchers, ctx, memories, ProtocolRules))
    + ConflictsAmong(matchers, parsed, Bucket(matchers, ctx, memories, DoNotTouch))
  }

  function Project(matchers: Matchers, projectionId: string, memories: seq<Memory>, ctx: Context): RealityProjection {
    var conflicts := AllConflicts(matchers, ctx, memories);
    RealityProjection(
      projectionId,
      Bucket(matchers, ctx, memories, VerifiedFacts), Bucket(matchers, ctx, memories, ActiveConstraints),
      Bucket(matchers, ctx, memories, Risks), Bucket(matchers, ctx, memories, DoNotTouch),
      Bucket(matchers, ctx, memories, ProtocolRules), Bucket(matchers, ctx, memories, ConstraintRules),
      conflicts, if NeedsRevalidation(memories) || conflicts != [] then NEEDS_REVALIDATION else FRESH, SkippedOf(memories))
  }

  type Buckets = map<BucketName, seq<Item>>

  function At(buckets: Buckets, b: BucketName): seq<Item> {
    if b in buckets then buckets[b] else []
  }

  function Added(buckets: Buckets, b: BucketName, item: Item): Buckets {
    buckets[b := At(buckets, b) + [item]]
  }

  /** Appends an item to the buckets of its route; a second bucket would get a copy with an adjusted reason. */
  method AddToBuckets(buckets: Buckets, m: Memory) returns (r: Buckets)
    ensures r == Added(buckets, RouteBucket(m.kind, m.projectionTarget), ItemOf(m))
  {
    var route := ResolveProjectionRoute(m.kind, m.projectionTarget);
    r := buckets;
    var isFirst := true;
    for k := 0 to |route.buckets|
      invariant isFirst <==> k == 0
      invariant r == if k == 0 then buckets else Added(buckets, route.buckets[0], ItemOf(m))
    {
      var bucket := route.buckets[k];
      if isFirst {
        r := Added(r, bucket, ItemOf(m));
        isFirst := false;
      } else {
        r := Added(r, bucket, ItemOf(m).(source := SourceOf(m, route.reason + " (dual-write)")));
      }
    }
  }

  /** What the loop has done after some memories, given what is left. */
  ghost predicate Progress(matchers: Matchers, ctx: Context, memories: seq<Memory>, i: nat,
                           buckets: Buckets, skipped: seq<Source>, parsed: ParsedScopes)
    requires i <= |memories|
  {
    && (forall b :: At(buckets, b) + Bucket(matchers, ctx, memories[i..], b) == Bucket(matchers, ctx, memories, b))
    && skipped + SkippedOf(memories[i..]) == SkippedOf(memories)
    && parsed + ParsedOf(memories[i..]) == ParsedOf(memories)
  }

  lemma ProgressSkip(matchers: Matchers, ctx: Context, memories: seq<Memory>, i: nat,
                     buckets: Buckets, skipped: seq<Source>, parsed: ParsedScopes)
    requires i < |memories| && Progress(matchers, ctx, memories, i, buckets, skipped, parsed) && Outdated(memories[i])
    ensures Progress(matchers, ctx, memories, i + 1, buckets, skipped + [SkippedSource(memories[i])], parsed)
  {
    assert memories[i..][1..] == memories[i + 1..];
    Regroup(skipped, SkippedSource(memories[i]), SkippedOf(memories[i + 1..]));
  }

  lemma BucketKeep(matchers: Matchers, ctx: Context, m: Memory, rest: seq<Memory>, buckets: Buckets, b: BucketName)
    requires !Outdated(m)
    ensures var target := RouteBucket(m.kind, m.projectionTarget);
            var after := if IsRelevant(matchers, m.appliesTo, ctx) then Added(buckets, target, ItemOf(m)) else buckets;
            At(after, b) + Bucket(matchers, ctx, rest, b) == At(buckets, b) + Bucket(matchers, ctx, [m] + rest, b)
  {
    assert ([m] + rest)[1..] == rest;
    Regroup(At(buckets, b), ItemOf(m), Bucket(matchers, ctx, rest, b));
  }

  lemma ProgressKeep(matchers: Matchers, ctx: Context, memories: seq<Memory>, i: nat,
                     buckets: Buckets, skipped: seq<Source>, parsed: ParsedScopes)
    requires i < |memories| && Progress(matchers, ctx, memories, i, buckets, skipped, parsed) && !Outdated(memories[i])
    ensures var m := memories[i];
            var parsed' := parsed[m.id := m.appliesTo];
            var target := RouteBucket(m.kind, m.projectionTarget);
            Progress(matchers, ctx, memories, i + 1,
                     if IsRelevant(matchers, m.appliesTo, ctx) then Added(buckets, target, ItemOf(m)) else buckets, skipped, parsed')
  {
    var m, rest := memories[i], memories[i + 1..];
    assert memories[i..] == [m] + rest && ([m] + rest)[1..] == rest;
    assert parsed + (map[m.id := m.appliesTo] + ParsedOf(rest)) == parsed[m.id := m.appliesTo] + ParsedOf(rest);
    forall b {
      BucketKeep(matchers, ctx, m, rest, buckets, b);
    }
  }

  method FillBuckets(matchers: Matchers, memories: seq<Memory>, ctx: Context)
    returns (buckets: Buckets, skippedStale: seq<Source>, parsedScopes: ParsedScopes, worstValidity: Validity)
    ensures forall b :: At(buckets, b) == Bucket(matchers, ctx, memories, b)
    ensures skippedStale == SkippedOf(memories) && parsedScopes == ParsedOf(memories)
    ensures worstValidity == if NeedsRevalidation(memories) then NEEDS_REVALIDATION else FRESH
  {
    buckets, skippedStale, parsedScopes, worstValidity := map[], [], map[], FRESH;
    assert memories[0..] == memories;
    for i := 0 to |memories|
      invariant Progress(matchers, ctx, memories, i, buckets, skippedStale, parsedScopes)
      invariant worstValidity == if NeedsRevalidation(memories[..i]) then NEEDS_REVALIDATION else FRESH
    {
      var m := memories[i];
      assert memories[..i + 1] == memories[..i] + [m];
      if m.validityStatus == "invalid" {
        ProgressSkip(matchers, ctx, memories, i, buckets, skippedStale, parsedScopes);
        skippedStale := skippedStale + [SkippedSource(m)];
        continue;
      }
      if m.validityStatus == "stale" {
        ProgressSkip(matchers, ctx, memories, i, buckets, skippedStale, parsedScopes);
        skippedStale := skippedStale + [SkippedSource(m)];
        continue;
      }
      if m.validityStatus == "needs_revalidation" {
        if worstValidity == FRESH {
          worstValidity := NEEDS_REVALIDATION;
        }
      }
      ProgressKeep(matchers, ctx, memories, i, buckets, skippedStale, parsedScopes);
      parsedScopes := parsedScopes[m.id := m.appliesTo];
      var relevant := IsRelevantToContext(matchers, m.appliesTo, ctx);
      if !relevant {
        continue;
      }
      buckets := AddToBuckets(buckets, m);
    }
    assert memories[..|memories|] == memories;
    ProgressDone(matchers, ctx, memories, buckets, skippedStale, parsedScopes);
  }

  lemma ProgressDone(matchers: Matchers, ctx: Context, memories: seq<Memory>,
                     buckets: Buckets, skipped: seq<Source>, parsed: ParsedScopes)
    requires Progress(matchers, ctx, memories, |memories|, buckets, skipped, parsed)
    ensures forall b :: At(buckets, b) == Bucket(matchers, ctx, memories, b)
    ensures skipped == SkippedOf(memories) && parsed == ParsedOf(memories)
  {
    assert memories[|memories|..] == [];
    forall b ensures At(buckets, b) == Bucket(matchers, ctx, memories, b) {
      assert At(buckets, b) + [] == At(buckets, b);
    }
    assert skipped + [] == skipped;
    assert parsed + map[] == parsed;
  }

  method BuildRealityProjection(matchers: Matchers, projectionId: string, memories: seq<Memory>, ctx: Context)
    returns (p: RealityProjection)
    ensures p == Project(matchers, projectionId, memories, ctx)
  {
    var buckets, skippedStale, parsedScopes, worstValidity := FillBuckets(matchers, memories, ctx);
    var allConflicts := DetectConflicts(matchers, parsedScopes, At(buckets, ConstraintRules));
    var more := DetectConflicts(matchers, parsedScopes, At(buckets, ProtocolRules));
    allConflicts := allConflicts + more;
    more := DetectConflicts(matchers, parsedScopes, At(buckets, DoNotTouch));
    allConflicts := allConflicts + more;
    if |allConflicts| > 0 && worstValidity == FRESH {
      worstValidity := NEEDS_REVALIDATION;
    }
    p := RealityProjection(projectionId, At(buckets, VerifiedFacts), At(buckets, ActiveConstraints), At(buckets, Risks), At(buckets, DoNotTouch),
                           At(buckets, ProtocolRules), At(buckets, ConstraintRules), allConflicts, worstValidity, skippedStale);
  }
}
