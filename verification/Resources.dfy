/** Resource references, claims, and the overlap relation every gate, permit and audit is built on. */
module Resources {
  import opened Text
  import opened Ranges
  import opened NormalizedPath
  import Locators
  import LineDrift
  import DriftGeometry

  datatype ResourceScope = FileScope | FunctionScope | LineRangeScope

  datatype ResourceRef = ResourceRef(rtype: string, locator: string, scope: ResourceScope,
                                     functionName: Option<string>, lineRange: Option<LineRange>)

  datatype ClaimStatus = ACTIVE | RELEASED

  datatype ClaimMode = EXCLUSIVE | SHARED

  datatype Claim = Claim(id: string, actorId: string, taskId: string, sessionId: string,
                         resources: seq<ResourceRef>, mode: ClaimMode, status: ClaimStatus)

  datatype ResourceMatcher = ResourceMatcher(rtype: string, locatorsOverlap: (string, string) -> bool)

  /** The registry of overlap tests; a later registration for the same type wins. */
  class MatcherRegistry {
    var matchers: map<string, ResourceMatcher>

    constructor ()
      ensures matchers == map[]
    {
      matchers := map[];
    }

    method Register(m: ResourceMatcher)
      modifies this
      ensures matchers == old(matchers)[m.rtype := m]
    {
      matchers := matchers[m.rtype := m];
    }

    method Get(rtype: string) returns (m: Option<ResourceMatcher>)
      ensures m == if rtype in matchers then Some(matchers[rtype]) else None
    {
      m := if rtype in matchers then Some(matchers[rtype]) else None;
    }

    method Clear()
      modifies this
      ensures matchers == map[]
    {
      matchers := map[];
    }
  }

  /** What the overlap test reads from its surroundings: the registered matchers and the platform's case rule. */
  datatype Env = Env(matchers: map<string, ResourceMatcher>, caseSensitive: bool)

  function ComparedLocator(env: Env, r: ResourceRef): string {
    if r.rtype == "file" then NormalizeResourcePath(r.locator, env.caseSensitive) else r.locator
  }

  predicate ScopesOverlap(a: ResourceRef, b: ResourceRef) {
    if a.scope.FileScope? || b.scope.FileScope? then true
    else if a.scope.FunctionScope? && b.scope.FunctionScope? then a.functionName == b.functionName
    else if a.scope.LineRangeScope? && b.scope.LineRangeScope? then
      a.lineRange.None? || b.lineRange.None? || RangesIntersect(a.lineRange.value, b.lineRange.value)
    else true
  }

  predicate LocatorsOverlap(env: Env, rtype: string, a: string, b: string) {
    if rtype in env.matchers then env.matchers[rtype].locatorsOverlap(a, b) else a == b
  }

  predicate ResourceLocatorsOverlap(env: Env, a: ResourceRef, b: ResourceRef) {
    && a.rtype == b.rtype
    && LocatorsOverlap(env, a.rtype, ComparedLocator(env, a), ComparedLocator(env, b))
    && ScopesOverlap(a, b)
  }

  // ---- laws of the overlap relation -----------------------------------------------------------------------

  ghost predicate SymmetricMatchers(env: Env) {
    forall t, a, b :: t in env.matchers ==>
      env.matchers[t].locatorsOverlap(a, b) == env.matchers[t].locatorsOverlap(b, a)
  }

  ghost predicate ReflexiveMatchers(env: Env) {
    forall t, a :: t in env.matchers ==> env.matchers[t].locatorsOverlap(a, a)
  }

  lemma OverlapIsSymmetric(env: Env, a: ResourceRef, b: ResourceRef)
    requires SymmetricMatchers(env)
    ensures ResourceLocatorsOverlap(env, a, b) == ResourceLocatorsOverlap(env, b, a)
  {
  }

  /** A reference overlaps itself unless it is a line range that ends before it starts. */
  lemma SelfOverlapExact(env: Env, a: ResourceRef)
    requires ReflexiveMatchers(env)
    ensures ResourceLocatorsOverlap(env, a, a)
            <==> !(a.scope.LineRangeScope? && a.lineRange.Some? && a.lineRange.value.start > a.lineRange.value.end)
  {
  }

  predicate HasLine(r: LineRange, l: int) {
    r.start <= l <= r.end
  }

  /** For well-formed ranges the comparison of ends is the existence of a common line. */
  lemma IntersectIsCommonLine(a: LineRange, b: LineRange)
    requires a.start <= a.end && b.start <= b.end
    ensures RangesIntersect(a, b) <==> exists l :: HasLine(a, l) && HasLine(b, l)
  {
    if RangesIntersect(a, b) {
      var l := if a.start >= b.start then a.start else b.start;
      assert HasLine(a, l) && HasLine(b, l);
    }
  }

  /** Two scopes are apart exactly when they name different functions, or well-formed line ranges without a common
      line; a whole file, and a function beside a line range, always overlap. */
  lemma ScopesApartExact(a: ResourceRef, b: ResourceRef)
    requires a.lineRange.Some? ==> a.lineRange.value.start <= a.lineRange.value.end
    requires b.lineRange.Some? ==> b.lineRange.value.start <= b.lineRange.value.end
    ensures !ScopesOverlap(a, b)
       <==> || (a.scope.FunctionScope? && b.scope.FunctionScope? && a.functionName != b.functionName)
            || (&& a.scope.LineRangeScope? && b.scope.LineRangeScope? && a.lineRange.Some? && b.lineRange.Some?
                && !exists l :: HasLine(a.lineRange.value, l) && HasLine(b.lineRange.value, l))
  {
    if a.lineRange.Some? && b.lineRange.Some? {
      IntersectIsCommonLine(a.lineRange.value, b.lineRange.value);
    }
  }

  /** The matchers the two plugins register: paths for files, URI-style locators for the listed types. */
  function PluginEnv(genericTypes: set<string>, caseSensitive: bool): Env {
    var generic := map t | t in genericTypes :: ResourceMatcher(t, (a, b) => Locators.LocatorPathsOverlap(a, b));
    Env(generic["file" := ResourceMatcher("file", (a, b) => Locators.PathsOverlap(a, b))], caseSensitive)
  }

  lemma PluginMatchersAreLawful(genericTypes: set<string>, caseSensitive: bool)
    ensures SymmetricMatchers(PluginEnv(genericTypes, caseSensitive))
    ensures ReflexiveMatchers(PluginEnv(genericTypes, caseSensitive))
  {
    var env := PluginEnv(genericTypes, caseSensitive);
    forall t, a, b | t in env.matchers
      ensures env.matchers[t].locatorsOverlap(a, b) == env.matchers[t].locatorsOverlap(b, a)
      ensures env.matchers[t].locatorsOverlap(a, a)
    {
      Locators.PathsOverlapIsSymmetric(a, b);
      Locators.LocatorOverlapIsAncestry(a, b);
    }
  }

  /** Editing a file moves two line-range references on it together: if both survive the edit they conflict
      afterwards exactly when they conflicted before. */
  lemma DriftKeepsConflicts<K>(env: Env, a: ResourceRef, b: ResourceRef, oldSource: string, newSource: string, hash: string -> K)
    requires a.scope.LineRangeScope? && b.scope.LineRangeScope? && a.lineRange.Some? && b.lineRange.Some?
    requires LineDrift.DriftOf(oldSource, newSource, hash).mapping.RemapRange(a.lineRange.value).Some?
    requires LineDrift.DriftOf(oldSource, newSource, hash).mapping.RemapRange(b.lineRange.value).Some?
    ensures var map_ := LineDrift.DriftOf(oldSource, newSource, hash).mapping;
            ResourceLocatorsOverlap(env, a.(lineRange := map_.RemapRange(a.lineRange.value)),
                                    b.(lineRange := map_.RemapRange(b.lineRange.value)))
            <==> ResourceLocatorsOverlap(env, a, b)
  {
    DriftGeometry.OverlapIsKept(oldSource, newSource, hash, a.lineRange.value, b.lineRange.value);
  }
}
