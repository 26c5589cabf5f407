/** What overlap of two references means under the plugins' matchers, and what claims on files then report. */
module OverlapTheorems {
  import opened NormalizedPath
  import opened Resources
  import opened ClaimConflicts
  import L = Locators

  // ---- two references ---------------------------------------------------------------------------------------

  /** The parts of the resource can meet: no two different functions, and no two line ranges one of which ends before the
      other starts. */
  predicate PartsMeet(a: ResourceRef, b: ResourceRef) {
    && (a.scope == b.scope == FunctionScope ==> a.functionName == b.functionName)
    && (a.scope == b.scope == LineRangeScope && a.lineRange.Some? && b.lineRange.Some? ==>
          a.lineRange.value.start <= b.lineRange.value.end && b.lineRange.value.start <= a.lineRange.value.end)
  }

  /** Under the plugins' matchers: references of different types never overlap; files overlap by their normalised paths,
      the listed types by the paths of their locators, and all others by equal locators, if their parts can meet. */
  lemma PluginOverlapExact(genericTypes: set<string>, caseSensitive: bool, a: ResourceRef, b: ResourceRef)
    ensures var env := PluginEnv(genericTypes, caseSensitive);
            ResourceLocatorsOverlap(env, a, b)
            <==> a.rtype == b.rtype && PartsMeet(a, b)
                 && if a.rtype == "file" then
                      L.PathsOverlap(NormalizeResourcePath(a.locator, caseSensitive), NormalizeResourcePath(b.locator, caseSensitive))
                    else if a.rtype in genericTypes then L.LocatorPathsOverlap(a.locator, b.locator)
                    else a.locator == b.locator
  {
    var env := PluginEnv(genericTypes, caseSensitive);
    assert a.rtype in env.matchers <==> a.rtype == "file" || a.rtype in genericTypes;
  }

  /** The segments of a file's normalised path. */
  function FileSegments(r: ResourceRef, caseSensitive: bool): seq<string> {
    L.SegmentsOf(L.StripSlashes(NormalizeResourcePath(r.locator, caseSensitive)))
  }

  /** A reference to a whole file, without a glob. */
  predicate WholeFile(r: ResourceRef, caseSensitive: bool) {
    r.rtype == "file" && r.scope == FileScope && !L.IsGlob(L.StripSlashes(NormalizeResourcePath(r.locator, caseSensitive)))
  }

  /** One file is the other, or lies in a directory of that name. */
  predicate SameOrInside(a: ResourceRef, b: ResourceRef, caseSensitive: bool) {
    || FileSegments(a, caseSensitive) <= FileSegments(b, caseSensitive)
    || FileSegments(b, caseSensitive) <= FileSegments(a, caseSensitive)
  }

  /** Two whole files overlap exactly when the segments of one path continue those of the other. */
  lemma WholeFilesOverlapExact(genericTypes: set<string>, caseSensitive: bool, a: ResourceRef, b: ResourceRef)
    requires WholeFile(a, caseSensitive) && WholeFile(b, caseSensitive)
    ensures ResourceLocatorsOverlap(PluginEnv(genericTypes, caseSensitive), a, b) <==> SameOrInside(a, b, caseSensitive)
  {
    PluginOverlapExact(genericTypes, caseSensitive, a, b);
    L.OverlapIsAncestry(NormalizeResourcePath(a.locator, caseSensitive), NormalizeResourcePath(b.locator, caseSensitive));
  }

  // ---- claims -----------------------------------------------------------------------------------------------

  /** Two active claims of different owners: another actor, or another task. */
  predicate Rivals(a: Claim, b: Claim) {
    a.status == b.status == ACTIVE && (a.actorId != b.actorId || a.taskId != b.taskId)
  }

  ghost predicate Apart(env: Env, a: Claim, b: Claim) {
    forall ra, rb :: ra in a.resources && rb in b.resources ==> !ResourceLocatorsOverlap(env, ra, rb)
  }

  lemma CompatibleExact(env: Env, a: Claim, b: Claim)
    requires a.status == b.status == ACTIVE
    ensures Compatible(env, a, b) <==> (Rivals(a, b) ==> Apart(env, a, b))
  {
  }

  lemma ApartIsSymmetric(env: Env, a: Claim, b: Claim)
    requires SymmetricMatchers(env)
    ensures Apart(env, a, b) <==> Apart(env, b, a)
  {
    forall ra, rb {
      OverlapIsSymmetric(env, ra, rb);
    }
  }

  /** Nothing is reported exactly when every two rivals among the claims have all their resources apart. */
  lemma QuietExact(env: Env, claims: seq<Claim>)
    requires SymmetricMatchers(env)
    ensures AllPairs(env, ActiveOnly(claims)) == []
       <==> forall a, b :: a in claims && b in claims && Rivals(a, b) ==> Apart(env, a, b)
  {
    var active := ActiveOnly(claims);
    NoConflictExact(env, claims);
    assert forall c :: c in active <==> c in claims && c.status == ACTIVE;
    if AllPairs(env, active) == [] {
      forall a, b | a in claims && b in claims && Rivals(a, b) ensures Apart(env, a, b) {
        RivalsAreApart(env, active, a, b);
      }
    } else {
      var i, j :| 0 <= i < j < |active| && !Compatible(env, active[i], active[j]);
      assert active[i] in active && active[j] in active;
      CompatibleExact(env, active[i], active[j]);
    }
  }

  lemma RivalsAreApart(env: Env, active: seq<Claim>, a: Claim, b: Claim)
    requires SymmetricMatchers(env) && a in active && b in active && Rivals(a, b)
    requires forall i, j :: 0 <= i < j < |active| ==> Compatible(env, active[i], active[j])
    ensures Apart(env, a, b)
  {
    var i :| 0 <= i < |active| && active[i] == a;
    var j :| 0 <= j < |active| && active[j] == b;
    if i < j {
      CompatibleExact(env, a, b);
    } else {
      CompatibleExact(env, b, a);
      ApartIsSymmetric(env, a, b);
    }
  }

  predicate WholeFiles(c: Claim, caseSensitive: bool) {
    forall r :: r in c.resources ==> WholeFile(r, caseSensitive)
  }

  /** No file of one is a file of the other, or lies in a directory of the other. */
  predicate FilesApart(a: Claim, b: Claim, caseSensitive: bool) {
    forall ra, rb :: ra in a.resources && rb in b.resources ==>
      !SameOrInside(ra, rb, caseSensitive)
  }

  lemma FilesApartExact(genericTypes: set<string>, caseSensitive: bool, a: Claim, b: Claim)
    requires WholeFiles(a, caseSensitive) && WholeFiles(b, caseSensitive)
    ensures Apart(PluginEnv(genericTypes, caseSensitive), a, b) <==> FilesApart(a, b, caseSensitive)
  {
    var env := PluginEnv(genericTypes, caseSensitive);
    forall ra, rb | ra in a.resources && rb in b.resources
      ensures ResourceLocatorsOverlap(env, ra, rb) <==> SameOrInside(ra, rb, caseSensitive) {
      WholeFilesOverlapExact(genericTypes, caseSensitive, ra, rb);
    }
  }

  /** Claims on whole files report nothing exactly when the files of every two rivals are apart. */
  lemma FileClaimsQuietExact(genericTypes: set<string>, caseSensitive: bool, claims: seq<Claim>)
    requires forall c :: c in claims ==> WholeFiles(c, caseSensitive)
    ensures AllPairs(PluginEnv(genericTypes, caseSensitive), ActiveOnly(claims)) == []
       <==> forall a, b :: a in claims && b in claims && Rivals(a, b) ==> FilesApart(a, b, caseSensitive)
  {
    PluginMatchersAreLawful(genericTypes, caseSensitive);
    QuietExact(PluginEnv(genericTypes, caseSensitive), claims);
    forall a, b | a in claims && b in claims
      ensures Apart(PluginEnv(genericTypes, caseSensitive), a, b) <==> FilesApart(a, b, caseSensitive) {
      FilesApartExact(genericTypes, caseSensitive, a, b);
    }
  }

  /** What a conflict says: it is hard when either claim is exclusive, and carries both locators. */
  lemma ConflictSays(env: Env, a: Claim, b: Claim, c: Conflict)
    requires c in Between(env, a, b)
    ensures c.claimA == a && c.claimB == b && (c.isHardConflict <==> a.mode == EXCLUSIVE || b.mode == EXCLUSIVE)
    ensures exists ra, rb :: ra in a.resources && rb in b.resources && ResourceLocatorsOverlap(env, ra, rb)
                             && c.resourceType == ra.rtype && c.overlappingLocator == ra.locator + " \U{2194} " + rb.locator
  {
    InBetween(env, a, b, c);
    var k: nat, l: nat :| Reports(env, c, a, b, k, l);
    assert a.resources[k] in a.resources && b.resources[l] in b.resources;
  }
}
