/** The context a write check gives to the projection, and which written locators its relevance filter then sees. */
module WriteContext {
  import opened Text
  import opened Filters
  import opened ResourcePath
  import opened Resources
  import opened Projection
  import opened Constraints
  import opened RootedPath
  import Locators

  /** Normalisation of a locator below the project root; the laws hold for any function. */
  type Norm = string -> string

  function InRoot(root: string, caseSensitive: bool): Norm {
    (locator: string) => NormalizeIn(locator, root, caseSensitive)
  }

  /** Only file locators are rooted in references. */
  function RootedRef(norm: Norm, r: ResourceRef): ResourceRef {
    if r.rtype == "file" then r.(locator := norm(r.locator)) else r
  }

  function RootedRefs(norm: Norm, resources: seq<ResourceRef>): (rs: seq<ResourceRef>)
    ensures |rs| == |resources| && forall i :: 0 <= i < |rs| ==> rs[i] == RootedRef(norm, resources[i])
  {
    seq(|resources|, i requires 0 <= i < |resources| => RootedRef(norm, resources[i]))
  }

  /** Every working locator is rooted, whatever its type. */
  function RootedAll(norm: Norm, locators: seq<string>): (r: seq<string>)
    ensures |r| == |locators| && forall i :: 0 <= i < |r| ==> r[i] == norm(locators[i])
  {
    seq(|locators|, i requires 0 <= i < |locators| => norm(locators[i]))
  }

  /** The context built from the resources to be written. */
  function WriteContextOf(norm: Norm, resources: seq<ResourceRef>): Context {
    Context(RootedAll(norm, LocatorsOf(resources)), Some(RootedRefs(norm, resources)), [])
  }

  // ---- what the relevance filter sees -----------------------------------------------------------------------

  predicate LocatorField(field: string) {
    field == "files" || field == "resources"
  }

  /** Every rooted working locator is the locator of some reference: always so for files. */
  predicate Backed(norm: Norm, resources: seq<ResourceRef>) {
    forall r :: r in resources && r.rtype != "file" ==> norm(r.locator) in LocatorsOf(RootedRefs(norm, resources))
  }

  /** The targets a scope field is compared with: the rooted references of the matcher's types when the field has
      types and, for the two locator fields, the working locators are backed; all rooted working locators for the
      locator fields otherwise; nothing for any other field. */
  function Seen(matchers: Matchers, norm: Norm, resources: seq<ResourceRef>, field: string): seq<string> {
    if TypedField(matchers, field) && (LocatorField(field) ==> Backed(norm, resources)) then
      LocatorsOf(OfTypes(RootedRefs(norm, resources), matchers[field].resourceTypes))
    else if LocatorField(field) then RootedAll(norm, LocatorsOf(resources))
    else []
  }

  lemma BackedExact(norm: Norm, resources: seq<ResourceRef>)
    ensures Backed(norm, resources)
       <==> forall t :: t in RootedAll(norm, LocatorsOf(resources)) ==> t in LocatorsOf(RootedRefs(norm, resources))
  {
    var all, refs := RootedAll(norm, LocatorsOf(resources)), LocatorsOf(RootedRefs(norm, resources));
    if Backed(norm, resources) {
      forall i | 0 <= i < |all| ensures all[i] in refs {
        assert resources[i] in resources;
        assert resources[i].rtype == "file" ==> refs[i] == all[i];
      }
    }
    if forall t :: t in all ==> t in refs {
      forall r | r in resources && r.rtype != "file" ensures norm(r.locator) in refs {
        var i :| 0 <= i < |resources| && resources[i] == r;
        assert all[i] == norm(r.locator);
      }
    }
  }

  lemma TargetsAreSeen(matchers: Matchers, norm: Norm, resources: seq<ResourceRef>, field: string)
    ensures FieldTargets(matchers, WriteContextOf(norm, resources), field) == Seen(matchers, norm, resources, field)
  {
    BackedExact(norm, resources);
  }

  /** Rooting keeps the references of these types. */
  predicate KeptOf(norm: Norm, resources: seq<ResourceRef>, types: seq<string>) {
    forall r :: r in resources && r.rtype in types ==> RootedRef(norm, r) == r
  }

  /** Rooting keeps every locator. */
  predicate Settled(norm: Norm, resources: seq<ResourceRef>) {
    forall i :: 0 <= i < |resources| ==> norm(resources[i].locator) == resources[i].locator
  }

  /** The filter compares the field with exactly the locators the scope check compares it with. */
  predicate SeenAsWritten(matchers: Matchers, norm: Norm, resources: seq<ResourceRef>, field: string) {
    if TypedField(matchers, field) then
      && (LocatorField(field) ==> Backed(norm, resources))
      && KeptOf(norm, resources, matchers[field].resourceTypes)
    else if LocatorField(field) then Settled(norm, resources)
    else resources == []
  }

  lemma TypedLocatorsCons(r: ResourceRef, rest: seq<ResourceRef>, types: seq<string>)
    ensures LocatorsOf(OfTypes([r] + rest, types))
         == (if r.rtype in types then [r.locator] else []) + LocatorsOf(OfTypes(rest, types))
  {
    assert ([r] + rest)[1..] == rest;
    assert LocatorsOf([r] + OfTypes(rest, types)) == [r.locator] + LocatorsOf(OfTypes(rest, types));
  }

  lemma RootedCons(norm: Norm, r: ResourceRef, rest: seq<ResourceRef>)
    ensures RootedRefs(norm, [r] + rest) == [RootedRef(norm, r)] + RootedRefs(norm, rest)
  {
  }

  lemma {:induction false} TypedLocatorsExact(norm: Norm, resources: seq<ResourceRef>, types: seq<string>)
    ensures |LocatorsOf(OfTypes(RootedRefs(norm, resources), types))| == |LocatorsOf(OfTypes(resources, types))|
    ensures LocatorsOf(OfTypes(RootedRefs(norm, resources), types)) == LocatorsOf(OfTypes(resources, types))
       <==> KeptOf(norm, resources, types)
    decreases |resources|
  {
    if resources != [] {
      var r, rest := resources[0], resources[1..];
      assert resources == [r] + rest;
      TypedLocatorsExact(norm, rest, types);
      RootedCons(norm, r, rest);
      TypedLocatorsCons(RootedRef(norm, r), RootedRefs(norm, rest), types);
      TypedLocatorsCons(r, rest, types);
      SameHead(RootedRef(norm, r).locator, LocatorsOf(OfTypes(RootedRefs(norm, rest), types)), r.locator,
               LocatorsOf(OfTypes(rest, types)));
    }
  }

  lemma SameHead(a: string, s: seq<string>, b: string, t: seq<string>)
    ensures [a] + s == [b] + t <==> a == b && s == t
  {
    assert ([a] + s)[0] == a && ([b] + t)[0] == b;
    assert ([a] + s)[1..] == s && ([b] + t)[1..] == t;
  }

  lemma {:induction false} FullFilter<T(!new)>(s: seq<T>, p: T -> bool)
    requires |Filter(s, p)| == |s|
    ensures Filter(s, p) == s
    decreases |s|
  {
    if s != [] {
      assert s == [s[0]] + s[1..];
      FullFilter(s[1..], p);
    }
  }

  lemma SettledIsBacked(norm: Norm, resources: seq<ResourceRef>)
    requires Settled(norm, resources)
    ensures Backed(norm, resources)
  {
    forall r | r in resources && r.rtype != "file" ensures norm(r.locator) in LocatorsOf(RootedRefs(norm, resources)) {
      var i :| 0 <= i < |resources| && resources[i] == r;
      assert LocatorsOf(RootedRefs(norm, resources))[i] == r.locator;
    }
  }

  /** Only backed working locators can be the locators of typed references. */
  lemma EqualMeansBacked(norm: Norm, resources: seq<ResourceRef>, types: seq<string>)
    ensures RootedAll(norm, LocatorsOf(resources)) == LocatorsOf(OfTypes(resources, types)) ==> Backed(norm, resources)
  {
    var all := RootedAll(norm, LocatorsOf(resources));
    if all == LocatorsOf(OfTypes(resources, types)) {
      FullFilter(resources, (r: ResourceRef) => r.rtype in types);
      assert forall i :: 0 <= i < |resources| ==> all[i] == LocatorsOf(resources)[i];
      SettledIsBacked(norm, resources);
    }
  }

  /** Field by field, filter and scope check look at the same locators exactly under SeenAsWritten. */
  lemma SeenAsWrittenExact(matchers: Matchers, norm: Norm, resources: seq<ResourceRef>, field: string)
    ensures FieldTargets(matchers, WriteContextOf(norm, resources), field) == FieldLocators(matchers, resources, field)
       <==> SeenAsWritten(matchers, norm, resources, field)
  {
    TargetsAreSeen(matchers, norm, resources, field);
    if TypedField(matchers, field) {
      var types := matchers[field].resourceTypes;
      EqualMeansBacked(norm, resources, types);
      TypedLocatorsExact(norm, resources, types);
    } else if LocatorField(field) {
      var all := RootedAll(norm, LocatorsOf(resources));
      assert all == LocatorsOf(resources) ==> forall i :: 0 <= i < |resources| ==> all[i] == resources[i].locator;
    } else {
      assert |LocatorsOf(resources)| == |resources|;
    }
  }

  /** The hits of a field among the targets the filter sees. */
  function SeenHits(matchers: Matchers, norm: Norm, resources: seq<ResourceRef>, f: ScopeField): seq<string> {
    var targets := Seen(matchers, norm, resources, f.field);
    if f.patterns == [] || targets == [] then [] else FindOverlaps(matchers, f.field, f.patterns, targets)
  }

  /** The filter matches a field by the targets it sees; on a field seen as written it matches exactly when the scope
      check has a hit. */
  lemma MatchIsHit(matchers: Matchers, norm: Norm, resources: seq<ResourceRef>, f: ScopeField)
    ensures FieldMatches(matchers, WriteContextOf(norm, resources), f) <==> SeenHits(matchers, norm, resources, f) != []
    ensures SeenAsWritten(matchers, norm, resources, f.field) ==>
              SeenHits(matchers, norm, resources, f) == FieldHits(matchers, resources, f)
  {
    TargetsAreSeen(matchers, norm, resources, f.field);
    SeenAsWrittenExact(matchers, norm, resources, f.field);
  }

  // ---- writes of files --------------------------------------------------------------------------------------

  /** A write of files whose locators are settled is seen as written on both locator fields and every typed field. */
  lemma SettledFilesAreSeen(matchers: Matchers, norm: Norm, resources: seq<ResourceRef>, field: string)
    requires Settled(norm, resources) && forall r :: r in resources ==> r.rtype == "file"
    requires LocatorField(field) || TypedField(matchers, field)
    ensures SeenAsWritten(matchers, norm, resources, field)
  {
    forall r | r in resources ensures RootedRef(norm, r) == r {
      var i :| 0 <= i < |resources| && resources[i] == r;
    }
  }

  /** The code plugin's scope matcher. */
  function CodeOverlaps(patterns: seq<string>, targets: seq<string>): seq<string> {
    Filter(targets, (t: string) => exists p :: p in patterns && Locators.PathsOverlap(p, t))
  }

  /** The code plugin is registered for this field: it is for files and modules. */
  ghost predicate CodeField(matchers: Matchers, field: string) {
    && field in matchers && matchers[field].resourceTypes == ["file"]
    && forall p, t :: matchers[field].findOverlaps(p, t) == CodeOverlaps(p, t)
  }

  /** Some pattern overlaps some file among the resources. */
  predicate Touched(patterns: seq<string>, resources: seq<ResourceRef>) {
    exists p, r :: p in patterns && r in resources && r.rtype == "file" && Locators.PathsOverlap(p, r.locator)
  }

  /** The scope check finds exactly the overlaps of patterns with files. */
  lemma FileHitsExact(matchers: Matchers, resources: seq<ResourceRef>, f: ScopeField)
    requires CodeField(matchers, f.field)
    ensures FieldHits(matchers, resources, f) != [] <==> Touched(f.patterns, resources)
  {
    var typed := OfTypes(resources, ["file"]);
    var hits := CodeOverlaps(f.patterns, LocatorsOf(typed));
    if hits != [] {
      assert hits[0] in hits;
      var j :| 0 <= j < |typed| && LocatorsOf(typed)[j] == hits[0];
      assert typed[j] in typed;
    }
    if p, r :| p in f.patterns && r in resources && r.rtype == "file" && Locators.PathsOverlap(p, r.locator) {
      assert r in typed;
      var j :| 0 <= j < |typed| && typed[j] == r;
      assert LocatorsOf(typed)[j] == r.locator;
      assert r.locator in hits;
    }
  }

  /** Beside other resources a settled file is still found on the fields of the code plugin, which compares path by
      path: unbacked locators only add targets. */
  lemma FileHitsAreSeen(matchers: Matchers, norm: Norm, resources: seq<ResourceRef>, f: ScopeField, r: ResourceRef)
    requires CodeField(matchers, f.field)
    requires r in resources && r.rtype == "file" && norm(r.locator) == r.locator
    requires exists p :: p in f.patterns && Locators.PathsOverlap(p, r.locator)
    ensures SeenHits(matchers, norm, resources, f) != []
  {
    var targets := Seen(matchers, norm, resources, f.field);
    assert r.locator in targets by {
      var i :| 0 <= i < |resources| && resources[i] == r;
      if LocatorField(f.field) && !Backed(norm, resources) {
        assert RootedAll(norm, LocatorsOf(resources))[i] == r.locator;
      } else {
        var refs := RootedRefs(norm, resources);
        assert refs[i] == r && r in refs;
        var typed := OfTypes(refs, ["file"]);
        assert r in typed;
        var j :| 0 <= j < |typed| && typed[j] == r;
        assert LocatorsOf(typed)[j] == r.locator;
      }
    }
    assert r.locator in CodeOverlaps(f.patterns, targets);
  }

  /** The write check roots file locators once on entry and once more for its context. The second pass changes nothing
      exactly when the first left no outer white space and no bare drive. */
  lemma SecondRootingExact(locator: string, entry: string, root: string, caseSensitive: bool)
    requires IsAbsolutePath(entry) && Home(entry) != "" && IsAbsolutePath(root) && Home(root) != ""
    ensures var o := InRoot(entry, caseSensitive)(locator);
            InRoot(root, caseSensitive)(o) == o <==> Trimmed(o) && !BareDrive(o)
  {
    RootedTwiceExact(locator, entry, root, caseSensitive);
  }

  // ---- writes of other resources ----------------------------------------------------------------------------

  /** The generic plugin's scope matcher. */
  function GenericOverlaps(patterns: seq<string>, targets: seq<string>): seq<string> {
    Filter(targets, (t: string) => exists p :: p in patterns && Locators.LocatorPathsOverlap(t, p))
  }

  /** A lone resource of another type is compared by its rooted locator on the locator fields, unless that is its own
      locator. */
  lemma LoneResourceSeen(matchers: Matchers, norm: Norm, r: ResourceRef)
    requires r.rtype != "file" && norm(r.locator) != r.locator
    ensures Seen(matchers, norm, [r], "resources") == [norm(r.locator)]
  {
    var one := [r];
    assert LocatorsOf(RootedRefs(norm, one)) == [r.locator];
    assert r in one;
    assert !Backed(norm, one);
    assert RootedAll(norm, LocatorsOf(one)) == [norm(r.locator)];
  }

  /** Nothing that starts at a slash overlaps a path that does not. */
  lemma AnchoredNeverOverlapsPlain(o: string, locator: string)
    requires o != "" && o[0] == '/'
    requires Locators.LocatorPath(locator) != "" && Locators.LocatorPath(locator)[0] != '/'
    ensures !Locators.LocatorPathsOverlap(o, locator)
  {
    PathOfAnchored(o);
    var path := Locators.LocatorPath(locator);
    StripKeepsSolid(path, 0);
    var pa, pb := Locators.StripSlashes(Locators.LocatorPath(o)), Locators.StripSlashes(path);
    assert pb[0] == path[0];
    assert pa == "" || pa[0] == '/';
  }

  lemma PathOfAnchored(o: string)
    requires o != "" && o[0] == '/'
    ensures Locators.LocatorPath(o) == "" || Locators.LocatorPath(o)[0] == '/'
  {
    assert !Locators.HasScheme(o);
  }
}
