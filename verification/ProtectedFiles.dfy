/** From the scope a user writes into a memory to the refusal of a write: files are rooted on entry, modules are not. */
module ProtectedFiles {
  import opened Text
  import opened ResourcePath
  import opened NormalizedPath
  import opened Resources
  import opened RootedPath
  import opened RootedOverlap
  import opened Projection
  import opened Constraints
  import opened WriteContext
  import opened Pipeline
  import L = Locators
  import W = WritePermit

  // ---- entry ------------------------------------------------------------------------------------------------

  function RootedField(norm: Norm, f: ScopeField): ScopeField {
    if f.field == "files" then f.(patterns := RootedAll(norm, f.patterns)) else f
  }

  /** A memory as it is stored: only the patterns of files are rooted. */
  function Entered(norm: Norm, m: Memory): Memory {
    match m.appliesTo
    case None => m
    case Some(scope) =>
      m.(appliesTo := Some(seq(|scope|, i requires 0 <= i < |scope| => RootedField(norm, scope[i]))))
  }

  lemma EnteredKeeps(norm: Norm, m: Memory)
    ensures Outdated(Entered(norm, m)) == Outdated(m) && Enforced(Entered(norm, m)) == Enforced(m)
  {
  }

  lemma EnteredField(norm: Norm, m: Memory, f: ScopeField)
    requires m.appliesTo.Some? && f in m.appliesTo.value
    ensures Entered(norm, m).appliesTo.Some? && RootedField(norm, f) in Entered(norm, m).appliesTo.value
  {
    var scope := m.appliesTo.value;
    var i :| 0 <= i < |scope| && scope[i] == f;
    assert Entered(norm, m).appliesTo.value[i] == RootedField(norm, f);
  }

  // ---- protecting a directory -------------------------------------------------------------------------------

  /** A pattern for everything in a directory: its name, or its name with a trailing glob. */
  predicate Covers(pattern: string, dir: string) {
    pattern == dir || ((pattern == dir + "/*" || pattern == dir + "/**") && !IsUriScheme(pattern))
  }

  lemma CoverOverlapsBelow(root: string, pattern: string, dir: string, rest: string, caseSensitive: bool)
    requires GoodRoot(root) && Names(dir) && Covers(pattern, dir)
    requires Trimmed(dir + "/" + rest) && !IsUriScheme(dir + "/" + rest) && StaysBelow(rest)
    ensures L.PathsOverlap(NormalizeIn(pattern, root, caseSensitive), NormalizeIn(dir + "/" + rest, root, caseSensitive))
  {
    if pattern == dir {
      DirectoryOverlapsBelow(root, dir, rest, caseSensitive);
    } else if pattern == dir + "/*" {
      assert pattern == dir + "/" + "*";
      GlobOverlapsBelow(root, dir, "*", rest, caseSensitive);
    } else {
      assert pattern == dir + "/" + "**";
      GlobOverlapsBelow(root, dir, "**", rest, caseSensitive);
    }
  }

  lemma RootedPattern(norm: Norm, f: ScopeField, pattern: string)
    requires f.field == "files" && pattern in f.patterns
    ensures norm(pattern) in RootedField(norm, f).patterns
  {
    var i :| 0 <= i < |f.patterns| && f.patterns[i] == pattern;
    assert RootedField(norm, f).patterns[i] == norm(pattern);
  }

  /** Protecting a directory protects every file below it, as the user wrote both: a live enforced memory that names the
      directory among its files, with or without a trailing glob, refuses every request that names a file written as the
      directory, a slash and a rest that stays below it; under any absolute root and either case rule. */
  lemma DirectoryIsProtected(env: Env, rt: Runtime, root: string, projectionId: string, memories: seq<Memory>,
                             request: W.WriteDecisionInput, m: Memory, f: ScopeField, pattern: string,
                             dir: string, rest: string, r: ResourceRef)
    requires GoodRoot(root) && Names(dir) && Covers(pattern, dir)
    requires Trimmed(dir + "/" + rest) && !IsUriScheme(dir + "/" + rest) && StaysBelow(rest)
    requires !Outdated(m) && Enforced(m) && m.appliesTo.Some? && f in m.appliesTo.value
    requires f.field == "files" && pattern in f.patterns && CodeField(rt.matchers, "files")
    requires Entered(InRoot(root, env.caseSensitive), m) in memories
    requires r in request.resources && r.rtype == "file" && r.locator == dir + "/" + rest
    requires var o := NormalizeIn(r.locator, root, env.caseSensitive); Trimmed(o) && !BareDrive(o)
    ensures !WriteCheck(env, rt, InRoot(root, env.caseSensitive), projectionId, memories,
                        RootedRequest(env, Roots(root, root), request)).permitted
  {
    var norm := InRoot(root, env.caseSensitive);
    EnteredKeeps(norm, m);
    EnteredField(norm, m, f);
    RootedPattern(norm, f, pattern);
    CoverOverlapsBelow(root, pattern, dir, rest, env.caseSensitive);
    assert norm(pattern) == NormalizeIn(pattern, root, env.caseSensitive);
    var r' := RootedMember(env, Roots(root, root), request, r);
    FileOverlapRefusesWrite(env, rt, Roots(root, root), projectionId, memories, request, Entered(norm, m),
                            RootedField(norm, f), r');
  }

  // ---- modules ----------------------------------------------------------------------------------------------

  lemma PrefixSharesFirst(a: string, b: string)
    requires b == a || StartsWith(b, a + SLASH)
    ensures L.SegmentsOf(a)[0] == L.SegmentsOf(b)[0]
  {
    L.NestedIsPrefix(a, b);
  }

  lemma GlobSharesFirst(g: string, p: string)
    requires L.GlobCovers(g, p)
    ensures L.SegmentsOf(g)[0] == L.SegmentsOf(p)[0]
  {
    var base := L.GlobPrefix(g);
    PrefixSharesFirst(base, p);
    StarsEnd(g);
    PrefixSharesFirst(base, g);
  }

  /** A glob continues its directory. */
  lemma StarsEnd(g: string)
    requires L.IsGlob(g)
    ensures StartsWith(g, L.GlobPrefix(g) + SLASH)
  {
    var stars := if EndsWith(g, "/*") then "*" else "**";
    var base := g[..|g| - |stars| - 1];
    GlobIsBase(g, base, stars);
    GlobPrefixIsBase(base, stars);
    assert g[..|base| + 1] == base + SLASH;
  }

  lemma GlobIsBase(g: string, base: string, stars: string)
    requires L.IsGlob(g) && stars == (if EndsWith(g, "/*") then "*" else "**") && base == g[..|g| - |stars| - 1]
    ensures g == base + SLASH + stars
  {
    var tail := g[|g| - |stars| - 1..];
    assert tail == SLASH + stars;
    assert g == base + tail;
  }

  lemma GlobPrefixIsBase(base: string, stars: string)
    requires L.Stars(stars)
    ensures L.GlobPrefix(base + SLASH + stars) == base
  {
    var t := base + SLASH;
    assert t[|t| - 1] == '/' && t[|t| - 1..] == SLASH;
    L.StarsStrip(t, stars);
    assert t[..|t| - 1] == base;
  }

  /** Overlapping patterns share their first segment, globs or not. */
  lemma OverlapSharesFirst(a: string, b: string)
    requires L.PathsOverlap(a, b)
    ensures L.SegmentsOf(L.StripSlashes(a))[0] == L.SegmentsOf(L.StripSlashes(b))[0]
  {
    var na, nb := L.StripSlashes(a), L.StripSlashes(b);
    if L.GlobCovers(na, nb) {
      GlobSharesFirst(na, nb);
    } else if L.GlobCovers(nb, na) {
      GlobSharesFirst(nb, na);
    } else if nb == na || StartsWith(nb, na + SLASH) {
      PrefixSharesFirst(na, nb);
    } else {
      PrefixSharesFirst(nb, na);
    }
  }

  lemma FirstSegment(s: string)
    ensures L.SegmentsOf(s)[0] == "" <==> s == "" || s[0] == '/'
  {
    JoinSplit(s, SLASH);
    SplitFree(s, '/');
    if s != "" && s[0] == '/' {
      assert s == "" + SLASH + s[1..];
      SplitBetween("", '/', s[1..]);
      SplitOfJoin([""]);
    } else if s == "" {
      SplitOfJoin([""]);
    }
  }

  /** A pattern that does not start at a slash meets a locator that does exactly when it is empty. */
  lemma PlainMeetsAnchored(pattern: string, o: string)
    requires o != "" && o[0] == '/' && (pattern == "" || pattern[0] != '/')
    ensures L.PathsOverlap(pattern, o) <==> pattern == ""
  {
    var na, nb := L.StripSlashes(pattern), L.StripSlashes(o);
    assert nb == "" || nb[0] == '/';
    if pattern == "" {
      assert na == "";
      assert nb == "" || StartsWith(nb, na + SLASH);
    } else {
      StripKeepsSolid(pattern, 0);
      FirstSegment(na);
      FirstSegment(nb);
      if L.PathsOverlap(pattern, o) {
        OverlapSharesFirst(pattern, o);
      }
    }
  }

  /** Under any root a module pattern only meets files whose normal form starts with its own first segment: nothing below
      a slash, or the drive. */
  lemma ModuleSharesTheRoot(root: string, pattern: string, file: string, caseSensitive: bool)
    requires GoodRoot(root) && Names(file)
    requires L.PathsOverlap(pattern, NormalizeIn(file, root, caseSensitive))
    ensures L.SegmentsOf(L.StripSlashes(pattern))[0] == Place(root, file, caseSensitive)[0]
  {
    OverlapSharesFirst(pattern, NormalizeIn(file, root, caseSensitive));
    NormalSegments(root, file, caseSensitive);
  }

  predicate FromSlash(s: string) {
    s != "" && s[0] == '/'
  }

  predicate WritesFile(resources: seq<ResourceRef>) {
    exists r :: r in resources && r.rtype == "file"
  }

  lemma PlainPatternsTouch(patterns: seq<string>, resources: seq<ResourceRef>)
    requires forall p :: p in patterns ==> !FromSlash(p)
    requires forall r :: r in resources && r.rtype == "file" ==> FromSlash(r.locator)
    ensures Touched(patterns, resources) <==> "" in patterns && WritesFile(resources)
  {
    forall p, r | p in patterns && r in resources && r.rtype == "file"
      ensures L.PathsOverlap(p, r.locator) <==> p == "" {
      PlainMeetsAnchored(p, r.locator);
    }
  }

  /** Modules are compared as they were written: below a POSIX root a memory whose modules are relative patterns protects
      a write exactly when it is live and enforced, has the empty pattern, and any file is written. */
  lemma RelativeModulesExact(matchers: Matchers, norm: Norm, resources: seq<ResourceRef>, m: Memory, patterns: seq<string>)
    requires CodeField(matchers, "modules") && m.appliesTo == Some([ScopeField("modules", patterns)])
    requires forall p :: p in patterns ==> !FromSlash(p)
    requires FilesSettled(norm, resources) && forall r :: r in resources && r.rtype == "file" ==> FromSlash(r.locator)
    ensures Protects(matchers, WriteContextOf(norm, resources), resources, m)
            <==> !Outdated(m) && Enforced(m) && "" in patterns && WritesFile(resources)
  {
    var f := ScopeField("modules", patterns);
    assert f in m.appliesTo.value;
    FileProtectionExact(matchers, norm, resources, m);
    PlainPatternsTouch(patterns, resources);
  }

  /** The same directory in the two fields: a do-not-touch memory that names a relative directory among its files
      protects the file below it, one that names it among its modules does not, below every POSIX root. */
  lemma ModulesAreNotRooted(env: Env, matchers: Matchers, root: string, m: Memory, dir: string, rest: string, r: ResourceRef)
    requires CodeField(matchers, "files") && CodeField(matchers, "modules")
    requires GoodRoot(root) && FromSlash(root) && Names(dir) && !IsAbsolutePath(dir)
    requires Trimmed(dir + "/" + rest) && !IsUriScheme(dir + "/" + rest) && StaysBelow(rest)
    requires !Outdated(m) && Enforced(m)
    requires r.rtype == "file" && r.locator == NormalizeIn(dir + "/" + rest, root, env.caseSensitive) && Trimmed(r.locator)
    ensures var norm := InRoot(root, env.caseSensitive);
            var files, modules := m.(appliesTo := Some([ScopeField("files", [dir])])), m.(appliesTo := Some([ScopeField("modules", [dir])]));
            && Protects(matchers, WriteContextOf(norm, [r]), [r], Entered(norm, files))
            && !Protects(matchers, WriteContextOf(norm, [r]), [r], Entered(norm, modules))
  {
    var norm := InRoot(root, env.caseSensitive);
    FileBelowSlash(root, dir, rest, env.caseSensitive);
    FilesAreProtected(env, matchers, root, m, dir, rest, r);
    ModulesAreNot(matchers, norm, m, dir, r);
  }

  lemma FileBelowSlash(root: string, dir: string, rest: string, caseSensitive: bool)
    requires GoodRoot(root) && FromSlash(root) && Names(dir) && !IsAbsolutePath(dir)
    requires Trimmed(dir + "/" + rest) && !IsUriScheme(dir + "/" + rest)
    requires Trimmed(NormalizeIn(dir + "/" + rest, root, caseSensitive))
    ensures var o := NormalizeIn(dir + "/" + rest, root, caseSensitive);
            FromSlash(o) && InRoot(root, caseSensitive)(o) == o
    ensures dir != "" && !FromSlash(dir)
  {
    BelowNames(dir, rest);
    BelowSlashRoot(dir + "/" + rest, root, caseSensitive);
    SecondRootingExact(dir + "/" + rest, root, root, caseSensitive);
  }

  lemma FilesAreProtected(env: Env, matchers: Matchers, root: string, m: Memory, dir: string, rest: string, r: ResourceRef)
    requires CodeField(matchers, "files") && GoodRoot(root) && Names(dir)
    requires Trimmed(dir + "/" + rest) && !IsUriScheme(dir + "/" + rest) && StaysBelow(rest)
    requires !Outdated(m) && Enforced(m)
    requires r.rtype == "file" && r.locator == NormalizeIn(dir + "/" + rest, root, env.caseSensitive)
    requires InRoot(root, env.caseSensitive)(r.locator) == r.locator
    ensures var norm := InRoot(root, env.caseSensitive);
            var files := m.(appliesTo := Some([ScopeField("files", [dir])]));
            Protects(matchers, WriteContextOf(norm, [r]), [r], Entered(norm, files))
  {
    var norm := InRoot(root, env.caseSensitive);
    var f := ScopeField("files", [dir]);
    var files := m.(appliesTo := Some([f]));
    EnteredKeeps(norm, files);
    EnteredField(norm, files, f);
    RootedPattern(norm, f, dir);
    DirectoryOverlapsBelow(root, dir, rest, env.caseSensitive);
    assert L.PathsOverlap(norm(dir), r.locator);
    TouchedFieldProtects(matchers, norm, [r], Entered(norm, files), RootedField(norm, f), r);
  }

  lemma ModulesAreNot(matchers: Matchers, norm: Norm, m: Memory, dir: string, r: ResourceRef)
    requires CodeField(matchers, "modules") && dir != "" && !FromSlash(dir)
    requires r.rtype == "file" && FromSlash(r.locator) && norm(r.locator) == r.locator
    ensures var modules := m.(appliesTo := Some([ScopeField("modules", [dir])]));
            !Protects(matchers, WriteContextOf(norm, [r]), [r], Entered(norm, modules))
  {
    var modules := m.(appliesTo := Some([ScopeField("modules", [dir])]));
    assert Entered(norm, modules).appliesTo.value == modules.appliesTo.value;
    RelativeModulesExact(matchers, norm, [r], modules, [dir]);
  }
}
