/** Overlap of normalised paths in terms of where the paths, as written, lead: from writing to comparing. */
module RootedOverlap {
  import opened Text
  import opened PathNormalize
  import opened ResourcePath
  import opened NormalizedPath
  import opened RootedPath
  import L = Locators

  // ---- segments of a finished path --------------------------------------------------------------------------

  /** The first segment of an absolute path: empty below a slash, the drive otherwise. */
  function Anchor(w: string): string
    requires Anchored(w)
  {
    if w[0] == '/' then "" else w[..2]
  }

  function FoldAll(segments: seq<string>, caseSensitive: bool): seq<string> {
    if caseSensitive then segments else LowerAll(segments)
  }

  /** Where an absolute path leads, as the comparison sees it. */
  function Where(w: string, caseSensitive: bool): seq<string>
    requires Anchored(w)
  {
    FoldAll([Anchor(w)] + Segments(w), caseSensitive)
  }

  lemma JoinWithAnchor(a: string, segments: seq<string>)
    ensures Join([a] + segments, SLASH) == a + (if segments == [] then "" else SLASH + Join(segments, SLASH))
  {
    if segments != [] {
      JoinCons(a, segments, SLASH);
    } else {
      assert [a] + segments == [a];
    }
  }

  lemma AnchorHasNoSlash(w: string)
    requires Anchored(w)
    ensures '/' !in Anchor(w) && Prefix(w) == Anchor(w) + SLASH
  {
    if w[0] != '/' {
      assert Anchor(w) == [w[0], w[1]];
      assert w[..3] == w[..2] + [w[2]];
    }
  }

  /** Resolved is the join of anchor and segments, but for the slash of a bare root. */
  lemma ResolvedIsJoin(w: string)
    requires Anchored(w)
    ensures SlashFree([Anchor(w)] + Segments(w))
    ensures var s := Join([Anchor(w)] + Segments(w), SLASH);
            && Resolved(w) == (if Segments(w) == [] then s + SLASH else s)
            && (s == "" || s[|s| - 1] != '/')
  {
    var k := SegmentsShape(w);
    var segments := Segments(w);
    forall i | 0 <= i < |segments| ensures segments[i] != "" && '/' !in segments[i] {
      CanonicalSegment(segments, k, IsDrive(w), i);
    }
    AnchorHasNoSlash(w);
    JoinWithAnchor(Anchor(w), segments);
    if segments != [] {
      JoinIsTight(segments);
    }
  }

  lemma StrippedResolved(w: string)
    requires Anchored(w)
    ensures L.StripSlashes(StripTrailing(Resolved(w))) == Join([Anchor(w)] + Segments(w), SLASH)
  {
    ResolvedIsJoin(w);
    var s := Join([Anchor(w)] + Segments(w), SLASH);
    if Segments(w) == [] {
      assert (s + SLASH)[..|s|] == s;
    }
  }

  lemma {:induction false} LowerStrip(s: string)
    ensures L.StripSlashes(Lower(s)) == Lower(L.StripSlashes(s))
    decreases |s|
  {
    if s != "" {
      assert Lower(s)[|s| - 1] == '/' <==> s[|s| - 1] == '/';
      if s[|s| - 1] == '/' {
        LowerStrip(s[..|s| - 1]);
        assert Lower(s)[..|s| - 1] == Lower(s[..|s| - 1]);
      }
    }
  }

  /** The segments the overlap test compares are where the path leads. */
  lemma FinishedSegments(w: string, caseSensitive: bool)
    requires Anchored(w)
    ensures L.SegmentsOf(L.StripSlashes(Finish(Resolved(w), caseSensitive))) == Where(w, caseSensitive)
  {
    var all := [Anchor(w)] + Segments(w);
    ResolvedIsJoin(w);
    StrippedResolved(w);
    SplitOfJoin(all);
    LowerStrip(StripTrailing(Resolved(w)));
    LowerSplit(Join(all, SLASH));
  }

  // ---- a path below a root, written out ---------------------------------------------------------------------

  /** A path that names a place: no blank, no URI, no lone drive, and not slashes only. */
  predicate Names(p: string) {
    p != "" && Trimmed(p) && !IsUriScheme(p) && !BareDrive(p) && (IsAbsolutePath(p) || Home(p) != "")
  }

  predicate GoodRoot(root: string) {
    IsAbsolutePath(root) && Home(root) != ""
  }

  /** The absolute path a written one stands for, unresolved. */
  function WrittenOut(root: string, p: string): string {
    if IsAbsolutePath(p) then Slashes(p) else UpperDrive(Home(root) + "/" + Slashes(p))
  }

  lemma WrittenOutIsAnchored(root: string, p: string)
    requires GoodRoot(root) && Names(p)
    ensures Anchored(WrittenOut(root, p))
  {
    if IsAbsolutePath(p) {
      AbsoluteIsAnchored(p);
    } else {
      AnchoredHome(root);
      BelowHome(Home(root), Slashes(p));
      UpperDriveResolved(Home(root) + "/" + Slashes(p));
    }
  }

  /** Normalising below a root is finishing the written-out path. */
  lemma NormalIsFinished(root: string, p: string, caseSensitive: bool)
    requires GoodRoot(root) && Names(p)
    ensures NormalizeIn(p, root, caseSensitive) == Finish(Resolved(WrittenOut(root, p)), caseSensitive)
  {
    if IsAbsolutePath(p) {
      NormalizeInPlain(p, root, caseSensitive);
    } else {
      var h := Home(root);
      JoinedForm(root, p, caseSensitive);
      AnchoredHome(root);
      BelowHome(h, Slashes(p));
      UpperDriveResolved(h + "/" + Slashes(p));
      TrailingSlashes(h, Slashes(p));
    }
  }

  /** Where a path leads below a root. */
  function Place(root: string, p: string, caseSensitive: bool): seq<string>
    requires GoodRoot(root) && Names(p)
  {
    WrittenOutIsAnchored(root, p);
    Where(WrittenOut(root, p), caseSensitive)
  }

  lemma NormalSegments(root: string, p: string, caseSensitive: bool)
    requires GoodRoot(root) && Names(p)
    ensures L.SegmentsOf(L.StripSlashes(NormalizeIn(p, root, caseSensitive))) == Place(root, p, caseSensitive)
  {
    WrittenOutIsAnchored(root, p);
    NormalIsFinished(root, p, caseSensitive);
    FinishedSegments(WrittenOut(root, p), caseSensitive);
  }

  /** Two written paths, normalised below the same root, overlap when one leads to or below the place of the other, and
      without globs exactly then. */
  lemma RootedOverlapExact(root: string, p: string, q: string, caseSensitive: bool)
    requires GoodRoot(root) && Names(p) && Names(q)
    ensures var a, b := NormalizeIn(p, root, caseSensitive), NormalizeIn(q, root, caseSensitive);
            var related := L.Related(Place(root, p, caseSensitive), Place(root, q, caseSensitive));
            && (related ==> L.PathsOverlap(a, b))
            && (!L.IsGlob(L.StripSlashes(a)) && !L.IsGlob(L.StripSlashes(b)) ==> (L.PathsOverlap(a, b) <==> related))
  {
    NormalSegments(root, p, caseSensitive);
    NormalSegments(root, q, caseSensitive);
    L.SameOrNestedExact(L.StripSlashes(NormalizeIn(p, root, caseSensitive)), L.StripSlashes(NormalizeIn(q, root, caseSensitive)));
  }

  // ---- below a directory ------------------------------------------------------------------------------------

  /** Segments that never climb above where they start are walked on top of any stack. */
  lemma {:induction false} NoClimbAppends(stack: seq<string>, dir: seq<string>, parts: seq<string>, drive: bool)
    requires Overclimbs(parts, |dir|) == 0 && forall i :: 0 <= i < |dir| ==> dir[i] != ".."
    ensures Resolve(stack + dir, parts, drive) == stack + Walk(dir, parts)
    decreases |parts|
  {
    if parts != [] {
      var p := parts[0];
      if p == "." || p == "" {
        NoClimbAppends(stack, dir, parts[1..], drive);
      } else if p == ".." {
        var up := dir[..|dir| - 1];
        assert (stack + dir)[|stack + dir| - 1] == dir[|dir| - 1];
        assert (stack + dir)[..|stack + dir| - 1] == stack + up;
        NoClimbAppends(stack, up, parts[1..], drive);
      } else {
        assert stack + dir + [p] == stack + (dir + [p]);
        NoClimbAppends(stack, dir + [p], parts[1..], drive);
      }
    }
  }

  /** The rest of a path never climbs above the directory it continues. */
  predicate StaysBelow(rest: string) {
    Overclimbs(Split(Slashes(rest), SLASH), 0) == 0
  }

  /** Where the rest leads below the directory. */
  function Below(rest: string): seq<string> {
    Walk([], Split(Slashes(rest), SLASH))
  }

  lemma SegmentsBelow(w: string, x: string)
    requires Anchored(w) && Overclimbs(Split(x, SLASH), 0) == 0
    ensures Anchored(w + "/" + x) && Anchor(w + "/" + x) == Anchor(w)
    ensures Segments(w + "/" + x) == Segments(w) + Walk([], Split(x, SLASH))
  {
    var z := w + "/" + x;
    assert IsDrive(z) == IsDrive(w);
    if IsDrive(w) {
      assert z[3..] == w[3..] + "/" + x;
      SplitBetween(w[3..], '/', x);
    } else {
      SplitBetween(w, '/', x);
    }
    assert Parts(z) == Parts(w) + Split(x, SLASH);
    ResolveConcat([], Parts(w), Split(x, SLASH), IsDrive(w));
    assert Segments(w) + [] == Segments(w);
    NoClimbAppends(Segments(w), [], Split(x, SLASH), IsDrive(w));
  }

  lemma SlashesOfBelow(p: string, rest: string)
    ensures Slashes(p + "/" + rest) == Slashes(p) + "/" + Slashes(rest)
  {
    var a, b := Slashes(p + "/" + rest), Slashes(p) + "/" + Slashes(rest);
    assert |a| == |b|;
    assert forall i :: 0 <= i < |a| ==> a[i] == b[i];
  }

  lemma {:induction false} StripTwo(s: string, t: string)
    requires L.StripSlashes(s) != ""
    ensures L.StripSlashes(s + t) != ""
    decreases |t|
  {
    if t == "" {
      assert s + t == s;
    } else if t[|t| - 1] == '/' {
      assert (s + t)[..|s + t| - 1] == s + t[..|t| - 1];
      StripTwo(s, t[..|t| - 1]);
    }
  }

  /** A directory and a path below it are of the same kind. */
  lemma BelowNames(p: string, rest: string)
    requires Names(p) && Trimmed(p + "/" + rest) && !IsUriScheme(p + "/" + rest)
    ensures Names(p + "/" + rest) && (IsAbsolutePath(p + "/" + rest) <==> IsAbsolutePath(p))
  {
    var q := p + "/" + rest;
    assert |q| >= 2 && q[0] == p[0];
    assert q[1] == if |p| > 1 then p[1] else '/';
    assert |p| > 2 ==> q[2] == p[2];
    if !IsAbsolutePath(p) {
      SlashesOfBelow(p, rest);
      StripTwo(Slashes(p), "/" + Slashes(rest));
      assert Slashes(p) + "/" + Slashes(rest) == Slashes(p) + ("/" + Slashes(rest));
    }
  }

  lemma UpperDriveConcat(a: string, t: string)
    requires |a| >= 2
    ensures UpperDrive(a + t) == UpperDrive(a) + t
  {
    var z := a + t;
    assert z[0] == a[0] && z[1] == a[1];
    assert z[1..] == a[1..] + t;
  }

  lemma JoinThree(h: string, a: string, b: string)
    ensures h + "/" + (a + "/" + b) == h + "/" + a + "/" + b
  {
  }

  lemma WrittenBelow(root: string, p: string, rest: string)
    requires GoodRoot(root) && Names(p) && (IsAbsolutePath(p + "/" + rest) <==> IsAbsolutePath(p))
    ensures WrittenOut(root, p + "/" + rest) == WrittenOut(root, p) + "/" + Slashes(rest)
  {
    SlashesOfBelow(p, rest);
    if !IsAbsolutePath(p) {
      var a, t := Home(root) + "/" + Slashes(p), "/" + Slashes(rest);
      JoinThree(Home(root), Slashes(p), Slashes(rest));
      Assoc(a, "/", Slashes(rest));
      UpperDriveConcat(a, t);
      Assoc(UpperDrive(a), "/", Slashes(rest));
    }
  }

  lemma FoldConcat(a: seq<string>, b: seq<string>, caseSensitive: bool)
    ensures FoldAll(a + b, caseSensitive) == FoldAll(a, caseSensitive) + FoldAll(b, caseSensitive)
  {
  }

  /** A path below a directory leads to the directory's place and on. */
  lemma PlaceBelowDirectory(root: string, p: string, rest: string, caseSensitive: bool)
    requires GoodRoot(root) && Names(p) && Trimmed(p + "/" + rest) && !IsUriScheme(p + "/" + rest) && StaysBelow(rest)
    ensures Names(p + "/" + rest)
    ensures Place(root, p + "/" + rest, caseSensitive) == Place(root, p, caseSensitive) + FoldAll(Below(rest), caseSensitive)
  {
    BelowNames(p, rest);
    WrittenBelow(root, p, rest);
    var w := WrittenOut(root, p);
    WrittenOutIsAnchored(root, p);
    SegmentsBelow(w, Slashes(rest));
    var z := w + "/" + Slashes(rest);
    assert [Anchor(z)] + Segments(z) == [Anchor(w)] + Segments(w) + Below(rest);
    FoldConcat([Anchor(w)] + Segments(w), Below(rest), caseSensitive);
  }

  /** A directory overlaps everything below it, however the two are written and wherever the root is: for a path written
      as the directory, a slash and a rest that never climbs out of it. */
  lemma DirectoryOverlapsBelow(root: string, p: string, rest: string, caseSensitive: bool)
    requires GoodRoot(root) && Names(p) && Trimmed(p + "/" + rest) && !IsUriScheme(p + "/" + rest) && StaysBelow(rest)
    ensures L.PathsOverlap(NormalizeIn(p, root, caseSensitive), NormalizeIn(p + "/" + rest, root, caseSensitive))
  {
    PlaceBelowDirectory(root, p, rest, caseSensitive);
    RootedOverlapExact(root, p, p + "/" + rest, caseSensitive);
  }

  // ---- below a trailing glob --------------------------------------------------------------------------------

  lemma StarsStayBelow(stars: string)
    requires L.Stars(stars)
    ensures StaysBelow(stars) && Below(stars) == [stars] && FoldAll([stars], true) == FoldAll([stars], false) == [stars]
  {
    assert Slashes(stars) == stars && Lower(stars) == stars;
    SplitJoin([stars], '/');
    assert Join([stars], SLASH) == stars;
    var one := [stars];
    var none: seq<string> := [];
    assert one[1..] == none;
    assert Overclimbs(one, 0) == Overclimbs(none, 1) == 0;
    assert Walk([], one) == Walk([] + [stars], none);
  }

  lemma SameSegments(x: string, y: string)
    requires L.SegmentsOf(x) == L.SegmentsOf(y)
    ensures x == y
  {
    JoinSplit(x, SLASH);
    JoinSplit(y, SLASH);
  }

  lemma GlobEndsTrimmed(p: string, stars: string)
    requires Names(p) && L.Stars(stars)
    ensures Trimmed(p + "/" + stars)
  {
    var g := p + "/" + stars;
    assert g[0] == p[0] && g[|g| - 1] == '*';
  }

  /** Normalising keeps a trailing glob: it is the glob of the normalised directory. */
  lemma NormalGlob(root: string, p: string, stars: string, caseSensitive: bool)
    requires GoodRoot(root) && Names(p) && L.Stars(stars) && !IsUriScheme(p + "/" + stars)
    ensures L.StripSlashes(NormalizeIn(p + "/" + stars, root, caseSensitive))
         == L.StripSlashes(NormalizeIn(p, root, caseSensitive)) + SLASH + stars
  {
    var base := L.StripSlashes(NormalizeIn(p, root, caseSensitive));
    GlobEndsTrimmed(p, stars);
    StarsStayBelow(stars);
    PlaceBelowDirectory(root, p, stars, caseSensitive);
    NormalSegments(root, p, caseSensitive);
    NormalSegments(root, p + "/" + stars, caseSensitive);
    L.SegmentsOfGlob(base, stars);
    SameSegments(L.StripSlashes(NormalizeIn(p + "/" + stars, root, caseSensitive)), base + SLASH + stars);
  }

  /** So does the directory with a trailing glob. */
  lemma GlobOverlapsBelow(root: string, p: string, stars: string, rest: string, caseSensitive: bool)
    requires GoodRoot(root) && Names(p) && L.Stars(stars) && !IsUriScheme(p + "/" + stars)
    requires Trimmed(p + "/" + rest) && !IsUriScheme(p + "/" + rest) && StaysBelow(rest)
    ensures L.PathsOverlap(NormalizeIn(p + "/" + stars, root, caseSensitive), NormalizeIn(p + "/" + rest, root, caseSensitive))
  {
    NormalGlob(root, p, stars, caseSensitive);
    PlaceBelowDirectory(root, p, rest, caseSensitive);
    NormalSegments(root, p, caseSensitive);
    NormalSegments(root, p + "/" + rest, caseSensitive);
    L.GlobOverlap(L.StripSlashes(NormalizeIn(p, root, caseSensitive)), stars,
                  L.StripSlashes(NormalizeIn(p + "/" + rest, root, caseSensitive)));
  }
}
