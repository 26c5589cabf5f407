/** When normalising below a project root gives an absolute path, and inputs at which the exceptions are met. */
module RootedAbsolute {
  import opened Text
  import opened PathNormalize
  import opened ResourcePath
  import opened NormalizedPath
  import opened RootedPath
  import Locators

  /** A relative path that leads to a directory named like a drive renders as a drive path. */
  predicate DrivePlace(place: seq<string>) {
    |place| >= 2 && BareDrive(place[0])
  }

  /** Read off the unresolved path: it starts at a slash; or on a drive, and leads below its root; or it is relative,
      never climbs above its start and leads to a drive place. */
  predicate LeadsToAbsolute(z: string) {
    z != "" &&
    (z[0] == '/' ||
     (if IsDrive(z) then Walk([], Parts(z)) != []
      else Overclimbs(Parts(z), 0) == 0 && DrivePlace(Walk([], Parts(z)))))
  }

  lemma AbsoluteIsAnchoredExact(o: string)
    requires '\\' !in o
    ensures IsAbsolutePath(o) <==> Anchored(o)
  {
    assert o != "" ==> o[0] != '\\';
  }

  // ---- the last two steps -------------------------------------------------------------------------------------

  lemma FinishKeepsAnchor(r: string, caseSensitive: bool)
    requires r != "" && (|r| > 1 ==> r[|r| - 1] != '/')
    ensures Anchored(Finish(r, caseSensitive)) <==> Anchored(r)
  {
    if caseSensitive {
    } else {
      LowerKeepsAnchor(r);
    }
  }

  lemma LowerKeepsAnchor(r: string)
    ensures Anchored(Lower(r)) <==> Anchored(r)
  {
    if r != "" {
      assert Lower(r)[0] == '/' <==> r[0] == '/';
    }
  }

  lemma SegmentsAreTight(z: string)
    requires Segments(z) != []
    ensures var s := Join(Segments(z), SLASH);
            s != "" && s[0] != '/' && s[|s| - 1] != '/' && |s| >= |Segments(z)[0]| && s[..|Segments(z)[0]|] == Segments(z)[0]
  {
    var k := SegmentsShape(z);
    forall i | 0 <= i < |Segments(z)| ensures Segments(z)[i] != "" && '/' !in Segments(z)[i] {
      CanonicalSegment(Segments(z), k, IsDrive(z), i);
    }
    JoinIsTight(Segments(z));
  }

  lemma DriveFinish(z: string, caseSensitive: bool)
    requires IsDrive(z)
    ensures Anchored(Finish(Resolved(z), caseSensitive)) <==> Segments(z) != []
  {
    var r := Resolved(z);
    assert r == z[..3] + Join(Segments(z), SLASH);
    if Segments(z) == [] {
      assert r == z[..3] && |Finish(r, caseSensitive)| == 2;
      BareDriveFinish(r, caseSensitive);
    } else {
      SegmentsAreTight(z);
      assert IsDrive(r);
      FinishKeepsAnchor(r, caseSensitive);
    }
  }

  lemma BareDriveFinish(r: string, caseSensitive: bool)
    requires |r| == 3 && IsDrive(r)
    ensures !Anchored(Finish(r, caseSensitive))
  {
    LowerKeepsAnchor(r[..2]);
  }

  lemma RelativeFinish(z: string, caseSensitive: bool)
    requires z != "" && z[0] != '/' && !IsDrive(z)
    ensures Anchored(Finish(Resolved(z), caseSensitive)) <==> DrivePlace(Segments(z))
  {
    var r, segments := Resolved(z), Segments(z);
    if segments == [] {
      assert r == ".";
    } else {
      SegmentsAreTight(z);
      assert r == Join(segments, SLASH);
      DrivePlaceExact(z);
    }
    FinishKeepsAnchor(r, caseSensitive);
  }

  lemma DrivePlaceExact(z: string)
    requires z != "" && z[0] != '/' && !IsDrive(z) && Segments(z) != []
    ensures IsDrive(Join(Segments(z), SLASH)) <==> DrivePlace(Segments(z))
  {
    var segments := Segments(z);
    var k := SegmentsShape(z);
    if IsDrive(Join(segments, SLASH)) {
      DriveName(segments, k);
      var q := Join(segments, SLASH);
      assert |segments[0]| == 2 && segments[0][0] == q[0] && segments[0][1] == q[1] by {
        assert q[..3] == segments[0] + SLASH;
        assert |segments[0]| == 2;
        assert q[..3][0] == segments[0][0] && q[..3][1] == segments[0][1];
      }
    }
  }

  lemma PlaceOfSegments(z: string)
    requires !IsDrive(z)
    ensures DrivePlace(Segments(z)) <==> Overclimbs(Parts(z), 0) == 0 && DrivePlace(Walk([], Parts(z)))
  {
    PartsSlashFree(z);
    ResolveExact(Parts(z));
    var k, place := Overclimbs(Parts(z), 0), Walk([], Parts(z));
    if k > 0 {
      assert Segments(z)[0] == Ups(k)[0] == "..";
    } else {
      assert Segments(z) == place;
    }
  }

  lemma FinishedAnchoredExact(z: string, caseSensitive: bool)
    requires '\\' !in z
    ensures Anchored(Finish(Resolved(z), caseSensitive)) <==> LeadsToAbsolute(z)
  {
    if z == "" {
      EmptyFinish(caseSensitive);
    } else if z[0] == '/' {
      FinishedShape(z, caseSensitive);
      ResolvedIsAnchored(z);
    } else if IsDrive(z) {
      DriveFinish(z, caseSensitive);
      PartsSlashFree(z);
      DriveResolveIsWalk([], Parts(z));
    } else {
      RelativeFinish(z, caseSensitive);
      PlaceOfSegments(z);
    }
  }

  lemma EmptyFinish(caseSensitive: bool)
    ensures !Anchored(Finish(Resolved(""), caseSensitive))
  {
    assert Split("", SLASH) == [""];
    var none: seq<string> := [];
    var one := [""];
    assert one[1..] == none;
    assert Segments("") == none;
    var dot := Resolved("");
    assert dot == ".";
    FinishKeepsAnchor(dot, caseSensitive);
  }

  // ---- below a root -------------------------------------------------------------------------------------------

  /** The segments of the root directory of a drive path. */
  function RootParts(h: string): seq<string> {
    if IsDrive(h) then Split(h[3..], SLASH) else []
  }

  /** Where a relative path leads from the root directory. */
  function PlaceBelow(root: string, p: string): seq<string> {
    Walk([], RootParts(Home(root)) + Split(Slashes(p), SLASH))
  }

  lemma {:induction false} WalkIgnoresTrailing(dir: seq<string>, x: string)
    ensures Walk(dir, Split(x, SLASH)) == Walk(dir, Split(Locators.StripSlashes(x), SLASH))
    decreases |x|
  {
    if x != "" && x[|x| - 1] == '/' {
      var t := x[..|x| - 1];
      assert x == t + "/" + "";
      SplitBetween(t, '/', "");
      assert Split("", SLASH) == [""];
      WalkConcat(dir, Split(t, SLASH), [""]);
      var one := [""];
      assert one[1..] == [];
      WalkIgnoresTrailing(dir, t);
    }
  }

  lemma PartsBelow(h: string, q: string)
    requires BareDrive(h) || (IsDrive(h) && h[|h| - 1] != '/')
    ensures IsDrive(h + "/" + q) && Parts(h + "/" + q) == RootParts(h) + Split(q, SLASH)
  {
    var z := h + "/" + q;
    if BareDrive(h) {
      assert z[3..] == q;
    } else {
      assert z[3..] == h[3..] + "/" + q;
      SplitBetween(h[3..], '/', q);
    }
  }

  /** On a drive the joined path leads where the path leads from the root directory. */
  lemma JoinedPlace(root: string, p: string)
    requires IsAbsolutePath(root) && Home(root) != "" && StartsWithDrive(Home(root)) && Home(p) != ""
    ensures IsDrive(JoinPath(root, p)) && Walk([], Parts(JoinPath(root, p))) == PlaceBelow(root, p)
  {
    var h, q := Home(root), Home(p);
    AnchoredHome(root);
    PartsBelow(h, q);
    var z, u := h + "/" + q, JoinPath(root, p);
    assert u == UpperDrive(z);
    UpperKeepsParts(z);
    WalkToTheEnd(RootParts(h), Slashes(p));
  }

  lemma UpperKeepsParts(z: string)
    requires IsDrive(z)
    ensures IsDrive(UpperDrive(z)) && Parts(UpperDrive(z)) == Parts(z)
  {
    assert UpperDrive(z)[3..] == z[3..];
  }

  lemma WalkToTheEnd(parts: seq<string>, x: string)
    ensures Walk([], parts + Split(x, SLASH)) == Walk([], parts + Split(Locators.StripSlashes(x), SLASH))
  {
    WalkConcat([], parts, Split(Locators.StripSlashes(x), SLASH));
    WalkConcat([], parts, Split(x, SLASH));
    WalkIgnoresTrailing(Walk([], parts), x);
  }

  /** A path of slashes only stays at the root directory. */
  lemma JoinedAtHome(root: string, p: string)
    requires IsAbsolutePath(root) && Home(root) != "" && StartsWithDrive(Home(root)) && Home(p) == ""
    ensures LeadsToAbsolute(JoinPath(root, p)) <==> PlaceBelow(root, p) != []
  {
    var h := Home(root);
    AnchoredHome(root);
    WalkConcat([], RootParts(h), Split(Slashes(p), SLASH));
    WalkIgnoresTrailing(Walk([], RootParts(h)), Slashes(p));
    assert Split("", SLASH) == [""];
    var one := [""];
    assert one[1..] == [];
    assert PlaceBelow(root, p) == Walk([], RootParts(h));
    var u := JoinPath(root, p);
    assert u == UpperDrive(h);
    if IsDrive(h) {
      assert IsDrive(u) && u[3..] == h[3..];
    } else {
      LoneDriveIsNoPlace(u);
    }
  }

  lemma LoneDriveIsNoPlace(u: string)
    requires BareDrive(u)
    ensures !LeadsToAbsolute(u)
  {
    SplitJoin([u], '/');
    assert Parts(u) == [u];
    var none: seq<string> := [];
    var one := [u];
    assert one[1..] == none;
    assert Walk([], one) == Walk([] + [u], none);
  }

  lemma JoinedHasNoBackslash(root: string, p: string)
    ensures '\\' !in JoinPath(root, p)
  {
    var h, q := Home(root), Home(p);
    assert '\\' !in h && '\\' !in q;
  }

  /** "Converts to an absolute path if a project root is provided": for an absolute root and a relative path, the
      result is absolute exactly unless the root is a drive and the path leads to the drive's root. A root of slashes
      only is as good as no root: then the path has to lead to an absolute one by itself. */
  lemma RootedAbsoluteExact(p: string, root: string, caseSensitive: bool)
    requires IsAbsolutePath(root)
    requires p != "" && Trimmed(p) && !IsUriScheme(p) && !IsAbsolutePath(p)
    ensures Home(root) != "" ==>
              (IsAbsolutePath(NormalizeIn(p, root, caseSensitive))
               <==> !StartsWithDrive(Home(root)) || PlaceBelow(root, p) != [])
    ensures Home(root) == "" ==>
              (IsAbsolutePath(NormalizeIn(p, root, caseSensitive)) <==> LeadsToAbsolute(UpperDrive(Home(p))))
  {
    var z := JoinPath(root, p);
    JoinedNormalizes(p, root, caseSensitive);
    if Home(root) != "" {
      AnchoredHome(root);
      if StartsWithDrive(Home(root)) {
        if Home(p) == "" {
          JoinedAtHome(root, p);
        } else {
          JoinedPlace(root, p);
        }
      } else {
        assert z[0] == '/';
      }
    }
  }

  lemma JoinedNormalizes(p: string, root: string, caseSensitive: bool)
    requires root != "" && p != "" && Trimmed(p) && !IsUriScheme(p) && !IsAbsolutePath(p)
    ensures IsAbsolutePath(NormalizeIn(p, root, caseSensitive)) <==> LeadsToAbsolute(JoinPath(root, p))
  {
    var z := JoinPath(root, p);
    JoinedHasNoBackslash(root, p);
    NormalizeInPlain(p, root, caseSensitive);
    assert FullPath(root, p) == z && Slashes(z) == z;
    FinishedAnchoredExact(z, caseSensitive);
    NoBackslashLeft(z, caseSensitive);
    AbsoluteIsAnchoredExact(Finish(Resolved(z), caseSensitive));
  }

  lemma NoBackslashLeft(z: string, caseSensitive: bool)
    requires '\\' !in z
    ensures '\\' !in Finish(Resolved(z), caseSensitive)
  {
    ResolvedHasNoBackslash(z);
    LowerOfLower(StripTrailing(Resolved(z)));
  }

  // ---- the exceptions, met ------------------------------------------------------------------------------------

  /** A text whose second character is not a colon, or whose third and fourth are not both slashes, is no URI. */
  lemma DriveIsNoUri(p: string)
    requires |p| >= 2 && p[1] == ':' && (|p| < 4 || p[3] != '/')
    ensures !IsUriScheme(p)
  {
    forall i | 1 <= i <= |p| && OccursAt(p, "://", i) ensures !(IsLetter(p[0]) && forall j :: 0 < j < i ==> SchemeChar(p[j])) {
      OccursThree(p, i);
    }
  }

  lemma PlainNameIsNoUri(p: string)
    requires |p| < 4
    ensures !IsUriScheme(p)
  {
    forall i | 1 <= i <= |p| ensures !OccursAt(p, "://", i) {
    }
  }

  /** Under a root such as "c:/x" the file "a" and the file "c:/x/a" are different resources when case counts. */
  lemma LowerDriveDiffers(root: string, p: string)
    requires |root| == 4 && 'a' <= root[0] <= 'z' && root[1] == ':' && root[2] == '/' && IsLetter(root[3])
    requires |p| == 1 && IsLetter(p[0])
    ensures NormalizeIn(p, root, true) != NormalizeResourcePath(root + "/" + p, true)
  {
    assert Slashes(root) == root && Slashes(p) == p;
    assert Home(root) == root && Home(p) == p;
    DriveIsNoUri(root);
    PlainNameIsNoUri(p);
    RootedIsAbsoluteExact(root, p, true);
  }

  /** The root of a drive loses its slash, and is another resource the second time, under every absolute root. */
  lemma DriveRootIsUnstable(root: string)
    requires IsAbsolutePath(root) && Home(root) != ""
    ensures NormalizeIn("C:/", root, true) == "C:" && NormalizeIn("C:", root, true) != "C:"
  {
    var p, o := "C:/", "C:";
    assert p[0] == 'C' && p[1] == ':' && p[2] == '/';
    assert IsDrive(p) && IsAbsolutePath(p) && Slashes(p) == p && Trimmed(p);
    PlainNameIsNoUri(p);
    NormalizeInPlain(p, root, true);
    DriveRootResolved(p);
    assert p[..2] == o;
    assert BareDrive(o);
    DriveTwice(o, root, true);
  }

  lemma DriveRootResolved(p: string)
    requires |p| == 3 && IsDrive(p)
    ensures Resolved(p) == p && Finish(Resolved(p), true) == p[..2]
  {
    assert p[3..] == "";
    assert Split("", SLASH) == [""];
    var none: seq<string> := [];
    var one := [""];
    assert one[1..] == none;
    assert Segments(p) == none;
    assert p[..3] == p;
  }
}
