/** normalizeResourcePath with a project root: relative paths are joined to the root before they are resolved. */
module RootedPath {
  import opened Text
  import opened PathNormalize
  import opened ResourcePath
  import opened NormalizedPath
  import Locators

  predicate StartsWithDrive(p: string) {
    |p| >= 2 && IsLetter(p[0]) && p[1] == ':'
  }

  predicate IsAbsolutePath(p: string) {
    || StartsWith(p, "/")
    || (StartsWithDrive(p) && |p| >= 3 && (p[2] == '/' || p[2] == '\\'))
    || StartsWith(p, "\\\\")
  }

  function UpperChar(c: char): (r: char)
    ensures LowerChar(r) == LowerChar(c) && (IsLetter(c) ==> IsLetter(r))
    ensures r == c <==> !('a' <= c <= 'z')
  {
    if 'a' <= c <= 'z' then (c as int - 32) as char else c
  }

  /** The drive letter, if the path starts with one, in upper case. */
  function UpperDrive(p: string): string {
    if StartsWithDrive(p) then [UpperChar(p[0])] + p[1..] else p
  }

  /** One segment of a joined path. */
  function Home(s: string): string {
    Locators.StripSlashes(Slashes(s))
  }

  /** Empty segments drop out of the join. */
  function JoinPath(root: string, path: string): string {
    UpperDrive(if Home(root) == "" then Home(path)
               else if Home(path) == "" then Home(root)
               else Home(root) + "/" + Home(path))
  }

  function FullPath(root: string, path: string): string {
    if root != "" && !IsAbsolutePath(path) then JoinPath(root, path) else path
  }

  function NormalizeTrimmedIn(path: string, root: string, caseSensitive: bool): string {
    if path == "" then ""
    else if IsUriScheme(path) then path
    else Finish(Resolved(Slashes(FullPath(root, path))), caseSensitive)
  }

  function NormalizeIn(input: string, root: string, caseSensitive: bool): string {
    NormalizeTrimmedIn(Trim(input), root, caseSensitive)
  }

  // ---- the shape of a joined path -------------------------------------------------------------------------

  /** What separators and dot segments cannot hide: a leading slash or a drive. */
  predicate Anchored(p: string) {
    p != "" && (p[0] == '/' || IsDrive(p))
  }

  lemma AbsoluteIsAnchored(p: string)
    requires IsAbsolutePath(p)
    ensures Anchored(Slashes(p))
  {
    assert forall i :: 0 <= i < |p| ==> Slashes(p)[i] == (if p[i] == '\\' then '/' else p[i]);
  }

  lemma AnchoredHome(root: string)
    requires IsAbsolutePath(root) && Home(root) != ""
    ensures var h := Home(root);
            '\\' !in h && h[|h| - 1] != '/' && (h[0] == '/' || BareDrive(h) || IsDrive(h))
  {
    AbsoluteIsAnchored(root);
    var s, h := Slashes(root), Home(root);
    assert forall i :: 0 <= i < |h| ==> h[i] == s[i];
    StripKeepsSolid(s, if s[0] == '/' then 0 else 1);
  }

  /** A character other than the slash is not stripped, nor anything before it. */
  lemma {:induction false} StripKeepsSolid(s: string, i: nat)
    requires i < |s|
    ensures s[i] != '/' ==> |Locators.StripSlashes(s)| > i
    decreases |s|
  {
    if s[|s| - 1] == '/' && i < |s| - 1 {
      StripKeepsSolid(s[..|s| - 1], i);
    }
  }

  lemma BelowHome(h: string, rest: string)
    requires h != "" && (h[0] == '/' || BareDrive(h) || IsDrive(h))
    ensures Anchored(h + "/" + rest) && StartsWithDrive(h + "/" + rest) == StartsWithDrive(h)
    ensures IsDrive(h + "/" + rest) <==> h[0] != '/'
  {
  }

  // ---- trailing slashes and the drive letter --------------------------------------------------------------

  lemma TrailingSlash(y: string)
    requires |y| >= 2 && !BareDrive(y)
    ensures Resolved(y + "/") == Resolved(y)
  {
    var z := y + "/";
    assert IsDrive(z) == IsDrive(y) && Prefix(z) == Prefix(y);
    var x := if IsDrive(y) then y[3..] else y;
    assert (if IsDrive(z) then z[3..] else z) == x + "/" + "";
    SplitBetween(x, '/', "");
    assert Split("", SLASH) == [""];
    ResolveConcat([], Parts(y), [""], IsDrive(y));
  }

  lemma {:induction false} TrailingSlashes(h: string, x: string)
    requires h != ""
    ensures Resolved(h + "/" + x) == Resolved(h + "/" + Locators.StripSlashes(x))
    decreases |x|
  {
    if x != "" && x[|x| - 1] == '/' {
      var t := x[..|x| - 1];
      assert x == t + "/";
      TrailingSlash(h + "/" + t);
      assert h + "/" + x == h + "/" + t + "/";
      TrailingSlashes(h, t);
    }
  }

  lemma UpperDriveResolved(z: string)
    requires Anchored(z)
    ensures Anchored(UpperDrive(z))
    ensures Resolved(UpperDrive(z)) == UpperDrive(Resolved(z))
    ensures ('\\' !in z) ==> '\\' !in UpperDrive(z)
  {
    if IsDrive(z) {
      var u := UpperDrive(z);
      assert IsDrive(u) && u[3..] == z[3..];
      assert Segments(u) == Segments(z);
      assert Prefix(u) == UpperDrive(Prefix(z));
      assert Resolved(z) == Prefix(z) + Join(Segments(z), SLASH);
    }
  }

  lemma FinishUpperDrive(q: string, caseSensitive: bool)
    requires Anchored(q)
    ensures Finish(UpperDrive(q), caseSensitive) == Finish(q, caseSensitive)
            <==> !caseSensitive || !StartsWithDrive(q) || !('a' <= q[0] <= 'z')
  {
    var s, u := StripTrailing(q), StripTrailing(UpperDrive(q));
    assert u == UpperDrive(s);
    assert forall i :: 0 <= i < |s| ==> LowerChar(u[i]) == LowerChar(s[i]);
    assert Lower(u) == Lower(s);
  }

  lemma ResolvedIsAnchored(z: string)
    requires Anchored(z)
    ensures Anchored(Resolved(z)) && Resolved(z)[0] == z[0] && StartsWithDrive(Resolved(z)) == StartsWithDrive(z)
  {
  }

  // ---- relative and absolute forms ------------------------------------------------------------------------

  /** The absolute form of a relative path is no URI and needs no trimming. */
  lemma PlainBelow(h: string, p: string)
    requires h != "" && (h[0] == '/' || BareDrive(h) || IsDrive(h)) && h[|h| - 1] != '/' && !IsUriScheme(h)
    requires p != "" && Trimmed(p) && p[0] != '/'
    ensures Trimmed(h + "/" + p) && !IsUriScheme(h + "/" + p)
  {
    var a := h + "/" + p;
    assert a[|a| - 1] == p[|p| - 1] && a[0] == h[0];
    if IsUriScheme(a) {
      var i :| 1 <= i <= |a| && OccursAt(a, "://", i) && IsLetter(a[0]) && forall j :: 0 < j < i ==> SchemeChar(a[j]);
      OccursThree(a, i);
      assert a[1] == ':' && i == 1;
      assert a[3] == '/';
      assert |h| > 3;
      assert h[1..1 + 3] == "://";
      assert OccursAt(h, "://", 1);
    }
  }

  lemma OccursThree(a: string, i: int)
    requires OccursAt(a, "://", i)
    ensures a[i] == ':' && a[i + 1] == '/' && a[i + 2] == '/'
  {
    var d := a[i..i + 3];
    assert d == "://";
    assert d[0] == a[i] && d[1] == a[i + 1] && d[2] == a[i + 2];
  }

  lemma SlashesBelow(h: string, p: string)
    requires '\\' !in h
    ensures Slashes(h + "/" + p) == h + "/" + Slashes(p)
  {
  }

  /** What NormalizeIn does to a trimmed, non-empty text that is not a URI. */
  lemma NormalizeInPlain(p: string, root: string, caseSensitive: bool)
    requires p != "" && Trimmed(p) && !IsUriScheme(p)
    ensures NormalizeIn(p, root, caseSensitive) == Finish(Resolved(Slashes(FullPath(root, p))), caseSensitive)
  {
    TrimIsTrimmed(p);
  }

  lemma JoinedForm(root: string, p: string, caseSensitive: bool)
    requires IsAbsolutePath(root) && Home(root) != ""
    requires p != "" && Trimmed(p) && !IsUriScheme(p) && !IsAbsolutePath(p) && Home(p) != ""
    ensures NormalizeIn(p, root, caseSensitive)
         == Finish(UpperDrive(Resolved(Home(root) + "/" + Home(p))), caseSensitive)
  {
    var z := Home(root) + "/" + Home(p);
    AnchoredHome(root);
    BelowHome(Home(root), Home(p));
    NormalizeInPlain(p, root, caseSensitive);
    assert FullPath(root, p) == UpperDrive(z) && '\\' !in z;
    UpperDriveResolved(z);
  }

  lemma WrittenOutForm(root: string, p: string, caseSensitive: bool)
    requires IsAbsolutePath(root) && Home(root) != "" && !IsUriScheme(Home(root))
    requires p != "" && Trimmed(p) && p[0] != '/'
    ensures NormalizeResourcePath(Home(root) + "/" + p, caseSensitive)
         == Finish(Resolved(Home(root) + "/" + Home(p)), caseSensitive)
  {
    var h := Home(root);
    AnchoredHome(root);
    PlainBelow(h, p);
    SlashesBelow(h, p);
    TrailingSlashes(h, Slashes(p));
    NormalizePlain(h + "/" + p, caseSensitive);
  }

  /** A relative path under the root and the same path written out from the root are one resource, exactly unless
      letter case counts and the root has a drive in lower case, which only the joined form puts in upper case. */
  lemma RootedIsAbsoluteExact(root: string, p: string, caseSensitive: bool)
    requires IsAbsolutePath(root) && Home(root) != "" && !IsUriScheme(Home(root))
    requires p != "" && Trimmed(p) && !IsUriScheme(p) && !IsAbsolutePath(p) && Home(p) != ""
    ensures NormalizeIn(p, root, caseSensitive) == NormalizeResourcePath(Home(root) + "/" + p, caseSensitive)
            <==> !caseSensitive || !StartsWithDrive(Home(root)) || !('a' <= Home(root)[0] <= 'z')
  {
    var z := Home(root) + "/" + Home(p);
    JoinedForm(root, p, caseSensitive);
    WrittenOutForm(root, p, caseSensitive);
    AnchoredHome(root);
    BelowHome(Home(root), Home(p));
    ResolvedIsAnchored(z);
    FinishUpperDrive(Resolved(z), caseSensitive);
  }

  /** A root made of slashes only is lost in the join: the result is a relative path. */
  lemma SlashRootIsLost(root: string, p: string, caseSensitive: bool)
    requires root != "" && Home(root) == ""
    requires p != "" && Trimmed(p) && !IsUriScheme(p) && !IsAbsolutePath(p) && p[0] != '\\' && !StartsWithDrive(p)
    ensures !StartsWith(NormalizeIn(p, root, caseSensitive), "/")
  {
    var q := Home(p);
    StripKeepsSolid(Slashes(p), 0);
    assert q[0] == p[0];
    assert !StartsWithDrive(q);
    assert FullPath(root, p) == q;
    NormalizeInPlain(p, root, caseSensitive);
    RelativeStaysRelative(q, caseSensitive);
  }

  lemma ResolvedRelative(q: string)
    requires q != "" && q[0] != '/' && !IsDrive(q)
    ensures Resolved(q) != "" && Resolved(q)[0] != '/'
  {
    var k := SegmentsShape(q);
    var segments := Segments(q);
    if segments != [] {
      forall i | 0 <= i < |segments| ensures segments[i] != "" && '/' !in segments[i] {
        CanonicalSegment(segments, k, false, i);
      }
      JoinIsTight(segments);
    }
  }

  lemma FinishKeepsFirst(r: string, caseSensitive: bool)
    requires r != "" && r[0] != '/'
    ensures Finish(r, caseSensitive) != "" && Finish(r, caseSensitive)[0] != '/'
  {
  }

  lemma RelativeStaysRelative(q: string, caseSensitive: bool)
    requires q != "" && '\\' !in q && q[0] != '/' && !StartsWithDrive(q)
    ensures !StartsWith(Finish(Resolved(Slashes(q)), caseSensitive), "/")
  {
    ResolvedRelative(q);
    FinishKeepsFirst(Resolved(q), caseSensitive);
  }

  /** Below a POSIX root a relative path comes out with a leading slash. */
  lemma BelowSlashRoot(p: string, root: string, caseSensitive: bool)
    requires root != "" && root[0] == '/' && Home(root) != ""
    requires p != "" && Trimmed(p) && !IsUriScheme(p) && !IsAbsolutePath(p)
    ensures var o := NormalizeIn(p, root, caseSensitive); o != "" && o[0] == '/'
  {
    var z := FullPath(root, p);
    JoinBelowSlash(p, root);
    NormalizeInPlain(p, root, caseSensitive);
    SlashFinish(z, caseSensitive);
  }

  lemma JoinBelowSlash(p: string, root: string)
    requires root != "" && root[0] == '/' && Home(root) != "" && !IsAbsolutePath(p)
    ensures var z := FullPath(root, p); z != "" && z[0] == '/' && '\\' !in z && Slashes(z) == z
  {
    var h, q := Home(root), Home(p);
    HomeKeepsSlash(root);
    var z := if q == "" then h else h + "/" + q;
    assert '\\' !in z && z[0] == '/';
    assert FullPath(root, p) == z;
  }

  lemma SlashFinish(z: string, caseSensitive: bool)
    requires z != "" && z[0] == '/'
    ensures var o := Finish(Resolved(z), caseSensitive); o != "" && o[0] == '/'
  {
    ResolvedIsAnchored(z);
    var r := Resolved(z);
    assert StripTrailing(r) != "" && StripTrailing(r)[0] == r[0];
  }

  lemma HomeKeepsSlash(root: string)
    requires root != "" && root[0] == '/' && Home(root) != ""
    ensures Home(root)[0] == '/' && '\\' !in Home(root)
  {
    assert Slashes(root)[0] == '/';
    assert forall i :: 0 <= i < |Home(root)| ==> Home(root)[i] == Slashes(root)[i];
  }

  // ---- idempotence ----------------------------------------------------------------------------------------

  /** The finished form of an anchored path is absolute, or a drive that lost its slash. */
  lemma FinishedShape(w: string, caseSensitive: bool)
    requires Anchored(w) || BareDrive(w)
    ensures var o := Finish(Resolved(w), caseSensitive); o != "" && (Anchored(o) || BareDrive(o))
  {
    if BareDrive(w) {
      DriveLetterAlone(w);
    } else {
      ResolvedIsAnchored(w);
    }
  }

  /** What is left of an anchored path after trimming is anchored. */
  lemma TrimAnchored(o: string)
    requires Anchored(o)
    ensures Anchored(Trim(o)) && |Trim(o)| <= |o| && Trim(o) == o[..|Trim(o)|]
  {
    assert Leading(o, 0) == 0 && TrimStart(o) == o;
    var k := |TrimEnd(o)|;
    assert forall i :: k <= i < |o| ==> IsSpace(o[i]);
    assert k > (if o[0] == '/' then 0 else 2);
  }

  lemma AbsoluteIgnoresRoot(o: string, root: string, caseSensitive: bool)
    requires Anchored(Trim(o))
    ensures NormalizeIn(o, root, caseSensitive) == NormalizeResourcePath(o, caseSensitive)
  {
    var t := Trim(o);
    assert IsAbsolutePath(t);
    assert FullPath(root, t) == t;
  }

  /** The second pass of a path that came out absolute. */
  lemma AnchoredTwice(o: string, root: string, caseSensitive: bool)
    requires Anchored(o) && '\\' !in o && !IsUriScheme(o) && Finish(Resolved(o), caseSensitive) == o
    ensures NormalizeIn(o, root, caseSensitive) == o <==> Trimmed(o)
  {
    TrimAnchored(o);
    AbsoluteIgnoresRoot(o, root, caseSensitive);
    if Trimmed(o) {
      NormalizePlain(o, caseSensitive);
    } else if NormalizeResourcePath(o, caseSensitive) == o {
      FixedIsTrimmed(o, caseSensitive);
    }
  }

  lemma BareDriveIsPlain(o: string)
    requires BareDrive(o)
    ensures Trimmed(o) && !IsUriScheme(o) && !IsAbsolutePath(o) && Home(o) == o
  {
  }

  /** The second pass of a drive that lost its slash: it is no longer absolute and is joined to the root. */
  lemma DriveTwice(o: string, root: string, caseSensitive: bool)
    requires BareDrive(o) && IsAbsolutePath(root) && Home(root) != ""
    ensures NormalizeIn(o, root, caseSensitive) != o
  {
    var h := Home(root);
    AnchoredHome(root);
    BareDriveIsPlain(o);
    NormalizeInPlain(o, root, caseSensitive);
    var z := h + "/" + o;
    BelowHome(h, o);
    assert FullPath(root, o) == UpperDrive(z);
    UpperDriveResolved(z);
    BelowIsNoDrive(h, o, caseSensitive);
  }

  lemma BelowIsNoDrive(h: string, o: string, caseSensitive: bool)
    requires BareDrive(o) && h != "" && (h[0] == '/' || BareDrive(h) || IsDrive(h))
    ensures Finish(UpperDrive(Resolved(h + "/" + o)), caseSensitive) != o
  {
    var z := h + "/" + o;
    BelowHome(h, o);
    ResolvedIsAnchored(z);
    if IsDrive(z) {
      DriveBelowIsLong(h, o);
    } else {
      assert Finish(UpperDrive(Resolved(z)), caseSensitive)[0] == '/';
    }
  }

  lemma DriveBelowIsLong(h: string, o: string)
    requires BareDrive(o) && IsDrive(h + "/" + o) && (BareDrive(h) || IsDrive(h))
    ensures |Resolved(h + "/" + o)| > 3 && Resolved(h + "/" + o)[|Resolved(h + "/" + o)| - 1] != '/'
  {
    var z := h + "/" + o;
    var parts := if BareDrive(h) then [] else Split(h[3..], SLASH);
    assert Split(o, SLASH) == [o] by {
      SplitJoin([o], '/');
    }
    if BareDrive(h) {
      assert z[3..] == o;
    } else {
      assert z[3..] == h[3..] + "/" + o;
      SplitBetween(h[3..], '/', o);
    }
    assert Parts(z) == parts + [o];
    ResolveConcat([], parts, [o], true);
    assert Segments(z) == Resolve([], parts, true) + [o];
    var k := SegmentsShape(z);
    forall i | 0 <= i < |Segments(z)| ensures Segments(z)[i] != "" && '/' !in Segments(z)[i] {
      CanonicalSegment(Segments(z), k, true, i);
    }
    JoinIsTight(Segments(z));
  }

  lemma UriIsLong(path: string)
    requires IsUriScheme(path)
    ensures |path| >= 4
  {
    var i :| 1 <= i <= |path| && OccursAt(path, "://", i);
  }

  lemma UriIsKept(path: string, root: string, caseSensitive: bool)
    requires IsUriScheme(path) && Trimmed(path)
    ensures NormalizeIn(path, root, caseSensitive) == path && !BareDrive(path)
  {
    TrimIsTrimmed(path);
    UriIsLong(path);
    assert Trim(path) == path && path != "";
  }

  /** The second pass of a path that is no URI. */
  lemma FullTwice(w: string, root: string, caseSensitive: bool)
    requires '\\' !in w && (Anchored(w) || BareDrive(w)) && IsAbsolutePath(root) && Home(root) != ""
    ensures var o := Finish(Resolved(w), caseSensitive);
            NormalizeIn(o, root, caseSensitive) == o <==> Trimmed(o) && !BareDrive(o)
  {
    var o := Finish(Resolved(w), caseSensitive);
    FinishIsFixed(w, caseSensitive);
    FinishedShape(w, caseSensitive);
    if Anchored(o) {
      AnchoredTwice(o, root, caseSensitive);
    } else {
      DriveTwice(o, root, caseSensitive);
    }
  }

  /** A path rooted once and rooted again, below a root that may differ, is unchanged exactly when it has no outer
      white space and is not a bare drive. */
  lemma RootedTwiceExact(input: string, first: string, root: string, caseSensitive: bool)
    requires IsAbsolutePath(first) && Home(first) != "" && IsAbsolutePath(root) && Home(root) != ""
    ensures var o := NormalizeIn(input, first, caseSensitive);
            NormalizeIn(o, root, caseSensitive) == o <==> Trimmed(o) && !BareDrive(o)
  {
    TrimIsTrimmed(input);
    TrimIsTrimmed(Trim(input));
    assert NormalizeIn(input, first, caseSensitive) == NormalizeIn(Trim(input), first, caseSensitive);
    TrimmedTwice(Trim(input), first, root, caseSensitive);
  }

  lemma TrimmedTwice(path: string, first: string, root: string, caseSensitive: bool)
    requires Trimmed(path)
    requires IsAbsolutePath(first) && Home(first) != "" && IsAbsolutePath(root) && Home(root) != ""
    ensures var o := NormalizeIn(path, first, caseSensitive);
            NormalizeIn(o, root, caseSensitive) == o <==> Trimmed(o) && !BareDrive(o)
  {
    if path == "" {
    } else if IsUriScheme(path) {
      UriIsKept(path, first, caseSensitive);
      UriIsKept(path, root, caseSensitive);
    } else {
      JoinedShape(first, path);
      NormalizeInPlain(path, first, caseSensitive);
      FullTwice(Slashes(FullPath(first, path)), root, caseSensitive);
    }
  }

  /** Under an absolute root a normalised path is a fixed point exactly when it has no outer white space and is not
      a bare drive: the root of a drive loses its slash and is read as a relative path the second time. */
  lemma RootedIdempotentExact(input: string, root: string, caseSensitive: bool)
    requires IsAbsolutePath(root) && Home(root) != ""
    ensures var o := NormalizeIn(input, root, caseSensitive);
            NormalizeIn(o, root, caseSensitive) == o <==> Trimmed(o) && !BareDrive(o)
  {
    RootedTwiceExact(input, root, root, caseSensitive);
  }

  lemma JoinedShape(root: string, path: string)
    requires IsAbsolutePath(root) && Home(root) != ""
    ensures var w := Slashes(FullPath(root, path));
            '\\' !in w && (Anchored(w) || BareDrive(w))
  {
    if IsAbsolutePath(path) {
      AbsoluteIsAnchored(path);
    } else {
      var h, q := Home(root), Home(path);
      AnchoredHome(root);
      BelowHome(h, q);
      var z := if q == "" then h else h + "/" + q;
      assert '\\' !in z;
      if Anchored(z) {
        UpperDriveResolved(z);
      }
    }
  }

  /** Absolute: it starts at a slash, at a drive with a slash of either kind, or with two backslashes. */
  predicate Absolute(p: string) {
    || (|p| >= 1 && p[0] == '/')
    || (|p| >= 3 && ('a' <= p[0] <= 'z' || 'A' <= p[0] <= 'Z') && p[1] == ':' && p[2] in {'/', '\\'})
    || (|p| >= 2 && p[0] == p[1] == '\\')
  }

  lemma AbsoluteExact(p: string)
    ensures IsAbsolutePath(p) <==> Absolute(p)
  {
    assert |p| >= 1 ==> p[..1] == [p[0]];
    assert |p| >= 2 ==> p[..2] == [p[0], p[1]];
  }

  /** An absolute path is normalised as if there were no root. */
  lemma AbsoluteNeedsNoRoot(p: string, root: string, caseSensitive: bool)
    requires Absolute(Trim(p))
    ensures NormalizeIn(p, root, caseSensitive) == NormalizeResourcePath(p, caseSensitive)
  {
    AbsoluteExact(Trim(p));
  }
}
