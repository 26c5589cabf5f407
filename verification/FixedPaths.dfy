/** Which paths normalise to fixed points, read off the path as it was written. */
module FixedPaths {
  import opened Text
  import opened PathNormalize
  import opened ResourcePath
  import opened NormalizedPath
  import opened RootedPath
  import opened RootedAbsolute

  lemma {:induction false} JoinEnds(segments: seq<string>)
    requires segments != [] && forall i :: 0 <= i < |segments| ==> segments[i] != ""
    ensures var s, last := Join(segments, SLASH), segments[|segments| - 1];
            s != "" && s[0] == segments[0][0] && s[|s| - 1] == last[|last| - 1]
    decreases |segments|
  {
    if |segments| > 1 {
      JoinEnds(segments[1..]);
    }
  }

  lemma LowerTrimmed(s: string)
    ensures Trimmed(Lower(s)) <==> Trimmed(s)
  {
    assert forall i :: 0 <= i < |s| ==> (IsSpace(Lower(s)[i]) <==> IsSpace(s[i]));
  }

  predicate EndsBlank(name: string) {
    name != "" && IsSpace(name[|name| - 1])
  }

  predicate StartsBlank(name: string) {
    name != "" && IsSpace(name[0])
  }

  /** The last name of the place the path leads to does not end in white space; nor does the first begin with it, when
      it comes first: on a path that is neither absolute nor climbs above where it starts. */
  predicate SolidEnds(z: string) {
    var place := Walk([], Parts(z));
    place == []
    || (!EndsBlank(place[|place| - 1])
        && (Prefix(z) == "" && Overclimbs(Parts(z), 0) == 0 ==> !StartsBlank(place[0])))
  }

  /** The climbs a resolved path keeps: none on a drive. */
  function Climbs(z: string): nat {
    if IsDrive(z) then 0 else Overclimbs(Parts(z), 0)
  }

  lemma SegmentsExact(z: string)
    ensures Segments(z) == Ups(Climbs(z)) + Walk([], Parts(z))
    ensures forall i :: 0 <= i < |Segments(z)| ==> Segments(z)[i] != "" && '/' !in Segments(z)[i]
  {
    PartsSlashFree(z);
    var k := SegmentsShape(z);
    forall i | 0 <= i < |Segments(z)| ensures Segments(z)[i] != "" && '/' !in Segments(z)[i] {
      CanonicalSegment(Segments(z), k, IsDrive(z), i);
    }
    if IsDrive(z) {
      DriveResolveIsWalk([], Parts(z));
    } else {
      ResolveExact(Parts(z));
    }
  }

  lemma PrefixedTrimmed(prefix: string, body: string)
    requires body != "" && (prefix == "" || !IsSpace(prefix[0]))
    ensures Trimmed(prefix + body) <==> (prefix == "" ==> !IsSpace(body[0])) && !IsSpace(body[|body| - 1])
  {
    var s := prefix + body;
    assert s[|s| - 1] == body[|body| - 1];
    assert s[0] == if prefix == "" then body[0] else prefix[0];
  }

  /** What is left when the path leads nowhere: a root, a drive, or a dot. */
  lemma NowhereIsTrimmed(z: string)
    requires Segments(z) == []
    ensures Trimmed(StripTrailing(Resolved(z)))
  {
    assert Resolved(z) == if Prefix(z) == "" then "." else Prefix(z);
    if IsDrive(z) {
      assert StripTrailing(z[..3]) == z[..2];
    }
  }

  lemma SegmentsEnds(z: string)
    requires Segments(z) != []
    ensures var s, place := Segments(z), Walk([], Parts(z));
            && (EndsBlank(s[|s| - 1]) <==> place != [] && EndsBlank(place[|place| - 1]))
            && (StartsBlank(s[0]) <==> Climbs(z) == 0 && place != [] && StartsBlank(place[0]))
  {
    SegmentsExact(z);
    var s, place, k := Segments(z), Walk([], Parts(z)), Climbs(z);
    if k > 0 {
      assert s[0] == Ups(k)[0] == "..";
    } else {
      assert s == place;
    }
    if place == [] {
      assert s[|s| - 1] == Ups(k)[k - 1] == "..";
    } else {
      assert s[|s| - 1] == place[|place| - 1];
    }
  }

  lemma PrefixIsNoBlank(z: string)
    ensures Prefix(z) == "" || !IsSpace(Prefix(z)[0])
  {
  }

  lemma Unstripped(prefix: string, segments: seq<string>)
    requires segments != [] && forall i :: 0 <= i < |segments| ==> segments[i] != "" && '/' !in segments[i]
    ensures StripTrailing(Render(prefix, segments)) == prefix + Join(segments, SLASH)
  {
    var body := Join(segments, SLASH);
    JoinIsTight(segments);
    var q := prefix + body;
    assert q[|q| - 1] == body[|body| - 1];
  }

  lemma SomewhereTrimmed(prefix: string, segments: seq<string>)
    requires segments != [] && forall i :: 0 <= i < |segments| ==> segments[i] != "" && '/' !in segments[i]
    requires prefix == "" || !IsSpace(prefix[0])
    ensures Trimmed(StripTrailing(Render(prefix, segments)))
       <==> (prefix == "" ==> !StartsBlank(segments[0])) && !EndsBlank(segments[|segments| - 1])
  {
    Unstripped(prefix, segments);
    JoinEnds(segments);
    PrefixedTrimmed(prefix, Join(segments, SLASH));
  }

  lemma DriveHasPrefix(z: string)
    ensures Prefix(z) == "" ==> Climbs(z) == Overclimbs(Parts(z), 0)
  {
  }

  lemma ResolvedTrimmedExact(z: string)
    ensures Trimmed(StripTrailing(Resolved(z))) <==> SolidEnds(z)
  {
    SegmentsExact(z);
    if Segments(z) == [] {
      NowhereIsTrimmed(z);
    } else {
      PrefixIsNoBlank(z);
      SomewhereTrimmed(Prefix(z), Segments(z));
      SegmentsEnds(z);
      DriveHasPrefix(z);
    }
  }

  lemma FinishedTrimmedExact(z: string, caseSensitive: bool)
    ensures Trimmed(Finish(Resolved(z), caseSensitive)) <==> SolidEnds(z)
  {
    ResolvedTrimmedExact(z);
    LowerTrimmed(StripTrailing(Resolved(z)));
  }

  /** A path normalises to a fixed point exactly when it is blank, a URI, or leads to a place whose outer names have no
      white space on the outside. */
  lemma NormalizesToFixedExact(input: string, caseSensitive: bool)
    ensures var o, path := NormalizeResourcePath(input, caseSensitive), Trim(input);
            NormalizeResourcePath(o, caseSensitive) == o <==> path == "" || IsUriScheme(path) || SolidEnds(Slashes(path))
  {
    var path := Trim(input);
    NormalizeIdempotentExact(input, caseSensitive);
    TrimIsTrimmed(input);
    if path != "" && !IsUriScheme(path) {
      FinishedTrimmedExact(Slashes(path), caseSensitive);
    }
  }

  /** What is left of a full path is a lone drive exactly when the path does not lead to an absolute place. */
  lemma FinishedBareExact(w: string, caseSensitive: bool)
    requires '\\' !in w && (Anchored(w) || BareDrive(w))
    ensures BareDrive(Finish(Resolved(w), caseSensitive)) <==> !LeadsToAbsolute(w)
  {
    FinishedShape(w, caseSensitive);
    FinishedAnchoredExact(w, caseSensitive);
  }

  /** Under an absolute root: exactly when it is blank, a URI, or the full path leads below the root of its drive, if it
      has one, to a place whose last name does not end in white space. */
  lemma RootedToFixedExact(input: string, root: string, caseSensitive: bool)
    requires IsAbsolutePath(root) && Home(root) != ""
    ensures var o, path := NormalizeIn(input, root, caseSensitive), Trim(input);
            var w := Slashes(FullPath(root, path));
            NormalizeIn(o, root, caseSensitive) == o
            <==> path == "" || IsUriScheme(path) || (LeadsToAbsolute(w) && SolidEnds(w))
  {
    var path := Trim(input);
    RootedIdempotentExact(input, root, caseSensitive);
    TrimIsTrimmed(input);
    if path == "" {
    } else if IsUriScheme(path) {
      UriIsNoDrive(path);
    } else {
      var w := Slashes(FullPath(root, path));
      JoinedShape(root, path);
      FinishedTrimmedExact(w, caseSensitive);
      FinishedBareExact(w, caseSensitive);
    }
  }

  lemma UriIsNoDrive(path: string)
    requires IsUriScheme(path)
    ensures !BareDrive(path)
  {
    UriDoublesASlash(path);
  }
}
