/** normalizeResourcePath with its default options, and when it is a normal form. */
module NormalizedPath {
  import opened Text
  import opened PathNormalize
  import opened ResourcePath

  function Slashes(s: string): (r: string)
    ensures |r| == |s| && '\\' !in r
    ensures '\\' !in s ==> r == s
  {
    seq(|s|, i requires 0 <= i < |s| => if s[i] == '\\' then '/' else s[i])
  }

  predicate SchemeChar(c: char) {
    IsLetter(c) || '0' <= c <= '9' || c == '+' || c == '.' || c == '-'
  }

  /** A letter, scheme characters, then "://". */
  predicate IsUriScheme(p: string) {
    exists i :: 1 <= i <= |p| && OccursAt(p, "://", i) && IsLetter(p[0]) && forall j :: 0 < j < i ==> SchemeChar(p[j])
  }

  function StripTrailing(q: string): string {
    if |q| > 1 && q[|q| - 1] == '/' then q[..|q| - 1] else q
  }

  function Finish(q: string, caseSensitive: bool): string {
    if caseSensitive then StripTrailing(q) else Lower(StripTrailing(q))
  }

  function NormalizeTrimmed(path: string, caseSensitive: bool): string {
    if path == "" then ""
    else if IsUriScheme(path) then path
    else Finish(Resolved(Slashes(path)), caseSensitive)
  }

  function NormalizeResourcePath(input: string, caseSensitive: bool): string {
    NormalizeTrimmed(Trim(input), caseSensitive)
  }

  // ---- length ---------------------------------------------------------------------------------------------

  function Weight(parts: seq<string>): nat {
    if parts == [] then 0 else |parts[0]| + 1 + Weight(parts[1..])
  }

  function SolidWeight(parts: seq<string>): nat {
    if parts == [] then 0 else (if parts[0] == "" then 0 else |parts[0]| + 1) + SolidWeight(parts[1..])
  }

  lemma {:induction false} WeightSnoc(a: seq<string>, s: string)
    ensures Weight(a + [s]) == Weight(a) + |s| + 1
    decreases |a|
  {
    if a != [] {
      assert (a + [s])[1..] == a[1..] + [s];
      WeightSnoc(a[1..], s);
    }
  }

  lemma {:induction false} JoinLength(parts: seq<string>)
    ensures |Join(parts, SLASH)| == if parts == [] then 0 else Weight(parts) - 1
    decreases |parts|
  {
    if |parts| > 1 {
      JoinLength(parts[1..]);
    }
  }

  lemma {:induction false} ResolveLength(stack: seq<string>, parts: seq<string>, drive: bool)
    ensures Weight(Resolve(stack, parts, drive)) <= Weight(stack) + SolidWeight(parts)
    decreases |parts|
  {
    if parts != [] {
      var next := Push(stack, parts[0], drive);
      ResolveLength(next, parts[1..], drive);
      if parts[0] == ".." && stack != [] && stack[|stack| - 1] != ".." {
        assert stack == next + [stack[|stack| - 1]];
        WeightSnoc(next, stack[|stack| - 1]);
      } else {
        WeightSnoc(stack, parts[0]);
      }
    }
  }

  lemma SolidIsLighter(parts: seq<string>)
    ensures SolidWeight(parts) <= Weight(parts)
  {
  }

  lemma ResolvedIsNotLonger(p: string)
    requires p != ""
    ensures |Resolved(p)| <= |p| && Resolved(p) != ""
  {
    var text := if IsDrive(p) then p[3..] else p;
    var parts := Parts(p);
    JoinSplit(text, SLASH);
    JoinLength(parts);
    ResolveLength([], parts, IsDrive(p));
    JoinLength(Segments(p));
    SolidIsLighter(parts);
    SolidIsLighter(parts[1..]);
    if StartsWith(p, SLASH) {
      assert p == "" + SLASH + p[1..];
      SplitBetween("", '/', p[1..]);
      SplitOfJoin([""]);
      assert parts[0] == "";
    }
  }

  // ---- letter case ----------------------------------------------------------------------------------------

  function LowerAll(parts: seq<string>): (r: seq<string>)
    ensures |r| == |parts|
    ensures forall i :: 0 <= i < |parts| ==> r[i] == Lower(parts[i])
  {
    seq(|parts|, i requires 0 <= i < |parts| => Lower(parts[i]))
  }

  lemma LowerConcat(a: string, b: string)
    ensures Lower(a + b) == Lower(a) + Lower(b)
  {
  }

  lemma {:induction false} LowerJoin(parts: seq<string>)
    ensures Lower(Join(parts, SLASH)) == Join(LowerAll(parts), SLASH)
    decreases |parts|
  {
    if |parts| == 1 {
      assert LowerAll(parts)[0] == Lower(parts[0]);
    } else if |parts| > 1 {
      var rest := Join(parts[1..], SLASH);
      LowerJoin(parts[1..]);
      LowerConcat(parts[0] + SLASH, rest);
      LowerConcat(parts[0], SLASH);
      assert Lower(SLASH) == SLASH;
      assert LowerAll(parts)[1..] == LowerAll(parts[1..]);
    }
  }

  lemma LowerSplit(s: string)
    ensures Split(Lower(s), SLASH) == LowerAll(Split(s, SLASH))
  {
    var parts := Split(s, SLASH);
    SplitFree(s, '/');
    JoinSplit(s, SLASH);
    LowerJoin(parts);
    forall i | 0 <= i < |parts| ensures '/' !in LowerAll(parts)[i] {
      assert LowerAll(parts)[i] == Lower(parts[i]);
    }
    SplitOfJoin(LowerAll(parts));
  }

  lemma LowerDots(s: string)
    ensures (Lower(s) == "." <==> s == ".") && (Lower(s) == ".." <==> s == "..") && (Lower(s) == "" <==> s == "")
  {
  }

  lemma PushLower(stack: seq<string>, part: string, drive: bool)
    ensures Push(LowerAll(stack), Lower(part), drive) == LowerAll(Push(stack, part, drive))
  {
    LowerDots(part);
    if stack != [] {
      LowerDots(stack[|stack| - 1]);
      assert LowerAll(stack)[..|stack| - 1] == LowerAll(stack[..|stack| - 1]);
    }
    assert LowerAll(stack + [part]) == LowerAll(stack) + [Lower(part)];
    assert Lower("..") == "..";
  }

  lemma {:induction false} ResolveLower(stack: seq<string>, parts: seq<string>, drive: bool)
    ensures Resolve(LowerAll(stack), LowerAll(parts), drive) == LowerAll(Resolve(stack, parts, drive))
    decreases |parts|
  {
    if parts != [] {
      PushLower(stack, parts[0], drive);
      ResolveLower(Push(stack, parts[0], drive), parts[1..], drive);
      assert LowerAll(parts)[1..] == LowerAll(parts[1..]);
    }
  }

  /** Lower-casing before or after resolving is the same. */
  lemma ResolvedLower(p: string)
    ensures Resolved(Lower(p)) == Lower(Resolved(p))
  {
    assert IsDrive(Lower(p)) == IsDrive(p);
    var text := if IsDrive(p) then p[3..] else p;
    assert (if IsDrive(p) then Lower(p)[3..] else Lower(p)) == Lower(text);
    LowerSplit(text);
    assert LowerAll([]) == [];
    ResolveLower([], Parts(p), IsDrive(p));
    LowerJoin(Segments(p));
    assert Prefix(Lower(p)) == Lower(Prefix(p)) by {
      if IsDrive(p) {
        assert Lower(p)[..3] == Lower(p[..3]);
      } else if p != "" {
        assert StartsWith(p, SLASH) <==> p[0] == '/';
        assert StartsWith(Lower(p), SLASH) <==> Lower(p)[0] == '/';
        assert Lower(SLASH) == SLASH;
      }
    }
    LowerConcat(Prefix(p), Join(Segments(p), SLASH));
    assert Lower(".") == ".";
  }

  // ---- shape of the output --------------------------------------------------------------------------------

  lemma {:induction false} JoinChars(parts: seq<string>, d: string, i: nat, c: char)
    requires i < |parts| && c in parts[i]
    ensures c in Join(parts, d)
    decreases |parts|
  {
    if |parts| > 1 && i > 0 {
      JoinChars(parts[1..], d, i - 1, c);
    }
  }

  lemma {:induction false} ResolveChars(stack: seq<string>, parts: seq<string>, drive: bool, c: char)
    requires c != '.' && (forall i :: 0 <= i < |stack| ==> c !in stack[i]) && (forall i :: 0 <= i < |parts| ==> c !in parts[i])
    ensures forall i :: 0 <= i < |Resolve(stack, parts, drive)| ==> c !in Resolve(stack, parts, drive)[i]
    decreases |parts|
  {
    if parts != [] {
      ResolveChars(Push(stack, parts[0], drive), parts[1..], drive, c);
    }
  }

  lemma {:induction false} JoinWithout(parts: seq<string>, c: char)
    requires c != '/' && forall i :: 0 <= i < |parts| ==> c !in parts[i]
    ensures c !in Join(parts, SLASH)
    decreases |parts|
  {
    if |parts| > 1 {
      JoinWithout(parts[1..], c);
    }
  }

  lemma ResolvedHasNoBackslash(p: string)
    requires '\\' !in p
    ensures '\\' !in Resolved(p)
  {
    var text := if IsDrive(p) then p[3..] else p;
    var parts := Parts(p);
    JoinSplit(text, SLASH);
    forall i | 0 <= i < |parts| ensures '\\' !in parts[i] {
      if '\\' in parts[i] {
        JoinChars(parts, SLASH, i, '\\');
        assert false;
      }
    }
    ResolveChars([], parts, IsDrive(p), '\\');
    JoinWithout(Segments(p), '\\');
  }

  /** A resolved path never doubles a slash and ends in one only at a root. */
  lemma ResolvedIsTight(p: string)
    ensures var q := Resolved(p);
            && !Contains(q, "//")
            && (|q| > 1 && q[|q| - 1] == '/' ==> |q| == 3 && IsDrive(q))
  {
    var k := SegmentsShape(p);
    var segments, prefix := Segments(p), Prefix(p);
    var q, body := Resolved(p), Join(segments, SLASH);
    if segments != [] {
      forall i | 0 <= i < |segments| ensures segments[i] != "" && '/' !in segments[i] {
        CanonicalSegment(segments, k, IsDrive(p), i);
      }
      JoinIsTight(segments);
      assert q == prefix + body;
      forall j | 0 <= j <= |q| ensures !OccursAt(q, "//", j) {
        DoubleSlash(q, j);
        DoubleSlash(body, j - |prefix|);
      }
    } else {
      forall j | 0 <= j <= |q| ensures !OccursAt(q, "//", j) {
        DoubleSlash(q, j);
      }
    }
  }

  lemma DriveLetterAlone(p: string)
    requires BareDrive(p)
    ensures Resolved(p) == p
  {
    assert PlainName(p);
    assert Join([p], SLASH) == p;
    SplitOfJoin([p]);
    assert Resolve([], [p], false) == Resolve([p], [], false) == [p];
  }

  /** Cutting the trailing slash of a resolved path gives a resolved path. */
  lemma StripIsResolved(p: string)
    requires p != ""
    ensures var s := StripTrailing(Resolved(p));
            && s != "" && Resolved(s) == s && StripTrailing(s) == s && !Contains(s, "//")
            && ('\\' !in p ==> '\\' !in s)
  {
    var q := Resolved(p);
    ResolvedIsTight(p);
    ResolvedIsNotLonger(p);
    ResolvedIdempotent(p);
    if '\\' !in p {
      ResolvedHasNoBackslash(p);
    }
    if StripTrailing(q) != q {
      DriveLetterAlone(StripTrailing(q));
      var s := q[..2];
      forall j | 0 <= j <= |s| ensures !OccursAt(s, "//", j) {
        DoubleSlash(s, j);
      }
    }
  }

  lemma UriDoublesASlash(t: string)
    requires IsUriScheme(t)
    ensures exists j :: 0 <= j && j + 1 < |t| && t[j] == '/' && t[j + 1] == '/'
  {
    var o := "://";
    var i :| 1 <= i <= |t| && OccursAt(t, o, i);
    assert t[i + 1] == t[i..i + 3][1] == o[1];
    assert t[i + 2] == t[i..i + 3][2] == o[2];
    assert t[i + 1] == '/' && t[i + 1 + 1] == '/';
  }

  lemma TightIsNotUri(s: string)
    requires !Contains(s, "//")
    ensures !IsUriScheme(s) && !IsUriScheme(Lower(s))
  {
    forall j | 0 <= j && j + 1 < |s| ensures !(s[j] == '/' && s[j + 1] == '/') {
      DoubleSlash(s, j);
    }
    if IsUriScheme(s) {
      UriDoublesASlash(s);
    }
    if IsUriScheme(Lower(s)) {
      UriDoublesASlash(Lower(s));
    }
  }

  lemma LowerOfLower(s: string)
    ensures Lower(Lower(s)) == Lower(s)
    ensures '\\' !in s ==> '\\' !in Lower(s)
  {
  }

  /** What normalisation does to a trimmed, non-empty text that is not a URI. */
  lemma NormalizePlain(path: string, caseSensitive: bool)
    requires path != "" && Trimmed(path) && !IsUriScheme(path)
    ensures NormalizeResourcePath(path, caseSensitive) == Finish(Resolved(Slashes(path)), caseSensitive)
  {
    TrimIsTrimmed(path);
  }

  /** The finished form of a path finishes to itself. */
  lemma FinishIsFixed(p: string, caseSensitive: bool)
    requires p != "" && '\\' !in p
    ensures var o := Finish(Resolved(p), caseSensitive);
            o != "" && '\\' !in o && !IsUriScheme(o) && Finish(Resolved(o), caseSensitive) == o
  {
    var s := StripTrailing(Resolved(p));
    StripIsResolved(p);
    LowerOfLower(s);
    TightIsNotUri(s);
    ResolvedLower(s);
    assert StripTrailing(Lower(s)) == Lower(s);
  }

  lemma NormalizeIsNotLonger(input: string, caseSensitive: bool)
    ensures |NormalizeResourcePath(input, caseSensitive)| <= |Trim(input)|
  {
    var path := Trim(input);
    if path != "" {
      ResolvedIsNotLonger(Slashes(path));
    }
  }

  lemma FixedIsTrimmed(o: string, caseSensitive: bool)
    ensures NormalizeResourcePath(o, caseSensitive) == o ==> Trimmed(o)
  {
    NormalizeIsNotLonger(o, caseSensitive);
    TrimIsTrimmed(o);
  }

  lemma FinishedIsFixed(path: string, caseSensitive: bool)
    requires path != "" && !IsUriScheme(path)
    ensures NormalizeTrimmed(NormalizeTrimmed(path, caseSensitive), caseSensitive) == NormalizeTrimmed(path, caseSensitive)
  {
    FinishIsFixed(Slashes(path), caseSensitive);
  }

  lemma NormalizeTrimmedTwice(path: string, caseSensitive: bool)
    ensures NormalizeTrimmed(NormalizeTrimmed(path, caseSensitive), caseSensitive) == NormalizeTrimmed(path, caseSensitive)
  {
    if path != "" && !IsUriScheme(path) {
      FinishedIsFixed(path, caseSensitive);
    }
  }

  lemma FixedExact(o: string, caseSensitive: bool)
    requires NormalizeTrimmed(o, caseSensitive) == o
    ensures NormalizeResourcePath(o, caseSensitive) == o <==> Trimmed(o)
  {
    if Trimmed(o) {
      TrimIsTrimmed(o);
    } else if NormalizeResourcePath(o, caseSensitive) == o {
      FixedIsTrimmed(o, caseSensitive);
    }
  }

  /** A normalised path is a fixed point exactly when it has no outer white space. */
  lemma NormalizeIdempotentExact(input: string, caseSensitive: bool)
    ensures var o := NormalizeResourcePath(input, caseSensitive);
            NormalizeResourcePath(o, caseSensitive) == o <==> Trimmed(o)
  {
    NormalizeTrimmedTwice(Trim(input), caseSensitive);
    FixedExact(NormalizeTrimmed(Trim(input), caseSensitive), caseSensitive);
  }

  lemma ResolvedBlankName()
    ensures Resolved("a /") == "a "
  {
    var none: seq<string> := [];
    assert ["a ", ""][1..] == [""];
    assert Join(["a ", ""], SLASH) == "a /";
    SplitOfJoin(["a ", ""]);
    assert Resolve(["a "], [""], false) == Resolve(["a "], none, false);
    assert Resolve([], ["a ", ""], false) == ["a "];
  }

  /** The general claim fails: "a /" normalises to a path with an outer blank. */
  lemma NormalizeTwiceCanDiffer()
    ensures NormalizeResourcePath("a /", true) == "a "
    ensures NormalizeResourcePath("a ", true) != "a "
  {
    var a := "a /";
    assert !IsUriScheme(a) by {
      if IsUriScheme(a) {
        UriDoublesASlash(a);
      }
    }
    NormalizePlain(a, true);
    assert Slashes(a) == a;
    ResolvedBlankName();
    if NormalizeResourcePath("a ", true) == "a " {
      FixedIsTrimmed("a ", true);
    }
  }

  // ---- equivalence ----------------------------------------------------------------------------------------

  predicate ArePathsEquivalent(a: string, b: string, caseSensitive: bool) {
    NormalizeResourcePath(a, caseSensitive) == NormalizeResourcePath(b, caseSensitive)
  }

  /** The path as the comparison reads it: forward slashes, and lower case unless case counts. */
  function Folded(path: string, caseSensitive: bool): string {
    if caseSensitive then Slashes(path) else Lower(Slashes(path))
  }

  lemma LowerKeepsPrefix(p: string)
    ensures (Prefix(Lower(p)) == "") <==> (Prefix(p) == "")
  {
    assert p != "" ==> (Lower(p)[0] == '/' <==> p[0] == '/');
  }

  lemma RelativeHasNoTrailingSlash(p: string)
    requires Prefix(p) == ""
    ensures StripTrailing(Resolved(p)) == Resolved(p)
  {
    var k := SegmentsShape(p);
    var segments := Segments(p);
    if segments != [] {
      forall i | 0 <= i < |segments| ensures segments[i] != "" && '/' !in segments[i] {
        CanonicalSegment(segments, k, false, i);
      }
      JoinIsTight(segments);
    }
  }

  lemma RelativeNormalizes(a: string, caseSensitive: bool)
    requires a != "" && Trimmed(a) && !IsUriScheme(a) && Prefix(Slashes(a)) == ""
    ensures NormalizeResourcePath(a, caseSensitive) == Resolved(Folded(a, caseSensitive))
    ensures Prefix(Folded(a, caseSensitive)) == ""
  {
    NormalizePlain(a, caseSensitive);
    RelativeHasNoTrailingSlash(Slashes(a));
    ResolvedLower(Slashes(a));
    LowerKeepsPrefix(Slashes(a));
  }

  lemma RelativeResolution(x: string, y: string)
    requires Prefix(x) == Prefix(y) == ""
    ensures Resolved(x) == Resolved(y) <==> SamePlace(Parts(x), Parts(y))
  {
    var kx := SegmentsShape(x);
    var ky := SegmentsShape(y);
    PartsSlashFree(x);
    PartsSlashFree(y);
    SameResolutionIffSamePlace(Parts(x), Parts(y));
    if Resolved(x) == Resolved(y) {
      RenderInjective("", Segments(x), kx, Segments(y), ky, false);
    }
  }

  /** Two relative paths are equivalent exactly when, read in that way, they lead to the same place from every
      directory. */
  lemma EquivalenceIsSamePlace(a: string, b: string, caseSensitive: bool)
    requires a != "" && Trimmed(a) && !IsUriScheme(a) && Prefix(Slashes(a)) == ""
    requires b != "" && Trimmed(b) && !IsUriScheme(b) && Prefix(Slashes(b)) == ""
    ensures ArePathsEquivalent(a, b, caseSensitive)
       <==> SamePlace(Parts(Folded(a, caseSensitive)), Parts(Folded(b, caseSensitive)))
  {
    RelativeNormalizes(a, caseSensitive);
    RelativeNormalizes(b, caseSensitive);
    RelativeResolution(Folded(a, caseSensitive), Folded(b, caseSensitive));
  }

  // ---- URIs -------------------------------------------------------------------------------------------------

  /** A scheme of length k: a letter, then letters, digits, "+", "." or "-"; followed by a colon and two slashes. */
  predicate SchemeOf(p: string, k: nat) {
    && 1 <= k && k + 3 <= |p| && p[k] == ':' && p[k + 1] == '/' && p[k + 2] == '/'
    && ('a' <= p[0] <= 'z' || 'A' <= p[0] <= 'Z')
    && forall j :: 0 < j < k ==>
         'a' <= p[j] <= 'z' || 'A' <= p[j] <= 'Z' || '0' <= p[j] <= '9' || p[j] in {'+', '.', '-'}
  }

  lemma UriSchemeExact(p: string)
    ensures IsUriScheme(p) <==> exists k: nat :: SchemeOf(p, k)
  {
    if IsUriScheme(p) {
      var i :| 1 <= i <= |p| && OccursAt(p, "://", i) && IsLetter(p[0]) && forall j :: 0 < j < i ==> SchemeChar(p[j]);
      ColonSlashSlash(p, i);
      assert SchemeOf(p, i);
    }
    if k: nat :| SchemeOf(p, k) {
      ColonSlashSlash(p, k);
    }
  }

  lemma ColonSlashSlash(p: string, i: int)
    ensures OccursAt(p, "://", i) <==> 0 <= i && i + 3 <= |p| && p[i] == ':' && p[i + 1] == '/' && p[i + 2] == '/'
  {
    if 0 <= i && i + 3 <= |p| {
      assert p[i..i + 3] == [p[i], p[i + 1], p[i + 2]];
    }
  }

  /** A trimmed locator with a scheme is left alone; every other one comes out without a doubled slash. So the doubled
      slash of the result tells a URI from a path. */
  lemma UrisAreKeptExact(p: string, caseSensitive: bool)
    requires Trimmed(p)
    ensures (exists k: nat :: SchemeOf(p, k)) ==> NormalizeResourcePath(p, caseSensitive) == p
    ensures Contains(NormalizeResourcePath(p, caseSensitive), "//") <==> exists k: nat :: SchemeOf(p, k)
  {
    TrimIsTrimmed(p);
    UriSchemeExact(p);
    if p == "" {
      forall j ensures !OccursAt("", "//", j) {
        DoubleSlash("", j);
      }
    } else if IsUriScheme(p) {
      UriDoublesASlash(p);
      var j :| 0 <= j && j + 1 < |p| && p[j] == '/' && p[j + 1] == '/';
      DoubleSlash(p, j);
    } else {
      StripIsResolved(Slashes(p));
      LowerKeepsTight(StripTrailing(Resolved(Slashes(p))));
    }
  }

  lemma LowerKeepsTight(s: string)
    ensures Contains(Lower(s), "//") <==> Contains(s, "//")
  {
    forall j ensures OccursAt(Lower(s), "//", j) <==> OccursAt(s, "//", j) {
      DoubleSlash(s, j);
      DoubleSlash(Lower(s), j);
      assert 0 <= j && j + 1 < |s| ==> (Lower(s)[j] == '/' <==> s[j] == '/') && (Lower(s)[j + 1] == '/' <==> s[j + 1] == '/');
    }
  }
}
