/** The string form of path normalisation. */
module ResourcePath {
  import opened Text
  import opened PathNormalize

  predicate IsDrive(p: string) {
    |p| >= 3 && IsLetter(p[0]) && p[1] == ':' && p[2] == '/'
  }

  function Parts(p: string): seq<string> {
    Split(if IsDrive(p) then p[3..] else p, SLASH)
  }

  function Segments(p: string): seq<string> {
    Resolve([], Parts(p), IsDrive(p))
  }

  /** What marks a path as absolute: a drive, a leading slash, or nothing. */
  function Prefix(p: string): string {
    if IsDrive(p) then p[..3] else if StartsWith(p, SLASH) then SLASH else ""
  }

  function Render(prefix: string, segments: seq<string>): string {
    var text := prefix + Join(segments, SLASH);
    if text == "" then "." else text
  }

  function Resolved(p: string): string {
    Render(Prefix(p), Segments(p))
  }

  method ResolveDotSegments(p: string) returns (resolved: string)
    ensures resolved == Resolved(p)
  {
    var drive := IsDrive(p);
    var drivePrefix := if drive then p[..3] else "";
    var result := ResolveSegments(Parts(p), drive);
    resolved := Join(result, SLASH);
    if StartsWith(p, SLASH) {
      resolved := SLASH + resolved;
    }
    if drive {
      assert p[0] != '/';
      resolved := drivePrefix + resolved;
    }
    if resolved == "" {
      resolved := ".";
    }
  }

  // ---- reading a rendered path back -----------------------------------------------------------------------

  lemma PartsSlashFree(p: string)
    ensures SlashFree(Parts(p))
  {
    SplitFree(if IsDrive(p) then p[3..] else p, '/');
  }

  lemma SegmentsShape(p: string) returns (k: nat)
    ensures Canonical(Segments(p), k, IsDrive(p))
  {
    PartsSlashFree(p);
    k := ResolveShape([], 0, Parts(p), IsDrive(p));
  }

  lemma CanonicalSegment(segments: seq<string>, k: nat, drive: bool, i: nat)
    requires Canonical(segments, k, drive) && i < |segments|
    ensures segments[i] != "" && segments[i] != "." && '/' !in segments[i]
  {
  }

  /** A join of normal segments starts and ends inside a segment and never doubles a slash. */
  lemma {:induction false} JoinIsTight(segments: seq<string>)
    requires segments != [] && forall i :: 0 <= i < |segments| ==> segments[i] != "" && '/' !in segments[i]
    ensures var s := Join(segments, SLASH);
            && s != "" && s[0] != '/' && s[|s| - 1] != '/' && |s| >= |segments[0]| && s[..|segments[0]|] == segments[0]
            && !Contains(s, "//")
    decreases |segments|
  {
    var s, head := Join(segments, SLASH), segments[0];
    if |segments| == 1 {
      forall j | 0 <= j <= |s| ensures !OccursAt(s, "//", j) {
        DoubleSlash(s, j);
      }
    } else {
      var rest := Join(segments[1..], SLASH);
      JoinIsTight(segments[1..]);
      assert s == head + SLASH + rest;
      forall j | 0 <= j <= |s| ensures !OccursAt(s, "//", j) {
        DoubleSlash(s, j);
        if j > |head| {
          DoubleSlash(rest, j - |head| - 1);
        }
      }
    }
  }

  lemma DoubleSlash(s: string, j: int)
    ensures OccursAt(s, "//", j) <==> 0 <= j && j + 1 < |s| && s[j] == '/' && s[j + 1] == '/'
  {
    if 0 <= j && j + 2 <= |s| {
      assert s[j..j + 2] == [s[j], s[j + 1]];
    }
  }

  lemma SplitOfJoin(segments: seq<string>)
    requires segments != [] && SlashFree(segments)
    ensures Split(Join(segments, SLASH), SLASH) == segments
  {
    SplitJoin(segments, '/');
  }

  lemma ResolveNormal(segments: seq<string>, k: nat, drive: bool)
    requires Canonical(segments, k, drive)
    ensures Resolve([], segments, drive) == segments
  {
    assert [] + segments == segments;
    ResolveKeepsCanonical([], segments, k, drive);
  }

  /** Below a slash or a drive, an empty list of segments reads as one empty part. */
  lemma ResolvePartsOfJoin(segments: seq<string>, k: nat, drive: bool)
    requires Canonical(segments, k, drive)
    ensures Resolve([], Split(Join(segments, SLASH), SLASH), drive) == segments
  {
    ResolveNormal(segments, k, drive);
    if segments == [] {
      SplitOfJoin([""]);
      assert Resolve([], [""], drive) == Resolve([], [], drive);
    } else {
      SplitOfJoin(segments);
    }
  }

  lemma ReadAbsolute(segments: seq<string>, k: nat)
    requires Canonical(segments, k, false)
    ensures var q := Render(SLASH, segments); Prefix(q) == SLASH && !IsDrive(q) && Segments(q) == segments
  {
    var rest := Join(segments, SLASH);
    var q := Render(SLASH, segments);
    assert q == "" + SLASH + rest && q[0] == '/';
    SplitBetween("", '/', rest);
    SplitOfJoin([""]);
    assert Parts(q) == [""] + Split(rest, SLASH);
    assert Parts(q)[0] == "" && Parts(q)[1..] == Split(rest, SLASH);
    ResolvePartsOfJoin(segments, k, false);
  }

  lemma ReadDrive(prefix: string, segments: seq<string>)
    requires |prefix| == 3 && IsDrive(prefix) && Canonical(segments, 0, true)
    ensures var q := Render(prefix, segments); Prefix(q) == prefix && IsDrive(q) && Segments(q) == segments
  {
    var q := Render(prefix, segments);
    assert q[..3] == prefix && q[3..] == Join(segments, SLASH);
    ResolvePartsOfJoin(segments, 0, true);
  }

  /** A relative normal form reads back as it is unless its first name looks like a drive. */
  lemma ReadRelative(segments: seq<string>, k: nat)
    requires Canonical(segments, k, false)
    ensures var q := Render("", segments);
            && !StartsWith(q, SLASH)
            && (!IsDrive(q) ==> Prefix(q) == "" && Segments(q) == segments)
            && (IsDrive(q) ==> segments != [] && Prefix(q) == segments[0] + SLASH && Canonical(segments, 0, false)
                               && Segments(q) == segments[1..])
  {
    var q := Render("", segments);
    if segments == [] {
      SplitOfJoin(["."]);
      assert Resolve([], ["."], false) == Resolve([], [], false);
    } else {
      forall i | 0 <= i < |segments| ensures segments[i] != "" && '/' !in segments[i] {
        CanonicalSegment(segments, k, false, i);
      }
      JoinIsTight(segments);
      assert q == Join(segments, SLASH);
      ResolvePartsOfJoin(segments, k, false);
      if IsDrive(q) {
        DriveName(segments, k);
      }
    }
  }

  lemma DriveName(segments: seq<string>, k: nat)
    requires Canonical(segments, k, false) && segments != [] && IsDrive(Join(segments, SLASH))
    ensures var q := Join(segments, SLASH);
            k == 0 && q[..3] == segments[0] + SLASH && Segments(q) == segments[1..]
  {
    var q, head := Join(segments, SLASH), segments[0];
    assert q[..|head|] == head;
    assert forall i :: 0 <= i < |head| ==> q[i] == head[i] != '/';
    if |segments| == 1 {
      assert false;
    } else {
      var rest := Join(segments[1..], SLASH);
      assert q == head + SLASH + rest;
      assert q[|head|] == '/';
      assert |head| == 2 && head[0] == q[0];
      assert head != ".." && k == 0;
      assert q[3..] == rest;
      assert Canonical(segments[1..], 0, true);
      ResolvePartsOfJoin(segments[1..], 0, true);
    }
  }

  /** Resolving twice is resolving once, for every string. */
  lemma ResolvedIdempotent(p: string)
    ensures Resolved(Resolved(p)) == Resolved(p)
  {
    var k := SegmentsShape(p);
    var segments := Segments(p);
    if IsDrive(p) {
      ReadDrive(p[..3], segments);
    } else if StartsWith(p, SLASH) {
      ReadAbsolute(segments, k);
    } else {
      ReadRelative(segments, k);
      var q := Render("", segments);
      if IsDrive(q) {
        if |segments| == 1 {
          assert false;
        }
        JoinCons(segments[0], segments[1..], SLASH);
        assert segments == [segments[0]] + segments[1..];
      }
    }
  }

  /** "/../x" and "/x" are the same place and resolve differently, for every name. */
  lemma AboveRootDiffers(x: string)
    requires PlainName(x)
    ensures var up, plain := "/../" + x, "/" + x;
            && Walk([], Parts(up)) == Walk([], Parts(plain)) == [x]
            && Resolved(up) != Resolved(plain)
  {
    var up, plain := ["", "..", x], ["", x];
    JoinOfThree("", "..", x);
    JoinOfTwo("", x);
    SplitOfJoin(up);
    SplitOfJoin(plain);
    assert Join(up, SLASH) == "/../" + x && Join(plain, SLASH) == "/" + x;
    assert Parts("/../" + x) == up && Parts("/" + x) == plain;
    WalkOfThree("", "..", x);
    WalkOfTwo("", x);
    AbsoluteEquivalenceExact(up, plain);
    ResolvedAbsoluteDiffers("/../" + x, "/" + x);
  }

  lemma JoinOfTwo(a: string, b: string)
    ensures Join([a, b], SLASH) == a + SLASH + b
  {
    var t := [a, b];
    var last := [b];
    assert t[1..] == last;
  }

  lemma JoinOfThree(a: string, b: string, c: string)
    ensures Join([a, b, c], SLASH) == a + SLASH + (b + SLASH + c)
  {
    JoinOfTwo(b, c);
    assert [a, b, c][1..] == [b, c];
  }

  lemma WalkOfTwo(a: string, b: string)
    requires a == "" && PlainName(b)
    ensures Walk([], [a, b]) == [b] && Overclimbs([a, b], 0) == 0
  {
    var none: seq<string> := [];
    var last := [b];
    assert [a, b][1..] == last && last[1..] == none;
    assert none + [b] == last;
    assert Walk(none, last) == Walk([b], none);
    assert Overclimbs(last, 0) == Overclimbs(none, 1);
  }

  lemma WalkOfThree(a: string, b: string, c: string)
    requires a == "" && b == ".." && PlainName(c)
    ensures Walk([], [a, b, c]) == [c] && Overclimbs([a, b, c], 0) == 1
  {
    var none: seq<string> := [];
    var last := [c];
    assert [a, b, c][1..] == [b, c] && [b, c][1..] == last && last[1..] == none;
    assert none + [c] == last;
    assert Walk(none, [b, c]) == Walk(none, last) == Walk([c], none);
    assert Overclimbs([b, c], 0) == 1 + Overclimbs(last, 0) == 1 + Overclimbs(none, 1);
  }

  lemma ResolvedAbsoluteDiffers(p: string, q: string)
    requires StartsWith(p, SLASH) && StartsWith(q, SLASH) && !IsDrive(p) && !IsDrive(q)
    requires Segments(p) != Segments(q)
    ensures Resolved(p) != Resolved(q)
  {
    var k := SegmentsShape(p);
    var l := SegmentsShape(q);
    ReadAbsolute(Segments(p), k);
    ReadAbsolute(Segments(q), l);
  }

  // ---- appending ------------------------------------------------------------------------------------------

  /** A lone drive letter turns into a drive path when something is appended. */
  predicate BareDrive(p: string) {
    |p| == 2 && IsLetter(p[0]) && p[1] == ':'
  }

  predicate Extendable(p: string) {
    p != "" && !BareDrive(p)
  }

  lemma AppendSegments(p: string, c: string)
    requires Extendable(p)
    ensures Prefix(p + SLASH + c) == Prefix(p) && IsDrive(p + SLASH + c) == IsDrive(p)
    ensures Segments(p + SLASH + c) == Resolve(Segments(p), Split(c, SLASH), IsDrive(p))
  {
    var q := p + SLASH + c;
    assert q[0] == p[0];
    if IsDrive(p) {
      assert q[..3] == p[..3];
      assert q[3..] == p[3..] + SLASH + c;
      SplitBetween(p[3..], '/', c);
    } else {
      SplitBetween(p, '/', c);
      if |p| >= 3 {
        assert q[..3] == p[..3];
        assert q[1] == p[1] && q[2] == p[2];
      } else if |p| == 1 {
        assert q[1] == '/';
      } else {
        assert q[1] == p[1];
      }
    }
    ResolveConcat([], Parts(p), Split(c, SLASH), IsDrive(p));
  }

  lemma RenderInjective(prefix: string, a: seq<string>, ka: nat, b: seq<string>, kb: nat, drive: bool)
    requires Canonical(a, ka, drive) && Canonical(b, kb, drive)
    requires Render(prefix, a) == Render(prefix, b)
    ensures a == b
  {
    ResolvePartsOfJoin(a, ka, drive);
    ResolvePartsOfJoin(b, kb, drive);
    if prefix != "" {
      assert Render(prefix, a)[|prefix|..] == Join(a, SLASH);
      assert Render(prefix, b)[|prefix|..] == Join(b, SLASH);
    } else {
      NotADot(a, ka, drive);
      NotADot(b, kb, drive);
      assert "" + Join(a, SLASH) == Join(a, SLASH) && "" + Join(b, SLASH) == Join(b, SLASH);
    }
    assert Join(a, SLASH) == Join(b, SLASH);
  }

  lemma NotADot(a: seq<string>, k: nat, drive: bool)
    requires Canonical(a, k, drive)
    ensures Join(a, SLASH) != "." && (Join(a, SLASH) == "" <==> a == [])
  {
    ResolvePartsOfJoin(a, k, drive);
    SplitOfJoin(["."]);
    SplitOfJoin([""]);
    assert Resolve([], ["."], drive) == Resolve([], [], drive);
    assert Resolve([], [""], drive) == Resolve([], [], drive);
  }

  /** Paths that resolve alike and are absolute in the same way still resolve alike after any extension. */
  lemma AppendKeepsEquivalence(a: string, b: string, c: string)
    requires Extendable(a) && Extendable(b)
    requires Resolved(a) == Resolved(b) && Prefix(a) == Prefix(b)
    ensures Resolved(a + SLASH + c) == Resolved(b + SLASH + c)
  {
    AppendSegments(a, c);
    AppendSegments(b, c);
    var ka := SegmentsShape(a);
    var kb := SegmentsShape(b);
    assert IsDrive(a) == (|Prefix(a)| == 3) && IsDrive(b) == (|Prefix(b)| == 3);
    RenderInjective(Prefix(a), Segments(a), ka, Segments(b), kb, IsDrive(a));
  }

  /** Climbing n times from j <= n plain names ends above the start, except on a drive. */
  lemma {:induction false} Climb(stack: seq<string>, k: nat, ups: seq<string>, drive: bool)
    requires Canonical(stack, k, drive) && |ups| == |stack| - k + (if drive then 0 else 1)
    requires forall i :: 0 <= i < |ups| ==> ups[i] == ".."
    ensures Resolve(stack, ups, drive) == if drive then [] else stack[..k] + [".."]
    decreases |ups|
  {
    if |stack| > k {
      var next := stack[..|stack| - 1];
      assert Push(stack, "..", drive) == next;
      Climb(next, k, ups[1..], drive);
      assert next[..k] == stack[..k];
    } else if !drive {
      assert stack[..k] == stack;
      assert Push(stack, "..", drive) == stack + [".."];
      assert Resolve(stack + [".."], ups[1..], drive) == stack + [".."];
    } else {
      assert stack == [];
    }
  }

  /** Without the same prefix some extension tells the two apart: equal resolution is kept by every extension
      exactly when the paths are absolute in the same way. */
  lemma AppendEquivalenceExact(a: string, b: string)
    requires Extendable(a) && Extendable(b) && Resolved(a) == Resolved(b)
    ensures (forall c :: Resolved(a + SLASH + c) == Resolved(b + SLASH + c)) <==> Prefix(a) == Prefix(b)
  {
    if Prefix(a) == Prefix(b) {
      forall c ensures Resolved(a + SLASH + c) == Resolved(b + SLASH + c) {
        AppendKeepsEquivalence(a, b, c);
      }
    } else {
      var ka := SegmentsShape(a);
      var kb := SegmentsShape(b);
      PrefixOfResolved(a, ka);
      PrefixOfResolved(b, kb);
      if IsDrive(a) {
        DriveAndRelativePart(b, kb, a);
      } else {
        DriveAndRelativePart(a, ka, b);
      }
    }
  }

  /** Only a relative path can resolve to something with another prefix, and then to a drive path. */
  lemma PrefixOfResolved(p: string, k: nat)
    requires Canonical(Segments(p), k, IsDrive(p))
    ensures Prefix(Resolved(p)) == Prefix(p) || (Prefix(p) == "" && IsDrive(Resolved(p)))
  {
    if IsDrive(p) {
      ReadDrive(p[..3], Segments(p));
    } else if StartsWith(p, SLASH) {
      ReadAbsolute(Segments(p), k);
    } else {
      ReadRelative(Segments(p), k);
    }
  }

  lemma DriveAndRelativePart(r: string, k: nat, d: string)
    requires Extendable(r) && Extendable(d) && Prefix(r) == "" && IsDrive(d) && IsDrive(Resolved(r))
    requires Canonical(Segments(r), k, false) && Resolved(r) == Resolved(d)
    ensures exists c :: Resolved(r + SLASH + c) != Resolved(d + SLASH + c)
  {
    var sr, sd := Segments(r), Segments(d);
    ReadRelative(sr, k);
    var kd := SegmentsShape(d);
    ReadDrive(d[..3], sd);
    assert sd == sr[1..];
    var ups := seq(|sr| + 1, _ => "..");
    var c := Join(ups, SLASH);
    SplitOfJoin(ups);
    AppendSegments(r, c);
    AppendSegments(d, c);
    Climb(sr, 0, ups, false);
    ClimbDrive(sd, ups);
    assert Segments(r + SLASH + c) == [".."];
    assert Resolved(r + SLASH + c) == "..";
    assert Resolved(d + SLASH + c)[1] == ':';
  }

  lemma ClimbDrive(stack: seq<string>, ups: seq<string>)
    requires Canonical(stack, 0, true) && |ups| >= |stack|
    requires forall i :: 0 <= i < |ups| ==> ups[i] == ".."
    ensures Resolve(stack, ups, true) == []
  {
    var few := ups[..|stack|];
    Climb(stack, 0, few, true);
    ResolveConcat(stack, few, ups[|stack|..], true);
    assert ups == few + ups[|stack|..];
    ClimbAtRoot(ups[|stack|..]);
  }

  lemma {:induction false} ClimbAtRoot(ups: seq<string>)
    requires forall i :: 0 <= i < |ups| ==> ups[i] == ".."
    ensures Resolve([], ups, true) == []
    decreases |ups|
  {
    if ups != [] {
      ClimbAtRoot(ups[1..]);
    }
  }
}
