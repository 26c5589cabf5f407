/** What it says about the lines of a range that the range has an image after an edit, against what is documented. */
module RangeSurvival {
  import opened Text
  import opened Ranges
  import opened LineDrift
  import opened DriftGeometry

  // ---- what survival of a range means ---------------------------------------------------------------------

  ghost predicate AllLinesSurvive(map_: LineMapping, r: LineRange) {
    forall l :: r.start <= l <= r.end ==> map_.MapLine(l) > 0
  }

  ghost predicate SomeLineSurvives(map_: LineMapping, r: LineRange) {
    exists l :: r.start <= l <= r.end && map_.MapLine(l) > 0
  }

  /** The range survives in the sense the helper documents: none of its lines was deleted. */
  ghost predicate StillExistsMeansAll(oldSource: string, newSource: string, hash: string -> string, r: LineRange) {
    MeansAll(DriftOf(oldSource, newSource, hash).mapping, r)
  }

  ghost predicate MeansAll(map_: LineMapping, r: LineRange) {
    map_.RemapRange(r).Some? <==> AllLinesSurvive(map_, r)
  }

  /** The range is undefined in the sense the interface documents: all of its lines were deleted. */
  ghost predicate UndefinedMeansNone(oldSource: string, newSource: string, hash: string -> string, r: LineRange) {
    MeansNone(DriftOf(oldSource, newSource, hash).mapping, r)
  }

  ghost predicate MeansNone(map_: LineMapping, r: LineRange) {
    map_.RemapRange(r).None? <==> !SomeLineSurvives(map_, r)
  }

  /** On equal sources every range has an image: the documented meaning holds exactly for ranges inside the file, and
      for empty ones. */
  lemma StillExistsOnEqualSources(source: string, hash: string -> string, r: LineRange)
    ensures StillExistsMeansAll(source, source, hash, r)
       <==> r.start > r.end || (1 <= r.start && r.end <= |Lines(source)|)
  {
    var map_ := DriftOf(source, source, hash).mapping;
    assert r.start <= r.end && AllLinesSurvive(map_, r) ==> map_.MapLine(r.start) > 0 && map_.MapLine(r.end) > 0;
  }

  /** And the meaning of an undefined image holds exactly for ranges that have a line of the file. */
  lemma UndefinedOnEqualSources(source: string, hash: string -> string, r: LineRange)
    ensures UndefinedMeansNone(source, source, hash, r)
       <==> r.start <= r.end && r.start <= |Lines(source)| && 1 <= r.end && Lines(source) != []
  {
    var map_ := DriftOf(source, source, hash).mapping;
    var l := if r.start < 1 then 1 else r.start;
    assert SomeLineSurvives(map_, r) <==> r.start <= l <= r.end && map_.MapLine(l) > 0;
  }

  // ---- texts of different lines ---------------------------------------------------------------------------

  function Plain(k: nat): (line: string)
    ensures |line| == k + 1 && '\n' !in line
  {
    seq(k + 1, _ => 'a')
  }

  /** n lines, no two alike, with or without line k. */
  function LinesBut(n: nat, k: nat): (lines: seq<string>)
    ensures |lines| == if k < n then n - 1 else n
    ensures forall i :: 0 <= i < |lines| ==> lines[i] == Plain(if i < k then i else i + 1)
  {
    seq(if k < n then n - 1 else n, i requires 0 <= i => Plain(if i < k then i else i + 1))
  }

  function SourceOf(lines: seq<string>): string {
    Join(lines, "\n")
  }

  function Same(line: string): string {
    line
  }

  lemma LinesOfText(lines: seq<string>)
    requires forall i :: 0 <= i < |lines| ==> lines[i] != "" && '\n' !in lines[i]
    ensures Lines(SourceOf(lines)) == lines && Keys(lines, Same) == lines
  {
    assert forall i :: 0 <= i < |lines| ==> Keys(lines, Same)[i] == Same(lines[i]);
    if lines != [] {
      SplitJoin(lines, '\n');
      assert SourceOf(lines) != "" by {
        if |lines| > 1 {
          assert SourceOf(lines) == lines[0] + "\n" + Join(lines[1..], "\n");
        }
      }
    }
  }

  /** Deleting line k + 1 from a text of n different lines deletes that line and keeps every other. */
  lemma DropOneLine(n: nat, k: nat) returns (oldSource: string, newSource: string)
    requires k < n
    ensures oldSource != newSource
    ensures forall l :: DriftOf(oldSource, newSource, Same).mapping.MapLine(l) > 0 <==> 1 <= l <= n && l != k + 1
  {
    var src, dst := LinesBut(n, n), LinesBut(n, k);
    oldSource, newSource := SourceOf(src), SourceOf(dst);
    LinesOfText(src);
    LinesOfText(dst);
    var map_ := DriftOf(oldSource, newSource, Same).mapping;
    forall l ensures map_.MapLine(l) > 0 <==> 1 <= l <= n && l != k + 1 {
      if 1 <= l <= n {
        DroppedLine(src, dst, n, k, l);
      }
    }
  }

  lemma DroppedLine(src: seq<string>, dst: seq<string>, n: nat, k: nat, l: int)
    requires k < n && src == LinesBut(n, n) && dst == LinesBut(n, k) && 1 <= l <= n
    ensures MapOf(src, dst).MapLine(l) > 0 <==> l != k + 1
  {
    assert CommonRun(src, dst, 0, 0, k);
    GreedyFollowsCommonRun(src, dst, 0, 0, k, l - 1);
    if l > k {
      assert FirstAt(dst, src[k], k) == -1 by {
        assert forall j :: 0 <= j < |dst| ==> |dst[j]| != |src[k]|;
      }
      AfterDropped(src, dst, n, k, l);
    }
  }

  lemma AfterDropped(src: seq<string>, dst: seq<string>, n: nat, k: nat, l: int)
    requires k < n && src == LinesBut(n, n) && dst == LinesBut(n, k) && k < l <= n
    requires FirstAt(dst, src[k], k) == -1
    ensures Image(GreedyFrom(src, dst, k, k), l - 1) > 0 <==> l != k + 1
  {
    assert CommonRun(src, dst, k + 1, k, n - 1 - k);
    if l == k + 1 {
      GreedyValid(src, dst, k + 1, k);
      if Image(GreedyFrom(src, dst, k + 1, k), k) > 0 {
        ImageInRange(src, dst, k + 1, k, GreedyFrom(src, dst, k + 1, k), k);
      }
    } else {
      GreedyFollowsCommonRun(src, dst, k + 1, k, n - 1 - k, l - 1);
    }
  }

  // ---- the documented meanings ----------------------------------------------------------------------------

  lemma DifferentTextsAreDirect(a: string, b: string, hash: string -> string)
    requires a != b
    ensures DriftOf(a, b, hash).mapping.Direct?
  {
  }

  lemma StillExistsHolds(map_: LineMapping, r: LineRange)
    requires map_.Direct? && r.start <= r.end && (r.start < 1 || r.end <= r.start + 1)
    ensures MeansAll(map_, r)
  {
    assert AllLinesSurvive(map_, r) ==> map_.MapLine(r.start) > 0 && map_.MapLine(r.end) > 0;
  }

  lemma StillExistsFails(r: LineRange) returns (a: string, b: string)
    requires r.start > r.end || (r.start >= 1 && r.end > r.start + 1)
    ensures a != b && !StillExistsMeansAll(a, b, Same, r)
  {
    if r.start > r.end {
      a, b := DropOneLine(1, 0);
    } else {
      a, b := DropOneLine(r.end, r.start);
      var map_ := DriftOf(a, b, Same).mapping;
      assert map_.MapLine(r.start) > 0 && map_.MapLine(r.end) > 0 && map_.MapLine(r.start + 1) == 0;
    }
  }

  /** For which ranges the existence test means, on every pair of different texts, that all lines survive: ranges of at
      most two lines, and ranges that start before the file. */
  lemma StillExistsExact(r: LineRange)
    ensures (forall a: string, b: string, hash: string -> string :: a != b ==> StillExistsMeansAll(a, b, hash, r))
       <==> r.start <= r.end && (r.start < 1 || r.end <= r.start + 1)
  {
    if r.start <= r.end && (r.start < 1 || r.end <= r.start + 1) {
      forall a: string, b: string, hash: string -> string | a != b ensures StillExistsMeansAll(a, b, hash, r) {
        DifferentTextsAreDirect(a, b, hash);
        StillExistsHolds(DriftOf(a, b, hash).mapping, r);
      }
    } else {
      var a, b := StillExistsFails(r);
    }
  }

  lemma UndefinedHolds(map_: LineMapping, r: LineRange)
    requires map_.Direct? && (r.start == r.end || r.end < 1)
    ensures MeansNone(map_, r)
  {
    assert map_.MapLine(r.start) > 0 && r.start == r.end ==> SomeLineSurvives(map_, r);
  }

  lemma UndefinedFails(r: LineRange) returns (a: string, b: string)
    requires r.start != r.end && r.end >= 1
    ensures a != b && !UndefinedMeansNone(a, b, Same, r)
  {
    if r.start > r.end {
      a, b := DropOneLine(r.start + 1, r.start);
    } else {
      a, b := DropOneLine(r.end + 1, if r.start < 1 then r.end else r.start - 1);
      var map_ := DriftOf(a, b, Same).mapping;
      assert map_.MapLine(r.end) > 0;
      assert SomeLineSurvives(map_, r);
    }
  }

  /** For which ranges an undefined image means, on every pair of different texts, that every line is gone: one-line
      ranges, and ranges that end before the file. */
  lemma UndefinedExact(r: LineRange)
    ensures (forall a: string, b: string, hash: string -> string :: a != b ==> UndefinedMeansNone(a, b, hash, r))
       <==> r.start == r.end || r.end < 1
  {
    if r.start == r.end || r.end < 1 {
      forall a: string, b: string, hash: string -> string | a != b ensures UndefinedMeansNone(a, b, hash, r) {
        DifferentTextsAreDirect(a, b, hash);
        UndefinedHolds(DriftOf(a, b, hash).mapping, r);
      }
    } else {
      var a, b := UndefinedFails(r);
    }
  }

  /** What one surviving image does say, on different texts: both ends survive. */
  lemma SurvivalIsAboutEnds(oldSource: string, newSource: string, hash: string -> string, r: LineRange)
    requires oldSource != newSource
    ensures var map_ := DriftOf(oldSource, newSource, hash).mapping;
            && (map_.RemapRange(r).Some? <==> map_.MapLine(r.start) > 0 && map_.MapLine(r.end) > 0)
            && (r.start <= r.end && AllLinesSurvive(map_, r) ==> map_.RemapRange(r).Some?)
            && (r.start <= r.end && map_.RemapRange(r).Some? ==> SomeLineSurvives(map_, r))
  {
    var map_ := DriftOf(oldSource, newSource, hash).mapping;
    if r.start <= r.end {
      assert map_.MapLine(r.start) > 0 ==> SomeLineSurvives(map_, r);
    }
  }
}
