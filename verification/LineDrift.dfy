/** Line-number drift between two versions of a file: greedy line matching, the edit script, the old-to-new line
    map, and how line ranges move. Lines are compared through an arbitrary key function. */
module LineDrift {
  import opened Text
  import opened Ranges

  datatype Match = Match(oldIdx: nat, newIdx: nat)

  datatype EditKind = Keep | Ins | Del

  datatype EditOp = EditOp(kind: EditKind, oldLine: nat, newLine: nat)

  datatype LineMapping = Direct(direct: seq<nat>) | Identity(lineCount: nat) {
    /** New 1-indexed line of an old 1-indexed line, 0 when it is gone. */
    function MapLine(oldLine: int): nat {
      match this
      case Direct(direct) => if 1 <= oldLine <= |direct| then direct[oldLine - 1] else 0
      case Identity(lineCount) => if 1 <= oldLine <= lineCount then oldLine else 0
    }

    function RemapRange(range: LineRange): Option<LineRange> {
      match this
      case Direct(_) =>
        if MapLine(range.start) == 0 then None
        else if MapLine(range.end) == 0 then None
        else Some(LineRange(MapLine(range.start), MapLine(range.end)))
      case Identity(_) => Some(range)
    }
  }

  datatype DriftResult = DriftResult(added: nat, removed: nat, mapping: LineMapping)

  /** The empty text has no lines; any other text is cut at line feeds. */
  function Lines(source: string): seq<string> {
    if source == "" then [] else Split(source, "\n")
  }

  function Keys<K>(lines: seq<string>, hash: string -> K): (keys: seq<K>) {
    seq(|lines|, i requires 0 <= i < |lines| => hash(lines[i]))
  }

  // ---- matching -------------------------------------------------------------------------------------------

  /** The first position at or after from that holds k, or -1. */
  function FirstAt<K(==)>(keys: seq<K>, k: K, from: nat): (r: int)
    requires from <= |keys|
    ensures r == -1 || (from <= r < |keys| && keys[r] == k)
    ensures forall j :: from <= j < |keys| && (r == -1 || j < r) ==> keys[j] != k
    decreases |keys| - from
  {
    if from == |keys| then -1
    else if keys[from] == k then from
    else FirstAt(keys, k, from + 1)
  }

  /** The greedy pairs for old lines oi.. when new lines before ni are taken. */
  function GreedyFrom<K(==)>(src: seq<K>, dst: seq<K>, oi: nat, ni: nat): seq<Match>
    requires oi <= |src| && ni <= |dst|
    decreases |src| - oi
  {
    if oi == |src| then []
    else
      var p := FirstAt(dst, src[oi], ni);
      if p == -1 then GreedyFrom(src, dst, oi + 1, ni)
      else [Match(oi, p)] + GreedyFrom(src, dst, oi + 1, p + 1)
  }

  function Greedy<K(==)>(src: seq<K>, dst: seq<K>): seq<Match> {
    GreedyFrom(src, dst, 0, 0)
  }

  /** A list of pairs that increases on both sides and joins equal keys. */
  ghost predicate ValidFrom<K>(src: seq<K>, dst: seq<K>, oi: nat, ni: nat, ms: seq<Match>)
    decreases |ms|
  {
    ms == [] ||
    (&& oi <= ms[0].oldIdx < |src|
     && ni <= ms[0].newIdx < |dst|
     && src[ms[0].oldIdx] == dst[ms[0].newIdx]
     && ValidFrom(src, dst, ms[0].oldIdx + 1, ms[0].newIdx + 1, ms[1..]))
  }

  /** The positions of k in keys, in increasing order. */
  ghost predicate IsPositions<K>(ps: seq<nat>, keys: seq<K>, k: K) {
    && (forall i, j :: 0 <= i < j < |ps| ==> ps[i] < ps[j])
    && (forall i :: 0 <= i < |ps| ==> ps[i] < |keys| && keys[ps[i]] == k)
    && (forall p: nat :: p < |keys| && keys[p] == k ==> p in ps)
  }

  method IndexKeys<K(==)>(keys: seq<K>) returns (index: map<K, seq<nat>>)
    ensures forall k :: k in index <==> k in keys
    ensures forall k :: k in index ==> IsPositions(index[k], keys, k)
  {
    index := map[];
    for i := 0 to |keys|
      invariant forall k :: k in index <==> k in keys[..i]
      invariant forall k :: k in index ==> IsPositions(index[k], keys[..i], k)
    {
      var h := keys[i];
      ghost var before := index;
      if h in index {
        index := index[h := index[h] + [i]];
      } else {
        index := index[h := [i]];
      }
      assert keys[..i + 1] == keys[..i] + [h];
      forall k | k in index ensures IsPositions(index[k], keys[..i + 1], k) {
        if k == h {
          assert h !in before ==> forall p :: 0 <= p < i ==> keys[..i][p] != h;
        } else {
          assert IsPositions(before[k], keys[..i], k);
        }
      }
    }
    assert keys[..|keys|] == keys;
  }

  /** The inner search: the first listed position that is unused and not before the cursor, or -1. */
  method PickCandidate<K(==)>(candidates: seq<nat>, usedNew: set<nat>, newCursor: nat, ghost keys: seq<K>, ghost k: K)
    returns (ni: int)
    requires IsPositions(candidates, keys, k) && newCursor <= |keys|
    requires forall u :: u in usedNew ==> u < newCursor
    ensures ni == FirstAt(keys, k, newCursor)
  {
    ni := -1;
    for c := 0 to |candidates|
      invariant ni == -1
      invariant forall j :: 0 <= j < c ==> candidates[j] < newCursor
    {
      if candidates[c] !in usedNew && candidates[c] >= newCursor {
        ni := candidates[c];
        break;
      }
    }
  }

  method FindMatches<K(==)>(src: seq<K>, dst: seq<K>) returns (matches: seq<Match>)
    ensures matches == Greedy(src, dst)
  {
    var index := IndexKeys(dst);
    matches := [];
    var newCursor: nat := 0;
    var usedNew: set<nat> := {};
    for oi := 0 to |src|
      invariant newCursor <= |dst|
      invariant forall u :: u in usedNew ==> u < newCursor
      invariant matches + GreedyFrom(src, dst, oi, newCursor) == Greedy(src, dst)
    {
      if src[oi] in index {
        var ni := PickCandidate(index[src[oi]], usedNew, newCursor, dst, src[oi]);
        if ni != -1 {
          Regroup(matches, Match(oi, ni), GreedyFrom(src, dst, oi + 1, ni + 1));
          matches := matches + [Match(oi, ni)];
          usedNew := usedNew + {ni};
          newCursor := ni + 1;
        }
      }
    }
  }

  // ---- the edit script ------------------------------------------------------------------------------------

  /** Up to the next pair: deletions, then insertions, then the kept line. */
  function Script(ms: seq<Match>, oi: nat, ni: nat, n: nat, m: nat): seq<EditOp>
    requires InBounds(ms, oi, ni, n, m)
    decreases n - oi + m - ni
  {
    if ms != [] && ms[0] == Match(oi, ni) then
      [EditOp(Keep, oi, ni)] + Script(ms[1..], oi + 1, ni + 1, n, m)
    else if oi < (if ms == [] then n else ms[0].oldIdx) then
      [EditOp(Del, oi, ni)] + Script(ms, oi + 1, ni, n, m)
    else if ni < (if ms == [] then m else ms[0].newIdx) then
      [EditOp(Ins, oi, ni)] + Script(ms, oi, ni + 1, n, m)
    else
      []
  }

  ghost predicate InBounds(ms: seq<Match>, oi: nat, ni: nat, n: nat, m: nat)
    decreases |ms|
  {
    && oi <= n && ni <= m
    && (ms == [] ||
        (&& oi <= ms[0].oldIdx < n && ni <= ms[0].newIdx < m
         && InBounds(ms[1..], ms[0].oldIdx + 1, ms[0].newIdx + 1, n, m)))
  }

  method EmitOps(matches: seq<Match>, n: nat, m: nat) returns (ops: seq<EditOp>)
    requires InBounds(matches, 0, 0, n, m)
    ensures ops == Script(matches, 0, 0, n, m)
  {
    ops := [];
    var mi, oi, ni := 0, 0, 0;
    ghost var rest := matches;
    while oi < n || ni < m
      invariant mi <= |matches| && rest == matches[mi..]
      invariant InBounds(rest, oi, ni, n, m)
      invariant ops + Script(rest, oi, ni, n, m) == Script(matches, 0, 0, n, m)
      decreases n - oi + m - ni
    {
      ghost var before, whole := ops, Script(rest, oi, ni, n, m);
      if mi < |matches| && matches[mi].oldIdx == oi && matches[mi].newIdx == ni {
        ops := ops + [EditOp(Keep, oi, ni)];
        oi, ni, mi, rest := oi + 1, ni + 1, mi + 1, rest[1..];
      } else if mi < |matches| && matches[mi].oldIdx > oi {
        ops := ops + [EditOp(Del, oi, ni)];
        oi := oi + 1;
      } else if mi < |matches| && matches[mi].newIdx > ni {
        ops := ops + [EditOp(Ins, oi, ni)];
        ni := ni + 1;
      } else if oi < n && ni < m {
        ops := ops + [EditOp(Del, oi, ni)];
        oi := oi + 1;
      } else if oi < n {
        ops := ops + [EditOp(Del, oi, ni)];
        oi := oi + 1;
      } else {
        ops := ops + [EditOp(Ins, oi, ni)];
        ni := ni + 1;
      }
      assert whole == [ops[|before|]] + Script(rest, oi, ni, n, m);
      Regroup(before, ops[|before|], Script(rest, oi, ni, n, m));
    }
  }

  method ComputeEditOps<K(==)>(src: seq<K>, dst: seq<K>) returns (ops: seq<EditOp>)
    ensures InBounds(Greedy(src, dst), 0, 0, |src|, |dst|)
    ensures ops == Script(Greedy(src, dst), 0, 0, |src|, |dst|)
  {
    GreedyValid(src, dst, 0, 0);
    ValidInBounds(src, dst, 0, 0, Greedy(src, dst));
    var matches := FindMatches(src, dst);
    ops := EmitOps(matches, |src|, |dst|);
  }

  lemma {:induction false} GreedyValid<K>(src: seq<K>, dst: seq<K>, oi: nat, ni: nat)
    requires oi <= |src| && ni <= |dst|
    ensures ValidFrom(src, dst, oi, ni, GreedyFrom(src, dst, oi, ni))
    decreases |src| - oi
  {
    if oi < |src| {
      var p := FirstAt(dst, src[oi], ni);
      if p == -1 {
        GreedyValid(src, dst, oi + 1, ni);
        ValidWeaken(src, dst, oi, ni, oi + 1, ni, GreedyFrom(src, dst, oi + 1, ni));
      } else {
        GreedyValid(src, dst, oi + 1, p + 1);
      }
    }
  }

  lemma ValidWeaken<K>(src: seq<K>, dst: seq<K>, oi: nat, ni: nat, oi': nat, ni': nat, ms: seq<Match>)
    requires oi <= oi' && ni <= ni' && ValidFrom(src, dst, oi', ni', ms)
    ensures ValidFrom(src, dst, oi, ni, ms)
  {
  }

  lemma {:induction false} ValidInBounds<K>(src: seq<K>, dst: seq<K>, oi: nat, ni: nat, ms: seq<Match>)
    requires ValidFrom(src, dst, oi, ni, ms) && oi <= |src| && ni <= |dst|
    ensures InBounds(ms, oi, ni, |src|, |dst|)
    ensures |ms| <= |src| - oi && |ms| <= |dst| - ni
    decreases |ms|
  {
    if ms != [] {
      ValidInBounds(src, dst, ms[0].oldIdx + 1, ms[0].newIdx + 1, ms[1..]);
    }
  }

  // ---- what the script means ------------------------------------------------------------------------------

  /** Running the script consumes old lines oi..n-1 and produces new lines ni..m-1, each once and in order. */
  ghost predicate Replays(ops: seq<EditOp>, oi: nat, ni: nat, n: nat, m: nat)
    decreases |ops|
  {
    if ops == [] then oi == n && ni == m
    else match ops[0].kind
      case Keep => ops[0].oldLine == oi && ops[0].newLine == ni && Replays(ops[1..], oi + 1, ni + 1, n, m)
      case Del => ops[0].oldLine == oi && Replays(ops[1..], oi + 1, ni, n, m)
      case Ins => ops[0].newLine == ni && Replays(ops[1..], oi, ni + 1, n, m)
  }

  /** The pairs a script keeps. */
  ghost function Keeps(ops: seq<EditOp>): seq<Match> {
    if ops == [] then []
    else if ops[0].kind.Keep? then [Match(ops[0].oldLine, ops[0].newLine)] + Keeps(ops[1..])
    else Keeps(ops[1..])
  }

  ghost function Count(ops: seq<EditOp>, kind: EditKind): nat {
    if ops == [] then 0 else (if ops[0].kind == kind then 1 else 0) + Count(ops[1..], kind)
  }

  /** The text the script builds: kept lines are copied from the old text, inserted ones from the new. */
  ghost function Patch<K>(ops: seq<EditOp>, src: seq<K>, dst: seq<K>): seq<K>
    requires forall op :: op in ops ==> (op.kind.Keep? ==> op.oldLine < |src|) && (op.kind.Ins? ==> op.newLine < |dst|)
  {
    if ops == [] then []
    else
      (match ops[0].kind
       case Keep => [src[ops[0].oldLine]]
       case Del => []
       case Ins => [dst[ops[0].newLine]]) + Patch(ops[1..], src, dst)
  }

  lemma {:induction false} ScriptReplays(ms: seq<Match>, oi: nat, ni: nat, n: nat, m: nat)
    requires InBounds(ms, oi, ni, n, m)
    ensures var ops := Script(ms, oi, ni, n, m);
            && Replays(ops, oi, ni, n, m)
            && Keeps(ops) == ms
            && Count(ops, Del) == n - oi - |ms|
            && Count(ops, Ins) == m - ni - |ms|
    decreases n - oi + m - ni
  {
    if ms != [] && ms[0] == Match(oi, ni) {
      ScriptReplays(ms[1..], oi + 1, ni + 1, n, m);
    } else if oi < (if ms == [] then n else ms[0].oldIdx) {
      ScriptReplays(ms, oi + 1, ni, n, m);
    } else if ni < (if ms == [] then m else ms[0].newIdx) {
      ScriptReplays(ms, oi, ni + 1, n, m);
    }
  }

  /** Applying the script to the old keys yields the new keys. */
  lemma {:induction false} ScriptPatches<K>(src: seq<K>, dst: seq<K>, ms: seq<Match>, oi: nat, ni: nat)
    requires ValidFrom(src, dst, oi, ni, ms) && InBounds(ms, oi, ni, |src|, |dst|)
    ensures var ops := Script(ms, oi, ni, |src|, |dst|);
            && (forall op :: op in ops ==> (op.kind.Keep? ==> op.oldLine < |src|) && (op.kind.Ins? ==> op.newLine < |dst|))
            && Patch(ops, src, dst) == dst[ni..]
    decreases |src| - oi + |dst| - ni
  {
    if ms != [] && ms[0] == Match(oi, ni) {
      ScriptPatches(src, dst, ms[1..], oi + 1, ni + 1);
    } else if oi < (if ms == [] then |src| else ms[0].oldIdx) {
      ScriptPatches(src, dst, ms, oi + 1, ni);
    } else if ni < (if ms == [] then |dst| else ms[0].newIdx) {
      ScriptPatches(src, dst, ms, oi, ni + 1);
    }
  }

  // ---- the line map ---------------------------------------------------------------------------------------

  /** One-based new line of old index i, 0 when no pair keeps it. */
  function Image(ms: seq<Match>, i: int): nat {
    if ms == [] then 0
    else if ms[0].oldIdx == i then ms[0].newIdx + 1
    else Image(ms[1..], i)
  }

  function DirectOf(ms: seq<Match>, n: nat): seq<nat> {
    seq(n, i => Image(ms, i))
  }

  method BuildLineMapping(oldLen: nat, newLen: nat, ops: seq<EditOp>) returns (mapping: LineMapping)
    requires Replays(ops, 0, 0, oldLen, newLen)
    ensures mapping == Direct(DirectOf(Keeps(ops), oldLen))
  {
    var direct := new nat[oldLen](_ => 0);
    ghost var oi, ni := 0, 0;
    for k := 0 to |ops|
      invariant oi <= oldLen && Replays(ops[k..], oi, ni, oldLen, newLen)
      invariant forall i :: oi <= i < oldLen ==> direct[i] == 0
      invariant forall i :: 0 <= i < oldLen ==>
          Image(Keeps(ops), i) == (if i < oi then direct[i] else Image(Keeps(ops[k..]), i))
    {
      assert ops[k..][1..] == ops[k + 1..];
      ReplaysBounds(ops[k..], oi, ni, oldLen, newLen);
      if ops[k].kind.Keep? {
        direct[ops[k].oldLine] := ops[k].newLine + 1;
      }
      KeepsFrom(ops[k + 1..], oi + (if ops[k].kind.Ins? then 0 else 1), ni + (if ops[k].kind.Del? then 0 else 1), oldLen, newLen);
      oi := oi + if ops[k].kind.Ins? then 0 else 1;
      ni := ni + if ops[k].kind.Del? then 0 else 1;
    }
    mapping := Direct(direct[..]);
    assert forall i :: 0 <= i < oldLen ==> direct[..][i] == DirectOf(Keeps(ops), oldLen)[i];
  }

  lemma ReplaysBounds(ops: seq<EditOp>, oi: nat, ni: nat, n: nat, m: nat)
    requires Replays(ops, oi, ni, n, m)
    ensures oi <= n && ni <= m
    ensures ops != [] && !ops[0].kind.Ins? ==> oi < n
  {
    if ops != [] {
      ReplaysBounds(ops[1..], oi + (if ops[0].kind.Ins? then 0 else 1), ni + (if ops[0].kind.Del? then 0 else 1), n, m);
    }
  }

  /** The rest of a script keeps no line that was already passed. */
  lemma KeepsFrom(ops: seq<EditOp>, oi: nat, ni: nat, n: nat, m: nat)
    requires Replays(ops, oi, ni, n, m)
    ensures forall i :: i < oi ==> Image(Keeps(ops), i) == 0
  {
    if ops != [] {
      KeepsFrom(ops[1..], oi + (if ops[0].kind.Ins? then 0 else 1), ni + (if ops[0].kind.Del? then 0 else 1), n, m);
    }
  }

  // ---- the whole computation ------------------------------------------------------------------------------

  function DriftOf<K(==)>(oldSource: string, newSource: string, hash: string -> K): DriftResult {
    var n, m := |Lines(oldSource)|, |Lines(newSource)|;
    if oldSource == newSource then
      DriftResult(0, 0, Identity(n))
    else
      var src, dst := Keys(Lines(oldSource), hash), Keys(Lines(newSource), hash);
      var ms := Greedy(src, dst);
      GreedyValid(src, dst, 0, 0);
      ValidInBounds(src, dst, 0, 0, ms);
      DriftResult(m - |ms|, n - |ms|, Direct(DirectOf(ms, n)))
  }

  method CountOps(ops: seq<EditOp>, kind: EditKind) returns (c: nat)
    ensures c == Count(ops, kind)
  {
    c := 0;
    for i := 0 to |ops|
      invariant c + Count(ops[i..], kind) == Count(ops, kind)
    {
      assert ops[i..][1..] == ops[i + 1..];
      if ops[i].kind == kind {
        c := c + 1;
      }
    }
  }

  method ComputeLineDrift<K(==)>(oldSource: string, newSource: string, hash: string -> K) returns (r: DriftResult)
    ensures r == DriftOf(oldSource, newSource, hash)
  {
    var oldLines, newLines := Lines(oldSource), Lines(newSource);
    if oldSource == newSource {
      return DriftResult(0, 0, Identity(|oldLines|));
    }
    var src, dst := Keys(oldLines, hash), Keys(newLines, hash);
    var ops := ComputeEditOps(src, dst);
    ScriptReplays(Greedy(src, dst), 0, 0, |src|, |dst|);
    var mapping := BuildLineMapping(|oldLines|, |newLines|, ops);
    var added := CountOps(ops, Ins);
    var removed := CountOps(ops, Del);
    r := DriftResult(added, removed, mapping);
  }

  /** The images of the ranges that survive, in order. */
  ghost function Survivors(mapping: LineMapping, ranges: seq<LineRange>): seq<LineRange> {
    if ranges == [] then []
    else
      match mapping.RemapRange(ranges[0])
      case None => Survivors(mapping, ranges[1..])
      case Some(r) => [r] + Survivors(mapping, ranges[1..])
  }

  method RemapLineRanges<K(==)>(oldSource: string, newSource: string, ranges: seq<LineRange>, hash: string -> K)
    returns (remapped: seq<LineRange>)
    ensures remapped == Survivors(DriftOf(oldSource, newSource, hash).mapping, ranges)
  {
    var drift := ComputeLineDrift(oldSource, newSource, hash);
    remapped := [];
    for i := 0 to |ranges|
      invariant remapped + Survivors(drift.mapping, ranges[i..]) == Survivors(drift.mapping, ranges)
    {
      assert ranges[i..][1..] == ranges[i + 1..];
      var updated := drift.mapping.RemapRange(ranges[i]);
      if updated.Some? {
        remapped := remapped + [updated.value];
      }
    }
  }

  method RangeStillExists<K(==)>(oldSource: string, newSource: string, range: LineRange, hash: string -> K)
    returns (b: bool)
    ensures b <==> DriftOf(oldSource, newSource, hash).mapping.RemapRange(range).Some?
  {
    var drift := ComputeLineDrift(oldSource, newSource, hash);
    b := drift.mapping.RemapRange(range) != None;
  }
}
