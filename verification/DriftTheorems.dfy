/** What line drift guarantees, and exactly where its documentation promises more than the code keeps. */
module DriftTheorems {
  import opened LineDrift

  // ---- pure insertion -------------------------------------------------------------------------------------

  ghost predicate Increasing(f: seq<nat>) {
    forall i, j :: 0 <= i < j < |f| ==> f[i] < f[j]
  }

  ghost predicate IsEmbedding<K>(f: seq<nat>, a: seq<K>, b: seq<K>) {
    && |f| == |a|
    && Increasing(f)
    && forall i :: 0 <= i < |f| ==> f[i] < |b| && b[f[i]] == a[i]
  }

  ghost predicate Subsequence<K>(a: seq<K>, b: seq<K>) {
    exists f :: IsEmbedding(f, a, b)
  }

  /** Exchange argument: wherever an embedding of the remaining old lines fits, the greedy choice fits. */
  lemma {:induction false} GreedyTakesAll<K>(src: seq<K>, dst: seq<K>, oi: nat, ni: nat, f: seq<nat>)
    requires oi <= |src| && ni <= |dst|
    requires IsEmbedding(f, src[oi..], dst) && (f != [] ==> ni <= f[0])
    ensures |GreedyFrom(src, dst, oi, ni)| == |src| - oi
    decreases |src| - oi
  {
    if oi < |src| {
      assert src[oi..][0] == src[oi];
      var p := FirstAt(dst, src[oi], ni);
      assert p != -1 && p <= f[0];
      assert src[oi..][1..] == src[oi + 1..];
      assert forall i :: 0 <= i < |f[1..]| ==> f[1..][i] == f[i + 1] && src[oi + 1..][i] == src[oi..][i + 1];
      GreedyTakesAll(src, dst, oi + 1, p + 1, f[1..]);
    }
  }

  /** Pairs for every remaining old line form an embedding. */
  lemma {:induction false} FullPairsEmbed<K>(src: seq<K>, dst: seq<K>, oi: nat, ni: nat, ms: seq<Match>) returns (f: seq<nat>)
    requires ValidFrom(src, dst, oi, ni, ms) && oi <= |src| && ni <= |dst| && |ms| == |src| - oi
    ensures IsEmbedding(f, src[oi..], dst) && (f != [] ==> ni <= f[0])
    decreases |ms|
  {
    if ms == [] {
      f := [];
    } else {
      ValidInBounds(src, dst, ms[0].oldIdx + 1, ms[0].newIdx + 1, ms[1..]);
      assert ms[0].oldIdx == oi;
      var g := FullPairsEmbed(src, dst, oi + 1, ms[0].newIdx + 1, ms[1..]);
      f := [ms[0].newIdx] + g;
      assert forall i :: 0 < i < |f| ==> f[i] == g[i - 1] && src[oi..][i] == src[oi + 1..][i - 1];
    }
  }

  /** No line is reported removed exactly when the old keys form a subsequence of the new keys. */
  lemma PureInsertionExact<K>(oldSource: string, newSource: string, hash: string -> K)
    ensures DriftOf(oldSource, newSource, hash).removed == 0
            <==> Subsequence(Keys(Lines(oldSource), hash), Keys(Lines(newSource), hash))
  {
    var src, dst := Keys(Lines(oldSource), hash), Keys(Lines(newSource), hash);
    GreedyValid(src, dst, 0, 0);
    ValidInBounds(src, dst, 0, 0, Greedy(src, dst));
    assert src[0..] == src;
    if oldSource == newSource {
      assert IsEmbedding(seq(|src|, i => i), src, dst);
    } else {
      if Subsequence(src, dst) {
        var f :| IsEmbedding(f, src, dst);
        GreedyTakesAll(src, dst, 0, 0, f);
      }
      if |Greedy(src, dst)| == |src| {
        var f := FullPairsEmbed(src, dst, 0, 0, Greedy(src, dst));
      }
    }
  }

  // ---- pure deletion --------------------------------------------------------------------------------------

  /** The new text is the old one with lines dropped, none of which comes back later: a scan a caller can run. */
  predicate CleanDeletion<K(==)>(src: seq<K>, dst: seq<K>) {
    if src == [] then dst == []
    else if dst != [] && src[0] == dst[0] then CleanDeletion(src[1..], dst[1..])
    else src[0] !in dst && CleanDeletion(src[1..], dst)
  }

  lemma {:induction false} GreedyCoversNew<K>(src: seq<K>, dst: seq<K>, oi: nat, ni: nat)
    requires oi <= |src| && ni <= |dst|
    ensures |GreedyFrom(src, dst, oi, ni)| == |dst| - ni <==> CleanDeletion(src[oi..], dst[ni..])
    decreases |src| - oi
  {
    if oi < |src| {
      var p := FirstAt(dst, src[oi], ni);
      var s, d := src[oi..], dst[ni..];
      assert s[0] == src[oi] && s[1..] == src[oi + 1..];
      if p == -1 {
        GreedyCoversNew(src, dst, oi + 1, ni);
        assert src[oi] !in d;
      } else {
        GreedyCoversNew(src, dst, oi + 1, p + 1);
        GreedyValid(src, dst, oi + 1, p + 1);
        ValidInBounds(src, dst, oi + 1, p + 1, GreedyFrom(src, dst, oi + 1, p + 1));
        assert d[p - ni] == src[oi];
        if p == ni {
          assert d[1..] == dst[ni + 1..];
        } else {
          assert d[0] != s[0];
        }
      }
    } else {
      assert src[oi..] == [];
    }
  }

  /** No line is reported added exactly when the change is a clean deletion. */
  lemma PureDeletionExact<K>(oldSource: string, newSource: string, hash: string -> K)
    ensures DriftOf(oldSource, newSource, hash).added == 0
            <==> CleanDeletion(Keys(Lines(oldSource), hash), Keys(Lines(newSource), hash))
  {
    var src, dst := Keys(Lines(oldSource), hash), Keys(Lines(newSource), hash);
    GreedyValid(src, dst, 0, 0);
    ValidInBounds(src, dst, 0, 0, Greedy(src, dst));
    GreedyCoversNew(src, dst, 0, 0);
    assert src[0..] == src && dst[0..] == dst;
    if oldSource == newSource {
      CleanDeletionOfNothing(src);
    }
  }

  lemma CleanDeletionOfNothing<K>(s: seq<K>)
    ensures CleanDeletion(s, s)
  {
  }

  /** The mirror of pure insertion fails: the new text can be a subsequence of the old one and still count as
      adding lines. */
  lemma SubsequenceMayAdd()
    ensures var src, dst := [1, 0, 1], [0, 1];
            Subsequence(dst, src) && |Greedy(src, dst)| == 1 && |dst| == 2
  {
    assert IsEmbedding([1, 2], [0, 1], [1, 0, 1]);
    var src, dst := [1, 0, 1], [0, 1];
    assert FirstAt(dst, 1, 0) == 1;
    assert FirstAt(dst, 0, 2) == -1;
    assert GreedyFrom(src, dst, 3, 2) == [];
    assert GreedyFrom(src, dst, 2, 2) == [];
    assert GreedyFrom(src, dst, 1, 2) == [];
  }

  /** Lines added minus lines removed is the growth of the file. */
  lemma DriftBalance<K>(oldSource: string, newSource: string, hash: string -> K)
    ensures var d := DriftOf(oldSource, newSource, hash);
            d.added - d.removed == |Lines(newSource)| - |Lines(oldSource)|
  {
  }

  // ---- is the script minimal? -----------------------------------------------------------------------------

  ghost predicate IsEditScript<K>(ops: seq<EditOp>, src: seq<K>, dst: seq<K>) {
    && Replays(ops, 0, 0, |src|, |dst|)
    && ValidFrom(src, dst, 0, 0, Keeps(ops))
  }

  /** The documented claim: no script that turns src into dst has fewer steps. */
  ghost predicate Minimal<K(!new)>(ops: seq<EditOp>, src: seq<K>, dst: seq<K>) {
    IsEditScript(ops, src, dst) && forall other :: IsEditScript(other, src, dst) ==> |ops| <= |other|
  }

  /** The most lines any edit can keep of src[oi..] among dst[ni..]. */
  function Best<K(==)>(src: seq<K>, dst: seq<K>, oi: nat, ni: nat): nat
    requires oi <= |src| && ni <= |dst|
    decreases |src| - oi
  {
    if oi == |src| then 0
    else
      var skip := Best(src, dst, oi + 1, ni);
      var p := FirstAt(dst, src[oi], ni);
      if p == -1 then skip
      else
        var take := 1 + Best(src, dst, oi + 1, p + 1);
        if take >= skip then take else skip
  }

  /** No greedy pair costs two or more kept lines: what it jumps over is worth at most the pair itself. */
  predicate NoRegret<K(==)>(src: seq<K>, dst: seq<K>, oi: nat, ni: nat)
    requires oi <= |src| && ni <= |dst|
    decreases |src| - oi
  {
    oi == |src| ||
    var p := FirstAt(dst, src[oi], ni);
    if p == -1 then NoRegret(src, dst, oi + 1, ni)
    else Best(src, dst, oi + 1, ni) <= Best(src, dst, oi + 1, p + 1) + 1 && NoRegret(src, dst, oi + 1, p + 1)
  }

  lemma {:induction false} BestIsUpperBound<K>(src: seq<K>, dst: seq<K>, oi: nat, ni: nat, ms: seq<Match>)
    requires oi <= |src| && ni <= |dst| && ValidFrom(src, dst, oi, ni, ms)
    ensures |ms| <= Best(src, dst, oi, ni)
    decreases |src| - oi
  {
    if oi < |src| && ms != [] {
      if ms[0].oldIdx > oi {
        BestIsUpperBound(src, dst, oi + 1, ni, ms);
      } else {
        var p := FirstAt(dst, src[oi], ni);
        ValidWeaken(src, dst, oi + 1, p + 1, oi + 1, ms[0].newIdx + 1, ms[1..]);
        BestIsUpperBound(src, dst, oi + 1, p + 1, ms[1..]);
      }
    }
  }

  lemma {:induction false} BestIsReached<K>(src: seq<K>, dst: seq<K>, oi: nat, ni: nat) returns (ms: seq<Match>)
    requires oi <= |src| && ni <= |dst|
    ensures ValidFrom(src, dst, oi, ni, ms) && |ms| == Best(src, dst, oi, ni)
    decreases |src| - oi
  {
    if oi == |src| {
      ms := [];
    } else {
      var p := FirstAt(dst, src[oi], ni);
      if p != -1 && 1 + Best(src, dst, oi + 1, p + 1) >= Best(src, dst, oi + 1, ni) {
        var rest := BestIsReached(src, dst, oi + 1, p + 1);
        ms := [Match(oi, p)] + rest;
      } else {
        ms := BestIsReached(src, dst, oi + 1, ni);
        ValidWeaken(src, dst, oi, ni, oi + 1, ni, ms);
      }
    }
  }

  lemma {:induction false} GreedyBestExact<K>(src: seq<K>, dst: seq<K>, oi: nat, ni: nat)
    requires oi <= |src| && ni <= |dst|
    ensures |GreedyFrom(src, dst, oi, ni)| <= Best(src, dst, oi, ni)
    ensures |GreedyFrom(src, dst, oi, ni)| == Best(src, dst, oi, ni) <==> NoRegret(src, dst, oi, ni)
    decreases |src| - oi
  {
    if oi < |src| {
      var p := FirstAt(dst, src[oi], ni);
      if p == -1 {
        GreedyBestExact(src, dst, oi + 1, ni);
      } else {
        GreedyBestExact(src, dst, oi + 1, p + 1);
        var skip, take := Best(src, dst, oi + 1, ni), 1 + Best(src, dst, oi + 1, p + 1);
        assert Best(src, dst, oi, ni) == if take >= skip then take else skip;
        assert |GreedyFrom(src, dst, oi, ni)| == 1 + |GreedyFrom(src, dst, oi + 1, p + 1)|;
      }
    }
  }

  /** A script's length is fixed by how many lines it keeps. */
  lemma {:induction false} ScriptLength(ops: seq<EditOp>, oi: nat, ni: nat, n: nat, m: nat)
    requires Replays(ops, oi, ni, n, m)
    ensures |ops| == n - oi + m - ni - |Keeps(ops)|
    decreases |ops|
  {
    if ops != [] {
      ScriptLength(ops[1..], oi + (if ops[0].kind.Ins? then 0 else 1), ni + (if ops[0].kind.Del? then 0 else 1), n, m);
    }
  }

  /** The greedy script is minimal exactly when no pair is regretted. */
  lemma MinimalExact<K(!new)>(src: seq<K>, dst: seq<K>)
    ensures InBounds(Greedy(src, dst), 0, 0, |src|, |dst|)
    ensures Minimal(Script(Greedy(src, dst), 0, 0, |src|, |dst|), src, dst) <==> NoRegret(src, dst, 0, 0)
  {
    var n, m := |src|, |dst|;
    var ms := Greedy(src, dst);
    GreedyValid(src, dst, 0, 0);
    ValidInBounds(src, dst, 0, 0, ms);
    ScriptReplays(ms, 0, 0, n, m);
    var ops := Script(ms, 0, 0, n, m);
    ScriptLength(ops, 0, 0, n, m);
    GreedyBestExact(src, dst, 0, 0);
    var best := BestIsReached(src, dst, 0, 0);
    ValidInBounds(src, dst, 0, 0, best);
    ScriptReplays(best, 0, 0, n, m);
    ScriptLength(Script(best, 0, 0, n, m), 0, 0, n, m);
    assert IsEditScript(Script(best, 0, 0, n, m), src, dst);
    forall other | IsEditScript(other, src, dst) ensures |other| >= n + m - Best(src, dst, 0, 0) {
      ScriptLength(other, 0, 0, n, m);
      BestIsUpperBound(src, dst, 0, 0, Keeps(other));
    }
  }

  /** No two later old lines could be kept, in order, among the new lines ni..p. */
  predicate NoTwoAmong<K(==)>(src: seq<K>, dst: seq<K>, oi: nat, ni: nat, p: nat)
    requires oi <= |src| && p < |dst|
  {
    forall i, i', j, j' :: oi <= i < i' < |src| && ni <= j < j' <= p ==> !(src[i] == dst[j] && src[i'] == dst[j'])
  }

  /** Among the new lines a greedy pair skips or takes there is never room for two later lines. */
  predicate NoMoves<K(==)>(src: seq<K>, dst: seq<K>, oi: nat, ni: nat)
    requires oi <= |src| && ni <= |dst|
    decreases |src| - oi
  {
    oi == |src| ||
    var p := FirstAt(dst, src[oi], ni);
    if p == -1 then NoMoves(src, dst, oi + 1, ni)
    else NoTwoAmong(src, dst, oi + 1, ni, p) && NoMoves(src, dst, oi + 1, p + 1)
  }

  lemma SecondIsBeyond<K>(src: seq<K>, dst: seq<K>, oi: nat, ni: nat, p: nat, ms: seq<Match>)
    requires oi <= |src| && ni <= p < |dst| && NoTwoAmong(src, dst, oi, ni, p)
    requires ValidFrom(src, dst, oi, ni, ms) && |ms| >= 2
    ensures ms[1].newIdx > p
  {
    assert ms[1..][0] == ms[1];
    assert oi <= ms[0].oldIdx < ms[1].oldIdx < |src| && ni <= ms[0].newIdx < ms[1].newIdx < |dst|;
    assert src[ms[0].oldIdx] == dst[ms[0].newIdx] && src[ms[1].oldIdx] == dst[ms[1].newIdx];
  }

  /** New lines with room for at most one kept line cost at most one when they are skipped. */
  lemma SkippingCostsOne<K>(src: seq<K>, dst: seq<K>, oi: nat, ni: nat, p: nat)
    requires oi <= |src| && ni <= p < |dst| && NoTwoAmong(src, dst, oi, ni, p)
    ensures Best(src, dst, oi, ni) <= Best(src, dst, oi, p + 1) + 1
  {
    var ms := BestIsReached(src, dst, oi, ni);
    if |ms| >= 2 {
      SecondIsBeyond(src, dst, oi, ni, p, ms);
      assert ms[1..][0] == ms[1];
      BestIsUpperBound(src, dst, oi, p + 1, ms[1..]);
    }
  }

  /** A condition that mentions lines only: where it holds the script is minimal. */
  lemma {:induction false} NoMovesNoRegret<K>(src: seq<K>, dst: seq<K>, oi: nat, ni: nat)
    requires oi <= |src| && ni <= |dst| && NoMoves(src, dst, oi, ni)
    ensures NoRegret(src, dst, oi, ni)
    decreases |src| - oi
  {
    if oi < |src| {
      var p := FirstAt(dst, src[oi], ni);
      if p == -1 {
        NoMovesNoRegret(src, dst, oi + 1, ni);
      } else {
        SkippingCostsOne(src, dst, oi + 1, ni, p);
        NoMovesNoRegret(src, dst, oi + 1, p + 1);
      }
    }
  }

  /** Moving the first of three lines to the end keeps one line where two could be kept. */
  lemma NotMinimalWhenMoved()
    ensures !NoRegret([0, 1, 2], [1, 2, 0], 0, 0)
    ensures |Greedy([0, 1, 2], [1, 2, 0])| == 1 && Best([0, 1, 2], [1, 2, 0], 0, 0) == 2
  {
    var src, dst := [0, 1, 2], [1, 2, 0];
    assert FirstAt(dst, 0, 0) == 2;
    assert FirstAt(dst, 1, 3) == -1 && FirstAt(dst, 2, 3) == -1;
    assert FirstAt(dst, 1, 0) == 0;
    assert FirstAt(dst, 2, 1) == 1;
    assert FirstAt(dst, 2, 0) == 1;
    assert Best(src, dst, 3, 0) == Best(src, dst, 3, 1) == Best(src, dst, 3, 2) == Best(src, dst, 3, 3) == 0;
    assert Best(src, dst, 2, 1) == 1 && Best(src, dst, 2, 0) == 1 && Best(src, dst, 2, 3) == 0;
    assert Best(src, dst, 1, 0) == 2 && Best(src, dst, 1, 3) == 0;
    assert GreedyFrom(src, dst, 3, 3) == [];
    assert GreedyFrom(src, dst, 2, 3) == [];
    assert GreedyFrom(src, dst, 1, 3) == [];
  }
}
