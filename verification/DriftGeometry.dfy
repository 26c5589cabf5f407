/** How line ranges travel: order, containment, overlap, and what a surviving range says about its lines. */
module DriftGeometry {
  import opened Text
  import opened Ranges
  import opened LineDrift

  /** The line map the general path builds for two key sequences. */
  function MapOf<K(==)>(src: seq<K>, dst: seq<K>): LineMapping {
    Direct(DirectOf(Greedy(src, dst), |src|))
  }

  lemma {:induction false} ImageInRange<K>(src: seq<K>, dst: seq<K>, oi: nat, ni: nat, ms: seq<Match>, i: int)
    requires ValidFrom(src, dst, oi, ni, ms) && Image(ms, i) > 0
    ensures oi <= i < |src| && ni < Image(ms, i) <= |dst| && src[i] == dst[Image(ms, i) - 1]
    decreases |ms|
  {
    if ms[0].oldIdx != i {
      ImageInRange(src, dst, ms[0].oldIdx + 1, ms[0].newIdx + 1, ms[1..], i);
    }
  }

  lemma {:induction false} ImageIncreases<K>(src: seq<K>, dst: seq<K>, oi: nat, ni: nat, ms: seq<Match>, i: int, j: int)
    requires ValidFrom(src, dst, oi, ni, ms) && Image(ms, i) > 0 && Image(ms, j) > 0 && i < j
    ensures Image(ms, i) < Image(ms, j)
    decreases |ms|
  {
    var o, w := ms[0].oldIdx + 1, ms[0].newIdx + 1;
    if ms[0].oldIdx == i {
      ImageInRange(src, dst, o, w, ms[1..], j);
    } else if ms[0].oldIdx == j {
      ImageInRange(src, dst, o, w, ms[1..], i);
    } else {
      ImageIncreases(src, dst, o, w, ms[1..], i, j);
    }
  }

  lemma MapOfFacts<K>(src: seq<K>, dst: seq<K>, a: int, b: int)
    ensures var map_ := MapOf(src, dst);
            && (map_.MapLine(a) > 0 ==>
                 && 1 <= a <= |src| && map_.MapLine(a) <= |dst|
                 && src[a - 1] == dst[map_.MapLine(a) - 1])
            && (a < b && map_.MapLine(a) > 0 && map_.MapLine(b) > 0 ==> map_.MapLine(a) < map_.MapLine(b))
  {
    var ms := Greedy(src, dst);
    GreedyValid(src, dst, 0, 0);
    if MapOf(src, dst).MapLine(a) > 0 {
      ImageInRange(src, dst, 0, 0, ms, a - 1);
      if a < b && MapOf(src, dst).MapLine(b) > 0 {
        ImageIncreases(src, dst, 0, 0, ms, a - 1, b - 1);
      }
    }
  }

  /** Surviving lines keep their key and their order, and land inside the new file. */
  lemma LinesKeepOrder<K>(oldSource: string, newSource: string, hash: string -> K, a: int, b: int)
    ensures var map_ := DriftOf(oldSource, newSource, hash).mapping;
            var src, dst := Keys(Lines(oldSource), hash), Keys(Lines(newSource), hash);
            && (map_.MapLine(a) > 0 ==>
                 && 1 <= a <= |src| && map_.MapLine(a) <= |dst|
                 && src[a - 1] == dst[map_.MapLine(a) - 1])
            && (a < b && map_.MapLine(a) > 0 && map_.MapLine(b) > 0 ==> map_.MapLine(a) < map_.MapLine(b))
  {
    MapOfFacts(Keys(Lines(oldSource), hash), Keys(Lines(newSource), hash), a, b);
  }

  lemma OrderReflected<K>(src: seq<K>, dst: seq<K>, a: int, b: int)
    requires MapOf(src, dst).MapLine(a) > 0 && MapOf(src, dst).MapLine(b) > 0
    ensures MapOf(src, dst).MapLine(a) <= MapOf(src, dst).MapLine(b) <==> a <= b
  {
    MapOfFacts(src, dst, a, b);
    MapOfFacts(src, dst, b, a);
  }

  /** A surviving well-formed range stays well formed, and its surviving lines are exactly the surviving lines
      that land inside its image. */
  lemma RangeKeepsItsLines<K>(oldSource: string, newSource: string, hash: string -> K, r: LineRange, l: int)
    requires r.start <= r.end
    ensures var map_ := DriftOf(oldSource, newSource, hash).mapping;
            map_.RemapRange(r).Some? ==>
              var q := map_.RemapRange(r).value;
              && q.start <= q.end
              && (map_.MapLine(l) > 0 ==>
                   (r.start <= l <= r.end <==> q.start <= map_.MapLine(l) <= q.end))
  {
    if oldSource != newSource {
      var src, dst := Keys(Lines(oldSource), hash), Keys(Lines(newSource), hash);
      var map_ := MapOf(src, dst);
      assert map_ == DriftOf(oldSource, newSource, hash).mapping;
      if map_.RemapRange(r).Some? {
        OrderReflected(src, dst, r.start, r.end);
        if map_.MapLine(l) > 0 {
          OrderReflected(src, dst, r.start, l);
          OrderReflected(src, dst, l, r.end);
        }
      }
    }
  }

  /** Two ranges that both survive overlap afterwards exactly when they overlapped before. */
  lemma OverlapIsKept<K>(oldSource: string, newSource: string, hash: string -> K, a: LineRange, b: LineRange)
    requires DriftOf(oldSource, newSource, hash).mapping.RemapRange(a).Some?
    requires DriftOf(oldSource, newSource, hash).mapping.RemapRange(b).Some?
    ensures var map_ := DriftOf(oldSource, newSource, hash).mapping;
            RangesIntersect(map_.RemapRange(a).value, map_.RemapRange(b).value) <==> RangesIntersect(a, b)
  {
    if oldSource != newSource {
      var src, dst := Keys(Lines(oldSource), hash), Keys(Lines(newSource), hash);
      var map_ := MapOf(src, dst);
      assert map_ == DriftOf(oldSource, newSource, hash).mapping;
      OrderReflected(src, dst, a.start, b.end);
      OrderReflected(src, dst, b.start, a.end);
    }
  }

  ghost predicate PairwiseDisjoint(rs: seq<LineRange>) {
    forall i, j :: 0 <= i < j < |rs| ==> !RangesIntersect(rs[i], rs[j])
  }

  lemma {:induction false} SurvivorOf(map_: LineMapping, rs: seq<LineRange>, i: nat) returns (j: nat)
    requires i < |Survivors(map_, rs)|
    ensures j < |rs| && map_.RemapRange(rs[j]) == Some(Survivors(map_, rs)[i])
    decreases |rs|
  {
    if map_.RemapRange(rs[0]) == None {
      j := SurvivorOf(map_, rs[1..], i);
      j := j + 1;
    } else if i == 0 {
      j := 0;
    } else {
      j := SurvivorOf(map_, rs[1..], i - 1);
      j := j + 1;
    }
  }

  /** Remapping never makes separate claims collide: pairwise disjoint ranges stay pairwise disjoint. */
  lemma {:induction false} DisjointClaimsStayDisjoint<K>(oldSource: string, newSource: string, hash: string -> K, rs: seq<LineRange>)
    requires PairwiseDisjoint(rs)
    ensures PairwiseDisjoint(Survivors(DriftOf(oldSource, newSource, hash).mapping, rs))
    decreases |rs|
  {
    var map_ := DriftOf(oldSource, newSource, hash).mapping;
    if rs != [] {
      assert PairwiseDisjoint(rs[1..]);
      DisjointClaimsStayDisjoint(oldSource, newSource, hash, rs[1..]);
      var tail := Survivors(map_, rs[1..]);
      if map_.RemapRange(rs[0]).Some? {
        var first := map_.RemapRange(rs[0]).value;
        forall j | 0 <= j < |tail| ensures !RangesIntersect(first, tail[j]) {
          var k := SurvivorOf(map_, rs[1..], j);
          OverlapIsKept(oldSource, newSource, hash, rs[0], rs[1..][k]);
        }
        assert forall i :: 0 < i < |Survivors(map_, rs)| ==> Survivors(map_, rs)[i] == tail[i - 1];
      }
    }
  }

  // ---- common runs of lines -------------------------------------------------------------------------------

  ghost predicate CommonRun<K>(src: seq<K>, dst: seq<K>, oi: nat, ni: nat, k: nat) {
    && oi + k <= |src| && ni + k <= |dst|
    && forall t :: oi <= t < oi + k ==> src[t] == dst[t + (ni - oi)]
  }

  /** Two runs with equal keys are matched line by line. */
  lemma {:induction false} GreedyFollowsCommonRun<K>(src: seq<K>, dst: seq<K>, oi: nat, ni: nat, k: nat, i: int)
    requires CommonRun(src, dst, oi, ni, k) && oi <= i
    ensures Image(GreedyFrom(src, dst, oi, ni), i)
            == if i < oi + k then ni + (i - oi) + 1 else Image(GreedyFrom(src, dst, oi + k, ni + k), i)
    decreases k
  {
    if k > 0 {
      assert src[oi] == dst[ni];
      assert FirstAt(dst, src[oi], ni) == ni;
      var rest := GreedyFrom(src, dst, oi + 1, ni + 1);
      assert GreedyFrom(src, dst, oi, ni) == [Match(oi, ni)] + rest;
      assert ([Match(oi, ni)] + rest)[1..] == rest;
      if i > oi {
        GreedyFollowsCommonRun(src, dst, oi + 1, ni + 1, k - 1, i);
      }
    }
  }

  /** Lines of the common prefix map to themselves. */
  lemma CommonPrefixIsFixed<K>(src: seq<K>, dst: seq<K>, k: nat, l: int)
    requires k <= |src| && k <= |dst| && src[..k] == dst[..k] && 1 <= l <= k
    ensures MapOf(src, dst).MapLine(l) == l
  {
    assert forall t :: 0 <= t < k ==> src[t] == src[..k][t] && dst[t] == dst[..k][t];
    assert CommonRun(src, dst, 0, 0, k);
    GreedyFollowsCommonRun(src, dst, 0, 0, k, l - 1);
  }

  /** On equal texts the fast path and the general path agree on every line, and on exactly the ranges whose two
      ends are lines of the file. */
  lemma FastPathAgrees<K>(s: seq<K>, l: int, r: LineRange)
    ensures MapOf(s, s).MapLine(l) == Identity(|s|).MapLine(l)
    ensures MapOf(s, s).RemapRange(r) == Identity(|s|).RemapRange(r)
            <==> 1 <= r.start <= |s| && 1 <= r.end <= |s|
  {
    forall l | 1 <= l <= |s| ensures MapOf(s, s).MapLine(l) == l {
      CommonPrefixIsFixed(s, s, |s|, l);
    }
  }
}
