/** Normal forms of resource paths: dot segments, separators, trailing slashes, letter case. */
module PathNormalize {
  // ---- dot segments ---------------------------------------------------------------------------------------

  /** One segment read with the stack of segments kept so far. */
  function Push(stack: seq<string>, part: string, drive: bool): seq<string> {
    if part == "." || part == "" then stack
    else if part == ".." then
      if stack != [] && stack[|stack| - 1] != ".." then stack[..|stack| - 1]
      else if !drive then stack + [".."]
      else stack
    else stack + [part]
  }

  function Resolve(stack: seq<string>, parts: seq<string>, drive: bool): seq<string>
    decreases |parts|
  {
    if parts == [] then stack else Resolve(Push(stack, parts[0], drive), parts[1..], drive)
  }

  method ResolveSegments(parts: seq<string>, drive: bool) returns (result: seq<string>)
    ensures result == Resolve([], parts, drive)
  {
    result := [];
    for i := 0 to |parts|
      invariant Resolve(result, parts[i..], drive) == Resolve([], parts, drive)
    {
      var part := parts[i];
      assert parts[i..][1..] == parts[i + 1..];
      if part == "." || part == "" {
        continue;
      }
      if part == ".." {
        if |result| > 0 && result[|result| - 1] != ".." {
          result := result[..|result| - 1];
        } else if !drive {
          result := result + [".."];
        }
      } else {
        result := result + [part];
      }
    }
  }

  predicate PlainName(s: string) {
    s != "" && s != "." && s != ".." && '/' !in s
  }

  /** k times "..", then plain names; on a drive there is nothing above the root, so k is 0. */
  ghost predicate Canonical(segments: seq<string>, k: nat, drive: bool) {
    && k <= |segments|
    && (forall i :: 0 <= i < k ==> segments[i] == "..")
    && (forall i :: k <= i < |segments| ==> PlainName(segments[i]))
    && (drive ==> k == 0)
  }

  ghost predicate SlashFree(parts: seq<string>) {
    forall i :: 0 <= i < |parts| ==> '/' !in parts[i]
  }

  /** Resolution always ends in the normal form. */
  lemma {:induction false} ResolveShape(stack: seq<string>, k: nat, parts: seq<string>, drive: bool) returns (k': nat)
    requires Canonical(stack, k, drive) && SlashFree(parts)
    ensures Canonical(Resolve(stack, parts, drive), k', drive)
    decreases |parts|
  {
    if parts == [] {
      k' := k;
    } else {
      var next := Push(stack, parts[0], drive);
      var kn := if parts[0] == ".." && |stack| == k && !drive then k + 1 else k;
      assert Canonical(next, kn, drive);
      k' := ResolveShape(next, kn, parts[1..], drive);
    }
  }

  /** A normal form resolves to itself. */
  lemma {:induction false} ResolveKeepsCanonical(stack: seq<string>, parts: seq<string>, k: nat, drive: bool)
    requires Canonical(stack + parts, k, drive)
    ensures Resolve(stack, parts, drive) == stack + parts
    decreases |parts|
  {
    if parts == [] {
      assert stack + parts == stack;
    } else {
      var all := stack + parts;
      assert all[|stack|] == parts[0];
      if stack != [] {
        assert all[|stack| - 1] == stack[|stack| - 1];
      }
      assert Push(stack, parts[0], drive) == stack + [parts[0]];
      assert stack + [parts[0]] + parts[1..] == all;
      ResolveKeepsCanonical(stack + [parts[0]], parts[1..], k, drive);
    }
  }

  lemma {:induction false} ResolveConcat(stack: seq<string>, a: seq<string>, b: seq<string>, drive: bool)
    ensures Resolve(stack, a + b, drive) == Resolve(Resolve(stack, a, drive), b, drive)
    decreases |a|
  {
    if a == [] {
      assert a + b == b;
    } else {
      assert (a + b)[1..] == a[1..] + b;
      ResolveConcat(Push(stack, a[0], drive), a[1..], b, drive);
    }
  }

  /** Resolving a prefix first changes nothing: resolution is an action of concatenation. */
  lemma ResolveIsAction(a: seq<string>, b: seq<string>, drive: bool)
    requires SlashFree(a)
    ensures Resolve([], a + b, drive) == Resolve([], Resolve([], a, drive) + b, drive)
  {
    var r := Resolve([], a, drive);
    var k := ResolveShape([], 0, a, drive);
    assert [] + r == r;
    ResolveKeepsCanonical([], r, k, drive);
    ResolveConcat([], a, b, drive);
    ResolveConcat([], r, b, drive);
  }

  // ---- what a path means ----------------------------------------------------------------------------------

  /** Following the segments from a directory; the root is its own parent. */
  function Walk(dir: seq<string>, parts: seq<string>): seq<string>
    decreases |parts|
  {
    if parts == [] then dir
    else
      var p := parts[0];
      Walk(if p == "." || p == "" then dir
           else if p == ".." then (if dir == [] then [] else dir[..|dir| - 1])
           else dir + [p], parts[1..])
  }

  lemma {:induction false} WalkConcat(dir: seq<string>, a: seq<string>, b: seq<string>)
    ensures Walk(dir, a + b) == Walk(Walk(dir, a), b)
    decreases |a|
  {
    if a == [] {
      assert a + b == b;
    } else {
      assert (a + b)[1..] == a[1..] + b;
      WalkConcat(Walk(dir, [a[0]]), a[1..], b);
      assert Walk(dir, [a[0]]) == Walk(dir, a[..1]);
    }
  }

  lemma WalkSnoc(dir: seq<string>, stack: seq<string>, p: string)
    ensures Walk(dir, stack + [p]) == Walk(Walk(dir, stack), [p])
  {
    WalkConcat(dir, stack, [p]);
  }

  /** Reading one segment keeps the place the path leads to, wherever it starts. */
  lemma PushKeepsWalk(dir: seq<string>, stack: seq<string>, k: nat, p: string)
    requires Canonical(stack, k, false)
    ensures Walk(dir, Push(stack, p, false)) == Walk(Walk(dir, stack), [p])
  {
    if p == ".." && stack != [] && stack[|stack| - 1] != ".." {
      var init, last := stack[..|stack| - 1], stack[|stack| - 1];
      assert stack == init + [last];
      WalkSnoc(dir, init, last);
      assert PlainName(last);
    } else if p != "." && p != "" {
      WalkSnoc(dir, stack, p);
    }
  }

  /** Resolution preserves meaning: from every directory, both forms lead to the same place. */
  lemma {:induction false} ResolveKeepsWalk(dir: seq<string>, stack: seq<string>, k: nat, parts: seq<string>)
    requires Canonical(stack, k, false) && SlashFree(parts)
    ensures Walk(dir, Resolve(stack, parts, false)) == Walk(Walk(dir, stack), parts)
    decreases |parts|
  {
    if parts != [] {
      var k' := ResolveShape(stack, k, [parts[0]], false);
      assert Resolve(stack, [parts[0]], false) == Push(stack, parts[0], false);
      PushKeepsWalk(dir, stack, k, parts[0]);
      ResolveKeepsWalk(dir, Push(stack, parts[0], false), k', parts[1..]);
      WalkConcat(Walk(dir, stack), [parts[0]], parts[1..]);
      assert parts == [parts[0]] + parts[1..];
    }
  }

  /** On a drive the result is the directory itself. */
  lemma {:induction false} DriveResolveIsWalk(stack: seq<string>, parts: seq<string>)
    requires Canonical(stack, 0, true) && SlashFree(parts)
    ensures Resolve(stack, parts, true) == Walk(stack, parts)
    decreases |parts|
  {
    if parts != [] {
      assert Canonical(Push(stack, parts[0], true), 0, true);
      DriveResolveIsWalk(Push(stack, parts[0], true), parts[1..]);
    }
  }

  /** A normal form climbs k levels and then descends. */
  lemma {:induction false} WalkOfCanonical(dir: seq<string>, segments: seq<string>, k: nat)
    requires Canonical(segments, k, false) && k <= |dir|
    ensures Walk(dir, segments) == dir[..|dir| - k] + segments[k..]
    decreases |segments|
  {
    if segments != [] {
      var up := dir[..|dir| - (if k > 0 then 1 else 0)];
      if k > 0 {
        assert Canonical(segments[1..], k - 1, false);
        WalkOfCanonical(up, segments[1..], k - 1);
        assert up[..|up| - (k - 1)] == dir[..|dir| - k];
        assert segments[1..][k - 1..] == segments[k..];
      } else {
        assert Canonical(segments[1..], 0, false);
        WalkOfCanonical(dir + [segments[0]], segments[1..], 0);
        assert dir + [segments[0]] + segments[1..] == dir + segments;
      }
    }
  }

  /** The two paths name the same place, wherever they start. */
  ghost predicate SamePlace(a: seq<string>, b: seq<string>) {
    forall dir :: Walk(dir, a) == Walk(dir, b)
  }

  /** Normal forms that lead to the same place from every directory are equal. */
  lemma CanonicalUnique(a: seq<string>, ka: nat, b: seq<string>, kb: nat)
    requires Canonical(a, ka, false) && Canonical(b, kb, false)
    requires SamePlace(a, b)
    ensures a == b
  {
    var x := FreshName(a, ka, b, kb);
    var n := ka + kb;
    var dir := seq(n, _ => x);
    WalkOfCanonical(dir, a, ka);
    WalkOfCanonical(dir, b, kb);
    var place := Walk(dir, a);
    assert place == Walk(dir, b);
    assert forall i :: 0 <= i < n - ka ==> place[i] == x;
    assert forall i :: 0 <= i < n - kb ==> place[i] == x;
    assert place[n - ka..] == a[ka..] && place[n - kb..] == b[kb..];
    assert ka < |a| ==> place[n - ka] != x;
    assert kb < |b| ==> place[n - kb] != x;
    assert a[ka..] == place[n - ka..] == b[kb..];
    assert a == a[..ka] + a[ka..] && b == b[..kb] + b[kb..];
  }

  /** A name different from the first names of two segment lists. */
  lemma FreshName(a: seq<string>, ka: nat, b: seq<string>, kb: nat) returns (x: string)
    ensures ka < |a| ==> a[ka] != x
    ensures kb < |b| ==> b[kb] != x
  {
    var candidates := ["x", "yy", "zzz"];
    if (ka < |a| && |a[ka]| == 1) || (kb < |b| && |b[kb]| == 1) {
      if (ka < |a| && |a[ka]| == 2) || (kb < |b| && |b[kb]| == 2) {
        x := candidates[2];
      } else {
        x := candidates[1];
      }
    } else {
      x := candidates[0];
    }
  }

  /** Two relative paths resolve to the same segments exactly when they name the same place from every directory. */
  lemma SameResolutionIffSamePlace(a: seq<string>, b: seq<string>)
    requires SlashFree(a) && SlashFree(b)
    ensures Resolve([], a, false) == Resolve([], b, false) <==> SamePlace(a, b)
  {
    var ra, rb := Resolve([], a, false), Resolve([], b, false);
    var ka := ResolveShape([], 0, a, false);
    var kb := ResolveShape([], 0, b, false);
    forall dir ensures Walk(dir, ra) == Walk(dir, a) && Walk(dir, rb) == Walk(dir, b) {
      ResolveKeepsWalk(dir, [], 0, a);
      ResolveKeepsWalk(dir, [], 0, b);
    }
    assert SamePlace(a, b) <==> SamePlace(ra, rb);
    if SamePlace(ra, rb) {
      CanonicalUnique(ra, ka, rb, kb);
    }
  }

  /** How often the segments climb above the directory they start from, depth levels below the root. */
  function Overclimbs(parts: seq<string>, depth: nat): nat
    decreases |parts|
  {
    if parts == [] then 0
    else if parts[0] == "." || parts[0] == "" then Overclimbs(parts[1..], depth)
    else if parts[0] != ".." then Overclimbs(parts[1..], depth + 1)
    else if depth == 0 then 1 + Overclimbs(parts[1..], 0)
    else Overclimbs(parts[1..], depth - 1)
  }

  /** Each climb above the root leaves one ".." in front. */
  lemma {:induction false} ResolveCountsClimbs(stack: seq<string>, k: nat, parts: seq<string>)
    requires Canonical(stack, k, false) && SlashFree(parts)
    ensures Canonical(Resolve(stack, parts, false), k + Overclimbs(parts, |stack| - k), false)
    decreases |parts|
  {
    if parts != [] {
      var next := Push(stack, parts[0], false);
      var kn := if parts[0] == ".." && |stack| == k then k + 1 else k;
      assert Canonical(next, kn, false);
      ResolveCountsClimbs(next, kn, parts[1..]);
    }
  }

  function Ups(k: nat): (ups: seq<string>)
    ensures |ups| == k && forall i :: 0 <= i < k ==> ups[i] == ".."
  {
    seq(k, _ => "..")
  }

  /** Resolution in closed form: the climbs above the root, then the place the path leads to from the root. */
  lemma ResolveExact(parts: seq<string>)
    requires SlashFree(parts)
    ensures Resolve([], parts, false) == Ups(Overclimbs(parts, 0)) + Walk([], parts)
  {
    var r, k := Resolve([], parts, false), Overclimbs(parts, 0);
    ResolveCountsClimbs([], 0, parts);
    ResolveKeepsWalk([], [], 0, parts);
    WalkFromRoot(r, k);
    assert r[..k] == Ups(k);
    assert r == r[..k] + r[k..];
  }

  lemma {:induction false} PlaceIsPlain(dir: seq<string>, parts: seq<string>)
    requires SlashFree(parts) && forall i :: 0 <= i < |dir| ==> PlainName(dir[i])
    ensures forall i :: 0 <= i < |Walk(dir, parts)| ==> PlainName(Walk(dir, parts)[i])
    decreases |parts|
  {
    if parts != [] {
      var p := parts[0];
      PlaceIsPlain(if p == "." || p == "" then dir
                   else if p == ".." then (if dir == [] then [] else dir[..|dir| - 1])
                   else dir + [p], parts[1..]);
    }
  }

  lemma FewerUps(ka: nat, a: seq<string>, kb: nat, b: seq<string>)
    requires ka < kb && forall i :: 0 <= i < |a| ==> PlainName(a[i])
    ensures Ups(ka) + a != Ups(kb) + b
  {
    var s, t := Ups(ka) + a, Ups(kb) + b;
    assert t[ka] == "..";
    if ka < |s| {
      assert s[ka] == a[0];
    }
  }

  lemma UpsAndPlaceSplit(ka: nat, a: seq<string>, kb: nat, b: seq<string>)
    requires (forall i :: 0 <= i < |a| ==> PlainName(a[i])) && forall i :: 0 <= i < |b| ==> PlainName(b[i])
    ensures Ups(ka) + a == Ups(kb) + b <==> ka == kb && a == b
  {
    if ka < kb {
      FewerUps(ka, a, kb, b);
    } else if kb < ka {
      FewerUps(kb, b, ka, a);
    } else {
      assert (Ups(ka) + a)[ka..] == a && (Ups(kb) + b)[kb..] == b;
    }
  }

  /** Below a POSIX root the segments keep a ".." for every climb above the root, although the root has no parent: two
      paths resolve alike exactly when they lead to the same place and climb above the root equally often. */
  lemma AbsoluteEquivalenceExact(a: seq<string>, b: seq<string>)
    requires SlashFree(a) && SlashFree(b)
    ensures Resolve([], a, false) == Resolve([], b, false)
       <==> Walk([], a) == Walk([], b) && Overclimbs(a, 0) == Overclimbs(b, 0)
  {
    ResolveExact(a);
    ResolveExact(b);
    PlaceIsPlain([], a);
    PlaceIsPlain([], b);
    UpsAndPlaceSplit(Overclimbs(a, 0), Walk([], a), Overclimbs(b, 0), Walk([], b));
  }

  lemma {:induction false} WalkFromRoot(segments: seq<string>, k: nat)
    requires Canonical(segments, k, false)
    ensures Walk([], segments) == segments[k..]
    decreases |segments|
  {
    if k > 0 {
      assert Canonical(segments[1..], k - 1, false);
      WalkFromRoot(segments[1..], k - 1);
      assert segments[1..][k - 1..] == segments[k..];
    } else {
      WalkOfCanonical([], segments, 0);
    }
  }
}
