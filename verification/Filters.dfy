/** Filters over sequences. */
module Filters {
  function Filter<T(!new)>(s: seq<T>, p: T -> bool): (r: seq<T>)
    ensures forall x :: x in r <==> x in s && p(x)
    ensures |r| <= |s|
  {
    if s == [] then []
    else
      var rest := Filter(s[1..], p);
      assert s == [s[0]] + s[1..];
      if p(s[0]) then [s[0]] + rest else rest
  }

  /** The positions, from from on, whose elements satisfy p. */
  function Positions<T(!new)>(s: seq<T>, p: T -> bool, from: nat): (r: seq<nat>)
    requires from <= |s|
    ensures forall k :: 0 <= k < |r| ==> from <= r[k] < |s| && p(s[r[k]])
    ensures forall j, k :: 0 <= j < k < |r| ==> r[j] < r[k]
    decreases |s| - from
  {
    if from == |s| then []
    else if p(s[from]) then [from] + Positions(s, p, from + 1)
    else Positions(s, p, from + 1)
  }

  lemma {:induction false} PositionFound<T(!new)>(s: seq<T>, p: T -> bool, from: nat, i: nat) returns (k: nat)
    requires from <= i < |s| && p(s[i])
    ensures k < |Positions(s, p, from)| && Positions(s, p, from)[k] == i
    decreases |s| - from
  {
    if i == from {
      k := 0;
    } else {
      k := PositionFound(s, p, from + 1, i);
      if p(s[from]) {
        k := k + 1;
      }
    }
  }

  /** What a filter keeps, by position and in order. */
  lemma {:induction false} FilterByPosition<T(!new)>(s: seq<T>, p: T -> bool, from: nat)
    requires from <= |s|
    ensures var r, ps := Filter(s[from..], p), Positions(s, p, from);
            |r| == |ps| && forall k :: 0 <= k < |r| ==> r[k] == s[ps[k]]
    decreases |s| - from
  {
    if from < |s| {
      FilterByPosition(s, p, from + 1);
      assert s[from..][1..] == s[from + 1..];
    }
  }
}
