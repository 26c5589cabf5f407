/** Lists without repetitions and the sets they stand for. */
module Lists {
  predicate Distinct<T(==)>(items: seq<T>) {
    forall i, j :: 0 <= i < j < |items| ==> items[i] != items[j]
  }

  function Elements<T(==)>(items: seq<T>): set<T> {
    set x | x in items
  }

  lemma DistinctCons<T>(x: T, rest: seq<T>)
    ensures Distinct([x] + rest) <==> x !in rest && Distinct(rest)
  {
    var all := [x] + rest;
    assert forall i :: 0 <= i < |rest| ==> all[i + 1] == rest[i];
    if x in rest {
      var i :| 0 <= i < |rest| && rest[i] == x;
      assert all[0] == all[i + 1];
    }
  }

  /** A list is as long as its set exactly when nothing is repeated. */
  lemma {:induction false} DistinctSize<T>(items: seq<T>)
    ensures |Elements(items)| <= |items|
    ensures |Elements(items)| == |items| <==> Distinct(items)
    decreases |items|
  {
    if items != [] {
      var x, rest := items[0], items[1..];
      DistinctSize(rest);
      assert items == [x] + rest;
      DistinctCons(x, rest);
      assert Elements(items) == Elements(rest) + {x};
      assert x in rest <==> x in Elements(rest);
    }
  }

  lemma SubsetSize<T>(a: set<T>, b: set<T>)
    requires a <= b
    ensures |a| <= |b| && (|a| == |b| ==> a == b)
  {
    assert b == a + (b - a);
  }

  /** The part of a outside b and the part inside add up to a. */
  lemma SplitSize<T>(a: set<T>, b: set<T>)
    ensures |a| == |a - b| + |a * b|
  {
    assert a == (a - b) + (a * b);
  }
}
