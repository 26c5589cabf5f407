/** The JavaScript string operations the repository leans on: searching, splitting on a separator,
    joining, trimming. */
module Text {

  datatype Option<+T> = None | Some(value: T)

  const SLASH := "/"

  lemma Regroup<T>(a: seq<T>, x: T, b: seq<T>)
    ensures a + [x] + b == a + ([x] + b)
  {
  }

  predicate OccursAt(s: string, d: string, i: int) {
    0 <= i && i + |d| <= |s| && s[i..i + |d|] == d
  }

  predicate Contains(s: string, d: string) {
    exists i :: 0 <= i <= |s| && OccursAt(s, d, i)
  }

  predicate StartsWith(s: string, d: string) {
    |d| <= |s| && s[..|d|] == d
  }

  predicate EndsWith(s: string, d: string) {
    |d| <= |s| && s[|s| - |d|..] == d
  }

  /** The leftmost index at or after from where d occurs, or -1. */
  function IndexFrom(s: string, d: string, from: nat): (r: int)
    requires from <= |s|
    ensures r == -1 || (from <= r && OccursAt(s, d, r))
    ensures forall j :: from <= j && (r == -1 || j < r) ==> !OccursAt(s, d, j)
    decreases |s| - from
  {
    if OccursAt(s, d, from) then from
    else if from == |s| then -1
    else IndexFrom(s, d, from + 1)
  }

  /** String.split: cut at leftmost, non-overlapping occurrences of d. */
  function Split(s: string, d: string): (r: seq<string>)
    requires d != ""
    ensures |r| >= 1
    decreases |s|
  {
    var k := IndexFrom(s, d, 0);
    if k == -1 then [s] else [s[..k]] + Split(s[k + |d|..], d)
  }

  function Join(parts: seq<string>, d: string): string {
    if |parts| == 0 then ""
    else if |parts| == 1 then parts[0]
    else parts[0] + d + Join(parts[1..], d)
  }

  function Concat(chunks: seq<string>): string {
    if chunks == [] then "" else chunks[0] + Concat(chunks[1..])
  }

  /** No occurrence of d in p + d before the end of p. */
  predicate CutsAtEnd(p: string, d: string) {
    forall j :: 0 <= j < |p| ==> !OccursAt(p + d, d, j)
  }

  /** What it means to be the pieces of s: they join back to s, and the separator is met exactly at the end of
      each piece but the last. Split is the only such sequence (SplitUnique). */
  ghost predicate IsSplit(parts: seq<string>, s: string, d: string) {
    && |parts| >= 1
    && Join(parts, d) == s
    && (forall i :: 0 <= i < |parts| - 1 ==> CutsAtEnd(parts[i], d))
    && !Contains(parts[|parts| - 1], d)
  }

  lemma JoinCons(p: string, rest: seq<string>, d: string)
    requires rest != []
    ensures Join([p] + rest, d) == p + d + Join(rest, d)
  {
    assert ([p] + rest)[1..] == rest;
  }

  lemma JoinConcat(a: seq<string>, b: seq<string>, d: string)
    requires a != [] && b != []
    ensures Join(a + b, d) == Join(a, d) + d + Join(b, d)
  {
    if |a| == 1 {
      JoinCons(a[0], b, d);
      assert a == [a[0]];
    } else {
      JoinConcat(a[1..], b, d);
      assert a + b == [a[0]] + (a[1..] + b);
      JoinCons(a[0], a[1..] + b, d);
      assert a == [a[0]] + a[1..];
    }
  }

  /** Occurrences that end inside a are the same in a and in a + b. */
  lemma OccursInPrefix(a: string, b: string, d: string, j: int)
    requires j + |d| <= |a|
    ensures OccursAt(a + b, d, j) <==> OccursAt(a, d, j)
  {
    if 0 <= j {
      assert (a + b)[j..j + |d|] == a[j..j + |d|];
    }
  }

  /** One cut: the head, the separator and the rest. */
  lemma SplitStep(s: string, d: string) returns (head: string, rest: string)
    requires d != "" && IndexFrom(s, d, 0) != -1
    ensures s == head + d + rest && CutsAtEnd(head, d)
    ensures Split(s, d) == [head] + Split(rest, d)
    ensures |rest| < |s|
  {
    var k := IndexFrom(s, d, 0);
    head, rest := s[..k], s[k + |d|..];
    assert s == head + d + rest;
    forall j | 0 <= j < |head| ensures !OccursAt(head + d, d, j) {
      if j + |d| <= |head + d| {
        OccursInPrefix(head + d, rest, d, j);
      }
    }
  }

  lemma {:induction false} SplitIsSplit(s: string, d: string)
    requires d != ""
    ensures IsSplit(Split(s, d), s, d)
    decreases |s|
  {
    if IndexFrom(s, d, 0) == -1 {
      assert Split(s, d) == [s];
    } else {
      var head, rest := SplitStep(s, d);
      SplitIsSplit(rest, d);
      IsSplitCons(head, Split(rest, d), rest, d);
    }
  }

  lemma IsSplitCons(head: string, parts: seq<string>, rest: string, d: string)
    requires CutsAtEnd(head, d) && IsSplit(parts, rest, d)
    ensures IsSplit([head] + parts, head + d + rest, d)
  {
    JoinCons(head, parts, d);
    var all := [head] + parts;
    assert forall i :: 0 < i < |all| ==> all[i] == parts[i - 1];
  }

  /** The four conditions of IsSplit pin the pieces down. */
  lemma {:induction false} SplitUnique(parts: seq<string>, s: string, d: string)
    requires d != ""
    requires IsSplit(parts, s, d)
    ensures parts == Split(s, d)
    decreases |parts|
  {
    if |parts| == 1 {
      assert parts == [s];
    } else {
      FirstCut(parts[0], d, Join(parts[1..], d));
      IsSplitTail(parts, s, d);
      SplitUnique(parts[1..], Join(parts[1..], d), d);
      assert parts == [parts[0]] + parts[1..];
    }
  }

  lemma IsSplitTail(parts: seq<string>, s: string, d: string)
    requires IsSplit(parts, s, d) && |parts| > 1
    ensures IsSplit(parts[1..], Join(parts[1..], d), d)
  {
    assert forall i :: 0 <= i < |parts| - 1 ==> parts[1..][i] == parts[i + 1];
  }

  /** If d is first met at the end of p in p + d, then p is the first piece of p + d + rest. */
  lemma FirstCut(p: string, d: string, rest: string)
    requires d != ""
    requires CutsAtEnd(p, d)
    ensures IndexFrom(p + d + rest, d, 0) == |p|
    ensures Split(p + d + rest, d) == [p] + Split(rest, d)
  {
    var s := p + d + rest;
    assert s[|p|..|p| + |d|] == d;
    forall j | 0 <= j < |p| ensures !OccursAt(s, d, j) {
      OccursInPrefix(p + d, rest, d, j);
    }
    assert OccursAt(s, d, |p|);
    assert s[..|p|] == p;
    assert s[|p| + |d|..] == rest;
  }

  /** The pieces of a text that are closed by a separator. */
  function Closed(s: string, d: string): seq<string>
    requires d != ""
  {
    Split(s, d)[..|Split(s, d)| - 1]
  }

  /** The text after the last separator. */
  function Unfinished(s: string, d: string): string
    requires d != ""
  {
    Split(s, d)[|Split(s, d)| - 1]
  }

  lemma ClosedCons(t: string, d: string, rest: string)
    requires d != "" && CutsAtEnd(t, d)
    ensures Closed(t + d + rest, d) == [t] + Closed(rest, d)
    ensures Unfinished(t + d + rest, d) == Unfinished(rest, d)
  {
    FirstCut(t, d, rest);
    ConsButLast(t, Split(rest, d));
  }

  lemma ConsButLast<T>(h: T, rest: seq<T>)
    requires rest != []
    ensures ([h] + rest)[..|rest|] == [h] + rest[..|rest| - 1]
    ensures ([h] + rest)[|rest|] == rest[|rest| - 1]
  {
  }

  lemma Assoc<T>(a: seq<T>, b: seq<T>, c: seq<T>)
    ensures a + b + c == a + (b + c)
  {
  }

  /** Reading more text only re-cuts the unfinished last piece. */
  lemma {:induction false} SplitAppend(a: string, b: string, d: string)
    requires d != ""
    ensures Split(a + b, d) == Closed(a, d) + Split(Unfinished(a, d) + b, d)
    decreases |a|
  {
    if IndexFrom(a, d, 0) == -1 {
      assert Closed(a, d) == [];
    } else {
      var head, rest := SplitStep(a, d);
      SplitAppend(rest, b, d);
      ClosedCons(head, d, rest);
      Assoc(head + d, rest, b);
      FirstCut(head, d, rest + b);
      Assoc([head], Closed(rest, d), Split(Unfinished(rest, d) + b, d));
    }
  }

  lemma JoinSplit(s: string, d: string)
    requires d != ""
    ensures Join(Split(s, d), d) == s
  {
    SplitIsSplit(s, d);
  }

  // ---- one-character separators -------------------------------------------------------------------------

  lemma OccursChar(s: string, c: char, i: int)
    ensures OccursAt(s, [c], i) <==> 0 <= i < |s| && s[i] == c
  {
    if 0 <= i < |s| {
      assert s[i..i + 1] == [s[i]];
    }
  }

  /** The pieces of a split on one character do not contain it. */
  lemma SplitFree(s: string, c: char)
    ensures forall i :: 0 <= i < |Split(s, [c])| ==> c !in Split(s, [c])[i]
  {
    var d := [c];
    var parts := Split(s, d);
    SplitIsSplit(s, d);
    forall i | 0 <= i < |parts| ensures c !in parts[i] {
      forall j | 0 <= j < |parts[i]| ensures parts[i][j] != c {
        OccursChar(parts[i], c, j);
        OccursChar(parts[i] + d, c, j);
      }
    }
  }

  /** Pieces without the character are recovered by splitting their join. */
  lemma SplitJoin(parts: seq<string>, c: char)
    requires parts != []
    requires forall i :: 0 <= i < |parts| ==> c !in parts[i]
    ensures Split(Join(parts, [c]), [c]) == parts
  {
    var d := [c];
    var s := Join(parts, d);
    forall i | 0 <= i < |parts| ensures CutsAtEnd(parts[i], d) && !Contains(parts[i], d) {
      forall j | 0 <= j < |parts[i]| ensures !OccursAt(parts[i] + d, d, j) {
        OccursChar(parts[i] + d, c, j);
        assert (parts[i] + d)[j] == parts[i][j];
      }
      forall j | 0 <= j <= |parts[i]| ensures !OccursAt(parts[i], d, j) {
        OccursChar(parts[i], c, j);
      }
    }
    SplitUnique(parts, s, d);
  }

  /** A separator between two texts splits them apart. */
  lemma SplitBetween(a: string, c: char, b: string)
    ensures Split(a + [c] + b, [c]) == Split(a, [c]) + Split(b, [c])
  {
    var d := [c];
    var pa, pb := Split(a, d), Split(b, d);
    JoinSplit(a, d);
    JoinSplit(b, d);
    JoinConcat(pa, pb, d);
    SplitFree(a, c);
    SplitFree(b, c);
    SplitJoin(pa + pb, c);
  }

  // ---- white space ----------------------------------------------------------------------------------------

  /** White space and line terminators in the sense of String.prototype.trim. */
  predicate IsSpace(c: char) {
    var n := c as int;
    || 9 <= n <= 13 || n == 32 || n == 160 || n == 0x1680 || 0x2000 <= n <= 0x200A
    || n == 0x2028 || n == 0x2029 || n == 0x202F || n == 0x205F || n == 0x3000 || n == 0xFEFF
  }

  /** The length of the leading white space. */
  function Leading(s: string, from: nat): (n: nat)
    requires from <= |s|
    ensures from <= n <= |s|
    ensures forall i :: from <= i < n ==> IsSpace(s[i])
    ensures n < |s| ==> !IsSpace(s[n])
    decreases |s| - from
  {
    if from < |s| && IsSpace(s[from]) then Leading(s, from + 1) else from
  }

  function Trailing(s: string, to: nat): (n: nat)
    requires to <= |s|
    ensures n <= to
    ensures forall i :: n <= i < to ==> IsSpace(s[i])
    ensures n > 0 ==> !IsSpace(s[n - 1])
  {
    if to > 0 && IsSpace(s[to - 1]) then Trailing(s, to - 1) else to
  }

  function TrimStart(s: string): (r: string)
    ensures r == "" || !IsSpace(r[0])
    ensures |r| <= |s| && r == s[|s| - |r|..]
    ensures forall i :: 0 <= i < |s| - |r| ==> IsSpace(s[i])
  {
    s[Leading(s, 0)..]
  }

  function TrimEnd(s: string): (r: string)
    ensures r == "" || !IsSpace(r[|r| - 1])
    ensures |r| <= |s| && r == s[..|r|]
    ensures forall i :: |r| <= i < |s| ==> IsSpace(s[i])
  {
    s[..Trailing(s, |s|)]
  }

  function Trim(s: string): string {
    TrimEnd(TrimStart(s))
  }

  predicate Trimmed(s: string) {
    s == "" || (!IsSpace(s[0]) && !IsSpace(s[|s| - 1]))
  }

  lemma TrimIsTrimmed(s: string)
    ensures Trimmed(Trim(s))
    ensures |Trim(s)| <= |s|
    ensures Trim(s) == s <==> Trimmed(s)
  {
  }

  /** White space and line terminators of sections 12.2 and 12.3 of ECMA-262: tab, vertical tab, form feed, the byte order
      mark, the space separators of Unicode, and the four line terminators. */
  lemma SpacesAreThese(c: char)
    ensures IsSpace(c)
       <==> c in {'\t', '\U{0B}', '\U{0C}', '\U{FEFF}'}
            || c in {' ', '\U{A0}', '\U{1680}', '\U{202F}', '\U{205F}', '\U{3000}'} || '\U{2000}' <= c <= '\U{200A}'
            || c in {'\n', '\r', '\U{2028}', '\U{2029}'}
  {
  }

  /** What lies between outer white space is what trimming leaves. */
  lemma TrimBetween(s: string, from: nat, to: nat)
    requires from < to <= |s| && !IsSpace(s[from]) && !IsSpace(s[to - 1])
    requires (forall i :: 0 <= i < from ==> IsSpace(s[i])) && forall i :: to <= i < |s| ==> IsSpace(s[i])
    ensures Trim(s) == s[from..to]
  {
    var t := s[from..];
    assert Leading(s, 0) == from;
    assert t[to - from - 1] == s[to - 1];
    assert forall i :: to - from <= i < |t| ==> t[i] == s[from + i];
    assert Trailing(t, |t|) == to - from;
  }

  // ---- letters --------------------------------------------------------------------------------------------

  predicate IsLetter(c: char) {
    'a' <= c <= 'z' || 'A' <= c <= 'Z'
  }

  /** ASCII lower-casing. */
  function LowerChar(c: char): (r: char)
    ensures LowerCharKeeps(c, r)
  {
    if 'A' <= c <= 'Z' then (c as int + 32) as char else c
  }

  predicate LowerCharKeeps(c: char, r: char) {
    && !('A' <= r <= 'Z')
    && (r == c || ('A' <= c <= 'Z' && 'a' <= r <= 'z'))
  }

  function Lower(s: string): (r: string)
    ensures |r| == |s|
    ensures forall i :: 0 <= i < |s| ==> r[i] == LowerChar(s[i])
  {
    seq(|s|, i requires 0 <= i < |s| => LowerChar(s[i]))
  }
}
