/** Line drift in terms of the two texts themselves: what their lines are, and what counts and mapping say about them. */
module DriftText {
  import opened Text
  import opened LineDrift
  import opened DriftGeometry
  import opened DriftTheorems

  /** The text is these lines, joined by line feeds. */
  predicate TextOf(s: string, lines: seq<string>) {
    lines != [] && s == Join(lines, "\n") && forall i :: 0 <= i < |lines| ==> '\n' !in lines[i]
  }

  lemma {:induction false} PiecesCounted(s: string, c: char)
    ensures |Split(s, [c])| == 1 + multiset(s)[c]
    decreases |s|
  {
    var d := [c];
    if IndexFrom(s, d, 0) == -1 {
      forall i | 0 <= i < |s| ensures s[i] != c {
        OccursChar(s, c, i);
      }
    } else {
      var head, rest := SplitStep(s, d);
      PiecesCounted(rest, c);
      forall i | 0 <= i < |head| ensures head[i] != c {
        OccursChar(head + d, c, i);
        assert (head + d)[i] == head[i];
      }
      assert multiset(s) == multiset(head) + multiset{c} + multiset(rest);
    }
  }

  /** The lines of a text that is not empty: they join back to it, none holds a line feed, and there is one more of them
      than line feeds in the text, a final one included; no other list is like that. The empty text has none. */
  lemma LinesExact(s: string)
    ensures s != "" ==> TextOf(s, Lines(s)) && |Lines(s)| == 1 + multiset(s)['\n']
    ensures s != "" ==> forall lines :: TextOf(s, lines) ==> lines == Lines(s)
    ensures s == "" ==> Lines(s) == []
  {
    if s != "" {
      JoinSplit(s, "\n");
      SplitFree(s, '\n');
      PiecesCounted(s, '\n');
      forall lines | TextOf(s, lines) ensures lines == Lines(s) {
        SplitJoin(lines, '\n');
      }
    }
  }

  function LineCount(s: string): nat {
    if s == "" then 0 else 1 + multiset(s)['\n']
  }

  /** Lines added minus lines removed is the difference of the line feeds, but for an empty text, which has no line. */
  lemma GrowthIsLineFeeds<K>(oldSource: string, newSource: string, hash: string -> K)
    ensures var d := DriftOf(oldSource, newSource, hash);
            && d.added - d.removed == LineCount(newSource) - LineCount(oldSource)
            && (oldSource != "" && newSource != "" ==>
                  d.added - d.removed == multiset(newSource)['\n'] as int - multiset(oldSource)['\n'] as int)
  {
    DriftBalance(oldSource, newSource, hash);
    LinesExact(oldSource);
    LinesExact(newSource);
  }

  /** A surviving line is mapped to a line of the new text that hashes alike; under a hash that tells lines apart, to the
      same line. */
  lemma MappedLineIsSame<K>(a: seq<string>, b: seq<string>, oldSource: string, newSource: string, hash: string -> K, l: int)
    requires TextOf(oldSource, a) && TextOf(newSource, b) && oldSource != "" && newSource != ""
    requires DriftOf(oldSource, newSource, hash).mapping.MapLine(l) > 0
    ensures var k := DriftOf(oldSource, newSource, hash).mapping.MapLine(l);
            1 <= l <= |a| && k <= |b| && hash(a[l - 1]) == hash(b[k - 1])
  {
    LinesExact(oldSource);
    LinesExact(newSource);
    assert a == Lines(oldSource) && b == Lines(newSource);
    LineIsSame(oldSource, newSource, hash, l);
  }

  lemma LineIsSame<K>(oldSource: string, newSource: string, hash: string -> K, l: int)
    requires DriftOf(oldSource, newSource, hash).mapping.MapLine(l) > 0
    ensures var k := DriftOf(oldSource, newSource, hash).mapping.MapLine(l);
            && 1 <= l <= |Lines(oldSource)| && k <= |Lines(newSource)|
            && hash(Lines(oldSource)[l - 1]) == hash(Lines(newSource)[k - 1])
  {
    LinesKeepOrder(oldSource, newSource, hash, l, l);
  }

  ghost predicate TellsApart<K>(hash: string -> K) {
    forall x, y :: hash(x) == hash(y) ==> x == y
  }

  lemma SameKeysSameLines<K>(f: seq<nat>, a: seq<string>, b: seq<string>, hash: string -> K)
    requires TellsApart(hash)
    ensures IsEmbedding(f, Keys(a, hash), Keys(b, hash)) <==> IsEmbedding(f, a, b)
  {
    assert forall i :: 0 <= i < |a| ==> Keys(a, hash)[i] == hash(a[i]);
    assert forall i :: 0 <= i < |b| ==> Keys(b, hash)[i] == hash(b[i]);
    if IsEmbedding(f, Keys(a, hash), Keys(b, hash)) {
      forall i | 0 <= i < |f| ensures f[i] < |b| && b[f[i]] == a[i] {
        assert Keys(b, hash)[f[i]] == Keys(a, hash)[i];
      }
    }
    if IsEmbedding(f, a, b) {
      forall i | 0 <= i < |f| ensures f[i] < |b| && Keys(b, hash)[f[i]] == Keys(a, hash)[i] {
        assert b[f[i]] == a[i];
      }
    }
  }

  /** Pure insertion, of texts: under a hash that tells lines apart nothing is removed exactly when the old lines are a
      subsequence of the new ones. */
  lemma InsertionOfText<K>(a: seq<string>, b: seq<string>, oldSource: string, newSource: string, hash: string -> K)
    requires TextOf(oldSource, a) && TextOf(newSource, b) && oldSource != "" && newSource != "" && TellsApart(hash)
    ensures DriftOf(oldSource, newSource, hash).removed == 0 <==> Subsequence(a, b)
  {
    LinesExact(oldSource);
    LinesExact(newSource);
    PureInsertionExact(oldSource, newSource, hash);
    forall f ensures IsEmbedding(f, Keys(a, hash), Keys(b, hash)) <==> IsEmbedding(f, a, b) {
      SameKeysSameLines(f, a, b, hash);
    }
  }
}
