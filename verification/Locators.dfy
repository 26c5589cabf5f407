/** When two locators overlap: file paths of the code plugin and URI-style locators of the generic plugin. */
module Locators {
  import opened Text

  /** Without its trailing slashes. */
  function StripSlashes(s: string): (r: string)
    ensures |r| <= |s| && r == s[..|r|]
    ensures r == "" || r[|r| - 1] != '/'
    ensures s == "" || s[|s| - 1] != '/' ==> r == s
  {
    if s != "" && s[|s| - 1] == '/' then StripSlashes(s[..|s| - 1]) else s
  }

  function StripStars(s: string): (r: string)
    ensures |r| <= |s| && r == s[..|r|]
  {
    if s != "" && s[|s| - 1] == '*' then StripStars(s[..|s| - 1]) else s
  }

  predicate IsGlob(s: string) {
    EndsWith(s, "/*") || EndsWith(s, "/**")
  }

  /** The directory of a trailing glob. */
  function GlobPrefix(s: string): string {
    var t := StripStars(s);
    if |t| < |s| && EndsWith(t, SLASH) then t[..|t| - 1] else s
  }

  predicate GlobCovers(g: string, p: string) {
    IsGlob(g) && (StartsWith(p, GlobPrefix(g) + SLASH) || p == GlobPrefix(g))
  }

  predicate SameOrNested(na: string, nb: string) {
    na == nb || StartsWith(na, nb + SLASH) || StartsWith(nb, na + SLASH)
  }

  /** Overlap of two file path patterns. */
  predicate PathsOverlap(a: string, b: string) {
    var na, nb := StripSlashes(a), StripSlashes(b);
    SameOrNested(na, nb) || GlobCovers(na, nb) || GlobCovers(nb, na)
  }

  lemma PathsOverlapIsSymmetric(a: string, b: string)
    ensures PathsOverlap(a, a)
    ensures PathsOverlap(a, b) == PathsOverlap(b, a)
  {
  }

  // ---- segments -------------------------------------------------------------------------------------------

  function SegmentsOf(s: string): seq<string> {
    Split(s, SLASH)
  }

  /** A path lies at or below another exactly when its segments continue the other's. */
  lemma NestedIsPrefix(a: string, b: string)
    ensures b == a || StartsWith(b, a + SLASH) <==> SegmentsOf(a) <= SegmentsOf(b)
  {
    var sa, sb := SegmentsOf(a), SegmentsOf(b);
    if StartsWith(b, a + SLASH) {
      assert b == a + SLASH + b[|a| + 1..];
      SplitBetween(a, '/', b[|a| + 1..]);
    }
    if sa <= sb {
      JoinSplit(a, SLASH);
      JoinSplit(b, SLASH);
      var rest := sb[|sa|..];
      assert sb == sa + rest;
      if rest == [] {
        assert sb == sa;
      } else {
        JoinConcat(sa, rest, SLASH);
        assert b[..|a + SLASH|] == a + SLASH;
      }
    }
  }

  predicate Related(a: seq<string>, b: seq<string>) {
    a <= b || b <= a
  }

  lemma SameOrNestedExact(na: string, nb: string)
    ensures SameOrNested(na, nb) <==> Related(SegmentsOf(na), SegmentsOf(nb))
  {
    NestedIsPrefix(na, nb);
    NestedIsPrefix(nb, na);
  }

  /** The character test is segment ancestry: without globs two paths overlap exactly when one segment list is a
      prefix of the other. */
  lemma OverlapIsAncestry(a: string, b: string)
    requires !IsGlob(StripSlashes(a)) && !IsGlob(StripSlashes(b))
    ensures PathsOverlap(a, b) <==> Related(SegmentsOf(StripSlashes(a)), SegmentsOf(StripSlashes(b)))
  {
    SameOrNestedExact(StripSlashes(a), StripSlashes(b));
  }

  predicate Stars(s: string) {
    s == "*" || s == "**"
  }

  lemma StarsStrip(t: string, stars: string)
    requires Stars(stars) && t != "" && t[|t| - 1] == '/'
    ensures StripStars(t + stars) == t && StripSlashes(t + stars) == t + stars
  {
    assert StripStars(t) == t;
    var one := t + "*";
    assert one[..|t|] == t && StripStars(one) == t;
    if stars == "**" {
      assert (t + stars)[..|t| + 1] == one;
    }
  }

  lemma StarsAreGlob(base: string, stars: string)
    requires Stars(stars)
    ensures IsGlob(base + SLASH + stars)
  {
    var g := base + SLASH + stars;
    if stars == "*" {
      assert g[|g| - 2..] == "/*";
    } else {
      assert g[|g| - 3..] == "/**";
    }
  }

  lemma GlobPrefixOf(base: string, stars: string)
    requires Stars(stars)
    requires base == "" || base[|base| - 1] != '/'
    ensures var g := base + SLASH + stars;
            StripSlashes(g) == g && IsGlob(g) && GlobPrefix(g) == base
  {
    var t := base + SLASH;
    assert t[|t| - 1] == '/' && t[|t| - 1..] == SLASH;
    StarsStrip(t, stars);
    StarsAreGlob(base, stars);
    assert t[..|t| - 1] == base;
  }

  lemma SegmentsOfGlob(base: string, stars: string)
    requires Stars(stars)
    ensures SegmentsOf(base + SLASH + stars) == SegmentsOf(base) + [stars]
  {
    SplitBetween(base, '/', stars);
    assert Join([stars], SLASH) == stars;
    SplitJoin([stars], '/');
  }

  lemma PrefixOfSnoc(b: seq<string>, x: string, n: seq<string>)
    ensures Related(b + [x], n) || b <= n <==> Related(b, n)
  {
    if n <= b + [x] {
      assert n <= b || n == b + [x];
    }
  }

  lemma GlobOverlap(base: string, stars: string, nb: string)
    requires Stars(stars)
    requires base == "" || base[|base| - 1] != '/'
    ensures var g := base + SLASH + stars;
            SameOrNested(g, nb) || GlobCovers(g, nb) <==> Related(SegmentsOf(base), SegmentsOf(nb))
  {
    var g := base + SLASH + stars;
    GlobPrefixOf(base, stars);
    SegmentsOfGlob(base, stars);
    SameOrNestedExact(g, nb);
    NestedIsPrefix(base, nb);
    PrefixOfSnoc(SegmentsOf(base), stars, SegmentsOf(nb));
  }

  /** A trailing glob (a slash and one or two stars) means its directory: against a plain path the glob overlaps
      exactly what the directory overlaps. */
  lemma GlobIsItsDirectory(base: string, stars: string, b: string)
    requires Stars(stars)
    requires base == "" || base[|base| - 1] != '/'
    requires !IsGlob(base) && !IsGlob(StripSlashes(b))
    ensures PathsOverlap(base + SLASH + stars, b) <==> PathsOverlap(base, b)
  {
    GlobPrefixOf(base, stars);
    GlobOverlap(base, stars, StripSlashes(b));
    SameOrNestedExact(base, StripSlashes(b));
  }

  lemma GlobCoversExact(base: string, stars: string, nb: string)
    requires Stars(stars) && (base == "" || base[|base| - 1] != '/')
    ensures GlobCovers(base + SLASH + stars, nb) <==> SegmentsOf(base) <= SegmentsOf(nb)
  {
    GlobPrefixOf(base, stars);
    NestedIsPrefix(base, nb);
  }

  lemma PrefixesOfSnocs(a: seq<string>, x: string, b: seq<string>, y: string)
    ensures a <= b + [y] || b <= a + [x] || Related(a + [x], b + [y]) <==> Related(a, b)
  {
    PrefixOfSnoc(a, x, b + [y]);
    PrefixOfSnoc(b, y, a);
  }

  /** Two trailing globs overlap exactly when the segments of one directory continue the other's, so exactly when their
      directories overlap. */
  lemma GlobsAreTheirDirectories(base: string, stars: string, base': string, stars': string)
    requires Stars(stars) && (base == "" || base[|base| - 1] != '/')
    requires Stars(stars') && (base' == "" || base'[|base'| - 1] != '/')
    ensures PathsOverlap(base + SLASH + stars, base' + SLASH + stars') <==> Related(SegmentsOf(base), SegmentsOf(base'))
  {
    var g, h := base + SLASH + stars, base' + SLASH + stars';
    GlobPrefixOf(base, stars);
    GlobPrefixOf(base', stars');
    GlobCoversExact(base, stars, h);
    GlobCoversExact(base', stars', g);
    SegmentsOfGlob(base, stars);
    SegmentsOfGlob(base', stars');
    SameOrNestedExact(g, h);
    PrefixesOfSnocs(SegmentsOf(base), stars, SegmentsOf(base'), stars');
  }

  // ---- URI-style locators ---------------------------------------------------------------------------------

  datatype ParsedLocator = ParsedLocator(scheme: string, path: string, fragment: Option<string>)

  predicate SchemeChar(c: char) {
    'a' <= c <= 'z' || '0' <= c <= '9' || c == '_' || c == '-'
  }

  predicate LineTerminator(c: char) {
    c == '\n' || c == '\r' || c as int == 0x2028 || c as int == 0x2029
  }

  /** The length of the leading run of scheme characters. */
  function SchemeRun(s: string): (n: nat)
    ensures n <= |s| && (forall i :: 0 <= i < n ==> SchemeChar(s[i])) && (n < |s| ==> !SchemeChar(s[n]))
  {
    if s != "" && SchemeChar(s[0]) then 1 + SchemeRun(s[1..]) else 0
  }

  /** {scheme}://{rest}, where the scheme starts with a letter and the rest is one non-empty line. */
  predicate HasScheme(s: string) {
    var n := SchemeRun(s);
    && n > 0 && 'a' <= s[0] <= 'z'
    && OccursAt(s, "://", n) && n + 3 < |s|
    && forall i :: n + 3 <= i < |s| ==> !LineTerminator(s[i])
  }

  function ParseRest(scheme: string, rest: string): ParsedLocator {
    var hashIdx := IndexFrom(rest, "#", 0);
    if hashIdx >= 0 then ParsedLocator(scheme, rest[..hashIdx], Some(rest[hashIdx + 1..]))
    else ParsedLocator(scheme, rest, None)
  }

  function ParseLocator(locator: string): ParsedLocator {
    if HasScheme(locator) then
      ParseRest(locator[..SchemeRun(locator)], locator[SchemeRun(locator) + 3..])
    else
      ParseRest("", locator)
  }

  function RenderLocator(p: ParsedLocator): string {
    (if p.scheme == "" then "" else p.scheme + "://")
    + p.path
    + (if p.fragment.Some? then "#" + p.fragment.value else "")
  }

  lemma ParseRestRenders(scheme: string, rest: string)
    ensures var p := ParseRest(scheme, rest);
            && p.scheme == scheme && '#' !in p.path
            && p.path + (if p.fragment.Some? then "#" + p.fragment.value else "") == rest
  {
    var h := IndexFrom(rest, "#", 0);
    var path := ParseRest(scheme, rest).path;
    forall i | 0 <= i < |path| ensures path[i] != '#' {
      OccursChar(rest, '#', i);
    }
    if h >= 0 {
      OccursChar(rest, '#', h);
      assert rest == rest[..h] + ("#" + rest[h + 1..]);
    }
  }

  /** Parsing loses nothing, and what it calls the path holds no fragment mark. */
  lemma ParseThenRender(locator: string)
    ensures RenderLocator(ParseLocator(locator)) == locator
    ensures '#' !in ParseLocator(locator).path
  {
    var n := SchemeRun(locator);
    if HasScheme(locator) {
      var scheme, rest := locator[..n], locator[n + 3..];
      ParseRestRenders(scheme, rest);
      assert locator == scheme + "://" + rest;
    } else {
      ParseRestRenders("", locator);
    }
  }

  /** A locator with a scheme, a path without a fragment mark, and no line break. */
  predicate WellFormed(p: ParsedLocator) {
    && p.scheme != "" && 'a' <= p.scheme[0] <= 'z' && (forall i :: 0 <= i < |p.scheme| ==> SchemeChar(p.scheme[i]))
    && '#' !in p.path && (p.path != "" || p.fragment.Some?)
    && (forall i :: 0 <= i < |p.path| ==> !LineTerminator(p.path[i]))
    && (p.fragment.Some? ==>
          forall i :: 0 <= i < |p.fragment.value| ==> !LineTerminator(p.fragment.value[i]))
  }

  /** What follows the scheme. */
  function RestOf(p: ParsedLocator): string {
    p.path + if p.fragment.Some? then "#" + p.fragment.value else ""
  }

  lemma {:induction false} SchemeRunOf(scheme: string, rest: string)
    requires forall i :: 0 <= i < |scheme| ==> SchemeChar(scheme[i])
    requires rest != "" && !SchemeChar(rest[0])
    ensures SchemeRun(scheme + rest) == |scheme|
    decreases |scheme|
  {
    if scheme != "" {
      assert (scheme + rest)[1..] == scheme[1..] + rest;
      SchemeRunOf(scheme[1..], rest);
    } else {
      assert scheme + rest == rest;
    }
  }

  lemma ParseRestOf(p: ParsedLocator)
    requires '#' !in p.path
    ensures ParseRest(p.scheme, RestOf(p)) == p
  {
    var rest := RestOf(p);
    forall i | 0 <= i < |p.path| ensures !OccursAt(rest, "#", i) {
      OccursChar(rest, '#', i);
    }
    if p.fragment.Some? {
      OccursChar(rest, '#', |p.path|);
      assert rest[..|p.path|] == p.path && rest[|p.path| + 1..] == p.fragment.value;
    } else {
      assert rest == p.path;
    }
  }

  /** Rendering a well-formed locator and parsing it gives its scheme, path and fragment back. */
  lemma RenderThenParse(p: ParsedLocator)
    requires WellFormed(p)
    ensures ParseLocator(RenderLocator(p)) == p
  {
    NoBreakInRest(p);
    ParseSchemed(p.scheme, RestOf(p));
    ParseRestOf(p);
    RenderedParts(p);
  }

  lemma RenderedParts(p: ParsedLocator)
    requires p.scheme != ""
    ensures RenderLocator(p) == p.scheme + ("://" + RestOf(p))
  {
    Assoc(p.scheme, "://", RestOf(p));
    Assoc(p.scheme + "://", p.path, if p.fragment.Some? then "#" + p.fragment.value else "");
  }

  /** What follows a scheme, read by position. */
  lemma AfterScheme(scheme: string, rest: string)
    ensures var s, n := scheme + ("://" + rest), |scheme|;
            s[..n] == scheme && OccursAt(s, "://", n) && s[n + 3..] == rest
  {
    var mark := "://" + rest;
    var s, n := scheme + mark, |scheme|;
    assert mark[..3] == "://" && mark[3..] == rest;
    assert s[n..n + 3] == mark[..3] && s[n + 3..] == mark[3..];
  }

  lemma ParseSchemed(scheme: string, rest: string)
    requires scheme != "" && 'a' <= scheme[0] <= 'z' && (forall i :: 0 <= i < |scheme| ==> SchemeChar(scheme[i]))
    requires rest != "" && forall i :: 0 <= i < |rest| ==> !LineTerminator(rest[i])
    ensures ParseLocator(scheme + ("://" + rest)) == ParseRest(scheme, rest)
  {
    var mark := "://" + rest;
    var s, n := scheme + mark, |scheme|;
    assert mark[0] == ':';
    SchemeRunOf(scheme, mark);
    AfterScheme(scheme, rest);
    assert forall i :: n + 3 <= i < |s| ==> s[i] == s[n + 3..][i - n - 3];
    assert s[0] == scheme[0];
    assert HasScheme(s);
  }

  lemma NoBreakInRest(p: ParsedLocator)
    requires WellFormed(p)
    ensures RestOf(p) != "" && forall i :: 0 <= i < |RestOf(p)| ==> !LineTerminator(RestOf(p)[i])
  {
    assert !LineTerminator('#');
  }

  function LocatorPath(locator: string): string {
    ParseLocator(locator).path
  }

  predicate LocatorPathsOverlap(a: string, b: string) {
    SameOrNested(StripSlashes(LocatorPath(a)), StripSlashes(LocatorPath(b)))
  }

  /** Generic locators overlap exactly when the segments of one path continue those of the other; scheme and
      fragment play no part. */
  lemma LocatorOverlapIsAncestry(a: string, b: string)
    ensures LocatorPathsOverlap(a, b)
            <==> Related(SegmentsOf(StripSlashes(ParseLocator(a).path)), SegmentsOf(StripSlashes(ParseLocator(b).path)))
    ensures LocatorPathsOverlap(a, a) && LocatorPathsOverlap(a, b) == LocatorPathsOverlap(b, a)
  {
    SameOrNestedExact(StripSlashes(LocatorPath(a)), StripSlashes(LocatorPath(b)));
  }

  /** A scheme of length k, as a pattern: a small letter, then small letters, digits, underscores or hyphens; a colon and
      two slashes; and one line that is not empty. */
  predicate Schemed(s: string, k: nat) {
    && 1 <= k && k + 3 < |s| && s[k] == ':' && s[k + 1] == '/' && s[k + 2] == '/' && 'a' <= s[0] <= 'z'
    && (forall i :: 0 < i < k ==> 'a' <= s[i] <= 'z' || '0' <= s[i] <= '9' || s[i] in {'_', '-'})
    && forall i :: k + 3 <= i < |s| ==> s[i] !in {'\n', '\r', '\U{2028}', '\U{2029}'}
  }

  lemma SchemedExact(s: string)
    ensures HasScheme(s) ==> Schemed(s, SchemeRun(s))
    ensures forall k: nat :: Schemed(s, k) ==> HasScheme(s) && k == SchemeRun(s)
  {
    var n := SchemeRun(s);
    if n + 3 <= |s| {
      assert s[n..n + 3] == [s[n], s[n + 1], s[n + 2]];
    }
    forall k: nat | Schemed(s, k) ensures HasScheme(s) && k == n {
      assert forall i :: 0 <= i < k ==> SchemeChar(s[i]);
      assert !SchemeChar(s[k]);
      assert n == k;
      assert s[k..k + 3] == [s[k], s[k + 1], s[k + 2]];
      assert forall i :: k + 3 <= i < |s| ==> !LineTerminator(s[i]);
    }
  }

  /** What a locator parses to: its scheme, if it has one, and the rest cut at the first fragment mark. */
  lemma ParseExact(s: string, k: nat)
    ensures Schemed(s, k) ==> ParseLocator(s).scheme == s[..k] && RestOf(ParseLocator(s)) == s[k + 3..]
    ensures (forall j: nat :: !Schemed(s, j)) ==> ParseLocator(s).scheme == "" && RestOf(ParseLocator(s)) == s
    ensures '#' !in ParseLocator(s).path
  {
    SchemedExact(s);
    ParseThenRender(s);
    if HasScheme(s) {
      ParseRestRenders(s[..SchemeRun(s)], s[SchemeRun(s) + 3..]);
    } else {
      ParseRestRenders("", s);
    }
  }
}
