/** Team templates: slugs, unique member keys, and the file stems of materialised members. */
module TeamTemplate {
  import opened Text

  datatype Error = NoStableKey | DuplicateKey(key: string)

  datatype Result<+T> = Ok(value: T) | Err(error: Error)

  const HYPHEN := "-"

  // ---- slugs ----------------------------------------------------------------------------------------------

  predicate Alnum(c: char) {
    'a' <= c <= 'z' || '0' <= c <= '9'
  }

  function DropOthers(s: string): (r: string)
    ensures |r| <= |s| && (r != "" ==> Alnum(r[0]))
    ensures s != "" && !Alnum(s[0]) ==> |r| < |s|
  {
    if s != "" && !Alnum(s[0]) then DropOthers(s[1..]) else s
  }

  /** Each run of other characters becomes one hyphen. */
  function Hyphenate(s: string): string
    decreases |s|
  {
    if s == "" then ""
    else if Alnum(s[0]) then [s[0]] + Hyphenate(s[1..])
    else HYPHEN + Hyphenate(DropOthers(s))
  }

  function StripLeft(s: string): string {
    if s != "" && s[0] == '-' then StripLeft(s[1..]) else s
  }

  function StripRight(s: string): string {
    if s != "" && s[|s| - 1] == '-' then StripRight(s[..|s| - 1]) else s
  }

  function Normalized(value: string): string {
    StripRight(StripLeft(Hyphenate(Lower(Trim(value)))))
  }

  function Slugify(value: string): Result<string> {
    if Normalized(value) == "" then Err(NoStableKey) else Ok(Normalized(value))
  }

  // ---- slugs as words -------------------------------------------------------------------------------------

  /** The length of the leading run of letters and digits. */
  function Run(s: string): (n: nat)
    ensures n <= |s| && (forall i :: 0 <= i < n ==> Alnum(s[i])) && (n < |s| ==> !Alnum(s[n]))
    ensures s != "" && Alnum(s[0]) ==> n > 0
  {
    if s != "" && Alnum(s[0]) then 1 + Run(s[1..]) else 0
  }

  /** The maximal runs of letters and digits. */
  function Words(s: string): seq<string>
    decreases |s|
  {
    if s == "" then []
    else if !Alnum(s[0]) then Words(s[1..])
    else [s[..Run(s)]] + Words(s[Run(s)..])
  }

  predicate IsWord(w: string) {
    w != "" && forall i :: 0 <= i < |w| ==> Alnum(w[i])
  }

  ghost predicate AllWords(ws: seq<string>) {
    forall i :: 0 <= i < |ws| ==> IsWord(ws[i])
  }

  lemma {:induction false} WordsAreWords(s: string)
    ensures AllWords(Words(s))
    decreases |s|
  {
    if s != "" {
      WordsAreWords(if Alnum(s[0]) then s[Run(s)..] else s[1..]);
    }
  }

  lemma {:induction false} WordsSkipOthers(s: string)
    ensures Words(DropOthers(s)) == Words(s)
    decreases |s|
  {
    if s != "" && !Alnum(s[0]) {
      WordsSkipOthers(s[1..]);
    }
  }

  lemma {:induction false} WordItself(w: string)
    requires forall i :: 0 <= i < |w| ==> Alnum(w[i])
    ensures Words(w) == if w == "" then [] else [w]
  {
    if w != "" {
      assert Run(w) == |w|;
      assert w[..|w|] == w;
      assert w[|w|..] == "";
    }
  }

  /** A separator splits the words of a text. */
  lemma {:induction false} WordsBetween(a: string, c: char, b: string)
    requires !Alnum(c)
    ensures Words(a + [c] + b) == Words(a) + Words(b)
    decreases |a|
  {
    var s := a + [c] + b;
    if a == "" {
      assert s[1..] == b;
    } else if !Alnum(a[0]) {
      assert s[1..] == a[1..] + [c] + b;
      WordsBetween(a[1..], c, b);
    } else {
      var n := Run(a);
      assert s == a[..n] + (a[n..] + [c] + b);
      RunOf(a[..n], a[n..] + [c] + b);
      assert s[..n] == a[..n] && s[n..] == a[n..] + [c] + b;
      WordsBetween(a[n..], c, b);
      Assoc([a[..n]], Words(a[n..]), Words(b));
    }
  }

  lemma {:induction false} RunOf(w: string, rest: string)
    requires (forall i :: 0 <= i < |w| ==> Alnum(w[i])) && (rest == "" || !Alnum(rest[0]))
    ensures Run(w + rest) == |w|
    decreases |w|
  {
    if w != "" {
      assert (w + rest)[1..] == w[1..] + rest;
      RunOf(w[1..], rest);
    } else {
      assert w + rest == rest;
    }
  }

  /** The words of joined words are those words. */
  lemma {:induction false} WordsOfJoin(ws: seq<string>)
    requires AllWords(ws)
    ensures Words(Join(ws, HYPHEN)) == ws
    decreases |ws|
  {
    if |ws| == 1 {
      WordItself(ws[0]);
    } else if |ws| > 1 {
      WordsOfJoin(ws[1..]);
      WordsBetween(ws[0], '-', Join(ws[1..], HYPHEN));
      WordItself(ws[0]);
      assert ws == [ws[0]] + ws[1..];
    }
  }

  /** A join of words has no hyphen at either end. */
  lemma {:induction false} JoinEnds(ws: seq<string>)
    requires AllWords(ws) && ws != []
    ensures var s := Join(ws, HYPHEN); s != "" && Alnum(s[0]) && Alnum(s[|s| - 1])
    decreases |ws|
  {
    if |ws| > 1 {
      JoinEnds(ws[1..]);
    }
  }

  lemma {:induction false} HyphenateRun(w: string, rest: string)
    requires forall i :: 0 <= i < |w| ==> Alnum(w[i])
    ensures Hyphenate(w + rest) == w + Hyphenate(rest)
    decreases |w|
  {
    if w == "" {
      assert w + rest == rest;
    } else {
      assert (w + rest)[1..] == w[1..] + rest;
      HyphenateRun(w[1..], rest);
    }
  }

  predicate Edge(s: string) {
    s == "" || s == HYPHEN
  }

  /** Hyphenated text is the joined words between two optional hyphens; a text that starts with a letter or digit
      has none in front. */
  ghost predicate Framed(s: string, lead: string, trail: string) {
    && Hyphenate(s) == lead + Join(Words(s), HYPHEN) + trail
    && lead == (if s == "" || Alnum(s[0]) then "" else HYPHEN)
    && Edge(trail)
    && (Words(s) == [] ==> trail == "")
  }

  lemma {:induction false} HyphenateIsWords(s: string) returns (lead: string, trail: string)
    ensures Framed(s, lead, trail)
    decreases |s|
  {
    if s == "" {
      lead, trail := "", "";
    } else if !Alnum(s[0]) {
      var l, t := HyphenateIsWords(DropOthers(s));
      FramedOthers(s, l, t);
      lead, trail := HYPHEN, t;
    } else {
      var l, t := HyphenateIsWords(s[Run(s)..]);
      FramedRun(s, l, t);
      lead, trail := "", if Words(s[Run(s)..]) == [] then l else t;
    }
  }

  lemma FramedOthers(s: string, l: string, t: string)
    requires s != "" && !Alnum(s[0]) && Framed(DropOthers(s), l, t)
    ensures Framed(s, HYPHEN, t)
  {
    WordsSkipOthers(s);
    assert l == "";
    PrependLead(HYPHEN, Hyphenate(DropOthers(s)), Join(Words(s), HYPHEN), t);
  }

  lemma PrependLead(lead: string, text: string, body: string, trail: string)
    requires text == "" + body + trail
    ensures lead + text == lead + body + trail
  {
  }

  lemma FramedRun(s: string, l: string, t: string)
    requires s != "" && Alnum(s[0]) && Framed(s[Run(s)..], l, t)
    ensures Framed(s, "", if Words(s[Run(s)..]) == [] then l else t)
  {
    var w, rest := s[..Run(s)], s[Run(s)..];
    assert s == w + rest;
    HyphenateRun(w, rest);
    AfterRun(w, Words(rest), l, t);
  }

  lemma AfterRun(w: string, ws: seq<string>, lead: string, trail: string)
    requires ws == [] ==> trail == ""
    requires ws != [] ==> lead == HYPHEN
    ensures w + (lead + Join(ws, HYPHEN) + trail)
            == "" + Join([w] + ws, HYPHEN) + if ws == [] then lead else trail
  {
    if ws == [] {
      assert [w] + ws == [w];
    } else {
      JoinCons(w, ws, HYPHEN);
    }
  }

  lemma {:induction false} StripJoin(ws: seq<string>, lead: string, trail: string)
    requires AllWords(ws) && Edge(lead) && Edge(trail)
    ensures StripRight(StripLeft(lead + Join(ws, HYPHEN) + trail)) == Join(ws, HYPHEN)
  {
    var body := Join(ws, HYPHEN);
    if ws == [] {
      assert lead + body + trail == lead + trail;
      StripOnlyHyphens(lead + trail);
    } else {
      JoinEnds(ws);
      var s := lead + body + trail;
      if lead == HYPHEN {
        assert s[1..] == body + trail;
      } else {
        assert s == body + trail;
      }
      assert StripLeft(s) == body + trail;
      if trail == HYPHEN {
        assert (body + trail)[..|body|] == body;
      } else {
        assert body + trail == body;
      }
    }
  }

  lemma {:induction false} StripOnlyHyphens(s: string)
    requires forall i :: 0 <= i < |s| ==> s[i] == '-'
    ensures StripLeft(s) == ""
    decreases |s|
  {
    if s != "" {
      StripOnlyHyphens(s[1..]);
    }
  }

  function SlugWords(value: string): seq<string> {
    Words(Lower(Trim(value)))
  }

  /** A slug is the lower-cased words of its text joined by single hyphens; there is none exactly when the text has no
      letter or digit. */
  lemma SlugIsJoinedWords(value: string)
    ensures Normalized(value) == Join(SlugWords(value), HYPHEN)
    ensures Slugify(value).Ok? <==> SlugWords(value) != []
  {
    var s := Lower(Trim(value));
    var lead, trail := HyphenateIsWords(s);
    WordsAreWords(s);
    StripJoin(Words(s), lead, trail);
    if Words(s) != [] {
      JoinEnds(Words(s));
    }
  }

  /** What slugs look like: words joined by hyphens. */
  ghost predicate IsSlug(s: string, ws: seq<string>) {
    ws != [] && AllWords(ws) && s == Join(ws, HYPHEN)
  }

  predicate SlugChar(c: char) {
    Alnum(c) || c == '-'
  }

  lemma {:induction false} SlugChars(ws: seq<string>)
    requires AllWords(ws)
    ensures forall i :: 0 <= i < |Join(ws, HYPHEN)| ==> SlugChar(Join(ws, HYPHEN)[i])
    decreases |ws|
  {
    if |ws| > 1 {
      SlugChars(ws[1..]);
    }
  }

  lemma TrimOfSolid(s: string)
    requires s != "" && !IsSpace(s[0]) && !IsSpace(s[|s| - 1])
    ensures Trim(s) == s
  {
    TrimIsTrimmed(s);
  }

  lemma AlnumIsSolid(c: char)
    ensures SlugChar(c) ==> !IsSpace(c) && LowerChar(c) == c
  {
  }

  lemma LowerOfSlugChars(s: string)
    requires forall i :: 0 <= i < |s| ==> SlugChar(s[i])
    ensures Lower(s) == s
  {
    forall i | 0 <= i < |s| ensures Lower(s)[i] == s[i] {
      AlnumIsSolid(s[i]);
    }
  }

  lemma SlugEnds(s: string, ws: seq<string>)
    requires IsSlug(s, ws)
    ensures s != "" && !IsSpace(s[0]) && !IsSpace(s[|s| - 1])
  {
    JoinEnds(ws);
    AlnumIsSolid(s[0]);
    AlnumIsSolid(s[|s| - 1]);
  }

  lemma SlugIsPlain(s: string, ws: seq<string>)
    requires IsSlug(s, ws)
    ensures Trim(s) == s && Lower(s) == s && Words(s) == ws && s != ""
  {
    SlugChars(ws);
    LowerOfSlugChars(s);
    SlugEnds(s, ws);
    TrimOfSolid(s);
    WordsOfJoin(ws);
  }

  /** A slug has no hyphen at its ends and no two in a row. */
  lemma {:induction false} SlugIsTight(s: string, ws: seq<string>)
    requires IsSlug(s, ws)
    ensures s[0] != '-' && s[|s| - 1] != '-'
    ensures forall i :: 0 <= i && i + 1 < |s| ==> !(s[i] == '-' && s[i + 1] == '-')
    decreases |ws|
  {
    JoinEnds(ws);
    if |ws| > 1 {
      var rest := Join(ws[1..], HYPHEN);
      SlugIsTight(rest, ws[1..]);
      assert s == ws[0] + HYPHEN + rest;
      assert forall i :: 0 <= i < |ws[0]| ==> s[i] == ws[0][i];
      assert forall i :: |ws[0]| < i < |s| ==> s[i] == rest[i - |ws[0]| - 1];
    }
  }

  /** Making a slug of a slug changes nothing. */
  lemma SlugifyIdempotent(value: string)
    requires Slugify(value).Ok?
    ensures Slugify(Slugify(value).value) == Slugify(value)
    ensures IsSlug(Slugify(value).value, SlugWords(value))
  {
    SlugIsJoinedWords(value);
    WordsAreWords(Lower(Trim(value)));
    var s := Slugify(value).value;
    SlugIsPlain(s, SlugWords(value));
    SlugIsJoinedWords(s);
  }

  // ---- members --------------------------------------------------------------------------------------------

  datatype RawMember = RawMember(key: Option<string>, name: string)

  datatype Member = Member(key: string, name: string)

  function ParseMember(raw: RawMember): Result<Member> {
    var key := Slugify(if raw.key.Some? then raw.key.value else raw.name);
    if key.Err? then Err(key.error) else Ok(Member(key.value, Trim(raw.name)))
  }

  function ParseMembers(raws: seq<RawMember>): Result<seq<Member>> {
    if raws == [] then Ok([])
    else
      var first := ParseMember(raws[0]);
      if first.Err? then Err(first.error)
      else
        var rest := ParseMembers(raws[1..]);
        if rest.Err? then rest else Ok([first.value] + rest.value)
  }

  ghost predicate DistinctKeys(members: seq<Member>) {
    forall i, j :: 0 <= i < j < |members| ==> members[i].key != members[j].key
  }

  method EnsureUniqueMemberKeys(members: seq<Member>) returns (r: Result<seq<Member>>)
    ensures DistinctKeys(members) ==> r == Ok(members)
    ensures !DistinctKeys(members) ==> r.Err? && r.error.DuplicateKey?
    ensures r.Err? ==> exists i, j :: 0 <= i < j < |members| && members[i].key == members[j].key == r.error.key
                                      && DistinctKeys(members[..j])
  {
    var seen: set<string> := {};
    for k := 0 to |members|
      invariant forall key :: key in seen <==> exists i :: 0 <= i < k && members[i].key == key
      invariant DistinctKeys(members[..k])
    {
      if members[k].key in seen {
        return Err(DuplicateKey(members[k].key));
      }
      seen := seen + {members[k].key};
    }
    assert members[..|members|] == members;
    r := Ok(members);
  }

  ghost predicate KeyIsSlug(m: Member) {
    IsSlug(m.key, Words(m.key))
  }

  ghost predicate SlugKeys(members: seq<Member>) {
    forall i :: 0 <= i < |members| ==> KeyIsSlug(members[i])
  }

  lemma SlugKeysCons(first: Member, rest: seq<Member>)
    requires KeyIsSlug(first) && SlugKeys(rest)
    ensures SlugKeys([first] + rest)
  {
    var all := [first] + rest;
    forall i | 0 <= i < |all| ensures KeyIsSlug(all[i]) {
      assert i > 0 ==> KeyIsSlug(rest[i - 1]);
    }
  }

  lemma ParsedKeyIsSlug(raw: RawMember)
    ensures ParseMember(raw).Ok? ==> KeyIsSlug(ParseMember(raw).value)
  {
    var source := if raw.key.Some? then raw.key.value else raw.name;
    if Slugify(source).Ok? {
      SlugifyIdempotent(source);
      SlugIsPlain(Slugify(source).value, SlugWords(source));
    }
  }

  /** Validation leaves only slugs as keys. */
  lemma {:induction false} ParsedKeysAreSlugs(raws: seq<RawMember>)
    ensures ParseMembers(raws).Ok? ==> SlugKeys(ParseMembers(raws).value)
    decreases |raws|
  {
    if raws != [] {
      ParsedKeysAreSlugs(raws[1..]);
      ParsedKeyIsSlug(raws[0]);
      if ParseMembers(raws).Ok? {
        SlugKeysCons(ParseMember(raws[0]).value, ParseMembers(raws[1..]).value);
      }
    }
  }

  // ---- materialisation ------------------------------------------------------------------------------------

  function JoinNamePrefix(prefix: Option<string>, value: string): string {
    var p := if prefix.Some? then Trim(prefix.value) else "";
    if p != "" then p + HYPHEN + value else value
  }

  function FileStem(prefix: Option<string>, key: string): Result<string> {
    Slugify(JoinNamePrefix(prefix, key))
  }

  function PrefixWords(prefix: Option<string>): seq<string> {
    if prefix.Some? then Words(Lower(Trim(prefix.value))) else []
  }

  lemma LowerAround(a: string, b: string)
    ensures Lower(a + HYPHEN + b) == Lower(a) + HYPHEN + Lower(b)
  {
  }

  /** The slug of a prefix in front of a key. */
  lemma PrefixedSlug(p: string, key: string)
    requires p != "" && Trimmed(p) && IsSlug(key, Words(key))
    ensures Slugify(p + HYPHEN + key)
            == Ok(if Words(Lower(p)) == [] then key else Join(Words(Lower(p)), HYPHEN) + HYPHEN + key)
  {
    var ws, core := Words(key), Words(Lower(p));
    var value := p + HYPHEN + key;
    SlugIsPlain(key, ws);
    SlugEnds(key, ws);
    assert value[0] == p[0] && value[|value| - 1] == key[|key| - 1];
    TrimOfSolid(value);
    LowerAround(p, key);
    WordsBetween(Lower(p), '-', key);
    assert SlugWords(value) == core + ws;
    SlugOfWords(value);
    if core != [] {
      JoinConcat(core, ws, HYPHEN);
    } else {
      assert core + ws == ws;
    }
  }

  lemma SlugOfWords(value: string)
    requires SlugWords(value) != []
    ensures Slugify(value) == Ok(Join(SlugWords(value), HYPHEN))
  {
    SlugIsJoinedWords(value);
  }

  /** The stem of a member is its key, after the prefix's own slug if the prefix has one. */
  lemma StemForm(prefix: Option<string>, key: string)
    requires IsSlug(key, Words(key))
    ensures FileStem(prefix, key)
            == Ok(if PrefixWords(prefix) == [] then key else Join(PrefixWords(prefix), HYPHEN) + HYPHEN + key)
  {
    var p := if prefix.Some? then Trim(prefix.value) else "";
    if p == "" {
      assert Lower("") == "";
      SlugIsPlain(key, Words(key));
      SlugIsJoinedWords(key);
    } else {
      TrimIsTrimmed(prefix.value);
      PrefixedSlug(p, key);
    }
  }

  /** A prefix never makes two keys meet. */
  lemma StemsDiffer(prefix: Option<string>, a: string, b: string)
    requires IsSlug(a, Words(a)) && IsSlug(b, Words(b)) && a != b
    ensures FileStem(prefix, a) != FileStem(prefix, b)
  {
    StemForm(prefix, a);
    StemForm(prefix, b);
    var head := Join(PrefixWords(prefix), HYPHEN) + HYPHEN;
    assert (head + a)[|head|..] == a;
    assert (head + b)[|head|..] == b;
  }

  lemma StemExists(prefix: Option<string>, key: string)
    requires IsSlug(key, Words(key))
    ensures FileStem(prefix, key).Ok?
  {
    StemForm(prefix, key);
  }

  function StemsOf(prefix: Option<string>, members: seq<Member>): (r: seq<Result<string>>)
    ensures |r| == |members|
  {
    seq(|members|, i requires 0 <= i < |members| => FileStem(prefix, members[i].key))
  }

  ghost predicate GoodStems(stems: seq<Result<string>>) {
    && (forall i :: 0 <= i < |stems| ==> stems[i].Ok?)
    && (forall i, j :: 0 <= i < j < |stems| ==> stems[i] != stems[j])
  }

  /** For every prefix and every validated template, all file stems exist and no two are equal. */
  lemma StemsAreDistinct(prefix: Option<string>, raws: seq<RawMember>)
    ensures var parsed := ParseMembers(raws);
            parsed.Ok? && DistinctKeys(parsed.value) ==> GoodStems(StemsOf(prefix, parsed.value))
  {
    ParsedKeysAreSlugs(raws);
    if ParseMembers(raws).Ok? && DistinctKeys(ParseMembers(raws).value) {
      SlugStemsAreDistinct(prefix, ParseMembers(raws).value);
    }
  }

  lemma SlugStemsAreDistinct(prefix: Option<string>, members: seq<Member>)
    requires SlugKeys(members) && DistinctKeys(members)
    ensures GoodStems(StemsOf(prefix, members))
  {
    assert forall i :: 0 <= i < |members| ==> KeyIsSlug(members[i]);
    forall i | 0 <= i < |members| ensures FileStem(prefix, members[i].key).Ok? {
      StemExists(prefix, members[i].key);
    }
    forall i, j | 0 <= i < j < |members| ensures FileStem(prefix, members[i].key) != FileStem(prefix, members[j].key) {
      StemsDiffer(prefix, members[i].key, members[j].key);
    }
  }

  // ---- what a slug keeps ------------------------------------------------------------------------------------

  /** The small letters and digits of a text, in order. */
  function LettersAndDigits(s: string): string {
    if s == "" then ""
    else (if 'a' <= s[0] <= 'z' || '0' <= s[0] <= '9' then [s[0]] else "") + LettersAndDigits(s[1..])
  }

  lemma {:induction false} LettersConcat(a: string, b: string)
    ensures LettersAndDigits(a + b) == LettersAndDigits(a) + LettersAndDigits(b)
    decreases |a|
  {
    if a == "" {
      assert a + b == b;
    } else {
      assert (a + b)[1..] == a[1..] + b;
      LettersConcat(a[1..], b);
    }
  }

  lemma {:induction false} DropKeepsLetters(s: string)
    ensures LettersAndDigits(DropOthers(s)) == LettersAndDigits(s)
    decreases |s|
  {
    if s != "" && !Alnum(s[0]) {
      DropKeepsLetters(s[1..]);
    }
  }

  lemma {:induction false} HyphenateKeepsLetters(s: string)
    ensures LettersAndDigits(Hyphenate(s)) == LettersAndDigits(s)
    decreases |s|
  {
    if s != "" {
      if Alnum(s[0]) {
        HyphenateKeepsLetters(s[1..]);
        LettersConcat([s[0]], Hyphenate(s[1..]));
      } else {
        DropKeepsLetters(s);
        HyphenateKeepsLetters(DropOthers(s));
        LettersConcat(HYPHEN, Hyphenate(DropOthers(s)));
      }
    }
  }

  lemma {:induction false} StripLeftKeepsLetters(s: string)
    ensures LettersAndDigits(StripLeft(s)) == LettersAndDigits(s)
    decreases |s|
  {
    if s != "" && s[0] == '-' {
      StripLeftKeepsLetters(s[1..]);
    }
  }

  lemma {:induction false} StripRightKeepsLetters(s: string)
    ensures LettersAndDigits(StripRight(s)) == LettersAndDigits(s)
    decreases |s|
  {
    if s != "" && s[|s| - 1] == '-' {
      var t := s[..|s| - 1];
      assert s == t + "-";
      LettersConcat(t, "-");
      StripRightKeepsLetters(t);
    }
  }

  /** A slug keeps the letters and digits of the trimmed, lower-cased text, all of them and in order, and holds nothing
      else but hyphens. */
  lemma SlugKeepsLetters(value: string)
    ensures LettersAndDigits(Normalized(value)) == LettersAndDigits(Lower(Trim(value)))
    ensures forall i :: 0 <= i < |Normalized(value)| ==>
              var c := Normalized(value)[i]; 'a' <= c <= 'z' || '0' <= c <= '9' || c == '-'
  {
    var s := Lower(Trim(value));
    HyphenateKeepsLetters(s);
    StripLeftKeepsLetters(Hyphenate(s));
    StripRightKeepsLetters(StripLeft(Hyphenate(s)));
    SlugIsJoinedWords(value);
    WordsAreWords(s);
    SlugChars(SlugWords(value));
  }
}
