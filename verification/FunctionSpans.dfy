/** Function spans found in source text. The header patterns are parameters; braces and indentation are concrete. */
module FunctionSpans {
  import opened Text

  datatype Span = Span(name: string, startLine: nat, endLine: nat)

  // ---- braces of a line -----------------------------------------------------------------------------------

  predicate IsQuote(c: char) {
    c == '\'' || c == '"' || c == '`'
  }

  function Delta(c: char): int {
    if c == '{' then 1 else if c == '}' then -1 else 0
  }

  /** Opening minus closing braces of the rest of a line, outside strings and not escaped. */
  function BracesFrom(line: string, inString: Option<char>, escaped: bool): int
    decreases |line|
  {
    if line == "" then 0
    else
      var c, rest := line[0], line[1..];
      if escaped then BracesFrom(rest, inString, false)
      else if c == '\\' then BracesFrom(rest, inString, true)
      else if inString.Some? then BracesFrom(rest, if c == inString.value then None else inString, false)
      else if IsQuote(c) then BracesFrom(rest, Some(c), false)
      else Delta(c) + BracesFrom(rest, None, false)
  }

  function BraceCount(line: string): int {
    BracesFrom(line, None, false)
  }

  method CountBraces(line: string) returns (count: int)
    ensures count == BraceCount(line)
  {
    count := 0;
    var inString: Option<char> := None;
    var escaped := false;
    for i := 0 to |line|
      invariant count + BracesFrom(line[i..], inString, escaped) == BraceCount(line)
    {
      var c := line[i];
      assert line[i..][1..] == line[i + 1..];
      if escaped {
        escaped := false;
        continue;
      }
      if c == '\\' {
        escaped := true;
        continue;
      }
      if inString.Some? {
        if c == inString.value {
          inString := None;
        }
        continue;
      }
      if IsQuote(c) {
        inString := Some(c);
        continue;
      }
      if c == '{' {
        count := count + 1;
      }
      if c == '}' {
        count := count - 1;
      }
    }
  }

  /** Text without quotes and escapes. */
  predicate Plain(s: string) {
    forall i :: 0 <= i < |s| ==> !IsQuote(s[i]) && s[i] != '\\'
  }

  lemma {:induction false} PlainPrefix(a: string, b: string)
    requires Plain(a)
    ensures BraceCount(a + b) == BraceCount(a) + BraceCount(b)
    decreases |a|
  {
    if a == "" {
      assert a + b == b;
    } else {
      assert (a + b)[1..] == a[1..] + b;
      PlainPrefix(a[1..], b);
    }
  }

  /** Outside strings the count is opening braces less closing ones. */
  lemma {:induction false} PlainBraces(s: string)
    requires Plain(s)
    ensures BraceCount(s) == multiset(s)['{'] as int - multiset(s)['}'] as int
    decreases |s|
  {
    if s != "" {
      PlainBraces(s[1..]);
      assert s == [s[0]] + s[1..];
      assert multiset(s) == multiset{s[0]} + multiset(s[1..]);
    }
  }

  /** An escaped character does not count, inside or outside a string. */
  lemma EscapesDoNotCount(a: string, c: char, b: string)
    requires Plain(a)
    ensures BraceCount(a + ("\\" + ([c] + b))) == BraceCount(a) + BraceCount(b)
  {
    var t := [c] + b;
    var s := "\\" + t;
    PlainPrefix(a, s);
    assert s[0] == '\\' && s[1..] == t && t[1..] == b;
    assert BraceCount(s) == BracesFrom(t, None, true) == BracesFrom(b, None, false);
  }

  lemma {:induction false} InsideString(t: string, q: char, b: string)
    requires forall i :: 0 <= i < |t| ==> t[i] != q && t[i] != '\\'
    requires IsQuote(q)
    ensures BracesFrom(t + [q] + b, Some(q), false) == BraceCount(b)
    decreases |t|
  {
    if t == "" {
      assert t + [q] + b == [q] + b;
      assert ([q] + b)[1..] == b;
    } else {
      assert (t + [q] + b)[1..] == t[1..] + [q] + b;
      InsideString(t[1..], q, b);
    }
  }

  /** Braces in a string literal do not count: a quoted text may hold any of them. */
  lemma StringsDoNotCount(a: string, q: char, t: string, b: string)
    requires Plain(a) && q in {'\'', '"', '`'} && forall i :: 0 <= i < |t| ==> t[i] != q && t[i] != '\\'
    ensures BraceCount(a + ([q] + t + [q] + b)) == BraceCount(a) + BraceCount(b)
  {
    var s := [q] + t + [q] + b;
    PlainPrefix(a, s);
    assert s[1..] == t + [q] + b;
    InsideString(t, q, b);
  }

  // ---- brace languages ------------------------------------------------------------------------------------

  /** Braces of the lines from..to, both included. */
  function Running(lines: seq<string>, from: nat, to: nat): int
    requires from <= to < |lines|
    decreases |lines| - from
  {
    BraceCount(lines[from]) + if from == to then 0 else Running(lines, from + 1, to)
  }

  /** The first line at which the running total, starting from depth, is no longer positive; |lines| if there is none. */
  function FirstClose(lines: seq<string>, from: nat, depth: int): (r: nat)
    requires from <= |lines|
    ensures from <= r <= |lines|
    ensures r < |lines| ==> depth + Running(lines, from, r) <= 0
    ensures forall k :: from <= k < r ==> depth + Running(lines, from, k) > 0
    decreases |lines| - from
  {
    if from == |lines| then from
    else
      var next := depth + BraceCount(lines[from]);
      if next <= 0 then from else FirstClose(lines, from + 1, next)
  }

  type Header = string -> Option<string>

  /** Spans from line index i on, outside any function. */
  function BraceSpans(lines: seq<string>, header: Header, i: nat): seq<Span>
    requires i <= |lines|
    decreases |lines| - i, 0
  {
    if i == |lines| then []
    else
      var h := header(lines[i]);
      if h.None? then BraceSpans(lines, header, i + 1)
      else if BraceCount(lines[i]) <= 0 then [Span(h.value, i + 1, i + 1)] + BraceSpans(lines, header, i + 1)
      else OpenSpans(lines, header, h.value, i + 1, i + 1, BraceCount(lines[i]))
  }

  /** Spans from line index i on, inside the function that started at startLine. */
  function OpenSpans(lines: seq<string>, header: Header, name: string, startLine: nat, i: nat, depth: int): seq<Span>
    requires i <= |lines|
    decreases |lines| - i, 1
  {
    var j := FirstClose(lines, i, depth);
    if j == |lines| then [Span(name, startLine, |lines|)]
    else [Span(name, startLine, j + 1)] + BraceSpans(lines, header, j + 1)
  }

  function Closing(current: Option<Span>, endLine: nat): seq<Span> {
    if current.None? then [] else [current.value.(endLine := endLine)]
  }

  /** The spans still to come, inside or outside a function. */
  function BraceRest(lines: seq<string>, header: Header, current: Option<Span>, i: nat, depth: int): seq<Span>
    requires i <= |lines|
  {
    if current.None? then BraceSpans(lines, header, i)
    else OpenSpans(lines, header, current.value.name, current.value.startLine, i, depth)
  }

  /** Inside a function a line either closes it or moves the running total on. */
  lemma BraceInside(lines: seq<string>, header: Header, current: Span, i: nat, depth: int)
    requires i < |lines|
    ensures var next := depth + BraceCount(lines[i]);
            BraceRest(lines, header, Some(current), i, depth)
            == if next <= 0 then Closing(Some(current), i + 1) + BraceRest(lines, header, None, i + 1, 0)
               else BraceRest(lines, header, Some(current), i + 1, next)
  {
    var next := depth + BraceCount(lines[i]);
    assert FirstClose(lines, i, depth) == if next <= 0 then i else FirstClose(lines, i + 1, next);
  }

  method ParseBraces(lines: seq<string>, header: Header) returns (results: seq<Span>)
    ensures results == BraceSpans(lines, header, 0)
  {
    results := [];
    var braceDepth := 0;
    var current: Option<Span> := None;
    for i := 0 to |lines|
      invariant results + BraceRest(lines, header, current, i, braceDepth) == BraceRest(lines, header, None, 0, 0)
    {
      var lineNum := i + 1;
      var braces := CountBraces(lines[i]);
      if current.Some? {
        BraceInside(lines, header, current.value, i, braceDepth);
        braceDepth := braceDepth + braces;
        if braceDepth <= 0 {
          Assoc(results, Closing(current, lineNum), BraceRest(lines, header, None, i + 1, 0));
          results := results + Closing(current, lineNum);
          current := None;
          braceDepth := 0;
        }
        continue;
      }
      var h := header(lines[i]);
      if h.Some? {
        braceDepth := braces;
        if braceDepth > 0 {
          current := Some(Span(h.value, lineNum, lineNum));
        } else {
          Regroup(results, Span(h.value, lineNum, lineNum), BraceSpans(lines, header, i + 1));
          results := results + [Span(h.value, lineNum, lineNum)];
        }
      }
    }
    BraceAtEnd(lines, header, current, braceDepth);
    results := results + Closing(current, |lines|);
  }

  lemma BraceAtEnd(lines: seq<string>, header: Header, current: Option<Span>, depth: int)
    ensures BraceRest(lines, header, current, |lines|, depth) == Closing(current, |lines|)
  {
    assert FirstClose(lines, |lines|, depth) == |lines|;
    assert BraceSpans(lines, header, |lines|) == [];
  }

  /** TypeScript headers: the name of the match, unless it is empty or a control keyword that looks like a call. */
  function TypeScriptHeader(pattern: Header): Header {
    (line: string) =>
      var m := pattern(line);
      if m.None? then None
      else if m.value == "" || StartsWith(m.value, "//") || m.value in {"if", "for", "while", "switch", "catch"} then None
      else m
  }

  method ParseTypeScript(source: string, pattern: Header) returns (results: seq<Span>)
    ensures results == BraceSpans(Split(source, "\n"), TypeScriptHeader(pattern), 0)
  {
    results := ParseBraces(Split(source, "\n"), TypeScriptHeader(pattern));
  }

  method ParseGo(source: string, pattern: Header) returns (results: seq<Span>)
    ensures results == BraceSpans(Split(source, "\n"), pattern, 0)
  {
    results := ParseBraces(Split(source, "\n"), pattern);
  }

  // ---- Python ---------------------------------------------------------------------------------------------

  datatype Def = Def(indent: nat, name: string)

  type DefHeader = string -> Option<Def>

  function Indentation(line: string): nat {
    |line| - |TrimStart(line)|
  }

  /** A line that ends a function of the given indentation: not blank, not deeper, not a comment. */
  predicate Dedents(line: string, baseIndent: nat) {
    TrimEnd(line) != "" && Indentation(line) <= baseIndent && !StartsWith(TrimStart(line), "#")
  }

  /** The first character of the line that is no white space is at column k, and starts no comment. */
  predicate CodeAt(line: string, k: nat) {
    k < |line| && !IsSpace(line[k]) && line[k] != '#' && forall i :: 0 <= i < k ==> IsSpace(line[i])
  }

  /** A line dedents exactly when its code starts at the column of the function's header or before it. */
  lemma DedentsExact(line: string, baseIndent: nat)
    ensures Dedents(line, baseIndent) <==> exists k: nat :: k <= baseIndent && CodeAt(line, k)
  {
    var text := TrimStart(line);
    var k := |line| - |text|;
    if text != "" {
      assert line[k] == text[0];
      assert text[..1] == [text[0]];
      assert |TrimEnd(line)| > k;
      assert CodeAt(line, k) <==> !StartsWith(text, "#");
    } else {
      assert forall i :: 0 <= i < |line| ==> IsSpace(line[i]);
      assert TrimEnd(line) == "";
    }
    forall j: nat | CodeAt(line, j) ensures j == k {
    }
  }

  /** The first line that is a header or dedents; |lines| if there is none. */
  function FirstStop(lines: seq<string>, header: DefHeader, from: nat, baseIndent: nat): (r: nat)
    requires from <= |lines|
    ensures from <= r <= |lines|
    ensures r < |lines| ==> header(lines[r]).Some? || Dedents(lines[r], baseIndent)
    ensures forall k :: from <= k < r ==> header(lines[k]).None? && !Dedents(lines[k], baseIndent)
    decreases |lines| - from
  {
    if from == |lines| || header(lines[from]).Some? || Dedents(lines[from], baseIndent) then from
    else FirstStop(lines, header, from + 1, baseIndent)
  }

  function PythonSpans(lines: seq<string>, header: DefHeader, i: nat): seq<Span>
    requires i <= |lines|
    decreases |lines| - i, 0
  {
    if i == |lines| then []
    else
      var h := header(lines[i]);
      if h.None? then PythonSpans(lines, header, i + 1)
      else OpenPython(lines, header, h.value.name, i + 1, i + 1, h.value.indent)
  }

  function OpenPython(lines: seq<string>, header: DefHeader, name: string, startLine: nat, i: nat, baseIndent: nat): seq<Span>
    requires i <= |lines|
    decreases |lines| - i, 1
  {
    var j := FirstStop(lines, header, i, baseIndent);
    [Span(name, startLine, j)] + PythonSpans(lines, header, j)
  }

  /** The spans still to come, inside or outside a function. */
  function PythonRest(lines: seq<string>, header: DefHeader, current: Option<Span>, i: nat, baseIndent: nat): seq<Span>
    requires i <= |lines|
  {
    if current.None? then PythonSpans(lines, header, i)
    else OpenPython(lines, header, current.value.name, current.value.startLine, i, baseIndent)
  }

  /** A header closes the current function and opens its own. */
  lemma PythonAtHeader(lines: seq<string>, header: DefHeader, current: Option<Span>, i: nat, baseIndent: nat)
    requires i < |lines| && header(lines[i]).Some?
    ensures var h := header(lines[i]).value;
            PythonRest(lines, header, current, i, baseIndent)
            == Closing(current, i) + PythonRest(lines, header, Some(Span(h.name, i + 1, i + 1)), i + 1, h.indent)
  {
    var h := header(lines[i]).value;
    var next := OpenPython(lines, header, h.name, i + 1, i + 1, h.indent);
    assert PythonSpans(lines, header, i) == next;
    if current.Some? {
      assert FirstStop(lines, header, i, baseIndent) == i;
    } else {
      assert [] + next == next;
    }
  }

  /** A dedented line closes the current function. */
  lemma PythonAtDedent(lines: seq<string>, header: DefHeader, current: Span, i: nat, baseIndent: nat)
    requires i < |lines| && header(lines[i]).None? && Dedents(lines[i], baseIndent)
    ensures PythonRest(lines, header, Some(current), i, baseIndent)
            == Closing(Some(current), i) + PythonRest(lines, header, None, i + 1, baseIndent)
  {
    assert FirstStop(lines, header, i, baseIndent) == i;
    assert PythonSpans(lines, header, i) == PythonSpans(lines, header, i + 1);
  }

  /** Any other line changes nothing. */
  lemma PythonAtLine(lines: seq<string>, header: DefHeader, current: Option<Span>, i: nat, baseIndent: nat)
    requires i < |lines| && header(lines[i]).None? && (current.Some? ==> !Dedents(lines[i], baseIndent))
    ensures PythonRest(lines, header, current, i, baseIndent) == PythonRest(lines, header, current, i + 1, baseIndent)
  {
    if current.Some? {
      assert FirstStop(lines, header, i, baseIndent) == FirstStop(lines, header, i + 1, baseIndent);
    }
  }

  /** At the end of the file an open function ends with it. */
  lemma PythonAtEnd(lines: seq<string>, header: DefHeader, current: Option<Span>, baseIndent: nat)
    ensures PythonRest(lines, header, current, |lines|, baseIndent) == Closing(current, |lines|)
  {
    assert FirstStop(lines, header, |lines|, baseIndent) == |lines|;
    assert PythonSpans(lines, header, |lines|) == [];
  }

  method ParsePython(source: string, header: DefHeader) returns (results: seq<Span>)
    ensures results == PythonSpans(Split(source, "\n"), header, 0)
  {
    var lines := Split(source, "\n");
    results := [];
    var current: Option<Span> := None;
    var baseIndent := 0;
    for i := 0 to |lines|
      invariant results + PythonRest(lines, header, current, i, baseIndent) == PythonRest(lines, header, None, 0, 0)
    {
      var line, lineNum := lines[i], i + 1;
      var h := header(line);
      if h.Some? {
        PythonAtHeader(lines, header, current, i, baseIndent);
        Assoc(results, Closing(current, i), PythonRest(lines, header, Some(Span(h.value.name, lineNum, lineNum)), i + 1, h.value.indent));
        results := results + Closing(current, lineNum - 1);
        baseIndent := h.value.indent;
        current := Some(Span(h.value.name, lineNum, lineNum));
      } else if current.Some? && Dedents(line, baseIndent) {
        PythonAtDedent(lines, header, current.value, i, baseIndent);
        Assoc(results, Closing(current, i), PythonRest(lines, header, None, i + 1, baseIndent));
        results := results + Closing(current, lineNum - 1);
        current := None;
      } else {
        PythonAtLine(lines, header, current, i, baseIndent);
      }
    }
    PythonAtEnd(lines, header, current, baseIndent);
    results := results + Closing(current, |lines|);
  }

  // ---- what the spans look like ---------------------------------------------------------------------------

  /** Spans lie in lines lo..n, in order and without common lines. */
  ghost predicate Ordered(spans: seq<Span>, lo: nat, n: nat) {
    && (forall i :: 0 <= i < |spans| ==> lo <= spans[i].startLine <= spans[i].endLine <= n)
    && (forall i, j :: 0 <= i < j < |spans| ==> spans[i].endLine < spans[j].startLine)
  }

  lemma OrderedCons(s: Span, rest: seq<Span>, lo: nat, n: nat)
    requires lo <= s.startLine <= s.endLine <= n && Ordered(rest, s.endLine + 1, n)
    ensures Ordered([s] + rest, lo, n)
  {
  }

  lemma {:induction false} BraceSpansOrdered(lines: seq<string>, header: Header, i: nat)
    requires i <= |lines|
    ensures Ordered(BraceSpans(lines, header, i), i + 1, |lines|)
    decreases |lines| - i
  {
    if i < |lines| {
      var h := header(lines[i]);
      if h.None? {
        BraceSpansOrdered(lines, header, i + 1);
      } else if BraceCount(lines[i]) <= 0 {
        BraceSpansOrdered(lines, header, i + 1);
        OrderedCons(Span(h.value, i + 1, i + 1), BraceSpans(lines, header, i + 1), i + 1, |lines|);
      } else {
        var j := FirstClose(lines, i + 1, BraceCount(lines[i]));
        assert BraceSpans(lines, header, i) == OpenSpans(lines, header, h.value, i + 1, i + 1, BraceCount(lines[i]));
        if j < |lines| {
          BraceSpansOrdered(lines, header, j + 1);
          OrderedCons(Span(h.value, i + 1, j + 1), BraceSpans(lines, header, j + 1), i + 1, |lines|);
        }
      }
    }
  }

  lemma {:induction false} PythonSpansOrdered(lines: seq<string>, header: DefHeader, i: nat)
    requires i <= |lines|
    ensures Ordered(PythonSpans(lines, header, i), i + 1, |lines|)
    decreases |lines| - i
  {
    if i < |lines| {
      var h := header(lines[i]);
      if h.None? {
        PythonSpansOrdered(lines, header, i + 1);
      } else {
        var j := FirstStop(lines, header, i + 1, h.value.indent);
        PythonSpansOrdered(lines, header, j);
        OrderedCons(Span(h.value.name, i + 1, j), PythonSpans(lines, header, j), i + 1, |lines|);
      }
    }
  }

  predicate Covers(s: Span, line: int) {
    s.startLine <= line <= s.endLine
  }

  function FindFunctionAtLine(functions: seq<Span>, line: int): Option<Span> {
    if functions == [] then None
    else if Covers(functions[0], line) then Some(functions[0])
    else FindFunctionAtLine(functions[1..], line)
  }

  /** In an ordered list the first hit is the only one, and a miss means no function covers the line. */
  lemma {:induction false} FoundIsUnique(functions: seq<Span>, lo: nat, n: nat, line: int, s: Span)
    requires Ordered(functions, lo, n)
    ensures FindFunctionAtLine(functions, line) == Some(s) <==> s in functions && Covers(s, line)
    decreases |functions|
  {
    if functions != [] {
      assert functions == [functions[0]] + functions[1..];
      FoundIsUnique(functions[1..], lo, n, line, s);
    }
  }

  /** The running total from line index from on is positive at every line before to. */
  ghost predicate StaysOpen(lines: seq<string>, from: nat, to: int)
    requires to <= |lines|
  {
    forall k :: from <= k < to ==> Running(lines, from, k) > 0
  }

  /** Brace languages: a span starts at a header line, and it ends at the first line where the running brace total
      is zero or below, or with the file. */
  ghost predicate BraceSpanAt(lines: seq<string>, header: Header, s: Span) {
    && 1 <= s.startLine <= s.endLine <= |lines|
    && header(lines[s.startLine - 1]) == Some(s.name)
    && StaysOpen(lines, s.startLine - 1, s.endLine - 1)
    && (s.endLine < |lines| ==> Running(lines, s.startLine - 1, s.endLine - 1) <= 0)
  }

  lemma {:induction false} BraceSpansEndRight(lines: seq<string>, header: Header, i: nat, s: Span)
    requires i <= |lines| && s in BraceSpans(lines, header, i)
    ensures BraceSpanAt(lines, header, s)
    decreases |lines| - i
  {
    var h := header(lines[i]);
    if h.None? {
      BraceSpansEndRight(lines, header, i + 1, s);
    } else {
      var d := BraceCount(lines[i]);
      var j := if d <= 0 then i else FirstClose(lines, i + 1, d);
      if j < |lines| && s in BraceSpans(lines, header, j + 1) {
        BraceSpansEndRight(lines, header, j + 1, s);
      } else if d > 0 {
        forall k | i <= k < j ensures Running(lines, i, k) > 0 {
          assert k > i ==> d + Running(lines, i + 1, k) > 0;
        }
      }
    }
  }

  /** No header is lost: every header line is the start of a span or lies inside one that began earlier. */
  lemma {:induction false} HeadersAreCovered(lines: seq<string>, header: Header, i: nat, l: nat) returns (s: Span)
    requires i <= l < |lines| && header(lines[l]).Some?
    ensures s in BraceSpans(lines, header, i) && Covers(s, l + 1)
    decreases |lines| - i
  {
    var h := header(lines[i]);
    if h.None? {
      s := HeadersAreCovered(lines, header, i + 1, l);
    } else {
      var d := BraceCount(lines[i]);
      var j := if d <= 0 then i else FirstClose(lines, i + 1, d);
      if l <= j {
        s := Span(h.value, i + 1, if j == |lines| then j else j + 1);
      } else {
        s := HeadersAreCovered(lines, header, j + 1, l);
      }
    }
  }

  /** In Python every header starts its own span, so a nested definition cuts the outer one short. */
  lemma {:induction false} PythonHeadersStartSpans(lines: seq<string>, header: DefHeader, i: nat, l: nat) returns (s: Span)
    requires i <= l < |lines| && header(lines[l]).Some?
    ensures s in PythonSpans(lines, header, i) && s.startLine == l + 1 && s.name == header(lines[l]).value.name
    ensures s.endLine == FirstStop(lines, header, l + 1, header(lines[l]).value.indent)
    decreases |lines| - i
  {
    var h := header(lines[i]);
    if h.None? {
      s := PythonHeadersStartSpans(lines, header, i + 1, l);
    } else {
      var j := FirstStop(lines, header, i + 1, h.value.indent);
      if l == i {
        s := Span(h.value.name, i + 1, j);
      } else {
        s := PythonHeadersStartSpans(lines, header, j, l);
      }
    }
  }

  /** The line starts a function, or holds code that is not indented deeper than base. */
  ghost predicate Ends(line: string, header: DefHeader, base: nat) {
    header(line).Some? || exists k: nat :: k <= base && CodeAt(line, k)
  }

  /** So the span of a Python function ends before the first later line that starts a function or holds code no deeper
      than its header, or with the file. */
  lemma PythonSpanEnds(lines: seq<string>, header: DefHeader, l: nat) returns (s: Span)
    requires l < |lines| && header(lines[l]).Some?
    ensures s in PythonSpans(lines, header, 0) && s.startLine == l + 1 && s.name == header(lines[l]).value.name
    ensures l + 1 <= s.endLine <= |lines|
    ensures forall k :: l + 1 <= k < s.endLine ==> !Ends(lines[k], header, header(lines[l]).value.indent)
    ensures s.endLine < |lines| ==> Ends(lines[s.endLine], header, header(lines[l]).value.indent)
  {
    s := PythonHeadersStartSpans(lines, header, 0, l);
    var base := header(lines[l]).value.indent;
    forall k | 0 <= k < |lines| ensures Ends(lines[k], header, base) <==> header(lines[k]).Some? || Dedents(lines[k], base) {
      DedentsExact(lines[k], base);
    }
  }

  /** A name that starts a function in TypeScript: the pattern matched it, and it is neither a control keyword nor the
      beginning of a comment. */
  ghost predicate Starts(pattern: Header, line: string, name: string) {
    && pattern(line) == Some(name) && name != "" && (|name| >= 2 ==> !(name[0] == '/' && name[1] == '/'))
    && name !in {"if", "for", "while", "switch", "catch"}
  }

  lemma TypeScriptHeaderExact(pattern: Header, line: string, name: string)
    ensures TypeScriptHeader(pattern)(line) == Some(name) <==> Starts(pattern, line, name)
  {
    assert |name| >= 2 ==> name[..2] == [name[0], name[1]];
  }

  /** Every span of a TypeScript source starts at a line whose matched name starts a function, and carries that name; and
      every such line starts a span or lies in an earlier one. */
  lemma TypeScriptSpans(source: string, pattern: Header, s: Span)
    requires s in BraceSpans(Split(source, "\n"), TypeScriptHeader(pattern), 0)
    ensures 1 <= s.startLine <= |Split(source, "\n")| && Starts(pattern, Split(source, "\n")[s.startLine - 1], s.name)
  {
    var lines := Split(source, "\n");
    BraceSpansEndRight(lines, TypeScriptHeader(pattern), 0, s);
    TypeScriptHeaderExact(pattern, lines[s.startLine - 1], s.name);
  }

  lemma TypeScriptHeadersAreCovered(source: string, pattern: Header, l: nat, name: string) returns (s: Span)
    requires l < |Split(source, "\n")| && Starts(pattern, Split(source, "\n")[l], name)
    ensures s in BraceSpans(Split(source, "\n"), TypeScriptHeader(pattern), 0) && s.startLine <= l + 1 <= s.endLine
  {
    TypeScriptHeaderExact(pattern, Split(source, "\n")[l], name);
    s := HeadersAreCovered(Split(source, "\n"), TypeScriptHeader(pattern), 0, l);
  }
}
