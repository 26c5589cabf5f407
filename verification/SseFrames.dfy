/** What the server writes to an event stream, and what its two readers make of it. */
module SseFrames {
  import opened Text
  import opened SseReader

  // ---- what the server writes -----------------------------------------------------------------------------

  datatype Frame = Event(id: string, json: string) | Heartbeat

  function FrameText(f: Frame): string {
    match f
    case Event(id, json) => "id: " + id + "\n" + ("data: " + json)
    case Heartbeat => ": heartbeat"
  }

  function Wire(frames: seq<Frame>): string {
    if frames == [] then "" else FrameText(frames[0]) + BLANK_LINE + Wire(frames[1..])
  }

  /** Serialised JSON is one line that starts with a visible character. */
  predicate WireSafe(f: Frame) {
    f.Event? ==> '\n' !in f.id && '\n' !in f.json && f.json != "" && !IsSpace(f.json[0])
  }

  function Jsons(frames: seq<Frame>): seq<string> {
    if frames == [] then []
    else (if frames[0].Event? then [frames[0].json] else []) + Jsons(frames[1..])
  }

  lemma TwoNewlines(s: string, j: int)
    ensures OccursAt(s, BLANK_LINE, j) <==> 0 <= j && j + 1 < |s| && s[j] == '\n' && s[j + 1] == '\n'
  {
    if 0 <= j && j + 2 <= |s| {
      assert s[j..j + 2] == [s[j], s[j + 1]];
    }
  }

  lemma FrameIsOneBlock(f: Frame)
    requires WireSafe(f)
    ensures CutsAtEnd(FrameText(f), BLANK_LINE)
  {
    var t := FrameText(f);
    forall j | 0 <= j < |t| ensures !OccursAt(t + BLANK_LINE, BLANK_LINE, j) {
      TwoNewlines(t + BLANK_LINE, j);
      if f.Event? {
        var head, tail := "id: " + f.id, "data: " + f.json;
        assert t == head + "\n" + tail;
        if j < |head| {
          assert t[j] == head[j] != '\n';
        } else if j == |head| {
          assert t[j + 1] == tail[0] == 'd';
        } else {
          assert t[j] == tail[j - |head| - 1] != '\n';
        }
      }
    }
  }

  lemma DataLineCons(text: string, rest: seq<string>)
    requires text != "" && !IsSpace(text[0])
    ensures DataLines(["data: " + text] + rest) == [text] + DataLines(rest)
  {
    var line := "data: " + text;
    assert line[..5] == "data:";
    assert line[5..] == " " + text;
    assert (" " + text)[1..] == text;
    assert TrimStart(line[5..]) == text;
    assert ([line] + rest)[1..] == rest;
  }

  lemma DataLineOf(json: string)
    requires json != "" && !IsSpace(json[0])
    ensures DataLines(["data: " + json]) == [json]
  {
    DataLineCons(json, []);
    assert ["data: " + json] + [] == ["data: " + json];
  }

  function DataFields(texts: seq<string>): seq<string> {
    if texts == [] then [] else ["data: " + texts[0]] + DataFields(texts[1..])
  }

  predicate Visible(t: string) {
    t != "" && !IsSpace(t[0]) && '\n' !in t
  }

  lemma {:induction false} DataLinesOf(texts: seq<string>)
    requires forall i :: 0 <= i < |texts| ==> Visible(texts[i])
    ensures DataLines(DataFields(texts)) == texts
    ensures |DataFields(texts)| == |texts|
    ensures forall i :: 0 <= i < |texts| ==> '\n' !in DataFields(texts)[i]
    decreases |texts|
  {
    if texts != [] {
      DataLinesOf(texts[1..]);
      DataLineCons(texts[0], DataFields(texts[1..]));
      assert texts == [texts[0]] + texts[1..];
    }
  }

  /** A payload sent as several data lines of one block arrives as one text, its lines joined by line feeds. */
  lemma LinesOfBlockJoin(texts: seq<string>)
    requires texts != [] && forall i :: 0 <= i < |texts| ==> Visible(texts[i])
    ensures PayloadOf(Join(DataFields(texts), "\n")) == Join(texts, "\n")
  {
    DataLinesOf(texts);
    SplitJoin(DataFields(texts), '\n');
  }

  lemma FramePayload(f: Frame)
    requires WireSafe(f)
    ensures PayloadOf(FrameText(f)) == if f.Event? then f.json else ""
  {
    if f.Event? {
      var head, tail := "id: " + f.id, "data: " + f.json;
      assert Split(FrameText(f), "\n") == [head, tail] by {
        assert [head, tail][1..] == [tail];
        SplitJoin([head, tail], '\n');
      }
      assert !StartsWith(head, "data:") by {
        assert head[0] == 'i';
      }
      assert [head, tail][1..] == [tail];
      DataLineOf(f.json);
    } else {
      var beat := ": heartbeat";
      SplitJoin([beat], '\n');
      assert !StartsWith(beat, "data:") by {
        assert beat[0] == ':';
      }
      var one: seq<string> := [beat];
      assert one[1..] == [];
    }
  }

  lemma {:induction false} WireBlocks(frames: seq<Frame>, tail: string)
    requires forall f :: f in frames ==> WireSafe(f)
    requires !Contains(tail, BLANK_LINE)
    ensures Payloads(Closed(Wire(frames) + tail, BLANK_LINE)) == Jsons(frames)
    decreases |frames|
  {
    if frames == [] {
      assert Wire(frames) + tail == tail;
    } else {
      var t, rest := FrameText(frames[0]), Wire(frames[1..]) + tail;
      FrameIsOneBlock(frames[0]);
      assert Wire(frames) + tail == t + BLANK_LINE + rest;
      ClosedCons(t, BLANK_LINE, rest);
      WireBlocks(frames[1..], tail);
      FramePayload(frames[0]);
      assert ([t] + Closed(rest, BLANK_LINE))[1..] == Closed(rest, BLANK_LINE);
    }
  }

  /** However the network cuts the server's frames, the client sees exactly the events, once each and in order;
      an unfinished frame at the end is held back. */
  lemma FramesReachClient(frames: seq<Frame>, tail: string, received: seq<string>)
    requires forall f :: f in frames ==> WireSafe(f)
    requires !Contains(tail, BLANK_LINE)
    requires Concat(received) == Wire(frames) + tail
    ensures Payloads(Closed(Concat(received), BLANK_LINE)) == Jsons(frames)
  {
    WireBlocks(frames, tail);
  }

  // ---- what the runner reads ------------------------------------------------------------------------------

  function FrameLines(f: Frame): seq<string> {
    match f
    case Event(id, json) => ["id: " + id] + (["data: " + json] + [""])
    case Heartbeat => [": heartbeat"] + [""]
  }

  /** Each line with its line feed. */
  function Terminated(lines: seq<string>): string {
    if lines == [] then "" else lines[0] + (LINE_FEED + Terminated(lines[1..]))
  }

  lemma TerminatedCons(t: string, rest: seq<string>)
    ensures Terminated([t] + rest) == t + (LINE_FEED + Terminated(rest))
  {
    assert ([t] + rest)[1..] == rest;
  }

  lemma OneLineCuts(t: string)
    requires '\n' !in t
    ensures CutsAtEnd(t, LINE_FEED)
  {
    forall j | 0 <= j < |t| ensures !OccursAt(t + LINE_FEED, LINE_FEED, j) {
      OccursChar(t + LINE_FEED, '\n', j);
    }
  }

  lemma ClosedLine(t: string, rest: string)
    requires '\n' !in t
    ensures Closed(t + (LINE_FEED + rest), LINE_FEED) == [t] + Closed(rest, LINE_FEED)
  {
    OneLineCuts(t);
    ClosedCons(t, LINE_FEED, rest);
    Assoc(t, LINE_FEED, rest);
  }

  predicate OneLineEach(lines: seq<string>) {
    forall i :: 0 <= i < |lines| ==> '\n' !in lines[i]
  }

  lemma {:induction false} ClosedLines(lines: seq<string>, rest: string)
    requires OneLineEach(lines)
    ensures Closed(Terminated(lines) + rest, LINE_FEED) == lines + Closed(rest, LINE_FEED)
    decreases |lines|
  {
    if lines == [] {
      assert Terminated(lines) + rest == rest;
    } else {
      var more := Terminated(lines[1..]);
      Around(lines[0], LINE_FEED, more, rest);
      ClosedLine(lines[0], more + rest);
      ClosedLines(lines[1..], rest);
      assert lines == [lines[0]] + lines[1..];
      Assoc([lines[0]], lines[1..], Closed(rest, LINE_FEED));
    }
  }

  lemma Around(a: string, d: string, b: string, rest: string)
    ensures a + (d + b) + rest == a + (d + (b + rest))
  {
  }

  lemma TerminatedPair(a: string)
    ensures Terminated([a] + [""]) == a + BLANK_LINE
  {
    assert [""] + [] == [""];
    TerminatedCons("", []);
    TerminatedCons(a, [""]);
  }

  lemma TerminatedTriple(a: string, b: string)
    ensures Terminated([a] + ([b] + [""])) == a + LINE_FEED + b + BLANK_LINE
  {
    TerminatedPair(b);
    TerminatedCons(a, [b] + [""]);
  }

  lemma FrameIsItsLines(f: Frame)
    requires WireSafe(f)
    ensures FrameText(f) + BLANK_LINE == Terminated(FrameLines(f))
    ensures OneLineEach(FrameLines(f))
  {
    match f
    case Event(id, json) => TerminatedTriple("id: " + id, "data: " + json);
    case Heartbeat => TerminatedPair(": heartbeat");
  }

  lemma RunnerDataCons(line: string, rest: seq<string>)
    ensures RunnerData([line] + rest) == RunnerLine(line) + RunnerData(rest)
  {
    assert ([line] + rest)[1..] == rest;
  }

  lemma RunnerFrame(f: Frame)
    ensures RunnerData(FrameLines(f)) == if f.Event? then [f.json] else []
  {
    assert [""] + [] == [""];
    RunnerDataCons("", []);
    match f
    case Event(id, json) =>
      var a, b := "id: " + id, "data: " + json;
      assert a[0] == 'i';
      assert b[..6] == "data: " && b[6..] == json;
      RunnerDataCons(b, [""]);
      RunnerDataCons(a, [b] + [""]);
    case Heartbeat =>
      var a := ": heartbeat";
      assert a[0] == ':';
      RunnerDataCons(a, [""]);
  }

  /** One frame at the front of the stream. */
  lemma RunnerStep(f: Frame, rest: string)
    requires WireSafe(f)
    ensures RunnerData(Closed(FrameText(f) + BLANK_LINE + rest, LINE_FEED))
         == (if f.Event? then [f.json] else []) + RunnerData(Closed(rest, LINE_FEED))
  {
    FrameIsItsLines(f);
    ClosedLines(FrameLines(f), rest);
    RunnerDataConcat(FrameLines(f), Closed(rest, LINE_FEED));
    RunnerFrame(f);
  }

  lemma WireHead(frames: seq<Frame>, tail: string)
    requires frames != []
    ensures Wire(frames) + tail == FrameText(frames[0]) + BLANK_LINE + (Wire(frames[1..]) + tail)
  {
  }

  /** The runner sees the same events as the client, whatever the cuts; of an unfinished frame it already sees the
      data lines that are complete. */
  lemma {:induction false} FramesReachRunner(frames: seq<Frame>, tail: string)
    requires forall f :: f in frames ==> WireSafe(f)
    ensures RunnerData(Closed(Wire(frames) + tail, LINE_FEED)) == Jsons(frames) + RunnerData(Closed(tail, LINE_FEED))
    decreases |frames|
  {
    if frames == [] {
      assert Wire(frames) + tail == tail;
    } else {
      WireHead(frames, tail);
      RunnerStep(frames[0], Wire(frames[1..]) + tail);
      FramesReachRunner(frames[1..], tail);
    }
  }
}
