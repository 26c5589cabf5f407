/** Reading a server-sent event stream from chunks that may cut it anywhere. */
module SseReader {
  import opened Text

  const BLANK_LINE := "\n\n"

  const LINE_FEED := "\n"

  /** The data lines of one block, without their field name and leading white space. */
  function DataLines(lines: seq<string>): seq<string> {
    if lines == [] then []
    else if StartsWith(lines[0], "data:") then [TrimStart(lines[0][5..])] + DataLines(lines[1..])
    else DataLines(lines[1..])
  }

  function PayloadOf(block: string): string {
    Join(DataLines(Split(block, "\n")), "\n")
  }

  /** What one block hands to the listener; a block without data is silent. */
  function Payload(block: string): seq<string> {
    if PayloadOf(block) == "" then [] else [PayloadOf(block)]
  }

  function Payloads(blocks: seq<string>): seq<string> {
    if blocks == [] then []
    else Payload(blocks[0]) + Payloads(blocks[1..])
  }

  /** One read: the buffered rest and the new chunk are cut together, and nothing already closed changes. */
  lemma ReadStep(stream: string, chunk: string, d: string)
    requires d != ""
    ensures Closed(stream + chunk, d) == Closed(stream, d) + Closed(Unfinished(stream, d) + chunk, d)
    ensures Unfinished(stream + chunk, d) == Unfinished(Unfinished(stream, d) + chunk, d)
  {
    SplitAppend(stream, chunk, d);
    ButLastConcat(Closed(stream, d), Split(Unfinished(stream, d) + chunk, d));
  }

  lemma ButLastConcat<T>(a: seq<T>, b: seq<T>)
    requires b != []
    ensures (a + b)[..|a + b| - 1] == a + b[..|b| - 1] && (a + b)[|a + b| - 1] == b[|b| - 1]
  {
  }

  lemma {:induction false} ConcatSnoc(chunks: seq<string>, c: string)
    ensures Concat(chunks + [c]) == Concat(chunks) + c
  {
    if chunks == [] {
      assert |[c][1..]| == 0;
    } else {
      ConcatSnoc(chunks[1..], c);
      assert (chunks + [c])[1..] == chunks[1..] + [c];
    }
  }

  lemma {:induction false} PayloadsConcat(a: seq<string>, b: seq<string>)
    ensures Payloads(a + b) == Payloads(a) + Payloads(b)
  {
    if a == [] {
      assert a + b == b;
    } else {
      PayloadsConcat(a[1..], b);
      assert (a + b)[1..] == a[1..] + b;
      Assoc(Payload(a[0]), Payloads(a[1..]), Payloads(b));
    }
  }

  method EmitBlocks(chunks: seq<string>) returns (events: seq<string>)
    ensures events == Payloads(chunks)
  {
    events := [];
    for c := 0 to |chunks|
      invariant events + Payloads(chunks[c..]) == Payloads(chunks)
    {
      var data := PayloadOf(chunks[c]);
      assert chunks[c..][1..] == chunks[c + 1..];
      Assoc(events, Payload(chunks[c]), Payloads(chunks[c + 1..]));
      if data != "" {
        events := events + [data];
      }
    }
  }

  /** The reading loop. received are the decoded chunks, and the abort signal is seen before read number abortAt.
      The payloads depend on the text that was read, not on where the chunks cut it. */
  method ReadSse(received: seq<string>, abortAt: nat) returns (events: seq<string>)
    ensures var n := if abortAt < |received| then abortAt else |received|;
            events == Payloads(Closed(Concat(received[..n]), BLANK_LINE))
  {
    events := [];
    var buffer := "";
    var i := 0;
    while i < abortAt
      invariant i <= abortAt && i <= |received|
      invariant buffer == Unfinished(Concat(received[..i]), BLANK_LINE)
      invariant events == Payloads(Closed(Concat(received[..i]), BLANK_LINE))
    {
      if i == |received| {
        break;
      }
      ghost var stream := Concat(received[..i]);
      ReadStep(stream, received[i], BLANK_LINE);
      ConcatSnoc(received[..i], received[i]);
      assert received[..i + 1] == received[..i] + [received[i]];
      buffer := buffer + received[i];
      var chunks := Split(buffer, BLANK_LINE);
      buffer := chunks[|chunks| - 1];
      chunks := chunks[..|chunks| - 1];
      PayloadsConcat(Closed(stream, BLANK_LINE), chunks);
      var emitted := EmitBlocks(chunks);
      events := events + emitted;
      i := i + 1;
    }
  }

  /** The runner's variant of the loop: one newline ends a line, and "data: " lines are handed on. */
  function RunnerLine(line: string): seq<string> {
    if StartsWith(line, "data: ") then [line[6..]] else []
  }

  function RunnerData(lines: seq<string>): seq<string> {
    if lines == [] then []
    else RunnerLine(lines[0]) + RunnerData(lines[1..])
  }

  lemma {:induction false} RunnerDataConcat(a: seq<string>, b: seq<string>)
    ensures RunnerData(a + b) == RunnerData(a) + RunnerData(b)
  {
    if a == [] {
      assert a + b == b;
    } else {
      RunnerDataConcat(a[1..], b);
      assert (a + b)[1..] == a[1..] + b;
      Assoc(RunnerLine(a[0]), RunnerData(a[1..]), RunnerData(b));
    }
  }

  method EmitRunnerLines(lines: seq<string>) returns (events: seq<string>)
    ensures events == RunnerData(lines)
  {
    events := [];
    for c := 0 to |lines|
      invariant events + RunnerData(lines[c..]) == RunnerData(lines)
    {
      assert lines[c..][1..] == lines[c + 1..];
      events := events + RunnerLine(lines[c]);
    }
  }

  method ReadRunnerEvents(received: seq<string>) returns (events: seq<string>)
    ensures events == RunnerData(Closed(Concat(received), LINE_FEED))
  {
    events := [];
    var buffer := "";
    for i := 0 to |received|
      invariant buffer == Unfinished(Concat(received[..i]), LINE_FEED)
      invariant events == RunnerData(Closed(Concat(received[..i]), LINE_FEED))
    {
      ghost var stream := Concat(received[..i]);
      ReadStep(stream, received[i], LINE_FEED);
      ConcatSnoc(received[..i], received[i]);
      assert received[..i + 1] == received[..i] + [received[i]];
      buffer := buffer + received[i];
      var lines := Split(buffer, LINE_FEED);
      buffer := lines[|lines| - 1];
      lines := lines[..|lines| - 1];
      RunnerDataConcat(Closed(stream, LINE_FEED), lines);
      var emitted := EmitRunnerLines(lines);
      events := events + emitted;
    }
    assert received[..|received|] == received;
  }
}
