/** The `/askNew` server of `app/src/mastra/agents/server.ts` and the chat hook of
    `app/frontend/src/hooks/useChatStreaming.ts` together: whatever the agent answers and
    however the network cuts the event stream into reads, the agent message of the client
    ends holding exactly the `delta` the server sent, and no longer partial. */
module Exchange {
  import opened Options
  import opened Strings
  import opened Json
  import opened Framing
  import opened Http
  import MastraServer
  import opened AppChat

  /** A pattern starting with a line break occurs nowhere in a printable text. */
  lemma NotOccurs(t: string, pat: string, i: int)
    requires Printable(t) && |pat| > 0 && pat[0] == '\n'
    ensures !OccursAt(t, pat, i)
  {
    if 0 <= i && i + |pat| <= |t| {
      assert t[i..i + |pat|][0] == t[i];
    }
  }

  lemma NoLineBreakIn(t: string, pat: string)
    requires Printable(t) && |pat| > 0 && pat[0] == '\n'
    ensures IndexOf(t, pat, 0) == -1
  {
    NotOccurs(t, pat, IndexOf(t, pat, 0));
  }

  /** A printable line followed by the separator is the first frame of what follows. */
  lemma SplitLine(line: string, tail: string)
    requires Printable(line)
    ensures Split(line + FrameSeparator + tail, FrameSeparator) == [line] + Split(tail, FrameSeparator)
  {
    var w := line + FrameSeparator + tail;
    var i := |line|;
    forall k | 0 <= k < i ensures !OccursAt(w, FrameSeparator, k) {
      if k + 2 <= |w| {
        assert w[k..k + 2][0] == w[k] == line[k];
      }
    }
    assert w[i..i + 2] == FrameSeparator;
    IndexOfIs(w, FrameSeparator, 0, i);
    SplitStep(w, FrameSeparator, i);
    assert w[..i] == line && w[i + 2..] == tail;
  }

  /** The payload of a frame of one `data:` line is the rest of the line, when that has no
      space at either end. */
  lemma LineData(rest: string)
    requires Printable(rest) && |rest| > 0 && !IsSpace(rest[0]) && !IsSpace(rest[|rest| - 1])
    ensures FrameData("data: " + rest) == Some(rest)
  {
    var line := "data: " + rest;
    PrintableAppend("data: ", rest);
    NoLineBreakIn(line, "\n");
    SplitNone(line, "\n");
    assert StartsWith(line, DataPrefix);
    assert line[5..] == " " + rest && (" " + rest)[1..] == rest;
    TrimOfTrimmed(rest);
  }

  /** The two frames of a streamed answer: the JSON payload, then `[DONE]`. */
  lemma FramesOf(j: string)
    requires Printable(j)
    ensures Split(Frame(j) + DoneFrame, FrameSeparator) == ["data: " + j, "data: " + Done, ""]
  {
    PrintableAppend("data: ", j);
    assert Frame(j) + DoneFrame == ("data: " + j) + FrameSeparator + ("data: [DONE]" + FrameSeparator + "");
    SplitLine("data: " + j, "data: [DONE]" + FrameSeparator + "");
    assert "data: [DONE]" == "data: " + Done;
    SplitLine("data: [DONE]", "");
    NoLineBreakIn("", FrameSeparator);
    SplitNone("", FrameSeparator);
  }

  /** A client whose `JSON.parse` reads back what the server's `JSON.stringify` writes. */
  ghost predicate ParsesFlat(parse: string -> Option<Json>) {
    forall t :: ParseFlat(t).Some? ==> parse(t) == Some(FlatToJson(ParseFlat(t).value))
  }

  /** The `delta` frame appends the delta to the text. */
  lemma DeltaFrameHandled(m: ChatMessage, delta: string, parse: string -> Option<Json>, prompt: string)
    requires ParsesFlat(parse)
    ensures HandleFrame(m, "data: " + StringifyFlat([("delta", delta)]), parse, prompt) == (m.(text := m.text + delta), false)
  {
    var j := StringifyFlat([("delta", delta)]);
    StringifyFlatShape([("delta", delta)]);
    LineData(j);
    ParseStringifyFlat([("delta", delta)]);
    var p := FlatToJson([("delta", delta)]);
    assert p.fields == [("delta", JStr(delta))];
    assert parse(j) == Some(p);
    assert Get(p, "delta") == Some(JStr(delta));
  }

  /** The `[DONE]` frame stops the stream and clears `isPartial`. */
  lemma DoneFrameHandled(m: ChatMessage, parse: string -> Option<Json>, prompt: string)
    ensures HandleFrame(m, "data: " + Done, parse, prompt) == (m.(isPartial := false), true)
  {
    DoneData();
  }

  lemma DoneData()
    ensures FrameData("data: " + Done) == Some(Done)
  {
    LineData(Done);
  }

  /** Read in one piece, the two frames append the delta and leave the message final. */
  lemma DeltaFramesWhole(m0: ChatMessage, delta: string, contentType: string, parse: string -> Option<Json>, prompt: string)
    requires ParsesFlat(parse)
    ensures Receive(m0, Body(contentType, [Frame(StringifyFlat([("delta", delta)])) + DoneFrame], None), parse, prompt)
      == m0.(text := m0.text + delta, isPartial := false)
  {
    var j := StringifyFlat([("delta", delta)]);
    StringifyFlatShape([("delta", delta)]);
    FramesOf(j);
    var parts := ["data: " + j, "data: " + Done, ""];
    assert parts[..|parts| - 1] == ["data: " + j, "data: " + Done];
    assert ("" + (Frame(j) + DoneFrame)) == Frame(j) + DoneFrame;
    DeltaFrameHandled(m0, delta, parse, prompt);
    var m1 := m0.(text := m0.text + delta);
    DoneFrameHandled(m1, parse, prompt);
    assert Pieces(m0, parts[..|parts| - 1], Handler(parse, prompt)) == (m1.(isPartial := false), true);
  }

  /** The `delta` frame and the `[DONE]` frame, read in any cut, append the delta to the
      agent message and leave it final, with its lists untouched. */
  lemma DeltaFramesReceived(m0: ChatMessage, delta: string, contentType: string, chunks: seq<string>,
                            parse: string -> Option<Json>, prompt: string)
    requires ParsesFlat(parse)
    requires Flatten(chunks) == Frame(StringifyFlat([("delta", delta)])) + DoneFrame
    ensures Receive(m0, Body(contentType, chunks, None), parse, prompt) == m0.(text := m0.text + delta, isPartial := false)
  {
    var whole := [Frame(StringifyFlat([("delta", delta)])) + DoneFrame];
    assert Flatten(whole) == whole[0] + Flatten(whole[1..]);
    ChunkingIrrelevant(m0, contentType, chunks, contentType, whole, None, parse, prompt);
    DeltaFramesWhole(m0, delta, contentType, parse, prompt);
  }

  /** End to end: a question the agent answers by streaming reaches the client as the
      selected answer (or "No answer found." when it is empty), appended to the placeholder,
      which is then final — whatever cut of the written frames the client reads. */
  lemma AnswerReachesClient(body: Json, agent: Json -> AgentRun, m0: ChatMessage, contentType: string,
                            chunks: seq<string>, parse: string -> Option<Json>, prompt: string)
    requires ParsesFlat(parse)
    requires QueryOrPrompt(body).Some? && agent(QueryOrPrompt(body).value).Streamed?
    requires Flatten(chunks) == Flatten(MastraServer.AskNewSpec(ResponseState(200, None, [], false), body, agent).written)
    ensures var run := agent(QueryOrPrompt(body).value);
      Receive(m0, Body(contentType, chunks, None), parse, prompt)
        == m0.(text := m0.text + OrNoAnswer(SelectedAnswer(run.chunks, run.events)), isPartial := false)
  {
    var run := agent(QueryOrPrompt(body).value);
    var delta := OrNoAnswer(SelectedAnswer(run.chunks, run.events));
    var s := ResponseState(200, None, [], false);
    MastraServer.DeltaThenDone(s, body, agent);
    var w := [Frame(StringifyFlat([("delta", delta)])), DoneFrame];
    assert w[1..][1..] == [];
    assert Flatten(w) == Frame(StringifyFlat([("delta", delta)])) + DoneFrame;
    DeltaFramesReceived(m0, delta, contentType, chunks, parse, prompt);
  }
}
