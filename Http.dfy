/** What the three express handlers share: the agent run they read, the answer they select
    from it (`app/src/mastra/agents/server.ts`, `app/src/server.ts`, `bh-rag/src/server.ts`)
    and the response object they write to. The agent itself is foreign: a handler receives
    its text chunks and full-stream events, or the error it throws. */
module Http {
  import opened Options
  import opened Strings
  import opened Json

  /** An event of the agent's full stream; a tool result carries `ev.result` (`None` when
      undefined). */
  datatype Event = ToolResultEvent(result: Option<Json>) | OtherEvent

  /** A thrown error: its `message` (`None` when undefined) and `String(err)`. */
  datatype Failure = Failure(message: Option<string>, shown: string)

  /** One agent run: the chunks of `textStream` and the events of `fullStream`, or the error
      it throws. */
  datatype AgentRun = Streamed(chunks: seq<string>, events: seq<Event>) | Threw(error: Failure)

  // ---------------------------------------------------------------------------
  // answer selection

  /** A tool result whose `result` is truthy and whose `text` is a string that is not blank. */
  predicate NonBlankText(e: Event) {
    && e.ToolResultEvent? && e.result.Some? && Truthy(e.result.value)
    && Get(e.result.value, "text").Some? && Get(e.result.value, "text").value.JStr?
    && Trim(Get(e.result.value, "text").value.s) != ""
  }

  /** The text of such a result, untrimmed. */
  function ToolText(e: Event): string
    requires NonBlankText(e)
  {
    Get(e.result.value, "text").value.s
  }

  /** The index of the first event with a non-blank text, `|events|` when there is none. */
  function FirstToolIndex(events: seq<Event>): (k: nat)
    ensures k <= |events|
    ensures k < |events| ==> NonBlankText(events[k])
    ensures forall j :: 0 <= j < k ==> !NonBlankText(events[j])
  {
    if |events| == 0 then 0
    else if NonBlankText(events[0]) then 0
    else 1 + FirstToolIndex(events[1..])
  }

  /** The answer a handler selects: the chunks in order when they are not all empty,
      otherwise the first non-blank tool-result text, otherwise "". */
  function SelectedAnswer(chunks: seq<string>, events: seq<Event>): string {
    var text := Flatten(chunks);
    if text != "" then text
    else
      var k := FirstToolIndex(events);
      if k < |events| then ToolText(events[k]) else ""
  }

  /** The selected answer is empty exactly when every chunk is empty and no tool result has
      a non-blank text; otherwise it is the streamed text, or the first such tool text,
      unchanged. */
  lemma SelectedAnswerCases(chunks: seq<string>, events: seq<Event>)
    ensures Flatten(chunks) != "" ==> SelectedAnswer(chunks, events) == Flatten(chunks)
    ensures SelectedAnswer(chunks, events) == "" <==>
      Flatten(chunks) == "" && forall i :: 0 <= i < |events| ==> !NonBlankText(events[i])
    ensures Flatten(chunks) == "" && SelectedAnswer(chunks, events) != "" ==>
      exists i :: 0 <= i < |events| && NonBlankText(events[i]) && SelectedAnswer(chunks, events) == ToolText(events[i])
        && forall j :: 0 <= j < i ==> !NonBlankText(events[j])
  {
    var k := FirstToolIndex(events);
    if Flatten(chunks) == "" && k < |events| {
      TrimEmptyIffAllSpace(ToolText(events[k]));
      assert ToolText(events[k]) != "";
    }
  }

  /** The text chunks are concatenated in order, empty ones adding nothing. */
  lemma FlattenSkipsEmpty(chunks: seq<string>, i: int)
    requires 0 <= i < |chunks| && chunks[i] == ""
    ensures Flatten(chunks) == Flatten(chunks[..i] + chunks[i + 1..])
  {
    var a, b := chunks[..i], chunks[i + 1..];
    assert chunks == a + ([""] + b);
    FlattenConcat(a, [""] + b);
    assert ([""] + b)[0] == "" && ([""] + b)[1..] == b;
    assert Flatten([""] + b) == "" + Flatten(b) == Flatten(b);
    FlattenConcat(a, b);
  }

  /** The two `for await` loops: `answer += chunk` for every truthy chunk, then, when that
      gave nothing, the first tool result with a non-blank text. */
  method SelectAnswer(chunks: seq<string>, events: seq<Event>) returns (answer: string)
    ensures answer == SelectedAnswer(chunks, events)
  {
    answer := "";
    var i := 0;
    while i < |chunks|
      invariant 0 <= i <= |chunks|
      invariant answer == Flatten(chunks[..i])
    {
      assert chunks[..i + 1] == chunks[..i] + [chunks[i]];
      FlattenAppend(chunks[..i], chunks[i]);
      if chunks[i] != "" {
        answer := answer + chunks[i];
      }
      i := i + 1;
    }
    assert chunks[..i] == chunks;
    if answer == "" {
      var j := 0;
      while j < |events|
        invariant 0 <= j <= |events|
        invariant answer == ""
        invariant FirstToolIndex(events[j..]) + j == FirstToolIndex(events)
      {
        if NonBlankText(events[j]) {
          answer := ToolText(events[j]);
          break;
        }
        assert events[j..][1..] == events[j + 1..];
        j := j + 1;
      }
    }
  }

  const NoAnswer: string := "No answer found."

  /** `answer || "No answer found."`. */
  function OrNoAnswer(answer: string): (r: string)
    ensures r != "" && (answer != "" ==> r == answer)
  {
    if answer != "" then answer else NoAnswer
  }

  /** `req.body.query || req.body.prompt`; `None` when both are falsy. */
  function QueryOrPrompt(body: Json): (r: Option<Json>)
    ensures r.Some? <==> TruthyOpt(Get(body, "query")) || TruthyOpt(Get(body, "prompt"))
    ensures r.Some? ==> Truthy(r.value)
    ensures TruthyOpt(Get(body, "query")) ==> r == Get(body, "query")
  {
    var query := Get(body, "query");
    if TruthyOpt(query) then query
    else
      var prompt := Get(body, "prompt");
      if TruthyOpt(prompt) then prompt else None
  }

  // ---------------------------------------------------------------------------
  // the response object

  /** `{success: true, answer}`. */
  function SuccessBody(answer: string): Json {
    JObj([("success", JBool(true)), ("answer", JStr(answer))])
  }

  /** `err?.message || String(err)`. */
  function Details(f: Failure): string {
    if f.message.Some? && f.message.value != "" then f.message.value else f.shown
  }

  /** `{error: "Agent failed", details}`. */
  function FailureBody(f: Failure): Json {
    JObj([("error", JStr("Agent failed")), ("details", JStr(Details(f)))])
  }


  /** `{error: message}`. */
  function ErrorBody(message: string): Json {
    JObj([("error", JStr(message))])
  }

  /** One server-sent event frame. */
  function Frame(payload: string): string {
    "data: " + payload + "\n\n"
  }

  const DoneFrame: string := "data: [DONE]\n\n"

  /** `JSON.stringify({error: err.message})`: a missing message is dropped. */
  function ErrorPayload(f: Failure): string {
    if f.message.Some? then StringifyFlat([("error", f.message.value)]) else StringifyFlat([])
  }

  /** The status, the JSON body sent by `res.json`, the chunks sent by `res.write`, and
      whether the response has ended. */
  datatype ResponseState = ResponseState(status: nat, body: Option<Json>, written: seq<string>, ended: bool)

  /** `res.status(code)`; `code` is `None` when the handler leaves the status as it is. */
  function SendJson(s: ResponseState, code: Option<nat>, body: Json): ResponseState {
    s.(status := if code.Some? then code.value else s.status, body := Some(body), ended := true)
  }

  /** An event stream answered with `payload`: one frame, then the `[DONE]` frame, then the
      end. */
  function SendFrames(s: ResponseState, payload: string): ResponseState {
    s.(written := s.written + [Frame(payload), DoneFrame], ended := true)
  }

  /** The express response a handler writes to. */
  class Response {
    var status: nat
    var body: Option<Json>
    var written: seq<string>
    var ended: bool

    function State(): ResponseState
      reads this
    {
      ResponseState(status, body, written, ended)
    }

    /** A response not yet written: status 200. */
    constructor()
      ensures State() == ResponseState(200, None, [], false)
    {
      status := 200;
      body := None;
      written := [];
      ended := false;
    }

    /** `res.status(code)` (when `code` is given) followed by `res.json(body)`. */
    method StatusJson(code: Option<nat>, json: Json)
      modifies this
      ensures State() == SendJson(old(State()), code, json)
    {
      if code.Some? {
        status := code.value;
      }
      body := Some(json);
      ended := true;
    }

    /** `res.write(chunk)`. */
    method Write(chunk: string)
      modifies this
      ensures State() == old(State()).(written := old(State()).written + [chunk])
    {
      written := written + [chunk];
    }

    /** `res.end()`. */
    method End()
      modifies this
      ensures State() == old(State()).(ended := true)
    {
      ended := true;
    }

    /** The handlers' closing sequence: the payload frame, the `[DONE]` frame, `res.end()`. */
    method WriteFrames(payload: string)
      modifies this
      ensures State() == SendFrames(old(State()), payload)
    {
      Write(Frame(payload));
      Write(DoneFrame);
      End();
    }
  }

  /** A frame pair sends one payload frame whose JSON reads back as the fields sent, then
      `[DONE]`, and the stream ends. */
  lemma SendFramesShape(s: ResponseState, fields: seq<(string, string)>)
    ensures var s' := SendFrames(s, StringifyFlat(fields));
      s'.ended && |s'.written| == |s.written| + 2 && s'.written[..|s.written|] == s.written
      && s'.written[|s.written|] == Frame(StringifyFlat(fields))
      && s'.written[|s.written| + 1] == DoneFrame
      && ParseFlat(StringifyFlat(fields)) == Some(fields)
      && s'.status == s.status && s'.body == s.body
  {
    var s' := SendFrames(s, StringifyFlat(fields));
    assert s'.written[..|s.written|] == s.written;
    ParseStringifyFlat(fields);
  }
}
