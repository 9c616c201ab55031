/** The streaming `/askNew` handler of `app/src/mastra/agents/server.ts`: it selects the
    agent's answer and sends it as one server-sent event, followed by `[DONE]`. */
module MastraServer {
  import opened Options
  import opened Strings
  import opened Json
  import opened Http

  const MissingQuery: string := "Missing 'query' or 'prompt'"

  /** What `/askNew` does to the response. */
  function AskNewSpec(s: ResponseState, body: Json, agent: Json -> AgentRun): ResponseState {
    match QueryOrPrompt(body)
    case None => SendJson(s, Some(400), ErrorBody(MissingQuery))
    case Some(query) =>
      match agent(query)
      case Streamed(chunks, events) =>
        SendFrames(s, StringifyFlat([("delta", OrNoAnswer(SelectedAnswer(chunks, events)))]))
      case Threw(f) => SendFrames(s, ErrorPayload(f))
  }

  /** `app.post("/askNew", ...)`. */
  method AskNew(res: Response, body: Json, agent: Json -> AgentRun)
    modifies res
    ensures res.State() == AskNewSpec(old(res.State()), body, agent)
  {
    var query := QueryOrPrompt(body);
    if query.None? {
      res.StatusJson(Some(400), ErrorBody(MissingQuery));
      return;
    }
    match agent(query.value)
    case Streamed(chunks, events) =>
      var answer := SelectAnswer(chunks, events);
      res.WriteFrames(StringifyFlat([("delta", OrNoAnswer(answer))]));
    case Threw(f) =>
      res.WriteFrames(ErrorPayload(f));
  }

  /** Without a truthy `query` or `prompt` the answer is a 400 with an error body, and no
      stream is written; with one, nothing is sent as JSON. */
  lemma MissingQueryIff(s: ResponseState, body: Json, agent: Json -> AgentRun)
    ensures QueryOrPrompt(body).None? ==>
      AskNewSpec(s, body, agent) == s.(status := 400, body := Some(ErrorBody(MissingQuery)), ended := true)
    ensures AskNewSpec(s, body, agent).written == s.written <==> QueryOrPrompt(body).None?
  {
  }

  /** A run that streams sends exactly one `delta` frame and one `[DONE]` frame; the delta
      reads back as the selected answer, or "No answer found." when that is empty, and is
      never empty. */
  lemma DeltaThenDone(s: ResponseState, body: Json, agent: Json -> AgentRun)
    requires QueryOrPrompt(body).Some? && agent(QueryOrPrompt(body).value).Streamed?
    ensures var run := agent(QueryOrPrompt(body).value);
      var delta := OrNoAnswer(SelectedAnswer(run.chunks, run.events));
      var s' := AskNewSpec(s, body, agent);
      s'.written == s.written + [Frame(StringifyFlat([("delta", delta)])), DoneFrame]
      && ParseFlat(StringifyFlat([("delta", delta)])) == Some([("delta", delta)])
      && delta != "" && s'.ended && s'.status == s.status
  {
    var run := agent(QueryOrPrompt(body).value);
    SendFramesShape(s, [("delta", OrNoAnswer(SelectedAnswer(run.chunks, run.events)))]);
  }

  /** A run that throws sends exactly one error frame, reading back as the error's message
      (or as `{}` when it has none), and one `[DONE]` frame. */
  lemma ErrorThenDone(s: ResponseState, body: Json, agent: Json -> AgentRun)
    requires QueryOrPrompt(body).Some? && agent(QueryOrPrompt(body).value).Threw?
    ensures var f := agent(QueryOrPrompt(body).value).error;
      var fields := if f.message.Some? then [("error", f.message.value)] else [];
      AskNewSpec(s, body, agent).written == s.written + [Frame(StringifyFlat(fields)), DoneFrame]
      && ParseFlat(StringifyFlat(fields)) == Some(fields)
  {
    var f := agent(QueryOrPrompt(body).value).error;
    ParseStringifyFlat(if f.message.Some? then [("error", f.message.value)] else []);
  }
}
