/** The `/ask` handler of `bh-rag/src/server.ts`: it reads only `query` and answers with
    JSON. */
module BhServer {
  import opened Options
  import opened Strings
  import opened Json
  import opened Http

  const MissingQuery: string := "Missing 'query'"

  /** What `/ask` does to the response. */
  function AskSpec(s: ResponseState, body: Json, agent: Json -> AgentRun): ResponseState {
    var query := Get(body, "query");
    if !TruthyOpt(query) then SendJson(s, Some(400), ErrorBody(MissingQuery))
    else
      match agent(query.value)
      case Streamed(chunks, events) => SendJson(s, None, SuccessBody(OrNoAnswer(SelectedAnswer(chunks, events))))
      case Threw(f) => SendJson(s, Some(500), FailureBody(f))
  }

  /** `app.post("/ask", ...)`. */
  method Ask(res: Response, body: Json, agent: Json -> AgentRun)
    modifies res
    ensures res.State() == AskSpec(old(res.State()), body, agent)
  {
    var query := Get(body, "query");
    if !TruthyOpt(query) {
      res.StatusJson(Some(400), ErrorBody(MissingQuery));
      return;
    }
    match agent(query.value)
    case Streamed(chunks, events) =>
      var answer := SelectAnswer(chunks, events);
      res.StatusJson(None, SuccessBody(OrNoAnswer(answer)));
    case Threw(f) =>
      res.StatusJson(Some(500), FailureBody(f));
  }

  /** Only `query` is read: `prompt` and every other member change nothing, and a falsy
      `query` is a 400 even when `prompt` is given. */
  lemma OnlyQueryRead(s: ResponseState, b1: Json, b2: Json, agent: Json -> AgentRun)
    requires Get(b1, "query") == Get(b2, "query")
    ensures AskSpec(s, b1, agent) == AskSpec(s, b2, agent)
    ensures !TruthyOpt(Get(b1, "query")) ==>
      AskSpec(s, b1, agent).status == 400 && AskSpec(s, b1, agent).body == Some(ErrorBody(MissingQuery))
  {
  }

  /** A run that streams answers `success: true` with a non-empty answer, the selected one
      when there is one; a run that throws answers 500 with "Agent failed". */
  lemma AskOutcomes(s: ResponseState, body: Json, agent: Json -> AgentRun)
    requires TruthyOpt(Get(body, "query"))
    ensures var run := agent(Get(body, "query").value);
      var s' := AskSpec(s, body, agent);
      s'.written == s.written && s'.ended
      && (run.Threw? ==> s'.status == 500 && s'.body == Some(FailureBody(run.error)))
      && (run.Streamed? ==>
            s'.status == s.status
            && exists answer :: answer != "" && s'.body == Some(SuccessBody(answer))
                 && (SelectedAnswer(run.chunks, run.events) != "" ==> answer == SelectedAnswer(run.chunks, run.events)))
  {
    var run := agent(Get(body, "query").value);
    if run.Streamed? {
      var answer := OrNoAnswer(SelectedAnswer(run.chunks, run.events));
      assert AskSpec(s, body, agent).body == Some(SuccessBody(answer));
    }
  }
}
