/** The `/ask` handler of `app/src/server.ts`, answering with JSON, and its dummy `/askNew`
    handler, which streams a fixed answer. */
module AppServer {
  import opened Options
  import opened Strings
  import opened Json
  import opened Http

  const MissingQuery: string := "Missing 'query' or 'prompt'"

  /** What `/ask` does to the response. */
  function AskSpec(s: ResponseState, body: Json, agent: Json -> AgentRun): ResponseState {
    match QueryOrPrompt(body)
    case None => SendJson(s, Some(400), ErrorBody(MissingQuery))
    case Some(query) =>
      match agent(query)
      case Streamed(chunks, events) => SendJson(s, None, SuccessBody(OrNoAnswer(SelectedAnswer(chunks, events))))
      case Threw(f) => SendJson(s, Some(500), FailureBody(f))
  }

  /** `app.post("/ask", ...)`. */
  method Ask(res: Response, body: Json, agent: Json -> AgentRun)
    modifies res
    ensures res.State() == AskSpec(old(res.State()), body, agent)
  {
    var query := QueryOrPrompt(body);
    if query.None? {
      res.StatusJson(Some(400), ErrorBody(MissingQuery));
      return;
    }
    match agent(query.value)
    case Streamed(chunks, events) =>
      var answer := SelectAnswer(chunks, events);
      res.StatusJson(None, SuccessBody(OrNoAnswer(answer)));
    case Threw(f) =>
      res.StatusJson(Some(500), FailureBody(f));
  }

  /** `/ask` answers with JSON and never streams: 400 exactly when both `query` and `prompt`
      are falsy, 500 with "Agent failed" when the agent throws, and otherwise the status as
      it was with `success: true` and a non-empty answer, the selected one when there is
      one. */
  lemma AskOutcomes(s: ResponseState, body: Json, agent: Json -> AgentRun)
    ensures var s' := AskSpec(s, body, agent);
      s'.written == s.written && s'.ended && s'.body.Some?
      && (QueryOrPrompt(body).None? <==> s'.body == Some(ErrorBody(MissingQuery)))
      && (QueryOrPrompt(body).None? ==> s'.status == 400)
    ensures QueryOrPrompt(body).Some? && agent(QueryOrPrompt(body).value).Threw? ==>
      var s' := AskSpec(s, body, agent);
      s'.status == 500 && s'.body == Some(FailureBody(agent(QueryOrPrompt(body).value).error))
    ensures QueryOrPrompt(body).Some? && agent(QueryOrPrompt(body).value).Streamed? ==>
      var run := agent(QueryOrPrompt(body).value);
      var s' := AskSpec(s, body, agent);
      s'.status == s.status
      && exists answer :: answer != "" && s'.body == Some(SuccessBody(answer))
           && (SelectedAnswer(run.chunks, run.events) != "" ==> answer == SelectedAnswer(run.chunks, run.events))
  {
    if QueryOrPrompt(body).Some? && agent(QueryOrPrompt(body).value).Streamed? {
      var run := agent(QueryOrPrompt(body).value);
      var answer := OrNoAnswer(SelectedAnswer(run.chunks, run.events));
      assert AskSpec(s, body, agent).body == Some(SuccessBody(answer));
    }
  }

  // ---------------------------------------------------------------------------
  // the dummy /askNew

  /** The answer the dummy handler streams, whatever the query, written as its
      space-separated words. */
  const DummyWords: seq<string> := [
    "Direct", "Answer:", "In", "1992,", "Berkshire", "Hathaway's", "insurance", "operations,",
    "which", "began", "with", "the", "acquisition", "of", "National", "Indemnity", "Company,",
    "were", "a", "significant", "part", "of", "the", "company's", "business", "strategy.", "The",
    "performance", "of", "these", "operations", "is", "a", "crucial", "focus,", "as", "highlighted",
    "through", "the", "provided", "table", "showing", "key", "figures", "for", "the", "property-casualty",
    "insurance", "industry,", "such", "as", "the", "statutory", "combined", "ratio", "and",
    "changes", "in", "premiums", "written.\n\nSupporting", "Evidence:\n-", "The", "shareholder",
    "letter", "mentions,", "'insurance", "operations", "since", "we", "entered", "the", "business",
    "34", "years", "ago", "upon", "acquiring", "National", "Indemnity", "Company.'", "This",
    "places", "the", "acquisition", "and", "subsequent", "operations", "timeline", "in", "accurate",
    "context,", "which", "indicates", "how", "central", "the", "insurance", "operations", "have",
    "been", "to", "Berkshire's", "strategy.\n\nContextual", "Analysis:\nThe", "insurance", "sector",
    "has", "been", "pivotal", "for", "Berkshire", "Hathaway,", "serving", "as", "both", "a",
    "source", "of", "substantial", "underwriting", "profit", "and", "as", "a", "generator",
    "of", "float,", "which", "Buffett", "invests.", "This", "dual", "advantage", "provided",
    "by", "the", "insurance", "operations", "has", "supported", "Berkshire's", "broader", "investment",
    "strategy", "and", "growth", "over", "decades.\n\nSource", "Documentation:\n-", "The", "excerpts",
    "provided", "from", "the", "1992", "Shareholder", "Letter", "discuss", "the", "continuation",
    "and", "importance", "of", "their", "long-standing", "insurance", "operations."
  ]
  const DummyAnswer: string := Join(DummyWords, " ")

  /** The dummy handler's one payload: `{"delta": <the dummy answer>}`. */
  const DummyFields: seq<(string, string)> := [("delta", DummyAnswer)]
  const DummyPayload: string := StringifyFlat(DummyFields)

  /** What the dummy `/askNew` does to the response; `fails` is the error a statement
      before the first write throws, if any. */
  function DummyAskNewSpec(s: ResponseState, body: Json, fails: Option<Failure>): ResponseState {
    if QueryOrPrompt(body).None? then SendJson(s, Some(400), ErrorBody(MissingQuery))
    else if fails.Some? then SendFrames(s, ErrorPayload(fails.value))
    else SendFrames(s, DummyPayload)
  }

  /** The dummy `app.post("/askNew", ...)`. */
  method DummyAskNew(res: Response, body: Json, fails: Option<Failure>)
    modifies res
    ensures res.State() == DummyAskNewSpec(old(res.State()), body, fails)
  {
    if QueryOrPrompt(body).None? {
      res.StatusJson(Some(400), ErrorBody(MissingQuery));
      return;
    }
    var payload := if fails.Some? then ErrorPayload(fails.value) else DummyPayload;
    res.WriteFrames(payload);
  }

  /** Every present query gets the same stream: the fixed delta frame, reading back as the
      dummy answer, then `[DONE]`. */
  lemma DummyIgnoresQuery(s: ResponseState, b1: Json, b2: Json)
    requires QueryOrPrompt(b1).Some? && QueryOrPrompt(b2).Some?
    ensures DummyAskNewSpec(s, b1, None) == DummyAskNewSpec(s, b2, None)
    ensures DummyAskNewSpec(s, b1, None).written == s.written + [Frame(DummyPayload), DoneFrame]
  {
  }

  /** The dummy payload reads back as the one `delta` field holding the dummy answer. */
  lemma DummyPayloadReadsBack()
    ensures ParseFlat(DummyPayload) == Some([("delta", DummyAnswer)])
  {
    ParseStringifyFlat(DummyFields);
  }

  /** On an error the dummy handler writes one error frame and then `[DONE]`. */
  lemma DummyErrorThenDone(s: ResponseState, body: Json, f: Failure)
    requires QueryOrPrompt(body).Some?
    ensures DummyAskNewSpec(s, body, Some(f)).written == s.written + [Frame(ErrorPayload(f)), DoneFrame]
    ensures DummyAskNewSpec(s, body, Some(f)).ended
  {
  }
}
