/** The `searchDocs` tool of `app/src/rag/agent/rag_agent_vector.ts`: search, rerank and a
    single answer call over the reranked context, without refinement. */
module VectorRagTool {
  import opened Options
  import opened Strings
  import opened Json
  import opened RagAnswer

  const NoAnswer: string := "No answer found."

  const AnswerIntro: string := "Given the following PDF content, answer the user's question.\n\nPDF Chunks:\n"

  /** `answerPrompt`: the context, then the question. */
  function AnswerPrompt(context: string, query: string): string {
    AnswerIntro + context + "\n\nQuestion: " + query
  }

  /** The prompt embeds the context and the question verbatim. */
  lemma AnswerPromptVerbatim(context: string, query: string)
    ensures OccursAt(AnswerPrompt(context, query), context, |AnswerIntro|)
    ensures EndsWith(AnswerPrompt(context, query), "\n\nQuestion: " + query)
  {
    var p := AnswerPrompt(context, query);
    assert p[|AnswerIntro|..|AnswerIntro| + |context|] == context;
    assert p[|p| - |"\n\nQuestion: " + query|..] == "\n\nQuestion: " + query;
  }

  /** The single answer call: one user message. */
  function Generated(query: string, reranked: seq<Hit>, svc: Services): Option<string> {
    svc.generate([Message("user", AnswerPrompt(ContextText(reranked), query))])
  }

  /** `searchDocs.execute`: it never throws once the services answer. */
  function Execute(query: string, svc: Services): (r: ToolResult)
    ensures |r.citations| <= |svc.rerank(svc.search(query), query)|
  {
    var results := svc.search(query);
    if |results| == 0 then ToolResult(NoContent, [])
    else
      var reranked := svc.rerank(results, query);
      var text := match Generated(query, reranked, svc)
        case None => NoAnswer
        case Some(t) => t;
      ToolResult(text, Citations(reranked, true))
  }

  /** An empty search answers "No relevant content found." with no citations, whatever the
      reranker and the model would do. */
  lemma NoResultsShortCircuit(query: string, svc: Services, other: Services)
    requires svc.search(query) == [] && other.search(query) == []
    ensures Execute(query, svc) == Execute(query, other) == ToolResult(NoContent, [])
  {
  }

  /** "No answer found." replaces only a missing answer: any answer text, the empty one
      included, is returned unchanged. */
  lemma MissingAnswerOnly(query: string, svc: Services)
    requires svc.search(query) != []
    ensures var g := Generated(query, svc.rerank(svc.search(query), query), svc);
      (g.Some? ==> Execute(query, svc).text == g.value)
      && (Execute(query, svc).text == NoAnswer <==> g.None? || g == Some(NoAnswer))
  {
  }

  /** The citations follow the reranked hits, and no chunk index is `null`: a `null` one is
      dropped to `undefined`. */
  lemma CitationsWithoutNull(query: string, svc: Services)
    requires svc.search(query) != []
    ensures var reranked := svc.rerank(svc.search(query), query);
      var cs := Execute(query, svc).citations;
      |cs| == |reranked|
      && forall i :: 0 <= i < |cs| ==>
           cs[i].fileName == FileNameOf(reranked[i]) && cs[i].chunkIndex != Some(JNull)
           && (Field(reranked[i], "chunkIndex") != Some(JNull) ==> cs[i].chunkIndex == Field(reranked[i], "chunkIndex"))
  {
  }
}
