/** The `searchDocs` tool of `bh-rag/src/rag/agent/rag_agent_vector_final.ts`: search,
    rerank, a first answer, a refinement into JSON, the structured composition and the
    safeguard trim. The services it calls are inputs. */
module BhRagTool {
  import opened Options
  import opened Strings
  import opened Json
  import opened RagAnswer

  /** `searchDocs.execute`; `None` when composing the refined answer throws. */
  function Execute(query: string, instructions: string, svc: Services): (r: Option<ToolResult>)
    ensures r.None? ==> svc.search(query) != []
  {
    var results := svc.search(query);
    if |results| == 0 then Some(ToolResult(NoContent, []))
    else
      var reranked := svc.rerank(results, query);
      match Answer(query, instructions, reranked, svc)
      case None => None
      case Some(text) => Some(ToolResult(text, Citations(reranked, false)))
  }

  /** An empty search answers "No relevant content found." with no citations, whatever the
      reranker and the model would do. */
  lemma NoResultsShortCircuit(query: string, instructions: string, svc: Services, other: Services)
    requires svc.search(query) == [] && other.search(query) == []
    ensures Execute(query, instructions, svc) == Execute(query, instructions, other)
    ensures Execute(query, instructions, svc) == Some(ToolResult(NoContent, []))
  {
  }

  /** A successful answer over a non-empty search cites each reranked hit once, in rerank
      order, with its file name or "unknown", and its chunk index as read (`null` kept). */
  lemma CitesRerankedHits(query: string, instructions: string, svc: Services)
    requires svc.search(query) != [] && Execute(query, instructions, svc).Some?
    ensures var reranked := svc.rerank(svc.search(query), query);
      var cs := Execute(query, instructions, svc).value.citations;
      |cs| == |reranked|
      && forall i :: 0 <= i < |cs| ==>
           Truthy(cs[i].fileName) && cs[i].fileName == FileNameOf(reranked[i])
           && cs[i].chunkIndex == Field(reranked[i], "chunkIndex")
  {
  }

  /** When the refinement gave a direct answer, the tool's text starts with
      "Direct Answer:" and holds it exactly once. */
  lemma LeadsWithDirectAnswer(query: string, instructions: string, svc: Services)
    requires svc.search(query) != []
    requires var reranked := svc.rerank(svc.search(query), query);
      HasDirectAnswer(Refined(FirstAnswer(query, instructions, reranked, svc), svc))
    requires Execute(query, instructions, svc).Some?
    ensures StartsWith(Execute(query, instructions, svc).value.text, Marker)
    ensures AtMostOneMarker(Execute(query, instructions, svc).value.text)
  {
    AnswerLeadsWithDirectAnswer(query, instructions, svc.rerank(svc.search(query), query), svc);
  }
}
