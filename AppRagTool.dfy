/** The `searchDocs` tool of `app/src/mastra/agents/rag_agent_vector_final.ts`: the same
    search, refinement and composition as the bh-rag tool, with the answer wrapped in HTML
    and followed by a list of links to the cited letters. */
module AppRagTool {
  import opened Options
  import opened Strings
  import opened Json
  import opened RagAnswer

  const LettersBase: string := "http://localhost:4112/letters/"

  /** The link to a cited letter: `<a href="<base><name>" target="_blank"><name></a>`, with
      the file name as `String` writes it. */
  function Anchor(c: Citation): string {
    var name := ToJsString(c.fileName);
    "<a href=\"" + LettersBase + name + "\" target=\"_blank\">" + name + "</a>"
  }

  function Anchors(cs: seq<Citation>): (r: seq<string>)
    ensures |r| == |cs| && forall i :: 0 <= i < |cs| ==> r[i] == Anchor(cs[i])
  {
    if cs == [] then [] else Anchors(cs[..|cs| - 1]) + [Anchor(cs[|cs| - 1])]
  }

  /** `citationsList`: the links joined with "<br>". */
  function CitationsList(cs: seq<Citation>): string {
    Join(Anchors(cs), "<br>")
  }

  /** A link both points at and shows the cited file name. */
  lemma AnchorNamesFile(c: Citation)
    ensures OccursAt(Anchor(c), LettersBase + ToJsString(c.fileName), 9)
    ensures EndsWith(Anchor(c), ">" + ToJsString(c.fileName) + "</a>")
  {
    var name := ToJsString(c.fileName);
    var a := Anchor(c);
    assert a[9..9 + |LettersBase + name|] == LettersBase + name;
    assert a[|a| - |">" + name + "</a>"|..] == ">" + name + "</a>";
  }

  /** The list holds the link of every citation, in citation order, separated by "<br>". */
  lemma ListsCitationsInOrder(cs: seq<Citation>, i: nat)
    requires i < |cs|
    ensures OccursAt(CitationsList(cs), Anchor(cs[i]), JoinOffset(Anchors(cs), "<br>", i))
    ensures i + 1 < |cs| ==>
      OccursAt(CitationsList(cs), "<br>", JoinOffset(Anchors(cs), "<br>", i) + |Anchor(cs[i])|)
  {
    JoinLayout(Anchors(cs), "<br>", i);
  }

  const SourcesBanner: string := "\n<br><br>\n<strong>Sources:</strong><br>\n"

  /** `finalAnswer`: the trimmed answer and the links, each on lines of their own. */
  function Wrapped(finalText: string, list: string): string {
    "\n" + finalText + SourcesBanner + list + "\n"
  }

  /** The wrapped text holds the answer right after its first line break and ends with the
      sources banner, the list and a line break. */
  lemma WrappedLayout(finalText: string, list: string)
    ensures OccursAt(Wrapped(finalText, list), finalText, 1)
    ensures OccursAt(Wrapped(finalText, list), SourcesBanner, 1 + |finalText|)
    ensures EndsWith(Wrapped(finalText, list), SourcesBanner + list + "\n")
  {
    var w := Wrapped(finalText, list);
    assert w[1..1 + |finalText|] == finalText;
    assert w[1 + |finalText|..1 + |finalText| + |SourcesBanner|] == SourcesBanner;
    assert w[|w| - |SourcesBanner + list + "\n"|..] == SourcesBanner + list + "\n";
  }

  /** `searchDocs.execute`; `None` when composing the refined answer throws. */
  function Execute(query: string, instructions: string, svc: Services): (r: Option<ToolResult>)
    ensures r.None? ==> svc.search(query) != []
  {
    var results := svc.search(query);
    if |results| == 0 then Some(ToolResult(NoContent, []))
    else
      var reranked := svc.rerank(results, query);
      var citations := Citations(reranked, false);
      match Answer(query, instructions, reranked, svc)
      case None => None
      case Some(text) => Some(ToolResult(Wrapped(text, CitationsList(citations)), citations))
  }

  /** An empty search answers "No relevant content found." with no citations and no
      wrapping, whatever the reranker and the model would do. */
  lemma NoResultsShortCircuit(query: string, instructions: string, svc: Services, other: Services)
    requires svc.search(query) == [] && other.search(query) == []
    ensures Execute(query, instructions, svc) == Execute(query, instructions, other)
    ensures Execute(query, instructions, svc) == Some(ToolResult(NoContent, []))
  {
  }

  /** A successful answer over a non-empty search cites each reranked hit once, in rerank
      order, and its text ends with the links of exactly those citations. */
  lemma TextListsItsCitations(query: string, instructions: string, svc: Services)
    requires svc.search(query) != [] && Execute(query, instructions, svc).Some?
    ensures var reranked := svc.rerank(svc.search(query), query);
      var r := Execute(query, instructions, svc).value;
      |r.citations| == |reranked|
      && (forall i :: 0 <= i < |reranked| ==> r.citations[i].fileName == FileNameOf(reranked[i]))
      && EndsWith(r.text, SourcesBanner + CitationsList(r.citations) + "\n")
  {
    var reranked := svc.rerank(svc.search(query), query);
    WrappedLayout(Answer(query, instructions, reranked, svc).value, CitationsList(Citations(reranked, false)));
  }

  /** When the refinement gave a direct answer, the text right after the opening line break
      starts with "Direct Answer:", and the answer part holds it exactly once. */
  lemma LeadsWithDirectAnswer(query: string, instructions: string, svc: Services)
    requires svc.search(query) != []
    requires var reranked := svc.rerank(svc.search(query), query);
      HasDirectAnswer(Refined(FirstAnswer(query, instructions, reranked, svc), svc))
    requires Execute(query, instructions, svc).Some?
    ensures var reranked := svc.rerank(svc.search(query), query);
      var answer := Answer(query, instructions, reranked, svc).value;
      OccursAt(Execute(query, instructions, svc).value.text, answer, 1)
      && StartsWith(answer, Marker) && AtMostOneMarker(answer)
  {
    var reranked := svc.rerank(svc.search(query), query);
    AnswerLeadsWithDirectAnswer(query, instructions, reranked, svc);
    WrappedLayout(Answer(query, instructions, reranked, svc).value, CitationsList(Citations(reranked, false)));
  }
}
