/** The answer post-processing the `searchDocs` tools share
    (`bh-rag/src/rag/agent/rag_agent_vector_final.ts`,
    `app/src/mastra/agents/rag_agent_vector_final.ts`, `app/src/rag/agent/rag_agent_vector.ts`):
    reading the metadata of reranked hits, the context and the citations built from them,
    `safeJSONParse`, the structured composition of a refined answer and the trim that keeps
    only its first "Direct Answer:" block. */
module RagAnswer {
  import opened Options
  import opened Strings
  import opened Json

  // ---------------------------------------------------------------------------
  // hits, context and citations

  /** A reranked hit; `result` is `r.result` (`None` when undefined). */
  datatype Hit = Hit(result: Option<Json>)

  /** `r.result?.metadata?.<key>`; `None` is `undefined`. */
  function Field(h: Hit, key: string): Option<Json> {
    match h.result
    case None => None
    case Some(res) =>
      match Get(res, "metadata")
      case None => None
      case Some(m) => Get(m, key)
  }

  /** `r.result?.metadata?.text ?? ""` as `join` writes it. */
  function TextOf(h: Hit): string {
    match Field(h, "text")
    case None => ""
    case Some(v) => if v.JNull? then "" else ToJsString(v)
  }

  function HitTexts(hits: seq<Hit>): (r: seq<string>)
    ensures |r| == |hits| && forall i :: 0 <= i < |hits| ==> r[i] == TextOf(hits[i])
  {
    if hits == [] then [] else HitTexts(hits[..|hits| - 1]) + [TextOf(hits[|hits| - 1])]
  }

  const ContextSeparator: string := "\n---\n"

  /** The context handed to the model: the hits' texts joined with "\n---\n". */
  function ContextText(hits: seq<Hit>): string {
    Join(HitTexts(hits), ContextSeparator)
  }

  /** The context lists the hits' texts in rerank order: the text of hit `i` starts at its
      offset and, unless it is the last, is followed by the separator. */
  lemma ContextInRerankOrder(hits: seq<Hit>, i: nat)
    requires i < |hits|
    ensures OccursAt(ContextText(hits), HitTexts(hits)[i], JoinOffset(HitTexts(hits), ContextSeparator, i))
    ensures i + 1 < |hits| ==>
      OccursAt(ContextText(hits), ContextSeparator, JoinOffset(HitTexts(hits), ContextSeparator, i) + |HitTexts(hits)[i]|)
  {
    JoinLayout(HitTexts(hits), ContextSeparator, i);
  }

  /** A citation: the file name (any truthy value the metadata holds) and the chunk index as
      read, `None` when undefined. */
  datatype Citation = Citation(fileName: Json, chunkIndex: Option<Json>)

  /** `fileName || "unknown"`. */
  function FileNameOf(h: Hit): (r: Json)
    ensures Truthy(r)
    ensures r == JStr("unknown") || Some(r) == Field(h, "fileName")
    ensures TruthyOpt(Field(h, "fileName")) ==> Some(r) == Field(h, "fileName")
  {
    var f := Field(h, "fileName");
    if TruthyOpt(f) then f.value else JStr("unknown")
  }

  /** One citation per hit, in rerank order; `chunkIndex` as `nullToUndefined` treats it:
      `r.result?.metadata?.chunkIndex`, with `null` kept or turned into `undefined`. */
  function Citations(hits: seq<Hit>, nullToUndefined: bool): (r: seq<Citation>)
    ensures |r| == |hits|
    ensures forall i :: 0 <= i < |hits| ==> r[i].fileName == FileNameOf(hits[i])
    ensures forall i :: 0 <= i < |hits| ==>
      r[i].chunkIndex == if nullToUndefined && Field(hits[i], "chunkIndex") == Some(JNull) then None
                         else Field(hits[i], "chunkIndex")
  {
    if hits == [] then []
    else
      var h := hits[|hits| - 1];
      var ci := Field(h, "chunkIndex");
      Citations(hits[..|hits| - 1], nullToUndefined)
        + [Citation(FileNameOf(h), if nullToUndefined && ci == Some(JNull) then None else ci)]
  }

  /** "unknown" stands in exactly for a falsy file name. */
  lemma UnknownIffFalsy(hits: seq<Hit>, nullToUndefined: bool, i: nat)
    requires i < |hits|
    requires Field(hits[i], "fileName") != Some(JStr("unknown"))
    ensures Citations(hits, nullToUndefined)[i].fileName == JStr("unknown") <==> !TruthyOpt(Field(hits[i], "fileName"))
  {
  }

  // ---------------------------------------------------------------------------
  // the services a tool calls, and what it returns

  /** A chat message handed to `doGenerate`. */
  datatype Message = Message(role: string, content: string)

  /** The foreign calls of a tool run: `search` is the embedding of the query followed by
      the vector query (top 10), `rerank` the reranker (top 5), `generate` the `text` of a
      `doGenerate` call (`None` when null or undefined) and `parse` `JSON.parse` (`None` when
      it throws). */
  datatype Services = Services(
    search: string -> seq<Hit>,
    rerank: (seq<Hit>, string) -> seq<Hit>,
    generate: seq<Message> -> Option<string>,
    parse: string -> Option<Json>)

  /** What `searchDocs.execute` returns. */
  datatype ToolResult = ToolResult(text: string, citations: seq<Citation>)

  const NoContent: string := "No relevant content found."

  const SynthesisIntro: string := "Given the following shareholder letter excerpts, answer clearly and concisely:\n\n"

  /** The first-pass prompt of the two refining tools: the context, then the question. */
  function SynthesisPrompt(context: string, query: string): string {
    SynthesisIntro + context + "\n\nQuestion: " + query
  }

  /** The prompt embeds the context and the question verbatim. */
  lemma SynthesisPromptVerbatim(context: string, query: string)
    ensures OccursAt(SynthesisPrompt(context, query), context, |SynthesisIntro|)
    ensures EndsWith(SynthesisPrompt(context, query), "\n\nQuestion: " + query)
  {
    var p := SynthesisPrompt(context, query);
    assert p[|SynthesisIntro|..|SynthesisIntro| + |context|] == context;
    assert p[|p| - |"\n\nQuestion: " + query|..] == "\n\nQuestion: " + query;
  }

  const RefineSchema: string :=
    "\nReturn ONLY valid JSON with this schema:\n\n{\n  \"direct_answer\": string,\n  \"supporting_evidence\": string[],\n  \"contextual_analysis\": string,\n  \"sources\": string[]\n}\n\n"

  /** The refinement prompt: the schema, then the first answer after "Text:\n". */
  function RefinePrompt(raw: string): string {
    RefineSchema + "Text:\n" + raw
  }

  /** The refinement prompt ends with the first answer, verbatim, after "Text:\n". */
  lemma RefinePromptVerbatim(raw: string)
    ensures EndsWith(RefinePrompt(raw), "Text:\n" + raw)
  {
    var p := RefinePrompt(raw);
    assert p[|p| - |"Text:\n" + raw|..] == "Text:\n" + raw;
  }

  /** `(result as any).text ?? ""`. */
  function OrEmpty(text: Option<string>): string {
    if text.Some? then text.value else ""
  }

  /** The second pass: the refinement call, then `safeJSONParse` of its text (a missing
      text makes `trim` throw inside the `try`, which gives `null`). */
  function Refined(raw: string, svc: Services): Option<Json> {
    match svc.generate([Message("system", RefinePrompt(raw)), Message("user", raw)])
    case None => None
    case Some(t) => SafeJsonParse(t, svc.parse)
  }

  // ---------------------------------------------------------------------------
  // safeJSONParse

  const Fence: string := "```"

  /** `.replace(/^```(?:json)?/i, "")`: an opening fence, with the `json` tag when present
      (in any letter case), is removed once. */
  function DropOpenFence(s: string): (r: string)
    ensures r == s || (StartsWith(s, Fence) && (r == s[3..] || (|s| >= 7 && r == s[7..])))
  {
    if StartsWith(s, Fence) && StartsWithIgnoreCase(s[3..], "json") then s[7..]
    else if StartsWith(s, Fence) then s[3..]
    else s
  }

  /** `.replace(/```$/, "")`: a closing fence at the very end is removed once. */
  function DropCloseFence(s: string): (r: string)
    ensures r == s || (EndsWith(s, Fence) && r == s[..|s| - 3])
  {
    if EndsWith(s, Fence) then s[..|s| - 3] else s
  }

  /** The text `safeJSONParse` hands to `JSON.parse`. */
  function Cleaned(text: string): string {
    Trim(DropCloseFence(DropOpenFence(Trim(text))))
  }

  /** `safeJSONParse`: `JSON.parse` (the oracle `parse`, `None` when it throws) of the
      cleaned text; a failure gives `null`, here `None`. */
  function SafeJsonParse(text: string, parse: string -> Option<Json>): Option<Json> {
    parse(Cleaned(text))
  }

  /** The opening fence is removed together with a following `json` tag. */
  lemma DropOpenFenceTagged(rest: string)
    requires |rest| >= 4 && StartsWithIgnoreCase(rest, "json")
    ensures DropOpenFence(Fence + rest) == rest[4..]
  {
    assert (Fence + rest)[..3] == Fence;
    assert (Fence + rest)[3..] == rest;
  }

  /** Without a tag only the opening fence is removed. */
  lemma DropOpenFenceBare(rest: string)
    requires !StartsWithIgnoreCase(rest, "json")
    ensures DropOpenFence(Fence + rest) == rest
  {
    assert (Fence + rest)[..3] == Fence;
    assert (Fence + rest)[3..] == rest;
  }

  lemma DropCloseFenceOf(x: string)
    ensures DropCloseFence(x + Fence) == x
  {
    assert (x + Fence)[|x|..] == Fence;
    assert (x + Fence)[..|x|] == x;
  }

  /** A fenced text starts and ends with a backtick, so the first trim leaves it alone. */
  lemma TrimFenced(x: string, y: string)
    ensures Trim(Fence + x + y + Fence) == Fence + x + y + Fence
  {
    TrimOfTrimmed(Fence + x + y + Fence);
  }

  /** `Cleaned` step by step. */
  lemma CleanedSteps(text: string, a: string, b: string, c: string)
    requires Trim(text) == a && DropOpenFence(a) == b && DropCloseFence(b) == c
    ensures Cleaned(text) == Trim(c)
  {
  }

  lemma DropOpenFenceJson(tag: string, body: string)
    requires |tag| == 4 && StartsWithIgnoreCase(tag, "json")
    ensures DropOpenFence(Fence + tag + body + Fence) == body + Fence
  {
    var rest := tag + (body + Fence);
    StartsWithIgnoreCaseAppend(tag, body + Fence, "json");
    DropOpenFenceTagged(rest);
    assert Fence + tag + body + Fence == Fence + rest && rest[4..] == body + Fence;
  }

  /** A fenced block tagged `json` is unwrapped to its trimmed body. */
  lemma CleanedJsonFence(tag: string, body: string)
    requires |tag| == 4 && StartsWithIgnoreCase(tag, "json")
    ensures Cleaned(Fence + tag + body + Fence) == Trim(body)
  {
    TrimFenced(tag, body);
    DropOpenFenceJson(tag, body);
    DropCloseFenceOf(body);
    CleanedSteps(Fence + tag + body + Fence, Fence + tag + body + Fence, body + Fence, body);
  }

  /** A bare fenced block is unwrapped to its trimmed body, unless the body itself starts
      with "json", which the pattern takes for the tag. */
  lemma CleanedBareFence(body: string)
    requires !StartsWithIgnoreCase(body + Fence, "json")
    ensures Cleaned(Fence + body + Fence) == Trim(body)
  {
    TrimFenced(body, "");
    assert Fence + body + "" + Fence == Fence + body + Fence == Fence + (body + Fence);
    DropOpenFenceBare(body + Fence);
    DropCloseFenceOf(body);
    CleanedSteps(Fence + body + Fence, Fence + body + Fence, body + Fence, body);
  }

  /** Text without fences is only trimmed. */
  lemma CleanedUnfenced(text: string)
    requires !StartsWith(Trim(text), Fence) && !EndsWith(Trim(text), Fence)
    ensures Cleaned(text) == Trim(text)
  {
    TrimIdempotent(text);
  }

  // ---------------------------------------------------------------------------
  // composing the refined answer

  /** `String(x)` of an array element inside `join`: `null` becomes "". */
  function ElementString(v: Json): string {
    if v.JNull? then "" else ToJsString(v)
  }

  function ElementStrings(items: seq<Json>): (r: seq<string>)
    ensures |r| == |items| && forall i :: 0 <= i < |items| ==> r[i] == ElementString(items[i])
  {
    if items == [] then [] else ElementStrings(items[..|items| - 1]) + [ElementString(items[|items| - 1])]
  }

  /** `v?.length` is truthy: a non-empty array or string, or an object whose `length`
      member is truthy. */
  predicate LengthTruthy(v: Option<Json>) {
    match v
    case None => false
    case Some(JArr(items)) => |items| > 0
    case Some(JStr(s)) => |s| > 0
    case Some(JObj(fields)) => TruthyOpt(LastValue(fields, "length"))
    case Some(_) => false
  }

  /** A list section: `empty` when the value's length is falsy, otherwise `header` and the
      items joined by "\n- "; `None` when the value has a length but no `join` (a
      TypeError). */
  function Section(v: Option<Json>, header: string, empty: string): (r: Option<string>)
    ensures r.None? <==> LengthTruthy(v) && !v.value.JArr?
    ensures !LengthTruthy(v) ==> r == Some(empty)
  {
    if !LengthTruthy(v) then Some(empty)
    else if v.value.JArr? then Some(header + Join(ElementStrings(v.value.items), "\n- "))
    else None
  }

  const EvidenceHeader: string := "\nSupporting Evidence:\n- "
  const NoEvidence: string := "\nSupporting Evidence: (none)"
  const AnalysisHeader: string := "\nContextual Analysis:\n"
  const SourcesHeader: string := "\nSource Documentation:\n- "
  const DirectAnswerPrefix: string := "Direct Answer: "

  /** The refined answer is used when the parse gave a truthy value with a truthy
      `direct_answer`. */
  predicate HasDirectAnswer(parsed: Option<Json>) {
    parsed.Some? && Truthy(parsed.value) && TruthyOpt(Get(parsed.value, "direct_answer"))
  }

  /** The four parts of the structured answer, joined by "\n"; `None` for a TypeError. */
  function Structured(p: Json): Option<string>
    requires TruthyOpt(Get(p, "direct_answer"))
  {
    var head := DirectAnswerPrefix + ToJsString(Get(p, "direct_answer").value);
    var analysis := Get(p, "contextual_analysis");
    var body := AnalysisHeader + (if TruthyOpt(analysis) then ToJsString(analysis.value) else "(none)");
    match Section(Get(p, "supporting_evidence"), EvidenceHeader, NoEvidence)
    case None => None
    case Some(evidence) =>
      match Section(Get(p, "sources"), SourcesHeader, "")
      case None => None
      case Some(sources) => Some(Join([head, evidence, body, sources], "\n"))
  }

  /** `composed`: the structured answer when there is a direct answer, `raw` otherwise. */
  function Compose(parsed: Option<Json>, raw: string): Option<string> {
    if HasDirectAnswer(parsed) then Structured(parsed.value) else Some(raw)
  }

  /** Without a direct answer the model's first answer is kept unchanged. */
  lemma ComposeRawIff(parsed: Option<Json>, raw: string)
    requires !StartsWith(raw, DirectAnswerPrefix)
    ensures Compose(parsed, raw) == Some(raw) <==> !HasDirectAnswer(parsed)
  {
    if HasDirectAnswer(parsed) && Compose(parsed, raw).Some? {
      ComposeStartsWithDirectAnswer(parsed, raw);
    }
  }

  /** With a direct answer `d` the composed text starts with "Direct Answer: " + `String(d)`. */
  lemma ComposeStartsWithDirectAnswer(parsed: Option<Json>, raw: string)
    requires HasDirectAnswer(parsed) && Compose(parsed, raw).Some?
    ensures StartsWith(Compose(parsed, raw).value,
                       DirectAnswerPrefix + ToJsString(Get(parsed.value, "direct_answer").value))
  {
    var p := parsed.value;
    var head := DirectAnswerPrefix + ToJsString(Get(p, "direct_answer").value);
    var analysis := Get(p, "contextual_analysis");
    var body := AnalysisHeader + (if TruthyOpt(analysis) then ToJsString(analysis.value) else "(none)");
    var evidence := Section(Get(p, "supporting_evidence"), EvidenceHeader, NoEvidence).value;
    var sources := Section(Get(p, "sources"), SourcesHeader, "").value;
    JoinLayout([head, evidence, body, sources], "\n", 0);
  }

  /** Empty evidence, analysis and sources give the "(none)" sections and no sources. */
  lemma ComposeEmptySections(parsed: Option<Json>, raw: string)
    requires HasDirectAnswer(parsed)
    requires !LengthTruthy(Get(parsed.value, "supporting_evidence"))
    requires !TruthyOpt(Get(parsed.value, "contextual_analysis"))
    requires !LengthTruthy(Get(parsed.value, "sources"))
    ensures Compose(parsed, raw) == Some(DirectAnswerPrefix + ToJsString(Get(parsed.value, "direct_answer").value)
      + "\n" + NoEvidence + "\n" + (AnalysisHeader + "(none)") + "\n")
  {
    var p := parsed.value;
    var head := DirectAnswerPrefix + ToJsString(Get(p, "direct_answer").value);
    var body := AnalysisHeader + "(none)";
    assert Structured(p) == Some(Join([head, NoEvidence, body, ""], "\n"));
    JoinFourLastEmpty(head, NoEvidence, body, "\n");
  }

  /** The composition fails (the tool throws) exactly when evidence or sources has a truthy
      length but is not an array. */
  lemma ComposeFailsIff(parsed: Option<Json>, raw: string)
    ensures Compose(parsed, raw).None? <==>
      HasDirectAnswer(parsed)
      && ((LengthTruthy(Get(parsed.value, "supporting_evidence")) && !Get(parsed.value, "supporting_evidence").value.JArr?)
          || (LengthTruthy(Get(parsed.value, "sources")) && !Get(parsed.value, "sources").value.JArr?))
  {
  }

  // ---------------------------------------------------------------------------
  // the safeguard trim

  const Marker: string := "Direct Answer:"

  /** The final text: from the first "Direct Answer:" up to the next one, trimmed, when it
      occurs twice; otherwise the whole composed text, trimmed. */
  function FinalText(composed: string): string {
    var start := IndexOf(composed, Marker, 0);
    var next := IndexOf(composed, Marker, if start == -1 then 13 else start + 14);
    if start != -1 && next != -1 then Trim(composed[start..next]) else Trim(composed)
  }

  /** "Direct Answer:" cannot overlap itself: its only "D" is its first character. */
  lemma MarkerNoOverlap(s: string, i: int, k: int)
    requires OccursAt(s, Marker, i) && 0 < k < |Marker|
    ensures !OccursAt(s, Marker, i + k)
  {
    assert s[i + k] == s[i..i + |Marker|][k] == Marker[k];
    if i + k + |Marker| <= |s| {
      assert s[i + k..i + k + |Marker|][0] == s[i + k];
    }
  }

  /** The marker occurs at most once in `s`. */
  predicate AtMostOneMarker(s: string) {
    forall i, j :: 0 <= i <= |s| && 0 <= j <= |s| && OccursAt(s, Marker, i) && OccursAt(s, Marker, j) ==> i == j
  }

  /** When no marker follows the first one, every marker is the first one. */
  lemma OnlyFirstMarker(s: string, a: int)
    requires OccursAt(s, Marker, a)
    requires IndexOf(s, Marker, IndexOf(s, Marker, 0) + 14) == -1
    ensures a == IndexOf(s, Marker, 0)
  {
    var start := IndexOf(s, Marker, 0);
    IndexOfFirst(s, Marker, 0);
    IndexOfFirst(s, Marker, start + 14);
    if start < a < start + 14 {
      MarkerNoOverlap(s, start, a - start);
    }
  }

  /** Without a second marker after the first, there is at most one. */
  lemma NoSecondMarker(s: string)
    requires IndexOf(s, Marker, 0) == -1 || IndexOf(s, Marker, IndexOf(s, Marker, 0) + 14) == -1
    ensures AtMostOneMarker(s)
  {
    IndexOfFirst(s, Marker, 0);
    if IndexOf(s, Marker, 0) != -1 {
      forall a | OccursAt(s, Marker, a) ensures a == IndexOf(s, Marker, 0) {
        OnlyFirstMarker(s, a);
      }
    }
  }

  /** The first two markers `i` and `j` are the ones `FinalText` finds. */
  lemma FirstTwoMarkers(composed: string, i: int, j: int)
    requires OccursAt(composed, Marker, i) && OccursAt(composed, Marker, j) && i < j
    requires forall k :: 0 <= k < i ==> !OccursAt(composed, Marker, k)
    requires forall k :: i < k < j ==> !OccursAt(composed, Marker, k)
    ensures i + 14 <= j && IndexOf(composed, Marker, 0) == i && IndexOf(composed, Marker, i + 14) == j
  {
    IndexOfIs(composed, Marker, 0, i);
    if j < i + 14 {
      MarkerNoOverlap(composed, i, j - i);
    }
    IndexOfIs(composed, Marker, i + 14, j);
  }

  /** The block between the first two markers holds only the first. */
  lemma BlockMarker(composed: string, i: int, j: int, a: int)
    requires OccursAt(composed, Marker, i) && i + 14 <= j <= |composed|
    requires forall k :: i < k < j ==> !OccursAt(composed, Marker, k)
    requires OccursAt(composed[i..j], Marker, a)
    ensures a == 0
  {
    OccursInSlice(composed, Marker, i, j, a);
    if 0 < a < 14 {
      MarkerNoOverlap(composed, i, a);
    }
  }

  lemma BlockHasOneMarker(composed: string, i: int, j: int)
    requires OccursAt(composed, Marker, i) && i + 14 <= j <= |composed|
    requires forall k :: i < k < j ==> !OccursAt(composed, Marker, k)
    ensures OccursAt(composed[i..j], Marker, 0) && AtMostOneMarker(composed[i..j])
  {
    assert composed[i..j][0..14] == composed[i..i + 14];
    forall a | OccursAt(composed[i..j], Marker, a) ensures a == 0 {
      BlockMarker(composed, i, j, a);
    }
  }

  /** A text starting with the marker still does once trimmed. */
  lemma TrimStartsWithMarker(block: string)
    requires OccursAt(block, Marker, 0)
    ensures StartsWith(Trim(block), Marker)
  {
    assert block[0] == Marker[0] && block[13] == Marker[13];
    var lo, hi := TrimKeepsNonSpace(block, 0);
    var lo', hi' := TrimKeepsNonSpace(block, 13);
    assert Trim(block)[..14] == block[..14];
  }

  /** Trimming only cuts `\s` off the ends, so it keeps a text's markers distinct. */
  lemma TrimKeepsAtMostOne(s: string)
    requires AtMostOneMarker(s)
    ensures AtMostOneMarker(Trim(s))
  {
    var lo, hi := TrimBounds(s);
    forall a, b | OccursAt(Trim(s), Marker, a) && OccursAt(Trim(s), Marker, b) ensures a == b {
      OccursInSlice(s, Marker, lo, hi, a);
      OccursInSlice(s, Marker, lo, hi, b);
    }
  }

  /** With two markers the result is the trimmed first block: it starts with the marker and
      holds it exactly once. */
  lemma FinalTextFirstBlock(composed: string, i: int, j: int)
    requires OccursAt(composed, Marker, i) && OccursAt(composed, Marker, j) && i < j
    requires forall k :: 0 <= k < i ==> !OccursAt(composed, Marker, k)
    requires forall k :: i < k < j ==> !OccursAt(composed, Marker, k)
    ensures FinalText(composed) == Trim(composed[i..j])
    ensures StartsWith(FinalText(composed), Marker) && AtMostOneMarker(FinalText(composed))
  {
    FirstTwoMarkers(composed, i, j);
    BlockHasOneMarker(composed, i, j);
    TrimKeepsAtMostOne(composed[i..j]);
    TrimStartsWithMarker(composed[i..j]);
  }

  /** With fewer than two markers the result is the composed text, trimmed. */
  lemma FinalTextSingleBlock(composed: string)
    requires AtMostOneMarker(composed)
    ensures FinalText(composed) == Trim(composed)
  {
  }

  /** The trim is idempotent: applied to its own result it changes nothing. */
  lemma FinalTextIdempotent(composed: string)
    ensures FinalText(FinalText(composed)) == FinalText(composed)
  {
    var start := IndexOf(composed, Marker, 0);
    var next := IndexOf(composed, Marker, if start == -1 then 13 else start + 14);
    if start != -1 && next != -1 {
      IndexOfFirst(composed, Marker, 0);
      IndexOfFirst(composed, Marker, start + 14);
      forall k | start < k < next ensures !OccursAt(composed, Marker, k) {
        if k < start + 14 { MarkerNoOverlap(composed, start, k - start); }
      }
      FinalTextFirstBlock(composed, start, next);
      TrimIdempotent(composed[start..next]);
    } else {
      NoSecondMarker(composed);
      TrimKeepsAtMostOne(composed);
      TrimIdempotent(composed);
    }
    FinalTextSingleBlock(FinalText(composed));
  }

  /** A text that starts with the marker keeps a result that starts with it and holds it
      exactly once. */
  lemma FinalTextOfMarked(composed: string)
    requires OccursAt(composed, Marker, 0)
    ensures StartsWith(FinalText(composed), Marker) && AtMostOneMarker(FinalText(composed))
  {
    IndexOfIs(composed, Marker, 0, 0);
    var next := IndexOf(composed, Marker, 14);
    if next != -1 {
      IndexOfFirst(composed, Marker, 14);
      forall k | 0 < k < next ensures !OccursAt(composed, Marker, k) {
        if k < 14 { MarkerNoOverlap(composed, 0, k); }
      }
      FinalTextFirstBlock(composed, 0, next);
    } else {
      NoSecondMarker(composed);
      TrimKeepsAtMostOne(composed);
      TrimStartsWithMarker(composed);
    }
  }

  /** A structured answer starts with the marker. */
  lemma StructuredMarked(parsed: Option<Json>, raw: string)
    requires HasDirectAnswer(parsed) && Compose(parsed, raw).Some?
    ensures OccursAt(Compose(parsed, raw).value, Marker, 0)
  {
    ComposeStartsWithDirectAnswer(parsed, raw);
    var c := Compose(parsed, raw).value;
    assert c[..14] == DirectAnswerPrefix[..14];
  }

  // ---------------------------------------------------------------------------
  // the answer of the two refining tools

  /** The first answer: the synthesis call with the agent's instructions as the system
      message and the prompt over the reranked hits, `?? ""`. */
  function FirstAnswer(query: string, instructions: string, reranked: seq<Hit>, svc: Services): string {
    OrEmpty(svc.generate([Message("system", instructions), Message("user", SynthesisPrompt(ContextText(reranked), query))]))
  }

  /** The final text of the two refining tools: refine, compose, trim; `None` when composing
      throws. */
  function Answer(query: string, instructions: string, reranked: seq<Hit>, svc: Services): Option<string> {
    var raw := FirstAnswer(query, instructions, reranked, svc);
    match Compose(Refined(raw, svc), raw)
    case None => None
    case Some(composed) => Some(FinalText(composed))
  }

  /** With a refined direct answer the final text starts with "Direct Answer:" and holds it
      exactly once. */
  lemma AnswerLeadsWithDirectAnswer(query: string, instructions: string, reranked: seq<Hit>, svc: Services)
    requires HasDirectAnswer(Refined(FirstAnswer(query, instructions, reranked, svc), svc))
    requires Answer(query, instructions, reranked, svc).Some?
    ensures StartsWith(Answer(query, instructions, reranked, svc).value, Marker)
    ensures AtMostOneMarker(Answer(query, instructions, reranked, svc).value)
  {
    var raw := FirstAnswer(query, instructions, reranked, svc);
    StructuredMarked(Refined(raw, svc), raw);
    FinalTextOfMarked(Compose(Refined(raw, svc), raw).value);
  }

  /** Without a refined direct answer the first answer is kept, trimmed to its first block,
      and the tool cannot fail. */
  lemma AnswerFallsBackToFirst(query: string, instructions: string, reranked: seq<Hit>, svc: Services)
    requires !HasDirectAnswer(Refined(FirstAnswer(query, instructions, reranked, svc), svc))
    ensures Answer(query, instructions, reranked, svc) == Some(FinalText(FirstAnswer(query, instructions, reranked, svc)))
    ensures AtMostOneMarker(FirstAnswer(query, instructions, reranked, svc)) ==>
      Answer(query, instructions, reranked, svc) == Some(Trim(FirstAnswer(query, instructions, reranked, svc)))
  {
  }

  /** The answer fails exactly when the refined answer has a direct answer and an evidence
      or sources value with a truthy length that is not an array. */
  lemma AnswerFailsIff(query: string, instructions: string, reranked: seq<Hit>, svc: Services)
    ensures var parsed := Refined(FirstAnswer(query, instructions, reranked, svc), svc);
      Answer(query, instructions, reranked, svc).None? <==>
      HasDirectAnswer(parsed)
      && ((LengthTruthy(Get(parsed.value, "supporting_evidence")) && !Get(parsed.value, "supporting_evidence").value.JArr?)
          || (LengthTruthy(Get(parsed.value, "sources")) && !Get(parsed.value, "sources").value.JArr?))
  {
    var raw := FirstAnswer(query, instructions, reranked, svc);
    ComposeFailsIff(Refined(raw, svc), raw);
  }
}
