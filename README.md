# A Dafny model of the string and stream handling of a RAG chat over shareholder letters

The system answers questions about Berkshire Hathaway shareholder letters. It is two
TypeScript applications, `app` and `bh-rag`:

- **Ingestion.** PDFs are turned into text chunks, embedded and stored in pgvector.
- **Search tool.** An agent tool searches the store, reranks the hits, asks a model for a
  structured answer and post-processes it.
- **Servers.** An Express server runs the agent and answers either with JSON or with a
  server-sent event stream of `data:` frames ended by `data: [DONE]`.
- **Front ends.** A React hook reads that stream into chat messages.

This project models the logic around the network, database and model calls:

- **Ingestion.**
  - `Chunking`: table-aware chunking and word windows.
  - `MDocument`: the character-window baseline chunker.
  - `Ingest`: `ingest.ts`, with chunk expansion, per-chunk embedding and per-file error isolation.
  - `PgIngestion`: `ingestion-pgvector.ts`, with year tagging.
  - `UpsertPgvector`: ids, metadata and the create-index-once flag.
- **Answer post-processing.**
  - `RagAnswer`: `safeJSONParse`, composing the structured answer, and the duplicate
    `Direct Answer:` trim.
  - Built on it: the three `searchDocs` tools, `BhRagTool`, `AppRagTool` and `VectorRagTool`.
- **Servers.**
  - `Http`: the response object and answer selection.
  - `MastraServer`, `AppServer` and `BhServer`: the handlers.
- **Chat hooks.**
  - `Framing`: the generic fold over a stream split on a separator.
  - `AppChat`: the `app` hook.
  - `BhChat`: the `bh-rag` hook, in both its event-stream and newline-delimited branches
    (the latter corrected as described under "## Findings").
  - `Exchange`: what the `/askNew` frames become in the client.
- **Evals.** `Evals`: the two eval metrics.
- **Shared helpers.**
  - `Strings`: JavaScript string operations, over code points rather than UTF-16 code units, such as `trim`, `split` keeping empty pieces,
    `indexOf` and `includes`.
  - `Json`: JSON values, truthiness, and `JSON.stringify` of flat string objects with its read-back.
  - `Years`: the `\b(19|20)\d{2}\b` and `\b(19[7-9]\d|20[0-1]\d)\b` year tokens.

Each external service is a function parameter: embedding, vector query, rerank, generation,
`JSON.parse` and `createIndex`/`upsert`. Each source loop is a Dafny method with a loop; where a
loop is wrong (see "## Findings"), the method has the corrected loop.
Each method is proved equal to a specification function, and the properties are lemmas
about those functions.

## Model

| member | source | states |
|---|---|---|
| Chunking.IsTableLineIff | bh-rag/src/ingestion/chunk.ts:14-25 | `isTableLine` holds exactly when the line has two consecutive `\s` characters and a digit, or includes `-----`, `====` or `Total` |
| Chunking.SpaceRunFromIff | bh-rag/src/ingestion/chunk.ts:20 | the search for `/\s{2,}/` succeeds exactly when two adjacent `\s` characters occur |
| Chunking.DigitFromIff | bh-rag/src/ingestion/chunk.ts:20 | `/\d/.test` succeeds exactly when some character is an ASCII digit |
| Chunking.IncludesAnyIff | bh-rag/src/ingestion/chunk.ts:21-23 | the marker scan succeeds exactly when the line `includes` one of the markers |
| Chunking.Groups | bh-rag/src/ingestion/chunk.ts:41-57 | the lines grouped into runs of one kind: no group is empty, and there is a group exactly when there is a line |
| Chunking.GroupsPartition | bh-rag/src/ingestion/chunk.ts:28-59 | the groups read in order are exactly the split lines |
| Chunking.GroupsUniform | bh-rag/src/ingestion/chunk.ts:42-56 | every line of a group has the kind of its first line |
| Chunking.GroupsAlternate | bh-rag/src/ingestion/chunk.ts:44-56 | neighbouring groups have different kinds (a flush happens only on a mode switch) |
| Chunking.ChunksOf | bh-rag/src/ingestion/chunk.ts:34-39 | one chunk per group, in order, its lines joined with `"\n"` and typed with the group's kind |
| Chunking.FlushBuffer | bh-rag/src/ingestion/chunk.ts:34-39 | a non-empty buffer becomes one chunk of the current mode, an empty one adds nothing; the buffer is emptied |
| Chunking.SmartChunk | bh-rag/src/ingestion/chunk.ts:27-61 | the loop with buffer and mode returns the chunks of the maximal runs (`SmartChunks`) |
| Chunking.SmartChunksRejoin | bh-rag/src/ingestion/chunk.ts:28-59 | there is at least one chunk, and the contents joined with `"\n"` are the input text: no line is lost, duplicated or reordered |
| Chunking.SmartChunksKinds | bh-rag/src/ingestion/chunk.ts:42-56 | every line of a table chunk is a table line and no line of a text chunk is |
| Chunking.SmartChunksAlternate | bh-rag/src/ingestion/chunk.ts:44-56 | adjacent chunks have different types |
| Chunking.RecursiveTextChunk | bh-rag/src/ingestion/chunk.ts:66-84 | the `while` loop over `start` returns the word windows `TextWindows(text, size, overlap)` |
| Chunking.WordWindowsAt | bh-rag/src/ingestion/chunk.ts:75-80 | window `k` starts at word `k·(size−overlap)` (inside the words) and joins words `[b, min(n, b+size))` with spaces |
| Chunking.WordWindowsCount | bh-rag/src/ingestion/chunk.ts:75-81 | the number of windows is the least `k` with `k·(size−overlap) ≥ n`, i.e. ceil(n/(size−overlap)) |
| Chunking.WordWindowsCover | bh-rag/src/ingestion/chunk.ts:71-81 | every word `j` lies in window `j / (size−overlap)` |
| Chunking.FirstChunkIsText | bh-rag/src/ingestion/chunk.ts:76-77 | a text of at most `size` words has the text itself as its first chunk |
| Chunking.ShortTextOneChunk | bh-rag/src/ingestion/chunk.ts:76-77 | a text of at most `size−overlap` words is one chunk equal to the text |
| Chunking.TextWindowsNonEmpty | bh-rag/src/ingestion/chunk.ts:71-75 | any text, even empty, gives at least one chunk (`split` always has a piece) |
| MDocument.WindowsSlide | bh-rag/src/ingestion/MDocument.ts:31-40 | the windows start at `start`, the last ends at the text length, each holds 1 to `maxLength` characters and starts `overlap` before the previous end; there is one exactly when `start < n` |
| MDocument.WindowsCover | bh-rag/src/ingestion/MDocument.ts:31-39 | every character position lies inside some window |
| MDocument.RecursiveChunk | bh-rag/src/ingestion/MDocument.ts:23-43 | the corrected loop returns the trimmed non-empty windows `RecursiveChunks` |
| MDocument.RecursiveChunksTrimmed | bh-rag/src/ingestion/MDocument.ts:32-36 | every chunk is non-empty, at most `maxLength` long and equal to its own trim |
| MDocument.RecursiveChunksAreSlices | bh-rag/src/ingestion/MDocument.ts:35 | every chunk is a slice `text[lo..hi]` of the text |
| MDocument.RecursiveChunksCover | bh-rag/src/ingestion/MDocument.ts:31-40 | every non-`\s` character lies inside some chunk, taken as a slice around it |
| MDocument.ShortTextChunks | bh-rag/src/ingestion/MDocument.ts:31-36 | a text no longer than `maxLength` gives its trim as the one chunk, or nothing when that trim is empty (so empty text gives none) |
| MDocument.AsWrittenStaysAtTail | bh-rag/src/ingestion/MDocument.ts:31-40 | the loop as written, once at `n − overlap`, reads the same final window on every iteration |
| MDocument.AsWrittenRevisitsTail | bh-rag/src/ingestion/MDocument.ts:31-40 | for non-empty text and `0 < overlap`, the loop as written reads the corrected windows and then the tail window forever |
| MDocument.AsWrittenRepeatsShortText | bh-rag/src/ingestion/MDocument.ts:31-53 | with 1000/200, the text `"abc"` is pushed again on every iteration: `k` iterations give `k` copies |
| MDocument.ToChunks | bh-rag/src/ingestion/MDocument.ts:48-62 | one `"text"` chunk per `recursiveChunk(text, 1000, 200)` piece, in order, each 1 to 1000 characters |
| Ingest.AsText | app/src/ingestion/ingest.ts:42-44 | every sub-chunk becomes a `"text"` chunk with the same content, in order |
| Ingest.ExpandChunks | app/src/ingestion/ingest.ts:39-48 | the nested loop returns `Expand(raw, size, overlap)` |
| Ingest.ExpandAppend | app/src/ingestion/ingest.ts:39-48 | expansion works segment by segment: the output follows segment order |
| Ingest.ExpandAtLeastOnePerSegment | app/src/ingestion/ingest.ts:39-48 | every segment contributes at least one chunk |
| Ingest.ExpandOrigin | app/src/ingestion/ingest.ts:40-47 | every output chunk is either a table segment unchanged or a `"text"` word window of a text segment |
| Ingest.ExpandKeepsTables | app/src/ingestion/ingest.ts:45-47 | every table segment reaches the output unchanged |
| Ingest.AdvancedChunksNonEmpty | app/src/ingestion/ingest.ts:31-48 | with advanced chunking every document has at least one chunk |
| Ingest.BlankDocumentNoChunks | app/src/ingestion/ingest.ts:49-53 | the `MDocument` branch gives no chunks for a text that is all `\s` |
| Ingest.ChunkDocument | app/src/ingestion/ingest.ts:29-53 | the chunking step switched by `USE_ADVANCED_CHUNKING` returns `DocumentChunks` |
| Ingest.Embeddings | app/src/ingestion/ingest.ts:57-62 | there are embeddings exactly when every call succeeds; then there is one per text, in order, each the call's result |
| Ingest.EmbedAll | app/src/ingestion/ingest.ts:58-62 | the embedding loop returns `Embeddings` |
| Ingest.EmbeddingsFailure | app/src/ingestion/ingest.ts:59-69 | one failing call fails the whole file |
| Ingest.Contents | app/src/ingestion/ingest.ts:60 | the embedded strings are the chunk contents, one per chunk |
| Ingest.PdfFiles | app/src/ingestion/ingest.ts:73 | every entry kept ends in `.pdf` |
| Ingest.PdfFilesExactly | app/src/ingestion/ingest.ts:73 | an entry is processed exactly when it ends in `.pdf` |
| Ingest.BatchOf | app/src/ingestion/ingest.ts:25-70 | a file's batch carries its name and one embedding per chunk |
| Ingest.ProcessPdf | app/src/ingestion/ingest.ts:25-70 | `processPDF` for one file returns `BatchOf` |
| Ingest.ParseAllPdfs | app/src/ingestion/ingest.ts:72-78 | the `.pdf` entries are processed one after the other, in listing order |
| Ingest.BatchesAppend | app/src/ingestion/ingest.ts:67-77 | the batches of two runs of files are those of the first run followed by those of the second |
| Ingest.FailedFileSkipped | app/src/ingestion/ingest.ts:67-77 | a failing file contributes nothing and does not affect the files after it |
| PgIngestion.WithYear | app/src/ingestion/ingestion-pgvector.ts:26-36 | every chunk keeps its content and type and carries the year of its file, one output per input, in order |
| PgIngestion.ExpandWithYear | app/src/ingestion/ingestion-pgvector.ts:29-38 | the loop returns the 1000/200 expansion of the segments, each chunk tagged with the file's year |
| PgIngestion.Texts | app/src/ingestion/ingestion-pgvector.ts:44-45 | the embedded strings are the chunk contents, one per chunk |
| PgIngestion.ProcessPdf | app/src/ingestion/ingestion-pgvector.ts:14-60 | `processPDF` changes the writer's state as `ProcessSpec`: extraction, chunking, year tagging, embedding and the upsert, with failures caught |
| PgIngestion.ParseAllPdfs | app/src/ingestion/ingestion-pgvector.ts:62-67 | the `.pdf` entries are processed one after the other, in listing order |
| PgIngestion.StoredChunksNonEmpty | app/src/ingestion/ingestion-pgvector.ts:23-38 | every document gives at least one chunk, so `embeddings[0]` exists whenever embedding succeeds |
| PgIngestion.ProcessAddsOneUpsert | app/src/ingestion/ingestion-pgvector.ts:14-60 | one file adds either nothing or exactly the upsert of its chunks and their embeddings |
| PgIngestion.ProcessSucceedsIff | app/src/ingestion/ingestion-pgvector.ts:14-60 | a file adds an upsert exactly when extraction, every embedding, index creation (when still needed) and the upsert succeed |
| PgIngestion.ProcessWellFormed | app/src/ingestion/ingestion-pgvector.ts:26-54 | every upsert has one vector, one metadata record and one id per chunk, all naming the file and its year |
| PgIngestion.RunWellFormed | app/src/ingestion/ingestion-pgvector.ts:62-67 | a whole run keeps every upsert well formed |
| PgIngestion.RunIndexCreatedOnce | app/src/ingestion/upsert-pgvector.ts:11-22 | once the index exists, no later file calls `createIndex` and the flag stays set |
| PgIngestion.RunExtendsUpserts | app/src/ingestion/ingestion-pgvector.ts:62-67 | a run only adds upserts, at most one per file, keeping the earlier ones as a prefix |
| PgIngestion.RunAppend | app/src/ingestion/ingestion-pgvector.ts:62-67 | the files are processed in sequence: a run over `a + b` is the run over `a` followed by the run over `b` |
| PgIngestion.UnreadableFileSkipped | app/src/ingestion/ingestion-pgvector.ts:57-59 | a file whose text cannot be extracted changes nothing, before or after it |
| UpsertPgvector.Ids | app/src/ingestion/upsert-pgvector.ts:46 | one id `${fileName}_${i}` per chunk index |
| UpsertPgvector.IdInjective | app/src/ingestion/upsert-pgvector.ts:46 | an id determines its file name and chunk index |
| UpsertPgvector.IdsDistinct | app/src/ingestion/upsert-pgvector.ts:46 | within one call the ids are pairwise distinct |
| UpsertPgvector.SameFileSameIds | app/src/ingestion/upsert-pgvector.ts:46 | two calls for the same file with the same number of chunks send the same ids |
| UpsertPgvector.MetadataOf | app/src/ingestion/upsert-pgvector.ts:39-45 | metadata `i` holds chunk `i`'s content as `text`, the file name, its type, its year and `chunkIndex = i` |
| UpsertPgvector.EnsureIndexSpec | app/src/ingestion/upsert-pgvector.ts:13-22 | `ensureIndex` never touches the upserts |
| UpsertPgvector.EnsureIndexOnce | app/src/ingestion/upsert-pgvector.ts:13-22 | with the flag set, `ensureIndex` calls nothing and changes nothing |
| UpsertPgvector.EnsureIndexRetries | app/src/ingestion/upsert-pgvector.ts:14-20 | a throwing `createIndex` leaves the flag false, so the next call tries again |
| UpsertPgvector.UpsertRecorded | app/src/ingestion/upsert-pgvector.ts:25-47 | an upsert is recorded exactly when `upsertChunks` returns, and it is the request built from the chunks |
| UpsertPgvector.UpsertIndexDimension | app/src/ingestion/upsert-pgvector.ts:34 | the index is created with the length of the first embedding |
| UpsertPgvector.VectorStore.constructor | app/src/ingestion/upsert-pgvector.ts:9-11 | a fresh process: the flag is false and nothing has been sent |
| UpsertPgvector.VectorStore.EnsureIndex | app/src/ingestion/upsert-pgvector.ts:13-22 | updates the flag and the calls as `EnsureIndexSpec`; the result is the new flag |
| UpsertPgvector.VectorStore.UpsertChunks | app/src/ingestion/upsert-pgvector.ts:25-47 | updates the writer as `UpsertSpec` |
| Years.MatchAtRange | app/src/ingestion/ingestion-pgvector.ts:70 | `\b(19\|20)\d{2}\b` accepts exactly the standalone tokens 1900–2099, and `\b(19[7-9]\d\|20[0-1]\d)\b` exactly 1970–2019 |
| Years.NoMatchInside | app/src/mastra/evals/TemporalRelevance.ts:9-10 | two matches never overlap: no match starts inside another |
| Years.FirstMatch | app/src/ingestion/ingestion-pgvector.ts:70 | the leftmost match at or after `from`, or none when no position matches |
| Years.MatchAll | app/src/mastra/evals/TemporalRelevance.ts:9-10 | every position a global match visits is a match |
| Years.MatchAllComplete | app/src/mastra/evals/TemporalRelevance.ts:9-10 | the global match finds every match |
| Years.YearStrings | app/src/mastra/evals/TemporalRelevance.ts:9-10 | the matched strings of a global match, each four characters |
| Years.YearStringsSound | app/src/mastra/evals/TemporalRelevance.ts:9-10 | every matched string is the text of a match |
| Years.YearStringsComplete | app/src/mastra/evals/TemporalRelevance.ts:9-10 | the text of every match is among the matched strings |
| Years.FirstYearString | app/frontend/src/hooks/useChatStreaming.ts:457-460 | the first year token as written: present exactly when some position matches, and four characters long |
| Years.ExtractYear | app/src/ingestion/ingestion-pgvector.ts:69-72 | `extractYear` gives a value in 1900–2099, and gives one exactly when a standalone `19xx`/`20xx` token exists |
| Years.ExtractYearLeftmost | app/src/ingestion/ingestion-pgvector.ts:69-72 | the value is that of the leftmost token |
| Years.ExtractYearLeadingName | app/src/ingestion/ingestion-pgvector.ts:69-72 | `"1992 Annual Letter.pdf"` gives 1992 |
| Years.ExtractYearUnderscore | app/src/ingestion/ingestion-pgvector.ts:70 | `"letter_1992.pdf"` gives no year, because `_` is a word character |
| Years.ExtractYearSkipsOtherCenturies | app/src/ingestion/ingestion-pgvector.ts:70 | `"Letters 1850 and 2003"` gives 2003 |
| Evals.TemporalRelevanceScore | app/src/mastra/evals/TemporalRelevance.ts:8-21 | the score is 1 exactly when some 1970–2019 year token of the input is also a year token of the output, and 0.3 otherwise; the message agrees with the score |
| Evals.NoYearInQuestion | app/src/mastra/evals/TemporalRelevance.ts:9-15 | an input without a year scores 0.3 with the "does not reference" message |
| Evals.CitationPresenceScore | app/src/mastra/evals/CitationPresent.ts:8-19 | the score is 1 exactly when the output has a 1970–2019 year token or includes `"Source"`, and 0 otherwise; the message agrees; the input does not matter |
| RagAnswer.HitTexts | bh-rag/src/rag/agent/rag_agent_vector_final.ts:279 | one text per reranked hit, in order: its metadata text, or "" when that is missing |
| RagAnswer.ContextInRerankOrder | bh-rag/src/rag/agent/rag_agent_vector_final.ts:279 | in the context, hit `i`'s text sits at its join offset, followed by "\n---\n" and then hit `i+1`'s text |
| RagAnswer.FileNameOf | bh-rag/src/rag/agent/rag_agent_vector_final.ts:281 | the cited file name is always truthy: the metadata `fileName` when that is truthy, otherwise "unknown" |
| RagAnswer.Citations | bh-rag/src/rag/agent/rag_agent_vector_final.ts:280-283 | one citation per reranked hit, in rerank order, holding its file name and its `chunkIndex` (`null` kept in the refining tools, turned into `undefined` by `?? undefined` in the plain tool) |
| RagAnswer.UnknownIffFalsy | bh-rag/src/rag/agent/rag_agent_vector_final.ts:281 | a citation says "unknown" exactly when the hit's file name is falsy (for hits not literally named "unknown") |
| RagAnswer.SynthesisPromptVerbatim | bh-rag/src/rag/agent/rag_agent_vector_final.ts:287 | the synthesis prompt holds the whole context right after its intro and ends with "Question: " and the query |
| RagAnswer.RefinePromptVerbatim | bh-rag/src/rag/agent/rag_agent_vector_final.ts:302-313 | the refinement prompt ends with "Text:\n" followed by the first answer, verbatim |
| RagAnswer.DropOpenFence | bh-rag/src/rag/agent/rag_agent_vector_final.ts:239 | the text is unchanged, or it started with a fence and loses the fence (and a following `json` tag) |
| RagAnswer.DropCloseFence | bh-rag/src/rag/agent/rag_agent_vector_final.ts:240 | the text is unchanged, or it ended with a fence and loses exactly that fence |
| RagAnswer.DropOpenFenceTagged | bh-rag/src/rag/agent/rag_agent_vector_final.ts:239 | a fence followed by a `json` tag in any letter case is removed with the tag |
| RagAnswer.DropOpenFenceBare | bh-rag/src/rag/agent/rag_agent_vector_final.ts:239 | a fence without the tag is removed alone |
| RagAnswer.DropCloseFenceOf | bh-rag/src/rag/agent/rag_agent_vector_final.ts:240 | a closing fence at the end is removed |
| RagAnswer.CleanedJsonFence | bh-rag/src/rag/agent/rag_agent_vector_final.ts:235-242 | a fenced block tagged `json` is unwrapped to its trimmed body before `JSON.parse` |
| RagAnswer.CleanedBareFence | bh-rag/src/rag/agent/rag_agent_vector_final.ts:235-242 | an untagged fenced block is unwrapped to its trimmed body |
| RagAnswer.CleanedUnfenced | bh-rag/src/rag/agent/rag_agent_vector_final.ts:235-242 | text without fences is only trimmed |
| RagAnswer.Section | bh-rag/src/rag/agent/rag_agent_vector_final.ts:331-335 | an evidence or sources section throws (`None`) exactly when the value has a truthy `length` but is not an array, and is the "empty" text when its length is falsy |
| RagAnswer.ComposeRawIff | bh-rag/src/rag/agent/rag_agent_vector_final.ts:327-339 | the first answer is kept unchanged exactly when the refinement gave no truthy `direct_answer` |
| RagAnswer.ComposeStartsWithDirectAnswer | bh-rag/src/rag/agent/rag_agent_vector_final.ts:329-330 | a structured answer starts with "Direct Answer: " and the direct answer |
| RagAnswer.ComposeEmptySections | bh-rag/src/rag/agent/rag_agent_vector_final.ts:329-336 | with empty evidence, analysis and sources the answer is the direct answer, "Supporting Evidence: (none)", "Contextual Analysis:\n(none)" and an empty last part |
| RagAnswer.ComposeFailsIff | bh-rag/src/rag/agent/rag_agent_vector_final.ts:328-336 | composing throws exactly when there is a direct answer and evidence or sources has a truthy length without being an array |
| RagAnswer.MarkerNoOverlap | bh-rag/src/rag/agent/rag_agent_vector_final.ts:342-343 | two "Direct Answer:" occurrences never overlap |
| RagAnswer.FirstTwoMarkers | bh-rag/src/rag/agent/rag_agent_vector_final.ts:342-343 | `indexOf` from 0 and from `start + 14` find the first and the second occurrence |
| RagAnswer.BlockHasOneMarker | bh-rag/src/rag/agent/rag_agent_vector_final.ts:345 | the slice between the first two occurrences starts with the marker and holds it once |
| RagAnswer.TrimStartsWithMarker | bh-rag/src/rag/agent/rag_agent_vector_final.ts:345 | trimming a text that starts with the marker keeps it at the front |
| RagAnswer.TrimKeepsAtMostOne | bh-rag/src/rag/agent/rag_agent_vector_final.ts:345 | trimming never creates a second marker |
| RagAnswer.FinalTextFirstBlock | bh-rag/src/rag/agent/rag_agent_vector_final.ts:342-345 | with two markers the final text is the trimmed first block: it starts with the marker and holds it once |
| RagAnswer.FinalTextSingleBlock | bh-rag/src/rag/agent/rag_agent_vector_final.ts:345 | with at most one marker the final text is the whole composed text, trimmed |
| RagAnswer.FinalTextIdempotent | bh-rag/src/rag/agent/rag_agent_vector_final.ts:342-345 | applying the safeguard trim to its own result changes nothing |
| RagAnswer.FinalTextOfMarked | bh-rag/src/rag/agent/rag_agent_vector_final.ts:342-345 | a composed text starting with the marker gives a final text that starts with it and holds it once |
| RagAnswer.StructuredMarked | bh-rag/src/rag/agent/rag_agent_vector_final.ts:329-330 | a structured answer starts with the marker |
| RagAnswer.AnswerLeadsWithDirectAnswer | bh-rag/src/rag/agent/rag_agent_vector_final.ts:324-345 | with a refined direct answer the final text starts with "Direct Answer:" and holds it exactly once |
| RagAnswer.AnswerFallsBackToFirst | bh-rag/src/rag/agent/rag_agent_vector_final.ts:298-345 | without a refined direct answer the final text is the first answer after the safeguard trim (only trimmed when it holds at most one marker), and the tool cannot fail |
| RagAnswer.AnswerFailsIff | bh-rag/src/rag/agent/rag_agent_vector_final.ts:324-336 | the answer fails exactly when composing throws |
| BhRagTool.Execute | bh-rag/src/rag/agent/rag_agent_vector_final.ts:257-348 | the tool can fail only after a non-empty search |
| BhRagTool.NoResultsShortCircuit | bh-rag/src/rag/agent/rag_agent_vector_final.ts:274 | an empty search answers "No relevant content found." with no citations, whatever the reranker and the model would do |
| BhRagTool.CitesRerankedHits | bh-rag/src/rag/agent/rag_agent_vector_final.ts:277-347 | a successful answer cites each reranked hit once, in rerank order, with a truthy file name and its chunk index as read |
| BhRagTool.LeadsWithDirectAnswer | bh-rag/src/rag/agent/rag_agent_vector_final.ts:324-347 | with a refined direct answer the tool's text starts with "Direct Answer:" and holds it once |
| AppRagTool.Anchors | app/src/mastra/agents/rag_agent_vector_final.ts:120-124 | one link per citation, in order |
| AppRagTool.AnchorNamesFile | app/src/mastra/agents/rag_agent_vector_final.ts:122-123 | a link points at `http://localhost:4112/letters/<fileName>` and shows the file name |
| AppRagTool.ListsCitationsInOrder | app/src/mastra/agents/rag_agent_vector_final.ts:120-125 | the list holds every citation's link at its join offset, followed by "<br>" and the next link |
| AppRagTool.WrappedLayout | app/src/mastra/agents/rag_agent_vector_final.ts:190-195 | the returned text is a line break, the final answer, the "Sources:" banner, the link list and a line break |
| AppRagTool.Execute | app/src/mastra/agents/rag_agent_vector_final.ts:92-198 | the tool can fail only after a non-empty search |
| AppRagTool.NoResultsShortCircuit | app/src/mastra/agents/rag_agent_vector_final.ts:109 | an empty search answers "No relevant content found." with no citations, without links |
| AppRagTool.TextListsItsCitations | app/src/mastra/agents/rag_agent_vector_final.ts:112-197 | a successful answer cites each reranked hit in rerank order and its text ends with exactly those citations' links |
| AppRagTool.LeadsWithDirectAnswer | app/src/mastra/agents/rag_agent_vector_final.ts:166-191 | with a refined direct answer the text after the opening line break starts with "Direct Answer:" and holds it once |
| VectorRagTool.AnswerPromptVerbatim | app/src/rag/agent/rag_agent_vector.ts:99 | the answer prompt holds the whole context after its intro and ends with "Question: " and the query |
| VectorRagTool.Execute | app/src/rag/agent/rag_agent_vector.ts:63-114 | the tool never fails and cites at most the reranked hits |
| VectorRagTool.NoResultsShortCircuit | app/src/rag/agent/rag_agent_vector.ts:79-81 | an empty search answers "No relevant content found." with no citations, whatever the reranker and the model would do |
| VectorRagTool.MissingAnswerOnly | app/src/rag/agent/rag_agent_vector.ts:101-107 | "No answer found." replaces only a missing answer; any answer text, the empty one included, is returned unchanged |
| VectorRagTool.CitationsWithoutNull | app/src/rag/agent/rag_agent_vector.ts:91-97 | one citation per reranked hit, in order, with its file name, and never a `null` chunk index |
| Http.FirstToolIndex | app/src/mastra/agents/server.ts:55-62 | the index of the first tool result with a non-blank string text; none before it has one |
| Http.SelectedAnswerCases | app/src/mastra/agents/server.ts:49-64 | the answer is the streamed text when that is not empty, otherwise the first non-blank tool text, unchanged; it is empty exactly when every chunk is empty and no tool result has a non-blank text |
| Http.FlattenSkipsEmpty | app/src/mastra/agents/server.ts:50-52 | an empty (falsy) chunk adds nothing to the answer |
| Http.SelectAnswer | app/src/mastra/agents/server.ts:49-64 | the two `for await` loops compute the selected answer |
| Http.OrNoAnswer | app/src/mastra/agents/server.ts:69 | `answer \|\| "No answer found."` is never empty and keeps a non-empty answer |
| Http.QueryOrPrompt | app/src/mastra/agents/server.ts:37-38 | a query exists exactly when `query` or `prompt` is truthy; it is truthy, and it is `query` whenever that is truthy |
| Http.Response.constructor | app/src/mastra/agents/server.ts:36 | a fresh response has status 200, no JSON body, nothing written and is not ended |
| Http.Response.StatusJson | app/src/mastra/agents/server.ts:38 | `res.status(code).json(body)` sets the status when one is given, sends the body and ends the response |
| Http.Response.Write | app/src/mastra/agents/server.ts:81 | `res.write` appends one chunk and changes nothing else |
| Http.Response.End | app/src/mastra/agents/server.ts:83 | `res.end` marks the response ended and changes nothing else |
| Http.Response.WriteFrames | app/src/mastra/agents/server.ts:81-83 | the payload frame, the `[DONE]` frame, then `res.end()` |
| Http.SendFramesShape | app/src/mastra/agents/server.ts:81-83 | exactly two frames are appended, the payload (which reads back as the fields sent) and `[DONE]`; the stream ends; status and body are untouched |
| MastraServer.AskNew | app/src/mastra/agents/server.ts:36-99 | the handler's effect on the response is that of its specification |
| MastraServer.MissingQueryIff | app/src/mastra/agents/server.ts:37-38 | without a truthy `query` or `prompt` the answer is a 400 with the error body; nothing is streamed exactly in that case |
| MastraServer.DeltaThenDone | app/src/mastra/agents/server.ts:49-83 | a run that streams sends one `delta` frame, reading back as the selected answer or "No answer found." and never empty, then `[DONE]`, and ends |
| MastraServer.ErrorThenDone | app/src/mastra/agents/server.ts:84-97 | a run that throws sends one frame reading back as `{error: message}` (`{}` when the error has no message), then `[DONE]` |
| AppServer.Ask | app/src/server.ts:30-74 | the handler's effect on the response is that of its specification |
| AppServer.AskOutcomes | app/src/server.ts:30-74 | `/ask` never streams: 400 exactly when `query` and `prompt` are both falsy; 500 with "Agent failed" and the details when the agent throws; otherwise `success: true` with a non-empty answer, the selected one when there is one |
| AppServer.DummyAskNew | app/src/server.ts:199-246 | the dummy handler's effect on the response is that of its specification |
| AppServer.DummyIgnoresQuery | app/src/server.ts:199-233 | every present query gets the same stream: the fixed `delta` frame, then `[DONE]` |
| AppServer.DummyPayloadReadsBack | app/src/server.ts:207-231 | the dummy frame reads back as one `delta` field holding the fixed answer |
| AppServer.DummyErrorThenDone | app/src/server.ts:234-245 | on an error the dummy handler writes one error frame, then `[DONE]`, and ends |
| BhServer.Ask | bh-rag/src/server.ts:27-71 | the handler's effect on the response is that of its specification |
| BhServer.OnlyQueryRead | bh-rag/src/server.ts:29-30 | only `query` is read: bodies with the same `query` get the same response, and a falsy `query` is a 400 even when `prompt` is given |
| BhServer.AskOutcomes | bh-rag/src/server.ts:35-69 | a run that streams answers `success: true` with a non-empty answer, the selected one when there is one; a run that throws answers 500 with "Agent failed" |
| Strings.IndexOf | bh-rag/src/rag/agent/rag_agent_vector_final.ts:342-343 | `indexOf(pat, from)`: -1, or a position at or after `from` where the pattern occurs |
| Strings.IndexOfFirst | bh-rag/src/rag/agent/rag_agent_vector_final.ts:342-343 | `indexOf` finds the first occurrence at or after `from`, and -1 exactly when there is none |
| Strings.TrimSpec | app/frontend/src/hooks/useChatStreaming.ts:415 | `trim` removes exactly the leading and trailing white space: the result is a slice with no white space at its ends |
| Strings.TrimEmptyIffAllSpace | app/frontend/src/hooks/useChatStreaming.ts:501 | a text trims to "" exactly when it is all white space |
| Strings.TrimIdempotent | app/frontend/src/hooks/useChatStreaming.ts:415 | trimming twice is trimming once |
| Strings.Split | app/frontend/src/hooks/useChatStreaming.ts:409 | `split` always gives at least one piece |
| Strings.JoinSplit | app/frontend/src/hooks/useChatStreaming.ts:409 | joining the pieces of a split with the separator gives the text back |
| Strings.SplitPiecesFree | app/frontend/src/hooks/useChatStreaming.ts:409 | no piece of a split contains the separator |
| Strings.SplitJoin | app/frontend/src/hooks/useChatStreaming.ts:409 | splitting a one-character join of separator-free pieces gives the pieces back |
| Strings.SplitAppend | app/frontend/src/hooks/useChatStreaming.ts:408-410 | splitting `x + y` gives the complete pieces of `x` followed by the split of its last piece + `y`: a stream can be split incrementally, carrying the last piece forward |
| Strings.JoinLayout | bh-rag/src/rag/agent/rag_agent_vector_final.ts:279 | each part of a join sits at its join offset, followed by the separator unless it is the last |
| Strings.NatToStringInjective | app/src/ingestion/upsert-pgvector.ts:46 | the decimal text of a number determines the number |
| Strings.DigitsValueOfNatToString | app/src/ingestion/upsert-pgvector.ts:46 | reading the decimal text of a number gives the number back |
| Json.LastValue | app/frontend/src/hooks/useChatStreaming.ts:424 | a member lookup on a parsed object finds the last member with that key (`JSON.parse` keeps the last duplicate), or none when the key is absent |
| Json.StringifyFlatShape | app/src/mastra/agents/server.ts:81 | `JSON.stringify` of a flat string object is a printable text between braces |
| Json.ParseStringifyFlat | app/src/mastra/agents/server.ts:81 | `JSON.parse(JSON.stringify(o))` gives back the same flat object of strings |
| Framing.PiecesAppend | app/frontend/src/hooks/useChatStreaming.ts:412-498 | handling two runs of frames is handling the first and then, unless it stopped, the second |
| Framing.StreamIsWhole | app/frontend/src/hooks/useChatStreaming.ts:404-411 | handling the reads one by one, carrying the last piece in `buf`, is handling the whole received text split at once |
| Framing.PiecesPreserve | app/frontend/src/hooks/useChatStreaming.ts:412-498 | a property every frame step keeps holds after any run of frames |
| Framing.StreamPreserve | app/frontend/src/hooks/useChatStreaming.ts:404-499 | a property every frame step keeps holds after the whole read loop |
| Framing.PiecesStopAt | app/frontend/src/hooks/useChatStreaming.ts:417-421 | a frame that stops the loop ends it: the frames after it are never handled |
| Framing.PiecesPreserveUnlessStopped | app/frontend/src/hooks/useChatStreaming.ts:412-498 | a property every non-stopping step keeps holds after a run of frames that did not stop |
| Framing.StreamPreserveUnlessStopped | app/frontend/src/hooks/useChatStreaming.ts:404-499 | ... and after a read loop that drained |
| Framing.PiecesStopWith | app/frontend/src/hooks/useChatStreaming.ts:417-421 | what every stopping step establishes holds after a run that stopped |
| Framing.StreamStopWith | app/frontend/src/hooks/useChatStreaming.ts:404-421 | ... and after a read loop that stopped |
| Framing.PiecesStep | app/frontend/src/hooks/useChatStreaming.ts:412-421 | one frame: handled, then the rest unless it stopped |
| Framing.StreamStep | app/frontend/src/hooks/useChatStreaming.ts:405-412 | one read: its complete pieces handled, then the remaining reads with the last piece as the buffer |
| AppChat.Merge | app/frontend/src/hooks/useChatStreaming.ts:326 | `{ ...m, ...patch }` keeps the message's id and role |
| AppChat.MergeReplace | app/frontend/src/hooks/useChatStreaming.ts:326 | a patch holding every field of a message with the same id and role yields that message |
| AppChat.UpdateMessageOnly | app/frontend/src/hooks/useChatStreaming.ts:315-332 | only message `msgId` of conversation `convId` changes, by merging its patch; every conversation keeps its id, title, place and length, and every message its id and place |
| AppChat.UpdateMessageCompose | app/frontend/src/hooks/useChatStreaming.ts:315-332 | two successive updates of a message are one update by their composition |
| AppChat.FirstDataLine | app/frontend/src/hooks/useChatStreaming.ts:413 | `find` gives the first line starting with "data:"; none before it does |
| AppChat.ExtendsTrans | app/frontend/src/hooks/useChatStreaming.ts:426-497 | "only appends to the message" is transitive |
| AppChat.AppendText | app/frontend/src/hooks/useChatStreaming.ts:427-496 | appending to the text only extends the message |
| AppChat.AppendStringField | app/frontend/src/hooks/useChatStreaming.ts:426-431 | a string `delta` or `directAnswer` only extends the message |
| AppChat.AddEvidence | app/frontend/src/hooks/useChatStreaming.ts:432-439 | supporting evidence only extends the message |
| AppChat.AddAnalysis | app/frontend/src/hooks/useChatStreaming.ts:440-447 | contextual analysis only extends the message |
| AppChat.EnhanceDocs | app/frontend/src/hooks/useChatStreaming.ts:456-486 | the map succeeds with one enhanced document per document, in order, and throws exactly when some document throws |
| AppChat.AddCitations | app/frontend/src/hooks/useChatStreaming.ts:448-493 | citations only extend the message |
| AppChat.ApplyParsed | app/frontend/src/hooks/useChatStreaming.ts:423-497 | whatever the payload, including `null` and a document that throws, the message only grows |
| AppChat.ReadFrames | app/frontend/src/hooks/useChatStreaming.ts:404-499 | the read loop computes the framing fold over the reads with `buf` starting empty |
| AppChat.Leftover | app/frontend/src/hooks/useChatStreaming.ts:501-510 | the leftover buffer keeps the message's id, role and partial flag, and a blank buffer changes nothing |
| AppChat.Receive | app/frontend/src/hooks/useChatStreaming.ts:393-517 | after a reply the agent message keeps its id and role and is never partial |
| AppChat.HandleFrameExtends | app/frontend/src/hooks/useChatStreaming.ts:412-498 | every frame only appends to the agent message |
| AppChat.StreamKeepsIdentity | app/frontend/src/hooks/useChatStreaming.ts:404-499 | however the stream is cut into reads, the message keeps its id and role, and its text and lists start with what they held |
| AppChat.PiecesStopFinal | app/frontend/src/hooks/useChatStreaming.ts:417-421 | only `[DONE]` stops a run of frames, and it leaves the message final |
| AppChat.StreamStopFinal | app/frontend/src/hooks/useChatStreaming.ts:404-421 | a read loop that stopped leaves the message final |
| AppChat.StoppedIsFinal | app/frontend/src/hooks/useChatStreaming.ts:417-421 | a stream that stopped leaves the message final |
| AppChat.DoneEndsStream | app/frontend/src/hooks/useChatStreaming.ts:417-421 | a `[DONE]` frame clears `isPartial` and no frame after it is handled |
| AppChat.ChunkingIrrelevant | app/frontend/src/hooks/useChatStreaming.ts:404-512 | the final message depends only on the text received, not on how it was cut into reads |
| AppChat.LastValueAppend | app/frontend/src/hooks/useChatStreaming.ts:484 | in `{ ...doc, link }` the appended `link` wins a lookup of `link`, other keys are untouched |
| AppChat.EnhanceDocShape | app/frontend/src/hooks/useChatStreaming.ts:456-486 | an enhanced document's `link` names the document's year or, failing that, the prompt's; a string becomes the `title`; an object keeps every other member |
| AppChat.EnhanceDocThrows | app/frontend/src/hooks/useChatStreaming.ts:464-470 | a document throws exactly when it is `null` or has a truthy `title` that is not a string |
| AppChat.PayloadAccumulates | app/frontend/src/hooks/useChatStreaming.ts:426-493 | a parsed object whose documents do not throw appends its string `delta` and then its string `directAnswer` to the text, and each list field after the list it feeds; `isPartial` is untouched |
| AppChat.StringFieldStep | app/frontend/src/hooks/useChatStreaming.ts:426-431 | a field appends its string value to the text, or nothing when it is not a string |
| AppChat.ListFieldStep | app/frontend/src/hooks/useChatStreaming.ts:432-447 | evidence and analysis are appended as lists |
| AppChat.CitationsStep | app/frontend/src/hooks/useChatStreaming.ts:448-493 | the enhanced documents are appended after the existing citations |
| AppChat.RestoreActive | app/frontend/src/hooks/useChatStreaming.ts:274-292 | after loading a non-empty list the active id names one of its conversations; it is the saved one exactly when some conversation has that id |
| AppChat.Title | app/frontend/src/hooks/useChatStreaming.ts:356 | the title is the prompt's first 50 characters |
| AppChat.FindConversation | app/frontend/src/hooks/useChatStreaming.ts:374 | `find` gives a conversation with the id, and none exactly when no conversation has it |
| AppChat.FindConversationFirst | app/frontend/src/hooks/useChatStreaming.ts:374 | the conversation `find` gives is the first with the id: every earlier one has another id |
| AppChat.LastN | app/frontend/src/hooks/useChatStreaming.ts:377 | `slice(-n)`: the last `n` elements, all of them when there are fewer |
| AppChat.Recent | app/frontend/src/hooks/useChatStreaming.ts:376-378 | the role and text of the last (at most) six messages, in order |
| AppChat.Memory | app/frontend/src/hooks/useChatStreaming.ts:374-378 | the memory never holds more than six messages |
| AppChat.SendWhileStreaming | app/frontend/src/hooks/useChatStreaming.ts:336 | a send while a stream is running changes nothing and posts nothing |
| AppChat.SendAppendsExchange | app/frontend/src/hooks/useChatStreaming.ts:334-517 | a send ends with no stream running; the receiving conversation (the active one or a new chat) gets the user message and the agent's final message, in that order, and its title from the prompt while it is "New Chat"; every other conversation is unchanged |
| AppChat.SendMemory | app/frontend/src/hooks/useChatStreaming.ts:374-389 | the request posts the prompt and the role and text of the last six messages of the active conversation as it stood before the send |
| AppChat.SendRequest | app/frontend/src/hooks/useChatStreaming.ts:374-389 | with an active conversation the request carries its memory |
| AppChat.ChatHook.constructor | app/frontend/src/hooks/useChatStreaming.ts:261-263 | no conversations, no active id, not streaming |
| AppChat.ChatHook.Restore | app/frontend/src/hooks/useChatStreaming.ts:274-292 | the load effect is that of its specification |
| AppChat.ChatHook.StartNewChat | app/frontend/src/hooks/useChatStreaming.ts:307-313 | an empty "New Chat" conversation is added last and made active; its id is returned |
| AppChat.ChatHook.Update | app/frontend/src/hooks/useChatStreaming.ts:315-332 | `updateMessage` replaces the conversations by their update and changes nothing else |
| AppChat.ChatHook.SendMessage | app/frontend/src/hooks/useChatStreaming.ts:334-520 | `sendMessage` ends in the state, and posts the request, of its specification |
| AppChat.ReceiveMessage | app/frontend/src/hooks/useChatStreaming.ts:393-514 | the method computes the agent message the reply makes |
| Exchange.SplitLine | app/src/mastra/agents/server.ts:81 | a printable frame line followed by the separator is the first piece of what follows |
| Exchange.LineData | app/frontend/src/hooks/useChatStreaming.ts:413-415 | the payload of a one-line `data: ` frame is the rest of the line |
| Exchange.FramesOf | app/src/mastra/agents/server.ts:81-82 | the two frames the server writes split into the payload line, the `[DONE]` line and an empty rest |
| Exchange.DeltaFrameHandled | app/frontend/src/hooks/useChatStreaming.ts:424-428 | the server's `delta` frame appends the delta to the client's text |
| Exchange.DoneFrameHandled | app/frontend/src/hooks/useChatStreaming.ts:417-421 | the server's `[DONE]` frame stops the client's stream and clears `isPartial` |
| Exchange.DeltaFramesWhole | app/frontend/src/hooks/useChatStreaming.ts:404-421 | read in one piece, the two frames append the delta and leave the message final |
| Exchange.DeltaFramesReceived | app/frontend/src/hooks/useChatStreaming.ts:404-421 | read in any cut, the two frames append the delta and leave the message final |
| Exchange.AnswerReachesClient | app/src/mastra/agents/server.ts:36-83 | a question the agent answers by streaming reaches the client as the selected answer (or "No answer found."), appended to the placeholder, which is then final, whatever cut of the frames the client reads |
| BhChat.Merge | bh-rag/frontend/src/hooks/useChatStreaming.ts:37-39 | `{ ...m, ...patch }` keeps the id, role and lists |
| BhChat.UpdateLastOnly | bh-rag/frontend/src/hooks/useChatStreaming.ts:29-41 | only the message with the matching id changes, by merging its patch; the others and the order stay |
| BhChat.AppendText | bh-rag/frontend/src/hooks/useChatStreaming.ts:120 | `(prev.text \|\| "") + t` appends to the text and changes nothing else |
| BhChat.AppendEmpty | bh-rag/frontend/src/hooks/useChatStreaming.ts:120 | appending "" changes nothing |
| BhChat.AppendTextTwice | bh-rag/frontend/src/hooks/useChatStreaming.ts:120 | two appends are one append of the concatenation |
| BhChat.EveryDataLine | bh-rag/frontend/src/hooks/useChatStreaming.ts:105-122 | every "data:" line of an event is used, not only the first: when none is `[DONE]` and none parses, all payloads are appended in order |
| BhChat.DoneLineStops | bh-rag/frontend/src/hooks/useChatStreaming.ts:109-113 | a `[DONE]` line stops the event and the stream; no line after it is read |
| BhChat.ParsedPayloadsIgnored | bh-rag/frontend/src/hooks/useChatStreaming.ts:115-117 | when every payload parses, the text never changes: `handleChunk` does nothing with them |
| BhChat.DrainedKeepsPartial | bh-rag/frontend/src/hooks/useChatStreaming.ts:96-125 | an event stream that drains without `[DONE]` leaves `isPartial` as it was |
| BhChat.EventsKeepIdentity | bh-rag/frontend/src/hooks/useChatStreaming.ts:96-125 | the events keep the message's id, role and lists |
| BhChat.HandleEventLines | bh-rag/frontend/src/hooks/useChatStreaming.ts:105-123 | the line loop computes the event's effect |
| BhChat.ReadEvents | bh-rag/frontend/src/hooks/useChatStreaming.ts:92-125 | the event-stream read loop computes the framing fold over the reads |
| BhChat.Lines | bh-rag/frontend/src/hooks/useChatStreaming.ts:143-153 | complete lines change only the text |
| BhChat.LinesAppendShown | bh-rag/frontend/src/hooks/useChatStreaming.ts:143-153 | the complete lines append exactly the trimmed lines that are not blank and do not parse, in order |
| BhChat.Step | bh-rag/frontend/src/hooks/useChatStreaming.ts:133-158 | one read as intended: a direct read (not JSON, no newline) is shown once and not buffered; it changes only the text |
| BhChat.Reads | bh-rag/frontend/src/hooks/useChatStreaming.ts:133-159 | the corrected reads (a direct read is not kept in the buffer) change only the text |
| BhChat.Leftover | bh-rag/frontend/src/hooks/useChatStreaming.ts:161-169 | the leftover buffer changes only the text |
| BhChat.Ndjson | bh-rag/frontend/src/hooks/useChatStreaming.ts:126-172 | the corrected newline-delimited reader leaves the message final and changes only its text |
| BhChat.OneLine | bh-rag/frontend/src/hooks/useChatStreaming.ts:140 | a text without "\n" is a single line |
| BhChat.AsWrittenPlainReads | bh-rag/frontend/src/hooks/useChatStreaming.ts:133-159 | as written, newline-free reads under a non-JSON type are appended to the text and also all kept in the buffer |
| BhChat.PlainReads | bh-rag/frontend/src/hooks/useChatStreaming.ts:133-159 | as intended, the same reads are each shown once and the buffer is untouched |
| BhChat.AsWrittenShowsTwice | bh-rag/frontend/src/hooks/useChatStreaming.ts:133-169 | as written, a newline-free plain-text stream that does not parse is shown twice |
| BhChat.AsWrittenHelloTwice | bh-rag/frontend/src/hooks/useChatStreaming.ts:133-169 | as written, one read "hello" under `text/plain` ends as "hellohello" |
| BhChat.PlainTextShownOnce | bh-rag/frontend/src/hooks/useChatStreaming.ts:133-169 | as intended, a newline-free plain-text stream is shown exactly once, whatever it parses to |
| BhChat.AsWrittenSplitLine | bh-rag/frontend/src/hooks/useChatStreaming.ts:137-158 | as written, under a non-JSON type, a line whose first part `a` came in a read with no line break shows `a`; the completed line `a + b` is handled whole, and when it parses nothing more is shown |
| BhChat.SplitLineIntended | bh-rag/frontend/src/hooks/useChatStreaming.ts:137-158 | as intended, `a` is shown once and not buffered, so the completed line is `b` alone, and a non-blank unparsable `b` is shown after `a` |
| BhChat.SplitLineDiffers | bh-rag/frontend/src/hooks/useChatStreaming.ts:137-169 | the reads `"p"`, `"q\n"` under `text/plain`, with only `"pq"` parsing, show `"p"` as written and `"pq"` as intended |
| BhChat.ReadsAsWrittenUnlessDirect | bh-rag/frontend/src/hooks/useChatStreaming.ts:133-159 | when no read is a direct one, the intended reads are exactly the reads as written |
| BhChat.JsonTypeAsWritten | bh-rag/frontend/src/hooks/useChatStreaming.ts:126-172 | under a JSON content type the intended newline-delimited reader equals the reader as written, for every cut into reads |
| BhChat.LinesAppend | bh-rag/frontend/src/hooks/useChatStreaming.ts:143-153 | handling two runs of lines is handling the first, then the second |
| BhChat.JsonTypeReads | bh-rag/frontend/src/hooks/useChatStreaming.ts:133-159 | under a JSON content type the reads handle the complete lines of everything received and keep the last piece |
| BhChat.JsonTypeStep | bh-rag/frontend/src/hooks/useChatStreaming.ts:137-141 | one read under a JSON content type splits the buffer and the read |
| BhChat.LinesOfAppend | bh-rag/frontend/src/hooks/useChatStreaming.ts:140-141 | the complete lines of `x + y` are those of `x`, then those of its last line followed by `y` |
| BhChat.JsonTypeWhole | bh-rag/frontend/src/hooks/useChatStreaming.ts:126-172 | under a JSON content type the reader shows the non-blank unparsable complete lines of the whole body, then the last line: the cut into reads does not matter |
| BhChat.ReadLines | bh-rag/frontend/src/hooks/useChatStreaming.ts:133-159 | the newline-delimited read loop computes the intended reads |
| BhChat.Caught | bh-rag/frontend/src/hooks/useChatStreaming.ts:174-181 | the `catch` keeps id, role and lists and always clears `isPartial` |
| BhChat.CaughtText | bh-rag/frontend/src/hooks/useChatStreaming.ts:175-180 | an abort keeps the text; any other error replaces it with "Stream error: " and the message |
| BhChat.Receive | bh-rag/frontend/src/hooks/useChatStreaming.ts:73-182 | after a reply (newline-delimited replies read with the corrected reader) the message keeps its id, role and lists; `streamingRef` stays set exactly when the message is left partial |
| BhChat.StoppedIsFinal | bh-rag/frontend/src/hooks/useChatStreaming.ts:109-113 | an event stream that stopped did so at `[DONE]`, which cleared `isPartial` |
| BhChat.EventChunkingIrrelevant | bh-rag/frontend/src/hooks/useChatStreaming.ts:92-125 | over an event stream the message depends only on the text received, not on the cut into reads |
| BhChat.ReceiveMessage | bh-rag/frontend/src/hooks/useChatStreaming.ts:73-182 | the method computes the message and the flag the reply makes, with the corrected newline-delimited reader |
| BhChat.Memory | bh-rag/frontend/src/hooks/useChatStreaming.ts:65 | role and text of the last (at most) six messages, in order |
| BhChat.SendAppendsExchange | bh-rag/frontend/src/hooks/useChatStreaming.ts:43-183 | a send appends exactly the user message and the agent's final message; the memory posted is that of the messages before the send; `streamingRef` stays set exactly when the final message is partial |
| BhChat.BhHook.constructor | bh-rag/frontend/src/hooks/useChatStreaming.ts:22-24 | no messages, not streaming |
| BhChat.BhHook.PushMessage | bh-rag/frontend/src/hooks/useChatStreaming.ts:26-27 | `pushMessage` appends one message |
| BhChat.BhHook.UpdateLastMessage | bh-rag/frontend/src/hooks/useChatStreaming.ts:29-41 | `updateLast` replaces the messages by their update |
| BhChat.BhHook.SendMessage | bh-rag/frontend/src/hooks/useChatStreaming.ts:43-183 | `sendMessage` ends in the state, and posts the request, of its specification (with the corrected newline-delimited reader) |

## Left out

- PDF reading and extraction (`fs`, `pdf-parse`), the embedding service, the vector store's SQL, the reranker, the language model, `JSON.parse` and the agent runtime are foreign. Each is a function parameter or an input, so each `execute`, handler and reducer is a total function of their answers.
- The reranker's `topK: 5` and the vector query's `topK: 10` are not enforced: the hits are whatever those services return.
- The `./chunk` module that the app's ingestion scripts import is not part of this model. The bh-rag `chunk.ts` functions (`Chunking`) stand in for it.
- Chunking.RecursiveTextChunk: requires `overlap < size`. With `overlap >= size` the source loop never advances and does not end. Its callers use 800/150 and 1000/200.
- MDocument.RecursiveChunk: requires `overlap < maxLength`. With `overlap >= maxLength` the window start never advances, as written or corrected.
- Console logging in the ingestion scripts and the servers is not modelled.
- Numbers in JSON are integers. Embeddings are sequences of reals, with no floating-point rounding.
- `TextDecoder` is the identity on strings: a multi-byte character split across two reads is not modelled.
- Response headers (`setHeader`, `flushHeaders`) and the port the servers listen on are not modelled.
- AppServer.DummyAskNew: a failure is an input that strikes before anything is written. A statement of the dummy handler that throws halfway through a write is not modelled.
- `!results` in the plain and bh-rag tools is only the empty case: the search returns a sequence, never `undefined`.
- In the app hook an absent `isPartial` is `false`. An object spread `{ ...doc, link }` is modelled as the members of `doc` followed by `link`, where a lookup finds the last member. Key order on output is not modelled.
- Persisting conversations and the active id to `localStorage` is left out. The restore effect takes the stored list after `JSON.parse` as an input (`None` when it is missing or does not parse).
- Ids drawn with `nanoid` are inputs. The send lemmas require the agent id to be fresh and distinct from the user id.
- React batches state updates and runs them later. Here every update is applied in order to the state the send started from. Two sends that overlap, `cancel` and the abort of a running stream by a new send are not modelled. An abort shows up only as a read that throws with the name `AbortError`.
- BhChat.Caught: an error value without `name` or `message` properties is not modelled; the error is always an object.
- BhChat.Receive, BhChat.ReceiveMessage, BhChat.BhHook.SendMessage, BhChat.Ndjson, BhChat.Reads, BhChat.ReadLines, BhChat.Step: these use the corrected newline-delimited reader, which differs from the source in two ways under a content type that is not JSON.
  - A read that has no line break is shown once. The source shows it twice (see "## Findings").
  - The corrected reader does not keep such a read in the buffer. So a line whose first part arrived in a read with no line break is later parsed without that shown prefix, and its rest is shown on its own. For example, the reads `["p", "q\n"]` under `text/plain`, where only `"pq"` parses, show `"pq"` in the model. The source shows only `"p"`, because it parses the completed line `"pq"` and then ignores it (`SplitLineDiffers`, from `AsWrittenSplitLine` and `SplitLineIntended`). A JSON line split across reads, such as `{"x":` then `1}\n`, is the realistic case.
  - The servers of this system send only `text/event-stream` or `application/json`, and under a JSON content type the two readers are equal (`JsonTypeAsWritten`).
  - The as-written reader is `AsWrittenNdjson`. It is related to the corrected one by the lemmas above and those listed under "## Findings".
- MDocument.RecursiveChunk, MDocument.ToChunks, AppChat.Title: string lengths and slices count code points, not UTF-16 code units. A text with characters outside the Basic Multilingual Plane is cut at different places than in the source. An example is a 26-emoji prompt, which keeps 26 emoji in its title where the source keeps 25.
- MastraServer.AskNew, AppServer.DummyAskNew: the caught error is always an object, whose `message` may be absent (which gives `{}`). A thrown `null` or `undefined`, for which `err.message` throws again, is not modelled.
- The typewriter display, the React components and the CSS of the front ends are not part of this model.
- The eval metrics that come from the agent framework (summarization, content similarity, tone) are foreign and left out.

## Findings

| source | as written | input that shows it | evidently intended | confidence | as-written member | corrected member |
|---|---|---|---|---|---|---|
| bh-rag/src/ingestion/MDocument.ts:31-40 | once `end` is clamped to `text.length`, `start` becomes `text.length - overlap` (or 0), and the loop reads that same tail window again on every iteration, pushing its trim each time, so it never ends for non-empty text with `overlap > 0` | `recursiveChunk("abc", 1000, 200)`: `start` stays 0 and `"abc"` is pushed on every iteration | stop after the window that reaches the end of the text | not executed | MDocument.AsWrittenRevisitsTail | MDocument.RecursiveChunk |
| bh-rag/frontend/src/hooks/useChatStreaming.ts:133-169 | in the newline-delimited branch a read with no line break, under a content type that is not JSON, is appended to the text directly and also stays in `buffer`, whose leftover is appended again after the last read | one read `"hello"` under `text/plain` that does not parse as JSON ends as `"hellohello"` | each read shown once | not executed | BhChat.AsWrittenHelloTwice | BhChat.PlainTextShownOnce |
