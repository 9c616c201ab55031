/** The PgVector ingestion script `app/src/ingestion/ingestion-pgvector.ts`: each PDF is
    cut by `smartChunk`, text segments are re-cut into word windows of 1000 words with 200
    of overlap, every chunk is tagged with the year found in the file name, embedded, and
    the file's chunks are upserted through the writer of `UpsertPgvector`. PDF extraction
    and the embedding service are inputs, as in `Ingest`; so is, per file, whether the
    vector store's `createIndex` and `upsert` calls throw. */
module PgIngestion {
  import opened Options
  import opened Strings
  import Chunking
  import Years
  import Ingest
  import opened UpsertPgvector

  /** The word-window length and overlap of this script. */
  const ChunkSize: nat := 1000
  const ChunkOverlap: nat := 200

  /** The chunks tagged with the year of their file. */
  function WithYear(chunks: seq<Chunking.Chunk>, year: Option<nat>): (r: seq<StoredChunk>)
    ensures |r| == |chunks|
    ensures forall i :: 0 <= i < |chunks| ==> r[i] == StoredChunk(chunks[i].content, chunks[i].kind, year)
  {
    if chunks == [] then []
    else
      var last := chunks[|chunks| - 1];
      WithYear(chunks[..|chunks| - 1], year) + [StoredChunk(last.content, last.kind, year)]
  }

  lemma WithYearAppend(a: seq<Chunking.Chunk>, b: seq<Chunking.Chunk>, year: Option<nat>)
    ensures WithYear(a + b, year) == WithYear(a, year) + WithYear(b, year)
  {
    assert forall i :: 0 <= i < |a + b| ==> WithYear(a + b, year)[i] == (WithYear(a, year) + WithYear(b, year))[i];
  }

  /** The chunks `processPDF` builds from the text of a file. */
  function StoredChunks(fileName: string, text: string): seq<StoredChunk> {
    WithYear(Ingest.Expand(Chunking.SmartChunks(text), ChunkSize, ChunkOverlap), Years.ExtractYear(fileName))
  }

  /** The expansion loop: text segments become their word windows, table segments stay
      whole, and every chunk carries `year`. */
  method ExpandWithYear(raw: seq<Chunking.Chunk>, year: Option<nat>) returns (expanded: seq<StoredChunk>)
    ensures expanded == WithYear(Ingest.Expand(raw, ChunkSize, ChunkOverlap), year)
  {
    expanded := [];
    for i := 0 to |raw|
      invariant expanded == WithYear(Ingest.Expand(raw[..i], ChunkSize, ChunkOverlap), year)
    {
      var chunk := raw[i];
      ghost var before := expanded;
      if chunk.kind == Chunking.Text {
        var subChunks := Chunking.RecursiveTextChunk(chunk.content, ChunkSize, ChunkOverlap);
        for j := 0 to |subChunks|
          invariant expanded == before + WithYear(Ingest.AsText(subChunks[..j]), year)
        {
          expanded := expanded + [StoredChunk(subChunks[j], Chunking.Text, year)];
          WithYearTextStep(subChunks, j, year, before, expanded);
        }
        assert subChunks[..|subChunks|] == subChunks;
      } else {
        expanded := expanded + [StoredChunk(chunk.content, Chunking.Table, year)];
        assert [StoredChunk(chunk.content, Chunking.Table, year)] == WithYear([chunk], year);
      }
      ExpandWithYearStep(raw, i, year, before, expanded);
    }
    assert raw[..|raw|] == raw;
  }

  lemma WithYearTextStep(subs: seq<string>, j: int, year: Option<nat>, before: seq<StoredChunk>, expanded: seq<StoredChunk>)
    requires 0 <= j < |subs|
    requires expanded == before + WithYear(Ingest.AsText(subs[..j]), year) + [StoredChunk(subs[j], Chunking.Text, year)]
    ensures expanded == before + WithYear(Ingest.AsText(subs[..j + 1]), year)
  {
    assert subs[..j + 1] == subs[..j] + [subs[j]];
    assert Ingest.AsText(subs[..j + 1]) == Ingest.AsText(subs[..j]) + [Chunking.Chunk(subs[j], Chunking.Text)];
    WithYearAppend(Ingest.AsText(subs[..j]), [Chunking.Chunk(subs[j], Chunking.Text)], year);
  }

  lemma ExpandWithYearStep(raw: seq<Chunking.Chunk>, i: int, year: Option<nat>, before: seq<StoredChunk>, expanded: seq<StoredChunk>)
    requires 0 <= i < |raw|
    requires before == WithYear(Ingest.Expand(raw[..i], ChunkSize, ChunkOverlap), year)
    requires expanded == before + WithYear(Ingest.Pieces(raw[i], ChunkSize, ChunkOverlap), year)
    ensures expanded == WithYear(Ingest.Expand(raw[..i + 1], ChunkSize, ChunkOverlap), year)
  {
    Ingest.ExpandStep(raw, i, ChunkSize, ChunkOverlap);
    WithYearAppend(Ingest.Expand(raw[..i], ChunkSize, ChunkOverlap), Ingest.Pieces(raw[i], ChunkSize, ChunkOverlap), year);
  }

  /** The contents of the chunks, the strings that are embedded. */
  function Texts(chunks: seq<StoredChunk>): (r: seq<string>)
    ensures |r| == |chunks| && forall i :: 0 <= i < |chunks| ==> r[i] == chunks[i].content
  {
    if chunks == [] then [] else Texts(chunks[..|chunks| - 1]) + [chunks[|chunks| - 1].content]
  }

  /** Whether the vector store's calls throw while a file is written. */
  datatype StoreOutcome = StoreOutcome(createFails: bool, upsertFails: bool)

  /** `processPDF` on the writer's state: a file whose extraction or embedding fails leaves
      it unchanged (the error is caught and logged), otherwise its chunks are upserted. */
  function ProcessSpec(s: StoreState, fileName: string, text: Option<string>,
                       embed: string -> Option<Vector>, o: StoreOutcome): StoreState
  {
    match text
    case None => s
    case Some(t) =>
      var chunks := StoredChunks(fileName, t);
      match Ingest.Embeddings(Texts(chunks), embed)
      case None => s
      case Some(es) => UpsertSpec(s, fileName, chunks, es, o.createFails, o.upsertFails).0
  }

  /** `processPDF` for one file. */
  method ProcessPdf(store: VectorStore, fileName: string, text: Option<string>,
                    embed: string -> Option<Vector>, o: StoreOutcome)
    modifies store
    ensures store.State() == ProcessSpec(old(store.State()), fileName, text, embed, o)
  {
    if text.None? {
      return;
    }
    var rawChunks := Chunking.SmartChunk(text.value);
    var year := Years.ExtractYear(fileName);
    var expandedChunks := ExpandWithYear(rawChunks, year);
    var embeddings := Ingest.EmbedAll(Texts(expandedChunks), embed);
    if embeddings.None? {
      return;
    }
    var _ := store.UpsertChunks(fileName, expandedChunks, embeddings.value, o.createFails, o.upsertFails);
  }

  /** The writer's state after processing the files in order. */
  function RunSpec(s: StoreState, files: seq<string>, texts: string -> Option<string>,
                   embed: string -> Option<Vector>, outcome: string -> StoreOutcome): StoreState
  {
    if files == [] then s
    else
      var f := files[|files| - 1];
      ProcessSpec(RunSpec(s, files[..|files| - 1], texts, embed, outcome), f, texts(f), embed, outcome(f))
  }

  /** `parseAllPDFsInFolder`: the ".pdf" entries processed one after the other. */
  method ParseAllPdfs(store: VectorStore, entries: seq<string>, texts: string -> Option<string>,
                      embed: string -> Option<Vector>, outcome: string -> StoreOutcome)
    modifies store
    ensures store.State() == RunSpec(old(store.State()), Ingest.PdfFiles(entries), texts, embed, outcome)
  {
    var files := Ingest.PdfFiles(entries);
    for i := 0 to |files|
      invariant store.State() == RunSpec(old(store.State()), files[..i], texts, embed, outcome)
    {
      assert files[..i + 1][..i] == files[..i];
      ProcessPdf(store, files[i], texts(files[i]), embed, outcome(files[i]));
    }
    assert files[..|files|] == files;
  }

  // ---------------------------------------------------------------------------
  // properties

  /** Every document gives at least one chunk, so `embeddings[0]` always exists and the
      writer's empty-list failure cannot happen in this script. */
  lemma StoredChunksNonEmpty(fileName: string, text: string)
    ensures |StoredChunks(fileName, text)| >= 1
  {
    Chunking.SmartChunksRejoin(text);
    Ingest.ExpandAtLeastOnePerSegment(Chunking.SmartChunks(text), ChunkSize, ChunkOverlap);
  }

  /** What one file adds: nothing, or exactly the upsert of its chunks and embeddings. */
  lemma ProcessAddsOneUpsert(s: StoreState, fileName: string, text: Option<string>,
                             embed: string -> Option<Vector>, o: StoreOutcome)
    ensures var s' := ProcessSpec(s, fileName, text, embed, o);
      s'.upserts == s.upserts
      || (text.Some? && Ingest.Embeddings(Texts(StoredChunks(fileName, text.value)), embed).Some?
          && s'.upserts == s.upserts + [RequestOf(fileName, StoredChunks(fileName, text.value),
                                                  Ingest.Embeddings(Texts(StoredChunks(fileName, text.value)), embed).value)])
  {
  }

  /** A file succeeds exactly when extraction, every embedding and the store calls do. */
  lemma ProcessSucceedsIff(s: StoreState, fileName: string, text: Option<string>,
                           embed: string -> Option<Vector>, o: StoreOutcome)
    ensures |ProcessSpec(s, fileName, text, embed, o).upserts| == |s.upserts| + 1
        <==> text.Some? && Ingest.Embeddings(Texts(StoredChunks(fileName, text.value)), embed).Some?
             && !o.upsertFails && (s.indexInitialized || !o.createFails)
  {
    if text.Some? {
      StoredChunksNonEmpty(fileName, text.value);
    }
  }

  /** A well-formed upsert: one vector, one metadata record and one id per chunk, each
      record naming the upsert's file, its own index, and the year of that file name. */
  predicate WellFormed(u: UpsertRequest) {
    u.indexName == IndexName
    && |u.vectors| == |u.metadata| == |u.ids| >= 1
    && forall i :: 0 <= i < |u.metadata| ==>
         u.metadata[i].fileName == u.metadata[0].fileName
         && u.metadata[i].chunkIndex == i
         && u.ids[i] == Id(u.metadata[0].fileName, i)
         && u.metadata[i].year == Years.ExtractYear(u.metadata[0].fileName)
  }

  predicate AllWellFormed(us: seq<UpsertRequest>) {
    forall k :: 0 <= k < |us| ==> WellFormed(us[k])
  }

  /** Processing a file keeps every upsert well formed. */
  lemma ProcessWellFormed(s: StoreState, fileName: string, text: Option<string>,
                          embed: string -> Option<Vector>, o: StoreOutcome)
    requires AllWellFormed(s.upserts)
    ensures AllWellFormed(ProcessSpec(s, fileName, text, embed, o).upserts)
  {
    if text.Some? {
      var chunks := StoredChunks(fileName, text.value);
      StoredChunksNonEmpty(fileName, text.value);
      var e := Ingest.Embeddings(Texts(chunks), embed);
      if e.Some? {
        var u := RequestOf(fileName, chunks, e.value);
        assert WellFormed(u);
      }
    }
  }

  /** A whole run keeps every upsert well formed. */
  lemma {:induction false} RunWellFormed(s: StoreState, files: seq<string>, texts: string -> Option<string>,
                                         embed: string -> Option<Vector>, outcome: string -> StoreOutcome)
    requires AllWellFormed(s.upserts)
    ensures AllWellFormed(RunSpec(s, files, texts, embed, outcome).upserts)
  {
    if files != [] {
      var f := files[|files| - 1];
      RunWellFormed(s, files[..|files| - 1], texts, embed, outcome);
      ProcessWellFormed(RunSpec(s, files[..|files| - 1], texts, embed, outcome), f, texts(f), embed, outcome(f));
    }
  }

  /** Once the index exists, no file creates it again and it stays created. */
  lemma {:induction false} RunIndexCreatedOnce(s: StoreState, files: seq<string>, texts: string -> Option<string>,
                                               embed: string -> Option<Vector>, outcome: string -> StoreOutcome)
    requires s.indexInitialized
    ensures RunSpec(s, files, texts, embed, outcome).indexInitialized
    ensures RunSpec(s, files, texts, embed, outcome).indexCalls == s.indexCalls
  {
    if files != [] {
      RunIndexCreatedOnce(s, files[..|files| - 1], texts, embed, outcome);
    }
  }

  /** Upserts are only ever added: a run keeps the earlier ones as a prefix. */
  lemma {:induction false} RunExtendsUpserts(s: StoreState, files: seq<string>, texts: string -> Option<string>,
                                             embed: string -> Option<Vector>, outcome: string -> StoreOutcome)
    ensures var u := RunSpec(s, files, texts, embed, outcome).upserts;
      |s.upserts| <= |u| <= |s.upserts| + |files| && u[..|s.upserts|] == s.upserts
  {
    if files != [] {
      var f := files[|files| - 1];
      var mid := RunSpec(s, files[..|files| - 1], texts, embed, outcome);
      RunExtendsUpserts(s, files[..|files| - 1], texts, embed, outcome);
      ProcessAddsOneUpsert(mid, f, texts(f), embed, outcome(f));
      var u := ProcessSpec(mid, f, texts(f), embed, outcome(f)).upserts;
      assert u[..|mid.upserts|] == mid.upserts;
      assert u[..|s.upserts|] == u[..|mid.upserts|][..|s.upserts|];
    }
  }

  /** Files run one after the other: a run over two lists of files is the run over the
      second from where the first left off. */
  lemma {:induction false} RunAppend(s: StoreState, a: seq<string>, b: seq<string>, texts: string -> Option<string>,
                                     embed: string -> Option<Vector>, outcome: string -> StoreOutcome)
    ensures RunSpec(s, a + b, texts, embed, outcome) == RunSpec(RunSpec(s, a, texts, embed, outcome), b, texts, embed, outcome)
  {
    if b != [] {
      var b' := b[..|b| - 1];
      assert (a + b)[..|a + b| - 1] == a + b';
      RunAppend(s, a, b', texts, embed, outcome);
    } else {
      assert a + b == a;
    }
  }

  /** A file whose text cannot be extracted changes nothing for the files after it. */
  lemma UnreadableFileSkipped(s: StoreState, a: seq<string>, f: string, b: seq<string>, texts: string -> Option<string>,
                              embed: string -> Option<Vector>, outcome: string -> StoreOutcome)
    requires texts(f).None?
    ensures RunSpec(s, a + [f] + b, texts, embed, outcome) == RunSpec(s, a + b, texts, embed, outcome)
  {
    RunAppend(s, a + [f], b, texts, embed, outcome);
    RunAppend(s, a, [f], texts, embed, outcome);
    RunAppend(s, a, b, texts, embed, outcome);
    assert [f][..0] == [];
  }
}
