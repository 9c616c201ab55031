/** The ingestion script `app/src/ingestion/ingest.ts`: each PDF of the letters folder is
    cut into chunks (table-aware chunking with text re-cut into word windows of 800/150,
    or the `MDocument` chunker), every chunk is embedded, and the chunks with their
    embeddings are handed to the database writer. PDF extraction, the embedding service and
    the database writer are inputs: `texts` gives the extracted text of a file (`None` when
    extraction fails), `embed` the embedding of a string (`None` when the call fails). */
module Ingest {
  import opened Options
  import opened Strings
  import Chunking
  import MDocument

  type Vector = seq<real>

  // ---------------------------------------------------------------------------
  // expansion of the segments of smartChunk

  /** The word windows of a text segment as text chunks. */
  function AsText(subs: seq<string>): (r: seq<Chunking.Chunk>)
    ensures |r| == |subs|
    ensures forall i :: 0 <= i < |subs| ==> r[i] == Chunking.Chunk(subs[i], Chunking.Text)
  {
    if subs == [] then [] else AsText(subs[..|subs| - 1]) + [Chunking.Chunk(subs[|subs| - 1], Chunking.Text)]
  }

  /** What one segment becomes: a text segment its `recursiveTextChunk` windows, a table
      segment itself. */
  function Pieces(c: Chunking.Chunk, size: nat, overlap: nat): seq<Chunking.Chunk>
    requires overlap < size
  {
    if c.kind == Chunking.Text then AsText(Chunking.TextWindows(c.content, size, overlap)) else [c]
  }

  /** The expanded chunks of the segments `raw`, in segment order. */
  function Expand(raw: seq<Chunking.Chunk>, size: nat, overlap: nat): seq<Chunking.Chunk>
    requires overlap < size
  {
    if raw == [] then [] else Expand(raw[..|raw| - 1], size, overlap) + Pieces(raw[|raw| - 1], size, overlap)
  }

  /** The expansion loop of `processPDF`: text segments are replaced, in place, by their word
      windows typed "text"; table segments are kept whole. */
  method ExpandChunks(raw: seq<Chunking.Chunk>, size: nat, overlap: nat) returns (expanded: seq<Chunking.Chunk>)
    requires overlap < size
    ensures expanded == Expand(raw, size, overlap)
  {
    expanded := [];
    for i := 0 to |raw|
      invariant expanded == Expand(raw[..i], size, overlap)
    {
      var chunk := raw[i];
      ghost var before := expanded;
      if chunk.kind == Chunking.Text {
        var subChunks := Chunking.RecursiveTextChunk(chunk.content, size, overlap);
        for j := 0 to |subChunks|
          invariant expanded == before + AsText(subChunks[..j])
        {
          expanded := expanded + [Chunking.Chunk(subChunks[j], Chunking.Text)];
          AsTextStep(subChunks, j, before, expanded);
        }
        assert subChunks[..|subChunks|] == subChunks;
      } else {
        expanded := expanded + [chunk];
      }
      ExpandStep(raw, i, size, overlap);
    }
    assert raw[..|raw|] == raw;
  }

  lemma AsTextStep(subs: seq<string>, j: int, before: seq<Chunking.Chunk>, expanded: seq<Chunking.Chunk>)
    requires 0 <= j < |subs|
    requires expanded == before + AsText(subs[..j]) + [Chunking.Chunk(subs[j], Chunking.Text)]
    ensures expanded == before + AsText(subs[..j + 1])
  {
    assert subs[..j + 1][..j] == subs[..j];
  }

  lemma ExpandStep(raw: seq<Chunking.Chunk>, i: int, size: nat, overlap: nat)
    requires overlap < size && 0 <= i < |raw|
    ensures Expand(raw[..i + 1], size, overlap) == Expand(raw[..i], size, overlap) + Pieces(raw[i], size, overlap)
  {
    assert raw[..i + 1][..i] == raw[..i];
  }

  /** Expansion works segment by segment: the chunks of two runs of segments are the chunks
      of the first followed by those of the second. */
  lemma {:induction false} ExpandAppend(a: seq<Chunking.Chunk>, b: seq<Chunking.Chunk>, size: nat, overlap: nat)
    requires overlap < size
    ensures Expand(a + b, size, overlap) == Expand(a, size, overlap) + Expand(b, size, overlap)
  {
    if b != [] {
      var b' := b[..|b| - 1];
      assert (a + b)[..|a + b| - 1] == a + b';
      ExpandAppend(a, b', size, overlap);
    } else {
      assert a + b == a;
    }
  }

  /** Every segment gives at least one chunk. */
  lemma {:induction false} ExpandAtLeastOnePerSegment(raw: seq<Chunking.Chunk>, size: nat, overlap: nat)
    requires overlap < size
    ensures |Expand(raw, size, overlap)| >= |raw|
  {
    if raw != [] {
      ExpandAtLeastOnePerSegment(raw[..|raw| - 1], size, overlap);
      Chunking.TextWindowsNonEmpty(raw[|raw| - 1].content, size, overlap);
    }
  }

  /** Where each expanded chunk comes from: a table chunk is one of the table segments,
      unchanged; a text chunk is one of the word windows of a text segment. */
  lemma {:induction false} ExpandOrigin(raw: seq<Chunking.Chunk>, size: nat, overlap: nat, k: int) returns (s: nat)
    requires overlap < size && 0 <= k < |Expand(raw, size, overlap)|
    ensures s < |raw|
    ensures var c := Expand(raw, size, overlap)[k];
      if c.kind == Chunking.Table then c == raw[s]
      else raw[s].kind == Chunking.Text && c.content in Chunking.TextWindows(raw[s].content, size, overlap)
  {
    var front := Expand(raw[..|raw| - 1], size, overlap);
    var last := raw[|raw| - 1];
    if k < |front| {
      s := ExpandOrigin(raw[..|raw| - 1], size, overlap, k);
      assert raw[..|raw| - 1][s] == raw[s];
    } else {
      s := |raw| - 1;
      var c := Pieces(last, size, overlap)[k - |front|];
      if last.kind == Chunking.Text {
        var subs := Chunking.TextWindows(last.content, size, overlap);
        assert c == Chunking.Chunk(subs[k - |front|], Chunking.Text);
      }
    }
  }

  /** Every table segment reaches the output unchanged. */
  lemma {:induction false} ExpandKeepsTables(raw: seq<Chunking.Chunk>, size: nat, overlap: nat, s: int)
    requires overlap < size && 0 <= s < |raw| && raw[s].kind == Chunking.Table
    ensures raw[s] in Expand(raw, size, overlap)
  {
    var front := raw[..|raw| - 1];
    if s < |raw| - 1 {
      assert front[s] == raw[s];
      ExpandKeepsTables(front, size, overlap, s);
    } else {
      assert Pieces(raw[s], size, overlap) == [raw[s]];
    }
  }

  // ---------------------------------------------------------------------------
  // the chunks of one document

  /** The window length and overlap `ingest.ts` uses for narrative text. */
  const TextSize: nat := 800
  const TextOverlap: nat := 150

  /** The chunks of a document: with advanced chunking the expanded `smartChunk` segments,
      otherwise the chunks of `MDocument.toChunks`. */
  function DocumentChunks(text: string, advanced: bool): seq<Chunking.Chunk> {
    if advanced then Expand(Chunking.SmartChunks(text), TextSize, TextOverlap)
    else AsText(MDocument.RecursiveChunks(text, MDocument.MaxLength, MDocument.Overlap))
  }

  /** With advanced chunking every document, even an empty one, has at least one chunk, so
      the embedding list handed to the database writer is never empty. */
  lemma AdvancedChunksNonEmpty(text: string)
    ensures |DocumentChunks(text, true)| >= 1
  {
    Chunking.SmartChunksRejoin(text);
    ExpandAtLeastOnePerSegment(Chunking.SmartChunks(text), TextSize, TextOverlap);
  }

  /** The other chunker gives no chunk at all for a text that is only `\s`. */
  lemma BlankDocumentNoChunks(text: string)
    requires forall i :: 0 <= i < |text| ==> IsSpace(text[i])
    ensures DocumentChunks(text, false) == []
  {
    MDocument.RecursiveChunksTrimmed(text, MDocument.MaxLength, MDocument.Overlap);
    var cs := MDocument.RecursiveChunks(text, MDocument.MaxLength, MDocument.Overlap);
    if |cs| > 0 {
      MDocument.RecursiveChunksAreSlices(text, MDocument.MaxLength, MDocument.Overlap, 0);
      assert false;
    }
  }

  /** The chunking step of `processPDF`, switched by `USE_ADVANCED_CHUNKING`. */
  method ChunkDocument(text: string, advanced: bool) returns (chunks: seq<Chunking.Chunk>)
    ensures chunks == DocumentChunks(text, advanced)
  {
    if advanced {
      var rawChunks := Chunking.SmartChunk(text);
      chunks := ExpandChunks(rawChunks, TextSize, TextOverlap);
    } else {
      chunks := MDocument.ToChunks(text);
    }
  }

  // ---------------------------------------------------------------------------
  // embeddings

  /** The embeddings of `texts`, one per text in order, or `None` when one of the calls fails. */
  function Embeddings(texts: seq<string>, embed: string -> Option<Vector>): (r: Option<seq<Vector>>)
    ensures r.Some? <==> forall i :: 0 <= i < |texts| ==> embed(texts[i]).Some?
    ensures r.Some? ==> |r.value| == |texts| && forall i :: 0 <= i < |texts| ==> r.value[i] == embed(texts[i]).value
  {
    if texts == [] then Some([])
    else match Embeddings(texts[..|texts| - 1], embed)
      case None => None
      case Some(front) =>
        match embed(texts[|texts| - 1])
        case None => None
        case Some(e) => Some(front + [e])
  }

  /** The embedding loop of `processPDF`: one `embedText` call per chunk, in order; a failing
      call abandons the file. */
  method EmbedAll(texts: seq<string>, embed: string -> Option<Vector>) returns (r: Option<seq<Vector>>)
    ensures r == Embeddings(texts, embed)
  {
    var embeddings: seq<Vector> := [];
    for i := 0 to |texts|
      invariant Embeddings(texts[..i], embed) == Some(embeddings)
    {
      assert texts[..i + 1][..i] == texts[..i];
      var embedding := embed(texts[i]);
      if embedding.None? {
        EmbeddingsFailure(texts, embed, i);
        return None;
      }
      embeddings := embeddings + [embedding.value];
    }
    assert texts[..|texts|] == texts;
    return Some(embeddings);
  }

  /** A failing call fails the whole list. */
  lemma EmbeddingsFailure(texts: seq<string>, embed: string -> Option<Vector>, i: int)
    requires 0 <= i < |texts| && embed(texts[i]).None?
    ensures Embeddings(texts, embed) == None
  {
  }

  /** The contents of chunks, the strings that are embedded. */
  function Contents(chunks: seq<Chunking.Chunk>): (r: seq<string>)
    ensures |r| == |chunks| && forall i :: 0 <= i < |chunks| ==> r[i] == chunks[i].content
  {
    if chunks == [] then [] else Contents(chunks[..|chunks| - 1]) + [chunks[|chunks| - 1].content]
  }

  // ---------------------------------------------------------------------------
  // files

  /** The directory entries ending in ".pdf", in listing order. */
  function PdfFiles(entries: seq<string>): (r: seq<string>)
    ensures forall i :: 0 <= i < |r| ==> EndsWith(r[i], ".pdf")
  {
    if entries == [] then []
    else PdfFiles(entries[..|entries| - 1]) + (if EndsWith(entries[|entries| - 1], ".pdf") then [entries[|entries| - 1]] else [])
  }

  /** Every ".pdf" entry is processed, and nothing else. */
  lemma {:induction false} PdfFilesExactly(entries: seq<string>, f: string)
    ensures f in PdfFiles(entries) <==> f in entries && EndsWith(f, ".pdf")
  {
    if entries != [] {
      PdfFilesExactly(entries[..|entries| - 1], f);
      assert entries == entries[..|entries| - 1] + [entries[|entries| - 1]];
    }
  }

  /** What `processPDF` hands to the database writer for one file. */
  datatype Batch = Batch(fileName: string, chunks: seq<Chunking.Chunk>, embeddings: seq<Vector>)

  /** The batch of one file, or `None` when its extraction or one of its embeddings fails
      (the error is caught and logged). */
  function BatchOf(fileName: string, text: Option<string>, advanced: bool, embed: string -> Option<Vector>): (r: Option<Batch>)
    ensures r.Some? ==> r.value.fileName == fileName && |r.value.embeddings| == |r.value.chunks|
  {
    match text
    case None => None
    case Some(t) =>
      var chunks := DocumentChunks(t, advanced);
      match Embeddings(Contents(chunks), embed)
      case None => None
      case Some(es) => Some(Batch(fileName, chunks, es))
  }

  /** `processPDF` for one file. */
  method ProcessPdf(fileName: string, text: Option<string>, advanced: bool, embed: string -> Option<Vector>)
    returns (r: Option<Batch>)
    ensures r == BatchOf(fileName, text, advanced, embed)
  {
    if text.None? {
      return None;
    }
    var chunks := ChunkDocument(text.value, advanced);
    var embeddings := EmbedAll(Contents(chunks), embed);
    if embeddings.None? {
      return None;
    }
    return Some(Batch(fileName, chunks, embeddings.value));
  }

  /** The batches of the files, in order, those of failed files left out. */
  function Batches(files: seq<string>, texts: string -> Option<string>, advanced: bool, embed: string -> Option<Vector>): seq<Batch> {
    if files == [] then []
    else
      var f := files[|files| - 1];
      Batches(files[..|files| - 1], texts, advanced, embed)
        + match BatchOf(f, texts(f), advanced, embed) case None => [] case Some(b) => [b]
  }

  /** `parseAllPDFsInFolder`: the ".pdf" entries processed one after the other. */
  method ParseAllPdfs(entries: seq<string>, texts: string -> Option<string>, advanced: bool, embed: string -> Option<Vector>)
    returns (batches: seq<Batch>)
    ensures batches == Batches(PdfFiles(entries), texts, advanced, embed)
  {
    var files := PdfFiles(entries);
    batches := [];
    for i := 0 to |files|
      invariant batches == Batches(files[..i], texts, advanced, embed)
    {
      var b := ProcessPdf(files[i], texts(files[i]), advanced, embed);
      BatchesStep(files, i, texts, advanced, embed, b);
      if b.Some? {
        batches := batches + [b.value];
      }
    }
    assert files[..|files|] == files;
  }

  lemma BatchesStep(files: seq<string>, i: int, texts: string -> Option<string>, advanced: bool,
                    embed: string -> Option<Vector>, b: Option<Batch>)
    requires 0 <= i < |files| && b == BatchOf(files[i], texts(files[i]), advanced, embed)
    ensures Batches(files[..i + 1], texts, advanced, embed)
         == Batches(files[..i], texts, advanced, embed) + (if b.Some? then [b.value] else [])
  {
    assert files[..i + 1][..i] == files[..i];
  }

  /** Errors are isolated per file: the batches of two runs of files are those of the first
      followed by those of the second, whatever fails in either. */
  lemma {:induction false} BatchesAppend(a: seq<string>, b: seq<string>, texts: string -> Option<string>,
                                         advanced: bool, embed: string -> Option<Vector>)
    ensures Batches(a + b, texts, advanced, embed) == Batches(a, texts, advanced, embed) + Batches(b, texts, advanced, embed)
  {
    if b != [] {
      var b' := b[..|b| - 1];
      assert (a + b)[..|a + b| - 1] == a + b';
      BatchesAppend(a, b', texts, advanced, embed);
    } else {
      assert a + b == a;
    }
  }

  /** A file whose processing fails contributes nothing and costs the other files nothing. */
  lemma FailedFileSkipped(a: seq<string>, f: string, b: seq<string>, texts: string -> Option<string>,
                          advanced: bool, embed: string -> Option<Vector>)
    requires BatchOf(f, texts(f), advanced, embed).None?
    ensures Batches(a + [f] + b, texts, advanced, embed) == Batches(a, texts, advanced, embed) + Batches(b, texts, advanced, embed)
  {
    BatchesAppend(a + [f], b, texts, advanced, embed);
    BatchesAppend(a, [f], texts, advanced, embed);
    assert [f][..0] == [];
    assert Batches([f], texts, advanced, embed) == Batches([], texts, advanced, embed) + [];
    assert Batches(a, texts, advanced, embed) + [] == Batches(a, texts, advanced, embed);
  }
}
