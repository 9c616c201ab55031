/** The PgVector writer `app/src/ingestion/upsert-pgvector.ts`: `ensureIndex` creates the
    index once per process, guarded by the module flag `indexInitialized`, and
    `upsertChunks` sends one upsert of the file's vectors with an id and a metadata record
    per chunk. The vector store itself is foreign: the model records the requests it
    receives, and whether `createIndex` or `upsert` throws is an input. */
module UpsertPgvector {
  import opened Options
  import opened Strings
  import Chunking

  type Vector = seq<real>

  /** The index every call names, and its distance metric. */
  const IndexName: string := "shareholder_letters_1977_2024"
  const Metric: string := "cosine"

  /** A chunk as `processPDF` hands it over: content, type and the year of its file. */
  datatype StoredChunk = StoredChunk(content: string, kind: Chunking.Kind, year: Option<nat>)

  /** The metadata stored with a vector. */
  datatype Metadata = Metadata(text: string, fileName: string, kind: Chunking.Kind, year: Option<nat>, chunkIndex: nat)

  datatype IndexRequest = IndexRequest(indexName: string, dimension: nat, metric: string)
  datatype UpsertRequest = UpsertRequest(indexName: string, vectors: seq<Vector>, metadata: seq<Metadata>, ids: seq<string>)

  /** The id of chunk `i` of a file: `${fileName}_${i}`. */
  function Id(fileName: string, i: nat): string {
    fileName + "_" + NatToString(i)
  }

  /** The ids of a file with `n` chunks. */
  function Ids(fileName: string, n: nat): (r: seq<string>)
    ensures |r| == n && forall i :: 0 <= i < n ==> r[i] == Id(fileName, i)
  {
    if n == 0 then [] else Ids(fileName, n - 1) + [Id(fileName, n - 1)]
  }

  /** In `f + "_" + d` with `d` all digits, every `_` lies at or before index `|f|`. */
  lemma UnderscoreBound(f: string, d: string, j: int)
    requires forall i :: 0 <= i < |d| ==> IsDigit(d[i])
    requires 0 <= j < |f| + 1 + |d| && (f + "_" + d)[j] == '_'
    ensures j <= |f|
  {
  }

  /** An id names its file and chunk index: no two chunks, of the same file or of two
      files, share an id, because the index after the last `_` is all digits. */
  lemma IdInjective(f1: string, i1: nat, f2: string, i2: nat)
    requires Id(f1, i1) == Id(f2, i2)
    ensures f1 == f2 && i1 == i2
  {
    var s := Id(f1, i1);
    var d1, d2 := NatToString(i1), NatToString(i2);
    assert s[|f1|] == '_' && s[|f2|] == '_';
    UnderscoreBound(f2, d2, |f1|);
    UnderscoreBound(f1, d1, |f2|);
    assert d1 == s[|f1| + 1..] == d2;
    NatToStringInjective(i1, i2);
    assert f1 == s[..|f1|] == f2;
  }

  /** Within one call the ids are pairwise distinct. */
  lemma IdsDistinct(fileName: string, n: nat, i: int, j: int)
    requires 0 <= i < n && 0 <= j < n && i != j
    ensures Ids(fileName, n)[i] != Ids(fileName, n)[j]
  {
    if Id(fileName, i) == Id(fileName, j) {
      IdInjective(fileName, i, fileName, j);
    }
  }

  /** The metadata of the chunks: content as `text`, the file name, type, year and index. */
  function MetadataOf(fileName: string, chunks: seq<StoredChunk>): (r: seq<Metadata>)
    ensures |r| == |chunks|
    ensures forall i :: 0 <= i < |chunks| ==>
      r[i] == Metadata(chunks[i].content, fileName, chunks[i].kind, chunks[i].year, i)
  {
    if chunks == [] then []
    else
      var last := chunks[|chunks| - 1];
      MetadataOf(fileName, chunks[..|chunks| - 1]) + [Metadata(last.content, fileName, last.kind, last.year, |chunks| - 1)]
  }

  /** The upsert `upsertChunks` sends. */
  function RequestOf(fileName: string, chunks: seq<StoredChunk>, embeddings: seq<Vector>): UpsertRequest {
    UpsertRequest(IndexName, embeddings, MetadataOf(fileName, chunks), Ids(fileName, |chunks|))
  }

  /** Upserting the same file twice sends the same ids, so the second upsert overwrites the
      first rather than adding to it. */
  lemma SameFileSameIds(fileName: string, c1: seq<StoredChunk>, c2: seq<StoredChunk>, e1: seq<Vector>, e2: seq<Vector>)
    requires |c1| == |c2|
    ensures RequestOf(fileName, c1, e1).ids == RequestOf(fileName, c2, e2).ids
  {
  }

  // ---------------------------------------------------------------------------
  // the writer's state

  /** The module flag and what the vector store has been sent: the `createIndex` calls made
      and the upserts that succeeded. */
  datatype StoreState = StoreState(indexInitialized: bool, indexCalls: seq<IndexRequest>, upserts: seq<UpsertRequest>)

  /** `ensureIndex(dimension)`: `createIndex` is called only while the flag is false, and the
      flag is set only when it returns. */
  function EnsureIndexSpec(s: StoreState, dimension: nat, createFails: bool): (r: StoreState)
    ensures r.upserts == s.upserts
  {
    if s.indexInitialized then s
    else
      var calls := s.indexCalls + [IndexRequest(IndexName, dimension, Metric)];
      StoreState(!createFails, calls, s.upserts)
  }

  /** `upsertChunks`: `embeddings[0].length` throws on an empty list before anything is sent;
      otherwise the index is ensured, then the upsert is sent. `ok` is false when the call
      throws. */
  function UpsertSpec(s: StoreState, fileName: string, chunks: seq<StoredChunk>, embeddings: seq<Vector>,
                      createFails: bool, upsertFails: bool): (r: (StoreState, bool))
  {
    if |embeddings| == 0 then (s, false)
    else
      var s1 := EnsureIndexSpec(s, |embeddings[0]|, createFails);
      if !s1.indexInitialized || upsertFails then (s1, false)
      else (s1.(upserts := s1.upserts + [RequestOf(fileName, chunks, embeddings)]), true)
  }

  /** Once the flag is set, `ensureIndex` calls nothing and changes nothing. */
  lemma EnsureIndexOnce(s: StoreState, dimension: nat, createFails: bool)
    requires s.indexInitialized
    ensures EnsureIndexSpec(s, dimension, createFails) == s
  {
  }

  /** While the flag is false every call tries `createIndex`; a call that throws leaves the
      flag false, so the next one tries again. */
  lemma EnsureIndexRetries(s: StoreState, d1: nat, d2: nat, createFails: bool)
    requires !s.indexInitialized
    ensures var s1 := EnsureIndexSpec(s, d1, true);
      !s1.indexInitialized
      && EnsureIndexSpec(s1, d2, createFails).indexCalls
         == s.indexCalls + [IndexRequest(IndexName, d1, Metric), IndexRequest(IndexName, d2, Metric)]
      && EnsureIndexSpec(s1, d2, createFails).indexInitialized == !createFails
  {
  }

  /** An upsert is recorded exactly when `upsertChunks` returns, and it is the request built
      from the chunks; a call that throws records none. */
  lemma UpsertRecorded(s: StoreState, fileName: string, chunks: seq<StoredChunk>, embeddings: seq<Vector>,
                       createFails: bool, upsertFails: bool)
    ensures var (s', ok) := UpsertSpec(s, fileName, chunks, embeddings, createFails, upsertFails);
      s'.upserts == if ok then s.upserts + [RequestOf(fileName, chunks, embeddings)] else s.upserts
  {
  }

  /** The index dimension is the length of the first embedding: the only `createIndex` call
      an upsert can make names it. */
  lemma UpsertIndexDimension(s: StoreState, fileName: string, chunks: seq<StoredChunk>, embeddings: seq<Vector>,
                             createFails: bool, upsertFails: bool)
    requires !s.indexInitialized && |embeddings| > 0
    ensures var (s', ok) := UpsertSpec(s, fileName, chunks, embeddings, createFails, upsertFails);
      s'.indexCalls == s.indexCalls + [IndexRequest(IndexName, |embeddings[0]|, Metric)]
      && (ok ==> s'.indexInitialized)
  {
  }

  /** The writer: the module flag and the requests the vector store has received. */
  class VectorStore {
    var indexInitialized: bool
    var indexCalls: seq<IndexRequest>
    var upserts: seq<UpsertRequest>

    function State(): StoreState
      reads this
    {
      StoreState(indexInitialized, indexCalls, upserts)
    }

    /** A fresh process: the flag is false and nothing has been sent. */
    constructor()
      ensures State() == StoreState(false, [], [])
    {
      indexInitialized := false;
      indexCalls := [];
      upserts := [];
    }

    /** `ensureIndex`; `ok` is false when `createIndex` throws. */
    method EnsureIndex(dimension: nat, createFails: bool) returns (ok: bool)
      modifies this
      ensures State() == EnsureIndexSpec(old(State()), dimension, createFails)
      ensures ok == State().indexInitialized
    {
      if !indexInitialized {
        indexCalls := indexCalls + [IndexRequest(IndexName, dimension, Metric)];
        if createFails {
          return false;
        }
        indexInitialized := true;
      }
      return true;
    }

    /** `upsertChunks`; `ok` is false when the call throws. */
    method UpsertChunks(fileName: string, chunks: seq<StoredChunk>, embeddings: seq<Vector>,
                        createFails: bool, upsertFails: bool) returns (ok: bool)
      modifies this
      ensures (State(), ok) == UpsertSpec(old(State()), fileName, chunks, embeddings, createFails, upsertFails)
    {
      if |embeddings| == 0 {
        return false;
      }
      ok := EnsureIndex(|embeddings[0]|, createFails);
      if !ok || upsertFails {
        return false;
      }
      upserts := upserts + [RequestOf(fileName, chunks, embeddings)];
    }
  }
}
