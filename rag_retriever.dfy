/** The schema retriever of rag_retriever.py: a store of table descriptions
    keyed by table name, the filtered nearest-neighbour lookup, and the
    numbered context block handed to the model-backed stages.
    The vector store is a map; the embedding model and the similarity search
    are oracles, and score formatting (`{score:.3f}`) is an opaque function. */
module RagRetriever {
  import opened Wrappers
  import opened Text

  /** A vector from the embedding model; the empty vector stands for a failed call. */
  type Embedding = seq<real>

  /** What the store keeps under an id: the document, its vector and its metadata. */
  datatype Chunk = Chunk(document: string, embedding: Embedding, metadata: map<string, string>)

  /** One (document, distance) pair of a similarity search. */
  datatype Hit = Hit(document: string, score: real)

  /** One entry of the seed list that `_populate_collection` stores. */
  datatype SeedChunk = SeedChunk(id: string, content: string)

  /** The embedding model: a vector for a text, or the exception it raised. */
  type Embedder = string -> Raise<Embedding>

  /** The store's similarity search: for the stored chunks, a query vector and
      `n_results`, the documents and distances it reports, nearest first. */
  type Nearest = (map<string, Chunk>, Embedding, int) -> Raise<seq<Hit>>

  /** The default distance threshold of the retriever. */
  const DefaultThreshold: real := 1.75

  /** What `get_schema_context` returns when nothing was retrieved. */
  const NoSchemaFound: string := "No relevant schema found."

  /** The first line of every non-empty schema context, and the blank line after it. */
  const ContextHeader: string := "Relevant Database Schema:\n\n"

  /** The metadata stored with a chunk: its table name. */
  function TableMetadata(id: string): map<string, string> {
    map["table" := id]
  }

  /** `_get_embedding`: the model's vector, or the empty vector when the call raised. */
  function GetEmbedding(embed: Embedder, text: string): (e: Embedding)
    ensures embed(text).Ok? ==> e == embed(text).value
    ensures embed(text).Raised? ==> e == []
  {
    match embed(text)
    case Ok(e) => e
    case Raised(_) => []
  }

  // ---------------------------------------------------------------------------
  // The threshold filter of `retrieve_chunks`
  // ---------------------------------------------------------------------------

  /** Line 227: the pairs whose distance is at most the threshold, in order. */
  function WithinThreshold(hits: seq<Hit>, threshold: real): (kept: seq<Hit>)
    ensures |kept| <= |hits|
    ensures forall k :: 0 <= k < |kept| ==> kept[k] in hits && kept[k].score <= threshold
  {
    if hits == [] then []
    else (if hits[0].score <= threshold then [hits[0]] else []) + WithinThreshold(hits[1..], threshold)
  }

  /** Every pair within the threshold is kept. */
  lemma {:induction false} WithinThresholdKeepsAll(hits: seq<Hit>, threshold: real)
    ensures forall h :: h in hits && h.score <= threshold ==> h in WithinThreshold(hits, threshold)
  {
    if hits != [] {
      WithinThresholdKeepsAll(hits[1..], threshold);
      forall h | h in hits && h.score <= threshold
        ensures h in WithinThreshold(hits, threshold)
      {
        if h != hits[0] {
          assert h in hits[1..];
        }
      }
    }
  }

  /** The filter keeps the order: filtering a concatenation filters each part. */
  lemma {:induction false} WithinThresholdConcat(a: seq<Hit>, b: seq<Hit>, threshold: real)
    ensures WithinThreshold(a + b, threshold) == WithinThreshold(a, threshold) + WithinThreshold(b, threshold)
  {
    if a != [] {
      var head := if a[0].score <= threshold then [a[0]] else [];
      assert (a + b)[0] == a[0];
      assert (a + b)[1..] == a[1..] + b;
      assert WithinThreshold(a + b, threshold) == head + WithinThreshold(a[1..] + b, threshold);
      WithinThresholdConcat(a[1..], b, threshold);
      assert head + (WithinThreshold(a[1..], threshold) + WithinThreshold(b, threshold))
        == (head + WithinThreshold(a[1..], threshold)) + WithinThreshold(b, threshold);
    } else {
      assert a + b == b;
    }
  }

  // ---------------------------------------------------------------------------
  // The context block of `get_schema_context`
  // ---------------------------------------------------------------------------

  /** Line 249: the block of the `i`-th retrieved chunk (counting from 1). */
  function Block(i: nat, hit: Hit, formatScore: real -> string): string {
    "Schema " + NatToString(i) + " (Relevance Score: " + formatScore(hit.score) + "):\n" + hit.document + "\n\n"
  }

  /** The blocks of the retrieved chunks, numbered from 1, as the loop of
      lines 248-249 appends them. */
  function Blocks(chunks: seq<Hit>, formatScore: real -> string): string {
    if chunks == [] then ""
    else Blocks(chunks[..|chunks| - 1], formatScore) + Block(|chunks|, chunks[|chunks| - 1], formatScore)
  }

  /** One more retrieved chunk appends its block. */
  lemma BlocksAppend(chunks: seq<Hit>, i: nat, formatScore: real -> string)
    requires i < |chunks|
    ensures Blocks(chunks[..i + 1], formatScore) == Blocks(chunks[..i], formatScore) + Block(i + 1, chunks[i], formatScore)
  {
    assert chunks[..i + 1][..i] == chunks[..i];
  }

  /** Lines 244-251: the sentinel when nothing was retrieved, otherwise the
      header followed by one block per chunk. */
  function SchemaContext(chunks: seq<Hit>, formatScore: real -> string): (context: string)
    ensures context != []
  {
    if chunks == [] then NoSchemaFound else ContextHeader + Blocks(chunks, formatScore)
  }

  /** The sentinel comes back exactly when nothing was retrieved: every other
      context starts with the header, whose first letter differs. */
  lemma SchemaContextSentinel(chunks: seq<Hit>, formatScore: real -> string)
    ensures SchemaContext(chunks, formatScore) == NoSchemaFound <==> chunks == []
    ensures chunks != [] ==> StartsWith(SchemaContext(chunks, formatScore), ContextHeader)
  {
    if chunks != [] {
      var context := SchemaContext(chunks, formatScore);
      assert context[..|ContextHeader|] == ContextHeader;
      assert context[0] == 'R' != NoSchemaFound[0];
    }
  }

  /** The blocks the context lists, one per chunk in retrieval order, the
      `i`-th numbered `i + 1`. */
  function BlockList(chunks: seq<Hit>, formatScore: real -> string): (blocks: seq<string>)
    ensures |blocks| == |chunks|
  {
    seq(|chunks|, i requires 0 <= i < |chunks| => Block(i + 1, chunks[i], formatScore))
  }

  /** A non-empty context is the header followed by the blocks of the chunks,
      the `i`-th chunk in the `i`-th block, joined with nothing in between. */
  lemma {:induction false} SchemaContextLayout(chunks: seq<Hit>, formatScore: real -> string)
    ensures Blocks(chunks, formatScore) == Join(BlockList(chunks, formatScore), "")
    decreases |chunks|
  {
    if chunks != [] {
      var n := |chunks|;
      var front := chunks[..n - 1];
      var last := Block(n, chunks[n - 1], formatScore);
      SchemaContextLayout(front, formatScore);
      BlockListAppend(chunks, formatScore);
      JoinAppend(BlockList(front, formatScore), last, "");
      ConcatAssoc(Join(BlockList(front, formatScore), ""), "", last);
    }
  }

  /** The block list of a longer retrieval ends with the new chunk's block. */
  lemma BlockListAppend(chunks: seq<Hit>, formatScore: real -> string)
    requires chunks != []
    ensures var n := |chunks|;
      BlockList(chunks, formatScore) == BlockList(chunks[..n - 1], formatScore) + [Block(n, chunks[n - 1], formatScore)]
  {
  }

  // ---------------------------------------------------------------------------
  // The retriever
  // ---------------------------------------------------------------------------

  /** `RAGRetriever`: the chunk store and the oracles it consults. */
  class SchemaRetriever {
    /** The stored chunks, by id (the ChromaDB collection). */
    var collection: map<string, Chunk>
    /** The largest distance a retrieved chunk may have. */
    const threshold: real
    const embed: Embedder
    const nearest: Nearest
    /** `f"{score:.3f}"`. */
    const formatScore: real -> string

    /** A retriever over an existing store. */
    constructor (threshold: real, embed: Embedder, nearest: Nearest, formatScore: real -> string, stored: map<string, Chunk>)
      ensures this.threshold == threshold && this.embed == embed && this.nearest == nearest
      ensures this.formatScore == formatScore && collection == stored
    {
      this.threshold := threshold;
      this.embed := embed;
      this.nearest := nearest;
      this.formatScore := formatScore;
      collection := stored;
    }

    /** `retrieve_chunks`: nothing when the query cannot be embedded, otherwise
        the search's pairs within the threshold; a failing search raises. */
    function RetrieveChunks(query: string, k: int): (r: Raise<seq<Hit>>)
      reads this
      ensures GetEmbedding(embed, query) == [] ==> r == Ok([])
      ensures r.Ok? ==> forall i :: 0 <= i < |r.value| ==> r.value[i].score <= threshold
      ensures var e := GetEmbedding(embed, query);
        r.Ok? && e != [] ==> nearest(collection, e, k).Ok? && |r.value| <= |nearest(collection, e, k).value|
    {
      var e := GetEmbedding(embed, query);
      if e == [] then Ok([])
      else
        match nearest(collection, e, k)
        case Raised(message) => Raised(message)
        case Ok(hits) => Ok(WithinThreshold(hits, threshold))
    }

    /** `get_schema_context`, as a function of the store. */
    function SchemaContextFor(query: string, k: int): (r: Raise<string>)
      reads this
      ensures r.Raised? <==> RetrieveChunks(query, k).Raised?
      ensures r.Ok? ==> r.value != []
      ensures r == Ok(NoSchemaFound) <==> RetrieveChunks(query, k) == Ok([])
      ensures RetrieveChunks(query, k).Ok? ==> r == Ok(SchemaContext(RetrieveChunks(query, k).value, formatScore))
    {
      match RetrieveChunks(query, k)
      case Raised(message) => Raised(message)
      case Ok(chunks) =>
        SchemaContextSentinel(chunks, formatScore);
        Ok(SchemaContext(chunks, formatScore))
    }

    /** Lines 231-251: retrieval, then the context built block by block. */
    method GetSchemaContext(query: string, k: int) returns (context: Raise<string>)
      ensures context == SchemaContextFor(query, k)
    {
      var retrieved := RetrieveChunks(query, k);
      if retrieved.Raised? {
        return Raised(retrieved.message);
      }
      var chunks := retrieved.value;
      if chunks == [] {
        return Ok(NoSchemaFound);
      }
      var text := ContextHeader;
      var i := 0;
      while i < |chunks|
        invariant 0 <= i <= |chunks|
        invariant text == ContextHeader + Blocks(chunks[..i], formatScore)
      {
        var block := Block(i + 1, chunks[i], formatScore);
        BlocksAppend(chunks, i, formatScore);
        ConcatAssoc(ContextHeader, Blocks(chunks[..i], formatScore), block);
        text := text + block;
        i := i + 1;
      }
      assert chunks[..i] == chunks;
      context := Ok(text);
    }

    /** Lines 143-164: with a vector for the content, the id maps to the
        content, its vector and its table metadata; without one nothing
        changes. No other id changes either way. */
    method UpdateSchemaChunk(chunkId: string, content: string)
      modifies this
      ensures var e := GetEmbedding(embed, content);
        collection == if e == [] then old(collection)
                      else old(collection)[chunkId := Chunk(content, e, TableMetadata(chunkId))]
      ensures forall id :: id != chunkId ==>
        (id in collection <==> id in old(collection)) && (id in collection ==> collection[id] == old(collection)[id])
    {
      var embedding := GetEmbedding(embed, content);
      if embedding != [] {
        collection := collection[chunkId := Chunk(content, embedding, TableMetadata(chunkId))];
      }
    }

    /** Lines 166-177: the id is gone and every other entry stays; a failure
        of the store (`storeFailed`) is logged and leaves it as it was. */
    method DeleteSchemaChunk(chunkId: string, storeFailed: bool)
      modifies this
      ensures collection == if storeFailed then old(collection) else old(collection) - {chunkId}
      ensures !storeFailed ==> chunkId !in collection
      ensures forall id :: id != chunkId && id in old(collection) ==> id in collection && collection[id] == old(collection)[id]
    {
      if !storeFailed {
        collection := collection - {chunkId};
      }
    }

    /** Lines 179-191: every stored id once, in the store's own order, or
        nothing when the store fails. */
    method ListStoredChunks(storeFailed: bool) returns (ids: seq<string>)
      ensures storeFailed ==> ids == []
      ensures !storeFailed ==>
        && |ids| == |collection|
        && (forall id :: id in ids <==> id in collection)
        && (forall i, j :: 0 <= i < j < |ids| ==> ids[i] != ids[j])
    {
      if storeFailed {
        return [];
      }
      // The store hands out its ids in an order of its own: take them one at a time.
      ids := [];
      var remaining := collection.Keys;
      while remaining != {}
        invariant remaining <= collection.Keys
        invariant forall id :: id in ids <==> id in collection && id !in remaining
        invariant forall i, j :: 0 <= i < j < |ids| ==> ids[i] != ids[j]
        invariant |ids| + |remaining| == |collection|
        decreases |remaining|
      {
        var id :| id in remaining;
        ids := ids + [id];
        remaining := remaining - {id};
      }
    }

    /** Lines 193-201: the collection is dropped and recreated empty; a failure
        of the store leaves it as it was. */
    method ClearCollection(storeFailed: bool)
      modifies this
      ensures collection == if storeFailed then old(collection) else map[]
    {
      if !storeFailed {
        collection := map[];
      }
    }

    /** Lines 63-141: each seed chunk whose content gets a vector is added to
        the (new or empty) collection with its table metadata; the others are
        skipped, and when none gets one nothing is added. */
    method PopulateCollection(seeds: seq<SeedChunk>)
      requires collection == map[]
      requires forall i, j :: 0 <= i < j < |seeds| ==> seeds[i].id != seeds[j].id
      modifies this
      ensures collection == Seeded(embed, seeds)
    {
      var documents: seq<string> := [];
      var embeddings: seq<Embedding> := [];
      var ids: seq<string> := [];
      var metadatas: seq<map<string, string>> := [];
      var n := 0;
      while n < |seeds|
        invariant 0 <= n <= |seeds|
        invariant collection == map[]
        invariant |documents| == |embeddings| == |ids| == |metadatas|
        invariant Added(map[], ids, documents, embeddings, metadatas) == Seeded(embed, seeds[..n])
      {
        assert seeds[..n + 1][..n] == seeds[..n];
        var chunk := seeds[n];
        var embedding := GetEmbedding(embed, chunk.content);
        if embedding != [] {
          AddedAppend(ids, documents, embeddings, metadatas, chunk.id, chunk.content, embedding, TableMetadata(chunk.id));
          documents := documents + [chunk.content];
          embeddings := embeddings + [embedding];
          ids := ids + [chunk.id];
          metadatas := metadatas + [TableMetadata(chunk.id)];
        }
        n := n + 1;
      }
      assert seeds[..n] == seeds;
      if documents != [] {
        collection := Added(collection, ids, documents, embeddings, metadatas);
      }
    }
  }

  /** Lines 214-229: when the query has a vector and the search answers, the
      retrieved pairs are exactly the search's pairs within the threshold. */
  lemma RetrievalKeepsCloseHits(retriever: SchemaRetriever, query: string, k: int)
    requires GetEmbedding(retriever.embed, query) != []
    requires retriever.nearest(retriever.collection, GetEmbedding(retriever.embed, query), k).Ok?
    ensures var hits := retriever.nearest(retriever.collection, GetEmbedding(retriever.embed, query), k).value;
      && retriever.RetrieveChunks(query, k).Ok?
      && (forall h :: h in retriever.RetrieveChunks(query, k).value <==> h in hits && h.score <= retriever.threshold)
  {
    var hits := retriever.nearest(retriever.collection, GetEmbedding(retriever.embed, query), k).value;
    WithinThresholdKeepsAll(hits, retriever.threshold);
  }

  /** Lines 218-229: a search that reports at most `k` pairs (as `n_results`
      asks of it) bounds the retrieval by `k` as well. */
  lemma RetrievalAtMostK(retriever: SchemaRetriever, query: string, k: int)
    requires 0 <= k
    requires var e := GetEmbedding(retriever.embed, query);
      e != [] && retriever.nearest(retriever.collection, e, k).Ok? ==> |retriever.nearest(retriever.collection, e, k).value| <= k
    ensures retriever.RetrieveChunks(query, k).Ok? ==> |retriever.RetrieveChunks(query, k).value| <= k
  {
  }

  /** `collection.add` of four parallel lists: each id maps to its document,
      vector and metadata. */
  function Added(store: map<string, Chunk>, ids: seq<string>, documents: seq<string>,
                 embeddings: seq<Embedding>, metadatas: seq<map<string, string>>): map<string, Chunk>
    requires |documents| == |embeddings| == |ids| == |metadatas|
  {
    if ids == [] then store
    else
      var n := |ids| - 1;
      Added(store, ids[..n], documents[..n], embeddings[..n], metadatas[..n])[ids[n] := Chunk(documents[n], embeddings[n], metadatas[n])]
  }

  /** Adding one more entry to the lists adds it to the store. */
  lemma AddedAppend(ids: seq<string>, documents: seq<string>, embeddings: seq<Embedding>,
                    metadatas: seq<map<string, string>>, id: string, document: string,
                    embedding: Embedding, metadata: map<string, string>)
    requires |documents| == |embeddings| == |ids| == |metadatas|
    ensures Added(map[], ids + [id], documents + [document], embeddings + [embedding], metadatas + [metadata])
      == Added(map[], ids, documents, embeddings, metadatas)[id := Chunk(document, embedding, metadata)]
  {
    assert (ids + [id])[..|ids|] == ids;
    assert (documents + [document])[..|ids|] == documents;
    assert (embeddings + [embedding])[..|ids|] == embeddings;
    assert (metadatas + [metadata])[..|ids|] == metadatas;
  }

  /** What `_populate_collection` leaves in an empty store: the seed chunks
      with a vector, each under its id. */
  function Seeded(embed: Embedder, seeds: seq<SeedChunk>): (stored: map<string, Chunk>)
    ensures forall id :: id in stored ==> stored[id].embedding != [] && stored[id].metadata == TableMetadata(id)
    ensures stored.Keys <= set i | 0 <= i < |seeds| :: seeds[i].id
  {
    if seeds == [] then map[]
    else
      var stored := Seeded(embed, seeds[..|seeds| - 1]);
      var last := seeds[|seeds| - 1];
      var e := GetEmbedding(embed, last.content);
      if e != [] then stored[last.id := Chunk(last.content, e, TableMetadata(last.id))] else stored
  }

  /** The populated store holds exactly the seed chunks whose content got a
      vector, each with its content, that vector and its table as metadata. */
  lemma SeededExactly(embed: Embedder, seeds: seq<SeedChunk>)
    requires forall i, j :: 0 <= i < j < |seeds| ==> seeds[i].id != seeds[j].id
    ensures forall id :: id in Seeded(embed, seeds) <==>
      exists i :: 0 <= i < |seeds| && seeds[i].id == id && GetEmbedding(embed, seeds[i].content) != []
    ensures forall i :: 0 <= i < |seeds| && GetEmbedding(embed, seeds[i].content) != [] ==>
      seeds[i].id in Seeded(embed, seeds) &&
      Seeded(embed, seeds)[seeds[i].id] == Chunk(seeds[i].content, GetEmbedding(embed, seeds[i].content), TableMetadata(seeds[i].id))
  {
    SeededFromSeeds(embed, seeds);
    SeededStoresEach(embed, seeds);
  }

  /** Every id in the populated store is that of a seed chunk that got a vector. */
  lemma {:induction false} SeededFromSeeds(embed: Embedder, seeds: seq<SeedChunk>)
    ensures forall id :: id in Seeded(embed, seeds) ==>
      exists i :: 0 <= i < |seeds| && seeds[i].id == id && GetEmbedding(embed, seeds[i].content) != []
  {
    if seeds != [] {
      var n := |seeds| - 1;
      var front := seeds[..n];
      var stored := Seeded(embed, front);
      SeededFromSeeds(embed, front);
      forall id | id in Seeded(embed, seeds)
        ensures exists i :: 0 <= i < |seeds| && seeds[i].id == id && GetEmbedding(embed, seeds[i].content) != []
      {
        if id in stored {
          var i :| 0 <= i < |front| && front[i].id == id && GetEmbedding(embed, front[i].content) != [];
          assert seeds[i] == front[i];
        } else {
          assert seeds[n].id == id;
        }
      }
    }
  }

  /** Every seed chunk that got a vector is stored under its id, with its
      content, that vector and its table; later seeds never reuse the id. */
  lemma {:induction false} SeededStoresEach(embed: Embedder, seeds: seq<SeedChunk>)
    requires forall i, j :: 0 <= i < j < |seeds| ==> seeds[i].id != seeds[j].id
    ensures forall i :: 0 <= i < |seeds| && GetEmbedding(embed, seeds[i].content) != [] ==>
      seeds[i].id in Seeded(embed, seeds) &&
      Seeded(embed, seeds)[seeds[i].id] == Chunk(seeds[i].content, GetEmbedding(embed, seeds[i].content), TableMetadata(seeds[i].id))
  {
    if seeds != [] {
      var n := |seeds| - 1;
      var front := seeds[..n];
      var whole := Seeded(embed, seeds);
      assert forall i :: 0 <= i < n ==> front[i] == seeds[i];
      SeededStoresEach(embed, front);
      forall i | 0 <= i < |seeds| && GetEmbedding(embed, seeds[i].content) != []
        ensures seeds[i].id in whole &&
          whole[seeds[i].id] == Chunk(seeds[i].content, GetEmbedding(embed, seeds[i].content), TableMetadata(seeds[i].id))
      {
        if i < n {
          assert front[i] == seeds[i];
          assert seeds[i].id != seeds[n].id;
        }
      }
    }
  }
}
