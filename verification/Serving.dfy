/** From registration to retrieval: what may be served on a day (assistant/registry.py, chunking.py, retrieval.py). */
module Serving {
  import opened Bm25Model
  import opened ChunkLaws
  import opened Chunking
  import opened Hybrid
  import opened Registry
  import opened Wrappers

  /** The chunk carries the fields of the document registered under its citation key. */
  ghost predicate TracesTo(chunk: Chunk, byKey: map<string, Document>) {
    chunk.citationKey in byKey && Inherits(chunk, byKey[chunk.citationKey])
  }

  ghost predicate FromRegistered(chunks: Corpus, byKey: map<string, Document>) {
    forall id :: id in chunks ==> TracesTo(chunks[id], byKey)
  }

  /** Chunking a registered document gives chunks that trace to it. */
  lemma RegisteredChunksTrace(byKey: map<string, Document>, d: Document, minTokens: int, maxTokens: int, tools: Tools, i: nat)
    requires StandsFor(byKey, d, d) && Chunked(d, minTokens, maxTokens, tools).Ok?
    requires i < |Chunked(d, minTokens, maxTokens, tools).value|
    ensures TracesTo(Chunked(d, minTokens, maxTokens, tools).value[i], byKey)
  {
    hide Chunked, Document.CitationKey;
    ChunksInherit(d, minTokens, maxTokens, tools);
  }

  lemma {:induction false} IndexedTraces(chunks: Corpus, added: seq<Chunk>, byKey: map<string, Document>)
    requires FromRegistered(chunks, byKey) && forall i :: 0 <= i < |added| ==> TracesTo(added[i], byKey)
    ensures FromRegistered(Replayed(chunks, added), byKey)
  {
    hide TracesTo;
    if added != [] {
      IndexedTraces(chunks, added[..|added| - 1], byKey);
    }
  }

  /** Later ingestion, accepted or refused, does not cut a chunk off from its document. */
  lemma LaterIngestionKeepsTraces(chunks: Corpus, byKey: map<string, Document>, documents: seq<Document>, hash: Fingerprint -> string)
    requires FromRegistered(chunks, byKey)
    ensures FromRegistered(chunks, Batch(byKey, documents, hash).byKey)
  {
    hide Inherits, Batch;
    forall id | id in chunks
      ensures TracesTo(chunks[id], Batch(byKey, documents, hash).byKey)
    {
      KeysAreKept(byKey, documents, hash, chunks[id].citationKey);
    }
  }

  /** The chunk traces to a document of the registry's list for this query. */
  ghost predicate ServedFrom(chunk: Chunk, byKey: map<string, Document>, query: Query) {
    TracesTo(chunk, byKey) && byKey[chunk.citationKey] in InForce(byKey, query)
  }

  /** Every hit of a retrieval comes from a document in the registry's effective list for that day, with
      the product and language asked for. */
  lemma EveryHitIsInForce(hits: seq<ScoredChunk>, asOf: Date, product: Option<string>, language: Option<string>,
                          lexical: Corpus, chunks: Corpus, byKey: map<string, Document>)
    requires AllAdmissible(hits, Narrowing(Some(asOf), product, language), lexical, chunks)
    requires FromRegistered(lexical, byKey) && FromRegistered(chunks, byKey)
    ensures forall i :: 0 <= i < |hits| ==> ServedFrom(hits[i].chunk, byKey, Query(asOf, None, product, language))
  {
    forall i | 0 <= i < |hits|
      ensures ServedFrom(hits[i].chunk, byKey, Query(asOf, None, product, language))
    {
      assert Admissible(hits[i], Narrowing(Some(asOf), product, language), lexical, chunks);
      assert TracesTo(hits[i].chunk, byKey);
      HitInForce(hits[i], asOf, product, language, byKey);
    }
  }

  lemma HitInForce(hit: ScoredChunk, asOf: Date, product: Option<string>, language: Option<string>, byKey: map<string, Document>)
    requires Narrowing(Some(asOf), product, language).Passes(hit.chunk) && TracesTo(hit.chunk, byKey)
    ensures byKey[hit.chunk.citationKey] in InForce(byKey, Query(asOf, None, product, language))
  {
    var d := byKey[hit.chunk.citationKey];
    InheritedWindow(hit.chunk, d, asOf);
    assert Query(asOf, None, product, language).Admits(d);
  }

  /** The chunk was cut from a submission that the registry accepted, perhaps with tags that the
      registered document does not have. */
  ghost predicate CutFromAccepted(chunk: Chunk, byKey: map<string, Document>, submissions: set<Document>) {
    exists d :: d in submissions && Inherits(chunk, d) && HoldsContent(byKey, d)
  }

  /** Even then the date filter holds: the hit's document is in force that day. */
  lemma AcceptedHitIsInForce(hit: ScoredChunk, narrowing: Narrowing, asOf: Date, byKey: map<string, Document>, submissions: set<Document>)
    requires narrowing.asOf == Some(asOf) && narrowing.Passes(hit.chunk) && CutFromAccepted(hit.chunk, byKey, submissions)
    ensures hit.chunk.citationKey in byKey && byKey[hit.chunk.citationKey] in InForce(byKey, Query(asOf, None, None, None))
  {
    var d :| d in submissions && Inherits(hit.chunk, d) && HoldsContent(byKey, d);
    InheritedWindow(hit.chunk, d, asOf);
    var registered := byKey[hit.chunk.citationKey];
    assert registered.Content() == d.Content();
    assert registered.IsEffectiveOn(asOf);
  }

  /** ... and the product and language filters, each of them optional, agree with the registry exactly
      when the registered document has the chunk's language and every tag it was cut with. */
  lemma AcceptedHitFilters(hit: ScoredChunk, asOf: Date, byKey: map<string, Document>, submissions: set<Document>)
    requires hit.chunk.IsEffectiveOn(asOf) && CutFromAccepted(hit.chunk, byKey, submissions)
    ensures hit.chunk.citationKey in byKey
    ensures var d := byKey[hit.chunk.citationKey];
            (forall product, language :: Narrowing(Some(asOf), product, language).Passes(hit.chunk) ==> Query(asOf, None, product, language).Admits(d))
            <==> hit.chunk.language == d.language && forall tag :: tag in hit.chunk.productTags ==> tag in d.productTags
  {
    AcceptedHitIsInForce(hit, Narrowing(Some(asOf), None, None), asOf, byKey, submissions);
    var d := byKey[hit.chunk.citationKey];
    var chunk := hit.chunk;
    assert d.IsEffectiveOn(asOf);
    if forall product, language :: Narrowing(Some(asOf), product, language).Passes(chunk) ==> Query(asOf, None, product, language).Admits(d) {
      assert Narrowing(Some(asOf), None, Some(chunk.language)).Passes(chunk);
      assert Query(asOf, None, None, Some(chunk.language)).Admits(d);
      forall tag | tag in chunk.productTags
        ensures tag in d.productTags
      {
        assert Narrowing(Some(asOf), Some(tag), None).Passes(chunk);
        assert Query(asOf, None, Some(tag), None).Admits(d);
      }
    }
  }

  /** Chunks of two documents never share an id unless the documents share a citation key, so indexing
      one document does not displace another's chunks. */
  lemma CorpusIdsDiffer(a: Document, b: Document, minTokens: int, maxTokens: int, tools: Tools, i: nat, j: nat)
    requires PlainDigest(tools) && Chunked(a, minTokens, maxTokens, tools).Ok? && Chunked(b, minTokens, maxTokens, tools).Ok?
    requires i < |Chunked(a, minTokens, maxTokens, tools).value| && j < |Chunked(b, minTokens, maxTokens, tools).value|
    ensures var x, y := Chunked(a, minTokens, maxTokens, tools).value[i], Chunked(b, minTokens, maxTokens, tools).value[j];
            x.chunkId == y.chunkId ==> a.CitationKey() == b.CitationKey() && x.ordinal == y.ordinal
  {
    hide GroupsOf, BlocksOf, Kept, ChunkId, Document.CitationKey, PlainDigest;
    var x, y := Chunked(a, minTokens, maxTokens, tools).value[i], Chunked(b, minTokens, maxTokens, tools).value[j];
    if x.chunkId == y.chunkId {
      ChunkIdNamesDocument(a, b, x.ordinal, y.ordinal, x.text, y.text, tools);
    }
  }
}
