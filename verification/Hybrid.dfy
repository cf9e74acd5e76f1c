/** The hybrid retriever and what its date filter guarantees (assistant/retrieval.py). */
module Hybrid {
  import opened Bm25
  import opened Bm25Model
  import opened Chunking
  import opened Enumeration
  import opened Fusion
  import opened FusionLaws
  import opened Registry
  import opened Sorting
  import opened Strings
  import opened Wrappers

  const RRF_K := 60

  datatype VectorHit = VectorHit(chunkId: string, score: real)

  type Vector = seq<real>

  type Encoder = seq<string> -> seq<Vector>

  /** A vector store: what was upserted, and a nearest-neighbour search over it that may answer anything. */
  class VectorStore {
    const nearest: (map<string, Vector>, Vector, int) -> seq<VectorHit>
    var vectors: map<string, Vector>

    constructor (nearest: (map<string, Vector>, Vector, int) -> seq<VectorHit>)
      ensures vectors == map[] && this.nearest == nearest
    {
      this.nearest := nearest;
      vectors := map[];
    }

    method Upsert(chunkId: string, vector: Vector)
      modifies this
      ensures vectors == old(vectors)[chunkId := vector]
    {
      vectors := vectors[chunkId := vector];
    }
  }

  /** The dense leg: nothing bound, or an embedding model and a store. */
  datatype Dense = Unbound | Bound(encode: Encoder, store: VectorStore)

  type Reranker = (string, seq<string>) -> seq<real>

  datatype RetrievalResult = RetrievalResult(hits: seq<ScoredChunk>, asOf: Date, legsUsed: set<string>, reranked: bool, degraded: bool)

  // ---------------------------------------------------------------------- embedding

  function Passages(chunks: seq<Chunk>): (r: seq<string>)
    ensures |r| == |chunks| && forall i :: 0 <= i < |r| ==> r[i] == chunks[i].text
  {
    seq(|chunks|, i requires 0 <= i < |chunks| => chunks[i].text)
  }

  /** The store after the first n pairs of chunks and vectors. */
  function Upserted(vectors: map<string, Vector>, added: seq<Chunk>, encoded: seq<Vector>, n: nat): map<string, Vector>
    requires n <= |added| && n <= |encoded|
  {
    if n == 0 then vectors else Upserted(vectors, added, encoded, n - 1)[added[n - 1].chunkId := encoded[n - 1]]
  }

  /** `DenseRetriever.index`: the pairs up to the shorter list are upserted before a mismatch is refused. */
  method IndexDense(encode: Encoder, store: VectorStore, added: seq<Chunk>) returns (r: Result<nat, RetrievalError>)
    modifies store
    ensures var encoded := encode(Passages(added));
            && r == (if |encoded| == |added| then Ok(|added|) else Err(Misembedded))
            && store.vectors == Upserted(old(store.vectors), added, encoded, Least(|added|, |encoded|))
  {
    var encoded := encode(Passages(added));
    var n := Least(|added|, |encoded|);
    for i := 0 to n
      invariant store.vectors == Upserted(old(store.vectors), added, encoded, i)
    {
      store.Upsert(added[i].chunkId, encoded[i]);
    }
    r := if |encoded| == |added| then Ok(|added|) else Err(Misembedded);
  }

  /** The model embeds each text on its own. */
  ghost predicate EmbedsEach(encode: Encoder, embed: string -> Vector) {
    forall texts :: |encode(texts)| == |texts| && forall i :: 0 <= i < |texts| ==> encode(texts)[i] == embed(texts[i])
  }

  /** The store holds the embedding of every chunk's text, and nothing else. */
  ghost predicate Embedded(vectors: map<string, Vector>, chunks: Corpus, embed: string -> Vector) {
    vectors.Keys == chunks.Keys && forall id :: id in chunks ==> vectors[id] == embed(chunks[id].text)
  }

  /** Indexing keeps the store in step with the chunks, whatever ids the batch repeats or replaces. */
  lemma {:induction false} UpsertsKeepStep(vectors: map<string, Vector>, chunks: Corpus, added: seq<Chunk>, encode: Encoder, embed: string -> Vector, n: nat)
    requires EmbedsEach(encode, embed) && Embedded(vectors, chunks, embed) && n <= |added|
    ensures |encode(Passages(added))| == |added|
    ensures Embedded(Upserted(vectors, added, encode(Passages(added)), n), Replayed(chunks, added[..n]), embed)
  {
    assert |encode(Passages(added))| == |Passages(added)|;
    if n > 0 {
      UpsertsKeepStep(vectors, chunks, added, encode, embed, n - 1);
      assert added[..n][..n - 1] == added[..n - 1];
      assert encode(Passages(added))[n - 1] == embed(Passages(added)[n - 1]);
    }
  }

  /** The store's answers that name an eligible chunk, each with its place in the store's list. */
  function DenseHits(answers: seq<VectorHit>, eligible: Corpus): seq<ScoredChunk> {
    if answers == [] then []
    else
      var n := |answers| - 1;
      var front, answer := DenseHits(answers[..n], eligible), answers[n];
      if answer.chunkId in eligible then front + [ScoredChunk(eligible[answer.chunkId], answer.score, {"dense"}, n + 1)] else front
  }

  method SearchDense(answers: seq<VectorHit>, eligible: Corpus) returns (out: seq<ScoredChunk>)
    ensures out == DenseHits(answers, eligible)
  {
    out := [];
    for i := 0 to |answers|
      invariant out == DenseHits(answers[..i], eligible)
    {
      assert answers[..i + 1][..i] == answers[..i];
      if answers[i].chunkId !in eligible {
        continue;
      }
      out := out + [ScoredChunk(eligible[answers[i].chunkId], answers[i].score, {"dense"}, i + 1)];
    }
    assert answers[..|answers|] == answers;
  }

  function Eligible(chunks: Corpus, narrowing: Narrowing): Corpus {
    map id | id in chunks && narrowing.Passes(chunks[id]) :: chunks[id]
  }

  // ---------------------------------------------------------------------- reranking

  datatype Judged = Judged(hit: ScoredChunk, score: real)

  predicate JudgedAhead(a: Judged, b: Judged) {
    Ahead(Scored(a.score, a.hit.chunk.chunkId), Scored(b.score, b.hit.chunk.chunkId))
  }

  function Zip(hits: seq<ScoredChunk>, scores: seq<real>): (r: seq<Judged>)
    requires |hits| == |scores|
    ensures |r| == |hits| && forall i :: 0 <= i < |r| ==> r[i] == Judged(hits[i], scores[i])
  {
    seq(|hits|, i requires 0 <= i < |hits| => Judged(hits[i], scores[i]))
  }

  /** The judged hits in score order, renumbered. */
  function Renumbered(order: seq<Judged>): (r: seq<ScoredChunk>)
    ensures |r| == |order|
    ensures forall i :: 0 <= i < |r| ==> r[i] == ScoredChunk(order[i].hit.chunk, order[i].score, order[i].hit.legs, i + 1)
  {
    seq(|order|, i requires 0 <= i < |order| => ScoredChunk(order[i].hit.chunk, order[i].score, order[i].hit.legs, i + 1))
  }

  function Reranked(hits: seq<ScoredChunk>, scores: seq<real>): seq<ScoredChunk>
    requires |hits| == |scores|
  {
    Renumbered(Sort(Zip(hits, scores), JudgedAhead))
  }

  lemma JudgedOrder()
    ensures TotalPreorder(JudgedAhead)
  {
    AheadOrder();
    hide Ahead;
  }

  /** The hit is one of these, under its new score. */
  ghost predicate CameFrom(hit: ScoredChunk, hits: seq<ScoredChunk>, scores: seq<real>)
    requires |hits| == |scores|
  {
    exists j :: 0 <= j < |hits| && hit.chunk == hits[j].chunk && hit.legs == hits[j].legs && hit.score == scores[j]
  }

  /** Reranking reorders: every reranked hit was a fused hit, and no id is repeated. */
  lemma RerankedHits(hits: seq<ScoredChunk>, scores: seq<real>)
    requires |hits| == |scores| && DuplicateFree(hits)
    ensures var r := Reranked(hits, scores);
            && |r| == |hits| && DuplicateFree(r)
            && (forall i :: 0 <= i < |r| ==> CameFrom(r[i], hits, scores))
            && RankedByScore(r)
  {
    hide StringLe, Sort;
    var zipped := Zip(hits, scores);
    var order := Sort(zipped, JudgedAhead);
    JudgedOrder();
    SortSorted(zipped, JudgedAhead);
    ZippedDistinct(hits, scores);
    SortDistinct(zipped, JudgedAhead);
    forall i | 0 <= i < |order|
      ensures exists j :: 0 <= j < |hits| && order[i] == zipped[j]
    {
      SortMembers(zipped, JudgedAhead, order[i]);
      var j :| 0 <= j < |zipped| && zipped[j] == order[i];
    }
    var r := Reranked(hits, scores);
    forall i | 0 <= i < |r|
      ensures CameFrom(r[i], hits, scores)
    {
      var j :| 0 <= j < |hits| && order[i] == zipped[j];
      assert r[i].chunk == hits[j].chunk && r[i].legs == hits[j].legs && r[i].score == scores[j];
    }
    forall i, j | 0 <= i < j < |r|
      ensures r[i].chunk.chunkId != r[j].chunk.chunkId
    {
      var a :| 0 <= a < |hits| && order[i] == zipped[a];
      var b :| 0 <= b < |hits| && order[j] == zipped[b];
      assert order[i] != order[j] && a != b;
    }
    forall i, j | 0 <= i < j < |r|
      ensures r[i].score >= r[j].score && (r[i].score == r[j].score ==> StringLe(r[i].chunk.chunkId, r[j].chunk.chunkId))
    {
      assert JudgedAhead(order[i], order[j]);
    }
  }

  lemma ZippedDistinct(hits: seq<ScoredChunk>, scores: seq<real>)
    requires |hits| == |scores| && DuplicateFree(hits)
    ensures Distinct(Zip(hits, scores))
  {
  }

  // --------------------------------------------------------------------- retrieval

  /** The rankings that are fused: the first `depth` of the lexical one, and the dense one if bound. */
  function LegsFor(lexical: seq<ScoredChunk>, answers: Option<seq<VectorHit>>, eligible: Corpus): seq<Leg> {
    if answers.None? then [Leg("bm25", lexical)] else [Leg("bm25", lexical), Leg("dense", DenseHits(answers.value, eligible))]
  }

  /** A hit comes from one of the two chunk maps and passes the filters. */
  ghost predicate Admissible(hit: ScoredChunk, narrowing: Narrowing, lexical: Corpus, chunks: Corpus) {
    var id := hit.chunk.chunkId;
    && narrowing.Passes(hit.chunk)
    && ((id in lexical && lexical[id] == hit.chunk) || (id in chunks && chunks[id] == hit.chunk))
  }

  ghost predicate AllAdmissible(hits: seq<ScoredChunk>, narrowing: Narrowing, lexical: Corpus, chunks: Corpus) {
    forall i :: 0 <= i < |hits| ==> Admissible(hits[i], narrowing, lexical, chunks)
  }

  lemma LexicalAdmissible(full: seq<Scored>, k: nat, s: Scoring, lexical: Corpus, terms: seq<string>, narrowing: Narrowing, chunks: Corpus)
    requires s.Sound() && ById(lexical) && IsRanking(full, s, lexical, terms, narrowing)
    requires forall i :: 0 <= i < |full| ==> full[i].id in lexical
    ensures AllAdmissible(TopHits(full, k, lexical, "bm25"), narrowing, lexical, chunks)
  {
    hide SharesTerm, ScoreOf, Narrowing.Passes, Ahead;
    forall i | 0 <= i < |full|
      ensures Matches(s, lexical, terms, narrowing, full[i].id)
    {
      assert full[i] in full;
    }
  }

  lemma {:induction false} DenseAdmissible(answers: seq<VectorHit>, chunks: Corpus, narrowing: Narrowing, lexical: Corpus)
    requires ById(chunks)
    ensures AllAdmissible(DenseHits(answers, Eligible(chunks, narrowing)), narrowing, lexical, chunks)
  {
    hide Narrowing.Passes;
    if answers != [] {
      DenseAdmissible(answers[..|answers| - 1], chunks, narrowing, lexical);
    }
  }

  lemma FusedAdmissible(full: seq<Scored>, k: nat, legs: seq<Leg>, narrowing: Narrowing, lexical: Corpus, chunks: Corpus)
    requires forall i :: 0 <= i < |full| ==> InLegs(legs, full[i].id)
    requires forall i :: 0 <= i < |legs| ==> AllAdmissible(legs[i].hits, narrowing, lexical, chunks)
    ensures AllAdmissible(FusedHits(full, k, legs), narrowing, lexical, chunks)
  {
    hide Narrowing.Passes, InLegs, FirstChunk, LegsWith;
    var r := FusedHits(full, k, legs);
    forall i | 0 <= i < |r|
      ensures Admissible(r[i], narrowing, lexical, chunks)
    {
      var leg, p := FirstChunkAt(legs, full[i].id);
      assert Admissible(legs[leg].hits[p], narrowing, lexical, chunks);
    }
  }

  lemma RerankedAdmissible(hits: seq<ScoredChunk>, scores: seq<real>, narrowing: Narrowing, lexical: Corpus, chunks: Corpus)
    requires |hits| == |scores| && DuplicateFree(hits) && AllAdmissible(hits, narrowing, lexical, chunks)
    ensures AllAdmissible(Reranked(hits, scores), narrowing, lexical, chunks)
  {
    hide Narrowing.Passes, Reranked;
    RerankedHits(hits, scores);
    var r := Reranked(hits, scores);
    forall i | 0 <= i < |r|
      ensures Admissible(r[i], narrowing, lexical, chunks)
    {
      assert CameFrom(r[i], hits, scores);
      var j :| 0 <= j < |hits| && r[i].chunk == hits[j].chunk && r[i].legs == hits[j].legs && r[i].score == scores[j];
      assert Admissible(hits[j], narrowing, lexical, chunks);
    }
  }

  // ------------------------------------------------------------------ nothing is lost

  /** The chunk under this id is in force on the day and inside the optional filters. */
  ghost predicate InScope(chunks: Corpus, id: string, asOf: Date, product: Option<string>, language: Option<string>) {
    && id in chunks
    && chunks[id].effectiveFrom.Some? && chunks[id].effectiveFrom.value <= asOf
    && (chunks[id].effectiveTo.Some? ==> asOf <= chunks[id].effectiveTo.value)
    && (product.Some? ==> product.value in chunks[id].productTags)
    && (language.Some? ==> chunks[id].language == language.value)
  }

  lemma ScopeIsEligible(chunks: Corpus, id: string, asOf: Date, product: Option<string>, language: Option<string>)
    ensures InScope(chunks, id, asOf, product, language) <==> id in Eligible(chunks, Narrowing(Some(asOf), product, language))
    ensures InScope(chunks, id, asOf, product, language) ==>
      id in chunks && Eligible(chunks, Narrowing(Some(asOf), product, language))[id] == chunks[id]
  {
  }

  lemma {:induction false} DenseKeeps(answers: seq<VectorHit>, eligible: Corpus, p: nat) returns (q: nat)
    requires p < |answers| && answers[p].chunkId in eligible
    ensures q < |DenseHits(answers, eligible)|
    ensures DenseHits(answers, eligible)[q] == ScoredChunk(eligible[answers[p].chunkId], answers[p].score, {"dense"}, p + 1)
  {
    var n := |answers| - 1;
    if p < n {
      q := DenseKeeps(answers[..n], eligible, p);
    } else {
      q := |DenseHits(answers[..n], eligible)|;
    }
  }

  /** The id is somewhere in the fused order. */
  ghost predicate Fused(full: seq<Scored>, id: string) {
    exists i :: 0 <= i < |full| && full[i].id == id
  }

  ghost predicate Hit(hits: seq<ScoredChunk>, id: string) {
    exists i :: 0 <= i < |hits| && IsHit(hits[i], id)
  }

  lemma LegIsFused(full: seq<Scored>, legs: seq<Leg>, rrfK: int, leg: nat, q: nat)
    requires rrfK > 0 && IsFusion(full, legs, rrfK) && leg < |legs| && q < |legs[leg].hits|
    ensures Fused(full, legs[leg].hits[q].chunk.chunkId)
  {
    hide Rrf, Ahead;
    var id := legs[leg].hits[q].chunk.chunkId;
    assert IsHit(legs[leg].hits[q], id);
    assert InLeg(legs[leg].hits, id);
    assert Scored(Rrf(legs, id, rrfK), id) in full;
  }

  /** When everything fused fits, every fused id is among the fused hits. */
  lemma AllFusedAreHits(full: seq<Scored>, k: nat, legs: seq<Leg>, id: string)
    requires |full| <= k && Fused(full, id) && forall i :: 0 <= i < |full| ==> InLegs(legs, full[i].id)
    ensures Hit(FusedHits(full, k, legs), id)
  {
    hide InLegs, FirstChunk, LegsWith;
    var i :| 0 <= i < |full| && full[i].id == id;
    var leg, p := FirstChunkAt(legs, id);
    assert IsHit(FusedHits(full, k, legs)[i], id);
  }

  lemma RerankedKeeps(hits: seq<ScoredChunk>, scores: seq<real>, id: string)
    requires |hits| == |scores| && Hit(hits, id)
    ensures Hit(Reranked(hits, scores), id)
  {
    hide Sort;
    var j :| 0 <= j < |hits| && IsHit(hits[j], id);
    var zipped := Zip(hits, scores);
    var order := Sort(zipped, JudgedAhead);
    assert zipped[j] in zipped;
    SortMembers(zipped, JudgedAhead, zipped[j]);
    var i :| 0 <= i < |order| && order[i] == zipped[j];
    assert IsHit(Reranked(hits, scores)[i], id);
  }

  /** Every hit names the legs that found it, at least one, and only legs from `used`. */
  ghost predicate FoundBy(hits: seq<ScoredChunk>, used: set<string>) {
    forall i :: 0 <= i < |hits| ==> hits[i].legs != {} && hits[i].legs <= used
  }

  lemma LegsWithin(legs: seq<Leg>, id: string, used: set<string>)
    requires forall i :: 0 <= i < |legs| ==> legs[i].name in used
    ensures LegsWith(legs, id) <= used
    ensures InLegs(legs, id) ==> LegsWith(legs, id) != {}
  {
    if i :| 0 <= i < |legs| && InLeg(legs[i].hits, id) {
      assert legs[i].name in LegsWith(legs, id);
    }
  }

  lemma FusedFoundBy(full: seq<Scored>, k: nat, legs: seq<Leg>, used: set<string>)
    requires forall i :: 0 <= i < |full| ==> InLegs(legs, full[i].id)
    requires forall i :: 0 <= i < |legs| ==> legs[i].name in used
    ensures FoundBy(FusedHits(full, k, legs), used)
  {
    hide InLegs, FirstChunk, LegsWith;
    forall i | 0 <= i < |full|
      ensures LegsWith(legs, full[i].id) <= used && LegsWith(legs, full[i].id) != {}
    {
      LegsWithin(legs, full[i].id, used);
    }
  }

  lemma RerankedFoundBy(hits: seq<ScoredChunk>, scores: seq<real>, used: set<string>)
    requires |hits| == |scores| && FoundBy(hits, used)
    ensures FoundBy(Reranked(hits, scores), used)
  {
    hide Sort;
    var zipped := Zip(hits, scores);
    var order := Sort(zipped, JudgedAhead);
    forall i | 0 <= i < |order|
      ensures order[i].hit.legs != {} && order[i].hit.legs <= used
    {
      SortMembers(zipped, JudgedAhead, order[i]);
      var j :| 0 <= j < |zipped| && zipped[j] == order[i];
    }
  }

  /** The lexical leg's hits are fused, and served when everything fits. */
  lemma LegsServed(full: seq<Scored>, k: nat, legs: seq<Leg>, ranking: seq<Scored>, depth: nat, lexical: Corpus)
    requires IsFusion(full, legs, RRF_K) && legs != [] && ById(lexical)
    requires forall i :: 0 <= i < |ranking| ==> ranking[i].id in lexical
    requires legs[0].hits == TopHits(ranking, depth, lexical, "bm25")
    requires forall i :: 0 <= i < |full| ==> InLegs(legs, full[i].id)
    ensures forall i :: 0 <= i < |ranking| && i < depth ==>
              Fused(full, ranking[i].id) && (|full| <= k ==> Hit(FusedHits(full, k, legs), ranking[i].id))
  {
    hide IsFusion, InLegs, Fused, Hit;
    forall i | 0 <= i < |ranking| && i < depth
      ensures Fused(full, ranking[i].id) && (|full| <= k ==> Hit(FusedHits(full, k, legs), ranking[i].id))
    {
      LegIsFused(full, legs, RRF_K, 0, i);
      if |full| <= k {
        AllFusedAreHits(full, k, legs, ranking[i].id);
      }
    }
  }

  /** So are the store's answers that are in scope. */
  lemma AnswersServed(full: seq<Scored>, k: nat, legs: seq<Leg>, answers: seq<VectorHit>, chunks: Corpus, asOf: Date, product: Option<string>, language: Option<string>)
    requires IsFusion(full, legs, RRF_K) && |legs| == 2 && ById(chunks)
    requires legs[1].hits == DenseHits(answers, Eligible(chunks, Narrowing(Some(asOf), product, language)))
    requires forall i :: 0 <= i < |full| ==> InLegs(legs, full[i].id)
    ensures forall p :: 0 <= p < |answers| && InScope(chunks, answers[p].chunkId, asOf, product, language) ==>
              Fused(full, answers[p].chunkId) && (|full| <= k ==> Hit(FusedHits(full, k, legs), answers[p].chunkId))
  {
    hide IsFusion, InLegs, Fused, Hit, InScope, Eligible, DenseHits;
    forall p | 0 <= p < |answers| && InScope(chunks, answers[p].chunkId, asOf, product, language)
      ensures Fused(full, answers[p].chunkId) && (|full| <= k ==> Hit(FusedHits(full, k, legs), answers[p].chunkId))
    {
      ScopeIsEligible(chunks, answers[p].chunkId, asOf, product, language);
      var q := DenseKeeps(answers, Eligible(chunks, Narrowing(Some(asOf), product, language)), p);
      LegIsFused(full, legs, RRF_K, 1, q);
      if |full| <= k {
        AllFusedAreHits(full, k, legs, answers[p].chunkId);
      }
    }
  }

  class HybridRetriever {
    const lexical: BM25Index
    const dense: Dense
    const reranker: Option<Reranker>
    var chunks: Corpus

    ghost predicate Valid()
      reads this, lexical
    {
      lexical.Valid() && ById(chunks)
    }

    constructor (lexical: BM25Index, dense: Dense, reranker: Option<Reranker>)
      requires lexical.Valid()
      ensures Valid() && chunks == map[] && this.lexical == lexical && this.dense == dense && this.reranker == reranker
    {
      this.lexical, this.dense, this.reranker := lexical, dense, reranker;
      chunks := map[];
    }

    ghost function Stores(): set<object> {
      if dense.Bound? then {dense.store} else {}
    }

    /** The embedding of a query; none when nothing is bound or the model answers with nothing. */
    function QueryVector(query: string): Option<Vector> {
      if dense.Bound? && dense.encode([query]) != [] then Some(dense.encode([query])[0]) else None
    }

    /** What the store answers to a query. */
    function Answers(query: string, depth: int): Option<seq<VectorHit>>
      reads Stores()
    {
      if QueryVector(query).None? then None else Some(dense.store.nearest(dense.store.vectors, QueryVector(query).value, depth))
    }

    /** The batch goes into the lexical index, the retriever's own map and the vector store; a batch that
        the embedding model answers with another number of vectors is refused after that. */
    method Index(added: seq<Chunk>) returns (r: Result<nat, RetrievalError>)
      requires Valid()
      modifies this, lexical, Stores()
      ensures Valid()
      ensures lexical.chunks == Replayed(old(lexical.chunks), added) && chunks == Replayed(old(chunks), added)
      ensures dense.Unbound? ==> r == Ok(|added|)
      ensures dense.Bound? ==>
        var encoded := dense.encode(Passages(added));
        && r == (if |encoded| == |added| then Ok(|added|) else Err(Misembedded))
        && dense.store.vectors == Upserted(old(dense.store.vectors), added, encoded, Least(|added|, |encoded|))
    {
      lexical.AddAll(added);
      for i := 0 to |added|
        invariant lexical.Valid() && lexical.chunks == Replayed(old(lexical.chunks), added)
        invariant ById(chunks) && chunks == Replayed(old(chunks), added[..i])
        invariant dense.Bound? ==> dense.store.vectors == old(dense.store.vectors)
      {
        assert added[..i + 1][..i] == added[..i];
        chunks := chunks[added[i].chunkId := added[i]];
      }
      assert added[..|added|] == added;
      r := Ok(|added|);
      if dense.Bound? {
        r := IndexDense(dense.encode, dense.store, added);
      }
    }

    /** `retrieve`: both legs, fusion, reranking. Whatever the store and the reranker answer, the hits are
        distinct, at most k, in force on the day asked about and inside the filters. */
    method Retrieve(query: string, asOf: Date, k: int, candidateK: Option<int>, product: Option<string>, language: Option<string>)
      returns (r: Result<RetrievalResult, RetrievalError>, ghost ranking: seq<Scored>, ghost full: seq<Scored>)
      requires Valid()
      ensures r.Ok? ==> k > 0 && |r.value.hits| <= k && DuplicateFree(r.value.hits)
      ensures r.Ok? ==> AllAdmissible(r.value.hits, Narrowing(Some(asOf), product, language), lexical.chunks, chunks)
      ensures r.Ok? ==> r.value.asOf == asOf && r.value.degraded == dense.Unbound?
      ensures r.Ok? ==> r.value.legsUsed == if dense.Unbound? then {"bm25"} else {"bm25", "dense"}
      ensures r.Ok? ==> FoundBy(r.value.hits, r.value.legsUsed)
      ensures var depth, narrowing := if candidateK.Some? then candidateK.value else 4 * k, Narrowing(Some(asOf), product, language);
              if k <= 0 || depth <= 0 then r == Err(BadLimit)
              else if dense.Bound? && QueryVector(query).None? then r == Err(NoEmbedding)
              else
                && IsRanking(ranking, lexical.scoring, lexical.chunks, lexical.scoring.tokenize(query), narrowing)
                && var legs := LegsFor(TopHits(ranking, depth, lexical.chunks, "bm25"), Answers(query, depth), Eligible(chunks, narrowing));
                   && IsFusion(full, legs, RRF_K)
                   && Outcome(r, FusedHits(full, k, legs), query)
      ensures r.Ok? && dense.Bound? ==>
        var depth := if candidateK.Some? then candidateK.value else 4 * k;
        var answers := dense.store.nearest(dense.store.vectors, dense.encode([query])[0], depth);
        forall p :: 0 <= p < |answers| && InScope(chunks, answers[p].chunkId, asOf, product, language) ==>
          Fused(full, answers[p].chunkId) && (|full| <= k ==> Hit(r.value.hits, answers[p].chunkId))
      ensures r.Ok? ==>
        var depth := if candidateK.Some? then candidateK.value else 4 * k;
        forall i :: 0 <= i < |ranking| && i < depth ==>
          Fused(full, ranking[i].id) && (|full| <= k ==> Hit(r.value.hits, ranking[i].id))
    {
      hide IsRanking, IsFusion, Ahead, Eligible, AllAdmissible, DuplicateFree, Scoring.Sound, Mirrors, Reranked, InLegs, InScope, Fused, Hit, FoundBy, DenseHits, FirstChunk, LegsWith, Narrowing.Passes, ById;
      ranking, full := [], [];
      if k <= 0 {
        return Err(BadLimit), ranking, full;
      }
      var depth := if candidateK.Some? then candidateK.value else 4 * k;
      var narrowing := Narrowing(Some(asOf), product, language);
      var lexicalHits := lexical.Search(query, depth, narrowing);
      if lexicalHits.Err? {
        return Err(lexicalHits.error), ranking, full;
      }
      ranking := RankingBehind(lexicalHits.value, depth, lexical.scoring, lexical.chunks, lexical.scoring.tokenize(query), narrowing);
      MirroredById(lexical.scoring, lexical.chunks, lexical.lengths, lexical.postings);
      RankedInChunks(ranking, lexical.scoring, lexical.chunks, lexical.scoring.tokenize(query), narrowing);
      LexicalAdmissible(ranking, depth, lexical.scoring, lexical.chunks, lexical.scoring.tokenize(query), narrowing, chunks);
      var rankings := [Leg("bm25", lexicalHits.value)];
      var degraded := false;
      if dense.Bound? {
        var eligible := Eligible(chunks, narrowing);
        if QueryVector(query).None? {
          return Err(NoEmbedding), ranking, full;
        }
        var answers := dense.store.nearest(dense.store.vectors, QueryVector(query).value, depth);
        var denseHits := SearchDense(answers, eligible);
        DenseAdmissible(answers, chunks, narrowing, lexical.chunks);
        rankings := rankings + [Leg("dense", denseHits)];
      } else {
        degraded := true;
      }
      assert rankings == LegsFor(TopHits(ranking, depth, lexical.chunks, "bm25"), Answers(query, depth), Eligible(chunks, narrowing));
      var fused, order := Fuse(rankings, k, RRF_K);
      full := order;
      FusedInLegs(full, rankings, RRF_K);
      FusedAdmissible(full, k, rankings, narrowing, lexical.chunks, chunks);
      FusedHitsDistinct(full, k, rankings, RRF_K);
      LegsServed(full, k, rankings, ranking, depth, lexical.chunks);
      if dense.Bound? {
        AnswersServed(full, k, rankings, dense.store.nearest(dense.store.vectors, QueryVector(query).value, depth), chunks, asOf, product, language);
      }
      ghost var used := if degraded then {"bm25"} else {"bm25", "dense"};
      FusedFoundBy(full, k, rankings, used);
      var hits, reranked := fused.value, false;
      if reranker.Some? && hits != [] {
        var scores := reranker.value(query, ChunkTexts(hits));
        if |scores| != |hits| {
          return Err(Misaligned), ranking, full;
        }
        RerankedHits(hits, scores);
        RerankedAdmissible(hits, scores, narrowing, lexical.chunks, chunks);
        RerankedFoundBy(hits, scores, used);
        forall id | Hit(hits, id)
          ensures Hit(Reranked(hits, scores), id)
        {
          RerankedKeeps(hits, scores, id);
        }
        hits, reranked := Reranked(hits, scores), true;
      }
      r := Ok(RetrievalResult(hits, asOf, if degraded then {"bm25"} else {"bm25", "dense"}, reranked, degraded));
    }

    /** What becomes of the fused hits: as they are, reranked, or refused when the reranker's scores do
        not line up. */
    ghost predicate Outcome(r: Result<RetrievalResult, RetrievalError>, fused: seq<ScoredChunk>, query: string) {
      if reranker.None? || fused == [] then r.Ok? && r.value.hits == fused && !r.value.reranked
      else
        var scores := reranker.value(query, ChunkTexts(fused));
        if |scores| != |fused| then r == Err(Misaligned)
        else r.Ok? && r.value.hits == Reranked(fused, scores) && r.value.reranked
    }
  }

  function ChunkTexts(hits: seq<ScoredChunk>): (r: seq<string>)
    ensures |r| == |hits|
    ensures forall i :: 0 <= i < |r| ==> r[i] == hits[i].chunk.text
  {
    seq(|hits|, i requires 0 <= i < |hits| => hits[i].chunk.text)
  }

  lemma RankingBehind(hits: seq<ScoredChunk>, k: nat, s: Scoring, chunks: Corpus, terms: seq<string>, narrowing: Narrowing)
    returns (full: seq<Scored>)
    requires s.Sound() && AreTopHits(hits, k, s, chunks, terms, narrowing)
    ensures IsRanking(full, s, chunks, terms, narrowing)
    ensures (forall i :: 0 <= i < |full| ==> full[i].id in chunks) && hits == TopHits(full, k, chunks, "bm25")
  {
    hide IsRanking;
    full :| IsRanking(full, s, chunks, terms, narrowing) && IsTopOf(hits, full, k, chunks);
  }

  lemma MirroredById(s: Scoring, chunks: Corpus, lengths: map<string, nat>, postings: Postings)
    requires Mirrors(s, chunks, lengths, postings)
    ensures ById(chunks)
  {
  }

  lemma FusedInLegs(full: seq<Scored>, legs: seq<Leg>, rrfK: int)
    requires rrfK > 0 && IsFusion(full, legs, rrfK)
    ensures forall i :: 0 <= i < |full| ==> InLegs(legs, full[i].id)
  {
    hide Ahead, InLegs;
    forall i | 0 <= i < |full|
      ensures InLegs(legs, full[i].id)
    {
      assert full[i] in full;
    }
  }

  lemma LexicalDuplicateFree(ranking: seq<Scored>, depth: nat, s: Scoring, lexical: Corpus, terms: seq<string>, narrowing: Narrowing)
    requires s.Sound() && ById(lexical) && IsRanking(ranking, s, lexical, terms, narrowing)
    requires forall i :: 0 <= i < |ranking| ==> ranking[i].id in lexical
    ensures DuplicateFree(TopHits(ranking, depth, lexical, "bm25"))
  {
    hide Matches, ScoreOf, Ahead;
    forall i, j | 0 <= i < j < |ranking|
      ensures ranking[i].id != ranking[j].id
    {
      assert ranking[i] in ranking && ranking[j] in ranking;
      assert ranking[i] != ranking[j];
    }
  }

  /** At every depth up to 61, so at the default of four times k for k <= 15, a store that repeats no
      chunk leaves agreement in front: whatever both legs found precedes whatever one leg found. */
  lemma AgreementLeadsRetrieval(ranking: seq<Scored>, full: seq<Scored>, depth: nat, s: Scoring, lexical: Corpus, terms: seq<string>,
                                narrowing: Narrowing, answers: seq<ScoredChunk>, i: nat, j: nat)
    requires s.Sound() && ById(lexical) && IsRanking(ranking, s, lexical, terms, narrowing)
    requires forall i :: 0 <= i < |ranking| ==> ranking[i].id in lexical
    requires depth <= RRF_K + 1 && |answers| <= depth && DuplicateFree(answers)
    requires IsFusion(full, [Leg("bm25", TopHits(ranking, depth, lexical, "bm25")), Leg("dense", answers)], RRF_K)
    requires i < |full| && j < |full|
    requires InLeg(TopHits(ranking, depth, lexical, "bm25"), full[i].id) && InLeg(answers, full[i].id)
    requires InLeg(TopHits(ranking, depth, lexical, "bm25"), full[j].id) != InLeg(answers, full[j].id)
    ensures i < j
  {
    hide InLeg, IsRanking, IsFusion, Ahead;
    LexicalDuplicateFree(ranking, depth, s, lexical, terms, narrowing);
    AgreementComesFirst(full, Leg("bm25", TopHits(ranking, depth, lexical, "bm25")), Leg("dense", answers), RRF_K, i, j);
  }
}
