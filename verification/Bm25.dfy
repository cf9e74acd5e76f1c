/** The BM25 inverted index (assistant/retrieval.py). */
module Bm25 {
  import opened Bm25Model
  import opened Chunking
  import opened Enumeration
  import opened Sorting
  import opened Wrappers

  class BM25Index {
    const scoring: Scoring
    var chunks: Corpus
    var lengths: map<string, nat>
    var postings: Postings

    ghost predicate Valid()
      reads this
    {
      scoring.Sound() && Mirrors(scoring, chunks, lengths, postings)
    }

    constructor (scoring: Scoring)
      requires scoring.Sound()
      ensures Valid() && chunks == map[] && this.scoring == scoring
    {
      this.scoring := scoring;
      chunks, lengths, postings := map[], map[], map[];
    }

    /** `_remove`: drops the id from every posting, leaving emptied ones behind. */
    method Remove(id: string)
      requires Valid()
      modifies this
      ensures Valid() && chunks == old(chunks) - {id}
    {
      hide Mirrors, Scoring.Sound;
      ghost var before := postings;
      chunks := chunks - {id};
      lengths := lengths - {id};
      var terms := Elements(postings.Keys);
      for i := 0 to |terms|
        invariant chunks == old(chunks) - {id} && lengths == old(lengths) - {id}
        invariant postings.Keys == before.Keys
        invariant forall j :: i <= j < |terms| ==> postings[terms[j]] == before[terms[j]]
        invariant forall j :: 0 <= j < i ==> postings[terms[j]] == before[terms[j]] - {id}
      {
        postings := postings[terms[i] := postings[terms[i]] - {id}];
      }
      assert forall term :: term in postings ==> postings[term] == before[term] - {id} by {
        forall term | term in postings
          ensures postings[term] == before[term] - {id}
        {
          assert term in terms;
          var j :| 0 <= j < |terms| && terms[j] == term;
        }
      }
      RemovedMirrors(scoring, old(chunks), old(lengths), before, postings, id);
    }

    /** Indexes one chunk; a re-added id gets its postings replaced. */
    method Add(chunk: Chunk)
      requires Valid()
      modifies this
      ensures Valid() && chunks == old(chunks)[chunk.chunkId := chunk]
    {
      hide Mirrors, Scoring.Sound, Count;
      var id := chunk.chunkId;
      if id in chunks {
        Remove(id);
      }
      ghost var chunks0, lengths0, postings0 := chunks, lengths, postings;
      var terms := scoring.Terms(chunk);
      chunks := chunks[id := chunk];
      lengths := lengths[id := |terms|];
      var distinct := Elements(set term | term in terms);
      for i := 0 to |distinct|
        invariant chunks == chunks0[id := chunk] && lengths == lengths0[id := |terms|]
        invariant forall term :: Entries(postings, term) == (if term in distinct[..i] then Entries(postings0, term)[id := Count(terms, term)] else Entries(postings0, term))
      {
        var term := distinct[i];
        assert distinct[..i + 1] == distinct[..i] + [term];
        assert term !in distinct[..i];
        postings := postings[term := Entries(postings, term)[id := Count(terms, term)]];
      }
      assert distinct[..|distinct|] == distinct;
      AddedMirrors(scoring, chunks0, lengths0, postings0, postings, chunk);
      assert chunks == old(chunks)[id := chunk];
    }

    method AddAll(added: seq<Chunk>)
      requires Valid()
      modifies this
      ensures Valid() && chunks == Replayed(old(chunks), added)
    {
      for i := 0 to |added|
        invariant Valid() && chunks == Replayed(old(chunks), added[..i])
      {
        assert added[..i + 1][..i] == added[..i];
        Add(added[i]);
      }
      assert added[..|added|] == added;
    }

    method AverageLength() returns (r: real)
      requires Valid()
      ensures r == Average(BuiltLengths(scoring, chunks))
      ensures chunks == map[] ==> r == 0.0
    {
      hide Mirrors, TotalOf, Scoring.Sound, Scoring.Terms;
      MirroredLengths(scoring, chunks, lengths, postings);
      if |lengths| == 0 {
        return 0.0;
      }
      var sum := Sum(lengths);
      r := sum as real / |lengths| as real;
    }

    method Idf(term: string) returns (r: real)
      requires Valid()
      ensures |Built(scoring, chunks, term)| <= |chunks|
      ensures r == Rarity(|chunks|, |Built(scoring, chunks, term)|, scoring.log)
      ensures |Built(scoring, chunks, term)| > 0 ==> r > 0.0
    {
      hide Built;
      var n := |Entries(postings, term)|;
      assert Entries(postings, term) == Built(scoring, chunks, term);
      BuiltWithin(scoring, chunks, term);
      if n == 0 {
        return 0.0;
      }
      RarityPositive(|chunks|, n, scoring.log);
      var total := |chunks|;
      r := scoring.log(((total - n) as real + 0.5) / (n as real + 0.5) + 1.0);
    }

    /** BM25, from the postings: the sum the chunks define. */
    method Score(query: string, id: string) returns (r: Result<real, RetrievalError>)
      requires Valid()
      ensures id !in chunks ==> r == Err(NotIndexed)
      ensures id in chunks ==> r == Ok(ScoreOf(scoring, chunks, scoring.tokenize(query), id))
    {
      hide Count, Rarity, Saturation, LengthFactor, Average, Mirrors, Built, Scoring.Sound;
      if id !in chunks {
        return Err(NotIndexed);
      }
      MirroredLengths(scoring, chunks, lengths, postings);
      var length := lengths[id];
      var average := AverageLength();
      var norm := if average == 0.0 then 1.0 else average;
      var terms := scoring.tokenize(query);
      var total := 0.0;
      for i := 0 to |terms|
        invariant total == ScoreOf(scoring, chunks, terms[..i], id)
      {
        assert terms[..i + 1][..i] == terms[..i];
        var entries := Entries(postings, terms[i]);
        var freq := if id in entries then entries[id] else 0;
        MirroredCount(scoring, chunks, lengths, postings, terms[i], id);
        if freq == 0 {
          continue;
        }
        SoundConstants(scoring);
        var weight := Idf(terms[i]);
        total := total + weight * Saturation(freq, scoring.k1, LengthFactor(scoring.b, length, norm));
      }
      assert terms[..|terms|] == terms;
      r := Ok(total);
    }

    /** The ids posted under any of the terms. */
    method Candidates(terms: seq<string>) returns (candidates: set<string>)
      requires Valid()
      ensures forall id :: id in candidates <==> id in chunks && SharesTerm(terms, scoring.Terms(chunks[id]))
    {
      hide Mirrors, SharesTerm, Scoring.Sound, Scoring.Terms, Entries;
      candidates := {};
      NoTerms();
      for i := 0 to |terms|
        invariant forall id :: id in candidates <==> id in chunks && SharesTerm(terms[..i], scoring.Terms(chunks[id]))
      {
        forall id: string
          ensures id in Entries(postings, terms[i]) <==> id in chunks && terms[i] in scoring.Terms(chunks[id])
        {
          Posted(scoring, chunks, lengths, postings, terms[i], id);
        }
        forall id | id in chunks
          ensures SharesTerm(terms[..i + 1], scoring.Terms(chunks[id])) <==> SharesTerm(terms[..i], scoring.Terms(chunks[id])) || terms[i] in scoring.Terms(chunks[id])
        {
          OneMoreTerm(terms, i, scoring.Terms(chunks[id]));
        }
        candidates := candidates + Entries(postings, terms[i]).Keys;
      }
      assert terms[..|terms|] == terms;
    }

    /** The first k of the brute-force ranking. */
    method Search(query: string, k: int, narrowing: Narrowing) returns (r: Result<seq<ScoredChunk>, RetrievalError>)
      requires Valid()
      ensures k <= 0 ==> r == Err(BadLimit)
      ensures k > 0 ==> r.Ok? && AreTopHits(r.value, k, scoring, chunks, scoring.tokenize(query), narrowing)
    {
      hide Mirrors, SharesTerm, Scoring.Sound, Scoring.Terms, ScoreOf, Ahead, IsRanking, ScoredAmong, Narrowing.Passes;
      if k <= 0 {
        return Err(BadLimit);
      }
      var terms := scoring.tokenize(query);
      if terms == [] {
        EmptyRanking(scoring, chunks, narrowing);
        assert IsTopOf([], [], k, chunks);
        return Ok([]);
      }
      var candidates := Candidates(terms);
      var ids := Elements(candidates);
      var scored: seq<Scored> := [];
      NothingScored(scoring, chunks, terms, narrowing);
      for i := 0 to |ids|
        invariant ScoredAmong(scored, ids[..i], scoring, chunks, terms, narrowing)
      {
        var id := ids[i];
        assert ids[..i + 1] == ids[..i] + [id];
        assert id in ids && id !in ids[..i];
        var chunk := chunks[id];
        PassesInSteps(narrowing, chunk);
        ScoredSkips(scored, ids[..i], id, scoring, chunks, terms, narrowing);
        if narrowing.asOf.Some? && !chunk.IsEffectiveOn(narrowing.asOf.value) {
          continue;
        }
        if narrowing.product.Some? && narrowing.product.value !in chunk.productTags {
          continue;
        }
        if narrowing.language.Some? && chunk.language != narrowing.language.value {
          continue;
        }
        var value := Score(query, id);
        ScorePositive(scoring, chunks, terms, id);
        ScoredGrows(scored, ids[..i], id, scoring, chunks, terms, narrowing);
        if value.value > 0.0 {
          scored := scored + [Scored(value.value, id)];
        }
      }
      assert ids[..|ids|] == ids;
      RankingSorted(scored, ids, scoring, chunks, terms, narrowing);
      var ranked := Sort(scored, Ahead);
      RankedInChunks(ranked, scoring, chunks, terms, narrowing);
      r := Ok(TopHits(ranked, k, chunks, "bm25"));
      assert IsTopOf(r.value, ranked, k, chunks);
    }
  }

  lemma NoTerms()
    ensures forall text :: !SharesTerm([], text)
  {
  }

  lemma OneMoreTerm(terms: seq<string>, i: nat, text: seq<string>)
    requires i < |terms|
    ensures SharesTerm(terms[..i + 1], text) <==> SharesTerm(terms[..i], text) || terms[i] in text
  {
    if SharesTerm(terms[..i], text) {
      var j :| 0 <= j < i && terms[..i][j] in text;
      assert terms[..i + 1][j] in text;
    }
    if terms[i] in text {
      assert terms[..i + 1][i] in text;
    }
    if SharesTerm(terms[..i + 1], text) {
      var j :| 0 <= j < i + 1 && terms[..i + 1][j] in text;
      assert j < i ==> terms[..i][j] in text;
    }
  }

  lemma Posted(s: Scoring, chunks: Corpus, lengths: map<string, nat>, postings: Postings, term: string, id: string)
    requires Mirrors(s, chunks, lengths, postings)
    ensures id in Entries(postings, term) <==> id in chunks && term in s.Terms(chunks[id])
  {
    hide Count, Scoring.Terms;
    assert Entries(postings, term) == Built(s, chunks, term);
    if id in chunks {
      CountPositive(s.Terms(chunks[id]), term);
    }
  }

  lemma PassesInSteps(narrowing: Narrowing, chunk: Chunk)
    ensures narrowing.Passes(chunk) <==> (!(narrowing.asOf.Some? && !chunk.IsEffectiveOn(narrowing.asOf.value))
      && !(narrowing.product.Some? && narrowing.product.value !in chunk.productTags)
      && !(narrowing.language.Some? && chunk.language != narrowing.language.value))
  {
  }

  /** The matching ids of a list, scored, each once. */
  ghost predicate ScoredAmong(scored: seq<Scored>, ids: seq<string>, s: Scoring, chunks: Corpus, terms: seq<string>, narrowing: Narrowing)
    requires s.Sound()
  {
    && Distinct(scored)
    && forall x :: x in scored <==> x.id in ids && Matches(s, chunks, terms, narrowing, x.id) && x.score == ScoreOf(s, chunks, terms, x.id)
  }

  lemma NothingScored(s: Scoring, chunks: Corpus, terms: seq<string>, narrowing: Narrowing)
    requires s.Sound()
    ensures ScoredAmong([], [], s, chunks, terms, narrowing)
  {
  }

  lemma ScoredSkips(scored: seq<Scored>, ids: seq<string>, id: string, s: Scoring, chunks: Corpus, terms: seq<string>, narrowing: Narrowing)
    requires s.Sound() && ScoredAmong(scored, ids, s, chunks, terms, narrowing) && id in chunks
    ensures !narrowing.Passes(chunks[id]) ==> ScoredAmong(scored, ids + [id], s, chunks, terms, narrowing)
  {
    hide SharesTerm, ScoreOf, Narrowing.Passes, Scoring.Sound;
  }

  lemma ScoredGrows(scored: seq<Scored>, ids: seq<string>, id: string, s: Scoring, chunks: Corpus, terms: seq<string>, narrowing: Narrowing)
    requires s.Sound() && ScoredAmong(scored, ids, s, chunks, terms, narrowing) && id !in ids
    requires Matches(s, chunks, terms, narrowing, id)
    ensures ScoredAmong(scored + [Scored(ScoreOf(s, chunks, terms, id), id)], ids + [id], s, chunks, terms, narrowing)
  {
    hide SharesTerm, ScoreOf, Narrowing.Passes, Scoring.Sound, Matches;
    MatchesIndexed(s, chunks, terms, narrowing, id);
    assert forall x :: x in scored ==> x.id != id;
  }

  lemma MatchesIndexed(s: Scoring, chunks: Corpus, terms: seq<string>, narrowing: Narrowing, id: string)
    requires Matches(s, chunks, terms, narrowing, id)
    ensures id in chunks
  {
  }

  lemma RankingSorted(scored: seq<Scored>, ids: seq<string>, s: Scoring, chunks: Corpus, terms: seq<string>, narrowing: Narrowing)
    requires s.Sound() && ScoredAmong(scored, ids, s, chunks, terms, narrowing)
    requires forall id :: id in chunks && SharesTerm(terms, s.Terms(chunks[id])) ==> id in ids
    ensures IsRanking(Sort(scored, Ahead), s, chunks, terms, narrowing)
  {
    hide SharesTerm, ScoreOf, Narrowing.Passes, Scoring.Sound, Scoring.Terms, Ahead, Sort;
    AheadOrder();
    SortSorted(scored, Ahead);
    SortDistinct(scored, Ahead);
    forall x: Scored
      ensures x in Sort(scored, Ahead) <==> x in scored
    {
      SortMembers(scored, Ahead, x);
    }
  }

  lemma RankedInChunks(full: seq<Scored>, s: Scoring, chunks: Corpus, terms: seq<string>, narrowing: Narrowing)
    requires s.Sound() && IsRanking(full, s, chunks, terms, narrowing)
    ensures forall i :: 0 <= i < |full| ==> full[i].id in chunks
  {
    hide SharesTerm, ScoreOf, Narrowing.Passes, Ahead;
  }

  lemma EmptyRanking(s: Scoring, chunks: Corpus, narrowing: Narrowing)
    requires s.Sound()
    ensures IsRanking([], s, chunks, [], narrowing)
  {
  }

  method Sum(lengths: map<string, nat>) returns (sum: nat)
    ensures sum == TotalOf(lengths)
  {
    sum := 0;
    var rest := lengths;
    while rest != map[]
      invariant sum + TotalOf(rest) == TotalOf(lengths)
      decreases |rest|
    {
      var id :| id in rest;
      TotalRemoves(rest, id);
      sum := sum + rest[id];
      rest := rest - {id};
    }
  }

  /** The constructor's refusals. */
  method NewIndex(scoring: Scoring) returns (r: Result<BM25Index, RetrievalError>)
    requires IsLogarithm(scoring.log)
    ensures r.Ok? <==> scoring.k1 >= 0.0 && 0.0 <= scoring.b <= 1.0
    ensures r.Ok? ==> fresh(r.value) && r.value.Valid() && r.value.chunks == map[] && r.value.scoring == scoring
  {
    if scoring.k1 < 0.0 {
      return Err(BadConstants);
    }
    if !(0.0 <= scoring.b <= 1.0) {
      return Err(BadConstants);
    }
    var index := new BM25Index(scoring);
    r := Ok(index);
  }

  lemma RemovedMirrors(s: Scoring, chunks: Corpus, lengths: map<string, nat>, before: Postings, after: Postings, id: string)
    requires Mirrors(s, chunks, lengths, before)
    requires after.Keys == before.Keys && forall term :: term in after ==> after[term] == before[term] - {id}
    ensures Mirrors(s, chunks - {id}, lengths - {id}, after)
  {
    hide Count, Scoring.Terms;
    forall term: string
      ensures Entries(after, term) == Built(s, chunks - {id}, term)
    {
      assert Entries(after, term) == Entries(before, term) - {id};
      assert Entries(before, term) == Built(s, chunks, term);
    }
  }

  /** A term's postings once a text is indexed under a new id. */
  function WithCount(entries: map<string, nat>, id: string, terms: seq<string>, term: string): map<string, nat> {
    if term in terms then entries[id := Count(terms, term)] else entries
  }

  lemma AddedMirrors(s: Scoring, chunks: Corpus, lengths: map<string, nat>, before: Postings, after: Postings, chunk: Chunk)
    requires Mirrors(s, chunks, lengths, before) && chunk.chunkId !in chunks
    requires forall term :: Entries(after, term) == WithCount(Entries(before, term), chunk.chunkId, s.Terms(chunk), term)
    ensures Mirrors(s, chunks[chunk.chunkId := chunk], lengths[chunk.chunkId := |s.Terms(chunk)|], after)
  {
    hide Count, Scoring.Terms, WithCount;
    var grown := chunks[chunk.chunkId := chunk];
    forall term: string
      ensures Entries(after, term) == Built(s, grown, term)
    {
      BuiltGrows(s, chunks, chunk, term);
      assert Entries(before, term) == Built(s, chunks, term);
    }
    hide Entries, Built;
    assert BuiltLengths(s, grown) == lengths[chunk.chunkId := |s.Terms(chunk)|];
  }

  lemma BuiltGrows(s: Scoring, chunks: Corpus, chunk: Chunk, term: string)
    requires chunk.chunkId !in chunks
    ensures Built(s, chunks[chunk.chunkId := chunk], term) == WithCount(Built(s, chunks, term), chunk.chunkId, s.Terms(chunk), term)
  {
    hide Count, Scoring.Terms;
    CountPositive(s.Terms(chunk), term);
  }

  lemma MirroredLengths(s: Scoring, chunks: Corpus, lengths: map<string, nat>, postings: Postings)
    requires Mirrors(s, chunks, lengths, postings)
    ensures lengths == BuiltLengths(s, chunks)
  {
  }

  lemma MirroredCount(s: Scoring, chunks: Corpus, lengths: map<string, nat>, postings: Postings, term: string, id: string)
    requires Mirrors(s, chunks, lengths, postings) && id in chunks
    ensures Count(s.Terms(chunks[id]), term) == if id in Entries(postings, term) then Entries(postings, term)[id] else 0
  {
    hide Count, Scoring.Terms;
    assert Entries(postings, term) == Built(s, chunks, term);
  }
}
