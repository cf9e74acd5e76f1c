/** What BM25 scores and rankings are, from the chunks alone (assistant/retrieval.py). */
module Bm25Model {
  import opened Chunking
  import opened Enumeration
  import opened Registry
  import opened Sorting
  import opened Strings
  import opened Wrappers

  type Corpus = map<string, Chunk>

  /** The scoring constants, the tokenizer and the logarithm. */
  datatype Scoring = Scoring(k1: real, b: real, tokenize: string -> seq<string>, log: real -> real) {
    ghost predicate Sound() {
      k1 >= 0.0 && 0.0 <= b <= 1.0 && IsLogarithm(log)
    }

    function Terms(chunk: Chunk): seq<string> {
      tokenize(IndexedText(chunk))
    }
  }

  /** All that is needed of the logarithm: it increases, and is zero at one. */
  ghost predicate IsLogarithm(log: real -> real) {
    log(1.0) == 0.0 && forall x, y :: 0.0 < x < y ==> log(x) < log(y)
  }

  /** Chunk text prefixed with its heading trail. */
  function IndexedText(chunk: Chunk): string {
    if chunk.headingPath != [] then Join(TRAIL_MARK, chunk.headingPath) + "\n" + chunk.text else chunk.text
  }

  const TRAIL_MARK := " \U{203A} "

  /** The tokenizer never reads a term across this mark: white space is in no term. */
  ghost predicate SplitsAt(tokenize: string -> seq<string>, mark: string) {
    forall a, b :: tokenize(a + mark + b) == tokenize(a) + tokenize(b)
  }

  /** The terms of some texts, one text after the other. */
  function AllTerms(tokenize: string -> seq<string>, texts: seq<string>): seq<string> {
    if texts == [] then [] else AllTerms(tokenize, texts[..|texts| - 1]) + tokenize(texts[|texts| - 1])
  }

  lemma {:induction false} TrailTerms(tokenize: string -> seq<string>, path: seq<string>)
    requires SplitsAt(tokenize, TRAIL_MARK) && path != []
    ensures tokenize(Join(TRAIL_MARK, path)) == AllTerms(tokenize, path)
  {
    var n := |path| - 1;
    if n == 0 {
      assert path[..0] == [];
      assert [] + tokenize(path[0]) == tokenize(path[0]);
    } else {
      TrailTerms(tokenize, path[..n]);
    }
  }

  /** A chunk is indexed under the terms of every heading over it, then those of its text. */
  lemma HeadingsAreIndexed(s: Scoring, chunk: Chunk)
    requires SplitsAt(s.tokenize, TRAIL_MARK) && SplitsAt(s.tokenize, "\n")
    ensures s.Terms(chunk) == AllTerms(s.tokenize, chunk.headingPath) + s.tokenize(chunk.text)
  {
    hide Join;
    if chunk.headingPath != [] {
      TrailTerms(s.tokenize, chunk.headingPath);
      assert s.tokenize(Join(TRAIL_MARK, chunk.headingPath) + "\n" + chunk.text)
          == s.tokenize(Join(TRAIL_MARK, chunk.headingPath)) + s.tokenize(chunk.text);
    } else {
      assert [] + s.tokenize(chunk.text) == s.tokenize(chunk.text);
    }
  }

  lemma {:induction false} TermOfSome(tokenize: string -> seq<string>, texts: seq<string>, term: string)
    ensures term in AllTerms(tokenize, texts) <==> exists i :: 0 <= i < |texts| && term in tokenize(texts[i])
  {
    if texts != [] {
      var n := |texts| - 1;
      TermOfSome(tokenize, texts[..n], term);
      if i :| 0 <= i < |texts| && term in tokenize(texts[i]) {
        assert i < n ==> texts[..n][i] == texts[i];
      }
      if i :| 0 <= i < n && term in tokenize(texts[..n][i]) {
        assert texts[i] == texts[..n][i];
      }
    }
  }

  function Count(terms: seq<string>, term: string): nat {
    if terms == [] then 0
    else Count(terms[..|terms| - 1], term) + if terms[|terms| - 1] == term then 1 else 0
  }

  /** It counts every occurrence. */
  lemma {:induction false} CountIsMultiplicity(terms: seq<string>, term: string)
    ensures Count(terms, term) == multiset(terms)[term]
  {
    if terms != [] {
      CountIsMultiplicity(terms[..|terms| - 1], term);
      assert terms == terms[..|terms| - 1] + [terms[|terms| - 1]];
    }
  }

  lemma {:induction false} CountPositive(terms: seq<string>, term: string)
    ensures Count(terms, term) > 0 <==> term in terms
  {
    if terms != [] {
      CountPositive(terms[..|terms| - 1], term);
      assert terms == terms[..|terms| - 1] + [terms[|terms| - 1]];
    }
  }

  // ------------------------------------------------------- the index from scratch

  type Postings = map<string, map<string, nat>>

  /** A term without postings and a term whose postings were all removed are the same. */
  function Entries(postings: Postings, term: string): map<string, nat> {
    if term in postings then postings[term] else map[]
  }

  /** The postings of a term, from the chunks alone. */
  ghost function Built(s: Scoring, chunks: Corpus, term: string): map<string, nat> {
    map id | id in chunks && Count(s.Terms(chunks[id]), term) > 0 :: Count(s.Terms(chunks[id]), term)
  }

  ghost function BuiltLengths(s: Scoring, chunks: Corpus): map<string, nat> {
    map id | id in chunks :: |s.Terms(chunks[id])|
  }

  ghost predicate ById(chunks: Corpus) {
    forall id :: id in chunks ==> chunks[id].chunkId == id
  }

  /** The postings and lengths are those of the chunks, built from scratch. */
  ghost predicate Mirrors(s: Scoring, chunks: Corpus, lengths: map<string, nat>, postings: Postings) {
    && ById(chunks)
    && lengths == BuiltLengths(s, chunks)
    && forall term :: Entries(postings, term) == Built(s, chunks, term)
  }

  /** Adding a list: the last chunk under an id is the one that stays. */
  function Replayed(chunks: Corpus, added: seq<Chunk>): Corpus {
    if added == [] then chunks
    else Replayed(chunks, added[..|added| - 1])[added[|added| - 1].chunkId := added[|added| - 1]]
  }

  /** After any list of adds an id stands for the last chunk added under it. */
  lemma {:induction false} ReplayedIsLast(chunks: Corpus, added: seq<Chunk>, i: nat, id: string)
    requires i < |added| && IsLastUnder(added, i, id)
    ensures id in Replayed(chunks, added) && Replayed(chunks, added)[id] == added[i]
  {
    var n := |added| - 1;
    if i < n {
      assert added[n].chunkId != id;
      ReplayedIsLast(chunks, added[..n], i, id);
    }
  }

  /** An id that was not added keeps what it had. */
  lemma {:induction false} ReplayedKeeps(chunks: Corpus, added: seq<Chunk>, id: string)
    requires forall i :: 0 <= i < |added| ==> added[i].chunkId != id
    ensures id in Replayed(chunks, added) <==> id in chunks
    ensures id in chunks ==> Replayed(chunks, added)[id] == chunks[id]
  {
    if added != [] {
      ReplayedKeeps(chunks, added[..|added| - 1], id);
    }
  }

  ghost predicate IsLastUnder(added: seq<Chunk>, i: nat, id: string)
    requires i < |added|
  {
    added[i].chunkId == id && forall j :: i < j < |added| ==> added[j].chunkId != id
  }

  /** Two indexes over the same chunks agree, whatever adds and re-adds led to them: emptied postings
      are the only trace of history. */
  lemma HistoryForgotten(s: Scoring, chunks: Corpus, lengths: map<string, nat>, lengths': map<string, nat>, postings: Postings, postings': Postings)
    requires Mirrors(s, chunks, lengths, postings) && Mirrors(s, chunks, lengths', postings')
    ensures lengths == lengths' && forall term :: Entries(postings, term) == Entries(postings', term)
  {
    hide Built, BuiltLengths, Entries;
  }

  datatype RetrievalError = BadConstants | BadLimit | BadRrfConstant | NotIndexed | NoRankings | Misaligned | Misembedded | NoEmbedding

  // ------------------------------------------------------------------------ scores

  ghost function TotalOf(lengths: map<string, nat>): nat {
    if lengths == map[] then 0
    else
      var id :| id in lengths;
      lengths[id] + TotalOf(lengths - {id})
  }

  /** Any key may be taken out first. */
  lemma {:induction false} TotalRemoves(lengths: map<string, nat>, id: string)
    requires id in lengths
    ensures TotalOf(lengths) == lengths[id] + TotalOf(lengths - {id})
    decreases |lengths|
  {
    var first :| first in lengths && TotalOf(lengths) == lengths[first] + TotalOf(lengths - {first});
    if first != id {
      TotalRemoves(lengths - {first}, id);
      TotalRemoves(lengths - {id}, first);
      assert lengths - {first} - {id} == lengths - {id} - {first};
    }
  }

  ghost function Average(lengths: map<string, nat>): (r: real)
    ensures r >= 0.0
  {
    if |lengths| == 0 then 0.0 else TotalOf(lengths) as real / |lengths| as real
  }

  /** `average_length or 1.0` */
  ghost function Norm(lengths: map<string, nat>): (r: real)
    ensures r > 0.0
  {
    if Average(lengths) == 0.0 then 1.0 else Average(lengths)
  }

  /** The weight of a term that n of the chunks have. */
  function Rarity(total: nat, n: nat, log: real -> real): real
    requires n <= total
  {
    if n == 0 then 0.0 else log(((total - n) as real + 0.5) / (n as real + 0.5) + 1.0)
  }

  function LengthFactor(b: real, length: nat, norm: real): (r: real)
    requires 0.0 <= b <= 1.0 && norm > 0.0
    ensures r >= 0.0
  {
    SharePositive(b, length as real, norm);
    1.0 - b + b * length as real / norm
  }

  lemma SharePositive(b: real, x: real, norm: real)
    requires b >= 0.0 && x >= 0.0 && norm > 0.0
    ensures b * x / norm >= 0.0
  {
  }

  function Quota(f: real, c: real, scale: real): real
    requires f > 0.0 && c >= 0.0
  {
    f * scale / (f + c)
  }

  lemma QuotaPositive(f: real, c: real, scale: real)
    requires f > 0.0 && c >= 0.0 && scale > 0.0
    ensures Quota(f, c, scale) > 0.0
  {
  }

  /** The saturating part of a term's score. */
  function Saturation(freq: nat, k1: real, factor: real): (r: real)
    requires freq > 0 && k1 >= 0.0 && factor >= 0.0
    ensures r > 0.0
  {
    assert k1 * factor >= 0.0;
    QuotaPositive(freq as real, k1 * factor, k1 + 1.0);
    Quota(freq as real, k1 * factor, k1 + 1.0)
  }

  lemma RatioAboveOne(total: nat, n: nat)
    requires 0 < n <= total
    ensures ((total - n) as real + 0.5) / (n as real + 0.5) > 0.0
  {
  }

  lemma RatioFalls(total: nat, m: nat, n: nat)
    requires 0 < m < n <= total
    ensures ((total - n) as real + 0.5) / (n as real + 0.5) < ((total - m) as real + 0.5) / (m as real + 0.5)
  {
    var p, q, x, y := (total - n) as real + 0.5, n as real + 0.5, (total - m) as real + 0.5, m as real + 0.5;
    CrossRatio(p, q, x, y);
  }

  lemma CrossRatio(p: real, q: real, x: real, y: real)
    requires 0.0 < p < x && 0.0 < y < q
    ensures p / q < x / y
  {
    assert p / q < x / q;
    assert x / q < x / y;
  }

  /** A term that some chunk has weighs more than nothing, however common it is, and the rarer of two
      terms weighs more. */
  lemma RarerWeighsMore(total: nat, m: nat, n: nat, log: real -> real)
    requires IsLogarithm(log) && 0 < m < n <= total
    ensures 0.0 < Rarity(total, n, log) < Rarity(total, m, log)
  {
    RatioAboveOne(total, n);
    RatioFalls(total, m, n);
    var a, b := ((total - n) as real + 0.5) / (n as real + 0.5) + 1.0, ((total - m) as real + 0.5) / (m as real + 0.5) + 1.0;
    assert log(1.0) < log(a) < log(b);
  }

  lemma RarityPositive(total: nat, n: nat, log: real -> real)
    requires IsLogarithm(log) && 0 < n <= total
    ensures Rarity(total, n, log) > 0.0
  {
    RatioAboveOne(total, n);
    var a := ((total - n) as real + 0.5) / (n as real + 0.5) + 1.0;
    assert log(1.0) < log(a);
  }

  lemma Quotients(f: real, g: real, c: real, scale: real)
    requires 0.0 < f <= g && c >= 0.0 && scale > 0.0
    ensures Quota(f, c, scale) <= Quota(g, c, scale) <= scale
    ensures c > 0.0 && f < g ==> Quota(f, c, scale) < Quota(g, c, scale) < scale
  {
    hide Quota;
    Shortfall(f, c, scale);
    Shortfall(g, c, scale);
    assert c * scale >= 0.0 && (c > 0.0 ==> c * scale > 0.0);
    Shares(c * scale, f + c, g + c);
  }

  /** f*scale/(f+c) falls short of scale by c*scale/(f+c). */
  lemma Shortfall(f: real, c: real, scale: real)
    requires f > 0.0 && c >= 0.0 && scale > 0.0
    ensures Quota(f, c, scale) == scale - c * scale / (f + c)
  {
    assert f * scale + c * scale == scale * (f + c);
    assert (f * scale + c * scale) / (f + c) == scale;
  }

  lemma Shares(x: real, m: real, n: real)
    requires x >= 0.0 && 0.0 < m <= n
    ensures 0.0 <= x / n <= x / m
    ensures x > 0.0 && m < n ==> 0.0 < x / n < x / m
  {
    var d, e := x / n, x / m;
    assert d * n == x && e * m == x && d >= 0.0 && e >= 0.0;
    TimesOrder(e, m, n);
    if d >= e {
      TimesWeak(n, e, d);
      assert x == 0.0 || m == n || e == 0.0;
    } else {
      TimesStrict(n, d, e);
    }
  }

  lemma TimesWeak(n: real, e: real, d: real)
    requires n > 0.0 && e <= d
    ensures e * n <= d * n
  {
  }

  lemma TimesOrder(d: real, m: real, n: real)
    requires d >= 0.0 && m <= n
    ensures d * m <= d * n
    ensures d > 0.0 && m < n ==> d * m < d * n
  {
  }

  lemma TimesStrict(n: real, e: real, d: real)
    requires n > 0.0 && e < d
    ensures e * n < d * n
  {
  }

  /** More occurrences never score less, and however many there are the score stays within k1 + 1 of
      the term's weight; both are strict unless length and frequency are ignored (k1 * factor == 0). */
  lemma SaturationGrows(m: nat, n: nat, k1: real, factor: real)
    requires 0 < m < n && k1 >= 0.0 && factor >= 0.0
    ensures Saturation(m, k1, factor) <= Saturation(n, k1, factor) <= k1 + 1.0
    ensures k1 * factor > 0.0 ==> Saturation(m, k1, factor) < Saturation(n, k1, factor) < k1 + 1.0
  {
    hide Quota;
    assert k1 * factor >= 0.0;
    Quotients(m as real, n as real, k1 * factor, k1 + 1.0);
  }

  /** What the constants mean: b turns length normalisation from off (0) to full (1) and never moves a chunk
      of average length; with k1 = 0 only the presence of a term counts. */
  lemma ConstantsMeaning(b: real, length: nat, norm: real, freq: nat, factor: real)
    requires 0.0 <= b <= 1.0 && norm > 0.0 && freq > 0 && factor >= 0.0
    ensures LengthFactor(0.0, length, norm) == 1.0
    ensures LengthFactor(1.0, length, norm) == length as real / norm
    ensures length as real == norm ==> LengthFactor(b, length, norm) == 1.0
    ensures Saturation(freq, 0.0, factor) == 1.0
  {
    assert freq as real * 1.0 / (freq as real + 0.0) == 1.0;
    ShareOfItself(b, norm);
  }

  lemma ShareOfItself(b: real, norm: real)
    requires norm > 0.0
    ensures b * norm / norm == b
  {
  }

  lemma FactorGrows(b: real, short: nat, long: nat, norm: real)
    requires 0.0 <= b <= 1.0 && norm > 0.0 && short <= long
    ensures LengthFactor(b, short, norm) <= LengthFactor(b, long, norm)
  {
    assert b * short as real <= b * long as real;
  }

  /** The same count of a term in a longer chunk never scores more. */
  lemma LongerNeverScoresMore(freq: nat, k1: real, b: real, short: nat, long: nat, norm: real)
    requires freq > 0 && k1 >= 0.0 && 0.0 <= b <= 1.0 && norm > 0.0 && short <= long
    ensures Saturation(freq, k1, LengthFactor(b, long, norm)) <= Saturation(freq, k1, LengthFactor(b, short, norm))
  {
    hide LengthFactor, Quota;
    FactorGrows(b, short, long, norm);
    TimesFactor(k1, LengthFactor(b, short, norm), LengthFactor(b, long, norm));
    QuotaFalls(freq as real, k1 * LengthFactor(b, short, norm), k1 * LengthFactor(b, long, norm), k1 + 1.0);
  }

  lemma TimesFactor(k1: real, m: real, n: real)
    requires k1 >= 0.0 && 0.0 <= m <= n
    ensures 0.0 <= k1 * m <= k1 * n
  {
  }

  lemma QuotaFalls(f: real, c: real, d: real, scale: real)
    requires f > 0.0 && 0.0 <= c <= d && scale > 0.0
    ensures Quota(f, d, scale) <= Quota(f, c, scale)
  {
    Shares(f * scale, f + c, f + d);
  }

  /** What one query term adds to a chunk's score. */
  ghost function Contribution(s: Scoring, chunks: Corpus, term: string, id: string): (r: real)
    requires s.Sound() && id in chunks
  {
    var freq := Count(s.Terms(chunks[id]), term);
    if freq == 0 then 0.0
    else
      BuiltWithin(s, chunks, term);
      var lengths := BuiltLengths(s, chunks);
      Rarity(|chunks|, |Built(s, chunks, term)|, s.log)
        * Saturation(freq, s.k1, LengthFactor(s.b, lengths[id], Norm(lengths)))
  }

  /** The score of a chunk, as the sum over the query's terms. */
  ghost function ScoreOf(s: Scoring, chunks: Corpus, terms: seq<string>, id: string): real
    requires s.Sound() && id in chunks
  {
    if terms == [] then 0.0
    else ScoreOf(s, chunks, terms[..|terms| - 1], id) + Contribution(s, chunks, terms[|terms| - 1], id)
  }

  lemma BuiltWithin(s: Scoring, chunks: Corpus, term: string)
    ensures |Built(s, chunks, term)| <= |chunks|
  {
    hide Count;
    SubsetSize(Built(s, chunks, term).Keys, chunks.Keys);
    assert |Built(s, chunks, term).Keys| == |Built(s, chunks, term)| && |chunks.Keys| == |chunks|;
  }

  lemma SubsetSize(a: set<string>, b: set<string>)
    requires a <= b
    ensures |a| <= |b|
  {
    assert b == a + (b - a);
  }

  ghost predicate SharesTerm(terms: seq<string>, text: seq<string>) {
    exists i :: 0 <= i < |terms| && terms[i] in text
  }

  lemma ContributionSign(s: Scoring, chunks: Corpus, term: string, id: string)
    requires s.Sound() && id in chunks
    ensures Contribution(s, chunks, term, id) >= 0.0
    ensures Contribution(s, chunks, term, id) > 0.0 <==> term in s.Terms(chunks[id])
  {
    hide Count, Saturation, LengthFactor, Rarity, Norm;
    CountPositive(s.Terms(chunks[id]), term);
    if term in s.Terms(chunks[id]) {
      assert id in Built(s, chunks, term);
      BuiltWithin(s, chunks, term);
      RarityPositive(|chunks|, |Built(s, chunks, term)|, s.log);
    }
  }

  /** The chunks that hold the term. */
  ghost function Holders(s: Scoring, chunks: Corpus, term: string): set<string> {
    set id | id in chunks && term in s.Terms(chunks[id])
  }

  lemma HoldersCounted(s: Scoring, chunks: Corpus, term: string)
    ensures |Built(s, chunks, term)| == |Holders(s, chunks, term)|
  {
    hide Count;
    forall id | id in chunks
      ensures Count(s.Terms(chunks[id]), term) > 0 <==> term in s.Terms(chunks[id])
    {
      CountPositive(s.Terms(chunks[id]), term);
    }
    assert Built(s, chunks, term).Keys == Holders(s, chunks, term);
    assert |Built(s, chunks, term).Keys| == |Built(s, chunks, term)|;
  }

  lemma AveragePositive(lengths: map<string, nat>, id: string)
    requires id in lengths && lengths[id] > 0
    ensures Norm(lengths) * |lengths| as real == TotalOf(lengths) as real
  {
    hide TotalOf;
    TotalRemoves(lengths, id);
    MeanTimes(TotalOf(lengths), |lengths|);
  }

  lemma MeanTimes(total: nat, n: nat)
    requires total > 0 && n > 0
    ensures total as real / n as real > 0.0 && total as real / n as real * n as real == total as real
  {
  }

  /** What a query term adds is read off the chunks alone: its weight from how many of the chunks hold it,
      and its saturation from how often this one does and how long it is against the average. */
  lemma PublishedTerm(s: Scoring, chunks: Corpus, term: string, id: string)
    requires s.Sound() && id in Holders(s, chunks, term)
    ensures var (freq, n) := (multiset(s.Terms(chunks[id]))[term], |Holders(s, chunks, term)|);
            var norm := Norm(BuiltLengths(s, chunks));
            && 0 < freq && 0 < n <= |chunks| && s.k1 >= 0.0 && 0.0 <= s.b <= 1.0
            && norm * |chunks| as real == TotalOf(BuiltLengths(s, chunks)) as real
            && Contribution(s, chunks, term, id)
               == Rarity(|chunks|, n, s.log) * Saturation(freq, s.k1, LengthFactor(s.b, |s.Terms(chunks[id])|, norm))
  {
    hide Count, Built, Average, Norm, Scoring.Terms, Scoring.Sound, Saturation, LengthFactor, Rarity;
    var text, lengths := s.Terms(chunks[id]), BuiltLengths(s, chunks);
    CountIsMultiplicity(text, term);
    CountPositive(text, term);
    HoldersCounted(s, chunks, term);
    BuiltWithin(s, chunks, term);
    assert lengths.Keys == chunks.Keys && |lengths| == |chunks|;
    AveragePositive(lengths, id);
    SoundConstants(s);
  }

  /** The published formulas of the three parts: the logarithm of (N + 1) / (n + 1/2) for the weight, the
      share f (k1 + 1) / (f + k1 * factor) of the occurrences, and the length's distance from the average,
      by the part b of it, in the factor. */
  lemma PublishedForms(total: nat, n: nat, log: real -> real, freq: nat, k1: real, b: real, length: nat, norm: real)
    requires n <= total && freq > 0 && k1 >= 0.0 && 0.0 <= b <= 1.0 && norm > 0.0
    ensures n == 0 ==> Rarity(total, n, log) == 0.0
    ensures n > 0 ==> Rarity(total, n, log) == log((total as real + 1.0) / (n as real + 0.5))
    ensures var factor := LengthFactor(b, length, norm);
            && Saturation(freq, k1, factor) * (freq as real + k1 * factor) == freq as real * (k1 + 1.0)
            && (factor - 1.0) * norm == b * (length as real - norm)
  {
    OneMore((total - n) as real + 0.5, n as real + 0.5);
    assert (total - n) as real + 0.5 + (n as real + 0.5) == total as real + 1.0;
    hide Rarity;
    var factor := LengthFactor(b, length, norm);
    FactorTimes(b, length as real, norm);
    hide LengthFactor;
    SaturationTimes(freq, k1, factor);
  }

  lemma OneMore(p: real, q: real)
    requires q > 0.0
    ensures p / q + 1.0 == (p + q) / q
  {
    var a, c := p / q, (p + q) / q;
    assert a * q == p && c * q == p + q;
    assert (a + 1.0) * q == p + q;
    if a + 1.0 < c {
      TimesStrict(q, a + 1.0, c);
    } else if c < a + 1.0 {
      TimesStrict(q, c, a + 1.0);
    }
  }

  lemma FactorTimes(b: real, length: real, norm: real)
    requires norm > 0.0
    ensures (1.0 - b + b * length / norm - 1.0) * norm == b * (length - norm)
  {
    assert b * length / norm * norm == b * length;
  }

  lemma SaturationTimes(freq: nat, k1: real, factor: real)
    requires freq > 0 && k1 >= 0.0 && factor >= 0.0
    ensures Saturation(freq, k1, factor) * (freq as real + k1 * factor) == freq as real * (k1 + 1.0)
  {
    assert k1 * factor >= 0.0;
    var d, x := freq as real + k1 * factor, freq as real * (k1 + 1.0);
    assert d > 0.0 && x / d * d == x;
  }

  lemma SoundConstants(s: Scoring)
    requires s.Sound()
    ensures s.k1 >= 0.0 && 0.0 <= s.b <= 1.0
  {
  }

  /** A score is the sum over the query's terms, repeats included: it adds up over parts of the query. */
  lemma {:induction false} ScoreAdds(s: Scoring, chunks: Corpus, terms: seq<string>, more: seq<string>, id: string)
    requires s.Sound() && id in chunks
    ensures ScoreOf(s, chunks, terms + more, id) == ScoreOf(s, chunks, terms, id) + ScoreOf(s, chunks, more, id)
    ensures forall term :: ScoreOf(s, chunks, [term], id) == Contribution(s, chunks, term, id)
  {
    hide Contribution, Scoring.Terms, Scoring.Sound;
    forall term
      ensures ScoreOf(s, chunks, [term], id) == Contribution(s, chunks, term, id)
    {
      assert [term][..0] == [];
    }
    if more == [] {
      assert terms + more == terms;
    } else {
      var n := |more| - 1;
      ScoreAdds(s, chunks, terms, more[..n], id);
      assert (terms + more)[..|terms + more| - 1] == terms + more[..n];
    }
  }

  /** A chunk scores above zero exactly when it shares a term with the query. */
  lemma {:induction false} ScorePositive(s: Scoring, chunks: Corpus, terms: seq<string>, id: string)
    requires s.Sound() && id in chunks
    ensures ScoreOf(s, chunks, terms, id) >= 0.0
    ensures ScoreOf(s, chunks, terms, id) > 0.0 <==> SharesTerm(terms, s.Terms(chunks[id]))
  {
    hide Contribution, Scoring.Terms;
    if terms != [] {
      var n := |terms| - 1;
      ScorePositive(s, chunks, terms[..n], id);
      ContributionSign(s, chunks, terms[n], id);
      var text := s.Terms(chunks[id]);
      if i :| 0 <= i < |terms| && terms[i] in text {
        assert i < n ==> terms[..n][i] in text;
      }
      if i :| 0 <= i < n && terms[..n][i] in text {
        assert terms[i] in text;
      }
    }
  }

  // ---------------------------------------------------------------------- rankings

  /** One retrieval result, with the legs that found it. */
  datatype ScoredChunk = ScoredChunk(chunk: Chunk, score: real, legs: set<string>, rank: nat)

  datatype Scored = Scored(score: real, id: string)

  /** Higher scores first, ties by id. */
  predicate Ahead(a: Scored, b: Scored) {
    a.score > b.score || (a.score == b.score && StringLe(a.id, b.id))
  }

  lemma AheadOrder()
    ensures TotalPreorder(Ahead) && Antisymmetric(Ahead)
  {
    hide StringLe;
    StringOrder();
    assert forall a: Scored, b: Scored :: StringLe(a.id, b.id) || StringLe(b.id, a.id);
    forall a: Scored, b: Scored, c: Scored | Ahead(a, b) && Ahead(b, c)
      ensures Ahead(a, c)
    {
      assert StringLe(a.id, b.id) && StringLe(b.id, c.id) ==> StringLe(a.id, c.id);
    }
    assert forall a: Scored, b: Scored :: StringLe(a.id, b.id) && StringLe(b.id, a.id) ==> a.id == b.id;
  }

  /** Optional filters by day, product tag and language. */
  datatype Narrowing = Narrowing(asOf: Option<Date>, product: Option<string>, language: Option<string>) {
    predicate Passes(chunk: Chunk) {
      && (asOf.Some? ==> chunk.IsEffectiveOn(asOf.value))
      && (product.Some? ==> product.value in chunk.productTags)
      && (language.Some? ==> chunk.language == language.value)
    }
  }

  /** The brute-force answer: a chunk that passes the filters and shares a term with the query. */
  ghost predicate Matches(s: Scoring, chunks: Corpus, terms: seq<string>, narrowing: Narrowing, id: string) {
    id in chunks && narrowing.Passes(chunks[id]) && SharesTerm(terms, s.Terms(chunks[id]))
  }

  /** All matching chunks with their scores, in order. */
  ghost predicate IsRanking(full: seq<Scored>, s: Scoring, chunks: Corpus, terms: seq<string>, narrowing: Narrowing)
    requires s.Sound()
  {
    && Sorted(full, Ahead) && Distinct(full)
    && forall x :: x in full <==> Matches(s, chunks, terms, narrowing, x.id) && x.score == ScoreOf(s, chunks, terms, x.id)
  }

  /** Search reaches a chunk through any heading over it as well as through its text: exactly the chunks
      that pass the filters and hold a query term in one or the other are ranked. */
  lemma RankedByHeadingOrText(full: seq<Scored>, s: Scoring, chunks: Corpus, terms: seq<string>, narrowing: Narrowing, id: string)
    requires s.Sound() && IsRanking(full, s, chunks, terms, narrowing)
    requires SplitsAt(s.tokenize, TRAIL_MARK) && SplitsAt(s.tokenize, "\n") && id in chunks
    ensures (exists x :: x in full && x.id == id)
       <==> narrowing.Passes(chunks[id])
            && exists i :: 0 <= i < |terms| && FoundIn(s.tokenize, chunks[id], terms[i])
  {
    hide ScoreOf, Ahead, IndexedText, Narrowing.Passes, Scoring.Terms;
    var chunk := chunks[id];
    HeadingsAreIndexed(s, chunk);
    forall i | 0 <= i < |terms|
      ensures terms[i] in s.Terms(chunk) <==> FoundIn(s.tokenize, chunk, terms[i])
    {
      TermOfSome(s.tokenize, chunk.headingPath, terms[i]);
    }
    if Matches(s, chunks, terms, narrowing, id) {
      assert Scored(ScoreOf(s, chunks, terms, id), id) in full;
    }
  }

  /** The term is one of the text's, or of some heading over it. */
  ghost predicate FoundIn(tokenize: string -> seq<string>, chunk: Chunk, term: string) {
    term in tokenize(chunk.text) || exists h :: 0 <= h < |chunk.headingPath| && term in tokenize(chunk.headingPath[h])
  }

  /** Scores fall along the ranking, and equal scores come in the order of their ids. */
  lemma RankingFalls(full: seq<Scored>, s: Scoring, chunks: Corpus, terms: seq<string>, narrowing: Narrowing, i: nat, j: nat)
    requires s.Sound() && IsRanking(full, s, chunks, terms, narrowing) && i < j < |full|
    ensures full[i].score >= full[j].score
    ensures full[i].score == full[j].score ==> StringLe(full[i].id, full[j].id) && full[i].id != full[j].id
  {
    hide ScoreOf, Matches;
    assert Ahead(full[i], full[j]);
  }

  /** There is one such ranking. */
  lemma OneRanking(a: seq<Scored>, b: seq<Scored>, s: Scoring, chunks: Corpus, terms: seq<string>, narrowing: Narrowing)
    requires s.Sound() && IsRanking(a, s, chunks, terms, narrowing) && IsRanking(b, s, chunks, terms, narrowing)
    ensures a == b
  {
    hide Ahead, Matches, ScoreOf;
    AheadOrder();
    OneSortedList(a, b, Ahead);
  }

  function Least(a: int, b: int): int {
    if a < b then a else b
  }

  /** The first k of a ranking, as results of one leg. */
  function TopHits(full: seq<Scored>, k: nat, chunks: Corpus, leg: string): (r: seq<ScoredChunk>)
    requires forall i :: 0 <= i < |full| ==> full[i].id in chunks
    ensures |r| == Least(k, |full|)
    ensures forall i :: 0 <= i < |r| ==> r[i] == ScoredChunk(chunks[full[i].id], full[i].score, {leg}, i + 1)
  {
    seq(Least(k, |full|), i requires 0 <= i < |full| => ScoredChunk(chunks[full[i].id], full[i].score, {leg}, i + 1))
  }

  /** These hits are the first k of the brute-force ranking. */
  ghost predicate AreTopHits(hits: seq<ScoredChunk>, k: nat, s: Scoring, chunks: Corpus, terms: seq<string>, narrowing: Narrowing)
    requires s.Sound()
  {
    exists full :: IsRanking(full, s, chunks, terms, narrowing) && IsTopOf(hits, full, k, chunks)
  }

  ghost predicate IsTopOf(hits: seq<ScoredChunk>, full: seq<Scored>, k: nat, chunks: Corpus) {
    (forall i :: 0 <= i < |full| ==> full[i].id in chunks) && hits == TopHits(full, k, chunks, "bm25")
  }
}
