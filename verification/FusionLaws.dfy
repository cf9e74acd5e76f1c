/** What reciprocal-rank fusion guarantees (assistant/retrieval.py). */
module FusionLaws {
  import opened Bm25Model
  import opened Chunking
  import opened Enumeration
  import opened Fusion
  import opened Sorting
  import opened Strings

  /** No id occurs twice in a ranking. */
  ghost predicate DuplicateFree(hits: seq<ScoredChunk>) {
    forall p, q :: 0 <= p < q < |hits| ==> hits[p].chunk.chunkId != hits[q].chunk.chunkId
  }

  lemma {:induction false} DuplicateFreeScore(hits: seq<ScoredChunk>, p: nat, rrfK: int)
    requires rrfK > 0 && DuplicateFree(hits) && p < |hits|
    ensures LegScore(hits, hits[p].chunk.chunkId, rrfK) == Share(rrfK, p + 1)
  {
    hide Share;
    var n, id := |hits| - 1, hits[p].chunk.chunkId;
    if p == n {
      AbsentLeg(hits[..n], id, rrfK);
    } else {
      DuplicateFreeScore(hits[..n], p, rrfK);
    }
  }

  lemma ShareFalls(rrfK: int, p: int, q: int)
    requires rrfK > 0 && 0 <= p < q
    ensures 0.0 < Share(rrfK, q) < Share(rrfK, p)
    ensures Share(rrfK, p) * (rrfK + p) as real == 1.0
  {
    Shares(1.0, (rrfK + p) as real, (rrfK + q) as real);
  }

  lemma InLegAt(hits: seq<ScoredChunk>, id: string) returns (p: nat)
    requires InLeg(hits, id)
    ensures p < |hits| && hits[p].chunk.chunkId == id
  {
    p :| 0 <= p < |hits| && IsHit(hits[p], id);
  }

  lemma TwoLegScore(a: Leg, b: Leg, id: string, rrfK: int)
    requires rrfK > 0
    ensures Rrf([a, b], id, rrfK) == LegScore(a.hits, id, rrfK) + LegScore(b.hits, id, rrfK)
  {
    hide LegScore, Rrf;
    RrfConcat([a], [b], id, rrfK);
    OneLegScore(a, id, rrfK);
    OneLegScore(b, id, rrfK);
    assert [a] + [b] == [a, b];
  }

  /** Two shares no deeper than rank rrf_k + 1 outweigh any single share. */
  lemma TwoSharesWin(rrfK: int, p: int, q: int, r: int)
    requires rrfK > 0 && 1 <= p <= rrfK + 1 && 1 <= q <= rrfK + 1 && 1 <= r
    ensures Share(rrfK, p) + Share(rrfK, q) > Share(rrfK, r)
  {
    ShareAtMost(rrfK, r, 1);
    ShareAtMost(rrfK, rrfK + 1, p);
    ShareAtMost(rrfK, rrfK + 1, q);
    HalfShare(rrfK);
  }

  lemma ShareAtMost(rrfK: int, deep: int, shallow: int)
    requires rrfK > 0 && 0 <= shallow <= deep
    ensures Share(rrfK, deep) <= Share(rrfK, shallow)
  {
    if shallow < deep {
      ShareFalls(rrfK, shallow, deep);
    }
  }

  lemma HalfShare(rrfK: int)
    requires rrfK > 0
    ensures 2.0 * Share(rrfK, rrfK + 1) > Share(rrfK, 1)
    ensures 2.0 * Share(rrfK, rrfK + 2) == Share(rrfK, 1)
  {
    var top, half := (rrfK + 1) as real, (rrfK + rrfK + 1) as real;
    assert half < 2.0 * top;
    TwiceOver(half);
    Shares(2.0, half, 2.0 * top);
    assert 2.0 / (2.0 * top) == 1.0 / top;
    assert (rrfK + (rrfK + 2)) as real == 2.0 * top;
    TwiceOver(2.0 * top);
  }

  lemma TwiceOver(x: real)
    requires x > 0.0
    ensures 2.0 * (1.0 / x) == 2.0 / x
  {
  }

  /** When both rankings are duplicate-free and no longer than rrf_k + 1, a chunk found by both legs
      scores more than any chunk found by only one. */
  lemma AgreementWins(a: Leg, b: Leg, x: string, y: string, rrfK: int)
    requires rrfK > 0 && DuplicateFree(a.hits) && DuplicateFree(b.hits)
    requires |a.hits| <= rrfK + 1 && |b.hits| <= rrfK + 1
    requires InLeg(a.hits, x) && InLeg(b.hits, x) && InLeg(a.hits, y) != InLeg(b.hits, y)
    ensures Rrf([a, b], x, rrfK) > Rrf([a, b], y, rrfK)
  {
    hide InLeg, LegScore, Share, Rrf;
    TwoLegScore(a, b, x, rrfK);
    TwoLegScore(a, b, y, rrfK);
    var p := InLegAt(a.hits, x);
    var q := InLegAt(b.hits, x);
    DuplicateFreeScore(a.hits, p, rrfK);
    DuplicateFreeScore(b.hits, q, rrfK);
    if InLeg(a.hits, y) {
      var r := InLegAt(a.hits, y);
      DuplicateFreeScore(a.hits, r, rrfK);
      AbsentLeg(b.hits, y, rrfK);
      TwoSharesWin(rrfK, p + 1, q + 1, r + 1);
    } else {
      var r := InLegAt(b.hits, y);
      DuplicateFreeScore(b.hits, r, rrfK);
      AbsentLeg(a.hits, y, rrfK);
      TwoSharesWin(rrfK, p + 1, q + 1, r + 1);
    }
  }

  /** So in the fused list every chunk found by both comes before every chunk found by one. */
  lemma AgreementComesFirst(full: seq<Scored>, a: Leg, b: Leg, rrfK: int, i: nat, j: nat)
    requires rrfK > 0 && DuplicateFree(a.hits) && DuplicateFree(b.hits)
    requires |a.hits| <= rrfK + 1 && |b.hits| <= rrfK + 1
    requires IsFusion(full, [a, b], rrfK) && i < |full| && j < |full|
    requires InLeg(a.hits, full[i].id) && InLeg(b.hits, full[i].id) && InLeg(a.hits, full[j].id) != InLeg(b.hits, full[j].id)
    ensures i < j
  {
    hide InLeg, LegScore, Share, Rrf;
    AgreementWins(a, b, full[i].id, full[j].id, rrfK);
    FusionScore(full, [a, b], rrfK, i);
    FusionScore(full, [a, b], rrfK, j);
    assert j < i ==> Ahead(full[j], full[i]);
  }

  lemma FusionScore(full: seq<Scored>, legs: seq<Leg>, rrfK: int, i: nat)
    requires rrfK > 0 && IsFusion(full, legs, rrfK) && i < |full|
    ensures full[i].score == Rrf(legs, full[i].id, rrfK) && InLegs(legs, full[i].id)
  {
    hide Rrf, InLegs, Ahead;
    assert full[i] in full;
  }

  /** One rank deeper, agreement only ties with the top of a single leg. */
  lemma DeepAgreementTies(a: Leg, b: Leg, x: string, y: string, rrfK: int)
    requires rrfK > 0 && DuplicateFree(a.hits) && DuplicateFree(b.hits)
    requires |a.hits| >= rrfK + 2 && |b.hits| >= rrfK + 2
    requires a.hits[rrfK + 1].chunk.chunkId == x && b.hits[rrfK + 1].chunk.chunkId == x
    requires a.hits[0].chunk.chunkId == y && !InLeg(b.hits, y)
    ensures Rrf([a, b], x, rrfK) == Rrf([a, b], y, rrfK)
  {
    hide InLeg, LegScore, Share, Rrf;
    TwoLegScore(a, b, x, rrfK);
    TwoLegScore(a, b, y, rrfK);
    DuplicateFreeScore(a.hits, rrfK + 1, rrfK);
    DuplicateFreeScore(b.hits, rrfK + 1, rrfK);
    DuplicateFreeScore(a.hits, 0, rrfK);
    AbsentLeg(b.hits, y, rrfK);
    HalfShare(rrfK);
  }

  /** Two duplicate-free rankings of at most n hits, a chunk in both and a chunk in only one. */
  ghost predicate Contest(a: Leg, b: Leg, n: nat, x: string, y: string) {
    && DuplicateFree(a.hits) && DuplicateFree(b.hits) && |a.hits| <= n && |b.hits| <= n
    && InLeg(a.hits, x) && InLeg(b.hits, x) && InLeg(a.hits, y) != InLeg(b.hits, y)
  }

  /** With rankings of at most n hits, what both found always beats what one found. */
  ghost predicate AgreementAlwaysWins(n: nat, rrfK: int)
    requires rrfK > 0
  {
    forall a, b, x, y :: Contest(a, b, n, x, y) ==> Rrf([a, b], x, rrfK) > Rrf([a, b], y, rrfK)
  }

  function Repeated(c: char, n: nat): (r: string)
    ensures |r| == n && forall i :: 0 <= i < n ==> r[i] == c
  {
    seq(n, _ => c)
  }

  /** A ranking of n hits with ids of n - 1, n - 2, ..., 0 copies of one letter. */
  function Falling(chunk: Chunk, c: char, n: nat): (hits: seq<ScoredChunk>)
    ensures |hits| == n && forall p :: 0 <= p < n ==> hits[p].chunk.chunkId == Repeated(c, n - 1 - p)
  {
    seq(n, p requires 0 <= p < n => ScoredChunk(chunk.(chunkId := Repeated(c, n - 1 - p)), 0.0, {}, p + 1))
  }

  lemma FallingIsDuplicateFree(chunk: Chunk, c: char, n: nat)
    ensures DuplicateFree(Falling(chunk, c, n))
  {
    var hits := Falling(chunk, c, n);
    forall p, q | 0 <= p < q < n
      ensures hits[p].chunk.chunkId != hits[q].chunk.chunkId
    {
      assert |hits[p].chunk.chunkId| == n - 1 - p && |hits[q].chunk.chunkId| == n - 1 - q;
    }
  }

  /** The bound on the depth is exact, for every constant. */
  lemma AgreementBound(n: nat, rrfK: int)
    requires rrfK > 0
    ensures AgreementAlwaysWins(n, rrfK) <==> n <= rrfK + 1
  {
    hide Rrf, InLeg, DuplicateFree;
    if n <= rrfK + 1 {
      forall a, b, x, y | Contest(a, b, n, x, y)
        ensures Rrf([a, b], x, rrfK) > Rrf([a, b], y, rrfK)
      {
        AgreementWins(a, b, x, y, rrfK);
      }
    } else {
      var a, b, y := TiedLegs(n, rrfK);
      assert Contest(a, b, n, "", y);
    }
  }

  /** Two rankings of rrf_k + 2 hits that end in the same chunk, which ties with the first of one. */
  lemma TiedLegs(n: nat, rrfK: int) returns (a: Leg, b: Leg, y: string)
    requires rrfK > 0 && n >= rrfK + 2
    ensures Contest(a, b, n, "", y) && Rrf([a, b], "", rrfK) == Rrf([a, b], y, rrfK)
  {
    hide Rrf;
    var chunk: Chunk := *;
    var m := rrfK + 2;
    a, b, y := Leg("a", Falling(chunk, 'a', m)), Leg("b", Falling(chunk, 'b', m)), Repeated('a', m - 1);
    FallingIsDuplicateFree(chunk, 'a', m);
    FallingIsDuplicateFree(chunk, 'b', m);
    assert IsHit(a.hits[m - 1], "") && IsHit(b.hits[m - 1], "") && IsHit(a.hits[0], y);
    forall p | 0 <= p < m
      ensures !IsHit(b.hits[p], y)
    {
      assert y[0] == 'a';
      assert p < m - 1 ==> b.hits[p].chunk.chunkId[0] == 'b';
    }
    DeepAgreementTies(a, b, "", y, rrfK);
  }

  // ----------------------------------------------------------- position and leg order

  lemma {:induction false} RrfConcat(legs: seq<Leg>, more: seq<Leg>, id: string, rrfK: int)
    requires rrfK > 0
    ensures Rrf(legs + more, id, rrfK) == Rrf(legs, id, rrfK) + Rrf(more, id, rrfK)
  {
    hide LegScore;
    if more == [] {
      assert legs + more == legs;
    } else {
      var n := |more| - 1;
      RrfConcat(legs, more[..n], id, rrfK);
      assert (legs + more)[..|legs + more| - 1] == legs + more[..n];
    }
  }

  lemma OneLegScore(leg: Leg, id: string, rrfK: int)
    requires rrfK > 0
    ensures Rrf([leg], id, rrfK) == LegScore(leg.hits, id, rrfK)
  {
    hide LegScore;
    assert [leg][..0] == [];
  }

  lemma SplitAt(legs: seq<Leg>, i: nat, id: string, rrfK: int)
    requires rrfK > 0 && i < |legs|
    ensures Rrf(legs, id, rrfK) == Rrf(legs[..i] + legs[i + 1..], id, rrfK) + LegScore(legs[i].hits, id, rrfK)
  {
    hide LegScore, Rrf;
    assert legs == legs[..i] + ([legs[i]] + legs[i + 1..]);
    RrfConcat(legs[..i], [legs[i]] + legs[i + 1..], id, rrfK);
    RrfConcat([legs[i]], legs[i + 1..], id, rrfK);
    RrfConcat(legs[..i], legs[i + 1..], id, rrfK);
    OneLegScore(legs[i], id, rrfK);
  }

  /** A chunk that one duplicate-free ranking moves up, the other rankings unchanged, scores strictly more. */
  lemma MovingUpScoresMore(legs: seq<Leg>, i: nat, better: seq<ScoredChunk>, p: nat, q: nat, rrfK: int)
    requires rrfK > 0 && i < |legs| && DuplicateFree(legs[i].hits) && DuplicateFree(better)
    requires p < |legs[i].hits| && q < |better| && q < p
    requires better[q].chunk.chunkId == legs[i].hits[p].chunk.chunkId
    ensures var id := better[q].chunk.chunkId;
            Rrf(legs[i := Leg(legs[i].name, better)], id, rrfK) > Rrf(legs, id, rrfK)
  {
    hide LegScore, Rrf, Share;
    var id, moved := better[q].chunk.chunkId, legs[i := Leg(legs[i].name, better)];
    SplitAt(legs, i, id, rrfK);
    SplitAt(moved, i, id, rrfK);
    assert moved[..i] == legs[..i] && moved[i + 1..] == legs[i + 1..];
    DuplicateFreeScore(legs[i].hits, p, rrfK);
    DuplicateFreeScore(better, q, rrfK);
    ShareFalls(rrfK, q + 1, p + 1);
  }

  lemma RemoveAt(legs: seq<Leg>, i: nat)
    requires i < |legs|
    ensures multiset(legs[..i] + legs[i + 1..]) == multiset(legs) - multiset{legs[i]}
  {
    assert legs == legs[..i] + [legs[i]] + legs[i + 1..];
  }

  /** The order of the legs does not change a score. */
  lemma {:induction false} LegOrderIrrelevant(legs: seq<Leg>, other: seq<Leg>, id: string, rrfK: int)
    requires rrfK > 0 && multiset(legs) == multiset(other)
    ensures Rrf(legs, id, rrfK) == Rrf(other, id, rrfK)
    decreases |legs|
  {
    hide LegScore, Rrf;
    assert |legs| == |multiset(legs)| == |multiset(other)| == |other|;
    if legs != [] {
      SameMembers(legs, other, legs[0]);
      var i :| 0 <= i < |other| && other[i] == legs[0];
      SplitAt(legs, 0, id, rrfK);
      SplitAt(other, i, id, rrfK);
      RemoveAt(legs, 0);
      RemoveAt(other, i);
      LegOrderIrrelevant(legs[..0] + legs[1..], other[..i] + other[i + 1..], id, rrfK);
    } else {
      assert legs == other;
    }
  }

  lemma SameLegs(legs: seq<Leg>, other: seq<Leg>, id: string)
    requires multiset(legs) == multiset(other)
    ensures InLegs(legs, id) ==> InLegs(other, id)
    ensures LegsWith(legs, id) <= LegsWith(other, id)
  {
    hide InLeg;
    forall i | 0 <= i < |legs|
      ensures legs[i] in other
    {
      SameMembers(legs, other, legs[i]);
    }
    if InLegs(legs, id) {
      var i :| 0 <= i < |legs| && InLeg(legs[i].hits, id);
      var j :| 0 <= j < |other| && other[j] == legs[i];
      assert InLeg(other[j].hits, id);
    }
    forall name | name in LegsWith(legs, id)
      ensures name in LegsWith(other, id)
    {
      var i :| 0 <= i < |legs| && InLeg(legs[i].hits, id) && legs[i].name == name;
      var j :| 0 <= j < |other| && other[j] == legs[i];
      assert InLeg(other[j].hits, id);
    }
  }

  /** Every hit under an id carries the same chunk. */
  ghost predicate Agree(legs: seq<Leg>, chunks: map<string, Chunk>) {
    forall i, p :: 0 <= i < |legs| && 0 <= p < |legs[i].hits| ==> HoldsChunk(legs[i].hits[p], chunks)
  }

  ghost predicate HoldsChunk(hit: ScoredChunk, chunks: map<string, Chunk>) {
    hit.chunk.chunkId in chunks && chunks[hit.chunk.chunkId] == hit.chunk
  }

  lemma {:induction false} FirstInAt(hits: seq<ScoredChunk>, id: string) returns (p: nat)
    requires InLeg(hits, id)
    ensures p < |hits| && hits[p].chunk == FirstIn(hits, id) && hits[p].chunk.chunkId == id
    ensures forall q :: 0 <= q < p ==> hits[q].chunk.chunkId != id
  {
    hide InLeg;
    EmptyLeg(id);
    if IsHit(hits[0], id) {
      p := 0;
    } else {
      LegTail(hits, id);
      p := FirstInAt(hits[1..], id);
      p := p + 1;
    }
  }

  /** The chunk a fused hit carries is that of the id's first hit: in the first leg that has it, the first. */
  lemma {:induction false} FirstChunkAt(legs: seq<Leg>, id: string) returns (i: nat, p: nat)
    requires InLegs(legs, id)
    ensures i < |legs| && p < |legs[i].hits| && legs[i].hits[p].chunk == FirstChunk(legs, id) && FirstChunk(legs, id).chunkId == id
    ensures (forall j :: 0 <= j < i ==> !InLeg(legs[j].hits, id)) && forall q :: 0 <= q < p ==> legs[i].hits[q].chunk.chunkId != id
  {
    hide InLeg, FirstIn;
    if InLeg(legs[0].hits, id) {
      i := 0;
      p := FirstInAt(legs[0].hits, id);
    } else {
      TailHolds(legs, id);
      i, p := FirstChunkAt(legs[1..], id);
      i := i + 1;
    }
  }

  lemma AgreedChunk(legs: seq<Leg>, chunks: map<string, Chunk>, id: string)
    requires Agree(legs, chunks) && InLegs(legs, id)
    ensures id in chunks && FirstChunk(legs, id) == chunks[id]
  {
    hide FirstChunk, InLegs;
    var i, p := FirstChunkAt(legs, id);
    assert HoldsChunk(legs[i].hits[p], chunks);
  }

  /** Fusing the same legs in another order gives the same list. */
  lemma FusionForgetsLegOrder(full: seq<Scored>, legs: seq<Leg>, other: seq<Leg>, rrfK: int, chunks: map<string, Chunk>, k: nat)
    requires rrfK > 0 && multiset(legs) == multiset(other) && IsFusion(full, legs, rrfK) && Agree(legs, chunks)
    ensures IsFusion(full, other, rrfK) && (forall i :: 0 <= i < |full| ==> InLegs(legs, full[i].id) && InLegs(other, full[i].id))
    ensures FusedHits(full, k, legs) == FusedHits(full, k, other)
  {
    hide InLegs, FirstChunk, LegsWith, Rrf, Ahead, Agree;
    forall id: string
      ensures InLegs(legs, id) <==> InLegs(other, id)
      ensures LegsWith(legs, id) == LegsWith(other, id)
      ensures Rrf(legs, id, rrfK) == Rrf(other, id, rrfK)
    {
      SameLegs(legs, other, id);
      SameLegs(other, legs, id);
      LegOrderIrrelevant(legs, other, id, rrfK);
    }
    AgreePermutes(legs, other, chunks);
    forall i | 0 <= i < |full|
      ensures InLegs(legs, full[i].id) && InLegs(other, full[i].id)
      ensures FirstChunk(legs, full[i].id) == FirstChunk(other, full[i].id)
    {
      FusionScore(full, legs, rrfK, i);
      AgreedChunk(legs, chunks, full[i].id);
      AgreedChunk(other, chunks, full[i].id);
    }
  }

  lemma AgreePermutes(legs: seq<Leg>, other: seq<Leg>, chunks: map<string, Chunk>)
    requires multiset(legs) == multiset(other) && Agree(legs, chunks)
    ensures Agree(other, chunks)
  {
    hide HoldsChunk;
    forall i, p | 0 <= i < |other| && 0 <= p < |other[i].hits|
      ensures HoldsChunk(other[i].hits[p], chunks)
    {
      SameMembers(legs, other, other[i]);
      var j :| 0 <= j < |legs| && legs[j] == other[i];
    }
  }

  // ------------------------------------------------------------------ the fused list

  /** There is one fused list. */
  lemma OneFusion(a: seq<Scored>, b: seq<Scored>, legs: seq<Leg>, rrfK: int)
    requires rrfK > 0 && IsFusion(a, legs, rrfK) && IsFusion(b, legs, rrfK)
    ensures a == b
  {
    hide Ahead, Rrf, InLegs;
    AheadOrder();
    OneSortedList(a, b, Ahead);
  }

  /** Scores fall, equal scores come in the order of their ids, and the ranks count from 1. */
  ghost predicate RankedByScore(r: seq<ScoredChunk>) {
    && (forall i :: 0 <= i < |r| ==> r[i].rank == i + 1)
    && (forall i, j :: 0 <= i < j < |r| ==> r[i].score >= r[j].score)
    && (forall i, j :: 0 <= i < j < |r| && r[i].score == r[j].score ==> StringLe(r[i].chunk.chunkId, r[j].chunk.chunkId))
  }

  /** Fused hits have distinct ids, there are at most k of them, scores fall and ties go by id. */
  lemma FusedHitsDistinct(full: seq<Scored>, k: nat, legs: seq<Leg>, rrfK: int)
    requires rrfK > 0 && IsFusion(full, legs, rrfK)
    requires forall i :: 0 <= i < |full| ==> InLegs(legs, full[i].id)
    ensures var r := FusedHits(full, k, legs);
            && |r| <= k && DuplicateFree(r)
            && RankedByScore(r)
  {
    hide Ahead, Rrf, InLegs, FirstChunk, LegsWith;
    var r := FusedHits(full, k, legs);
    forall i | 0 <= i < |r|
      ensures r[i].chunk.chunkId == full[i].id && r[i].score == full[i].score == Rrf(legs, full[i].id, rrfK)
    {
      var leg, p := FirstChunkAt(legs, full[i].id);
      FusionScore(full, legs, rrfK, i);
    }
    forall i, j | 0 <= i < j < |r|
      ensures full[i].score >= full[j].score && (full[i].score == full[j].score ==> StringLe(full[i].id, full[j].id))
    {
      InOrder(full, legs, rrfK, i, j);
    }
    forall i, j | 0 <= i < j < |r|
      ensures r[i].chunk.chunkId != r[j].chunk.chunkId
    {
      assert full[i] != full[j];
    }
  }

  lemma InOrder(full: seq<Scored>, legs: seq<Leg>, rrfK: int, i: nat, j: nat)
    requires rrfK > 0 && IsFusion(full, legs, rrfK) && i < j < |full|
    ensures full[i].score >= full[j].score && (full[i].score == full[j].score ==> StringLe(full[i].id, full[j].id))
  {
    hide Rrf, StringLe;
    assert Ahead(full[i], full[j]);
  }
}
