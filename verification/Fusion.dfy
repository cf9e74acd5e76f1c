/** Reciprocal-rank fusion (assistant/retrieval.py). */
module Fusion {
  import opened Bm25Model
  import opened Chunking
  import opened Enumeration
  import opened Sorting
  import opened Wrappers

  /** One named ranking. */
  datatype Leg = Leg(name: string, hits: seq<ScoredChunk>)

  /** What a hit at a position, counted from 1, is worth. */
  function Share(rrfK: int, position: int): real
    requires rrfK > 0 && position >= 0
  {
    1.0 / (rrfK + position) as real
  }

  predicate IsHit(hit: ScoredChunk, id: string) {
    hit.chunk.chunkId == id
  }

  predicate InLeg(hits: seq<ScoredChunk>, id: string) {
    exists p :: 0 <= p < |hits| && IsHit(hits[p], id)
  }

  ghost predicate InLegs(legs: seq<Leg>, id: string) {
    exists i :: 0 <= i < |legs| && InLeg(legs[i].hits, id)
  }

  function LegScore(hits: seq<ScoredChunk>, id: string, rrfK: int): real
    requires rrfK > 0
  {
    if hits == [] then 0.0
    else LegScore(hits[..|hits| - 1], id, rrfK) + if IsHit(hits[|hits| - 1], id) then Share(rrfK, |hits|) else 0.0
  }

  /** RRF(d) = the sum over the rankings of 1 / (rrf_k + rank). */
  function Rrf(legs: seq<Leg>, id: string, rrfK: int): real
    requires rrfK > 0
  {
    if legs == [] then 0.0 else Rrf(legs[..|legs| - 1], id, rrfK) + LegScore(legs[|legs| - 1].hits, id, rrfK)
  }

  /** The first hit's chunk under an id. */
  function FirstIn(hits: seq<ScoredChunk>, id: string): Chunk
    requires InLeg(hits, id)
  {
    if IsHit(hits[0], id) then hits[0].chunk else FirstIn(hits[1..], id)
  }

  ghost function FirstChunk(legs: seq<Leg>, id: string): Chunk
    requires InLegs(legs, id)
  {
    if InLeg(legs[0].hits, id) then FirstIn(legs[0].hits, id) else FirstChunk(legs[1..], id)
  }

  ghost function LegsWith(legs: seq<Leg>, id: string): set<string> {
    set i | 0 <= i < |legs| && InLeg(legs[i].hits, id) :: legs[i].name
  }

  // -------------------------------------------------------------------- the tallies

  /** The three dictionaries after these rankings. */
  ghost predicate Tallied(totals: map<string, real>, seen: map<string, Chunk>, found: map<string, set<string>>, legs: seq<Leg>, rrfK: int)
    requires rrfK > 0
  {
    && totals.Keys == seen.Keys == found.Keys
    && (forall id :: id in totals <==> InLegs(legs, id))
    && forall id :: id in totals ==> totals[id] == Rrf(legs, id, rrfK) && seen[id] == FirstChunk(legs, id) && found[id] == LegsWith(legs, id)
  }

  /** All ids with their sums, in order. */
  ghost predicate IsFusion(full: seq<Scored>, legs: seq<Leg>, rrfK: int)
    requires rrfK > 0
  {
    && Sorted(full, Ahead) && Distinct(full)
    && forall x :: x in full <==> InLegs(legs, x.id) && x.score == Rrf(legs, x.id, rrfK)
  }

  /** The first k of the fused list. */
  ghost function FusedHits(full: seq<Scored>, k: nat, legs: seq<Leg>): (r: seq<ScoredChunk>)
    requires forall i :: 0 <= i < |full| ==> InLegs(legs, full[i].id)
    ensures |r| == Least(k, |full|)
    ensures forall i :: 0 <= i < |r| ==> r[i] == ScoredChunk(FirstChunk(legs, full[i].id), full[i].score, LegsWith(legs, full[i].id), i + 1)
  {
    seq(Least(k, |full|), i requires 0 <= i < |full| => ScoredChunk(FirstChunk(legs, full[i].id), full[i].score, LegsWith(legs, full[i].id), i + 1))
  }

  /** The rankings read so far: some whole, and the first hits of the next. */
  function Partial(legs: seq<Leg>, name: string, hits: seq<ScoredChunk>): seq<Leg> {
    legs + [Leg(name, hits)]
  }

  lemma InPartial(legs: seq<Leg>, name: string, hits: seq<ScoredChunk>, id: string)
    ensures InLegs(Partial(legs, name, hits), id) <==> InLegs(legs, id) || InLeg(hits, id)
  {
    hide InLeg;
    var all := Partial(legs, name, hits);
    if InLegs(legs, id) {
      var i :| 0 <= i < |legs| && InLeg(legs[i].hits, id);
      assert InLeg(all[i].hits, id);
    }
    if InLeg(hits, id) {
      assert InLeg(all[|legs|].hits, id);
    }
  }

  lemma {:induction false} FirstInPartial(legs: seq<Leg>, name: string, hits: seq<ScoredChunk>, id: string)
    requires InLegs(legs, id) || InLeg(hits, id)
    ensures InLegs(Partial(legs, name, hits), id)
    ensures FirstChunk(Partial(legs, name, hits), id) == if InLegs(legs, id) then FirstChunk(legs, id) else FirstIn(hits, id)
  {
    hide InLeg, FirstIn;
    InPartial(legs, name, hits, id);
    if legs != [] && !InLeg(legs[0].hits, id) {
      TailHolds(legs, id);
      assert Partial(legs, name, hits)[1..] == Partial(legs[1..], name, hits);
      FirstInPartial(legs[1..], name, hits, id);
    }
  }

  lemma TailHolds(legs: seq<Leg>, id: string)
    requires legs != [] && !InLeg(legs[0].hits, id)
    ensures InLegs(legs, id) <==> InLegs(legs[1..], id)
  {
    hide InLeg;
    if InLegs(legs, id) {
      var i :| 0 <= i < |legs| && InLeg(legs[i].hits, id);
      assert InLeg(legs[1..][i - 1].hits, id);
    }
    if InLegs(legs[1..], id) {
      var i :| 0 <= i < |legs[1..]| && InLeg(legs[1..][i].hits, id);
      assert InLeg(legs[i + 1].hits, id);
    }
  }

  lemma FoundInPartial(legs: seq<Leg>, name: string, hits: seq<ScoredChunk>, id: string)
    ensures LegsWith(Partial(legs, name, hits), id) == LegsWith(legs, id) + if InLeg(hits, id) then {name} else {}
  {
    hide InLeg;
    var all := Partial(legs, name, hits);
    assert all[|legs|] == Leg(name, hits);
    forall leg: string
      ensures leg in LegsWith(all, id) <==> leg in LegsWith(legs, id) || (leg == name && InLeg(hits, id))
    {
      if leg in LegsWith(legs, id) {
        var i :| 0 <= i < |legs| && InLeg(legs[i].hits, id) && legs[i].name == leg;
        assert all[i] == legs[i];
      }
    }
  }

  lemma ScoreInPartial(legs: seq<Leg>, name: string, hits: seq<ScoredChunk>, id: string, rrfK: int)
    requires rrfK > 0
    ensures Rrf(Partial(legs, name, hits), id, rrfK) == Rrf(legs, id, rrfK) + LegScore(hits, id, rrfK)
  {
    hide LegScore;
    assert Partial(legs, name, hits)[..|legs|] == legs;
  }

  lemma NextHit(hits: seq<ScoredChunk>, p: nat, id: string, rrfK: int)
    requires p < |hits| && rrfK > 0
    ensures InLeg(hits[..p + 1], id) <==> InLeg(hits[..p], id) || IsHit(hits[p], id)
    ensures LegScore(hits[..p + 1], id, rrfK) == LegScore(hits[..p], id, rrfK) + if IsHit(hits[p], id) then Share(rrfK, p + 1) else 0.0
    ensures InLeg(hits[..p], id) ==> InLeg(hits[..p + 1], id) && FirstIn(hits[..p + 1], id) == FirstIn(hits[..p], id)
    ensures !InLeg(hits[..p], id) && IsHit(hits[p], id) ==> FirstIn(hits[..p + 1], id) == hits[p].chunk
  {
    hide IsHit, Share;
    var now, next := hits[..p], hits[..p + 1];
    assert next[..p] == now && next == now + [hits[p]];
    assert next[p] == hits[p] && forall q :: 0 <= q < p ==> next[q] == now[q];
    AppendedLeg(now, hits[p], id);
    if InLeg(next, id) {
      FirstAppended(now, hits[p], id);
    }
  }

  lemma AppendedLeg(now: seq<ScoredChunk>, hit: ScoredChunk, id: string)
    ensures InLeg(now + [hit], id) <==> InLeg(now, id) || IsHit(hit, id)
  {
    hide IsHit;
    var next := now + [hit];
    assert next[|now|] == hit && forall q :: 0 <= q < |now| ==> next[q] == now[q];
  }

  lemma LegTail(hits: seq<ScoredChunk>, id: string)
    requires hits != [] && !IsHit(hits[0], id)
    ensures InLeg(hits, id) <==> InLeg(hits[1..], id)
  {
    hide IsHit;
    if InLeg(hits, id) {
      var p :| 0 <= p < |hits| && IsHit(hits[p], id);
      assert IsHit(hits[1..][p - 1], id);
    }
    if InLeg(hits[1..], id) {
      var p :| 0 <= p < |hits[1..]| && IsHit(hits[1..][p], id);
      assert IsHit(hits[p + 1], id);
    }
  }

  lemma {:induction false} FirstAppended(now: seq<ScoredChunk>, hit: ScoredChunk, id: string)
    requires InLeg(now + [hit], id)
    ensures FirstIn(now + [hit], id) == if InLeg(now, id) then FirstIn(now, id) else hit.chunk
  {
    hide IsHit, InLeg;
    AppendedLeg(now, hit, id);
    if now != [] && !IsHit(now[0], id) {
      LegTail(now, id);
      LegTail(now + [hit], id);
      assert (now + [hit])[1..] == now[1..] + [hit];
      FirstAppended(now[1..], hit, id);
    } else if now == [] {
      EmptyLeg(id);
      assert now + [hit] == [hit];
    } else {
      HeadLeg(now, id);
    }
  }

  lemma EmptyLeg(id: string)
    ensures !InLeg([], id)
  {
  }

  lemma HeadLeg(hits: seq<ScoredChunk>, id: string)
    requires hits != [] && IsHit(hits[0], id)
    ensures InLeg(hits, id)
  {
  }

  lemma TallyNothing(rrfK: int)
    requires rrfK > 0
    ensures Tallied(map[], map[], map[], [], rrfK)
  {
  }

  lemma TallyOpens(totals: map<string, real>, seen: map<string, Chunk>, found: map<string, set<string>>, legs: seq<Leg>, name: string, rrfK: int)
    requires rrfK > 0 && Tallied(totals, seen, found, legs, rrfK)
    ensures Tallied(totals, seen, found, Partial(legs, name, []), rrfK)
  {
    hide Rrf, FirstChunk, LegsWith, InLegs, InLeg, Partial;
    forall id: string
      ensures InLegs(Partial(legs, name, []), id) <==> InLegs(legs, id)
      ensures Rrf(Partial(legs, name, []), id, rrfK) == Rrf(legs, id, rrfK)
      ensures InLegs(legs, id) ==> FirstChunk(Partial(legs, name, []), id) == FirstChunk(legs, id)
      ensures LegsWith(Partial(legs, name, []), id) == LegsWith(legs, id)
    {
      EmptyLeg(id);
      InPartial(legs, name, [], id);
      ScoreInPartial(legs, name, [], id, rrfK);
      FoundInPartial(legs, name, [], id);
      if InLegs(legs, id) {
        FirstInPartial(legs, name, [], id);
      }
    }
  }

  lemma TallyHit(totals: map<string, real>, seen: map<string, Chunk>, found: map<string, set<string>>, legs: seq<Leg>, name: string,
                 hits: seq<ScoredChunk>, p: nat, rrfK: int)
    requires rrfK > 0 && p < |hits| && Tallied(totals, seen, found, Partial(legs, name, hits[..p]), rrfK)
    ensures var id := hits[p].chunk.chunkId;
            Tallied(totals[id := (if id in totals then totals[id] else 0.0) + Share(rrfK, p + 1)],
                    if id in seen then seen else seen[id := hits[p].chunk],
                    found[id := (if id in found then found[id] else {}) + {name}], Partial(legs, name, hits[..p + 1]), rrfK)
  {
    hide Rrf, FirstChunk, LegsWith, InLegs, InLeg, Partial, LegScore, FirstIn, Share;
    var id := hits[p].chunk.chunkId;
    var now, next := Partial(legs, name, hits[..p]), Partial(legs, name, hits[..p + 1]);
    forall x: string
      ensures InLegs(next, x) <==> InLegs(now, x) || x == id
      ensures Rrf(next, x, rrfK) == Rrf(now, x, rrfK) + if x == id then Share(rrfK, p + 1) else 0.0
      ensures InLegs(next, x) ==> FirstChunk(next, x) == if InLegs(now, x) then FirstChunk(now, x) else hits[p].chunk
      ensures LegsWith(next, x) == LegsWith(now, x) + if x == id then {name} else {}
    {
      PartialStep(legs, name, hits, p, x, rrfK);
    }
    AbsentScore(now, id, rrfK);
    AbsentLegs(now, id);
  }

  lemma PartialStep(legs: seq<Leg>, name: string, hits: seq<ScoredChunk>, p: nat, x: string, rrfK: int)
    requires rrfK > 0 && p < |hits|
    ensures var now, next, hit := Partial(legs, name, hits[..p]), Partial(legs, name, hits[..p + 1]), IsHit(hits[p], x);
            && (InLegs(next, x) <==> InLegs(now, x) || hit)
            && Rrf(next, x, rrfK) == Rrf(now, x, rrfK) + (if hit then Share(rrfK, p + 1) else 0.0)
            && (InLegs(next, x) ==> FirstChunk(next, x) == if InLegs(now, x) then FirstChunk(now, x) else hits[p].chunk)
            && LegsWith(next, x) == LegsWith(now, x) + (if hit then {name} else {})
  {
    hide Rrf, FirstChunk, LegsWith, InLegs, InLeg, Partial, LegScore, FirstIn, Share, IsHit;
    NextHit(hits, p, x, rrfK);
    InPartial(legs, name, hits[..p], x);
    InPartial(legs, name, hits[..p + 1], x);
    ScoreInPartial(legs, name, hits[..p], x, rrfK);
    ScoreInPartial(legs, name, hits[..p + 1], x, rrfK);
    FoundInPartial(legs, name, hits[..p], x);
    FoundInPartial(legs, name, hits[..p + 1], x);
    if InLegs(legs, x) || InLeg(hits[..p + 1], x) {
      FirstInPartial(legs, name, hits[..p + 1], x);
      if InLegs(legs, x) || InLeg(hits[..p], x) {
        FirstInPartial(legs, name, hits[..p], x);
      }
    }
  }

  lemma {:induction false} AbsentLeg(hits: seq<ScoredChunk>, id: string, rrfK: int)
    requires rrfK > 0 && !InLeg(hits, id)
    ensures LegScore(hits, id, rrfK) == 0.0
  {
    if hits != [] {
      var n := |hits| - 1;
      NextHit(hits, n, id, rrfK);
      assert hits[..n + 1] == hits;
      AbsentLeg(hits[..n], id, rrfK);
    }
  }

  lemma {:induction false} AbsentScore(legs: seq<Leg>, id: string, rrfK: int)
    requires rrfK > 0
    ensures !InLegs(legs, id) ==> Rrf(legs, id, rrfK) == 0.0
  {
    hide InLeg, LegScore;
    if legs != [] && !InLegs(legs, id) {
      var n := |legs| - 1;
      assert !InLeg(legs[n].hits, id);
      AbsentLeg(legs[n].hits, id, rrfK);
      AbsentScore(legs[..n], id, rrfK);
    }
  }

  lemma AbsentLegs(legs: seq<Leg>, id: string)
    ensures !InLegs(legs, id) ==> LegsWith(legs, id) == {}
  {
  }

  /** `fuse`. */
  method Fuse(rankings: seq<Leg>, k: int, rrfK: int) returns (r: Result<seq<ScoredChunk>, RetrievalError>, ghost full: seq<Scored>)
    ensures k <= 0 ==> r == Err(BadLimit)
    ensures k > 0 && rrfK <= 0 ==> r == Err(BadRrfConstant)
    ensures k > 0 && rrfK > 0 && rankings == [] ==> r == Err(NoRankings)
    ensures k > 0 && rrfK > 0 && rankings != [] ==> IsFusion(full, rankings, rrfK) && r == Ok(FusedHits(full, k, rankings))
  {
    hide Rrf, FirstChunk, LegsWith, InLegs, InLeg, Partial, Ahead, Tallied, Share, Sort;
    full := [];
    if k <= 0 {
      return Err(BadLimit), full;
    }
    if rrfK <= 0 {
      return Err(BadRrfConstant), full;
    }
    if rankings == [] {
      return Err(NoRankings), full;
    }
    var totals: map<string, real> := map[];
    var seen: map<string, Chunk> := map[];
    var found: map<string, set<string>> := map[];
    TallyNothing(rrfK);
    for i := 0 to |rankings|
      invariant Tallied(totals, seen, found, rankings[..i], rrfK)
    {
      var leg, hits := rankings[i].name, rankings[i].hits;
      TallyOpens(totals, seen, found, rankings[..i], leg, rrfK);
      assert hits[..0] == [];
      for p := 0 to |hits|
        invariant Tallied(totals, seen, found, Partial(rankings[..i], leg, hits[..p]), rrfK)
      {
        TallyHit(totals, seen, found, rankings[..i], leg, hits, p, rrfK);
        var id := hits[p].chunk.chunkId;
        totals := totals[id := (if id in totals then totals[id] else 0.0) + Share(rrfK, p + 1)];
        seen := if id in seen then seen else seen[id := hits[p].chunk];
        found := found[id := (if id in found then found[id] else {}) + {leg}];
      }
      assert hits[..|hits|] == hits;
      WholeLeg(rankings, i);
    }
    assert rankings[..|rankings|] == rankings;
    var pairs := Pairs(totals);
    var order := Sort(pairs, Ahead);
    full := order;
    TallySorted(totals, seen, found, rankings, rrfK, pairs);
    OrderTallied(totals, seen, found, rankings, rrfK, order);
    var n := if k < |order| then k else |order|;
    var out: seq<ScoredChunk> := [];
    for i := 0 to n
      invariant |out| == i
      invariant forall j :: 0 <= j < i ==> out[j] == FusedHits(order, k, rankings)[j]
    {
      var id := order[i].id;
      out := out + [ScoredChunk(seen[id], order[i].score, found[id], i + 1)];
    }
    assert out == FusedHits(order, k, rankings);
    r := Ok(out);
  }

  /** `totals.items()`, in no particular order. */
  method Pairs(totals: map<string, real>) returns (pairs: seq<Scored>)
    ensures Distinct(pairs) && forall x :: x in pairs <==> x.id in totals && x.score == totals[x.id]
  {
    var ids := Elements(totals.Keys);
    pairs := [];
    for i := 0 to |ids|
      invariant Distinct(pairs) && forall x :: x in pairs <==> x.id in ids[..i] && x.score == totals[x.id]
    {
      assert ids[..i + 1] == ids[..i] + [ids[i]];
      assert ids[i] !in ids[..i];
      pairs := pairs + [Scored(totals[ids[i]], ids[i])];
    }
    assert ids[..|ids|] == ids;
  }

  lemma WholeLeg(rankings: seq<Leg>, i: nat)
    requires i < |rankings|
    ensures Partial(rankings[..i], rankings[i].name, rankings[i].hits) == rankings[..i + 1]
  {
  }

  lemma TallySorted(totals: map<string, real>, seen: map<string, Chunk>, found: map<string, set<string>>, legs: seq<Leg>, rrfK: int, pairs: seq<Scored>)
    requires rrfK > 0 && Tallied(totals, seen, found, legs, rrfK)
    requires Distinct(pairs) && forall x :: x in pairs <==> x.id in totals && x.score == totals[x.id]
    ensures IsFusion(Sort(pairs, Ahead), legs, rrfK)
  {
    hide Rrf, FirstChunk, LegsWith, InLegs, Ahead, Sort;
    AheadOrder();
    SortSorted(pairs, Ahead);
    SortDistinct(pairs, Ahead);
    forall x: Scored
      ensures x in Sort(pairs, Ahead) <==> x in pairs
    {
      SortMembers(pairs, Ahead, x);
    }
  }

  lemma OrderTallied(totals: map<string, real>, seen: map<string, Chunk>, found: map<string, set<string>>, legs: seq<Leg>, rrfK: int, order: seq<Scored>)
    requires rrfK > 0 && Tallied(totals, seen, found, legs, rrfK) && IsFusion(order, legs, rrfK)
    ensures forall i :: 0 <= i < |order| ==> InLegs(legs, order[i].id) && order[i].id in seen && order[i].id in found
    ensures forall i :: 0 <= i < |order| ==> seen[order[i].id] == FirstChunk(legs, order[i].id) && found[order[i].id] == LegsWith(legs, order[i].id)
  {
    hide Rrf, FirstChunk, LegsWith, InLegs, Ahead;
    forall i | 0 <= i < |order|
      ensures InLegs(legs, order[i].id)
    {
      assert order[i] in order;
    }
  }
}
