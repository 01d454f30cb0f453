/**
 Why planner output cannot disturb strong original evidence: the best credit an expansion can
 give is 0.9/60, and whatever scored more than that from the question alone keeps its score,
 its rank and its place in the diversified selection under every plan.
 */
module Planner {
  import opened Wrappers
  import opened Reals
  import opened Diversify
  import opened Retrieval

  const STRONG: real := LEXICAL_EXPANSION_RRF_WEIGHT / RRF_OFFSET as real

  ghost function StrongPart(scores: Scores, bar: real): (strong: Scores)
    ensures strong.Keys <= scores.Keys
  {
    map i | i in scores && scores[i] > bar :: scores[i]
  }

  lemma {:induction false} ExpansionIsBounded(p: Plan, strategy: Strategy, size: nat, index: nat)
    requires ValidPlan(p, size)
    ensures 0.0 <= ExpansionScore(p, strategy, size, index) <= STRONG
  {
    PoolIsView(p.dense, size);
    PoolIsView(p.lexical, size);
    ViewCreditBounds(Pool(p.dense, size), size, SEMANTIC_EXPANSION_RRF_WEIGHT, index);
    ViewCreditBounds(Pool(p.lexical, size), size, LEXICAL_EXPANSION_RRF_WEIGHT, index);
  }

  /** A plan only adds candidates and only raises scores, never above 0.9/60 by its own doing. */
  lemma {:induction false} PlanOnlyFillsGaps(e: Evidence, p: Plan, strategy: Strategy, size: nat, index: nat)
    requires ValidEvidence(e, size) && ValidPlan(p, size)
    ensures index in Original(e, strategy, size) ==>
              index in Fused(e, p, strategy, size)
              && Fused(e, p, strategy, size)[index] >= Original(e, strategy, size)[index]
    ensures index in Fused(e, p, strategy, size)
            && Fused(e, p, strategy, size)[index] != Score(Original(e, strategy, size), index) ==>
              Fused(e, p, strategy, size)[index] <= STRONG
  {
    hide OriginalScore, ExpansionScore;
    ExpansionIsBounded(p, strategy, size, index);
    OriginalScores(e, strategy, size);
  }

  lemma {:induction false} StrongPartIsPlanFree(e: Evidence, p: Plan, strategy: Strategy, size: nat)
    requires ValidEvidence(e, size) && ValidPlan(p, size)
    ensures StrongPart(Fused(e, p, strategy, size), STRONG) == StrongPart(Original(e, strategy, size), STRONG)
  {
    hide Fused, Original;
    var original, fused := Original(e, strategy, size), Fused(e, p, strategy, size);
    forall i ensures i in StrongPart(fused, STRONG) <==> i in StrongPart(original, STRONG) {
      PlanOnlyFillsGaps(e, p, strategy, size, i);
    }
    forall i | i in StrongPart(original, STRONG) ensures fused[i] == original[i] {
      PlanOnlyFillsGaps(e, p, strategy, size, i);
    }
  }

  lemma {:induction false} BestIsStrong(scores: Scores, bar: real)
    requires |StrongPart(scores, bar)| > 0
    ensures |scores| > 0 && Best(scores) in StrongPart(scores, bar)
    ensures Best(StrongPart(scores, bar)) == Best(scores)
    ensures StrongPart(scores, bar)[Best(scores)] == scores[Best(scores)]
    ensures StrongPart(Without(scores, Best(scores)), bar) == Without(StrongPart(scores, bar), Best(scores))
  {
    var strong := StrongPart(scores, bar);
    var i :| i in strong;
    assert i in scores;
    var best := Best(scores);
    assert i == best || Before(Scored(best, scores[best]), Scored(i, scores[i]));
    assert IsBest(strong, best);
    BestIsUnique(strong, best, Best(strong));
  }

  /** Everything above a bar is ranked before, and independently of, everything else. */
  lemma {:induction false} StrongPartComesFirst(scores: Scores, bar: real)
    ensures Ranking(StrongPart(scores, bar)) <= Ranking(scores)
    decreases |scores|
  {
    hide StrongPart, Without, IsBest;
    var strong := StrongPart(scores, bar);
    if |strong| > 0 {
      BestIsStrong(scores, bar);
      var best := Best(scores);
      StrongPartComesFirst(Without(scores, best), bar);
      assert Ranking(strong) == [Scored(best, scores[best])] + Ranking(Without(strong, best));
    }
  }

  ghost function StrongRanking(e: Evidence, strategy: Strategy, size: nat): seq<Scored> {
    Ranking(StrongPart(Original(e, strategy, size), STRONG))
  }

  /** Whatever the planner returns, the ranking opens with the strong original evidence in its own order. */
  lemma {:induction false} StrongEvidenceKeepsItsRank(e: Evidence, p: Plan, strategy: Strategy, size: nat)
    requires ValidEvidence(e, size) && ValidPlan(p, size)
    ensures StrongRanking(e, strategy, size) <= Ranking(Fused(e, p, strategy, size))
    ensures StrongRanking(e, strategy, size) <= Ranking(Original(e, strategy, size))
  {
    hide Fused, Original;
    StrongPartIsPlanFree(e, p, strategy, size);
    StrongPartComesFirst(Fused(e, p, strategy, size), STRONG);
    StrongPartComesFirst(Original(e, strategy, size), STRONG);
  }

  // ---------------------------------------------------------------- through diversification

  lemma {:induction false} PicksDependOnPrefix<K>(a: seq<K>, b: seq<K>, cap: nat, n: nat)
    requires n <= |a| <= |b| && a == b[..|a|]
    ensures Picks(a, cap, n) == Picks(b, cap, n)
  {
    if n > 0 {
      PicksDependOnPrefix(a, b, cap, n - 1);
      assert a[..n - 1] == b[..n - 1];
    }
  }

  /** The capped picks among the strong evidence: what every selection starts with. */
  ghost function StrongSelection(chunks: seq<Chunk>, strong: seq<Scored>): (selected: seq<Scored>)
    requires InRange(strong, chunks)
  {
    Gather(strong, Picks(Keys(strong, chunks), MAX_CHUNKS_PER_PAGE, |strong|))
  }

  lemma {:induction false} SelectionStartsWith(ranked: seq<Scored>, strong: seq<Scored>, chunks: seq<Chunk>, count: nat)
    requires InRange(ranked, chunks) && strong <= ranked
    ensures InRange(strong, chunks)
    ensures Prefix(StrongSelection(chunks, strong), count)
         <= Gather(ranked, Diversified(Keys(ranked, chunks), MAX_CHUNKS_PER_PAGE, count))
  {
    hide Picks, Deferred;
    var cap, keys, all := MAX_CHUNKS_PER_PAGE, Keys(strong, chunks), Keys(ranked, chunks);
    assert InRange(strong, chunks);
    assert keys == all[..|strong|];
    PicksDependOnPrefix(keys, all, cap, |strong|);
    PicksGrow(all, cap, |strong|, |ranked|);
    var picks := Picks(keys, cap, |strong|);
    assert Prefix(picks, count) <= Diversified(all, cap, count);
    assert Prefix(Gather(strong, picks), count) == Gather(strong, Prefix(picks, count));
  }

  /**
   For every plan the selected hits open with the same chunks, scores and source numbers: the capped
   picks among the strong original evidence, as many of them as the requested count allows.
   */
  lemma {:induction false} StrongEvidenceKeepsItsPlace(chunks: seq<Chunk>, e: Evidence, p: Plan, strategy: Strategy,
                                                       count: nat)
    requires ValidEvidence(e, |chunks|) && ValidPlan(p, |chunks|) && 1 <= count && chunks != []
    ensures FusedInRange(e, p, strategy, chunks)
    ensures InRange(StrongRanking(e, strategy, |chunks|), chunks)
    ensures var wanted := if count < |chunks| then count else |chunks|;
            Prefix(StrongSelection(chunks, StrongRanking(e, strategy, |chunks|)), wanted)
            <= Selected(chunks, Fused(e, p, strategy, |chunks|), count)
  {
    hide Fused, Original, Diversified, Ranking, StrongSelection;
    FusedStaysInRange(e, p, strategy, chunks);
    StrongEvidenceKeepsItsRank(e, p, strategy, |chunks|);
    var ranked := Ranking(Fused(e, p, strategy, |chunks|));
    var wanted := if count < |chunks| then count else |chunks|;
    SelectionStartsWith(ranked, StrongRanking(e, strategy, |chunks|), chunks, wanted);
  }

  // ---------------------------------------------------------------- which evidence is strong

  /** One view alone makes a chunk strong exactly down to rank six. */
  lemma StrongRanks(rank: nat)
    ensures RankCredit(1.0, rank) > STRONG <==> rank <= 6
  {
    var x, d := RankCredit(1.0, rank), (RRF_OFFSET + rank) as real;
    assert STRONG == 0.015 && x * d == 1.0;
    ProductOrder(STRONG, x, d);
    ProductOrder(x, STRONG, d);
  }

  lemma {:induction false} CreditAtRank(view: seq<nat>, size: nat, weight: real, rank: nat)
    requires IsView(view, size) && rank < |view|
    ensures ViewCredit(view, weight, view[rank]) == RankCredit(weight, rank)
  {
    var init, last := view[..|view| - 1], |view| - 1;
    if rank == last {
      NoCreditOutside(init, weight, view[rank]);
    } else {
      CreditAtRank(init, size, weight, rank);
    }
  }

  lemma {:induction false} NoCreditOutside(view: seq<nat>, weight: real, index: nat)
    requires index !in view
    ensures ViewCredit(view, weight, index) == 0.0
  {
    if view != [] {
      NoCreditOutside(view[..|view| - 1], weight, index);
    }
  }

  lemma {:induction false} TopOfView(view: seq<nat>, size: nat, rank: nat)
    requires IsView(view, size) && rank <= 6 && rank < |Pool(view, size)|
    ensures ViewCredit(Pool(view, size), 1.0, view[rank]) > STRONG && view[rank] in Indices(Pool(view, size))
  {
    hide ViewCredit, RankCredit;
    StrongRanks(rank);
    PoolIsView(view, size);
    CreditAtRank(Pool(view, size), size, 1.0, rank);
    assert Pool(view, size)[rank] == view[rank];
  }

  /** The first seven chunks of each original view the strategy runs are strong evidence. */
  lemma {:induction false} TopSevenAreStrong(e: Evidence, strategy: Strategy, size: nat, rank: nat)
    requires ValidEvidence(e, size) && rank <= 6
    ensures strategy != Lexical && rank < |Pool(e.dense, size)| ==>
              e.dense[rank] in StrongPart(Original(e, strategy, size), STRONG)
    ensures strategy != Semantic && rank < |Pool(e.lexical, size)| ==>
              e.lexical[rank] in StrongPart(Original(e, strategy, size), STRONG)
  {
    PoolCredits(e.dense, size, 1.0);
    PoolCredits(e.lexical, size, 1.0);
    if rank < |Pool(e.dense, size)| {
      TopOfView(e.dense, size, rank);
    }
    if rank < |Pool(e.lexical, size)| {
      TopOfView(e.lexical, size, rank);
    }
    hide ViewCredit, Pool, IsView, Indices;
  }

  // ---------------------------------------------------------------- scores, exactly

  /** The view puts the chunk at this rank, among the 240 that count. */
  predicate RankedAt(view: seq<nat>, size: nat, index: nat, rank: nat) {
    rank < |view| && rank < size && rank < 240 && view[rank] == index
  }

  ghost function PlaceOf(view: seq<nat>, size: nat, index: nat): (place: Option<nat>)
    ensures place.Some? ==> RankedAt(view, size, index, place.value)
    ensures place.None? ==> forall rank: nat :: !RankedAt(view, size, index, rank)
  {
    if rank: nat :| RankedAt(view, size, index, rank) then Some(rank) else None
  }

  /** What a place is worth: the weight over 60 plus the rank. */
  ghost function Worth(view: seq<nat>, size: nat, weight: real, index: nat): real {
    match PlaceOf(view, size, index)
    case None => 0.0
    case Some(rank) => weight / (60 + rank) as real
  }

  lemma {:induction false} CreditIsWorth(view: seq<nat>, size: nat, weight: real, index: nat)
    requires IsView(view, size)
    ensures ViewCredit(Pool(view, size), weight, index) == Worth(view, size, weight, index)
    ensures index in Indices(Pool(view, size)) <==> PlaceOf(view, size, index).Some?
  {
    hide ViewCredit;
    PoolIsView(view, size);
    var pool, place := Pool(view, size), PlaceOf(view, size, index);
    if place.Some? {
      assert pool[place.value] == index;
      CreditAtRank(pool, size, weight, place.value);
    } else {
      forall rank | 0 <= rank < |pool| ensures pool[rank] != index {
        assert !RankedAt(view, size, index, rank);
      }
      NoCreditOutside(pool, weight, index);
    }
  }

  /**
   Every fused score: the question's views add up, with the bonus under the hybrid strategy; each of the planner's
   views can only lift a score to its own worth; a strategy runs its own views; and whatever is ranked by a view that
   is run, or has a bonus, is a candidate.
   */
  lemma {:induction false} ScoreExactly(e: Evidence, p: Plan, strategy: Strategy, size: nat, index: nat)
    requires ValidEvidence(e, size) && ValidPlan(p, size)
    ensures var fused := Fused(e, p, strategy, size);
            var dense, lexical := strategy != Lexical, strategy != Semantic;
            && (index in fused <==>
                  || (dense && (PlaceOf(e.dense, size, index).Some? || PlaceOf(p.dense, size, index).Some?))
                  || (lexical && (PlaceOf(e.lexical, size, index).Some? || PlaceOf(p.lexical, size, index).Some?))
                  || (strategy == Hybrid && index in e.bonus))
            && (index in fused ==>
                  var asked := (if dense then Worth(e.dense, size, 1.0, index) else 0.0)
                               + (if lexical then Worth(e.lexical, size, 1.0, index) else 0.0)
                               + (if strategy == Hybrid && index in e.bonus then e.bonus[index] else 0.0);
                  var planned := Larger(if dense then Worth(p.dense, size, 0.85, index) else 0.0,
                                        if lexical then Worth(p.lexical, size, 0.9, index) else 0.0);
                  fused[index] == Larger(asked, planned))
  {
    hide ViewCredit, Pool, Indices, Worth, PlaceOf;
    CreditIsWorth(e.dense, size, 1.0, index);
    CreditIsWorth(e.lexical, size, 1.0, index);
    CreditIsWorth(p.dense, size, 0.85, index);
    CreditIsWorth(p.lexical, size, 0.9, index);
  }

  /** What only the planner proposes is a candidate with exactly what the planner's views are worth. */
  lemma {:induction false} PlannedOnly(e: Evidence, p: Plan, strategy: Strategy, size: nat, rank: nat)
    requires ValidEvidence(e, size) && ValidPlan(p, size) && rank < size && rank < 240
    ensures (strategy != Lexical && rank < |p.dense| && p.dense[rank] !in Original(e, strategy, size)
             && (strategy == Semantic || PlaceOf(p.lexical, size, p.dense[rank]).None?)) ==>
              p.dense[rank] in Fused(e, p, strategy, size)
              && Fused(e, p, strategy, size)[p.dense[rank]] == 0.85 / (60 + rank) as real
    ensures (strategy != Semantic && rank < |p.lexical| && p.lexical[rank] !in Original(e, strategy, size)
             && (strategy == Lexical || PlaceOf(p.dense, size, p.lexical[rank]).None?)) ==>
              p.lexical[rank] in Fused(e, p, strategy, size)
              && Fused(e, p, strategy, size)[p.lexical[rank]] == 0.9 / (60 + rank) as real
  {
    hide Fused, PlaceOf, ViewCredit, Pool, Indices;
    if rank < |p.dense| {
      PlannedAt(e, p, strategy, size, p.dense[rank]);
      OnePlace(p.dense, size, rank);
    }
    if rank < |p.lexical| {
      PlannedAt(e, p, strategy, size, p.lexical[rank]);
      OnePlace(p.lexical, size, rank);
    }
  }

  lemma OnePlace(view: seq<nat>, size: nat, rank: nat)
    requires IsView(view, size) && rank < |view| && rank < size && rank < 240
    ensures PlaceOf(view, size, view[rank]) == Some(rank)
  {
    assert RankedAt(view, size, view[rank], rank);
  }

  /** Nothing of the question's own counts for a chunk that the question does not put forward. */
  lemma {:induction false} PlannedAt(e: Evidence, p: Plan, strategy: Strategy, size: nat, index: nat)
    requires ValidEvidence(e, size) && ValidPlan(p, size)
    ensures var dense := if strategy != Lexical then Worth(p.dense, size, 0.85, index) else 0.0;
            var lexical := if strategy != Semantic then Worth(p.lexical, size, 0.9, index) else 0.0;
            index !in Original(e, strategy, size) && index in Fused(e, p, strategy, size) ==>
              Fused(e, p, strategy, size)[index] == Larger(dense, lexical)
    ensures ((strategy != Lexical && PlaceOf(p.dense, size, index).Some?)
             || (strategy != Semantic && PlaceOf(p.lexical, size, index).Some?)) ==>
              index in Fused(e, p, strategy, size)
    ensures PlaceOf(p.dense, size, index).Some? ==>
              Worth(p.dense, size, 0.85, index)
                == 0.85 / (60 + PlaceOf(p.dense, size, index).value) as real >= 0.0
    ensures PlaceOf(p.lexical, size, index).Some? ==>
              Worth(p.lexical, size, 0.9, index)
                == 0.9 / (60 + PlaceOf(p.lexical, size, index).value) as real >= 0.0
  {
    hide PlaceOf, ViewCredit, Pool, Indices;
    ScoreExactly(e, p, strategy, size, index);
    CreditIsWorth(e.dense, size, 1.0, index);
    CreditIsWorth(e.lexical, size, 1.0, index);
    PoolIsView(p.dense, size);
    PoolIsView(p.lexical, size);
    CreditIsWorth(p.dense, size, 0.85, index);
    CreditIsWorth(p.lexical, size, 0.9, index);
    ViewCreditBounds(Pool(p.dense, size), size, 0.85, index);
    ViewCreditBounds(Pool(p.lexical, size), size, 0.9, index);
  }
}
