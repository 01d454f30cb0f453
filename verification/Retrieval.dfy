/**
 Reciprocal-rank fusion of original and planner-expanded views, ranking and page diversification.
 Orderings come from outside; scores are reals.
 */
module Retrieval {
  import opened Diversify
  import opened Reals

  const SEMANTIC_EXPANSION_RRF_WEIGHT: real := 0.85
  const LEXICAL_EXPANSION_RRF_WEIGHT: real := 0.9
  const RRF_OFFSET: nat := 60
  const POOL_LIMIT: nat := 240
  const MAX_CHUNKS_PER_PAGE: nat := 2

  datatype Strategy = Hybrid | Lexical | Semantic

  type Scores = map<nat, real>

  /** What the question alone puts forward: two orderings, best first, and the hybrid lexical bonus. */
  datatype Evidence = Evidence(dense: seq<nat>, lexical: seq<nat>, bonus: Scores)

  /** What the planner's rewriting puts forward; a view that adds no new query is empty. */
  datatype Plan = Plan(dense: seq<nat>, lexical: seq<nat>)

  datatype Hit = Hit(sourceIdx: nat, chunk: Chunk, score: real)

  ghost predicate IsView(view: seq<nat>, size: nat) {
    && (forall i :: 0 <= i < |view| ==> view[i] < size)
    && (forall i, j :: 0 <= i < j < |view| ==> view[i] != view[j])
  }

  ghost predicate ValidEvidence(e: Evidence, size: nat) {
    && IsView(e.dense, size) && IsView(e.lexical, size)
    && (forall i :: i in e.bonus ==> i < size && e.bonus[i] > 0.0)
  }

  ghost predicate ValidPlan(p: Plan, size: nat) {
    IsView(p.dense, size) && IsView(p.lexical, size)
  }

  function Pool<T>(view: seq<T>, size: nat): seq<T> {
    var pool := if size < POOL_LIMIT then size else POOL_LIMIT;
    if |view| <= pool then view else view[..pool]
  }

  function Score(scores: Scores, index: nat): real {
    if index in scores then scores[index] else 0.0
  }

  function RankCredit(weight: real, rank: nat): real {
    weight / (RRF_OFFSET + rank) as real
  }

  /** The credit a view gives an index: weight over 60 plus rank, summed over its occurrences. */
  ghost function ViewCredit(view: seq<nat>, weight: real, index: nat): real {
    if view == [] then 0.0
    else ViewCredit(view[..|view| - 1], weight, index)
         + (if view[|view| - 1] == index then RankCredit(weight, |view| - 1) else 0.0)
  }

  ghost function Indices(view: seq<nat>): set<nat> {
    set i | i in view
  }

  // ---------------------------------------------------------------- the specification

  ghost function OriginalScore(e: Evidence, strategy: Strategy, size: nat, index: nat): real {
    (if strategy == Lexical then 0.0 else ViewCredit(Pool(e.dense, size), 1.0, index))
    + (if strategy == Semantic then 0.0 else ViewCredit(Pool(e.lexical, size), 1.0, index))
    + (if strategy == Hybrid then Score(e.bonus, index) else 0.0)
  }

  ghost function OriginalIndices(e: Evidence, strategy: Strategy, size: nat): set<nat> {
    (if strategy == Lexical then {} else Indices(Pool(e.dense, size)))
    + (if strategy == Semantic then {} else Indices(Pool(e.lexical, size)))
    + (if strategy == Hybrid then e.bonus.Keys else {})
  }

  /** The two expansion views may not reinforce one another: the better of the two counts. */
  ghost function ExpansionScore(p: Plan, strategy: Strategy, size: nat, index: nat): real {
    Larger(if strategy == Lexical then 0.0 else ViewCredit(Pool(p.dense, size), SEMANTIC_EXPANSION_RRF_WEIGHT, index),
           if strategy == Semantic then 0.0 else ViewCredit(Pool(p.lexical, size), LEXICAL_EXPANSION_RRF_WEIGHT, index))
  }

  ghost function ExpansionIndices(p: Plan, strategy: Strategy, size: nat): set<nat> {
    (if strategy == Lexical then {} else Indices(Pool(p.dense, size)))
    + (if strategy == Semantic then {} else Indices(Pool(p.lexical, size)))
  }

  ghost function Original(e: Evidence, strategy: Strategy, size: nat): Scores {
    map i | i in OriginalIndices(e, strategy, size) :: OriginalScore(e, strategy, size, i)
  }

  ghost function Fused(e: Evidence, p: Plan, strategy: Strategy, size: nat): Scores {
    map i | i in OriginalIndices(e, strategy, size) + ExpansionIndices(p, strategy, size) ::
      Larger(OriginalScore(e, strategy, size, i), ExpansionScore(p, strategy, size, i))
  }

  // ---------------------------------------------------------------- ranking

  /** The sort key: higher score first, lower index on a tie. */
  predicate Before(a: Scored, b: Scored) {
    a.score > b.score || (a.score == b.score && a.index < b.index)
  }

  predicate IsBest(scores: Scores, i: nat) {
    i in scores && forall j :: j in scores && j != i ==> Before(Scored(i, scores[i]), Scored(j, scores[j]))
  }

  lemma {:induction false} BestExists(scores: Scores)
    requires |scores| > 0
    ensures exists i :: i in scores && IsBest(scores, i)
    decreases |scores|
  {
    var i :| i in scores;
    var rest := scores - {i};
    assert rest.Keys == scores.Keys - {i};
    if |rest| == 0 {
      assert forall j :: j in scores && j != i ==> j in rest;
      assert IsBest(scores, i);
    } else {
      BestExists(rest);
      var b :| b in rest && IsBest(rest, b);
      var best := if Before(Scored(i, scores[i]), Scored(b, scores[b])) then i else b;
      forall j | j in scores && j != best ensures Before(Scored(best, scores[best]), Scored(j, scores[j])) {
        assert j == i || j in rest;
      }
      assert IsBest(scores, best);
    }
  }

  ghost function Best(scores: Scores): (best: nat)
    requires |scores| > 0
    ensures IsBest(scores, best)
  {
    BestExists(scores);
    var best :| IsBest(scores, best);
    best
  }

  ghost function Without(scores: Scores, i: nat): (r: Scores)
    requires i in scores
    ensures |r| == |scores| - 1
  {
    var r := scores - {i};
    assert r.Keys == scores.Keys - {i};
    r
  }

  /** The fused items sorted by the key above. */
  ghost function Ranking(scores: Scores): (r: seq<Scored>)
    ensures |r| == |scores|
    ensures forall k :: 0 <= k < |r| ==> r[k].index in scores && scores[r[k].index] == r[k].score
    decreases |scores|
  {
    if |scores| == 0 then []
    else
      var best := Best(scores);
      [Scored(best, scores[best])] + Ranking(Without(scores, best))
  }

  lemma {:induction false} BestIsUnique(scores: Scores, i: nat, j: nat)
    requires IsBest(scores, i) && IsBest(scores, j)
    ensures i == j
  {
  }

  lemma {:induction false} RanksEveryCandidate(scores: Scores, index: nat)
    requires index in scores
    ensures Scored(index, scores[index]) in Ranking(scores)
    decreases |scores|
  {
    assert index in scores.Keys && |scores| == |scores.Keys|;
    var best := Best(scores);
    if index != best {
      RanksEveryCandidate(Without(scores, best), index);
    }
  }

  lemma {:induction false} RankedBefore(scores: Scores)
    ensures forall i, j :: 0 <= i < j < |Ranking(scores)| ==> Before(Ranking(scores)[i], Ranking(scores)[j])
    decreases |scores|
  {
    if |scores| > 0 {
      RankedBefore(Without(scores, Best(scores)));
    }
  }

  /** Every candidate is ranked once, by falling score and then by rising index. */
  lemma {:induction false} RankingIsSorted(scores: Scores)
    ensures var ranked := Ranking(scores);
            && (forall i, j :: 0 <= i < j < |ranked| ==>
                  ranked[i].score > ranked[j].score
                  || (ranked[i].score == ranked[j].score && ranked[i].index < ranked[j].index))
            && (forall k :: 0 <= k < |ranked| ==>
                  ranked[k].index in scores && scores[ranked[k].index] == ranked[k].score)
            && (forall index :: index in scores ==> Scored(index, scores[index]) in ranked)
  {
    hide Ranking;
    RankedBefore(scores);
    forall index | index in scores ensures Scored(index, scores[index]) in Ranking(scores) {
      RanksEveryCandidate(scores, index);
    }
  }

  method SortByScore(scores: Scores) returns (ranked: seq<Scored>)
    ensures ranked == Ranking(scores)
  {
    hide Ranking, Best, IsBest;
    ranked := [];
    var rest := scores;
    while rest != map[]
      invariant ranked + Ranking(rest) == Ranking(scores)
      decreases |rest|
    {
      BestExists(rest);
      var i :| i in rest && IsBest(rest, i);
      RankingCons(rest, i);
      Regroup(ranked, Scored(i, rest[i]), Ranking(rest - {i}));
      ranked := ranked + [Scored(i, rest[i])];
      rest := rest - {i};
    }
    assert Ranking(map[]) == [];
    assert ranked + [] == ranked;
  }

  lemma RankingCons(scores: Scores, i: nat)
    requires i in scores && IsBest(scores, i)
    ensures |scores - {i}| < |scores|
    ensures Ranking(scores) == [Scored(i, scores[i])] + Ranking(scores - {i})
  {
    BestIsUnique(scores, i, Best(scores));
    hide IsBest;
    assert Without(scores, i) == scores - {i};
  }

  lemma Regroup<T>(a: seq<T>, x: T, b: seq<T>)
    ensures a + ([x] + b) == (a + [x]) + b
  {
  }

  // ---------------------------------------------------------------- the retrieval loops

  /** `target[index] += weight / (60 + rank)` along a view. */
  method AddView(target: Scores, view: seq<nat>, weight: real) returns (scores: Scores)
    ensures scores.Keys == target.Keys + Indices(view)
    ensures forall i :: Score(scores, i) == Score(target, i) + ViewCredit(view, weight, i)
  {
    scores := target;
    for rank := 0 to |view|
      invariant scores.Keys == target.Keys + Indices(view[..rank])
      invariant forall i :: Score(scores, i) == Score(target, i) + ViewCredit(view[..rank], weight, i)
    {
      var index := view[rank];
      assert view[..rank + 1][..rank] == view[..rank];
      scores := scores[index := Score(scores, index) + weight / (60 + rank) as real];
    }
    assert view[..|view|] == view;
  }

  /** Every entry of `bonus` is added on top. */
  method AddBonus(target: Scores, bonus: Scores) returns (scores: Scores)
    ensures scores.Keys == target.Keys + bonus.Keys
    ensures forall i :: Score(scores, i) == Score(target, i) + Score(bonus, i)
  {
    scores := target;
    var rest := bonus.Keys;
    while rest != {}
      invariant rest <= bonus.Keys
      invariant scores.Keys == target.Keys + (bonus.Keys - rest)
      invariant forall i :: Score(scores, i) == Score(target, i) + (if i in rest then 0.0 else Score(bonus, i))
      decreases rest
    {
      var i :| i in rest;
      scores := scores[i := Score(scores, i) + bonus[i]];
      rest := rest - {i};
    }
  }

  /** Expansion may raise a score to its own level but never adds to it. */
  method FuseExpansions(original: Scores, semantic: Scores, lexical: Scores) returns (fused: Scores)
    requires forall i :: Score(original, i) >= 0.0 && Score(semantic, i) >= 0.0 && Score(lexical, i) >= 0.0
    ensures fused.Keys == original.Keys + semantic.Keys + lexical.Keys
    ensures forall i :: i in fused ==>
              fused[i] == Larger(Score(original, i), Larger(Score(semantic, i), Score(lexical, i)))
  {
    fused := original;
    var rest := semantic.Keys + lexical.Keys;
    while rest != {}
      invariant rest <= semantic.Keys + lexical.Keys
      invariant fused.Keys == original.Keys + (semantic.Keys + lexical.Keys - rest)
      invariant forall i :: i in rest ==> Score(fused, i) == Score(original, i)
      invariant forall i :: i in fused && i !in rest ==>
                  fused[i] == Larger(Score(original, i), Larger(Score(semantic, i), Score(lexical, i)))
      decreases rest
    {
      var i :| i in rest;
      var expansion := Larger(Score(semantic, i), Score(lexical, i));
      fused := fused[i := Larger(Score(fused, i), expansion)];
      rest := rest - {i};
    }
  }

  /** The question's own dictionary: each strategy runs its own views, the bonus is hybrid only. */
  method CollectOriginal(e: Evidence, strategy: Strategy, size: nat) returns (original: Scores)
    requires ValidEvidence(e, size)
    ensures original == Original(e, strategy, size)
  {
    hide ViewCredit, Pool, Indices;
    original := map[];
    if strategy == Hybrid || strategy == Semantic {
      original := AddView(original, Pool(e.dense, size), 1.0);
    }
    if strategy == Hybrid || strategy == Lexical {
      original := AddView(original, Pool(e.lexical, size), 1.0);
      if strategy == Hybrid {
        original := AddBonus(original, e.bonus);
      }
    }
    assert forall i :: i in original ==> original[i] == Score(original, i);
  }

  /** The planner's two dictionaries, kept apart from the question's. */
  method CollectExpansion(p: Plan, strategy: Strategy, size: nat) returns (semantic: Scores, lexical: Scores)
    requires ValidPlan(p, size)
    ensures semantic.Keys + lexical.Keys == ExpansionIndices(p, strategy, size)
    ensures forall i :: Larger(Score(semantic, i), Score(lexical, i)) == ExpansionScore(p, strategy, size, i)
    ensures forall i :: Score(semantic, i) >= 0.0 && Score(lexical, i) >= 0.0
  {
    hide ViewCredit, Pool, Indices;
    semantic, lexical := map[], map[];
    PoolCredits(p.dense, size, SEMANTIC_EXPANSION_RRF_WEIGHT);
    PoolCredits(p.lexical, size, LEXICAL_EXPANSION_RRF_WEIGHT);
    if strategy == Hybrid || strategy == Semantic {
      semantic := AddView(semantic, Pool(p.dense, size), SEMANTIC_EXPANSION_RRF_WEIGHT);
    }
    if strategy == Hybrid || strategy == Lexical {
      lexical := AddView(lexical, Pool(p.lexical, size), LEXICAL_EXPANSION_RRF_WEIGHT);
    }
  }

  lemma {:induction false} OriginalScores(e: Evidence, strategy: Strategy, size: nat)
    requires ValidEvidence(e, size)
    ensures forall i :: OriginalScore(e, strategy, size, i) >= 0.0
    ensures forall i :: Score(Original(e, strategy, size), i) == OriginalScore(e, strategy, size, i)
  {
    hide Pool, RankCredit;
    forall i ensures OriginalScore(e, strategy, size, i) >= 0.0
                     && Score(Original(e, strategy, size), i) == OriginalScore(e, strategy, size, i) {
      PoolIsView(e.dense, size);
      PoolIsView(e.lexical, size);
      ViewCreditBounds(Pool(e.dense, size), size, 1.0, i);
      ViewCreditBounds(Pool(e.lexical, size), size, 1.0, i);
    }
  }

  lemma PoolIsView(view: seq<nat>, size: nat)
    requires IsView(view, size)
    ensures IsView(Pool(view, size), size)
  {
  }

  method Retrieve(chunks: seq<Chunk>, evidence: Evidence, plan: Plan, strategy: Strategy, count: nat)
    returns (hits: seq<Hit>)
    requires ValidEvidence(evidence, |chunks|) && ValidPlan(plan, |chunks|)
    ensures FusedInRange(evidence, plan, strategy, chunks)
    ensures hits == HitsOf(chunks, Selected(chunks, Fused(evidence, plan, strategy, |chunks|), count))
  {
    hide Fused, Diversified, OriginalScore, ExpansionScore, Ranking, HitsOf;
    FusedStaysInRange(evidence, plan, strategy, chunks);
    var original := CollectOriginal(evidence, strategy, |chunks|);
    var semantic, lexical := CollectExpansion(plan, strategy, |chunks|);
    OriginalScores(evidence, strategy, |chunks|);
    var fused := FuseExpansions(original, semantic, lexical);
    FusedIsPointwise(evidence, plan, strategy, |chunks|, fused);
    var ranked := SortByScore(fused);
    var wanted := if count < |chunks| then count else |chunks|;
    var selected := DiversifyByPage(ranked, chunks, wanted, MAX_CHUNKS_PER_PAGE);
    hits := NumberHits(chunks, selected);
  }

  lemma FusedIsPointwise(e: Evidence, p: Plan, strategy: Strategy, size: nat, fused: Scores)
    requires fused.Keys == Original(e, strategy, size).Keys + ExpansionIndices(p, strategy, size)
    requires forall i :: i in fused ==>
               fused[i] == Larger(OriginalScore(e, strategy, size, i), ExpansionScore(p, strategy, size, i))
    ensures fused == Fused(e, p, strategy, size)
  {
    hide OriginalScore, ExpansionScore;
  }

  method NumberHits(chunks: seq<Chunk>, selected: seq<Scored>) returns (hits: seq<Hit>)
    requires InRange(selected, chunks)
    ensures hits == HitsOf(chunks, selected)
  {
    hits := [];
    for k := 0 to |selected|
      invariant |hits| == k
      invariant forall i :: 0 <= i < k ==> hits[i] == Hit(i + 1, chunks[selected[i].index], selected[i].score)
    {
      hits := hits + [Hit(k + 1, chunks[selected[k].index], selected[k].score)];
    }
  }

  ghost predicate FusedInRange(e: Evidence, p: Plan, strategy: Strategy, chunks: seq<Chunk>) {
    forall i :: i in Fused(e, p, strategy, |chunks|) ==> i < |chunks|
  }

  ghost function Selected(chunks: seq<Chunk>, scores: Scores, count: nat): (selected: seq<Scored>)
    requires forall i :: i in scores ==> i < |chunks|
    ensures InRange(selected, chunks)
  {
    var ranked := Ranking(scores);
    var wanted := if count < |chunks| then count else |chunks|;
    Gather(ranked, Diversified(Keys(ranked, chunks), MAX_CHUNKS_PER_PAGE, EffectiveCount(wanted, MAX_CHUNKS_PER_PAGE)))
  }

  /** Source numbers count from one in selection order. */
  ghost function HitsOf(chunks: seq<Chunk>, selected: seq<Scored>): (hits: seq<Hit>)
    requires InRange(selected, chunks)
  {
    seq(|selected|, k requires 0 <= k < |selected| => Hit(k + 1, chunks[selected[k].index], selected[k].score))
  }

  // ---------------------------------------------------------------- credits

  lemma {:induction false} ViewCreditBounds(view: seq<nat>, size: nat, weight: real, index: nat)
    requires IsView(view, size) && weight >= 0.0
    ensures 0.0 <= ViewCredit(view, weight, index) <= weight / RRF_OFFSET as real
    ensures index !in view ==> ViewCredit(view, weight, index) == 0.0
  {
    if view != [] {
      var init, rank := view[..|view| - 1], |view| - 1;
      ViewCreditBounds(init, size, weight, index);
      RankCreditBounds(weight, rank);
    }
  }

  lemma RankCreditBounds(weight: real, rank: nat)
    requires weight >= 0.0
    ensures 0.0 <= RankCredit(weight, rank) <= weight / RRF_OFFSET as real
  {
    var d := (RRF_OFFSET + rank) as real;
    DivisionMonotone(weight, 60.0, d);
  }

  lemma DivisionMonotone(a: real, b: real, c: real)
    requires a >= 0.0 && 0.0 < b <= c
    ensures 0.0 <= a / c <= a / b
  {
    var x, y := a / b, a / c;
    assert x * b == a && y * c == a;
    ProductOrder(y, 0.0, c);
    ProductOrder(x, y, c);
    assert x >= 0.0 by { ProductOrder(x, 0.0, b); }
    ProductOrder(b, c, x);
  }

  lemma ProductOrder(x: real, y: real, c: real)
    ensures x < y && c > 0.0 ==> x * c < y * c
    ensures x <= y && c >= 0.0 ==> c * x <= c * y && x * c <= y * c
  {
  }

  /** All credit a view hands out lies between zero and its weight over 60. */
  lemma PoolCredits(view: seq<nat>, size: nat, weight: real)
    requires IsView(view, size) && weight >= 0.0
    ensures forall i :: 0.0 <= ViewCredit(Pool(view, size), weight, i) <= weight / RRF_OFFSET as real
  {
    forall i ensures 0.0 <= ViewCredit(Pool(view, size), weight, i) <= weight / RRF_OFFSET as real {
      ViewCreditBounds(Pool(view, size), size, weight, i);
    }
  }

  lemma FusedStaysInRange(e: Evidence, p: Plan, strategy: Strategy, chunks: seq<Chunk>)
    requires ValidEvidence(e, |chunks|) && ValidPlan(p, |chunks|)
    ensures FusedInRange(e, p, strategy, chunks)
  {
  }

  // ---------------------------------------------------------------- optimality of the hits

  ghost function ScoresOf(ranked: seq<Scored>): (scores: seq<real>)
    ensures |scores| == |ranked|
  {
    seq(|ranked|, k requires 0 <= k < |ranked| => ranked[k].score)
  }

  lemma GatheredScores(ranked: seq<Scored>, positions: seq<nat>)
    requires forall i :: 0 <= i < |positions| ==> positions[i] < |ranked|
    ensures Gather(ScoresOf(ranked), positions) == ScoresOf(Gather(ranked, positions))
  {
  }

  lemma FusedIsNonnegative(e: Evidence, p: Plan, strategy: Strategy, size: nat)
    requires ValidEvidence(e, size) && ValidPlan(p, size)
    ensures forall i :: i in Fused(e, p, strategy, size) ==> Fused(e, p, strategy, size)[i] >= 0.0
  {
    hide OriginalScore, ExpansionScore;
    OriginalScores(e, strategy, size);
  }

  lemma {:induction false} RankedScores(scores: Scores)
    requires forall i :: i in scores ==> scores[i] >= 0.0
    ensures Nonincreasing(ScoresOf(Ranking(scores)))
    ensures forall k :: 0 <= k < |Ranking(scores)| ==> ScoresOf(Ranking(scores))[k] >= 0.0
  {
    hide Ranking;
    RankingIsSorted(scores);
  }

  /**
   The hits of a query have the largest total score of any choice of as many chunks from its ranking that takes
   no page more than twice, whenever the ranking permits as many.
   */
  lemma {:induction false} HitsAreOptimal(chunks: seq<Chunk>, e: Evidence, p: Plan, strategy: Strategy, count: nat,
                                          choice: seq<nat>)
    requires ValidEvidence(e, |chunks|) && ValidPlan(p, |chunks|) && 1 <= count && chunks != []
    requires FusedInRange(e, p, strategy, chunks)
    requires var ranked := Ranking(Fused(e, p, strategy, |chunks|));
             var wanted := if count < |chunks| then count else |chunks|;
             && InRange(ranked, chunks)
             && wanted <= |Picks(Keys(ranked, chunks), MAX_CHUNKS_PER_PAGE, |ranked|)|
             && RespectsCap(Keys(ranked, chunks), MAX_CHUNKS_PER_PAGE, choice) && |choice| <= wanted
    ensures var ranked := Ranking(Fused(e, p, strategy, |chunks|));
            var selected := Selected(chunks, Fused(e, p, strategy, |chunks|), count);
            && Total(ScoresOf(Gather(ranked, choice))) <= Total(ScoresOf(selected))
            && |selected| == (if count < |chunks| then count else |chunks|)
  {
    hide Fused, Ranking, Picks, Diversified, RespectsCap, Total, Nonincreasing;
    var scores := Fused(e, p, strategy, |chunks|);
    var ranked := Ranking(scores);
    var wanted := if count < |chunks| then count else |chunks|;
    FusedIsNonnegative(e, p, strategy, |chunks|);
    RankedScores(scores);
    var keys := Keys(ranked, chunks);
    GreedyIsOptimal(keys, ScoresOf(ranked), MAX_CHUNKS_PER_PAGE, wanted, choice);
    ChoiceInRange(keys, choice);
    GatheredScores(ranked, choice);
    GatheredScores(ranked, Diversified(keys, MAX_CHUNKS_PER_PAGE, wanted));
  }

  lemma ChoiceInRange(keys: seq<string>, choice: seq<nat>)
    requires RespectsCap(keys, MAX_CHUNKS_PER_PAGE, choice)
    ensures forall i :: 0 <= i < |choice| ==> choice[i] < |keys|
  {
  }

  /** The hits, numbered from one, are different candidates, each with its chunk and its fused score. */
  ghost predicate AreCandidates(hits: seq<Hit>, chunks: seq<Chunk>, scores: Scores, picked: seq<nat>) {
    && |picked| == |hits|
    && (forall k :: 0 <= k < |hits| ==>
          picked[k] in scores && picked[k] < |chunks|
          && hits[k] == Hit(k + 1, chunks[picked[k]], scores[picked[k]]))
    && (forall k, m :: 0 <= k < m < |picked| ==> picked[k] != picked[m])
  }

  lemma {:induction false} HitsAreCandidates(chunks: seq<Chunk>, scores: Scores, count: nat) returns (picked: seq<nat>)
    requires forall i :: i in scores ==> i < |chunks|
    ensures AreCandidates(HitsOf(chunks, Selected(chunks, scores, count)), chunks, scores, picked)
  {
    hide Ranking, Picks, Deferred, Keys, EffectiveCount;
    var ranked := Ranking(scores);
    var selected := Selected(chunks, scores, count);
    var wanted := if count < |chunks| then count else |chunks|;
    var keys := Keys(ranked, chunks);
    var positions := Diversified(keys, MAX_CHUNKS_PER_PAGE, EffectiveCount(wanted, MAX_CHUNKS_PER_PAGE));
    RankingIsSorted(scores);
    DiversifiedDistinct(keys, MAX_CHUNKS_PER_PAGE, EffectiveCount(wanted, MAX_CHUNKS_PER_PAGE));
    RankedOnce(scores);
    picked := seq(|selected|, k requires 0 <= k < |selected| => selected[k].index);
    forall k, m | 0 <= k < m < |picked| ensures picked[k] != picked[m] {
      assert positions[k] != positions[m];
      assert picked[k] == ranked[positions[k]].index && picked[m] == ranked[positions[m]].index;
    }
  }

  lemma {:induction false} RankedOnce(scores: Scores)
    ensures forall i, j :: 0 <= i < j < |Ranking(scores)| ==> Ranking(scores)[i].index != Ranking(scores)[j].index
  {
    hide Ranking;
    RankingIsSorted(scores);
  }

  /**
   The same said of page identifiers. When some choice of as many chunks as are wanted from the ranking names no
   page more than twice, the hits are such a choice, and no such choice has a larger total score.
   */
  lemma {:induction false} HitsCapPages(chunks: seq<Chunk>, e: Evidence, p: Plan, strategy: Strategy, count: nat,
                                        choice: seq<nat>)
    requires ValidEvidence(e, |chunks|) && ValidPlan(p, |chunks|) && 1 <= count && chunks != []
    requires forall i :: 0 <= i < |chunks| ==> chunks[i].pageId != ""
    requires FusedInRange(e, p, strategy, chunks)
    requires var ranked := Ranking(Fused(e, p, strategy, |chunks|));
             InRange(ranked, chunks) && CapsPages(ranked, chunks, 2, choice)
             && |choice| == if count < |chunks| then count else |chunks|
    ensures var selected := Selected(chunks, Fused(e, p, strategy, |chunks|), count);
            var hits := HitsOf(chunks, selected);
            && |hits| == |choice| && (forall pageId :: multiset(HitPages(hits))[pageId] <= 2)
            && Total(ScoresOf(Gather(Ranking(Fused(e, p, strategy, |chunks|)), choice))) <= Total(ScoresOf(selected))
  {
    hide Fused, Ranking, Picks, Deferred, RespectsCap, Total, CapsPages, Gather, Bearing, ScoresOf;
    var ranked := Ranking(Fused(e, p, strategy, |chunks|));
    var keys := Keys(ranked, chunks);
    CapsPagesRespectsCap(ranked, chunks, 2, choice);
    ChoiceInRange(keys, choice);
    PicksOutnumber(keys, 2, choice, |keys|);
    HitsAreOptimal(chunks, e, p, strategy, count, choice);
    var selected := Selected(chunks, Fused(e, p, strategy, |chunks|), count);
    forall pageId ensures multiset(HitPages(HitsOf(chunks, selected)))[pageId] <= 2 {
      NoPageExceedsCap(ranked, chunks, 2, |choice|, pageId);
      HitsBearing(chunks, selected, |selected|, pageId);
    }
  }

  ghost function HitPages(hits: seq<Hit>): (ids: seq<string>)
    ensures |ids| == |hits|
  {
    seq(|hits|, k requires 0 <= k < |hits| => hits[k].chunk.pageId)
  }

  lemma {:induction false} HitsBearing(chunks: seq<Chunk>, selected: seq<Scored>, n: nat, pageId: string)
    requires InRange(selected, chunks) && n <= |selected|
    requires forall i :: 0 <= i < |chunks| ==> chunks[i].pageId != ""
    ensures multiset(HitPages(HitsOf(chunks, selected))[..n])[pageId] == Bearing(selected, chunks, n, pageId)
    ensures HitPages(HitsOf(chunks, selected))[..|selected|] == HitPages(HitsOf(chunks, selected))
  {
    var ids := HitPages(HitsOf(chunks, selected));
    if n > 0 {
      HitsBearing(chunks, selected, n - 1, pageId);
      assert ids[..n] == ids[..n - 1] + [ids[n - 1]];
    }
  }
}
