/** One query over loaded indexes, from its options to its citations. */
module Query {
  import opened Wrappers
  import opened Types
  import opened Diversify
  import opened Retrieval
  import Citations
  import opened Answers
  import opened NoInformation

  /** An artifact that passed validation: all its chunks belong to its own notebook. */
  datatype LoadedIndex = LoadedIndex(scope: NotebookScope, chunks: seq<Chunk>, dimension: nat)

  datatype QueryError =
    | QueryOptionsInvalid
    | IndexScopeViolation
    | IndexIncompatible
    | QueryEmbeddingInvalid
    | GenerationFailed
    | CitationsRejected

  datatype Citation = Citation(sourceIdx: nat, notebookId: string, pageId: string, score: real, usedInContext: bool)

  datatype QueryResult = QueryResult(answer: Citations.Text, citations: seq<Citation>)

  predicate OptionsValid(maxSources: int, topK: int) {
    1 <= maxSources <= 100 && 1 <= topK <= 32
  }

  function AllowedNotebooks(indexes: seq<LoadedIndex>): set<string> {
    set i | 0 <= i < |indexes| :: indexes[i].scope.notebookId
  }

  ghost function AllChunks(indexes: seq<LoadedIndex>): seq<Chunk> {
    if indexes == [] then [] else AllChunks(indexes[..|indexes| - 1]) + indexes[|indexes| - 1].chunks
  }

  /** How many chunks the indexes before this one hold. */
  ghost function ChunksBefore(indexes: seq<LoadedIndex>, i: nat): nat
    requires i <= |indexes|
  {
    if i == 0 then 0 else ChunksBefore(indexes, i - 1) + |indexes[i - 1].chunks|
  }

  /** The chunks of all indexes in the order of the operation's scope, and no others. */
  lemma {:induction false} ChunksInOrder(indexes: seq<LoadedIndex>, i: nat)
    requires i < |indexes|
    ensures |AllChunks(indexes)| == ChunksBefore(indexes, |indexes|)
    ensures ChunksBefore(indexes, i) + |indexes[i].chunks| <= |AllChunks(indexes)|
    ensures AllChunks(indexes)[ChunksBefore(indexes, i)..ChunksBefore(indexes, i) + |indexes[i].chunks|]
         == indexes[i].chunks
    decreases |indexes|
  {
    var n := |indexes| - 1;
    var init := indexes[..n];
    BeforeInPrefix(indexes, n, n);
    BeforeInPrefix(indexes, n, i);
    if n > 0 {
      ChunksInOrder(init, if i < n then i else 0);
    }
    if i < n {
      var from := ChunksBefore(indexes, i);
      assert AllChunks(indexes)[from..from + |indexes[i].chunks|] == AllChunks(init)[from..from + |init[i].chunks|];
    }
  }

  lemma {:induction false} BeforeInPrefix(indexes: seq<LoadedIndex>, n: nat, i: nat)
    requires i <= n <= |indexes|
    ensures ChunksBefore(indexes[..n], i) == ChunksBefore(indexes, i)
  {
    if i > 0 {
      BeforeInPrefix(indexes, n, i - 1);
    }
  }

  ghost predicate InScope(chunks: seq<Chunk>, allowed: set<string>) {
    forall i :: 0 <= i < |chunks| ==> chunks[i].notebookId in allowed
  }

  /** The indexes that have vectors agree on their dimension. */
  ghost predicate Compatible(indexes: seq<LoadedIndex>) {
    forall i, j :: 0 <= i < |indexes| && 0 <= j < |indexes| && indexes[i].chunks != [] && indexes[j].chunks != [] ==>
                     indexes[i].dimension == indexes[j].dimension
  }

  /** Gathers the chunks of every index; a foreign chunk or a second vector dimension aborts the query. */
  method CollectChunks(indexes: seq<LoadedIndex>) returns (r: Result<seq<Chunk>, QueryError>)
    ensures r.Ok? ==> r.value == AllChunks(indexes)
    ensures r.Ok? <==> InScope(AllChunks(indexes), AllowedNotebooks(indexes)) && Compatible(indexes)
    ensures r == Err(IndexScopeViolation) ==> !InScope(AllChunks(indexes), AllowedNotebooks(indexes))
    ensures r == Err(IndexIncompatible) ==> !Compatible(indexes)
    ensures r.Err? ==> r.error == IndexScopeViolation || r.error == IndexIncompatible
  {
    var allowed := AllowedNotebooks(indexes);
    var chunks: seq<Chunk> := [];
    var dimension: Option<nat> := None;
    ghost var source := 0;
    for i := 0 to |indexes|
      invariant chunks == AllChunks(indexes[..i]) && InScope(chunks, allowed)
      invariant dimension.Some? ==>
                  0 <= source < i && indexes[source].chunks != [] && indexes[source].dimension == dimension.value
      invariant forall j :: 0 <= j < i && indexes[j].chunks != [] ==> dimension == Some(indexes[j].dimension)
    {
      var index := indexes[i];
      assert indexes[..i + 1][..i] == indexes[..i];
      if exists k :: 0 <= k < |index.chunks| && index.chunks[k].notebookId !in allowed {
        ForeignChunk(indexes, allowed, i);
        return Err(IndexScopeViolation);
      }
      if index.chunks != [] {
        if dimension.Some? && dimension.value != index.dimension {
          assert indexes[source].dimension != indexes[i].dimension;
          return Err(IndexIncompatible);
        }
        dimension, source := Some(index.dimension), i;
      }
      chunks := chunks + index.chunks;
    }
    assert indexes[..|indexes|] == indexes;
    return Ok(chunks);
  }

  lemma {:induction false} ForeignChunk(indexes: seq<LoadedIndex>, allowed: set<string>, i: nat)
    requires i < |indexes|
    requires exists k :: 0 <= k < |indexes[i].chunks| && indexes[i].chunks[k].notebookId !in allowed
    ensures !InScope(AllChunks(indexes), allowed)
  {
    var n := |indexes| - 1;
    var init := AllChunks(indexes[..n]);
    if i < n {
      ForeignChunk(indexes[..n], allowed, i);
      var j :| 0 <= j < |init| && init[j].notebookId !in allowed;
      assert AllChunks(indexes)[j] == init[j];
    } else {
      var k :| 0 <= k < |indexes[i].chunks| && indexes[i].chunks[k].notebookId !in allowed;
      assert AllChunks(indexes)[|init| + k] == indexes[i].chunks[k];
    }
  }

  /** What a successful query owes its caller, whatever the generator wrote. */
  ghost predicate Sound(indexes: seq<LoadedIndex>, hits: seq<Hit>, prompt: seq<Hit>, generated: Citations.Text,
                        r: QueryResult)
  {
    && r.answer == Citations.Normalize(generated)
    && Citations.Groups(Citations.Bracketed, r.answer) == []
    && Grounded(generated, |prompt|)
    && CitesWithin(r.answer, |prompt|)
    && (StatesNoInformation(r.answer) || (prompt != [] && CitesSomething(generated)))
    && |r.citations| == |hits|
    && (forall k :: 0 <= k < |hits| ==>
          && r.citations[k].sourceIdx == k + 1
          && r.citations[k].notebookId == hits[k].chunk.notebookId
          && r.citations[k].pageId == hits[k].chunk.pageId
          && r.citations[k].score == hits[k].score
          && r.citations[k].notebookId in AllowedNotebooks(indexes)
          && (r.citations[k].usedInContext <==> k < |prompt|))
  }

  /** Everything a query needs before the generator is asked. */
  ghost predicate Answerable(indexes: seq<LoadedIndex>, maxSources: int, topK: int, evidence: Option<Evidence>) {
    && OptionsValid(maxSources, topK)
    && InScope(AllChunks(indexes), AllowedNotebooks(indexes)) && Compatible(indexes)
    && (AllChunks(indexes) == [] || evidence.Some?)
  }

  /** It cites only sources of the prompt, and cites one or says that there is no information. */
  ghost predicate Acceptable(answer: Citations.Text, sources: nat) {
    && Grounded(answer, sources)
    && (StatesNoInformation(Citations.Normalize(answer)) || (sources > 0 && CitesSomething(answer)))
  }

  /** A query, from its options to its citations; it succeeds exactly when the generated answer is acceptable. */
  method RunQuery(indexes: seq<LoadedIndex>, maxSources: int, topK: int, strategy: Strategy,
                  evidence: Option<Evidence>, plan: Plan, generate: seq<Hit> -> Option<Citations.Text>)
    returns (r: Result<QueryResult, QueryError>, ghost hits: seq<Hit>)
    requires evidence.Some? ==> ValidEvidence(evidence.value, |AllChunks(indexes)|)
    requires ValidPlan(plan, |AllChunks(indexes)|)
    ensures r == Err(QueryOptionsInvalid) <==> !(1 <= maxSources <= 100 && 1 <= topK <= 32)
    ensures Answerable(indexes, maxSources, topK, evidence) && AllChunks(indexes) == [] ==> hits == []
    ensures Answerable(indexes, maxSources, topK, evidence) && AllChunks(indexes) != [] ==>
              && FusedInRange(evidence.value, plan, strategy, AllChunks(indexes))
              && hits == HitsOf(AllChunks(indexes),
                                Selected(AllChunks(indexes),
                                         Fused(evidence.value, plan, strategy, |AllChunks(indexes)|), topK))
    ensures r.Ok? <==>
              && Answerable(indexes, maxSources, topK, evidence)
              && var prompt := Prefix(hits, maxSources);
                 generate(prompt).Some? && Acceptable(generate(prompt).value, |prompt|)
    ensures r.Ok? ==> var prompt := Prefix(hits, maxSources);
                      generate(prompt).Some? && Sound(indexes, hits, prompt, generate(prompt).value, r.value)
  {
    hide Fused, Selected, Acceptable, Sound, HitsOf, Compatible;
    hits := [];
    if !(1 <= maxSources <= 100) || !(1 <= topK <= 32) {
      return Err(QueryOptionsInvalid), [];
    }
    var collected := CollectChunks(indexes);
    if collected.Err? {
      return Err(collected.error), [];
    }
    var chunks := collected.value;
    var rankedHits: seq<Hit> := [];
    if chunks != [] {
      if evidence.None? {
        return Err(QueryEmbeddingInvalid), [];
      }
      rankedHits := Retrieve(chunks, evidence.value, plan, strategy, topK);
      HitsAreNumbered(chunks, Selected(chunks, Fused(evidence.value, plan, strategy, |chunks|), topK),
                      AllowedNotebooks(indexes));
    }
    hits := rankedHits;
    r := AnswerFrom(indexes, rankedHits, maxSources, generate);
  }

  ghost predicate Numbered(hits: seq<Hit>, allowed: set<string>) {
    forall k :: 0 <= k < |hits| ==> hits[k].sourceIdx == k + 1 && hits[k].chunk.notebookId in allowed
  }

  lemma HitsAreNumbered(chunks: seq<Chunk>, selected: seq<Scored>, allowed: set<string>)
    requires InRange(selected, chunks) && InScope(chunks, allowed)
    ensures Numbered(HitsOf(chunks, selected), allowed)
  {
  }

  /** The generator's turn, and the check of what it wrote. */
  method AnswerFrom(indexes: seq<LoadedIndex>, hits: seq<Hit>, maxSources: nat,
                    generate: seq<Hit> -> Option<Citations.Text>)
    returns (r: Result<QueryResult, QueryError>)
    requires Numbered(hits, AllowedNotebooks(indexes))
    ensures var prompt := Prefix(hits, maxSources);
            && (r.Ok? <==> generate(prompt).Some? && Acceptable(generate(prompt).value, |prompt|))
            && (r.Ok? ==> Sound(indexes, hits, prompt, generate(prompt).value, r.value))
    ensures r.Err? ==> r.error == GenerationFailed || r.error == CitationsRejected
  {
    hide SaysNoInformation, StatesNoInformation, Citations.Normalize, Citations.MixedGroups, Grounded, CitesSomething;
    hide CitesWithin;
    hide AllowedNotebooks;
    var promptHits := if maxSources <= |hits| then hits[..maxSources] else hits;
    var generated := generate(promptHits);
    if generated.None? {
      return Err(GenerationFailed);
    }
    var sourceIds := seq(|promptHits|, k requires 0 <= k < |promptHits| => promptHits[k].sourceIdx);
    AcceptedExactly(generated.value, sourceIds);
    SaysNoInformationExactly(Citations.Normalize(generated.value));
    var answer := ValidatedAnswer(generated.value, sourceIds);
    if answer.Err? {
      return Err(CitationsRejected);
    }
    Citations.NormalizedHasNoBrackets(generated.value);
    GroundedMeansWithin(generated.value, |promptHits|);
    var citations := CiteHits(hits, |promptHits|);
    return Ok(QueryResult(answer.value, citations));
  }

  /** Every ranked hit is cited, marked by whether the generator saw it. */
  method CiteHits(hits: seq<Hit>, shown: nat) returns (citations: seq<Citation>)
    ensures |citations| == |hits|
    ensures forall k :: 0 <= k < |hits| ==>
              citations[k] == Citation(hits[k].sourceIdx, hits[k].chunk.notebookId, hits[k].chunk.pageId,
                                   hits[k].score, k < shown)
  {
    citations := [];
    for position := 1 to |hits| + 1
      invariant |citations| == position - 1
      invariant forall k :: 0 <= k < position - 1 ==>
                  citations[k] == Citation(hits[k].sourceIdx, hits[k].chunk.notebookId, hits[k].chunk.pageId,
                                   hits[k].score, k < shown)
    {
      var hit := hits[position - 1];
      citations := citations + [Citation(hit.sourceIdx, hit.chunk.notebookId, hit.chunk.pageId,
                                          hit.score, position <= shown)];
    }
  }
}
