/**
 One query operation as the executor carries it out: the exact index of every notebook in its scope is loaded,
 and the query runs over nothing else. What vector and lexical search, planner and generator answer is arbitrary.
 */
module QueryJob {
  import opened Wrappers
  import opened Types
  import opened Diversify
  import opened Retrieval
  import opened Answers
  import opened NoInformation
  import opened Query
  import Citations
  import J = Jobs
  import S = JobStores
  import X = Indexes
  import Worker
  import WorkerLaws

  datatype QueryJobError =
    ScopeNotReady | IndexUnloadable(index: X.IndexError) | ModelNotReady | QueryFailed(query: QueryError)

  /** What surrounds the stored chunks: their text and dimension, and the answers of the searches. */
  datatype Surroundings = Surroundings(text: X.IndexChunk -> string, dimension: string -> nat,
                                       evidence: seq<LoadedIndex> -> Option<Evidence>, plan: seq<LoadedIndex> -> Plan)

  ghost predicate ValidSurroundings(around: Surroundings) {
    && (forall indexes :: ValidPlan(around.plan(indexes), |AllChunks(indexes)|))
    && (forall indexes :: around.evidence(indexes).Some? ==>
          ValidEvidence(around.evidence(indexes).value, |AllChunks(indexes)|))
  }

  function Presented(a: X.Artifact, around: Surroundings): LoadedIndex {
    LoadedIndex(a.scope, seq(|a.chunks|, i requires 0 <= i < |a.chunks| =>
                               Chunk(a.chunks[i].pageId, a.chunks[i].pageId + ".md", a.chunks[i].notebookId,
                                     around.text(a.chunks[i]))),
                around.dimension(a.artifactId))
  }

  function AllPresented(artifacts: seq<X.Artifact>, around: Surroundings): seq<LoadedIndex> {
    seq(|artifacts|, i requires 0 <= i < |artifacts| => Presented(artifacts[i], around))
  }

  /** The scope has an active index of its exact revision, and the artifact loads. */
  predicate ReadyScope(db: J.Db, idx: X.Repo, environment: string, scope: NotebookScope) {
    && J.ActiveIndex(db, environment, scope).Some?
    && X.LoadActive(idx, scope, J.ActiveIndex(db, environment, scope).value.artifactId).Ok?
  }

  ghost predicate AllReady(db: J.Db, idx: X.Repo, environment: string, scope: seq<NotebookScope>) {
    forall i :: 0 <= i < |scope| ==> ReadyScope(db, idx, environment, scope[i])
  }

  /** These are the active artifacts of the scope, in order. */
  ghost predicate AreLoaded(db: J.Db, idx: X.Repo, environment: string, scope: seq<NotebookScope>,
                            artifacts: seq<X.Artifact>)
  {
    && |artifacts| == |scope|
    && forall i :: 0 <= i < |scope| ==>
         && ReadyScope(db, idx, environment, scope[i])
         && X.LoadActive(idx, scope[i], J.ActiveIndex(db, environment, scope[i]).value.artifactId) == Ok(artifacts[i])
  }

  /** Each artifact is of its scope and holds only chunks of its notebook. */
  ghost predicate OfScope(artifacts: seq<X.Artifact>, scope: seq<NotebookScope>) {
    && |artifacts| == |scope|
    && forall i :: 0 <= i < |scope| ==>
         artifacts[i].scope == scope[i] && !X.ForeignChunk(artifacts[i].chunks, scope[i].notebookId)
  }

  lemma LoadedAreOfScope(db: J.Db, idx: X.Repo, environment: string, scope: seq<NotebookScope>,
                         artifacts: seq<X.Artifact>)
    requires AreLoaded(db, idx, environment, scope, artifacts)
    ensures OfScope(artifacts, scope) && AllReady(db, idx, environment, scope)
  {
    hide X.IsArtifactId, X.ForeignChunk, J.ActiveIndex;
  }

  function Notebooks(scope: seq<NotebookScope>): set<string> {
    set i | 0 <= i < |scope| :: scope[i].notebookId
  }

  /** This is what is put forward of some chunk of these artifacts: its page, its notebook and its own text. */
  ghost predicate ShowsChunk(artifacts: seq<X.Artifact>, around: Surroundings, chunk: Chunk) {
    exists i, k :: 0 <= i < |artifacts| && 0 <= k < |artifacts[i].chunks|
                   && artifacts[i].chunks[k].notebookId == chunk.notebookId
                   && artifacts[i].chunks[k].pageId == chunk.pageId
                   && around.text(artifacts[i].chunks[k]) == chunk.text
  }

  lemma {:induction false} InSomeIndex(indexes: seq<LoadedIndex>, chunk: Chunk) returns (i: nat, k: nat)
    requires chunk in AllChunks(indexes)
    ensures i < |indexes| && k < |indexes[i].chunks| && indexes[i].chunks[k] == chunk
    decreases |indexes|
  {
    i := |indexes| - 1;
    if chunk in indexes[i].chunks {
      k :| 0 <= k < |indexes[i].chunks| && indexes[i].chunks[k] == chunk;
    } else {
      i, k := InSomeIndex(indexes[..i], chunk);
    }
  }

  lemma {:induction false} HitsCiteChunks(artifacts: seq<X.Artifact>, around: Surroundings, hits: seq<Hit>)
    requires forall k :: 0 <= k < |hits| ==> hits[k].chunk in AllChunks(AllPresented(artifacts, around))
    ensures forall k :: 0 <= k < |hits| ==> ShowsChunk(artifacts, around, hits[k].chunk)
  {
    hide AllChunks;
    forall k | 0 <= k < |hits| ensures ShowsChunk(artifacts, around, hits[k].chunk) {
      var i, n := InSomeIndex(AllPresented(artifacts, around), hits[k].chunk);
      assert artifacts[i].chunks[n].pageId == hits[k].chunk.pageId;
    }
  }

  lemma HitsAreChunks(chunks: seq<Chunk>, e: Evidence, p: Plan, strategy: Strategy, topK: nat, hits: seq<Hit>)
    requires FusedInRange(e, p, strategy, chunks)
    requires hits == HitsOf(chunks, Selected(chunks, Fused(e, p, strategy, |chunks|), topK))
    ensures forall k :: 0 <= k < |hits| ==> hits[k].chunk in chunks
  {
    hide Fused, Selected;
  }

  /** What the fused, ranked and diversified retrieval gives. */
  ghost predicate AreHits(hits: seq<Hit>, chunks: seq<Chunk>, evidence: Option<Evidence>, plan: Plan,
                          strategy: Strategy, topK: nat)
  {
    if chunks == [] then hits == []
    else
      && evidence.Some? && FusedInRange(evidence.value, plan, strategy, chunks)
      && hits == HitsOf(chunks, Selected(chunks, Fused(evidence.value, plan, strategy, |chunks|), topK))
  }

  class QueryRunner {
    const environment: string
    const store: S.JobStore
    const indexes: X.IndexRepository

    constructor (environment: string, store: S.JobStore, indexes: X.IndexRepository)
      ensures this.environment == environment && this.store == store && this.indexes == indexes
    {
      this.environment, this.store, this.indexes := environment, store, indexes;
    }

    method LoadArtifacts(scope: seq<NotebookScope>) returns (r: Result<seq<X.Artifact>, QueryJobError>)
      ensures r.Ok? <==> AllReady(store.State(), indexes.State(), environment, scope)
      ensures r.Ok? ==> AreLoaded(store.State(), indexes.State(), environment, scope, r.value)
    {
      hide X.LoadActive, J.ActiveIndex;
      var artifacts: seq<X.Artifact> := [];
      for i := 0 to |scope|
        invariant AreLoaded(store.State(), indexes.State(), environment, scope[..i], artifacts)
      {
        var active := J.ActiveIndex(store.State(), environment, scope[i]);
        if active.None? {
          return Err(ScopeNotReady);
        }
        var loaded := indexes.Load(scope[i], active.value.artifactId);
        if loaded.Err? {
          return Err(IndexUnloadable(loaded.error));
        }
        artifacts := artifacts + [loaded.value];
      }
      assert scope[..|scope|] == scope;
      return Ok(artifacts);
    }

    /**
     From an operation's scope to its citations: it succeeds exactly when every notebook of the scope is ready,
     the model is, the query is answerable and the answer acceptable; and then whatever the generator wrote, the
     answer cites only the prompt's sources, and every citation is of a notebook of the scope.
     */
    method Run(scope: seq<NotebookScope>, modelReady: bool, around: Surroundings, maxSources: int, topK: int,
               strategy: Strategy,
               generate: seq<Hit> -> Option<Citations.Text>)
      returns (r: Result<QueryResult, QueryJobError>, ghost artifacts: seq<X.Artifact>, ghost hits: seq<Hit>)
      requires ValidSurroundings(around)
      ensures r.Ok? <==>
                && AllReady(store.State(), indexes.State(), environment, scope) && modelReady
                && Answerable(AllPresented(artifacts, around), maxSources, topK,
                              around.evidence(AllPresented(artifacts, around)))
                && var prompt := Prefix(hits, maxSources);
                   generate(prompt).Some? && Acceptable(generate(prompt).value, |prompt|)
      ensures AllReady(store.State(), indexes.State(), environment, scope) && modelReady ==>
                && AreLoaded(store.State(), indexes.State(), environment, scope, artifacts)
                && InScope(AllChunks(AllPresented(artifacts, around)), Notebooks(scope))
                && var presented := AllPresented(artifacts, around);
                   Answerable(presented, maxSources, topK, around.evidence(presented)) ==>
                     AreHits(hits, AllChunks(presented), around.evidence(presented), around.plan(presented),
                             strategy, topK)
      ensures r.Ok? ==> CitesWithin(r.value.answer, |Prefix(hits, maxSources)|)
      ensures r.Ok? ==> forall k :: 0 <= k < |r.value.citations| ==>
                r.value.citations[k].notebookId in Notebooks(scope)
      ensures r.Ok? ==>
                && |r.value.citations| == |hits|
                && forall k :: 0 <= k < |hits| ==>
                     && ShowsChunk(artifacts, around, hits[k].chunk)
                     && r.value.citations[k].notebookId == hits[k].chunk.notebookId
                     && r.value.citations[k].pageId == hits[k].chunk.pageId
    {
      hide Compatible, Acceptable, CitesWithin, AllReady, AreLoaded, AllPresented, AllChunks, Sound, InScope, OfScope;
      hide FusedInRange, HitsOf, Selected, Fused, ValidEvidence, ValidPlan, Prefix, ShowsChunk;
      hits, artifacts := [], [];
      var loaded := LoadArtifacts(scope);
      if loaded.Err? {
        return Err(loaded.error), [], [];
      }
      if !modelReady {
        return Err(ModelNotReady), [], [];
      }
      artifacts := loaded.value;
      LoadedAreOfScope(store.State(), indexes.State(), environment, scope, artifacts);
      PresentedInScope(artifacts, scope, around);
      var presented := AllPresented(loaded.value, around);
      var result;
      result, hits := RunQuery(presented, maxSources, topK, strategy,
                               around.evidence(presented), around.plan(presented), generate);
      if result.Err? {
        return Err(QueryFailed(result.error)), artifacts, hits;
      }
      ghost var prompt := Prefix(hits, maxSources);
      ghost var chunks := AllChunks(presented);
      if chunks != [] {
        HitsAreChunks(chunks, around.evidence(presented).value, around.plan(presented), strategy, topK, hits);
      }
      HitsCiteChunks(artifacts, around, hits);
      SoundCitations(presented, hits, prompt, generate(prompt).value, result.value, scope);
      return Ok(result.value), artifacts, hits;
    }
  }

  lemma SoundCitations(indexes: seq<LoadedIndex>, hits: seq<Hit>, prompt: seq<Hit>, generated: Citations.Text,
                       r: QueryResult,
                       scope: seq<NotebookScope>)
    requires Sound(indexes, hits, prompt, generated, r) && AllowedNotebooks(indexes) == Notebooks(scope)
    ensures CitesWithin(r.answer, |prompt|)
    ensures forall k :: 0 <= k < |r.citations| ==> r.citations[k].notebookId in Notebooks(scope)
    ensures |r.citations| == |hits|
    ensures forall k :: 0 <= k < |hits| ==>
              r.citations[k].notebookId == hits[k].chunk.notebookId && r.citations[k].pageId == hits[k].chunk.pageId
  {
    hide CitesWithin, Grounded, StatesNoInformation, CitesSomething, AllowedNotebooks, Notebooks;
  }

  lemma {:induction false} ChunksInScope(indexes: seq<LoadedIndex>, allowed: set<string>)
    requires forall i :: 0 <= i < |indexes| ==> InScope(indexes[i].chunks, allowed)
    ensures InScope(AllChunks(indexes), allowed)
  {
    if indexes != [] {
      ChunksInScope(indexes[..|indexes| - 1], allowed);
    }
  }

  lemma {:induction false} PresentedInScope(artifacts: seq<X.Artifact>, scope: seq<NotebookScope>, around: Surroundings)
    requires OfScope(artifacts, scope)
    ensures AllowedNotebooks(AllPresented(artifacts, around)) == Notebooks(scope)
    ensures InScope(AllChunks(AllPresented(artifacts, around)), Notebooks(scope))
    ensures forall i :: 0 <= i < |artifacts| ==> AllPresented(artifacts, around)[i].scope == scope[i]
    ensures |artifacts| == |scope|
  {
    var indexes := AllPresented(artifacts, around);
    forall i | 0 <= i < |scope| ensures InScope(indexes[i].chunks, Notebooks(scope)) {
      assert scope[i].notebookId in Notebooks(scope);
    }
    ChunksInScope(indexes, Notebooks(scope));
    assert forall i :: 0 <= i < |scope| ==> indexes[i].scope.notebookId == scope[i].notebookId;
  }

  /** In every reachable state of the worker a scope is ready exactly when
      it has an active index of its exact revision. */
  lemma {:induction false} ReadyMeansActive(site: Worker.Site, w: Worker.World, scope: NotebookScope)
    requires WorkerLaws.Inv(site, w)
    ensures ReadyScope(w.db, w.idx, site.environment, scope) <==> J.ActiveIndex(w.db, site.environment, scope).Some?
  {
    hide WorkerLaws.Inv, X.LoadActive;
    if J.ActiveIndex(w.db, site.environment, scope).Some? {
      WorkerLaws.ActiveIndexLoads(site, w, scope);
    }
  }
}
