/**
 One index rebuild as the executor carries it out on the three stores: load and build every scope, move every
 candidate, publish all pointers in one transaction; and on any failure discard what was built.
 */
module Rebuild {
  import opened Wrappers
  import opened Types
  import opened Worker
  import opened WorkerLaws
  import J = Jobs
  import S = JobStores
  import D = Documents
  import X = Indexes
  import XL = IndexLaws

  /** One scope's share of what the outside contributes: the nonce, the material, and what raises. */
  datatype Share = Share(artifactId: string, material: X.Material, fault: X.Fault, commitRaises: bool)

  datatype RebuildError = DocumentFailed(document: D.DocumentError) | IndexFailed(index: X.IndexError) | OperationFailed

  ghost predicate NewShares(idx: X.Repo, shares: seq<Share>) {
    && (forall i :: 0 <= i < |shares| ==> XL.NewId(idx, shares[i].artifactId))
    && (forall i, j :: 0 <= i < j < |shares| ==> shares[i].artifactId != shares[j].artifactId)
  }

  ghost function Ids(candidates: seq<X.Candidate>): set<string> {
    if candidates == [] then {} else Ids(candidates[..|candidates| - 1]) + {candidates[|candidates| - 1].artifactId}
  }

  /** So far every scope has a pending candidate under its own id, and nothing else in the repository has changed. */
  ghost predicate BuiltSoFar(docs: D.Store, before: X.Repo, idx: X.Repo, scope: seq<NotebookScope>, shares: seq<Share>,
                             built: seq<X.Candidate>)
  {
    && |built| <= |scope| == |shares| && idx.artifacts == before.artifacts
    && (forall j :: 0 <= j < |built| ==> built[j].artifactId == shares[j].artifactId)
    && CandidatesOk(docs, idx, scope, built, 0)
    && idx.candidates - Ids(built) == before.candidates
  }

  /** The repository after the first k builds, if every one of them succeeds. */
  function AfterBuilds(docs: D.Store, idx: X.Repo, scope: seq<NotebookScope>, shares: seq<Share>,
                       k: nat): Option<X.Repo>
    requires k <= |scope| == |shares|
  {
    if k == 0 then Some(idx)
    else
      var before := AfterBuilds(docs, idx, scope, shares, k - 1);
      var s, share := scope[k - 1], shares[k - 1];
      if before.None? || D.Load(docs, s).Err? || s !in docs.final then None
      else
        var (after, r) := X.Build(before.value, docs.final[s], share.artifactId, share.material, share.fault);
        if r.Ok? then Some(after) else None
  }

  /** What is raised for this scope: its document does not load, or its index cannot be built. */
  function FailureOf(docs: D.Store, idx: X.Repo, scope: NotebookScope, share: Share): RebuildError {
    var loaded := D.Load(docs, scope);
    if loaded.Err? then DocumentFailed(loaded.error)
    else if scope !in docs.final then OperationFailed
    else
      var built := X.Build(idx, docs.final[scope], share.artifactId, share.material, share.fault).1;
      if built.Err? then IndexFailed(built.error) else OperationFailed
  }

  lemma {:induction false} FailureIsFinal(docs: D.Store, idx: X.Repo, scope: seq<NotebookScope>, shares: seq<Share>,
                                          k: nat, n: nat)
    requires k <= n <= |scope| == |shares| && AfterBuilds(docs, idx, scope, shares, k).None?
    ensures AfterBuilds(docs, idx, scope, shares, n).None?
  {
    if k < n {
      FailureIsFinal(docs, idx, scope, shares, k, n - 1);
    }
  }

  predicate NoneRaises(shares: seq<Share>) {
    forall i :: 0 <= i < |shares| ==> !shares[i].commitRaises
  }

  class RebuildRunner {
    const environment: string
    const store: S.JobStore
    const documents: D.DocumentStore
    const indexes: X.IndexRepository

    constructor (environment: string, store: S.JobStore, documents: D.DocumentStore, indexes: X.IndexRepository)
      ensures this.environment == environment && this.store == store && this.documents == documents
              && this.indexes == indexes
    {
      this.environment, this.store, this.documents, this.indexes := environment, store, documents, indexes;
    }

    method DiscardAll(candidates: seq<X.Candidate>)
      modifies indexes
      ensures indexes.candidates == old(indexes.candidates) - Ids(candidates)
              && indexes.artifacts == old(indexes.artifacts)
    {
      for i := 0 to |candidates|
        invariant indexes.candidates == old(indexes.candidates) - Ids(candidates[..i])
                  && indexes.artifacts == old(indexes.artifacts)
      {
        ghost var before := indexes.State();
        var id := candidates[i].artifactId;
        indexes.DiscardCandidate(id);
        DiscardFrame(before, id);
        assert candidates[..i + 1][..i] == candidates[..i];
        RemoveMore(old(indexes.candidates), Ids(candidates[..i]), id);
      }
      assert candidates[..|candidates|] == candidates;
    }

    /** Builds until every scope has its candidate, or something raises. */
    method BuildAll(scope: seq<NotebookScope>, shares: seq<Share>) returns (built: seq<X.Candidate>,
                                                                            failure: Option<RebuildError>)
      requires |shares| == |scope| && NewShares(indexes.State(), shares)
      modifies indexes
      ensures BuiltSoFar(documents.State(), old(indexes.State()), indexes.State(), scope, shares, built)
      ensures failure.None? ==> |built| == |scope|
      ensures failure.None? <==> AfterBuilds(documents.State(), old(indexes.State()), scope, shares, |scope|).Some?
      ensures failure.Some? ==>
                && |built| < |scope|
                && var idx := AfterBuilds(documents.State(), old(indexes.State()), scope, shares, |built|);
                   idx.Some? && !failure.value.OperationFailed?
                   && failure.value == FailureOf(documents.State(), idx.value, scope[|built|], shares[|built|])
    {
      hide X.Build, BuiltSoFar, NewShares, D.Load;
      built := [];
      NothingBuilt(documents.State(), indexes.State(), scope, shares);
      for i := 0 to |scope|
        invariant |built| == i
        invariant BuiltSoFar(documents.State(), old(indexes.State()), indexes.State(), scope, shares, built)
        invariant AfterBuilds(documents.State(), old(indexes.State()), scope, shares, i) == Some(indexes.State())
      {
        var loaded := documents.LoadPages(scope[i]);
        if loaded.Err? {
          FailureIsFinal(documents.State(), old(indexes.State()), scope, shares, i + 1, |scope|);
          return built, Some(DocumentFailed(loaded.error));
        }
        var share := shares[i];
        ghost var before := indexes.State();
        LoadedIsFinal(documents.State(), scope[i]);
        var candidate := indexes.BuildCandidate(documents.final[scope[i]], share.artifactId,
                                                 share.material, share.fault);
        BuildStep(documents.State(), old(indexes.State()), before, scope, shares, built);
        if candidate.Err? {
          FailureIsFinal(documents.State(), old(indexes.State()), scope, shares, i + 1, |scope|);
          return built, Some(IndexFailed(candidate.error));
        }
        built := built + [candidate.value];
      }
      return built, None;
    }

    /** Moves the candidates one by one; recording the progress after a move may raise. */
    method CommitAll(scope: seq<NotebookScope>, shares: seq<Share>, built: seq<X.Candidate>) returns (raised: bool)
      requires |built| == |scope| == |shares| && CandidatesOk(documents.State(), indexes.State(), scope, built, 0)
      modifies indexes
      ensures indexes.candidates - Ids(built) == old(indexes.candidates) - Ids(built)
      ensures Grows(documents.State(), documents.State(), old(indexes.State()), indexes.State())
      ensures raised <==> !NoneRaises(shares)
      ensures !raised ==> CandidatesOk(documents.State(), indexes.State(), scope, built, |built|)
      ensures !raised ==> indexes.candidates == old(indexes.candidates) - Ids(built)
    {
      hide X.Commit, CandidatesOk, Grows;
      SameStoresGrow(documents.State(), indexes.State(), documents.bytesUsed, indexes.bytesUsed);
      for i := 0 to |built|
        invariant forall j :: 0 <= j < i ==> !shares[j].commitRaises
        invariant CandidatesOk(documents.State(), indexes.State(), scope, built, i)
        invariant indexes.candidates - Ids(built) == old(indexes.candidates) - Ids(built)
        invariant indexes.candidates == old(indexes.candidates) - Ids(built[..i])
        invariant Grows(documents.State(), documents.State(), old(indexes.State()), indexes.State())
      {
        ghost var before := indexes.State();
        var committed := indexes.CommitCandidate(built[i]);
        CommitStep(documents.State(), before, scope, built, i);
        CommitGrows(documents.State(), before, built[i]);
        GrowsTransitive(documents.State(), documents.State(), documents.State(), old(indexes.State()),
                        before, indexes.State());
        assert built[..i + 1][..i] == built[..i];
        RemoveMore(old(indexes.candidates), Ids(built[..i]), built[i].artifactId);
        if committed.Err? || shares[i].commitRaises {
          return true;
        }
      }
      assert built[..|built|] == built;
      return false;
    }

    /**
     On success the pointers of exactly the operation's scopes move, in one transaction, to artifacts that are on
     disk and load; on failure no pointer moves. Either way no candidate is left and nothing else is lost.
     */
    method Run(operation: J.Operation, shares: seq<Share>, publishRaises: bool,
               at: int) returns (failure: Option<RebuildError>)
      requires |shares| == |operation.scope| && NewShares(indexes.State(), shares)
      modifies store, indexes
      ensures indexes.candidates == old(indexes.candidates)
      ensures Grows(documents.State(), documents.State(), old(indexes.State()), indexes.State())
      ensures failure.None? <==>
                && AfterBuilds(documents.State(), old(indexes.State()), operation.scope, shares, |shares|).Some?
                && NoneRaises(shares) && !publishRaises
      ensures failure == Some(OperationFailed) <==>
                && AfterBuilds(documents.State(), old(indexes.State()), operation.scope, shares, |shares|).Some?
                && (!NoneRaises(shares) || publishRaises)
      ensures failure.Some? ==> store.State() == old(store.State())
      ensures failure.None? ==>
                && store.State()
                     == J.ActivateIndexes(old(store.State()), environment, Assigned(operation.scope, shares), at)
                && forall i :: 0 <= i < |shares| ==>
                     Backed(documents.State(), indexes.State(), operation.scope[i], shares[i].artifactId)
    {
      hide Grows, CandidatesOk, J.Pointers, Backed;
      ghost var start := indexes.State();
      var built, broken := BuildAll(operation.scope, shares);
      ghost var mid := indexes.State();
      SameArtifactsGrow(documents.State(), start, mid);
      if broken.Some? {
        DiscardAll(built);
        SameArtifactsGrow(documents.State(), start, indexes.State());
        return broken;
      }
      var raised := CommitAll(operation.scope, shares, built);
      GrowsTransitive(documents.State(), documents.State(), documents.State(), start, mid, indexes.State());
      if raised || publishRaises {
        ghost var late := indexes.State();
        DiscardAll(built);
        SameArtifactsGrow(documents.State(), late, indexes.State());
        GrowsTransitive(documents.State(), documents.State(), documents.State(), start, late, indexes.State());
        return Some(OperationFailed);
      }
      AllMoved(documents.State(), indexes.State(), operation.scope, shares, built);
      var entries := seq(|built|, i requires 0 <= i < |built| => (built[i].scope, built[i].artifactId));
      assert entries == Assigned(operation.scope, shares);
      store.Activate(entries, environment, at);
      return None;
    }
  }

  function Assigned(scope: seq<NotebookScope>, shares: seq<Share>): seq<(NotebookScope, string)>
    requires |shares| == |scope|
  {
    seq(|scope|, i requires 0 <= i < |scope| => (scope[i], shares[i].artifactId))
  }

  lemma DiscardFrame(idx: X.Repo, id: string)
    ensures X.Discard(idx, id).candidates == idx.candidates - {id} && X.Discard(idx, id).artifacts == idx.artifacts
  {
  }

  lemma RemoveMore(m: map<string, X.Artifact>, gone: set<string>, id: string)
    ensures m - gone - {id} == m - (gone + {id})
  {
  }

  lemma BuildFrame(idx: X.Repo, document: D.Document, artifactId: string, m: X.Material, fault: X.Fault)
    ensures var (idx', r) := X.Build(idx, document, artifactId, m, fault);
            && idx'.artifacts == idx.artifacts
            && (r.Err? ==> idx'.candidates == idx.candidates)
            && (r.Ok? ==> r.value.artifactId == artifactId && artifactId in idx'.candidates
                          && idx'.candidates == idx.candidates[artifactId := idx'.candidates[artifactId]])
  {
    hide X.Written, X.Validated;
  }

  lemma CandidatesStay(docs: D.Store, idx: X.Repo, idx': X.Repo, scope: seq<NotebookScope>, built: seq<X.Candidate>)
    requires CandidatesOk(docs, idx, scope, built, 0) && idx'.candidates == idx.candidates
             && idx'.artifacts == idx.artifacts
    ensures CandidatesOk(docs, idx', scope, built, 0)
  {
    hide X.IsArtifactId, X.Validated, D.Load;
  }

  lemma {:induction false} NotAmong(candidates: seq<X.Candidate>, id: string)
    requires forall i :: 0 <= i < |candidates| ==> candidates[i].artifactId != id
    ensures id !in Ids(candidates)
  {
    if candidates != [] {
      NotAmong(candidates[..|candidates| - 1], id);
    }
  }

  lemma NothingBuilt(docs: D.Store, idx: X.Repo, scope: seq<NotebookScope>, shares: seq<Share>)
    requires |scope| == |shares|
    ensures BuiltSoFar(docs, idx, idx, scope, shares, [])
  {
    assert idx.candidates - {} == idx.candidates;
  }

  lemma LoadedIsFinal(docs: D.Store, scope: NotebookScope)
    requires D.Load(docs, scope).Ok?
    ensures scope in docs.final
  {
  }

  lemma IdsOneMore(built: seq<X.Candidate>, c: X.Candidate)
    ensures Ids(built + [c]) == Ids(built) + {c.artifactId}
  {
    assert (built + [c])[..|built|] == built;
  }

  /** The next id is new to the repository as it now is. */
  lemma NextIsNew(before: X.Repo, idx: X.Repo, shares: seq<Share>, built: seq<X.Candidate>)
    requires |built| < |shares| && NewShares(before, shares) && idx.artifacts == before.artifacts
    requires forall j :: 0 <= j < |built| ==> built[j].artifactId == shares[j].artifactId
    requires idx.candidates - Ids(built) == before.candidates
    ensures XL.NewId(idx, shares[|built|].artifactId) && shares[|built|].artifactId !in Ids(built)
  {
    hide X.IsArtifactId;
    var id := shares[|built|].artifactId;
    NotAmong(built, id);
    assert id !in idx.candidates - Ids(built);
  }

  lemma AddThenRemove(m: map<string, X.Artifact>, m': map<string, X.Artifact>, ids: set<string>, id: string)
    requires id !in m && m' - {id} == m
    ensures m' - (ids + {id}) == m - ids
  {
    assert m' - (ids + {id}) == m' - {id} - ids;
  }

  lemma {:induction false} BuildStep(docs: D.Store, before: X.Repo, idx: X.Repo, scope: seq<NotebookScope>,
                                     shares: seq<Share>, built: seq<X.Candidate>)
    requires BuiltSoFar(docs, before, idx, scope, shares, built) && |built| < |scope| && NewShares(before, shares)
    requires scope[|built|] in docs.final && D.Load(docs, scope[|built|]).Ok?
    ensures var share := shares[|built|];
            var (idx', r) := X.Build(idx, docs.final[scope[|built|]], share.artifactId, share.material, share.fault);
            BuiltSoFar(docs, before, idx', scope, shares, if r.Ok? then built + [r.value] else built)
  {
    hide X.Build, Pending, X.IsArtifactId, D.Load, NewShares, Backed, CandidatesOk;
    var share, document := shares[|built|], docs.final[scope[|built|]];
    var (idx', r) := X.Build(idx, document, share.artifactId, share.material, share.fault);
    NextIsNew(before, idx, shares, built);
    BuildFrame(idx, document, share.artifactId, share.material, share.fault);
    if r.Ok? {
      BuildAddsPending(docs, idx, scope[|built|], share.artifactId, share.material, share.fault);
      OneMorePending(docs, idx, idx', scope, built, r.value);
      assert idx'.candidates - {share.artifactId} == idx.candidates;
      IdsOneMore(built, r.value);
      AddThenRemove(idx.candidates, idx'.candidates, Ids(built), share.artifactId);
    } else {
      CandidatesStay(docs, idx, idx', scope, built);
    }
  }

  lemma OneMorePending(docs: D.Store, idx: X.Repo, idx': X.Repo, scope: seq<NotebookScope>, built: seq<X.Candidate>,
                       c: X.Candidate)
    requires CandidatesOk(docs, idx, scope, built, 0) && |built| < |scope| && c.scope == scope[|built|]
             && Pending(docs, idx', c)
    requires forall d :: Pending(docs, idx, d) ==> Pending(docs, idx', d) && d.artifactId != c.artifactId
    ensures CandidatesOk(docs, idx', scope, built + [c], 0)
  {
    hide Pending, Backed;
  }

  lemma {:induction false} InIds(candidates: seq<X.Candidate>, i: nat)
    requires i < |candidates|
    ensures candidates[i].artifactId in Ids(candidates)
  {
    if i < |candidates| - 1 {
      InIds(candidates[..|candidates| - 1], i);
    }
  }

  lemma CommitFrame(idx: X.Repo, c: X.Candidate)
    requires c.artifactId in idx.candidates && c.artifactId !in idx.artifacts
    ensures X.Commit(idx, c).0.candidates == idx.candidates - {c.artifactId}
  {
    hide X.Validated;
  }

  lemma {:induction false} CommitStep(docs: D.Store, idx: X.Repo, scope: seq<NotebookScope>, built: seq<X.Candidate>,
                                      i: nat)
    requires CandidatesOk(docs, idx, scope, built, i) && i < |built|
    ensures var (idx', r) := X.Commit(idx, built[i]);
            && CandidatesOk(docs, idx', scope, built, i + 1) && r.Ok?
            && idx'.candidates - Ids(built) == idx.candidates - Ids(built)
            && idx'.candidates == idx.candidates - {built[i].artifactId}
  {
    hide X.Commit, Backed, X.Validated, X.IsArtifactId, D.Load, Grows;
    var c := built[i];
    var idx' := X.Commit(idx, c).0;
    assert Pending(docs, idx, c);
    CommitFrame(idx, c);
    CommitBacks(docs, idx, c);
    CommitGrows(docs, idx, c);
    InIds(built, i);
    assert idx.candidates - {c.artifactId} - Ids(built) == idx.candidates - Ids(built);
    hide Pending;
    forall j | 0 <= j < i ensures Backed(docs, idx', built[j].scope, built[j].artifactId) {
      BackedGrows(docs, docs, idx, idx', built[j].scope, built[j].artifactId);
    }
  }

  lemma AllMoved(docs: D.Store, idx: X.Repo, scope: seq<NotebookScope>, shares: seq<Share>, built: seq<X.Candidate>)
    requires |built| == |scope| == |shares| && CandidatesOk(docs, idx, scope, built, |built|)
    requires forall j :: 0 <= j < |built| ==> built[j].artifactId == shares[j].artifactId
    ensures forall i :: 0 <= i < |shares| ==> Backed(docs, idx, scope[i], shares[i].artifactId)
    ensures forall i :: 0 <= i < |built| ==> built[i].scope == scope[i]
  {
    hide Backed;
  }
}
