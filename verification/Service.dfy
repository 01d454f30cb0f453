/** The two closures that share the maintenance lock: submission, and the idle storage maintenance. */
module Service {
  import opened Types
  import opened Canonical
  import opened WorkerLaws
  import J = Jobs
  import S = JobStores
  import O = JobOutcomes
  import D = Documents
  import DL = DocumentLaws
  import X = Indexes
  import XL = IndexLaws

  /** The directories of each tree whose modification time lies before the orphan cutoff. */
  datatype Stale = Stale(staging: set<NotebookScope>, final: set<NotebookScope>,
                         candidates: set<string>, artifacts: set<string>)

  /** What this row points at is on disk and loads. */
  ghost predicate PointedBacked(docs: D.Store, idx: X.Repo, k: J.ActiveKey, row: J.ActiveRow) {
    Backed(docs, idx, J.ScopeOf(k, row), row.artifactId)
  }

  /** Some pointer of the environment is for exactly this scope. */
  predicate NamesScope(db: J.Db, environment: string, scope: NotebookScope) {
    var k := J.ActiveKey(environment, scope.notebookId, scope.indexSchemaVersion);
    k in db.active && db.active[k].contentRevision == scope.contentRevision
  }

  ghost predicate NamesArtifact(db: J.Db, environment: string, id: string) {
    exists k :: k in db.active && k.environment == environment && db.active[k].artifactId == id
  }

  /** Of a tree exactly the stale entries that are not needed are gone; the rest is as it was. */
  ghost predicate Swept<K(!new), V>(tree: map<K, V>, tree': map<K, V>, stale: set<K>, needed: iset<K>) {
    && (forall k :: k in tree' <==> k in tree && (k !in stale || k in needed))
    && (forall k :: k in tree' ==> tree'[k] == tree[k])
  }

  ghost predicate DocumentsSwept(docs: D.Store, docs': D.Store, db: J.Db, environment: string, stale: Stale) {
    && Swept(docs.staging, docs'.staging, stale.staging, iset{})
    && Swept(docs.final, docs'.final, stale.final, iset scope | NamesScope(db, environment, scope))
    && (docs' == docs || docs'.bytesUsed == D.TreeSize(docs'))
  }

  ghost predicate IndexesSwept(idx: X.Repo, idx': X.Repo, db: J.Db, environment: string, stale: Stale) {
    && Swept(idx.candidates, idx'.candidates, stale.candidates, iset{})
    && Swept(idx.artifacts, idx'.artifacts, stale.artifacts,
             iset id | X.IsArtifactId(id) && NamesArtifact(db, environment, id))
    && (idx' == idx || idx'.bytesUsed == X.RepoSize(idx'))
  }

  lemma {:induction false} DocumentPrunesSweep(docs: D.Store, before: J.Db, environment: string, cutoff: int,
                                               stale: Stale)
    ensures var (db, snapshot) := J.Retain(before, environment, cutoff);
            DocumentsSwept(docs, D.PruneFinal(D.PruneStaging(docs, {}, stale.staging), snapshot.scopes, stale.final),
                           db, environment, stale)
  {
    hide J.Retain, D.TreeSize;
    O.RetainExactly(before, environment, cutoff);
    var (db, snapshot) := J.Retain(before, environment, cutoff);
    var s1 := D.PruneStaging(docs, {}, stale.staging);
    var s2 := D.PruneFinal(s1, snapshot.scopes, stale.final);
    assert forall scope :: scope in snapshot.scopes <==> NamesScope(db, environment, scope);
    DL.MeasureIgnoresCounter(docs.(staging := s1.staging));
    DL.MeasureIgnoresCounter(s1.(final := s2.final));
  }

  lemma {:induction false} IndexPruneSweeps(idx: X.Repo, before: J.Db, environment: string, cutoff: int, stale: Stale)
    ensures var (db, snapshot) := J.Retain(before, environment, cutoff);
            IndexesSwept(idx, X.Prune(idx, snapshot.artifactIds, stale.candidates, stale.artifacts), db, environment,
                         stale)
  {
    hide J.Retain, X.IsArtifactId, X.RepoSize;
    O.RetainExactly(before, environment, cutoff);
    var (db, snapshot) := J.Retain(before, environment, cutoff);
    NamesAreNonempty();
    assert forall id :: id != "" ==> (id in snapshot.artifactIds <==> NamesArtifact(db, environment, id));
    var idx' := X.Prune(idx, snapshot.artifactIds, stale.candidates, stale.artifacts);
    XL.SizeIgnoresCounter(idx.(candidates := idx'.candidates, artifacts := idx'.artifacts), idx'.bytesUsed);
  }

  lemma NamesAreNonempty()
    ensures forall id :: X.IsArtifactId(id) ==> id != ""
  {
  }

  class WorkerService {
    const environment: string
    const cap: nat
    const store: S.JobStore
    const documents: D.DocumentStore
    const indexes: X.IndexRepository

    constructor (environment: string, cap: nat, store: S.JobStore, documents: D.DocumentStore,
                 indexes: X.IndexRepository)
      ensures this.environment == environment && this.cap == cap
      ensures this.store == store && this.documents == documents && this.indexes == indexes
    {
      this.environment, this.cap, this.store, this.documents, this.indexes
        := environment, cap, store, documents, indexes;
    }

    method SubmitJob(req: J.SubmitRequest, cutoff: int, now: int, opId: string,
                     subId: string) returns (r: J.SubmitResult)
      modifies store
      ensures (store.State(), r)
           == J.Submit(J.Purge(old(store.State()), environment, cutoff), req, cap, now, opId, subId)
    {
      hide J.Purge, J.Submit;
      var _ := store.PurgeTerminalOperations(environment, cutoff);
      r := store.SubmitJob(req, cap, now, opId, subId);
    }

    /**
     Skipped while anything is queued or running. Otherwise old pointers expire and stale directories go, but
     nothing a remaining pointer needs: whatever was backed stays backed.
     */
    method PerformStorageMaintenance(activeCutoff: int, stale: Stale) returns (skipped: bool)
      modifies store, documents, indexes
      ensures skipped <==> exists r :: r in old(store.ops) && old(store.ops)[r].environment == environment
                                       && old(store.ops)[r].state in {J.Queued, J.Running}
      ensures store.State() == J.Retain(old(store.State()), environment, activeCutoff).0
      ensures skipped ==> documents.State() == old(documents.State()) && indexes.State() == old(indexes.State())
      ensures !skipped ==>
                && DocumentsSwept(old(documents.State()), documents.State(), store.State(), environment, stale)
                && IndexesSwept(old(indexes.State()), indexes.State(), store.State(), environment, stale)
                && documents.State() == D.PruneFinal(D.PruneStaging(old(documents.State()), {}, stale.staging),
                                                     J.ActiveScopes(store.State(), environment), stale.final)
                && indexes.State() == X.Prune(old(indexes.State()), J.ActiveArtifacts(store.State(), environment),
                                              stale.candidates, stale.artifacts)
      ensures forall k :: k in store.active && k.environment == environment
                          && PointedBacked(old(documents.State()), old(indexes.State()), k, store.active[k]) ==>
                            PointedBacked(documents.State(), indexes.State(), k, store.active[k])
    {
      hide PointedBacked, D.PruneFinal, D.PruneStaging, X.Prune, DocumentsSwept, IndexesSwept;
      ghost var before, docs, idx := store.State(), documents.State(), indexes.State();
      O.RetainExactly(before, environment, activeCutoff);
      var snapshot := store.StorageRetentionSnapshot(environment, activeCutoff);
      if !snapshot.idle {
        return true;
      }
      documents.PruneStagingRoot({}, stale.staging);
      documents.PruneFinalRoot(snapshot.scopes, stale.final);
      indexes.PruneDirectories(snapshot.artifactIds, stale.candidates, stale.artifacts);
      DocumentPrunesSweep(docs, before, environment, activeCutoff, stale);
      IndexPruneSweeps(idx, before, environment, activeCutoff, stale);
      forall k | k in store.active && k.environment == environment && PointedBacked(docs, idx, k, store.active[k])
        ensures PointedBacked(documents.State(), indexes.State(), k, store.active[k])
      {
        assert J.ScopeOf(k, store.active[k]) in snapshot.scopes;
        PruneKeepsBacked(docs, idx, stale, snapshot.scopes, snapshot.artifactIds, k, store.active[k]);
      }
      return false;
    }
  }

  lemma PruneKeepsBacked(docs: D.Store, idx: X.Repo, stale: Stale, scopes: set<NotebookScope>, ids: set<string>,
                         k: J.ActiveKey, row: J.ActiveRow)
    requires PointedBacked(docs, idx, k, row) && J.ScopeOf(k, row) in scopes
             && (row.artifactId in ids || row.artifactId == "")
    ensures PointedBacked(D.PruneFinal(D.PruneStaging(docs, {}, stale.staging), scopes, stale.final),
                          X.Prune(idx, ids, stale.candidates, stale.artifacts), k, row)
  {
    hide X.Validated, PagesChecksum, D.TreeSize, X.RepoSize, J.ScopeOf;
    assert row.artifactId != "" by { assert X.IsArtifactId(row.artifactId); }
  }
}
