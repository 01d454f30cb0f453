/** What the worker keeps across its stores in every interleaving, and what it never does. */
module WorkerLaws {
  import opened Wrappers
  import opened Types
  import opened Canonical
  import opened Worker
  import J = Jobs
  import L = JobLaws
  import R = JobRuns
  import E = Executor
  import D = Documents
  import DL = DocumentLaws
  import X = Indexes
  import XL = IndexLaws
  import SU = Sums

  // ---------------------------------------------------------------- invariants

  /** The executor works on the one running operation, and there is none when it does not work. */
  ghost predicate RunnerOk(site: Site, w: World) {
    match w.exec
    case Down => w.lock == Free
    case Busy(row, _) => row in w.db.ops && J.RowsIn(w.db.ops, site.environment, J.Running) == {row}
    case _ => J.RowsIn(w.db.ops, site.environment, J.Running) == {}
  }

  /**
   The artifact is on disk and loads under exactly this scope, and so does the document it was built from, whose
   pages its chunks name.
   */
  ghost predicate Backed(docs: D.Store, idx: X.Repo, scope: NotebookScope, artifactId: string) {
    && X.LoadActive(idx, scope, artifactId).Ok? && artifactId in idx.artifacts
    && scope in docs.final && D.Load(docs, scope).Ok?
    && docs.final[scope].checksum == idx.artifacts[artifactId].checksum
    && XL.NamesPages(idx.artifacts[artifactId].chunks, docs.final[scope].pages)
  }

  ghost predicate PointersOk(site: Site, w: World) {
    forall k :: k in w.db.active && k.environment == site.environment ==>
      Backed(w.docs, w.idx, J.ScopeOf(k, w.db.active[k]), w.db.active[k].artifactId)
  }

  /** While directories are deleted, nothing is queued or running and the keep set is the present one. */
  ghost predicate KeepOk(site: Site, w: World) {
    w.lock.Pruning? ==>
      && J.ActiveRows(w.db.ops, site.environment) == {} && !w.exec.Busy?
      && w.lock.keep.scopes == J.ActiveScopes(w.db, site.environment)
      && w.lock.keep.artifactIds == J.ActiveArtifacts(w.db, site.environment)
  }

  /** A candidate still to be moved. */
  ghost predicate Pending(docs: D.Store, idx: X.Repo, c: X.Candidate) {
    && X.IsArtifactId(c.artifactId) && c.artifactId in idx.candidates && c.artifactId !in idx.artifacts
    && X.Validated(idx.candidates[c.artifactId], c.scope, c.artifactId).Ok?
    && c.scope in docs.final && D.Load(docs, c.scope).Ok?
    && docs.final[c.scope].checksum == idx.candidates[c.artifactId].checksum
    && XL.NamesPages(idx.candidates[c.artifactId].chunks, docs.final[c.scope].pages)
  }

  ghost predicate CandidatesOk(docs: D.Store, idx: X.Repo, scope: seq<NotebookScope>, candidates: seq<X.Candidate>,
                               committed: nat)
  {
    && committed <= |candidates| <= |scope|
    && (forall i :: 0 <= i < |candidates| ==> candidates[i].scope == scope[i])
    && (forall i, j :: 0 <= i < j < |candidates| ==> candidates[i].artifactId != candidates[j].artifactId)
    && (forall i :: 0 <= i < committed ==> Backed(docs, idx, candidates[i].scope, candidates[i].artifactId))
    && (forall i :: committed <= i < |candidates| ==> Pending(docs, idx, candidates[i]))
  }

  ghost predicate TaskOk(w: World) {
    w.exec.Busy? && w.exec.row in w.db.ops && (w.exec.task.Building? || w.exec.task.Committing?) ==>
      && CandidatesOk(w.docs, w.idx, Current(w).scope, Candidates(w.exec.task), Committed(w.exec.task))
      && (w.exec.task.Committing? ==> |w.exec.task.candidates| == |Current(w).scope|)
  }

  ghost predicate Inv(site: Site, w: World) {
    L.DbOk(w.db, site.cap) && RunnerOk(site, w) && PointersOk(site, w) && KeepOk(site, w) && TaskOk(w)
  }

  // ---------------------------------------------------------------- stores that lose nothing

  /** Every artifact and every finalized document of before is still there, unchanged. */
  ghost predicate Grows(docs: D.Store, docs': D.Store, idx: X.Repo, idx': X.Repo) {
    && (forall id :: id in idx.artifacts ==> id in idx'.artifacts && idx'.artifacts[id] == idx.artifacts[id])
    && (forall scope :: scope in docs.final ==> scope in docs'.final && docs'.final[scope] == docs.final[scope])
  }

  lemma BackedGrows(docs: D.Store, docs': D.Store, idx: X.Repo, idx': X.Repo, scope: NotebookScope, artifactId: string)
    requires Grows(docs, docs', idx, idx') && Backed(docs, idx, scope, artifactId)
    ensures Backed(docs', idx', scope, artifactId)
  {
    hide X.Validated, X.IsArtifactId, PagesChecksum;
  }

  lemma PointersGrow(site: Site, w: World, w': World)
    requires PointersOk(site, w) && Grows(w.docs, w'.docs, w.idx, w'.idx)
    requires forall k :: k in w'.db.active ==> k in w.db.active && w'.db.active[k] == w.db.active[k]
    ensures PointersOk(site, w')
  {
    hide Backed, Grows;
    forall k | k in w'.db.active && k.environment == site.environment
      ensures Backed(w'.docs, w'.idx, J.ScopeOf(k, w'.db.active[k]), w'.db.active[k].artifactId)
    {
      BackedGrows(w.docs, w'.docs, w.idx, w'.idx, J.ScopeOf(k, w.db.active[k]), w.db.active[k].artifactId);
    }
  }

  lemma SameStoresGrow(docs: D.Store, idx: X.Repo, m: int, n: int)
    ensures Grows(docs, docs.(bytesUsed := m), idx, idx.(bytesUsed := n))
  {
  }

  lemma FinalizeGrows(docs: D.Store, idx: X.Repo, scope: NotebookScope, checksum: Digest, pageCount: nat,
                      batchCount: nat)
    ensures Grows(docs, D.Finalize(docs, scope, checksum, pageCount, batchCount).0, idx, idx)
  {
    hide D.Promote, D.DirectoryBytes;
    DL.PromoteKeepsFinal(docs, scope, checksum, pageCount, batchCount);
  }

  lemma CutFinalizeGrows(docs: D.Store, idx: X.Repo, scope: NotebookScope, checksum: Digest, pageCount: nat,
                         batchCount: nat, gone: set<nat>)
    ensures Grows(docs, D.CutFinalize(docs, scope, checksum, pageCount, batchCount, gone).0, idx, idx)
  {
    hide D.Promote;
    DL.PromoteKeepsFinal(docs, scope, checksum, pageCount, batchCount);
  }

  lemma StageGrows(docs: D.Store, idx: X.Repo, scope: NotebookScope, number: nat, checksum: Digest, pages: seq<Page>)
    ensures Grows(docs, D.StageBatch(docs, scope, number, checksum, pages).0, idx, idx)
  {
    hide PagesChecksum, D.BatchBytes;
  }

  lemma BuildGrows(docs: D.Store, idx: X.Repo, document: D.Document, artifactId: string, m: X.Material, fault: X.Fault)
    ensures Grows(docs, docs, idx, X.Build(idx, document, artifactId, m, fault).0)
  {
    hide X.Written, X.Validated;
  }

  lemma CommitGrows(docs: D.Store, idx: X.Repo, c: X.Candidate)
    ensures Grows(docs, docs, idx, X.Commit(idx, c).0)
  {
    hide X.Validated;
  }

  lemma DiscardGrows(docs: D.Store, idx: X.Repo, id: string)
    ensures Grows(docs, docs, idx, X.Discard(idx, id))
  {
  }

  // ---------------------------------------------------------------- deletions

  predicate Deletion(step: Step) {
    || step.RemoveStaged? || step.RemoveDocument? || step.RemoveCandidate? || step.RemoveArtifact?
    || step.TearStaged? || step.TearCandidate? || step.TearArtifact?
  }

  /** No directory is deleted while an operation of the environment is queued or running. */
  lemma {:induction false} DeletesOnlyWhenIdle(site: Site, w: World, step: Step)
    requires Inv(site, w) && Enabled(site, w, step) && Deletion(step)
    ensures J.ActiveRows(w.db.ops, site.environment) == {} && !w.exec.Busy?
  {
    hide L.DbOk, PointersOk, TaskOk;
  }

  lemma PointedIsKept(site: Site, w: World, k: J.ActiveKey)
    requires PointersOk(site, w) && k in w.db.active && k.environment == site.environment
    ensures J.ScopeOf(k, w.db.active[k]) in J.ActiveScopes(w.db, site.environment)
    ensures w.db.active[k].artifactId in J.ActiveArtifacts(w.db, site.environment)
    ensures X.IsArtifactId(w.db.active[k].artifactId)
  {
    assert Backed(w.docs, w.idx, J.ScopeOf(k, w.db.active[k]), w.db.active[k].artifactId);
  }

  /** What a deletion leaves. */
  ghost predicate Deleted(w: World, step: Step, w': World)
    requires w.lock.Pruning?
  {
    match step
    case RemoveStaged(s) => w'.idx == w.idx && w'.docs == w.docs.(staging := w.docs.staging - {s})
    case RemoveDocument(s) =>
      s !in w.lock.keep.scopes && w'.idx == w.idx && w'.docs == w.docs.(final := w.docs.final - {s})
    case RemoveCandidate(c) => w'.docs == w.docs && w'.idx == w.idx.(candidates := w.idx.candidates - {c})
    case RemoveArtifact(a) => !(a in w.lock.keep.artifactIds && X.IsArtifactId(a))
                              && w'.docs == w.docs && w'.idx == w.idx.(artifacts := w.idx.artifacts - {a})
    case TearStaged(s, gone) => w'.idx == w.idx && w'.docs == D.TearStaging(w.docs, s, gone)
    case TearCandidate(c, remains) =>
      w'.docs == w.docs && w'.idx == w.idx.(candidates := w.idx.candidates[c := remains])
    case TearArtifact(a, remains) => !(a in w.lock.keep.artifactIds && X.IsArtifactId(a))
                                     && w'.docs == w.docs
                                     && w'.idx == w.idx.(artifacts := w.idx.artifacts[a := remains])
    case _ => false
  }

  lemma DeletionEffect(site: Site, w: World, step: Step)
    requires Enabled(site, w, step) && Deletion(step)
    ensures var w' := Apply(site, w, step);
            && w.lock.Pruning? && Deleted(w, step, w')
            && w' == w.(docs := w'.docs, idx := w'.idx)
  {
  }

  lemma BackedSurvives(w: World, step: Step, scope: NotebookScope, id: string, w': World)
    requires Backed(w.docs, w.idx, scope, id) && w.lock.Pruning? && Deleted(w, step, w')
    requires scope in w.lock.keep.scopes && id in w.lock.keep.artifactIds
    ensures Backed(w'.docs, w'.idx, scope, id)
  {
    hide X.Validated, X.IsArtifactId, PagesChecksum;
  }

  lemma {:induction false} DeletionOk(site: Site, w: World, step: Step)
    requires Inv(site, w) && Enabled(site, w, step) && Deletion(step)
    ensures Inv(site, Apply(site, w, step))
  {
    hide Apply, Enabled, L.DbOk, J.ActiveRows, Backed, Deleted, X.IsArtifactId, J.ActiveScopes, J.ActiveArtifacts;
    hide J.ScopeOf;
    DeletionEffect(site, w, step);
    var w' := Apply(site, w, step);
    forall k | k in w'.db.active && k.environment == site.environment
      ensures Backed(w'.docs, w'.idx, J.ScopeOf(k, w'.db.active[k]), w'.db.active[k].artifactId)
    {
      PointedIsKept(site, w, k);
      BackedSurvives(w, step, J.ScopeOf(k, w.db.active[k]), w.db.active[k].artifactId, w');
    }
  }

  // ---------------------------------------------------------------- the tables

  /** Live rows stay as they are, and no row starts running. */
  ghost predicate LiveKept(ops: map<nat, J.Operation>, ops': map<nat, J.Operation>) {
    && (forall r :: r in ops && J.Live(ops[r]) ==> r in ops' && ops'[r] == ops[r])
    && (forall r :: r in ops' && ops'[r].state == J.Running ==> r in ops && ops[r].state == J.Running)
  }

  lemma LiveKeptRunning(ops: map<nat, J.Operation>, ops': map<nat, J.Operation>, environment: string)
    requires LiveKept(ops, ops')
    ensures J.RowsIn(ops', environment, J.Running) == J.RowsIn(ops, environment, J.Running)
  {
  }

  lemma RunningIsActive(ops: map<nat, J.Operation>, environment: string, row: nat)
    requires row in J.RowsIn(ops, environment, J.Running)
    ensures row in ops && ops[row].state == J.Running && J.ActiveRows(ops, environment) != {}
  {
    assert row in J.ActiveRows(ops, environment);
  }

  lemma SubmitFrame(db: J.Db, req: J.SubmitRequest, cap: nat, at: int, opId: string, subId: string)
    ensures var db' := J.Submit(db, req, cap, at, opId, subId).0;
            LiveKept(db.ops, db'.ops) && db'.active == db.active
  {
    hide J.SubmissionRows, J.KeyRows, J.ActiveRows;
  }

  lemma PurgeFrame(db: J.Db, environment: string, cutoff: int)
    ensures var db' := J.Purge(db, environment, cutoff);
            LiveKept(db.ops, db'.ops) && db'.active == db.active
            && J.ActiveRows(db'.ops, environment) == J.ActiveRows(db.ops, environment)
  {
  }

  /** A step that leaves the stores and the executor alone, and live rows too. */
  lemma {:induction false} CalmOk(site: Site, w: World, w': World)
    requires Inv(site, w) && L.DbOk(w'.db, site.cap) && LiveKept(w.db.ops, w'.db.ops) && w'.db.active == w.db.active
    requires w'.docs == w.docs && w'.idx == w.idx && (w'.exec == w.exec || (w.exec == Starting && w'.exec == Ready))
    requires !w'.lock.Pruning? && (w.exec == Down ==> w'.lock == Free)
    ensures Inv(site, w')
  {
    hide L.DbOk, Backed, CandidatesOk, J.RowsIn, J.ActiveRows, J.ScopeOf;
    LiveKeptRunning(w.db.ops, w'.db.ops, site.environment);
    if w.exec.Busy? {
      RunningIsActive(w.db.ops, site.environment, w.exec.row);
    }
  }

  lemma SameRowsKept(ops: map<nat, J.Operation>)
    ensures LiveKept(ops, ops)
  {
  }

  predicate CalmStep(step: Step) {
    step.ApiLock? || step.ApiPurge? || step.ApiSubmit? || step.BootPurge? || step.ReleaseMaintenance? || step.Start?
  }

  lemma InvParts(site: Site, w: World)
    requires Inv(site, w)
    ensures L.DbOk(w.db, site.cap) && (w.exec == Down ==> w.lock == Free)
  {
    hide L.DbOk;
  }

  lemma {:induction false} CalmStepOk(site: Site, w: World, step: Step)
    requires Inv(site, w) && Enabled(site, w, step) && CalmStep(step)
    ensures Inv(site, Apply(site, w, step))
  {
    hide Inv, L.DbOk, J.Submit, J.Purge, LiveKept, L.FreshHandles;
    InvParts(site, w);
    if step.ApiPurge? || step.BootPurge? || step.ApiSubmit? {
      CalmTables(site, w, step);
    } else {
      SameRowsKept(w.db.ops);
    }
    CalmOk(site, w, Apply(site, w, step));
  }

  lemma {:induction false} CalmTables(site: Site, w: World, step: Step)
    requires L.DbOk(w.db, site.cap) && Enabled(site, w, step)
    requires step.ApiPurge? || step.BootPurge? || step.ApiSubmit?
    ensures var db' := Apply(site, w, step).db;
            L.DbOk(db', site.cap) && LiveKept(w.db.ops, db'.ops) && db'.active == w.db.active
  {
    hide L.DbOk, J.Submit, J.Purge, LiveKept, L.FreshHandles;
    match step {
      case ApiPurge(cutoff) =>
        R.ApplyOk(w.db, site.cap, R.PurgeStep(site.environment, cutoff));
        PurgeFrame(w.db, site.environment, cutoff);
      case BootPurge(cutoff) =>
        R.ApplyOk(w.db, site.cap, R.PurgeStep(site.environment, cutoff));
        PurgeFrame(w.db, site.environment, cutoff);
      case ApiSubmit(req, at, opId, subId) =>
        R.ApplyOk(w.db, site.cap, R.SubmitStep(req, at, opId, subId));
        SubmitFrame(w.db, req, site.cap, at, opId, subId);
    }
  }

  // ---------------------------------------------------------------- the claimed operation

  lemma BusyFacts(site: Site, w: World)
    requires RunnerOk(site, w) && KeepOk(site, w) && Working(w)
    ensures w.db.ops[w.exec.row].state == J.Running && w.db.ops[w.exec.row].environment == site.environment
    ensures !w.lock.Pruning?
  {
    assert w.exec.row in J.RowsIn(w.db.ops, site.environment, J.Running);
    RunningIsActive(w.db.ops, site.environment, w.exec.row);
  }

  lemma OnlyRowRunning(db: J.Db, db': J.Db, environment: string, row: nat)
    requires E.OnlyRow(db, db', row) && row in db.ops
    requires J.RowsIn(db.ops, environment, J.Running) == {row}
    ensures db'.ops[row].scope == db.ops[row].scope
    ensures db'.ops[row].state == J.Running ==> J.RowsIn(db'.ops, environment, J.Running) == {row}
    ensures db'.ops[row].state != J.Running ==> J.RowsIn(db'.ops, environment, J.Running) == {}
  {
    hide L.ProperRow;
    assert row in J.RowsIn(db.ops, environment, J.Running);
    forall r | r in db'.ops && r != row && db'.ops[r].environment == environment ensures db'.ops[r].state != J.Running {
      assert db'.ops[r] == db.ops[r];
      assert r !in J.RowsIn(db.ops, environment, J.Running);
    }
  }

  lemma ProgressFrame(db: J.Db, cap: nat, row: nat, progress: real, at: int)
    requires L.DbOk(db, cap) && row in db.ops && db.ops[row].state == J.Running
    ensures var db' := J.SetProgress(db, db.ops[row].id, progress, at).0;
            L.DbOk(db', cap) && E.OnlyRow(db, db', row) && db'.ops[row].state == J.Running && db'.active == db.active
  {
    hide L.DbOk, E.OnlyRow;
    R.OkMeansDistinct(db, cap);
    R.ApplyOk(db, cap, R.ProgressStep(db.ops[row].id, progress, at));
    E.TransitionOnlyRow(db, row, {J.Running}, J.Running, Some(progress), None, None, false, at);
  }

  lemma EndFrame(db: J.Db, cap: nat, row: nat, outcome: E.Outcome, at: int)
    requires L.DbOk(db, cap) && row in db.ops && db.ops[row].state == J.Running
    ensures var db' := E.Finish(db, db.ops[row].id, outcome, at);
            L.DbOk(db', cap) && E.OnlyRow(db, db', row) && db'.ops[row].state != J.Running && db'.active == db.active
  {
    hide L.DbOk, E.OnlyRow;
    E.FinishEnds(db, cap, row, outcome, at);
  }

  lemma {:induction false} ReportOk(site: Site, w: World, progress: real, at: int)
    requires Inv(site, w) && Enabled(site, w, Report(progress, at))
    ensures Inv(site, Apply(site, w, Report(progress, at)))
  {
    hide L.DbOk, E.OnlyRow, PointersOk, CandidatesOk, J.SetProgress, J.RowsIn, J.ActiveRows;
    var w' := Apply(site, w, Report(progress, at));
    BusyFacts(site, w);
    ProgressFrame(w.db, site.cap, w.exec.row, progress, at);
    OnlyRowRunning(w.db, w'.db, site.environment, w.exec.row);
    E.OnlyRowSameId(w.db, w'.db, w.exec.row);
    SameStores(site, w, w');
  }

  lemma SameStores(site: Site, w: World, w': World)
    requires PointersOk(site, w) && w'.docs == w.docs && w'.idx == w.idx && w'.db.active == w.db.active
    ensures PointersOk(site, w')
  {
    hide Backed;
  }

  lemma {:induction false} EndOfTask(site: Site, w: World, w': World, outcome: E.Outcome, at: int)
    requires Inv(site, w) && Working(w)
    requires w' == w.(db := E.Finish(w.db, Current(w).id, outcome, at), exec := Ready)
    ensures Inv(site, w')
  {
    hide L.DbOk, E.OnlyRow, E.Finish, PointersOk, CandidatesOk, J.RowsIn, J.ActiveRows;
    BusyFacts(site, w);
    EndFrame(w.db, site.cap, w.exec.row, outcome, at);
    OnlyRowRunning(w.db, w'.db, site.environment, w.exec.row);
    SameStores(site, w, w');
  }

  lemma {:induction false} TakeOk(site: Site, w: World, at: int)
    requires Inv(site, w) && Enabled(site, w, Take(at))
    ensures Inv(site, Apply(site, w, Take(at)))
  {
    hide L.DbOk, PointersOk, J.Claim, J.RowsIn, J.ActiveRows, Backed, Pending;
    var w' := Apply(site, w, Take(at));
    var (db, c) := J.Claim(w.db, site.environment, at);
    L.ClaimOk(w.db, site.cap, site.environment, at);
    R.ClaimIsOldest(w.db, site.cap, site.environment, at);
    ClaimFrame(w.db, site.environment, at);
    SameStores(site, w, w');
    if w.lock.Pruning? {
      IdleHasNothingQueued(w.db.ops, site.environment);
    }
  }

  lemma ClaimFrame(db: J.Db, environment: string, at: int)
    ensures var (db', c) := J.Claim(db, environment, at);
            db'.active == db.active && (!c.Claimed? ==> db' == db) && (c.Claimed? ==> c.row in db'.ops)
  {
    hide J.HandleRows;
  }

  lemma IdleHasNothingQueued(ops: map<nat, J.Operation>, environment: string)
    requires J.ActiveRows(ops, environment) == {}
    ensures J.RowsIn(ops, environment, J.Queued) == {}
  {
    forall r | r in ops && ops[r].environment == environment ensures ops[r].state != J.Queued {
      assert r !in J.ActiveRows(ops, environment);
    }
  }

  // ---------------------------------------------------------------- the stores

  /** A step of the executor on the stores, which lose nothing by it. */
  lemma {:induction false} StoreStepOk(site: Site, w: World, w': World, task: Task)
    requires Inv(site, w) && Working(w)
    requires w' == w.(docs := w'.docs, idx := w'.idx, exec := Busy(w.exec.row, task))
    requires Grows(w.docs, w'.docs, w.idx, w'.idx) && TaskOk(w')
    ensures Inv(site, w')
  {
    hide L.DbOk, Grows, TaskOk, J.RowsIn, J.ActiveRows, PointersOk;
    BusyFacts(site, w);
    PointersGrow(site, w, w');
  }

  lemma {:induction false} IngestOk(site: Site, w: World, step: Step)
    requires Inv(site, w) && Enabled(site, w, step) && (step.StagePages? || step.FinalizePages? || step.TornFinalize?)
    ensures Inv(site, Apply(site, w, step))
  {
    hide Inv, Grows, D.StageBatch, D.Finalize, D.CutFinalize, CandidatesOk;
    var w' := Apply(site, w, step);
    match step {
      case StagePages(number, checksum, pages) =>
        StageGrows(w.docs, w.idx, Current(w).scope[0], number, checksum, pages);
      case FinalizePages(checksum, pageCount, batchCount) =>
        FinalizeGrows(w.docs, w.idx, Current(w).scope[0], checksum, pageCount, batchCount);
      case TornFinalize(checksum, pageCount, batchCount, gone) =>
        CutFinalizeGrows(w.docs, w.idx, Current(w).scope[0], checksum, pageCount, batchCount, gone);
    }
    StoreStepOk(site, w, w', Plain);
  }

  lemma {:induction false} UnwindOk(site: Site, w: World, step: Step)
    requires Inv(site, w) && Enabled(site, w, step) && (step.Raise? || step.DiscardNext?)
    ensures Inv(site, Apply(site, w, step))
  {
    hide Inv, Grows, X.Discard, CandidatesOk;
    var w' := Apply(site, w, step);
    if step.DiscardNext? {
      DiscardGrows(w.docs, w.idx, w.exec.task.candidates[w.exec.task.discarded].artifactId);
    } else {
      SameStoresGrow(w.docs, w.idx, w.docs.bytesUsed, w.idx.bytesUsed);
    }
    StoreStepOk(site, w, w', w'.exec.task);
  }

  /** A build that succeeds adds a pending candidate, and disturbs none that is pending. */
  lemma {:induction false} BuildAddsPending(docs: D.Store, idx: X.Repo, scope: NotebookScope, artifactId: string,
                                            m: X.Material, fault: X.Fault)
    requires scope in docs.final && D.Load(docs, scope).Ok? && XL.NewId(idx, artifactId)
    requires X.Build(idx, docs.final[scope], artifactId, m, fault).1.Ok?
    ensures var (idx', r) := X.Build(idx, docs.final[scope], artifactId, m, fault);
            && r.value.scope == scope && r.value.artifactId == artifactId && Pending(docs, idx', r.value)
            && (forall c :: Pending(docs, idx, c) ==> Pending(docs, idx', c) && c.artifactId != artifactId)
  {
    hide X.ChunksOf, X.IsArtifactId, PagesChecksum, X.ForeignChunk, XL.NamesPages;
    XL.ChunksNamePages(docs.final[scope].scope, docs.final[scope].pages, m.pieces);
  }

  lemma {:induction false} BuildOk(site: Site, w: World, artifactId: string, m: X.Material, fault: X.Fault)
    requires Inv(site, w) && Enabled(site, w, BuildNext(artifactId, m, fault))
    ensures Inv(site, Apply(site, w, BuildNext(artifactId, m, fault)))
  {
    hide L.DbOk, RunnerOk, PointersOk, KeepOk, Grows, X.Build, Backed, Pending, D.Load, X.IsArtifactId;
    var w' := AfterBuild(w, artifactId, m, fault);
    var built := w.exec.task.built;
    var scope := Current(w).scope[|built|];
    if scope in w.docs.final && D.Load(w.docs, scope).Ok? {
      BuildGrows(w.docs, w.idx, w.docs.final[scope], artifactId, m, fault);
      if X.Build(w.idx, w.docs.final[scope], artifactId, m, fault).1.Ok? {
        BuildAddsPending(w.docs, w.idx, scope, artifactId, m, fault);
      }
    } else {
      SameStoresGrow(w.docs, w.idx, w.docs.bytesUsed, w.idx.bytesUsed);
    }
    hide Inv;
    StoreStepOk(site, w, w', w'.exec.task);
  }

  /** Moving a pending candidate backs it, and leaves the others pending. */
  lemma {:induction false} CommitBacks(docs: D.Store, idx: X.Repo, c: X.Candidate)
    requires Pending(docs, idx, c)
    ensures var (idx', r) := X.Commit(idx, c);
            && r.Ok? && Backed(docs, idx', c.scope, c.artifactId)
            && (forall d :: Pending(docs, idx, d) && d.artifactId != c.artifactId ==> Pending(docs, idx', d))
  {
    hide X.Validated, X.IsArtifactId, PagesChecksum;
  }

  lemma {:induction false} CommitOk(site: Site, w: World)
    requires Inv(site, w) && Enabled(site, w, CommitNext)
    ensures Inv(site, Apply(site, w, CommitNext))
    ensures Apply(site, w, CommitNext).exec.task.Committing?
  {
    hide L.DbOk, RunnerOk, PointersOk, KeepOk, X.Commit, Backed, Pending;
    var w' := AfterCommit(w);
    var candidates, n := Candidates(w.exec.task), Committed(w.exec.task);
    CommitBacks(w.docs, w.idx, candidates[n]);
    CommitGrows(w.docs, w.idx, candidates[n]);
    forall i | 0 <= i < n ensures Backed(w.docs, w'.idx, candidates[i].scope, candidates[i].artifactId) {
      BackedGrows(w.docs, w.docs, w.idx, w'.idx, candidates[i].scope, candidates[i].artifactId);
    }
    hide Inv, Grows;
    StoreStepOk(site, w, w', w'.exec.task);
  }

  // ---------------------------------------------------------------- publishing

  lemma {:induction false} PointersCases(active: map<J.ActiveKey, J.ActiveRow>, environment: string,
                                         entries: seq<(NotebookScope, string)>,
                                         at: int, k: J.ActiveKey)
    requires k in J.Pointers(active, environment, entries, at)
    ensures var row := J.Pointers(active, environment, entries, at)[k];
            || (k in active && row == active[k]
               && forall i :: 0 <= i < |entries| ==> J.KeyOf(environment, entries[i].0) != k)
            || exists i :: 0 <= i < |entries| && J.KeyOf(environment, entries[i].0) == k
                           && row == J.ActiveRow(entries[i].0.contentRevision, entries[i].1, at)
  {
    if entries != [] {
      var init := entries[..|entries| - 1];
      var last := entries[|entries| - 1];
      if J.KeyOf(environment, last.0) != k {
        PointersCases(active, environment, init, at, k);
        assert forall i :: 0 <= i < |init| ==> entries[i] == init[i];
      }
    }
  }

  /** Afterwards each published scope is active under its own artifact, when no two share a notebook and schema. */
  lemma {:induction false} PublishedIsActive(db: J.Db, environment: string, entries: seq<(NotebookScope, string)>,
                                             at: int, i: nat)
    requires i < |entries|
    requires forall j :: 0 <= j < |entries| && j != i ==>
               J.KeyOf(environment, entries[j].0) != J.KeyOf(environment, entries[i].0)
    ensures J.ActiveIndex(J.ActivateIndexes(db, environment, entries, at), environment, entries[i].0)
         == Some(J.ActiveRow(entries[i].0.contentRevision, entries[i].1, at))
  {
    var init, last := entries[..|entries| - 1], |entries| - 1;
    if i < last {
      forall j | 0 <= j < |init| && j != i ensures J.KeyOf(environment, init[j].0) != J.KeyOf(environment, init[i].0) {
        assert init[j] == entries[j];
      }
      PublishedIsActive(db, environment, init, at, i);
    }
  }

  lemma {:induction false} PublishOk(site: Site, w: World, at: int)
    requires Inv(site, w) && Enabled(site, w, Publish(at))
    ensures Inv(site, Apply(site, w, Publish(at)))
  {
    hide L.DbOk, Backed, Pending, J.RowsIn, J.ActiveRows, J.Pointers, J.KeyOf, J.ScopeOf;
    var w' := Apply(site, w, Publish(at));
    var candidates := Candidates(w.exec.task);
    var entries := Entries(candidates);
    BusyFacts(site, w);
    R.ApplyOk(w.db, site.cap, R.ActivateStep(site.environment, entries, at));
    forall k | k in w'.db.active && k.environment == site.environment
      ensures Backed(w'.docs, w'.idx, J.ScopeOf(k, w'.db.active[k]), w'.db.active[k].artifactId)
    {
      PointersCases(w.db.active, site.environment, entries, at, k);
      if i :| 0 <= i < |entries| && J.KeyOf(site.environment, entries[i].0) == k
              && w'.db.active[k] == J.ActiveRow(entries[i].0.contentRevision, entries[i].1, at) {
        KeyedScope(site.environment, entries[i].0, entries[i].1, at);
        assert Backed(w.docs, w.idx, candidates[i].scope, candidates[i].artifactId);
      }
    }
  }

  lemma KeyedScope(environment: string, scope: NotebookScope, id: string, at: int)
    ensures J.ScopeOf(J.KeyOf(environment, scope), J.ActiveRow(scope.contentRevision, id, at)) == scope
  {
  }

  // ---------------------------------------------------------------- maintenance and restart

  lemma {:induction false} SnapshotOk(site: Site, w: World, cutoff: int)
    requires Inv(site, w) && Enabled(site, w, TakeSnapshot(cutoff))
    ensures Inv(site, Apply(site, w, TakeSnapshot(cutoff)))
  {
    hide L.DbOk, Backed, CandidatesOk, J.RowsIn, J.ActiveRows, J.ScopeOf, J.ActiveScopes, J.ActiveArtifacts;
    var w' := Apply(site, w, TakeSnapshot(cutoff));
    R.ApplyOk(w.db, site.cap, R.RetainStep(site.environment, cutoff));
    if w.exec.Busy? {
      RunningIsActive(w.db.ops, site.environment, w.exec.row);
    }
  }

  lemma RecountOk(site: Site, w: World, step: Step)
    requires Inv(site, w) && Enabled(site, w, step) && (step.RecountDocuments? || step.RecountIndexes?)
    ensures Inv(site, Apply(site, w, step))
  {
    hide L.DbOk, Grows, J.RowsIn, J.ActiveRows, PointersOk, J.ActiveScopes, J.ActiveArtifacts;
    var w' := Apply(site, w, step);
    SameStoresGrow(w.docs, w.idx, w'.docs.bytesUsed, w'.idx.bytesUsed);
    PointersGrow(site, w, w');
  }

  lemma NoneRunsAfterRecovery(db: J.Db, environment: string, at: int)
    ensures J.RowsIn(J.Recover(db, at).ops, environment, J.Running) == {}
  {
  }

  lemma BootOk(site: Site, w: World, at: int)
    requires Inv(site, w) && Enabled(site, w, BootRecover(at))
    ensures Inv(site, Apply(site, w, BootRecover(at)))
  {
    hide L.DbOk, Grows, J.RowsIn, J.ActiveRows, PointersOk, J.Recover;
    R.ApplyOk(w.db, site.cap, R.RecoverStep(at));
    NoneRunsAfterRecovery(w.db, site.environment, at);
    SameStoresGrow(w.docs, w.idx, D.TreeSize(w.docs), X.RepoSize(w.idx));
    RecoverKeepsPointers(w.db, at);
    PointersGrow(site, w, Apply(site, w, BootRecover(at)));
  }

  lemma RecoverKeepsPointers(db: J.Db, at: int)
    ensures J.Recover(db, at).active == db.active
  {
  }

  lemma CrashOk(site: Site, w: World)
    requires Inv(site, w)
    ensures Inv(site, Apply(site, w, Crash))
  {
    hide L.DbOk, Backed;
  }

  lemma SameArtifactsGrow(docs: D.Store, idx: X.Repo, idx': X.Repo)
    requires idx'.artifacts == idx.artifacts
    ensures Grows(docs, docs, idx, idx')
  {
  }

  /** The process dies in the middle of a finalize or a build, and leaves behind what it had written. */
  lemma {:induction false} CutOk(site: Site, w: World, step: Step)
    requires Inv(site, w) && Enabled(site, w, step) && (step.CutFinalize? || step.CutBuild?)
    ensures Inv(site, Apply(site, w, step)) && Grows(w.docs, Apply(site, w, step).docs, w.idx, Apply(site, w, step).idx)
  {
    hide L.DbOk, Grows, D.CutFinalize, PointersOk;
    var w' := Apply(site, w, step);
    if step.CutFinalize? {
      CutFinalizeGrows(w.docs, w.idx, Current(w).scope[0], step.checksum, step.pageCount, step.batchCount, step.gone);
    } else {
      SameArtifactsGrow(w.docs, w.idx, w'.idx);
    }
    PointersGrow(site, w, w');
  }

  // ---------------------------------------------------------------- all steps

  lemma {:induction false} StepOk(site: Site, w: World, step: Step)
    requires Inv(site, w) && Enabled(site, w, step)
    ensures Inv(site, Apply(site, w, step))
  {
    hide Inv;
    match step {
      case Take(at) => TakeOk(site, w, at);
      case Report(progress, at) => ReportOk(site, w, progress, at);
      case StagePages(_, _, _) => IngestOk(site, w, step);
      case FinalizePages(_, _, _) => IngestOk(site, w, step);
      case BuildNext(artifactId, m, fault) => BuildOk(site, w, artifactId, m, fault);
      case Raise => UnwindOk(site, w, step);
      case CommitNext => CommitOk(site, w);
      case Publish(at) => PublishOk(site, w, at);
      case DiscardNext => UnwindOk(site, w, step);
      case EndOk(result, at) => EndOfTask(site, w, Apply(site, w, step), E.Returned(result), at);
      case EndFailed(error, retryable, at) => EndOfTask(site, w, Apply(site, w, step), E.Raised(error, retryable), at);
      case TakeSnapshot(cutoff) => SnapshotOk(site, w, cutoff);
      case RemoveStaged(_) => DeletionOk(site, w, step);
      case RemoveDocument(_) => DeletionOk(site, w, step);
      case RemoveCandidate(_) => DeletionOk(site, w, step);
      case RemoveArtifact(_) => DeletionOk(site, w, step);
      case RecountDocuments => RecountOk(site, w, step);
      case RecountIndexes => RecountOk(site, w, step);
      case Crash => CrashOk(site, w);
      case CutFinalize(_, _, _, _) => CutOk(site, w, step);
      case TornFinalize(_, _, _, _) => IngestOk(site, w, step);
      case TearStaged(_, _) => DeletionOk(site, w, step);
      case TearCandidate(_, _) => DeletionOk(site, w, step);
      case TearArtifact(_, _) => DeletionOk(site, w, step);
      case CutBuild(_, _) => CutOk(site, w, step);
      case BootRecover(at) => BootOk(site, w, at);
      case _ => CalmStepOk(site, w, step);
    }
  }

  /**
   In every state of every run, each active pointer of the environment names an artifact on disk that loads under
   exactly the pointer's notebook, revision and schema, beside the finalized document it was built from.
   */
  lemma {:induction false} PointersAreAlwaysBacked(site: Site, w: World, steps: seq<Step>)
    requires Inv(site, w) && Runs(site, w, steps)
    ensures Inv(site, After(site, w, steps)) && PointersOk(site, After(site, w, steps))
    decreases |steps|
  {
    hide Apply, Enabled, L.DbOk, RunnerOk, PointersOk, KeepOk, TaskOk;
    if steps != [] {
      StepOk(site, w, steps[0]);
      PointersAreAlwaysBacked(site, Apply(site, w, steps[0]), steps[1..]);
    }
  }

  /** In every state of every run, a deletion can happen only while no operation is queued, running or carried out. */
  lemma {:induction false} NoDeletionWhileActive(site: Site, w: World, steps: seq<Step>, step: Step)
    requires Inv(site, w) && Runs(site, w, steps) && Enabled(site, After(site, w, steps), step) && Deletion(step)
    ensures J.ActiveRows(After(site, w, steps).db.ops, site.environment) == {} && !After(site, w, steps).exec.Busy?
  {
    hide Inv, Enabled, After, Runs, J.ActiveRows;
    PointersAreAlwaysBacked(site, w, steps);
    DeletesOnlyWhenIdle(site, After(site, w, steps), step);
  }

  /** An empty worker that has not been started. */
  lemma InitialOk(site: Site, documentQuota: nat, indexQuota: nat)
    ensures Inv(site, World(J.Db(map[], map[], map[], {}, 0), D.Store(map[], map[], 0, documentQuota),
                            X.Repo(map[], map[], 0, indexQuota), Down, Free))
  {
    L.EmptyIsOk(site.cap);
    hide L.DbOk;
  }

  /** So a query that finds its pointer finds the index: the exact revision, and only chunks of the notebook. */
  lemma {:induction false} ActiveIndexLoads(site: Site, w: World, scope: NotebookScope)
    requires Inv(site, w) && J.ActiveIndex(w.db, site.environment, scope).Some?
    ensures var loaded := X.LoadActive(w.idx, scope, J.ActiveIndex(w.db, site.environment, scope).value.artifactId);
            && loaded.Ok? && loaded.value.scope == scope && !X.ForeignChunk(loaded.value.chunks, scope.notebookId)
            && D.Load(w.docs, scope).Ok? && XL.NamesPages(loaded.value.chunks, D.Load(w.docs, scope).value)
  {
    hide L.DbOk, RunnerOk, KeepOk, TaskOk, X.IsArtifactId, X.ForeignChunk;
    var k := J.KeyOf(site.environment, scope);
    assert J.ScopeOf(k, w.db.active[k]) == scope;
    assert Backed(w.docs, w.idx, scope, w.db.active[k].artifactId);
  }

  // ---------------------------------------------------------------- interrupted rebuilds

  predicate Ends(step: Step) {
    step.EndOk? || step.EndFailed? || step.Crash? || step.CutFinalize? || step.CutBuild?
  }

  lemma GrowsTransitive(docs: D.Store, docs1: D.Store, docs2: D.Store, idx: X.Repo, idx1: X.Repo, idx2: X.Repo)
    requires Grows(docs, docs1, idx, idx1) && Grows(docs1, docs2, idx1, idx2)
    ensures Grows(docs, docs2, idx, idx2)
  {
  }

  lemma SnapshotNotIdle(db: J.Db, environment: string, cutoff: int, row: nat)
    requires J.RowsIn(db.ops, environment, J.Running) == {row}
    ensures J.Retain(db, environment, cutoff).0 == db && !J.Retain(db, environment, cutoff).1.idle
  {
    RunningIsActive(db.ops, environment, row);
  }

  /** While an operation is carried out, nothing on disk is lost and only publishing moves a pointer. */
  lemma {:induction false} BusyStepKeeps(site: Site, w: World, step: Step)
    requires Inv(site, w) && Working(w) && Enabled(site, w, step) && !step.Publish?
    ensures var w' := Apply(site, w, step);
            && Grows(w.docs, w'.docs, w.idx, w'.idx) && w'.db.active == w.db.active
            && (!Ends(step) ==> w'.exec.Busy? && w'.exec.row == w.exec.row)
  {
    hide L.DbOk, Grows, Apply, Enabled, Ends, RunnerOk, PointersOk, KeepOk, TaskOk;
    if IngestStep(step) {
      IngestStepKeeps(site, w, step);
    } else if ExecutorStep(step) {
      RebuildStepKeeps(site, w, step);
    } else {
      OtherStepKeeps(site, w, step);
    }
  }

  predicate ExecutorStep(step: Step) {
    StoreStep(step) || step.CutBuild? || step.Raise?
  }

  lemma AfterBuildKeeps(w: World, artifactId: string, m: X.Material, fault: X.Fault)
    requires BuildPending(w)
    ensures var w' := AfterBuild(w, artifactId, m, fault);
            && Grows(w.docs, w'.docs, w.idx, w'.idx) && w'.db == w.db
            && w'.exec.Busy? && w'.exec.row == w.exec.row
  {
    hide Grows, X.Build, D.Load;
    var scope := Current(w).scope[|w.exec.task.built|];
    SameStoresGrow(w.docs, w.idx, w.docs.bytesUsed, w.idx.bytesUsed);
    if scope in w.docs.final {
      BuildGrows(w.docs, w.idx, w.docs.final[scope], artifactId, m, fault);
    }
  }

  lemma AfterCommitKeeps(w: World)
    requires CommitPending(w)
    ensures var w' := AfterCommit(w);
            && Grows(w.docs, w'.docs, w.idx, w'.idx) && w'.db == w.db
            && w'.exec.Busy? && w'.exec.row == w.exec.row
  {
    hide Grows, X.Commit;
    CommitGrows(w.docs, w.idx, Candidates(w.exec.task)[Committed(w.exec.task)]);
  }

  predicate IngestStep(step: Step) {
    step.StagePages? || step.FinalizePages? || step.TornFinalize? || step.CutFinalize?
  }

  lemma {:induction false} IngestStepKeeps(site: Site, w: World, step: Step)
    requires Working(w) && Enabled(site, w, step) && IngestStep(step)
    ensures var w' := Apply(site, w, step);
            && Grows(w.docs, w'.docs, w.idx, w'.idx) && w'.db.active == w.db.active
            && (!Ends(step) ==> w'.exec.Busy? && w'.exec.row == w.exec.row)
  {
    hide Grows, D.StageBatch, D.Finalize, D.CutFinalize;
    match step {
      case StagePages(number, checksum, pages) =>
        StageGrows(w.docs, w.idx, Current(w).scope[0], number, checksum, pages);
      case FinalizePages(checksum, pageCount, batchCount) =>
        FinalizeGrows(w.docs, w.idx, Current(w).scope[0], checksum, pageCount, batchCount);
      case TornFinalize(checksum, pageCount, batchCount, gone) =>
        CutFinalizeGrows(w.docs, w.idx, Current(w).scope[0], checksum, pageCount, batchCount, gone);
      case CutFinalize(checksum, pageCount, batchCount, gone) =>
        CutFinalizeGrows(w.docs, w.idx, Current(w).scope[0], checksum, pageCount, batchCount, gone);
    }
  }

  lemma {:induction false} RebuildStepKeeps(site: Site, w: World, step: Step)
    requires Working(w) && Enabled(site, w, step) && ExecutorStep(step) && !IngestStep(step)
    ensures var w' := Apply(site, w, step);
            && Grows(w.docs, w'.docs, w.idx, w'.idx) && w'.db.active == w.db.active
            && (!Ends(step) ==> w'.exec.Busy? && w'.exec.row == w.exec.row)
  {
    hide Grows, AfterBuild, AfterCommit, X.Discard;
    match step {
      case BuildNext(artifactId, m, fault) => AfterBuildKeeps(w, artifactId, m, fault);
      case CommitNext => AfterCommitKeeps(w);
      case DiscardNext => DiscardGrows(w.docs, w.idx, w.exec.task.candidates[w.exec.task.discarded].artifactId);
      case CutBuild(_, _) => SameArtifactsGrow(w.docs, w.idx, Apply(site, w, step).idx);
      case Raise => SameStoresGrow(w.docs, w.idx, w.docs.bytesUsed, w.idx.bytesUsed);
    }
  }

  lemma {:induction false} OtherStepKeeps(site: Site, w: World, step: Step)
    requires Inv(site, w) && Working(w) && Enabled(site, w, step) && !step.Publish? && !ExecutorStep(step)
    ensures var w' := Apply(site, w, step);
            && Grows(w.docs, w'.docs, w.idx, w'.idx) && w'.db.active == w.db.active
            && (!Ends(step) ==> w'.exec.Busy? && w'.exec.row == w.exec.row)
  {
    hide L.DbOk, PointersOk, TaskOk, Grows, E.OnlyRow, J.RowsIn, J.ActiveRows, J.Submit, J.Purge, J.Retain;
    hide J.Transition;
    BusyFacts(site, w);
    SameStoresGrow(w.docs, w.idx, w.docs.bytesUsed, w.idx.bytesUsed);
    match step {
      case ApiSubmit(req, at, opId, subId) => SubmitFrame(w.db, req, site.cap, at, opId, subId);
      case ApiPurge(cutoff) => PurgeFrame(w.db, site.environment, cutoff);
      case Report(progress, at) => ProgressFrame(w.db, site.cap, w.exec.row, progress, at);
      case EndOk(result, at) => EndFrame(w.db, site.cap, w.exec.row, E.Returned(result), at);
      case EndFailed(error, retryable, at) => EndFrame(w.db, site.cap, w.exec.row, E.Raised(error, retryable), at);
      case TakeSnapshot(cutoff) => SnapshotNotIdle(w.db, site.environment, cutoff, w.exec.row);
      case _ =>
    }
  }

  /** The steps of one attempt at an operation that ends, or is cut off, before anything is published. */
  ghost predicate Attempt(steps: seq<Step>) {
    && (forall i :: 0 <= i < |steps| ==> !steps[i].Publish?)
    && (forall i :: 0 <= i < |steps| - 1 ==> !Ends(steps[i]))
  }

  /**
   A rebuild that fails or is interrupted, at any point and with submissions and maintenance going on beside it,
   leaves every previous pointer as it was, and every artifact and every finalized document on disk, unchanged.
   */
  lemma {:induction false} FailedRebuildLosesNothing(site: Site, w: World, steps: seq<Step>)
    requires Inv(site, w) && Working(w) && Runs(site, w, steps) && Attempt(steps)
    ensures var w' := After(site, w, steps);
            Grows(w.docs, w'.docs, w.idx, w'.idx) && w'.db.active == w.db.active
    decreases |steps|
  {
    hide L.DbOk, PointersOk, TaskOk, KeepOk, Grows, Apply, Enabled, Ends;
    if steps == [] {
      SameStoresGrow(w.docs, w.idx, w.docs.bytesUsed, w.idx.bytesUsed);
    } else {
      var w1 := Apply(site, w, steps[0]);
      BusyStepKeeps(site, w, steps[0]);
      if |steps| == 1 {
        assert steps[1..] == [];
      } else {
        StepOk(site, w, steps[0]);
        AttemptTail(steps);
        FailedRebuildLosesNothing(site, w1, steps[1..]);
        var w2 := After(site, w1, steps[1..]);
        GrowsTransitive(w.docs, w1.docs, w2.docs, w.idx, w1.idx, w2.idx);
      }
    }
  }

  lemma AttemptTail(steps: seq<Step>)
    requires Attempt(steps) && |steps| > 1
    ensures Attempt(steps[1..]) && !Ends(steps[0])
  {
    forall i | 0 <= i < |steps| - 1 ensures steps[1..][i] == steps[i + 1] {
    }
  }

  // ---------------------------------------------------------------- pointers over whole runs

  /** The step gives this notebook and schema another index, or expires the pointer. */
  ghost predicate Touches(site: Site, w: World, step: Step, k: J.ActiveKey)
    requires Enabled(site, w, step)
  {
    match step
    case Publish(_) =>
      exists i :: 0 <= i < |Candidates(w.exec.task)| && J.KeyOf(site.environment, Candidates(w.exec.task)[i].scope) == k
    case TakeSnapshot(cutoff) =>
      J.ActiveRows(w.db.ops, site.environment) == {} && k in J.StalePointers(w.db, site.environment, cutoff)
    case _ => false
  }

  ghost predicate NeverTouches(site: Site, w: World, steps: seq<Step>, k: J.ActiveKey)
    requires Runs(site, w, steps)
    decreases |steps|
  {
    steps != [] ==> !Touches(site, w, steps[0], k) && NeverTouches(site, Apply(site, w, steps[0]), steps[1..], k)
  }

  /** The pointer, the artifact and the document behind it, all as they were. */
  ghost predicate Stands(w: World, w': World, k: J.ActiveKey)
    requires k in w.db.active
  {
    var scope, id := J.ScopeOf(k, w.db.active[k]), w.db.active[k].artifactId;
    && k in w'.db.active && w'.db.active[k] == w.db.active[k]
    && id in w.idx.artifacts && id in w'.idx.artifacts && w'.idx.artifacts[id] == w.idx.artifacts[id]
    && scope in w.docs.final && scope in w'.docs.final && w'.docs.final[scope] == w.docs.final[scope]
  }

  lemma GrowsStands(site: Site, w: World, w': World, k: J.ActiveKey)
    requires Grows(w.docs, w'.docs, w.idx, w'.idx) && PointersOk(site, w) && k in w.db.active
             && k.environment == site.environment
    requires k in w'.db.active && w'.db.active[k] == w.db.active[k]
    ensures Stands(w, w', k)
  {
    assert Backed(w.docs, w.idx, J.ScopeOf(k, w.db.active[k]), w.db.active[k].artifactId);
  }

  lemma PointersKeep(active: map<J.ActiveKey, J.ActiveRow>, environment: string, entries: seq<(NotebookScope, string)>,
                     at: int, k: J.ActiveKey)
    requires k in active && forall i :: 0 <= i < |entries| ==> J.KeyOf(environment, entries[i].0) != k
    ensures k in J.Pointers(active, environment, entries, at)
            && J.Pointers(active, environment, entries, at)[k] == active[k]
  {
    if entries != [] {
      var init := entries[..|entries| - 1];
      forall i | 0 <= i < |init| ensures J.KeyOf(environment, init[i].0) != k {
        assert init[i] == entries[i];
      }
      PointersKeep(active, environment, init, at, k);
    }
  }

  lemma DeletionStands(site: Site, w: World, step: Step, k: J.ActiveKey)
    requires Inv(site, w) && Enabled(site, w, step) && Deletion(step) && k in w.db.active
             && k.environment == site.environment
    ensures Stands(w, Apply(site, w, step), k)
  {
    hide Apply, Enabled, L.DbOk, J.ActiveRows, X.IsArtifactId, J.ActiveScopes, J.ActiveArtifacts, J.ScopeOf;
    hide X.LoadActive, D.Load;
    DeletionEffect(site, w, step);
    PointedIsKept(site, w, k);
    assert Backed(w.docs, w.idx, J.ScopeOf(k, w.db.active[k]), w.db.active[k].artifactId);
  }

  lemma PublishStands(site: Site, w: World, at: int, k: J.ActiveKey)
    requires Inv(site, w) && Enabled(site, w, Publish(at)) && k in w.db.active && k.environment == site.environment
    requires !Touches(site, w, Publish(at), k)
    ensures Stands(w, Apply(site, w, Publish(at)), k)
  {
    hide L.DbOk, RunnerOk, TaskOk, J.Pointers, J.KeyOf, Grows, Backed, Stands;
    var candidates := Candidates(w.exec.task);
    var entries := Entries(candidates);
    forall i | 0 <= i < |entries| ensures J.KeyOf(site.environment, entries[i].0) != k {
      assert entries[i].0 == candidates[i].scope;
    }
    PointersKeep(w.db.active, site.environment, entries, at, k);
    SameStoresGrow(w.docs, w.idx, w.docs.bytesUsed, w.idx.bytesUsed);
    GrowsStands(site, w, Apply(site, w, Publish(at)), k);
  }

  lemma {:induction false} IdleStepStands(site: Site, w: World, step: Step, k: J.ActiveKey)
    requires Inv(site, w) && Enabled(site, w, step) && !Working(w) && !Deletion(step)
    requires k in w.db.active && k.environment == site.environment && !Touches(site, w, step, k)
    ensures Stands(w, Apply(site, w, step), k)
  {
    hide L.DbOk, PointersOk, TaskOk, KeepOk, Stands, Grows, J.RowsIn, J.ActiveRows, J.ActiveScopes, J.ActiveArtifacts;
    hide J.Submit, J.Purge, J.Claim, J.Recover;
    var w' := Apply(site, w, step);
    SameStoresGrow(w.docs, w.idx, w'.docs.bytesUsed, w'.idx.bytesUsed);
    match step {
      case ApiSubmit(req, at, opId, subId) => SubmitFrame(w.db, req, site.cap, at, opId, subId);
      case ApiPurge(cutoff) => PurgeFrame(w.db, site.environment, cutoff);
      case BootPurge(cutoff) => PurgeFrame(w.db, site.environment, cutoff);
      case BootRecover(at) => RecoverKeepsPointers(w.db, at);
      case Take(at) => ClaimFrame(w.db, site.environment, at);
      case _ =>
    }
    GrowsStands(site, w, w', k);
  }

  lemma {:induction false} StepStands(site: Site, w: World, step: Step, k: J.ActiveKey)
    requires Inv(site, w) && Enabled(site, w, step) && k in w.db.active && k.environment == site.environment
             && !Touches(site, w, step, k)
    ensures Stands(w, Apply(site, w, step), k)
  {
    hide Apply, Enabled, Touches, Stands, Grows, L.DbOk, RunnerOk, KeepOk, TaskOk, PointersOk;
    if Deletion(step) {
      DeletionStands(site, w, step, k);
    } else if step.Publish? {
      PublishStands(site, w, step.at, k);
    } else if Working(w) {
      BusyStepKeeps(site, w, step);
      GrowsStands(site, w, Apply(site, w, step), k);
    } else {
      IdleStepStands(site, w, step, k);
    }
  }

  lemma StandsTransitive(w: World, w1: World, w2: World, k: J.ActiveKey)
    requires k in w.db.active && Stands(w, w1, k) && Stands(w1, w2, k)
    ensures Stands(w, w2, k)
  {
  }

  /**
   Over any run, crashes and prunes included, a pointer, its artifact and its document stand unchanged until a
   rebuild of the same notebook and schema publishes, or the pointer is expired while the worker is idle.
   */
  lemma {:induction false} PointersStand(site: Site, w: World, steps: seq<Step>, k: J.ActiveKey)
    requires Inv(site, w) && Runs(site, w, steps) && k in w.db.active && k.environment == site.environment
    requires NeverTouches(site, w, steps, k)
    ensures Stands(w, After(site, w, steps), k)
    decreases |steps|
  {
    hide Apply, Enabled, Touches, Stands, Grows, L.DbOk, RunnerOk, KeepOk, TaskOk;
    if steps == [] {
      SameStoresGrow(w.docs, w.idx, w.docs.bytesUsed, w.idx.bytesUsed);
      GrowsStands(site, w, w, k);
    } else {
      var w1 := Apply(site, w, steps[0]);
      StepStands(site, w, steps[0], k);
      StepOk(site, w, steps[0]);
      StandsIn(w, w1, k);
      PointersStand(site, w1, steps[1..], k);
      StandsTransitive(w, w1, After(site, w1, steps[1..]), k);
    }
  }

  lemma StandsIn(w: World, w': World, k: J.ActiveKey)
    requires k in w.db.active && Stands(w, w', k)
    ensures k in w'.db.active
  {
  }

  // ---------------------------------------------------------------- accounts

  ghost predicate Stored(w: World) {
    D.TreeSize(w.docs) <= w.docs.maxBytes && X.RepoSize(w.idx) <= w.idx.maxBytes
  }

  /** Stored bytes are within both quotas, and while the worker is up neither counter says less than is stored. */
  ghost predicate AccountsOk(w: World) {
    Stored(w) && (w.exec != Down ==> DL.Covered(w.docs) && XL.Covered(w.idx))
  }

  lemma CallCovered(docs: D.Store, call: DL.Call)
    requires DL.Covered(docs)
    ensures DL.Covered(DL.Apply(docs, call))
  {
    hide DL.Covered, DL.Apply, DL.Exact, DL.Miscounts;
    DL.CallAccounting(docs, call);
  }

  lemma {:induction false} BuildAccounts(w: World, artifactId: string, m: X.Material, fault: X.Fault)
    requires XL.Covered(w.idx) && BuildPending(w) && XL.NewId(w.idx, artifactId) && m.overheadBytes <= X.MARGIN
    ensures XL.Covered(AfterBuild(w, artifactId, m, fault).idx) && AfterBuild(w, artifactId, m, fault).docs == w.docs
  {
    hide X.RepoSize, X.Build, XL.Miscounts, D.Load;
    var scope := Current(w).scope[|w.exec.task.built|];
    if scope in w.docs.final {
      XL.BuildAccounting(w.idx, w.docs.final[scope], artifactId, m, fault);
    }
  }

  lemma CommitAccounts(w: World)
    requires XL.Covered(w.idx) && CommitPending(w)
    ensures XL.Covered(AfterCommit(w).idx) && AfterCommit(w).docs == w.docs
  {
    hide X.RepoSize, X.Commit;
    XL.CommitAccounting(w.idx, Candidates(w.exec.task)[Committed(w.exec.task)]);
  }

  lemma LeftBehindAccounts(idx: X.Repo, artifactId: string, remains: X.Artifact)
    requires artifactId !in idx.candidates
    ensures X.RepoSize(idx.(candidates := idx.candidates[artifactId := remains])) == X.RepoSize(idx) + remains.bytes
  {
    SU.SumInsert(idx.candidates, X.ArtifactBytes, artifactId, remains);
  }

  lemma CoveredMeansStored(w: World)
    requires DL.Covered(w.docs) && XL.Covered(w.idx)
    ensures AccountsOk(w)
  {
  }

  lemma {:induction false} DeletionShrinks(site: Site, w: World, step: Step)
    requires Enabled(site, w, step) && Deletion(step)
    ensures var w' := Apply(site, w, step);
            && D.TreeSize(w'.docs) <= D.TreeSize(w.docs) && X.RepoSize(w'.idx) <= X.RepoSize(w.idx)
            && w'.docs.bytesUsed == w.docs.bytesUsed && w'.idx.bytesUsed == w.idx.bytesUsed && w'.exec == w.exec
            && w'.docs.maxBytes == w.docs.maxBytes && w'.idx.maxBytes == w.idx.maxBytes
  {
    hide D.TreeSize, X.RepoSize, Enabled, Apply, Deleted;
    DeletionEffect(site, w, step);
    DeletedShrinks(site, w, step, Apply(site, w, step));
  }

  lemma {:induction false} DeletedShrinks(site: Site, w: World, step: Step, w': World)
    requires Enabled(site, w, step) && Deletion(step) && w.lock.Pruning? && Deleted(w, step, w')
    ensures D.TreeSize(w'.docs) <= D.TreeSize(w.docs) && X.RepoSize(w'.idx) <= X.RepoSize(w.idx)
    ensures w'.docs.bytesUsed == w.docs.bytesUsed && w'.idx.bytesUsed == w.idx.bytesUsed
    ensures w'.docs.maxBytes == w.docs.maxBytes && w'.idx.maxBytes == w.idx.maxBytes
  {
    hide D.TreeSize, X.RepoSize;
    match step {
      case RemoveStaged(scope) => DL.PruneShrinks(w.docs, w.docs.staging - {scope}, w.docs.final);
      case RemoveDocument(scope) => DL.PruneShrinks(w.docs, w.docs.staging, w.docs.final - {scope});
      case RemoveCandidate(id) => XL.SmallerTrees(w.idx, w.idx.candidates - {id}, w.idx.artifacts);
      case RemoveArtifact(id) => XL.SmallerTrees(w.idx, w.idx.candidates, w.idx.artifacts - {id});
      case TearStaged(scope, gone) => DL.TearAccounting(w.docs, scope, gone);
      case TearCandidate(id, remains) => XL.SmallerTrees(w.idx, w.idx.candidates[id := remains], w.idx.artifacts);
      case TearArtifact(id, remains) => XL.SmallerTrees(w.idx, w.idx.candidates, w.idx.artifacts[id := remains]);
    }
  }

  lemma RecountAccounts(w: World)
    requires Stored(w)
    ensures DL.Covered(w.docs.(bytesUsed := D.TreeSize(w.docs))) && XL.Covered(w.idx.(bytesUsed := X.RepoSize(w.idx)))
  {
    hide D.TreeSize, X.RepoSize;
    DL.MeasureIgnoresCounter(w.docs);
    XL.SizeIgnoresCounter(w.idx, X.RepoSize(w.idx));
  }

  predicate StoreStep(step: Step) {
    || step.StagePages? || step.FinalizePages? || step.BuildNext? || step.CommitNext? || step.DiscardNext?
    || step.TornFinalize? || step.CutFinalize?
  }

  /** What the executor does to the stores while the worker is up. */
  lemma {:induction false} StoreStepAccounts(site: Site, w: World, step: Step)
    requires AccountsOk(w) && Enabled(site, w, step) && StoreStep(step)
    ensures AccountsOk(Apply(site, w, step))
  {
    hide DL.Covered, XL.Covered, AfterBuild, AfterCommit, D.StageBatch, D.Finalize, X.Discard, D.CutFinalize;
    match step {
      case StagePages(number, checksum, pages) =>
        CallCovered(w.docs, DL.StageCall(Current(w).scope[0], number, checksum, pages));
      case FinalizePages(checksum, pageCount, batchCount) =>
        CallCovered(w.docs, DL.FinalizeCall(Current(w).scope[0], checksum, pageCount, batchCount));
      case BuildNext(artifactId, m, fault) => BuildAccounts(w, artifactId, m, fault);
      case CommitNext => CommitAccounts(w);
      case DiscardNext => DiscardCovered(w.idx, w.exec.task.candidates[w.exec.task.discarded].artifactId);
      case TornFinalize(checksum, pageCount, batchCount, gone) =>
        CallCovered(w.docs, DL.CutFinalizeCall(Current(w).scope[0], checksum, pageCount, batchCount, gone));
      case CutFinalize(checksum, pageCount, batchCount, gone) =>
        CallCovered(w.docs, DL.CutFinalizeCall(Current(w).scope[0], checksum, pageCount, batchCount, gone));
    }
    CoveredMeansStored(Apply(site, w, step));
  }

  lemma DiscardCovered(idx: X.Repo, id: string)
    requires XL.Covered(idx)
    ensures XL.Covered(X.Discard(idx, id))
  {
    hide X.Discard, X.RepoSize;
    XL.DiscardAccounting(idx, id);
  }

  lemma {:induction false} StepAccounts(site: Site, w: World, step: Step)
    requires AccountsOk(w) && Enabled(site, w, step) && (w.exec == Down ==> w.lock == Free)
    ensures AccountsOk(Apply(site, w, step))
  {
    hide D.TreeSize, X.RepoSize, J.Submit, J.Claim, J.Retain, J.Purge, J.Recover;
    if StoreStep(step) {
      StoreStepAccounts(site, w, step);
    } else if Deletion(step) {
      DeletionShrinks(site, w, step);
    } else if step.RecountDocuments? || step.RecountIndexes? || step.BootRecover? {
      RecountAccounts(w);
      CoveredMeansStored(Apply(site, w, step));
    } else if step.CutBuild? {
      LeftBehindAccounts(w.idx, step.artifactId, step.remains);
    }
  }

  /**
   In every state of every run, crashes, half-done builds and half-done prunes included, stored bytes are within
   both quotas, and while the worker is up neither cached counter says less than is stored.
   */
  lemma {:induction false} StorageStaysWithinQuota(site: Site, w: World, steps: seq<Step>)
    requires Inv(site, w) && AccountsOk(w) && Runs(site, w, steps)
    ensures AccountsOk(After(site, w, steps))
    ensures D.TreeSize(After(site, w, steps).docs) <= After(site, w, steps).docs.maxBytes
    ensures X.RepoSize(After(site, w, steps).idx) <= After(site, w, steps).idx.maxBytes
    decreases |steps|
  {
    hide Apply, Enabled, D.TreeSize, X.RepoSize, Inv;
    if steps != [] {
      InvParts(site, w);
      StepAccounts(site, w, steps[0]);
      StepOk(site, w, steps[0]);
      StorageStaysWithinQuota(site, Apply(site, w, steps[0]), steps[1..]);
    }
  }
}
