/**
 The whole worker as one state machine: the job tables, both stores, the executor, and the lock shared by
 submission and maintenance. Every transaction, every directory moved, torn or deleted and every phase of a
 rebuild is a step of its own; the process may die between any two steps, in the middle of a finalize or a build
 too, and loses the executor and the lock only.
 One state directory serves one environment.
 */
module Worker {
  import opened Wrappers
  import opened Types
  import opened Canonical
  import J = Jobs
  import D = Documents
  import X = Indexes
  import JobLaws

  /** What the executor is doing for the operation it has claimed. */
  datatype Task =
    | Plain
    | Building(built: seq<X.Candidate>)
    | Committing(candidates: seq<X.Candidate>, committed: nat)
    | Unwinding(candidates: seq<X.Candidate>, discarded: nat)
    | Closing

  datatype Exec = Down | Starting | Ready | Busy(row: nat, task: Task)

  datatype Lock = Free | Submitting | Pruning(keep: J.Snapshot)

  datatype Site = Site(environment: string, cap: nat)

  datatype World = World(db: J.Db, docs: D.Store, idx: X.Repo, exec: Exec, lock: Lock)

  datatype Step =
    | ApiLock
    | ApiPurge(cutoff: int)
    | ApiSubmit(req: J.SubmitRequest, at: int, opId: string, subId: string)
    | Take(at: int)
    | Report(progress: real, at: int)
    | StagePages(number: nat, checksum: Digest, pages: seq<Page>)
    | FinalizePages(checksum: Digest, pageCount: nat, batchCount: nat)
    | BuildNext(artifactId: string, m: X.Material, fault: X.Fault)
    | Raise
    | CommitNext
    | Publish(at: int)
    | DiscardNext
    | EndOk(result: string, at: int)
    | EndFailed(error: string, retryable: bool, at: int)
    | TakeSnapshot(cutoff: int)
    | RemoveStaged(scope: NotebookScope)
    | RemoveDocument(scope: NotebookScope)
    | RemoveCandidate(id: string)
    | RemoveArtifact(id: string)
    | TearStaged(scope: NotebookScope, gone: set<nat>)
    | TearCandidate(id: string, remains: X.Artifact)
    | TearArtifact(id: string, remains: X.Artifact)
    | RecountDocuments
    | RecountIndexes
    | ReleaseMaintenance
    | Crash
    | TornFinalize(checksum: Digest, pageCount: nat, batchCount: nat, gone: set<nat>)
    | CutFinalize(checksum: Digest, pageCount: nat, batchCount: nat, gone: set<nat>)
    | CutBuild(artifactId: string, remains: X.Artifact)
    | BootRecover(at: int)
    | BootPurge(cutoff: int)
    | Start

  predicate Working(w: World) {
    w.exec.Busy? && w.exec.row in w.db.ops
  }

  function Current(w: World): J.Operation
    requires Working(w)
  {
    w.db.ops[w.exec.row]
  }

  function TaskOf(operation: J.JobOperation): Task {
    if operation == J.IndexRebuild then Building([]) else Plain
  }

  /** The operation is an ingest of this kind and names exactly one notebook. */
  predicate Ingesting(w: World, operation: J.JobOperation) {
    Working(w) && w.exec.task == Plain && Current(w).operation == operation && |Current(w).scope| == 1
  }

  predicate BuildPending(w: World) {
    Working(w) && w.exec.task.Building? && |w.exec.task.built| < |Current(w).scope|
  }

  /** All candidates are built, and some are still to be moved. */
  predicate CommitPending(w: World) {
    Working(w) && (|| (w.exec.task.Building? && |w.exec.task.built| == |Current(w).scope| && w.exec.task.built != [])
                   || (w.exec.task.Committing? && w.exec.task.committed < |w.exec.task.candidates|))
  }

  predicate PublishPending(w: World) {
    Working(w) && (|| (w.exec.task.Committing? && w.exec.task.committed == |w.exec.task.candidates|)
                   || (w.exec.task == Building([]) && Current(w).scope == []))
  }

  predicate Unwound(task: Task) {
    task.Unwinding? && task.discarded >= |task.candidates|
  }

  ghost predicate Enabled(site: Site, w: World, step: Step) {
    match step
    case ApiLock => w.lock == Free && (w.exec == Ready || w.exec.Busy?)
    case ApiPurge(_) => w.lock == Submitting
    case ApiSubmit(req, _, opId, subId) => 
      w.lock == Submitting && req.environment == site.environment
      && JobLaws.FreshHandles(w.db, opId, subId)
    case Take(_) => w.exec == Ready
    case Report(_, _) => Working(w)
    case StagePages(_, _, _) => Ingesting(w, J.IngestBatch)
    case FinalizePages(_, _, _) => Ingesting(w, J.IngestFinalize)
    case BuildNext(artifactId, m, _) =>
      BuildPending(w) && X.IsArtifactId(artifactId) && artifactId !in w.idx.candidates && artifactId !in w.idx.artifacts
      && 0 < m.overheadBytes <= X.MARGIN
    case Raise => Working(w) && (w.exec.task.Building? || w.exec.task.Committing?)
    case CommitNext => CommitPending(w)
    case Publish(_) => PublishPending(w)
    case DiscardNext => Working(w) && w.exec.task.Unwinding? && !Unwound(w.exec.task)
    case EndOk(_, _) => Working(w) && (w.exec.task == Plain || w.exec.task == Closing)
    case EndFailed(_, _, _) => Working(w) && (w.exec.task == Plain || w.exec.task == Closing || Unwound(w.exec.task))
    case TakeSnapshot(_) => w.lock == Free && w.exec != Down
    case RemoveStaged(_) => w.lock.Pruning?
    case RemoveDocument(scope) => w.lock.Pruning? && scope !in w.lock.keep.scopes
    case RemoveCandidate(_) => w.lock.Pruning?
    case RemoveArtifact(id) => w.lock.Pruning? && !(id in w.lock.keep.artifactIds && X.IsArtifactId(id))
    case TearStaged(_, _) => w.lock.Pruning?
    case TearCandidate(id, remains) =>
      w.lock.Pruning? && id in w.idx.candidates && remains.bytes <= w.idx.candidates[id].bytes
    case TearArtifact(id, remains) =>
      w.lock.Pruning? && !(id in w.lock.keep.artifactIds && X.IsArtifactId(id))
      && id in w.idx.artifacts && remains.bytes <= w.idx.artifacts[id].bytes
    case RecountDocuments => w.lock.Pruning?
    case RecountIndexes => w.lock.Pruning?
    case ReleaseMaintenance => w.lock.Pruning?
    case Crash => true
    case TornFinalize(_, _, _, _) => Ingesting(w, J.IngestFinalize)
    case CutFinalize(_, _, _, _) => Ingesting(w, J.IngestFinalize)
    case CutBuild(artifactId, remains) =>
      BuildPending(w) && artifactId !in w.idx.candidates && w.idx.bytesUsed + remains.bytes <= w.idx.maxBytes
    case BootRecover(_) => w.exec == Down
    case BootPurge(_) => w.exec == Starting && w.lock == Free
    case Start => w.exec == Starting && w.lock == Free
  }

  function Entries(candidates: seq<X.Candidate>): seq<(NotebookScope, string)> {
    seq(|candidates|, i requires 0 <= i < |candidates| => (candidates[i].scope, candidates[i].artifactId))
  }

  function Candidates(task: Task): seq<X.Candidate> {
    match task
    case Building(built) => built
    case Committing(candidates, _) => candidates
    case Unwinding(candidates, _) => candidates
    case _ => []
  }

  function Committed(task: Task): nat {
    if task.Committing? then task.committed else 0
  }

  /** The next scope's document is loaded and its index built; whatever fails starts the unwinding. */
  function AfterBuild(w: World, artifactId: string, m: X.Material, fault: X.Fault): World
    requires BuildPending(w)
  {
    var built := w.exec.task.built;
    var scope := Current(w).scope[|built|];
    if scope !in w.docs.final || D.Load(w.docs, scope).Err? then w.(exec := Busy(w.exec.row, Unwinding(built, 0)))
    else
      var (idx, r) := X.Build(w.idx, w.docs.final[scope], artifactId, m, fault);
      w.(idx := idx, exec := Busy(w.exec.row, if r.Ok? then Building(built + [r.value]) else Unwinding(built, 0)))
  }

  ghost function AfterCommit(w: World): World
    requires CommitPending(w)
  {
    var candidates, n := Candidates(w.exec.task), Committed(w.exec.task);
    var (idx, r) := X.Commit(w.idx, candidates[n]);
    w.(idx := idx, exec := Busy(w.exec.row, if r.Ok? then Committing(candidates, n + 1) else Unwinding(candidates, 0)))
  }

  ghost function Apply(site: Site, w: World, step: Step): World
    requires Enabled(site, w, step)
  {
    match step
    case ApiLock => w.(lock := Submitting)
    case ApiPurge(cutoff) => w.(db := J.Purge(w.db, site.environment, cutoff))
    case ApiSubmit(req, at, opId, subId) => w.(db := J.Submit(w.db, req, site.cap, at, opId, subId).0, lock := Free)
    case Take(at) =>
      var (db, c) := J.Claim(w.db, site.environment, at);
      w.(db := db,
         exec := if c.Claimed? && c.row in db.ops then Busy(c.row, TaskOf(db.ops[c.row].operation)) else Ready)
    case Report(progress, at) => w.(db := J.SetProgress(w.db, Current(w).id, progress, at).0)
    case StagePages(number, checksum, pages) =>
      w.(docs := D.StageBatch(w.docs, Current(w).scope[0], number, checksum, pages).0)
    case FinalizePages(checksum, pageCount, batchCount) =>
      w.(docs := D.Finalize(w.docs, Current(w).scope[0], checksum, pageCount, batchCount).0)
    case BuildNext(artifactId, m, fault) => AfterBuild(w, artifactId, m, fault)
    case Raise => w.(exec := Busy(w.exec.row, Unwinding(Candidates(w.exec.task), 0)))
    case CommitNext => AfterCommit(w)
    case Publish(at) =>
      w.(db := J.ActivateIndexes(w.db, site.environment, Entries(Candidates(w.exec.task)), at),
         exec := Busy(w.exec.row, Closing))
    case DiscardNext =>
      var task := w.exec.task;
      w.(idx := X.Discard(w.idx, task.candidates[task.discarded].artifactId),
         exec := Busy(w.exec.row, Unwinding(task.candidates, task.discarded + 1)))
    case EndOk(result, at) => w.(db := J.Succeed(w.db, Current(w).id, result, at).0, exec := Ready)
    case EndFailed(error, retryable, at) => w.(db := J.Fail(w.db, Current(w).id, error, retryable, at).0, exec := Ready)
    case TakeSnapshot(cutoff) =>
      var (db, snapshot) := J.Retain(w.db, site.environment, cutoff);
      w.(db := db, lock := if snapshot.idle then Pruning(snapshot) else Free)
    case RemoveStaged(scope) => w.(docs := w.docs.(staging := w.docs.staging - {scope}))
    case RemoveDocument(scope) => w.(docs := w.docs.(final := w.docs.final - {scope}))
    case RemoveCandidate(id) => w.(idx := w.idx.(candidates := w.idx.candidates - {id}))
    case RemoveArtifact(id) => w.(idx := w.idx.(artifacts := w.idx.artifacts - {id}))
    case TearStaged(scope, gone) => w.(docs := D.TearStaging(w.docs, scope, gone))
    case TearCandidate(id, remains) => w.(idx := w.idx.(candidates := w.idx.candidates[id := remains]))
    case TearArtifact(id, remains) => w.(idx := w.idx.(artifacts := w.idx.artifacts[id := remains]))
    case RecountDocuments => w.(docs := w.docs.(bytesUsed := D.TreeSize(w.docs)))
    case RecountIndexes => w.(idx := w.idx.(bytesUsed := X.RepoSize(w.idx)))
    case ReleaseMaintenance => w.(lock := Free)
    case Crash => w.(exec := Down, lock := Free)
    case TornFinalize(checksum, pageCount, batchCount, gone) =>
      w.(docs := D.CutFinalize(w.docs, Current(w).scope[0], checksum, pageCount, batchCount, gone).0)
    case CutFinalize(checksum, pageCount, batchCount, gone) =>
      w.(docs := D.CutFinalize(w.docs, Current(w).scope[0], checksum, pageCount, batchCount, gone).0,
         exec := Down, lock := Free)
    case CutBuild(artifactId, remains) =>
      w.(idx := w.idx.(candidates := w.idx.candidates[artifactId := remains]), exec := Down, lock := Free)
    case BootRecover(at) =>
      w.(db := J.Recover(w.db, at), docs := w.docs.(bytesUsed := D.TreeSize(w.docs)),
         idx := w.idx.(bytesUsed := X.RepoSize(w.idx)), exec := Starting)
    case BootPurge(cutoff) => w.(db := J.Purge(w.db, site.environment, cutoff))
    case Start => w.(exec := Ready)
  }

  ghost predicate Runs(site: Site, w: World, steps: seq<Step>)
    decreases |steps|
  {
    steps != [] ==> Enabled(site, w, steps[0]) && Runs(site, Apply(site, w, steps[0]), steps[1..])
  }

  ghost function After(site: Site, w: World, steps: seq<Step>): World
    requires Runs(site, w, steps)
    decreases |steps|
  {
    if steps == [] then w else After(site, Apply(site, w, steps[0]), steps[1..])
  }
}
