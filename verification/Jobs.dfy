/**
 The worker's tables and every transaction on them. Tables are maps from SQLite rowids to rows, a
 transaction is a function from tables to tables, and `JobStore` is the object of the source whose
 methods run the SQL statements one by one. A submission is keyed by the fingerprint of its request.
 */
module Jobs {
  import opened Wrappers
  import opened Types
  import opened Fingerprints

  datatype JobOperation = IngestBatch | IngestFinalize | IndexRebuild | Query | ModelStart | ModelStop

  datatype JobState = Queued | Running | Succeeded | Failed | Canceled

  predicate Terminal(state: JobState) {
    state == Succeeded || state == Failed || state == Canceled
  }

  /** The last column is for the statements of laws only: the arrival number. */
  datatype Operation = Operation(
    id: string, environment: string, operation: JobOperation, dedupeKey: string,
    scope: seq<NotebookScope>, payload: string,
    state: JobState, progress: real, result: Option<string>, error: Option<string>, retryable: bool,
    createdAt: int, updatedAt: int,
    arrival: nat)

  function OperationName(operation: JobOperation): string {
    match operation
    case IngestBatch => "ingest_batch"
    case IngestFinalize => "ingest_finalize"
    case IndexRebuild => "index_rebuild"
    case Query => "query"
    case ModelStart => "model_start"
    case ModelStop => "model_stop"
  }

  function RequestFingerprint(req: SubmitRequest): string {
    Fingerprint(OperationName(req.operation), req.scope, req.payload)
  }

  /** The fingerprint of the request an operation carries out. */
  function RequestKey(o: Operation): string {
    Fingerprint(OperationName(o.operation), o.scope, o.payload)
  }

  datatype Submission = Submission(
    id: string, environment: string, actor: string, idempotencyKey: string, requestId: string,
    fingerprint: string, operationId: string, createdAt: int)

  datatype ActiveKey = ActiveKey(environment: string, notebookId: string, indexSchemaVersion: string)

  datatype ActiveRow = ActiveRow(contentRevision: string, artifactId: string, activatedAt: int)

  /** The tables, and what random handles have ever been issued. */
  datatype Db = Db(ops: map<nat, Operation>, subs: map<nat, Submission>, active: map<ActiveKey, ActiveRow>,
                   issued: set<string>, arrivals: nat)

  datatype SubmitRequest = SubmitRequest(
    environment: string, actor: string, idempotencyKey: string, requestId: string,
    operation: JobOperation, scope: seq<NotebookScope>, payload: string)

  datatype SubmitResult =
    | Submitted(handle: string, submissionCreated: bool, operationCreated: bool)
    | IdempotencyConflict
    | QueueFull

  datatype ClaimResult = Claimed(row: nat) | NothingToClaim | OperationWithoutSubmission

  datatype TransitionResult = Moved | InvalidProgress | JobNotFound | InvalidTransition

  const TERMINAL_MARK: string := ":terminal:"

  // ---------------------------------------------------------------- SQL

  predicate IsLeast(m: nat, s: set<nat>) {
    m in s && forall k :: k in s ==> m <= k
  }

  lemma {:induction false} LeastExists(s: set<nat>) returns (m: nat)
    requires s != {}
    ensures IsLeast(m, s)
    decreases s
  {
    var some :| some in s;
    m := some;
    if s - {some} != {} {
      var n := LeastExists(s - {some});
      m := if some <= n then some else n;
    }
    forall k | k in s ensures m <= k {
      assert k == some || k in s - {some};
    }
  }

  /** `ORDER BY rowid LIMIT 1`. */
  function First(rows: set<nat>): (r: Option<nat>)
    ensures r.None? <==> rows == {}
    ensures r.Some? ==> r.value in rows && forall k :: k in rows ==> r.value <= k
  {
    if rows == {} then None
    else
      assert exists m :: IsLeast(m, rows) by { var m := LeastExists(rows); }
      var m: nat :| IsLeast(m, rows);
      Some(m)
  }

  predicate IsGreatest(m: nat, s: set<nat>) {
    m in s && forall k :: k in s ==> k <= m
  }

  lemma {:induction false} GreatestExists(s: set<nat>) returns (m: nat)
    requires s != {}
    ensures IsGreatest(m, s)
    decreases s
  {
    var some :| some in s;
    m := some;
    if s - {some} != {} {
      var n := GreatestExists(s - {some});
      m := if some >= n then some else n;
    }
    forall k | k in s ensures k <= m {
      assert k == some || k in s - {some};
    }
  }

  /** The rowid of an inserted row: one more than the greatest present, so a purged rowid may come back. */
  function NextRowid(rows: set<nat>): (r: nat)
    ensures forall k :: k in rows ==> k < r
    ensures if rows == {} then r == 1 else r > 0 && r - 1 in rows
  {
    if rows == {} then 1
    else
      assert exists m :: IsGreatest(m, rows) by { var m := GreatestExists(rows); }
      var m: nat :| IsGreatest(m, rows);
      m + 1
  }

  predicate Live(o: Operation) {
    o.state == Queued || o.state == Running
  }

  function ActiveRows(ops: map<nat, Operation>, environment: string): set<nat> {
    set r | r in ops && ops[r].environment == environment && Live(ops[r])
  }

  function RowsIn(ops: map<nat, Operation>, environment: string, state: JobState): set<nat> {
    set r | r in ops && ops[r].environment == environment && ops[r].state == state
  }

  function RowsWithId(ops: map<nat, Operation>, id: string): set<nat> {
    set r | r in ops && ops[r].id == id
  }

  function KeyRows(db: Db, environment: string, operation: JobOperation, dedupeKey: string): set<nat> {
    set r | r in db.ops && db.ops[r].environment == environment && db.ops[r].operation == operation
            && db.ops[r].dedupeKey == dedupeKey
  }

  function SubmissionRows(db: Db, environment: string, actor: string, idempotencyKey: string): set<nat> {
    set r | r in db.subs && db.subs[r].environment == environment && db.subs[r].actor == actor
            && db.subs[r].idempotencyKey == idempotencyKey
  }

  function HandleRows(subs: map<nat, Submission>, operationId: string): set<nat> {
    set r | r in subs && subs[r].operationId == operationId
  }

  // ---------------------------------------------------------------- transactions

  function NewOperation(db: Db, req: SubmitRequest, now: int, id: string): Operation {
    Operation(id, req.environment, req.operation, RequestFingerprint(req), req.scope, req.payload,
              Queued, 0.0, None, None, false, now, now, db.arrivals)
  }

  function NewSubmission(req: SubmitRequest, now: int, id: string, operationId: string): Submission {
    Submission(id, req.environment, req.actor, req.idempotencyKey, req.requestId, RequestFingerprint(req),
               operationId, now)
  }

  function AddOperation(db: Db, req: SubmitRequest, now: int, id: string): Db {
    db.(ops := db.ops[NextRowid(db.ops.Keys) := NewOperation(db, req, now, id)],
        issued := db.issued + {id}, arrivals := db.arrivals + 1)
  }

  function AddSubmission(db: Db, req: SubmitRequest, now: int, id: string, operationId: string): Db {
    db.(subs := db.subs[NextRowid(db.subs.Keys) := NewSubmission(req, now, id, operationId)],
        issued := db.issued + {id})
  }

  /** Retry, attach to a live operation, or enqueue; `opId` and `subId` are the random handles drawn if needed. */
  function Submit(db: Db, req: SubmitRequest, cap: nat, now: int, opId: string, subId: string): (Db, SubmitResult) {
    var earlier := First(SubmissionRows(db, req.environment, req.actor, req.idempotencyKey));
    if earlier.Some? then
      if db.subs[earlier.value].fingerprint != RequestFingerprint(req) then (db, IdempotencyConflict)
      else (db, Submitted(db.subs[earlier.value].id, false, false))
    else
      var existing := First(KeyRows(db, req.environment, req.operation, RequestFingerprint(req)));
      if existing.Some? then
        (AddSubmission(db, req, now, subId, db.ops[existing.value].id), Submitted(subId, true, false))
      else if |ActiveRows(db.ops, req.environment)| >= cap then (db, QueueFull)
      else (AddSubmission(AddOperation(db, req, now, opId), req, now, subId, opId), Submitted(subId, true, true))
  }

  function Claim(db: Db, environment: string, now: int): (Db, ClaimResult) {
    if RowsIn(db.ops, environment, Running) != {} then (db, NothingToClaim)
    else
      var oldest := First(RowsIn(db.ops, environment, Queued));
      if oldest.None? then (db, NothingToClaim)
      else if HandleRows(db.subs, db.ops[oldest.value].id) == {} then (db, OperationWithoutSubmission)
      else
        var o := db.ops[oldest.value].(state := Running, progress := 0.0, updatedAt := now);
        (db.(ops := db.ops[oldest.value := o]), Claimed(oldest.value))
  }

  function Moving(o: Operation, state: JobState, progress: Option<real>, result: Option<string>,
                  error: Option<string>, retryable: bool, now: int): Operation
  {
    o.(state := state, progress := if progress.Some? then progress.value else o.progress,
       result := result, error := error, retryable := retryable, updatedAt := now,
       dedupeKey := if Terminal(state) then o.dedupeKey + TERMINAL_MARK + o.id else o.dedupeKey)
  }

  function Transition(db: Db, id: string, allowedFrom: set<JobState>, state: JobState, progress: Option<real>,
                      result: Option<string>, error: Option<string>, retryable: bool, now: int): (Db, TransitionResult)
  {
    var row := First(RowsWithId(db.ops, id));
    if progress.Some? && !(0.0 <= progress.value <= 1.0) then (db, InvalidProgress)
    else if row.None? then (db, JobNotFound)
    else if db.ops[row.value].state !in allowedFrom then (db, InvalidTransition)
    else
      (db.(ops := db.ops[row.value := Moving(db.ops[row.value], state, progress, result, error, retryable, now)]),
       Moved)
  }

  function SetProgress(db: Db, id: string, progress: real, now: int): (Db, TransitionResult) {
    Transition(db, id, {Running}, Running, Some(progress), None, None, false, now)
  }

  function Succeed(db: Db, id: string, result: string, now: int): (Db, TransitionResult) {
    Transition(db, id, {Queued, Running}, Succeeded, Some(1.0), Some(result), None, false, now)
  }

  function Fail(db: Db, id: string, error: string, retryable: bool, now: int): (Db, TransitionResult) {
    Transition(db, id, {Queued, Running}, Failed, None, None, Some(error), retryable, now)
  }

  predicate Resumable(operation: JobOperation) {
    operation == IngestBatch || operation == IngestFinalize || operation == IndexRebuild
  }

  function RecoveredRow(o: Operation, now: int): Operation {
    if o.state != Running then o
    else if Resumable(o.operation) then o.(state := Queued, progress := 0.0, updatedAt := now)
    else o.(state := Failed, error := Some("WORKER_RESTARTED"), retryable := true, updatedAt := now,
            dedupeKey := o.dedupeKey + TERMINAL_MARK + o.id)
  }

  function Recover(db: Db, now: int): Db {
    db.(ops := map r | r in db.ops :: RecoveredRow(db.ops[r], now))
  }

  predicate OccursAt(text: string, piece: string, i: nat) {
    i + |piece| <= |text| && text[i..i + |piece|] == piece
  }

  predicate Contains(text: string, piece: string) {
    exists i :: 0 <= i <= |text| && OccursAt(text, piece, i)
  }

  /** Opening the store marks the key of every terminal row that has no mark. */
  function Reopen(db: Db): Db {
    db.(ops := map r | r in db.ops ::
          if Terminal(db.ops[r].state) && !Contains(db.ops[r].dedupeKey, TERMINAL_MARK + db.ops[r].id)
          then db.ops[r].(dedupeKey := db.ops[r].dedupeKey + TERMINAL_MARK + db.ops[r].id)
          else db.ops[r])
  }

  predicate Expired(o: Operation, environment: string, cutoff: int) {
    o.environment == environment && Terminal(o.state) && o.updatedAt < cutoff
  }

  function ExpiredRows(ops: map<nat, Operation>, environment: string, cutoff: int): set<nat> {
    set r | r in ops && Expired(ops[r], environment, cutoff)
  }

  /** The submissions of these operations. */
  function HandlesOf(subs: map<nat, Submission>, ops: map<nat, Operation>, rows: set<nat>): set<nat>
    requires rows <= ops.Keys
  {
    set s | s in subs && exists r :: r in rows && ops[r].id == subs[s].operationId
  }

  function Purge(db: Db, environment: string, cutoff: int): Db {
    var expired := ExpiredRows(db.ops, environment, cutoff);
    db.(subs := db.subs - HandlesOf(db.subs, db.ops, expired), ops := db.ops - expired)
  }

  /** What maintenance may not delete, taken together with the idle check. */
  datatype Snapshot = Snapshot(idle: bool, expired: nat, scopes: set<NotebookScope>, artifactIds: set<string>)

  function StalePointers(db: Db, environment: string, cutoff: int): set<ActiveKey> {
    set k | k in db.active && k.environment == environment && db.active[k].activatedAt < cutoff
  }

  function ScopeOf(key: ActiveKey, row: ActiveRow): NotebookScope {
    NotebookScope(key.notebookId, row.contentRevision, key.indexSchemaVersion)
  }

  function ActiveScopes(db: Db, environment: string): set<NotebookScope> {
    set k | k in db.active && k.environment == environment :: ScopeOf(k, db.active[k])
  }

  function ActiveArtifacts(db: Db, environment: string): set<string> {
    set k | k in db.active && k.environment == environment && db.active[k].artifactId != "" :: db.active[k].artifactId
  }

  /** The idle check, the expiry of old pointers and the keep set, in one transaction. */
  function Retain(db: Db, environment: string, cutoff: int): (Db, Snapshot) {
    var idle := ActiveRows(db.ops, environment) == {};
    var db' := if idle then db.(active := db.active - StalePointers(db, environment, cutoff)) else db;
    (db', Snapshot(idle, if idle then |StalePointers(db, environment, cutoff)| else 0,
                   ActiveScopes(db', environment), ActiveArtifacts(db', environment)))
  }

  function KeyOf(environment: string, scope: NotebookScope): ActiveKey {
    ActiveKey(environment, scope.notebookId, scope.indexSchemaVersion)
  }

  /** Upserts in list order; a later entry for the same notebook and schema wins. */
  function Pointers(active: map<ActiveKey, ActiveRow>, environment: string, entries: seq<(NotebookScope, string)>,
                    now: int)
    : map<ActiveKey, ActiveRow>
  {
    if entries == [] then active
    else
      var (scope, artifactId) := entries[|entries| - 1];
      Pointers(active, environment, entries[..|entries| - 1], now)
        [KeyOf(environment, scope) := ActiveRow(scope.contentRevision, artifactId, now)]
  }

  function ActivateIndexes(db: Db, environment: string, entries: seq<(NotebookScope, string)>, now: int): Db {
    db.(active := Pointers(db.active, environment, entries, now))
  }

  /** The pointer for exactly this revision, if it is the active one. */
  function ActiveIndex(db: Db, environment: string, scope: NotebookScope): Option<ActiveRow> {
    var key := KeyOf(environment, scope);
    if key in db.active && db.active[key].contentRevision == scope.contentRevision then Some(db.active[key]) else None
  }
}
