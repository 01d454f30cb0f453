/** Whole runs of transactions: what a submitter may rely on from one request to the next. */
module JobRuns {
  import opened Wrappers
  import opened Types
  import opened Fingerprints
  import opened Jobs
  import opened JobLaws

  datatype Step =
    | SubmitStep(req: SubmitRequest, at: int, opId: string, subId: string)
    | ClaimStep(environment: string, at: int)
    | ProgressStep(id: string, progress: real, at: int)
    | SucceedStep(id: string, result: string, at: int)
    | FailStep(id: string, error: string, retryable: bool, at: int)
    | RecoverStep(at: int)
    | PurgeStep(environment: string, cutoff: int)
    | RetainStep(environment: string, cutoff: int)
    | ActivateStep(environment: string, entries: seq<(NotebookScope, string)>, at: int)

  function Apply(db: Db, cap: nat, step: Step): Db {
    match step
    case SubmitStep(req, at, opId, subId) => Submit(db, req, cap, at, opId, subId).0
    case ClaimStep(environment, at) => Claim(db, environment, at).0
    case ProgressStep(id, progress, at) => SetProgress(db, id, progress, at).0
    case SucceedStep(id, result, at) => Succeed(db, id, result, at).0
    case FailStep(id, error, retryable, at) => Fail(db, id, error, retryable, at).0
    case RecoverStep(at) => Recover(db, at)
    case PurgeStep(environment, cutoff) => Purge(db, environment, cutoff)
    case RetainStep(environment, cutoff) => Retain(db, environment, cutoff).0
    case ActivateStep(environment, entries, at) => ActivateIndexes(db, environment, entries, at)
  }

  /** Random handles are new. */
  ghost predicate Proper(db: Db, step: Step) {
    step.SubmitStep? ==> FreshHandles(db, step.opId, step.subId)
  }

  function Run(db: Db, cap: nat, steps: seq<Step>): Db
    decreases |steps|
  {
    if steps == [] then db else Run(Apply(db, cap, steps[0]), cap, steps[1..])
  }

  ghost predicate ProperRun(db: Db, cap: nat, steps: seq<Step>)
    decreases |steps|
  {
    steps != [] ==> Proper(db, steps[0]) && ProperRun(Apply(db, cap, steps[0]), cap, steps[1..])
  }

  lemma {:induction false} ApplyOk(db: Db, cap: nat, step: Step)
    requires DbOk(db, cap) && Proper(db, step)
    ensures DbOk(Apply(db, cap, step), cap)
  {
    hide OpsOk, AllServed, AllHeld, SubsOk, SingleRunner, FreshHandles, Submit, Claim, Transition, Recover;
    hide Purge;
    match step {
      case SubmitStep(req, at, opId, subId) => SubmitOk(db, cap, req, at, opId, subId);
      case ClaimStep(environment, at) => ClaimOk(db, cap, environment, at);
      case ProgressStep(id, progress, at) =>
        TransitionOk(db, cap, id, {Running}, Running, Some(progress), None, None, false, at);
      case SucceedStep(id, result, at) =>
        TransitionOk(db, cap, id, {Queued, Running}, Succeeded, Some(1.0), Some(result), None, false, at);
      case FailStep(id, error, retryable, at) =>
        TransitionOk(db, cap, id, {Queued, Running}, Failed, None, None, Some(error), retryable, at);
      case RecoverStep(at) => RecoverOk(db, cap, at);
      case PurgeStep(environment, cutoff) => PurgeOk(db, cap, environment, cutoff);
      case _ =>
    }
  }

  /**
   Every run keeps every invariant: per environment at most one running operation, at most one live
   operation for a request, never more live operations than the cap, each operation with a submission and
   each submission with its operation, and no two rows with the same key.
   */
  lemma {:induction false} RunOk(db: Db, cap: nat, steps: seq<Step>)
    requires DbOk(db, cap) && ProperRun(db, cap, steps)
    ensures DbOk(Run(db, cap, steps), cap) && UniqueKeys(Run(db, cap, steps).ops)
    decreases |steps|
  {
    hide DbOk, Apply, Proper, UniqueKeys;
    KeysNeverCollide(db, cap);
    if steps != [] {
      ApplyOk(db, cap, steps[0]);
      RunOk(Apply(db, cap, steps[0]), cap, steps[1..]);
    }
  }

  // ---------------------------------------------------------------- order

  /** What is claimed is the oldest arrival not yet over: whatever came to this environment before it has ended. */
  lemma {:induction false} ClaimIsOldest(db: Db, cap: nat, environment: string, now: int)
    requires DbOk(db, cap)
    ensures Claim(db, environment, now).1 != OperationWithoutSubmission
    ensures Claim(db, environment, now).1 == NothingToClaim <==>
              RowsIn(db.ops, environment, Running) != {} || RowsIn(db.ops, environment, Queued) == {}
    ensures !Claim(db, environment, now).1.Claimed? ==> Claim(db, environment, now).0 == db
    ensures var (db', c) := Claim(db, environment, now);
            c.Claimed? ==>
              && c.row in db.ops && db.ops[c.row].environment == environment && db.ops[c.row].state == Queued
              && db' == db.(ops := db.ops[c.row := db.ops[c.row].(state := Running, progress := 0.0, updatedAt := now)])
              && RowsIn(db'.ops, environment, Running) == {c.row}
              && forall q :: q in db.ops && db.ops[q].environment == environment
                             && db.ops[q].arrival < db.ops[c.row].arrival ==>
                   Terminal(db.ops[q].state)
  {
    hide ProperRow, AllServed, SubsOk, HandleRows;
    var queued := First(RowsIn(db.ops, environment, Queued));
    if queued.Some? {
      HandleExists(db, queued.value);
    }
    var (db', c) := Claim(db, environment, now);
    if c.Claimed? {
      forall q | q in db.ops && db.ops[q].environment == environment && db.ops[q].arrival < db.ops[c.row].arrival
        ensures Terminal(db.ops[q].state)
      {
        assert q < c.row;
        assert q !in RowsIn(db.ops, environment, Queued) && q !in RowsIn(db.ops, environment, Running);
      }
    }
  }

  /** Recovery gives an interrupted operation back its place: arrival and rowid stay, and it is queued or over. */
  lemma RecoveryKeepsPlaces(db: Db, now: int)
    ensures var db' := Recover(db, now);
            && db' == db.(ops := db'.ops) && db'.ops.Keys == db.ops.Keys
            && forall r :: r in db.ops ==>
                 var o := db.ops[r];
                 db'.ops[r] == (if o.state != Running then o
                                else if o.operation in {IngestBatch, IngestFinalize, IndexRebuild}
                                then o.(state := Queued, progress := 0.0, updatedAt := now)
                                else o.(state := Failed, error := Some("WORKER_RESTARTED"), retryable := true,
                                        updatedAt := now, dedupeKey := o.dedupeKey + ":terminal:" + o.id))
  {
  }

  /** The running operation stands before every queued one of its environment. */
  ghost predicate RunnerFirst(ops: map<nat, Operation>) {
    forall r, q :: (r in ops && q in ops && ops[r].state == Running && ops[q].state == Queued
                    && ops[r].environment == ops[q].environment) ==> r < q
  }

  /** No row starts running, and none is queued but those that were and new ones behind all others. */
  ghost predicate NoneOvertakes(ops: map<nat, Operation>, ops': map<nat, Operation>) {
    forall r :: r in ops' ==>
      && (ops'[r].state == Running ==> r in ops && ops[r].state == Running && ops[r].environment == ops'[r].environment)
      && (ops'[r].state == Queued ==>
            (r in ops && ops[r].state == Queued && ops[r].environment == ops'[r].environment)
            || (forall q :: q in ops ==> q < r))
  }

  lemma StaysFirst(ops: map<nat, Operation>, ops': map<nat, Operation>)
    requires RunnerFirst(ops) && NoneOvertakes(ops, ops')
    ensures RunnerFirst(ops')
  {
  }

  lemma MovingOvertakesNone(db: Db, id: string, allowedFrom: set<JobState>, state: JobState, progress: Option<real>,
                            result: Option<string>, error: Option<string>, retryable: bool, now: int)
    requires allowedFrom <= {Queued, Running} && (Terminal(state) || state == Running)
    requires state == Running ==> allowedFrom == {Running}
    ensures NoneOvertakes(db.ops, Transition(db, id, allowedFrom, state, progress, result, error, retryable, now).0.ops)
  {
    hide Transition, Evolves;
    TransitionAdvances(db, id, allowedFrom, state, progress, result, error, retryable, now);
    var ops' := Transition(db, id, allowedFrom, state, progress, result, error, retryable, now).0.ops;
    forall r | r in ops' ensures ops'[r].environment == db.ops[r].environment {
      EvolvesFacts(db.ops[r], ops'[r]);
    }
  }

  lemma SubmitOvertakesNone(db: Db, cap: nat, req: SubmitRequest, now: int, opId: string, subId: string)
    ensures NoneOvertakes(db.ops, Submit(db, req, cap, now, opId, subId).0.ops)
  {
    hide SubmissionRows, KeyRows, ActiveRows;
  }

  lemma {:induction false} ClaimTakesTheFirst(db: Db, cap: nat, environment: string, now: int)
    requires DbOk(db, cap) && RunnerFirst(db.ops)
    ensures RunnerFirst(Claim(db, environment, now).0.ops)
  {
    hide DbOk, HandleRows;
    ClaimIsOldest(db, cap, environment, now);
    var (db', c) := Claim(db, environment, now);
    if c.Claimed? {
      forall r | r in db'.ops && db'.ops[r].state == Running && db'.ops[r].environment == environment
        ensures r == c.row {
        assert r in RowsIn(db'.ops, environment, Running);
      }
      forall q | q in db'.ops && db'.ops[q].state == Queued && db'.ops[q].environment == environment ensures c.row < q {
        assert q in RowsIn(db.ops, environment, Queued);
      }
    }
  }

  lemma {:induction false} StepKeepsRunnerFirst(db: Db, cap: nat, step: Step)
    requires DbOk(db, cap) && RunnerFirst(db.ops)
    ensures RunnerFirst(Apply(db, cap, step).ops)
  {
    hide DbOk, RunnerFirst, NoneOvertakes, Submit, Claim, Transition, ActiveRows, Expired;
    match step {
      case SubmitStep(req, at, opId, subId) => SubmitOvertakesNone(db, cap, req, at, opId, subId);
      case ClaimStep(environment, at) => ClaimTakesTheFirst(db, cap, environment, at);
      case ProgressStep(id, progress, at) =>
        MovingOvertakesNone(db, id, {Running}, Running, Some(progress), None, None, false, at);
      case SucceedStep(id, result, at) =>
        MovingOvertakesNone(db, id, {Queued, Running}, Succeeded, Some(1.0), Some(result), None, false, at);
      case FailStep(id, error, retryable, at) =>
        MovingOvertakesNone(db, id, {Queued, Running}, Failed, None, None, Some(error), retryable, at);
      case RecoverStep(at) => NoneFirst(Recover(db, at).ops);
      case _ => RemainingOvertakeNone(db.ops, Apply(db, cap, step).ops);
    }
    if !step.ClaimStep? && !step.RecoverStep? {
      StaysFirst(db.ops, Apply(db, cap, step).ops);
    }
  }

  lemma NoneFirst(ops: map<nat, Operation>)
    ensures (forall r :: r in ops ==> ops[r].state != Running) ==> RunnerFirst(ops)
  {
  }

  lemma RemainingOvertakeNone(ops: map<nat, Operation>, ops': map<nat, Operation>)
    requires forall r :: r in ops' ==> r in ops && ops'[r] == ops[r]
    ensures NoneOvertakes(ops, ops')
  {
  }

  lemma {:induction false} RunKeepsRunnerFirst(db: Db, cap: nat, steps: seq<Step>)
    requires DbOk(db, cap) && RunnerFirst(db.ops) && ProperRun(db, cap, steps)
    ensures RunnerFirst(Run(db, cap, steps).ops)
    decreases |steps|
  {
    hide DbOk, RunnerFirst, Apply, Proper;
    if steps != [] {
      ApplyOk(db, cap, steps[0]);
      StepKeepsRunnerFirst(db, cap, steps[0]);
      RunKeepsRunnerFirst(Apply(db, cap, steps[0]), cap, steps[1..]);
    }
  }

  /**
   Whenever in a run the worker is interrupted, the resumable operation that was running is the next to be
   claimed after recovery: it is queued again in its old place, which is the first.
   */
  lemma {:induction false} InterruptedIsNext(db: Db, cap: nat, steps: seq<Step>, row: nat, restart: int, later: int)
    requires DbOk(db, cap) && RunnerFirst(db.ops) && ProperRun(db, cap, steps)
    requires row in Run(db, cap, steps).ops && Run(db, cap, steps).ops[row].state == Running
    requires Run(db, cap, steps).ops[row].operation in {IngestBatch, IngestFinalize, IndexRebuild}
    ensures var before := Run(db, cap, steps);
            Claim(Recover(before, restart), before.ops[row].environment, later).1 == Claimed(row)
  {
    hide Run, ProperRun, UniqueKeys, DbOk, Claim, RunnerFirst;
    var before := Run(db, cap, steps);
    RunOk(db, cap, steps);
    RunKeepsRunnerFirst(db, cap, steps);
    RecoverOk(before, cap, restart);
    RequeuedFirst(before, cap, row, restart);
    ClaimsFirst(Recover(before, restart), cap, before.ops[row].environment, later);
  }

  lemma {:induction false} RequeuedFirst(db: Db, cap: nat, row: nat, now: int)
    requires DbOk(db, cap) && RunnerFirst(db.ops) && row in db.ops && db.ops[row].state == Running
    requires db.ops[row].operation in {IngestBatch, IngestFinalize, IndexRebuild}
    ensures var db', environment := Recover(db, now), db.ops[row].environment;
            && RowsIn(db'.ops, environment, Running) == {}
            && First(RowsIn(db'.ops, environment, Queued)) == Some(row)
  {
    hide OpsOk, AllServed, AllHeld, SubsOk;
    var db', environment := Recover(db, now), db.ops[row].environment;
    var rows := RowsIn(db'.ops, environment, Queued);
    assert row in rows;
    forall q | q in rows ensures row <= q {
      assert db.ops[q].environment == environment;
    }
  }

  lemma ClaimsFirst(db: Db, cap: nat, environment: string, now: int)
    requires DbOk(db, cap) && RowsIn(db.ops, environment, Running) == {}
             && First(RowsIn(db.ops, environment, Queued)).Some?
    ensures Claim(db, environment, now).1 == Claimed(First(RowsIn(db.ops, environment, Queued)).value)
  {
    hide OpsOk, AllServed, SubsOk, HandleRows;
    var row := First(RowsIn(db.ops, environment, Queued)).value;
    assert row in RowsIn(db.ops, environment, Queued);
    HandleExists(db, row);
  }

  // ---------------------------------------------------------------- what a step may do to a row

  /** A row of `db'` under a handle issued before is a row of `db`. */
  ghost predicate SubsShift(db: Db, db': Db) {
    forall r :: r in db'.subs && db'.subs[r].id in db.issued ==> r in db.subs && db'.subs[r] == db.subs[r]
  }

  ghost predicate OpsShift(db: Db, db': Db) {
    forall r :: r in db'.ops && db'.ops[r].id in db.issued ==> r in db.ops && Evolves(db.ops[r], db'.ops[r])
  }

  /** An operation that stays keeps all its submissions. */
  ghost predicate HandlesStay(db: Db, db': Db) {
    forall r, q :: (r in db'.ops && r in db.ops && q in db.subs && db.subs[q].operationId == db.ops[r].id) ==>
                     q in db'.subs && db'.subs[q] == db.subs[q]
  }

  ghost predicate Shifts(db: Db, db': Db) {
    db.issued <= db'.issued && SubsShift(db, db') && OpsShift(db, db') && HandlesStay(db, db')
  }

  lemma AdvanceShifts(db: Db, db': Db)
    requires Advances(db.ops, db'.ops) && db'.issued == db.issued && HandlesStay(db, db')
    requires forall r :: r in db'.subs ==> r in db.subs && db'.subs[r] == db.subs[r]
    ensures Shifts(db, db')
  {
    hide Evolves, HandlesStay;
  }

  lemma SameSubsStay(db: Db, db': Db)
    requires db'.subs == db.subs
    ensures HandlesStay(db, db')
  {
  }

  lemma {:induction false} SubmitShifts(db: Db, cap: nat, req: SubmitRequest, now: int, opId: string, subId: string)
    requires FreshHandles(db, opId, subId)
    ensures Shifts(db, Submit(db, req, cap, now, opId, subId).0)
  {
    hide Evolves, SubmissionRows, KeyRows, ActiveRows, RequestFingerprint;
    var db' := Submit(db, req, cap, now, opId, subId).0;
    forall r | r in db'.ops && db'.ops[r].id in db.issued ensures r in db.ops && Evolves(db.ops[r], db'.ops[r]) {
      assert r in db.ops;
      EvolvesReflexive(db.ops[r]);
    }
  }

  lemma {:induction false} StepShifts(db: Db, cap: nat, step: Step)
    requires DbOk(db, cap) && Proper(db, step)
    ensures Shifts(db, Apply(db, cap, step))
  {
    hide Shifts, Advances, OpsOk, SingleRunner, AllServed, AllHeld, SubsOk, FreshHandles, Fingerprint;
    hide Submit, Claim, Transition, Purge, ActiveRows;
    hide HandlesStay;
    var db' := Apply(db, cap, step);
    if db'.subs == db.subs {
      SameSubsStay(db, db');
    }
    match step {
      case SubmitStep(req, at, opId, subId) => SubmitShifts(db, cap, req, at, opId, subId);
      case ClaimStep(environment, at) => ClaimAdvances(db, environment, at);
        AdvanceShifts(db, db');
      case ProgressStep(id, progress, at) =>
        TransitionAdvances(db, id, {Running}, Running, Some(progress), None, None, false, at);
        AdvanceShifts(db, db');
      case SucceedStep(id, result, at) =>
        TransitionAdvances(db, id, {Queued, Running}, Succeeded, Some(1.0), Some(result), None, false, at);
        AdvanceShifts(db, db');
      case FailStep(id, error, retryable, at) =>
        TransitionAdvances(db, id, {Queued, Running}, Failed, None, None, Some(error), retryable, at);
        AdvanceShifts(db, db');
      case RecoverStep(at) =>
        RecoverAdvances(db, at);
        AdvanceShifts(db, db');
      case PurgeStep(environment, cutoff) =>
        OkMeansDistinct(db, cap);
        PurgeAdvances(db, environment, cutoff);
        PurgeKeeps(db, environment, cutoff);
        PurgeKeepsSubs(db, environment, cutoff);
        PurgeHandlesStay(db, environment, cutoff);
        AdvanceShifts(db, db');
      case _ =>
        StayingAdvances(db.ops);
        AdvanceShifts(db, db');
    }
  }

  lemma PurgeHandlesStay(db: Db, environment: string, cutoff: int)
    requires DistinctIds(db.ops)
    ensures HandlesStay(db, Purge(db, environment, cutoff))
  {
    hide Purge;
    PurgeKeeps(db, environment, cutoff);
  }

  lemma OkMeansDistinct(db: Db, cap: nat)
    requires DbOk(db, cap)
    ensures DistinctIds(db.ops)
  {
  }

  lemma StayingAdvances(ops: map<nat, Operation>)
    ensures Advances(ops, ops)
  {
  }

  lemma RecoverAdvances(db: Db, now: int)
    ensures Advances(db.ops, Recover(db, now).ops)
  {
    hide Evolves, RecoveredRow;
    forall r | r in db.ops ensures Evolves(db.ops[r], Recover(db, now).ops[r]) {
      RecoveredEvolves(db.ops[r], now);
    }
  }

  // ---------------------------------------------------------------- idempotency

  ghost predicate HasSubmission(subs: map<nat, Submission>, s: Submission) {
    exists r :: r in subs && subs[r] == s
  }

  ghost predicate HandleKnown(subs: map<nat, Submission>, handle: string) {
    exists r :: r in subs && subs[r].id == handle
  }

  /** A submission row is never changed, and once its handle has gone it is not issued again. */
  ghost predicate Fixed(db: Db, s: Submission) {
    s.id in db.issued && (HandleKnown(db.subs, s.id) ==> HasSubmission(db.subs, s))
  }

  ghost predicate DistinctHandles(subs: map<nat, Submission>) {
    forall r, q :: r in subs && q in subs && subs[r].id == subs[q].id ==> r == q
  }

  lemma ShiftKeepsFixed(db: Db, db': Db, s: Submission)
    requires Fixed(db, s) && Shifts(db, db') && DistinctHandles(db.subs)
    ensures Fixed(db', s)
  {
    hide OpsShift;
    if HandleKnown(db'.subs, s.id) {
      var r :| r in db'.subs && db'.subs[r].id == s.id;
      assert db.subs[r].id == s.id && HandleKnown(db.subs, s.id);
      var q :| q in db.subs && db.subs[q] == s;
      assert q == r && db'.subs[r] == s;
    }
  }

  lemma {:induction false} RunKeepsFixed(db: Db, cap: nat, steps: seq<Step>, s: Submission)
    requires DbOk(db, cap) && ProperRun(db, cap, steps) && Fixed(db, s)
    ensures Fixed(Run(db, cap, steps), s)
    decreases |steps|
  {
    hide Apply, Proper, Fixed, Shifts;
    if steps != [] {
      var db' := Apply(db, cap, steps[0]);
      ApplyOk(db, cap, steps[0]);
      StepShifts(db, cap, steps[0]);
      HandlesDistinct(db, cap);
      hide DbOk;
      ShiftKeepsFixed(db, db', s);
      RunKeepsFixed(db', cap, steps[1..], s);
    }
  }

  lemma HandlesDistinct(db: Db, cap: nat)
    requires DbOk(db, cap)
    ensures DistinctHandles(db.subs)
  {
  }

  /** Both ask for the same thing. */
  predicate SameDocument(a: SubmitRequest, b: SubmitRequest) {
    a.operation == b.operation && a.scope == b.scope && a.payload == b.payload
  }

  /** The row behind an accepted submission. */
  ghost predicate Answers(s: Submission, req: SubmitRequest, handle: string) {
    && s.id == handle && s.fingerprint == RequestFingerprint(req)
    && s.environment == req.environment && s.actor == req.actor && s.idempotencyKey == req.idempotencyKey
  }

  lemma {:induction false} SubmittedIsHeld(db: Db, cap: nat, req: SubmitRequest, now: int, opId: string, subId: string)
    returns (s: Submission)
    requires Submit(db, req, cap, now, opId, subId).1.Submitted?
    ensures var (db', r) := Submit(db, req, cap, now, opId, subId);
            Answers(s, req, r.handle) && HasSubmission(db'.subs, s)
  {
    hide KeyRows, ActiveRows, AddOperation;
    var (db', r) := Submit(db, req, cap, now, opId, subId);
    var earlier := First(SubmissionRows(db, req.environment, req.actor, req.idempotencyKey));
    var row := if earlier.Some? then earlier.value else NextRowid(db.subs.Keys);
    if earlier.None? {
      AddOperationKeepsSubs(db, req, now, opId);
    }
    assert row in db'.subs;
    s := db'.subs[row];
  }

  lemma AddOperationKeepsSubs(db: Db, req: SubmitRequest, now: int, opId: string)
    ensures AddOperation(db, req, now, opId).subs == db.subs
  {
  }

  lemma {:induction false} RetryFindsTheRow(db: Db, cap: nat, s: Submission, again: SubmitRequest, now: int,
                                            opId: string, subId: string)
    requires SubsOk(db.subs, db.issued) && HasSubmission(db.subs, s)
    requires again.environment == s.environment && again.actor == s.actor && again.idempotencyKey == s.idempotencyKey
    ensures Submit(db, again, cap, now, opId, subId)
         == (db, if RequestFingerprint(again) == s.fingerprint then Submitted(s.id, false, false)
                 else IdempotencyConflict)
  {
    hide KeyRows, ActiveRows, AddOperation, AddSubmission;
    var r :| r in db.subs && db.subs[r] == s;
    var rows := SubmissionRows(db, again.environment, again.actor, again.idempotencyKey);
    assert r in rows;
    var first := First(rows).value;
    assert SameKey(db.subs[first], db.subs[r]);
  }

  /**
   Idempotency over whole runs. However the tables have moved since a submission was accepted, as long as its
   handle is retained the same key with the same request answers with that handle and changes nothing, and
   with a different request is refused and changes nothing.
   */
  lemma {:induction false} RetryReturnsTheHandle(db: Db, cap: nat, first: SubmitRequest, at: int, opId: string,
                                                 subId: string,
                                                 steps: seq<Step>, again: SubmitRequest, later: int,
                                                 opId': string, subId': string)
    requires DbOk(db, cap) && Proper(db, SubmitStep(first, at, opId, subId))
    requires Submit(db, first, cap, at, opId, subId).1.Submitted?
    requires ProperRun(Submit(db, first, cap, at, opId, subId).0, cap, steps)
    requires HandleKnown(Run(Submit(db, first, cap, at, opId, subId).0, cap, steps).subs,
                         Submit(db, first, cap, at, opId, subId).1.handle)
    requires again.environment == first.environment && again.actor == first.actor
             && again.idempotencyKey == first.idempotencyKey
    ensures var (db1, accepted) := Submit(db, first, cap, at, opId, subId);
            var db2 := Run(db1, cap, steps);
            Submit(db2, again, cap, later, opId', subId')
              == (db2, if SameDocument(again, first) then Submitted(accepted.handle, false, false)
                     else IdempotencyConflict)
  {
    hide Submit, Run, ProperRun, HandleKnown, HasSubmission, DistinctHandles;
    hide OpsOk, AllServed, AllHeld, SingleRunner, FreshHandles, Fingerprint;
    var (db1, accepted) := Submit(db, first, cap, at, opId, subId);
    var s := SubmittedIsHeld(db, cap, first, at, opId, subId);
    ApplyOk(db, cap, SubmitStep(first, at, opId, subId));
    HeldIsFixed(db1, cap, s);
    RunKeepsFixed(db1, cap, steps, s);
    RunOk(db1, cap, steps);
    RetryFindsTheRow(Run(db1, cap, steps), cap, s, again, later, opId', subId');
    SameFingerprint(again.operation, again.scope, again.payload, first.operation, first.scope, first.payload);
  }

  lemma HeldIsFixed(db: Db, cap: nat, s: Submission)
    requires DbOk(db, cap) && HasSubmission(db.subs, s)
    ensures Fixed(db, s)
  {
    hide OpsOk, AllServed, AllHeld, SingleRunner;
  }

  // ---------------------------------------------------------------- terminal operations

  function HandleRowsIn(subs: map<nat, Submission>, environment: string, handle: string): set<nat> {
    set r | r in subs && subs[r].id == handle && subs[r].environment == environment
  }

  /** The operation a caller sees behind a handle: the join of the two tables. */
  function Look(db: Db, environment: string, handle: string): Option<Operation> {
    var row := First(HandleRowsIn(db.subs, environment, handle));
    if row.None? then None
    else
      var op := First(RowsWithId(db.ops, db.subs[row.value].operationId));
      if op.None? then None else Some(db.ops[op.value])
  }

  ghost predicate HasOperation(ops: map<nat, Operation>, o: Operation) {
    exists r :: r in ops && ops[r] == o
  }

  ghost predicate IdKnown(ops: map<nat, Operation>, id: string) {
    exists r :: r in ops && ops[r].id == id
  }

  ghost predicate Settled(db: Db, o: Operation) {
    o.id in db.issued && (IdKnown(db.ops, o.id) ==> HasOperation(db.ops, o))
  }

  lemma TerminalStays(o: Operation, o': Operation)
    requires Evolves(o, o')
    ensures o'.id == o.id && (Terminal(o.state) ==> o' == o)
  {
  }

  lemma ShiftKeepsSettled(db: Db, db': Db, o: Operation)
    requires Settled(db, o) && Shifts(db, db') && DistinctIds(db.ops) && Terminal(o.state)
    ensures Settled(db', o)
  {
    hide Evolves, SubsShift;
    if IdKnown(db'.ops, o.id) {
      var r :| r in db'.ops && db'.ops[r].id == o.id;
      TerminalStays(db.ops[r], db'.ops[r]);
      assert IdKnown(db.ops, o.id);
      var q :| q in db.ops && db.ops[q] == o;
      assert q == r;
    }
  }

  lemma {:induction false} RunKeepsSettled(db: Db, cap: nat, steps: seq<Step>, o: Operation)
    requires DbOk(db, cap) && ProperRun(db, cap, steps) && Settled(db, o) && Terminal(o.state)
    ensures Settled(Run(db, cap, steps), o)
    decreases |steps|
  {
    hide Apply, Proper, Settled, Shifts;
    if steps != [] {
      var db' := Apply(db, cap, steps[0]);
      ApplyOk(db, cap, steps[0]);
      StepShifts(db, cap, steps[0]);
      OkMeansDistinct(db, cap);
      hide DbOk;
      ShiftKeepsSettled(db, db', o);
      RunKeepsSettled(db', cap, steps[1..], o);
    }
  }

  /** In sound tables a handle shows the operation its row names, whenever the row is there. */
  lemma {:induction false} LookFinds(db: Db, cap: nat, s: Submission)
    requires DbOk(db, cap) && HasSubmission(db.subs, s)
    ensures Look(db, s.environment, s.id).Some? && Look(db, s.environment, s.id).value.id == s.operationId
    ensures HasOperation(db.ops, Look(db, s.environment, s.id).value)
  {
    hide OpsOk, AllHeld, SingleRunner;
    var r :| r in db.subs && db.subs[r] == s;
    assert r in HandleRowsIn(db.subs, s.environment, s.id);
    assert First(HandleRowsIn(db.subs, s.environment, s.id)).value == r;
    assert Served(db.ops, s);
    var q :| q in db.ops && Serves(db.ops[q], s);
    assert q in RowsWithId(db.ops, s.operationId);
  }

  lemma LookComesFromARow(db: Db, environment: string, handle: string) returns (s: Submission)
    requires Look(db, environment, handle).Some?
    ensures HasSubmission(db.subs, s) && s.id == handle && s.environment == environment
    ensures Look(db, environment, handle).value.id == s.operationId
    ensures HasOperation(db.ops, Look(db, environment, handle).value)
  {
    var row := First(HandleRowsIn(db.subs, environment, handle)).value;
    var op := First(RowsWithId(db.ops, db.subs[row].operationId)).value;
    assert op in db.ops;
    s := db.subs[row];
  }

  /**
   A terminal operation is final. After any run its handle shows it unchanged, or shows nothing because a purge
   took it; and then neither the operation nor any submission of it, by whatever caller, is left.
   */
  lemma {:induction false} TerminalIsFinal(db: Db, cap: nat, steps: seq<Step>, environment: string, handle: string)
    requires DbOk(db, cap) && ProperRun(db, cap, steps)
    requires Look(db, environment, handle).Some? && Terminal(Look(db, environment, handle).value.state)
    ensures var db', o := Run(db, cap, steps), Look(db, environment, handle).value;
            || Look(db', environment, handle) == Some(o)
            || (Look(db', environment, handle) == None && !IdKnown(db'.ops, o.id)
                && forall r :: r in db'.subs ==> db'.subs[r].operationId != o.id)
  {
    hide Run, ProperRun, Look, HasSubmission, HasOperation, IdKnown, HandleKnown, OpsOk, AllServed, AllHeld, SubsOk;
    hide SingleRunner;
    var db', o := Run(db, cap, steps), Look(db, environment, handle).value;
    var s := LookComesFromARow(db, environment, handle);
    RunOk(db, cap, steps);
    HeldIsFixed(db, cap, s);
    RunKeepsFixed(db, cap, steps, s);
    HeldIsSettled(db, cap, o);
    RunKeepsSettled(db, cap, steps, o);
    if HasSubmission(db'.subs, s) {
      LookFinds(db', cap, s);
      SettledRowIsIt(db', cap, o, Look(db', environment, handle).value);
    } else {
      FixedNotHeld(db', s);
      NoRowNoLook(db', environment, handle);
      HeldIsTied(db, cap, s);
      RunKeepsTied(db, cap, steps, s);
      UnknownHasNoHandles(db', cap, o.id);
    }
  }

  /** While an operation is known, a submission it had is still there. */
  ghost predicate Tied(db: Db, s: Submission) {
    s.operationId in db.issued && (IdKnown(db.ops, s.operationId) ==> HasSubmission(db.subs, s))
  }

  lemma ShiftKeepsTied(db: Db, db': Db, s: Submission)
    requires Tied(db, s) && Shifts(db, db')
    ensures Tied(db', s)
  {
    hide Evolves, SubsShift;
    if IdKnown(db'.ops, s.operationId) {
      var r :| r in db'.ops && db'.ops[r].id == s.operationId;
      TerminalStays(db.ops[r], db'.ops[r]);
      assert IdKnown(db.ops, s.operationId);
      var q :| q in db.subs && db.subs[q] == s;
      assert q in db'.subs && db'.subs[q] == s;
    }
  }

  lemma {:induction false} RunKeepsTied(db: Db, cap: nat, steps: seq<Step>, s: Submission)
    requires DbOk(db, cap) && ProperRun(db, cap, steps) && Tied(db, s)
    ensures Tied(Run(db, cap, steps), s)
    decreases |steps|
  {
    hide Apply, Proper, Tied, Shifts, DbOk;
    if steps != [] {
      var db' := Apply(db, cap, steps[0]);
      ApplyOk(db, cap, steps[0]);
      StepShifts(db, cap, steps[0]);
      ShiftKeepsTied(db, db', s);
      RunKeepsTied(db', cap, steps[1..], s);
    }
  }

  lemma HeldIsTied(db: Db, cap: nat, s: Submission)
    requires DbOk(db, cap) && HasSubmission(db.subs, s)
    ensures Tied(db, s)
  {
    hide AllHeld, SubsOk, SingleRunner;
    var q :| q in db.subs && db.subs[q] == s;
    assert Served(db.ops, db.subs[q]);
    var r :| r in db.ops && Serves(db.ops[r], s);
    assert db.ops[r].id in db.issued;
  }

  lemma UnknownHasNoHandles(db: Db, cap: nat, id: string)
    requires DbOk(db, cap) && !IdKnown(db.ops, id)
    ensures forall r :: r in db.subs ==> db.subs[r].operationId != id
  {
    hide AllHeld, SubsOk, SingleRunner, OpsOk;
    forall r | r in db.subs ensures db.subs[r].operationId != id {
      assert Served(db.ops, db.subs[r]);
      var q :| q in db.ops && Serves(db.ops[q], db.subs[r]);
      assert db.ops[q].id != id;
    }
  }

  lemma HeldIsSettled(db: Db, cap: nat, o: Operation)
    requires DbOk(db, cap) && HasOperation(db.ops, o)
    ensures Settled(db, o)
  {
    hide AllServed, AllHeld, SubsOk, SingleRunner;
    assert OpsIssued(db.ops, db.issued);
  }

  lemma SettledRowIsIt(db: Db, cap: nat, o: Operation, p: Operation)
    requires DbOk(db, cap) && Settled(db, o) && HasOperation(db.ops, p) && p.id == o.id
    ensures p == o
  {
    hide AllServed, AllHeld, SubsOk, SingleRunner;
    assert DistinctIds(db.ops);
    var r :| r in db.ops && db.ops[r] == p;
    assert IdKnown(db.ops, o.id);
    var q :| q in db.ops && db.ops[q] == o;
    assert q == r;
  }

  lemma FixedNotHeld(db: Db, s: Submission)
    requires Fixed(db, s) && !HasSubmission(db.subs, s)
    ensures !HandleKnown(db.subs, s.id)
  {
  }

  lemma NoRowNoLook(db: Db, environment: string, handle: string)
    requires !HandleKnown(db.subs, handle)
    ensures Look(db, environment, handle) == None
  {
    forall r | r in db.subs ensures db.subs[r].id != handle {
    }
    assert HandleRowsIn(db.subs, environment, handle) == {};
  }

  // ---------------------------------------------------------------- deduplication

  /** An operation for the same request is queued or running. */
  ghost predicate Underway(ops: map<nat, Operation>, req: SubmitRequest) {
    exists r :: r in ops && Live(ops[r]) && Requested(ops[r], req)
  }

  lemma {:induction false} KeyMeansUnderway(db: Db, req: SubmitRequest)
    requires ProperRows(db.ops)
    ensures KeyRows(db, req.environment, req.operation, RequestFingerprint(req)) != {} <==> Underway(db.ops, req)
  {
    hide Fingerprint;
    var rows := KeyRows(db, req.environment, req.operation, RequestFingerprint(req));
    if rows != {} {
      var r :| r in rows;
      ExistingIsLive(db, req, r);
    }
    if Underway(db.ops, req) {
      var r :| r in db.ops && Live(db.ops[r]) && Requested(db.ops[r], req);
      assert ProperRow(db.ops[r]);
      assert r in rows;
    }
  }

  /**
   Under a new key, a submission joins the operation underway for the same request, if there is one, however
   full the queue is; otherwise it is refused exactly when the queue is full; otherwise it starts one.
   */
  lemma {:induction false} SubmitDeduplicates(db: Db, cap: nat, req: SubmitRequest, now: int, opId: string,
                                              subId: string)
    requires DbOk(db, cap) && FreshHandles(db, opId, subId)
    requires SubmissionRows(db, req.environment, req.actor, req.idempotencyKey) == {}
    ensures Submit(db, req, cap, now, opId, subId).1
         == (if Underway(db.ops, req) then Submitted(subId, true, false)
             else if |ActiveRows(db.ops, req.environment)| >= cap then QueueFull
             else Submitted(subId, true, true))
    ensures Submit(db, req, cap, now, opId, subId).1 == QueueFull ==> Submit(db, req, cap, now, opId, subId).0 == db
  {
    hide AllServed, AllHeld, SubsOk, SingleRunner, Underway, KeyRows, AddSubmission, AddOperation;
    assert ProperRows(db.ops);
    KeyMeansUnderway(db, req);
  }

  /** An operation as it is when nothing has happened to it yet. */
  ghost predicate Untouched(o: Operation, id: string, at: int) {
    && o.id == id && o.state == Queued && o.progress == 0.0
    && o.result == None && o.error == None && !o.retryable
    && o.createdAt == at && o.updatedAt == at
  }

  /** What the submitter is told of who asked for what, when. */
  ghost predicate Recorded(subs: map<nat, Submission>, req: SubmitRequest, handle: string, operationId: string, at: int)
  {
    HasSubmission(subs, Submission(handle, req.environment, req.actor, req.idempotencyKey, req.requestId,
                                   RequestFingerprint(req), operationId, at))
  }

  lemma SubmittedRow(db: Db, cap: nat, req: SubmitRequest, now: int, opId: string, subId: string) returns (row: nat)
    requires ProperRows(db.ops)
    requires SubmissionRows(db, req.environment, req.actor, req.idempotencyKey) == {}
    requires Submit(db, req, cap, now, opId, subId).1.Submitted?
    ensures var (db', r) := Submit(db, req, cap, now, opId, subId);
            && r.handle == subId && r.submissionCreated
            && row in db'.ops && Live(db'.ops[row]) && Requested(db'.ops[row], req)
            && (if r.operationCreated then Untouched(db'.ops[row], opId, now)
                else row in db.ops && db'.ops[row] == db.ops[row])
            && Recorded(db'.subs, req, subId, db'.ops[row].id, now)
  {
    hide ActiveRows, ProperRows, Fingerprint;
    var existing := First(KeyRows(db, req.environment, req.operation, RequestFingerprint(req)));
    var db' := Submit(db, req, cap, now, opId, subId).0;
    row := if existing.Some? then existing.value else NextRowid(db.ops.Keys);
    if existing.Some? {
      ExistingIsLive(db, req, row);
    }
    var n := NextRowid(db.subs.Keys);
    assert n in db'.subs && db'.subs[n] == NewSubmission(req, now, subId, db'.ops[row].id);
  }

  /**
   And the handle it is given shows an operation that is not over and carries out exactly this request: a new one,
   to which nothing has happened yet, or the one it joined, as it was.
   */
  lemma {:induction false} HandleShowsTheRequest(db: Db, cap: nat, req: SubmitRequest, now: int, opId: string,
                                                 subId: string)
    requires DbOk(db, cap) && FreshHandles(db, opId, subId)
    requires SubmissionRows(db, req.environment, req.actor, req.idempotencyKey) == {}
    requires Submit(db, req, cap, now, opId, subId).1.Submitted?
    ensures var (db', r) := Submit(db, req, cap, now, opId, subId);
            var shown := Look(db', req.environment, r.handle);
            && shown.Some? && Live(shown.value) && Requested(shown.value, req)
            && (if r.operationCreated then Untouched(shown.value, opId, now) else HasOperation(db.ops, shown.value))
            && Recorded(db'.subs, req, r.handle, shown.value.id, now)
  {
    hide Submit, Look, HasSubmission, AllServed, AllHeld, SubsOk, SingleRunner, FreshHandles, SubmissionRows;
    hide Fingerprint;
    var db' := Submit(db, req, cap, now, opId, subId).0;
    assert ProperRows(db.ops);
    var row := SubmittedRow(db, cap, req, now, opId, subId);
    SubmitOk(db, cap, req, now, opId, subId);
    LookFinds(db', cap, NewSubmission(req, now, subId, db'.ops[row].id));
    OneRowPerId(db', cap, row, Look(db', req.environment, subId).value);
  }

  /** However the tables move, as long as a handle is retained it shows an operation for exactly its request. */
  lemma {:induction false} HandleKeepsTheRequest(db: Db, cap: nat, first: SubmitRequest, at: int, opId: string,
                                                 subId: string, steps: seq<Step>)
    requires DbOk(db, cap) && Proper(db, SubmitStep(first, at, opId, subId))
    requires Submit(db, first, cap, at, opId, subId).1.Submitted?
    requires ProperRun(Submit(db, first, cap, at, opId, subId).0, cap, steps)
    requires HandleKnown(Run(Submit(db, first, cap, at, opId, subId).0, cap, steps).subs,
                         Submit(db, first, cap, at, opId, subId).1.handle)
    ensures var (db1, accepted) := Submit(db, first, cap, at, opId, subId);
            var shown := Look(Run(db1, cap, steps), first.environment, accepted.handle);
            shown.Some? && Requested(shown.value, first)
  {
    hide Submit, Run, ProperRun, HandleKnown, HasSubmission, DistinctHandles, Look, SubmissionRows;
    hide OpsOk, AllServed, AllHeld, SingleRunner, FreshHandles, Fingerprint;
    var (db1, accepted) := Submit(db, first, cap, at, opId, subId);
    var s := SubmittedIsHeld(db, cap, first, at, opId, subId);
    ApplyOk(db, cap, SubmitStep(first, at, opId, subId));
    HeldIsFixed(db1, cap, s);
    RunKeepsFixed(db1, cap, steps, s);
    RunOk(db1, cap, steps);
    var db2 := Run(db1, cap, steps);
    LookFinds(db2, cap, s);
    var o := Look(db2, s.environment, s.id).value;
    ServedByIt(db2, cap, s, o);
    SameFingerprint(o.operation, o.scope, o.payload, first.operation, first.scope, first.payload);
  }

  lemma ServedByIt(db: Db, cap: nat, s: Submission, o: Operation)
    requires DbOk(db, cap) && HasSubmission(db.subs, s) && HasOperation(db.ops, o) && o.id == s.operationId
    ensures Serves(o, s)
  {
    hide AllHeld, SubsOk, SingleRunner, Fingerprint;
    var q :| q in db.subs && db.subs[q] == s;
    assert Served(db.ops, s);
    var r :| r in db.ops && Serves(db.ops[r], s);
    OneRowPerId(db, cap, r, o);
  }

  lemma OneRowPerId(db: Db, cap: nat, row: nat, o: Operation)
    requires DbOk(db, cap) && row in db.ops && HasOperation(db.ops, o) && o.id == db.ops[row].id
    ensures o == db.ops[row]
  {
    hide AllServed, AllHeld, SubsOk, SingleRunner;
    var r :| r in db.ops && db.ops[r] == o;
    assert DistinctIds(db.ops) && r == row;
  }
}
