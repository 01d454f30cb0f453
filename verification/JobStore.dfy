/** The store object: its transactions, statement by statement, against the functions of `Jobs`. */
module JobStores {
  import opened Wrappers
  import opened Types
  import opened Jobs

  /** The two statements of recovery, on one row. */
  function Requeued(o: Operation, now: int): Operation {
    if o.state == Running && o.operation in {IngestBatch, IngestFinalize, IndexRebuild}
    then o.(state := Queued, progress := 0.0, updatedAt := now) else o
  }

  function GivenUp(o: Operation, now: int): Operation {
    if o.state == Running && o.operation in {Query, ModelStart, ModelStop}
    then o.(state := Failed, error := Some("WORKER_RESTARTED"), retryable := true, updatedAt := now,
            dedupeKey := o.dedupeKey + TERMINAL_MARK + o.id)
    else o
  }

  lemma RecoveredInTwo(o: Operation, now: int)
    ensures GivenUp(Requeued(o, now), now) == RecoveredRow(o, now)
  {
  }

  class JobStore {
    var ops: map<nat, Operation>
    var subs: map<nat, Submission>
    var active: map<ActiveKey, ActiveRow>
    var issued: set<string>
    var arrivals: nat

    function State(): Db
      reads this
    {
      Db(ops, subs, active, issued, arrivals)
    }

    constructor (db: Db)
      ensures State() == Reopen(db)
    {
      ops := map r | r in db.ops ::
        if Terminal(db.ops[r].state) && !Contains(db.ops[r].dedupeKey, TERMINAL_MARK + db.ops[r].id)
        then db.ops[r].(dedupeKey := db.ops[r].dedupeKey + TERMINAL_MARK + db.ops[r].id)
        else db.ops[r];
      subs := db.subs;
      active := db.active;
      issued := db.issued;
      arrivals := db.arrivals;
    }

    method SubmitJob(req: SubmitRequest, cap: nat, now: int, opId: string, subId: string) returns (r: SubmitResult)
      modifies this
      ensures (State(), r) == Submit(old(State()), req, cap, now, opId, subId)
    {
      hide RequestFingerprint;
      var earlier := First(SubmissionRows(State(), req.environment, req.actor, req.idempotencyKey));
      if earlier.Some? {
        if subs[earlier.value].fingerprint != RequestFingerprint(req) {
          return IdempotencyConflict;
        }
        return Submitted(subs[earlier.value].id, false, false);
      }
      var existing := First(KeyRows(State(), req.environment, req.operation, RequestFingerprint(req)));
      var operationCreated := existing.None?;
      var operationId;
      if operationCreated {
        if |ActiveRows(ops, req.environment)| >= cap {
          return QueueFull;
        }
        operationId := opId;
        ops := ops[NextRowid(ops.Keys) := NewOperation(State(), req, now, operationId)];
        issued := issued + {operationId};
        arrivals := arrivals + 1;
      } else {
        operationId := ops[existing.value].id;
      }
      subs := subs[NextRowid(subs.Keys) := NewSubmission(req, now, subId, operationId)];
      issued := issued + {subId};
      r := Submitted(subId, true, operationCreated);
    }

    method ClaimNextOperation(environment: string, now: int) returns (r: ClaimResult)
      modifies this
      ensures (State(), r) == Claim(old(State()), environment, now)
    {
      if RowsIn(ops, environment, Running) != {} {
        return NothingToClaim;
      }
      var oldest := First(RowsIn(ops, environment, Queued));
      if oldest.None? {
        return NothingToClaim;
      }
      if HandleRows(subs, ops[oldest.value].id) == {} {
        return OperationWithoutSubmission;
      }
      ops := ops[oldest.value := ops[oldest.value].(state := Running, progress := 0.0, updatedAt := now)];
      r := Claimed(oldest.value);
    }

    method TransitionOperation(id: string, allowedFrom: set<JobState>, state: JobState, progress: Option<real>,
                               result: Option<string>,
                               error: Option<string>, retryable: bool, now: int) returns (r: TransitionResult)
      modifies this
      ensures (State(), r) == Transition(old(State()), id, allowedFrom, state, progress, result, error, retryable, now)
    {
      if progress.Some? && !(0.0 <= progress.value <= 1.0) {
        return InvalidProgress;
      }
      var row := First(RowsWithId(ops, id));
      if row.None? {
        return JobNotFound;
      }
      var o := ops[row.value];
      if o.state !in allowedFrom {
        return InvalidTransition;
      }
      o := o.(state := state, result := result, error := error, retryable := retryable, updatedAt := now);
      if progress.Some? {
        o := o.(progress := progress.value);
      }
      if Terminal(state) {
        o := o.(dedupeKey := o.dedupeKey + TERMINAL_MARK + o.id);
      }
      ops := ops[row.value := o];
      r := Moved;
    }

    method SetJobProgress(id: string, progress: real, now: int) returns (r: TransitionResult)
      modifies this
      ensures (State(), r) == SetProgress(old(State()), id, progress, now)
    {
      r := TransitionOperation(id, {Running}, Running, Some(progress), None, None, false, now);
    }

    method SucceedJob(id: string, result: string, now: int) returns (r: TransitionResult)
      modifies this
      ensures (State(), r) == Succeed(old(State()), id, result, now)
    {
      r := TransitionOperation(id, {Queued, Running}, Succeeded, Some(1.0), Some(result), None, false, now);
    }

    method FailJob(id: string, error: string, retryable: bool, now: int) returns (r: TransitionResult)
      modifies this
      ensures (State(), r) == Fail(old(State()), id, error, retryable, now)
    {
      r := TransitionOperation(id, {Queued, Running}, Failed, None, None, Some(error), retryable, now);
    }

    /** First the interrupted work that may be resumed, then what is still running. */
    method RecoverInterruptedOperations(now: int)
      modifies this
      ensures State() == Recover(old(State()), now)
    {
      hide Requeued, GivenUp, RecoveredRow;
      ghost var before := ops;
      ops := map r | r in ops :: Requeued(ops[r], now);
      ops := map r | r in ops :: GivenUp(ops[r], now);
      forall r | r in before ensures ops[r] == RecoveredRow(before[r], now) {
        RecoveredInTwo(before[r], now);
      }
      assert ops == Recover(old(State()), now).ops;
    }

    /** Handles first, while the rows that say which are expired are still there. */
    method PurgeTerminalOperations(environment: string, cutoff: int) returns (removed: nat)
      modifies this
      ensures State() == Purge(old(State()), environment, cutoff)
      ensures removed == |old(ops)| - |ops|
    {
      var expired := ExpiredRows(ops, environment, cutoff);
      subs := subs - HandlesOf(subs, ops, expired);
      RemoveCounts(ops, expired);
      ops := ops - expired;
      removed := |expired|;
    }

    method StorageRetentionSnapshot(environment: string, cutoff: int) returns (snapshot: Snapshot)
      modifies this
      ensures (State(), snapshot) == Retain(old(State()), environment, cutoff)
    {
      var idle, expired := ActiveRows(ops, environment) == {}, 0;
      if idle {
        var stale := StalePointers(State(), environment, cutoff);
        active := active - stale;
        expired := |stale|;
      }
      snapshot := Snapshot(idle, expired, ActiveScopes(State(), environment), ActiveArtifacts(State(), environment));
    }

    method Activate(entries: seq<(NotebookScope, string)>, environment: string, now: int)
      modifies this
      ensures State() == ActivateIndexes(old(State()), environment, entries, now)
    {
      for i := 0 to |entries|
        invariant State() == old(State()).(active := Pointers(old(active), environment, entries[..i], now))
      {
        var (scope, artifactId) := entries[i];
        active := active[KeyOf(environment, scope) := ActiveRow(scope.contentRevision, artifactId, now)];
        assert entries[..i + 1][..i] == entries[..i];
      }
      assert entries[..|entries|] == entries;
    }
  }

  lemma RemoveCounts<K, V>(m: map<K, V>, gone: set<K>)
    requires gone <= m.Keys
    ensures |m - gone| == |m| - |gone|
  {
    assert (m - gone).Keys == m.Keys - gone;
    assert |m.Keys - gone| == |m.Keys| - |gone|;
    assert |m - gone| == |(m - gone).Keys| && |m| == |m.Keys|;
  }
}
