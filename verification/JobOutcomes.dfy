/**
 What single transactions answer and leave behind, in full: the states, times and results a caller is shown, what a
 purge takes and when, what expires, and the keep set of maintenance.
 */
module JobOutcomes {
  import opened Wrappers
  import opened Types
  import opened Jobs
  import opened JobLaws
  import opened JobRuns

  // ---------------------------------------------------------------- transitions

  lemma OnlyRowWithId(db: Db, row: nat)
    requires DistinctIds(db.ops) && row in db.ops
    ensures First(RowsWithId(db.ops, db.ops[row].id)) == Some(row)
  {
    assert row in RowsWithId(db.ops, db.ops[row].id);
  }

  /** Progress is recorded of a running operation only, and only within [0, 1]. */
  lemma {:induction false} SetProgressExactly(db: Db, row: nat, progress: real, now: int)
    requires DistinctIds(db.ops) && row in db.ops
    ensures var (o, result) := (db.ops[row], SetProgress(db, db.ops[row].id, progress, now));
            && result.1 == (if !(0.0 <= progress <= 1.0) then InvalidProgress
                            else if o.state == Running then Moved else InvalidTransition)
            && result.0 == (if result.1 != Moved then db
                            else db.(ops := db.ops[row := o.(progress := progress, result := None, error := None,
                                                             retryable := false, updatedAt := now)]))
  {
    OnlyRowWithId(db, row);
  }

  /** Success ends a queued or running operation, with its result, at full progress, and frees its key. */
  lemma {:induction false} SucceedExactly(db: Db, row: nat, answer: string, now: int)
    requires DistinctIds(db.ops) && row in db.ops
    ensures var (o, result) := (db.ops[row], Succeed(db, db.ops[row].id, answer, now));
            && result.1 == (if o.state == Queued || o.state == Running then Moved else InvalidTransition)
            && result.0 == (if result.1 != Moved then db
                            else db.(ops := db.ops[row := o.(state := Succeeded, progress := 1.0,
                                                             result := Some(answer), error := None, retryable := false,
                                                             updatedAt := now,
                                                             dedupeKey := o.dedupeKey + ":terminal:" + o.id)]))
  {
    OnlyRowWithId(db, row);
  }

  /** Failure ends a queued or running operation where it stands, with its error, and frees its key. */
  lemma {:induction false} FailExactly(db: Db, row: nat, error: string, retryable: bool, now: int)
    requires DistinctIds(db.ops) && row in db.ops
    ensures var (o, result) := (db.ops[row], Fail(db, db.ops[row].id, error, retryable, now));
            && result.1 == (if o.state == Queued || o.state == Running then Moved else InvalidTransition)
            && result.0 == (if result.1 != Moved then db
                            else db.(ops := db.ops[row := o.(state := Failed, result := None, error := Some(error),
                                                             retryable := retryable, updatedAt := now,
                                                             dedupeKey := o.dedupeKey + ":terminal:" + o.id)]))
  {
    OnlyRowWithId(db, row);
  }

  /** An operation that is not there cannot be moved. */
  lemma {:induction false} UnknownIsNotFound(db: Db, id: string, progress: real, text: string, retryable: bool,
                                             now: int)
    requires !IdKnown(db.ops, id)
    ensures 0.0 <= progress <= 1.0 ==> SetProgress(db, id, progress, now) == (db, JobNotFound)
    ensures Succeed(db, id, text, now) == Fail(db, id, text, retryable, now) == (db, JobNotFound)
  {
    forall row | row in db.ops ensures db.ops[row].id != id {
      assert IdKnown(db.ops, db.ops[row].id);
    }
    assert RowsWithId(db.ops, id) == {};
  }

  /** What a claim answers over any tables, sound or not; only a claim that succeeds changes anything. */
  lemma {:induction false} ClaimExactly(db: Db, environment: string, now: int)
    ensures var (db', c) := Claim(db, environment, now);
            var running := exists r ::
                             r in db.ops && db.ops[r].environment == environment && db.ops[r].state == Running;
            var first := First(RowsIn(db.ops, environment, Queued));
            && (c == NothingToClaim <==> running || first.None?)
            && (c == OperationWithoutSubmission <==>
                  !running && first.Some?
                  && forall s :: s in db.subs ==> db.subs[s].operationId != db.ops[first.value].id)
            && (c.Claimed? ==> first == Some(c.row))
            && (!c.Claimed? ==> db' == db)
  {
    var first := First(RowsIn(db.ops, environment, Queued));
    forall r | r in db.ops ensures r in RowsIn(db.ops, environment, Running) <==>
                                     db.ops[r].environment == environment && db.ops[r].state == Running {
    }
    if first.Some? {
      forall s | s in db.subs
        ensures s in HandleRows(db.subs, db.ops[first.value].id) <==>
                  db.subs[s].operationId == db.ops[first.value].id {
      }
    }
  }

  // ---------------------------------------------------------------- how long a terminal operation is shown

  /** The step is a purge of this operation's environment whose cutoff lies after its last transition. */
  predicate Takes(step: Step, o: Operation) {
    step.PurgeStep? && step.environment == o.environment && o.updatedAt < step.cutoff
  }

  lemma TransitionKeepsTerminal(db: Db, id: string, allowedFrom: set<JobState>, state: JobState, progress: Option<real>,
                                result: Option<string>, error: Option<string>, retryable: bool, now: int, row: nat)
    requires allowedFrom <= {Queued, Running} && row in db.ops && Terminal(db.ops[row].state)
    ensures var ops' := Transition(db, id, allowedFrom, state, progress, result, error, retryable, now).0.ops;
            row in ops' && ops'[row] == db.ops[row]
  {
    hide Moving;
  }

  lemma {:induction false} StepOnTerminal(db: Db, cap: nat, step: Step, row: nat)
    requires row in db.ops && Terminal(db.ops[row].state)
    ensures var ops' := Apply(db, cap, step).ops;
            if Takes(step, db.ops[row]) then row !in ops' else row in ops' && ops'[row] == db.ops[row]
  {
    hide Transition, SubmissionRows, KeyRows, ActiveRows, HandleRows, NewOperation;
    match step {
      case ProgressStep(id, progress, at) =>
        TransitionKeepsTerminal(db, id, {Running}, Running, Some(progress), None, None, false, at, row);
      case SucceedStep(id, result, at) =>
        TransitionKeepsTerminal(db, id, {Queued, Running}, Succeeded, Some(1.0), Some(result), None, false, at, row);
      case FailStep(id, error, retryable, at) =>
        TransitionKeepsTerminal(db, id, {Queued, Running}, Failed, None, None, Some(error), retryable, at, row);
      case _ =>
    }
  }

  /** The run holds a purge that takes the operation. */
  ghost predicate Purged(steps: seq<Step>, o: Operation) {
    exists i :: 0 <= i < |steps| && Takes(steps[i], o)
  }

  lemma PurgedTail(steps: seq<Step>, o: Operation)
    requires steps != []
    ensures Purged(steps, o) <==> Takes(steps[0], o) || Purged(steps[1..], o)
  {
    hide Takes;
    if Purged(steps, o) && !Takes(steps[0], o) {
      var i :| 0 <= i < |steps| && Takes(steps[i], o);
      assert steps[1..][i - 1] == steps[i];
    }
    if Purged(steps[1..], o) {
      var i :| 0 <= i < |steps[1..]| && Takes(steps[1..][i], o);
      assert steps[i + 1] == steps[1..][i];
    }
  }

  lemma {:induction false} RunOnTerminal(db: Db, cap: nat, steps: seq<Step>, row: nat, o: Operation)
    requires DbOk(db, cap) && ProperRun(db, cap, steps) && row in db.ops && db.ops[row] == o && Terminal(o.state)
    ensures !Purged(steps, o) ==> row in Run(db, cap, steps).ops && Run(db, cap, steps).ops[row] == o
    ensures Purged(steps, o) ==> !IdKnown(Run(db, cap, steps).ops, o.id)
    decreases |steps|
  {
    hide DbOk, Apply, Proper, Takes, Purged, IdKnown, Terminal;
    if steps != [] {
      var db' := Apply(db, cap, steps[0]);
      PurgedTail(steps, o);
      ApplyOk(db, cap, steps[0]);
      StepOnTerminal(db, cap, steps[0], row);
      if Takes(steps[0], o) {
        StepShifts(db, cap, steps[0]);
        TakenIsUnknown(db, cap, db', row);
        RunKeepsUnknown(db', cap, steps[1..], o.id);
      } else {
        RunOnTerminal(db', cap, steps[1..], row, o);
      }
    } else {
      NothingPurges(o);
      StillKnown(db.ops, row);
    }
  }

  lemma NothingPurges(o: Operation)
    ensures !Purged([], o)
  {
  }

  lemma StillKnown(ops: map<nat, Operation>, row: nat)
    requires row in ops
    ensures IdKnown(ops, ops[row].id) && HasOperation(ops, ops[row])
  {
  }

  lemma TakenIsUnknown(db: Db, cap: nat, db': Db, row: nat)
    requires DbOk(db, cap) && row in db.ops && row !in db'.ops && Shifts(db, db')
    ensures !IdKnown(db'.ops, db.ops[row].id) && db.ops[row].id in db'.issued
  {
    hide AllServed, AllHeld, SubsOk, SingleRunner, SubsShift, HandlesStay;
    assert DistinctIds(db.ops) && OpsIssued(db.ops, db.issued);
    forall r | r in db'.ops && db'.ops[r].id in db.issued ensures db'.ops[r].id != db.ops[row].id {
      EvolvesFacts(db.ops[r], db'.ops[r]);
    }
  }

  /** An identifier that was issued and is gone does not come back. */
  lemma {:induction false} RunKeepsUnknown(db: Db, cap: nat, steps: seq<Step>, id: string)
    requires DbOk(db, cap) && ProperRun(db, cap, steps) && id in db.issued && !IdKnown(db.ops, id)
    ensures !IdKnown(Run(db, cap, steps).ops, id)
    decreases |steps|
  {
    hide DbOk, Apply, Proper;
    if steps != [] {
      var db' := Apply(db, cap, steps[0]);
      ApplyOk(db, cap, steps[0]);
      StepShifts(db, cap, steps[0]);
      forall r | r in db'.ops && db'.ops[r].id in db.issued ensures db'.ops[r].id != id {
        EvolvesFacts(db.ops[r], db'.ops[r]);
        assert IdKnown(db.ops, db.ops[r].id);
      }
      RunKeepsUnknown(db', cap, steps[1..], id);
    }
  }

  /**
   A terminal operation is shown, unchanged, until a purge of its environment whose cutoff lies after its last
   transition, and not from then on: after any run its handle shows it if and only if the run holds no such purge.
   */
  lemma {:induction false} TerminalShownUntilPurged(db: Db, cap: nat, steps: seq<Step>, environment: string,
                                                    handle: string)
    requires DbOk(db, cap) && ProperRun(db, cap, steps)
    requires Look(db, environment, handle).Some? && Terminal(Look(db, environment, handle).value.state)
    ensures var o := Look(db, environment, handle).value;
            Look(Run(db, cap, steps), environment, handle) == if Purged(steps, o) then None else Some(o)
  {
    hide DbOk, Run, ProperRun, Look, Purged, Terminal;
    var db', o := Run(db, cap, steps), Look(db, environment, handle).value;
    TerminalIsFinal(db, cap, steps, environment, handle);
    var s := LookComesFromARow(db, environment, handle);
    var row :| row in db.ops && db.ops[row] == o;
    RunOnTerminal(db, cap, steps, row, o);
    if Look(db', environment, handle) == Some(o) {
      var s' := LookComesFromARow(db', environment, handle);
    } else if !Purged(steps, o) {
      StillKnown(db'.ops, row);
    }
  }

  // ---------------------------------------------------------------- pointers and the keep set

  /** The pointer is due: of this environment, and activated before the cutoff. */
  predicate Due(k: ActiveKey, row: ActiveRow, environment: string, cutoff: int) {
    k.environment == environment && row.activatedAt < cutoff
  }

  /**
   The snapshot of maintenance. While the environment is idle exactly the pointers that are due go, and are counted;
   otherwise none does; and the keep set names exactly what the pointers that are left name.
   */
  lemma {:induction false} RetainExactly(db: Db, environment: string, cutoff: int)
    ensures var (db', snapshot) := Retain(db, environment, cutoff);
            && (snapshot.idle <==> forall r :: r in db.ops && db.ops[r].environment == environment ==>
                  db.ops[r].state != Queued && db.ops[r].state != Running)
            && db'.ops == db.ops && db'.subs == db.subs
            && (forall k :: k in db'.active <==>
                  k in db.active && !(snapshot.idle && Due(k, db.active[k], environment, cutoff)))
            && (forall k :: k in db'.active ==> db'.active[k] == db.active[k])
            && snapshot.expired == |db.active| - |db'.active|
            && (forall scope :: scope in snapshot.scopes <==>
                  var k := ActiveKey(environment, scope.notebookId, scope.indexSchemaVersion);
                  k in db'.active && db'.active[k].contentRevision == scope.contentRevision)
            && (forall id :: id in snapshot.artifactIds <==>
                  id != "" && exists k :: k in db'.active && k.environment == environment
                                          && db'.active[k].artifactId == id)
  {
    var (db', snapshot) := Retain(db, environment, cutoff);
    var stale := StalePointers(db, environment, cutoff);
    if snapshot.idle {
      forall r | r in db.ops && db.ops[r].environment == environment
        ensures db.ops[r].state != Queued && db.ops[r].state != Running {
        assert r !in ActiveRows(db.ops, environment);
      }
      assert db'.active.Keys == db.active.Keys - stale;
      assert |db.active.Keys| == |db.active.Keys - stale| + |stale|;
      assert |db.active| == |db.active.Keys| && |db'.active| == |db'.active.Keys|;
    }
    forall scope ensures scope in snapshot.scopes <==>
                           var k := ActiveKey(environment, scope.notebookId, scope.indexSchemaVersion);
                           k in db'.active && db'.active[k].contentRevision == scope.contentRevision {
      var k := ActiveKey(environment, scope.notebookId, scope.indexSchemaVersion);
      if k in db'.active && db'.active[k].contentRevision == scope.contentRevision {
        assert ScopeOf(k, db'.active[k]) == scope;
      }
    }
  }

  // ---------------------------------------------------------------- opening an old table

  /** Opening a table marks exactly the terminal keys without a mark, once. */
  lemma {:induction false} ReopenExactly(db: Db)
    ensures var db' := Reopen(db);
            && db' == db.(ops := db'.ops) && db'.ops.Keys == db.ops.Keys
            && (forall r :: r in db.ops ==>
                  var mark := ":terminal:" + db.ops[r].id;
                  && (if Terminal(db.ops[r].state) && !Contains(db.ops[r].dedupeKey, mark)
                      then db'.ops[r] == db.ops[r].(dedupeKey := db.ops[r].dedupeKey + mark)
                      else db'.ops[r] == db.ops[r])
                  && (Terminal(db.ops[r].state) ==> Contains(db'.ops[r].dedupeKey, mark)))
            && Reopen(db') == db'
  {
    hide Contains;
    var db' := Reopen(db);
    forall r | r in db.ops && Terminal(db.ops[r].state)
      ensures Contains(db'.ops[r].dedupeKey, ":terminal:" + db.ops[r].id) {
      MarkIsThere(db.ops[r].dedupeKey, db.ops[r].id);
      assert db.ops[r].dedupeKey + TERMINAL_MARK + db.ops[r].id == db.ops[r].dedupeKey + (TERMINAL_MARK + db.ops[r].id);
    }
    assert Reopen(db').ops == db'.ops;
  }
}
