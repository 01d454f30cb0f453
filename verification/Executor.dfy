/**
 The serialized runner: claim the oldest operation, carry it out, record how it ended, until the queue is
 empty. What an operation does outside the job tables enters as its execution: the progress it reports,
 the index pointers it publishes, and the value it returns or the error it raises, whatever these are.
 */
module Executor {
  import opened Wrappers
  import opened Types
  import opened Jobs
  import opened JobLaws
  import opened JobRuns
  import opened JobStores

  datatype Effect = Report(progress: real) | Publish(entries: seq<(NotebookScope, string)>)

  datatype Outcome = Returned(result: string) | Raised(error: string, retryable: bool)

  datatype Execution = Execution(effects: seq<Effect>, outcome: Outcome, at: int)

  /** The effects in order, up to the first that raises. */
  function Perform(db: Db, environment: string, id: string, effects: seq<Effect>, at: int): (Db, TransitionResult)
    decreases |effects|
  {
    if effects == [] then (db, Moved)
    else
      var (db', r) := if effects[0].Report? then SetProgress(db, id, effects[0].progress, at)
                      else (ActivateIndexes(db, environment, effects[0].entries, at), Moved);
      if r != Moved then (db', r) else Perform(db', environment, id, effects[1..], at)
  }

  /** A progress value out of range is an invalid payload; any other failure to record it is unexpected. */
  function Conclusion(performed: TransitionResult, outcome: Outcome): Outcome {
    match performed
    case Moved => outcome
    case InvalidProgress => Raised("INVALID_OPERATION_PAYLOAD", false)
    case _ => Raised("OPERATION_FAILED", true)
  }

  function Finish(db: Db, id: string, outcome: Outcome, at: int): Db {
    match outcome
    case Returned(result) => Succeed(db, id, result, at).0
    case Raised(error, retryable) => Fail(db, id, error, retryable, at).0
  }

  function Once(db: Db, environment: string, e: Execution): (Db, Option<nat>) {
    var (db1, c) := Claim(db, environment, e.at);
    if !c.Claimed? || c.row !in db1.ops then (db1, None)
    else
      var id := db1.ops[c.row].id;
      var (db2, performed) := Perform(db1, environment, id, e.effects, e.at);
      (Finish(db2, id, Conclusion(performed, e.outcome), e.at), Some(c.row))
  }

  /** The tables after at most |es| operations, and the rows taken, in order. */
  function Drain(db: Db, environment: string, es: seq<Execution>): (Db, seq<nat>)
    decreases |es|
  {
    if es == [] then (db, [])
    else
      var (db', row) := Once(db, environment, es[0]);
      if row.None? then (db', [])
      else
        var (db'', order) := Drain(db', environment, es[1..]);
        (db'', [row.value] + order)
  }

  // ---------------------------------------------------------------- the runner

  class WorkerExecutor {
    const environment: string
    const store: JobStore

    constructor (environment: string, store: JobStore)
      ensures this.environment == environment && this.store == store
    {
      this.environment := environment;
      this.store := store;
    }

    method Execute(id: string, effects: seq<Effect>, at: int) returns (r: TransitionResult)
      modifies store
      ensures (store.State(), r) == Perform(old(store.State()), environment, id, effects, at)
    {
      hide Transition, ActivateIndexes;
      r := Moved;
      var i := 0;
      while i < |effects| && r == Moved
        invariant 0 <= i <= |effects|
        invariant Perform(old(store.State()), environment, id, effects, at)
               == if r == Moved then Perform(store.State(), environment, id, effects[i..], at) else (store.State(), r)
      {
        if effects[i].Report? {
          r := store.SetJobProgress(id, effects[i].progress, at);
        } else {
          store.Activate(effects[i].entries, environment, at);
        }
        assert effects[i..][1..] == effects[i + 1..];
        i := i + 1;
      }
    }

    method RunOnce(e: Execution) returns (row: Option<nat>)
      modifies store
      ensures (store.State(), row) == Once(old(store.State()), environment, e)
    {
      hide Transition, Perform;
      var claim := store.ClaimNextOperation(environment, e.at);
      if !claim.Claimed? || claim.row !in store.ops {
        return None;
      }
      var id := store.ops[claim.row].id;
      var performed := Execute(id, e.effects, e.at);
      match Conclusion(performed, e.outcome) {
        case Returned(result) => var _ := store.SucceedJob(id, result, e.at);
        case Raised(error, retryable) => var _ := store.FailJob(id, error, retryable, e.at);
      }
      row := Some(claim.row);
    }

    method RunUntilIdle(es: seq<Execution>) returns (completed: nat, ghost order: seq<nat>)
      modifies store
      ensures (store.State(), order) == Drain(old(store.State()), environment, es) && completed == |order|
    {
      hide Once;
      completed, order := 0, [];
      assert es[0..] == es;
      while completed < |es|
        invariant completed == |order| <= |es|
        invariant Drain(old(store.State()), environment, es).0 == Drain(store.State(), environment, es[completed..]).0
        invariant Drain(old(store.State()), environment, es).1
               == order + Drain(store.State(), environment, es[completed..]).1
      {
        assert es[completed..][1..] == es[completed + 1..] && es[completed..][0] == es[completed];
        var row := RunOnce(es[completed]);
        if row.None? {
          assert order + [] == order;
          return;
        }
        ghost var rest := Drain(store.State(), environment, es[completed + 1..]).1;
        assert order + ([row.value] + rest) == (order + [row.value]) + rest;
        completed, order := completed + 1, order + [row.value];
      }
      assert order + [] == order;
    }
  }

  // ---------------------------------------------------------------- laws

  /** Rowids in the order of `ORDER BY rowid`. */
  function Ascending(rows: set<nat>): (order: seq<nat>)
    ensures |order| == |rows| && forall r :: r in order <==> r in rows
    decreases |rows|
  {
    var first := First(rows);
    if first.None? then [] else [first.value] + Ascending(rows - {first.value})
  }

  /** Only this row differs. */
  ghost predicate OnlyRow(db: Db, db': Db, row: nat) {
    && db'.ops.Keys == db.ops.Keys && db'.subs == db.subs && db'.issued == db.issued && db'.arrivals == db.arrivals
    && (forall r :: r in db.ops && r != row ==> db'.ops[r] == db.ops[r])
    && (row in db.ops ==> Evolves(db.ops[row], db'.ops[row]))
  }

  predicate InRange(effects: seq<Effect>) {
    forall i :: 0 <= i < |effects| && effects[i].Report? ==> 0.0 <= effects[i].progress <= 1.0
  }

  /** How an execution must end. */
  predicate Concluded(o: Operation, e: Execution) {
    if !InRange(e.effects) then o.state == Failed && o.error == Some("INVALID_OPERATION_PAYLOAD") && !o.retryable
    else
      match e.outcome
      case Returned(result) => o.state == Succeeded && o.result == Some(result) && o.progress == 1.0
      case Raised(error, retryable) => o.state == Failed && o.error == Some(error) && o.retryable == retryable
  }

  lemma TransitionOnlyRow(db: Db, row: nat, allowedFrom: set<JobState>, state: JobState, progress: Option<real>,
                          result: Option<string>, error: Option<string>, retryable: bool, now: int)
    requires DistinctIds(db.ops) && row in db.ops
    requires allowedFrom <= {Queued, Running} && (Terminal(state) || state == Running)
    requires state == Running ==> allowedFrom == {Running}
    ensures var (db', r) := Transition(db, db.ops[row].id, allowedFrom, state, progress, result, error, retryable, now);
            && OnlyRow(db, db', row)
            && (r == Moved ==> db'.ops[row] == Moving(db.ops[row], state, progress, result, error, retryable, now))
            && (r != Moved ==> db' == db)
            && (r == Moved <==> db.ops[row].state in allowedFrom && (progress.Some? ==> 0.0 <= progress.value <= 1.0))
            && (db.ops[row].state in allowedFrom && r != Moved ==> r == InvalidProgress)
  {
    hide Moving, Evolves;
    TransitionAdvances(db, db.ops[row].id, allowedFrom, state, progress, result, error, retryable, now);
    assert row in RowsWithId(db.ops, db.ops[row].id);
    assert First(RowsWithId(db.ops, db.ops[row].id)).value == row;
  }

  lemma OnlyRowTransitive(db: Db, db': Db, db'': Db, row: nat)
    requires OnlyRow(db, db', row) && OnlyRow(db', db'', row)
    ensures OnlyRow(db, db'', row)
  {
    hide ProperRow;
  }

  lemma {:induction false} PerformKeeps(db: Db, cap: nat, environment: string, row: nat, effects: seq<Effect>, at: int)
    requires DbOk(db, cap) && row in db.ops && db.ops[row].state == Running
    ensures var (db', r) := Perform(db, environment, db.ops[row].id, effects, at);
            && DbOk(db', cap) && OnlyRow(db, db', row) && db'.ops[row].state == Running
            && r == (if InRange(effects) then Moved else InvalidProgress)
    decreases |effects|
  {
    hide DbOk, OnlyRow, ActivateIndexes, Transition;
    var id := db.ops[row].id;
    if effects == [] {
      SameRowsOnly(db, db, row);
    } else if effects[0].Report? {
      var (db', r) := SetProgress(db, id, effects[0].progress, at);
      TransitionOk(db, cap, id, {Running}, Running, Some(effects[0].progress), None, None, false, at);
      OkMeansDistinct(db, cap);
      TransitionOnlyRow(db, row, {Running}, Running, Some(effects[0].progress), None, None, false, at);
      if r == Moved {
        OnlyRowSameId(db, db', row);
        PerformKeeps(db', cap, environment, row, effects[1..], at);
        OnlyRowTransitive(db, db', Perform(db', environment, id, effects[1..], at).0, row);
        InRangeSplit(effects);
      }
    } else {
      var db' := ActivateIndexes(db, environment, effects[0].entries, at);
      PublishKeeps(db, cap, environment, effects[0].entries, at, row);
      PerformKeeps(db', cap, environment, row, effects[1..], at);
      OnlyRowTransitive(db, db', Perform(db', environment, id, effects[1..], at).0, row);
      InRangeSplit(effects);
    }
  }

  lemma InRangeSplit(effects: seq<Effect>)
    requires effects != []
    ensures InRange(effects) <==> (effects[0].Report? ==> 0.0 <= effects[0].progress <= 1.0) && InRange(effects[1..])
  {
    if InRange(effects[1..]) {
      assert forall i :: 1 <= i < |effects| ==> effects[i] == effects[1..][i - 1];
    }
  }

  lemma OnlyRowSameId(db: Db, db': Db, row: nat)
    requires OnlyRow(db, db', row) && row in db.ops
    ensures row in db'.ops && db'.ops[row].id == db.ops[row].id
  {
  }

  lemma SameRowsOnly(db: Db, db': Db, row: nat)
    requires db' == db.(active := db'.active)
    ensures OnlyRow(db, db', row)
  {
  }

  lemma PublishKeeps(db: Db, cap: nat, environment: string, entries: seq<(NotebookScope, string)>, at: int, row: nat)
    requires DbOk(db, cap) && row in db.ops
    ensures var db' := ActivateIndexes(db, environment, entries, at);
            DbOk(db', cap) && OnlyRow(db, db', row) && db'.ops == db.ops
  {
    hide OnlyRow;
    SameRowsOnly(db, ActivateIndexes(db, environment, entries, at), row);
    ApplyOk(db, cap, ActivateStep(environment, entries, at));
  }

  lemma {:induction false} FinishEnds(db: Db, cap: nat, row: nat, outcome: Outcome, at: int)
    requires DbOk(db, cap) && row in db.ops && db.ops[row].state == Running
    ensures var db' := Finish(db, db.ops[row].id, outcome, at);
            && DbOk(db', cap) && OnlyRow(db, db', row)
            && (match outcome
                case Returned(result) =>
                  db'.ops[row].state == Succeeded && db'.ops[row].result == Some(result) && db'.ops[row].progress == 1.0
                case Raised(error, retryable) =>
                  db'.ops[row].state == Failed && db'.ops[row].error == Some(error)
                  && db'.ops[row].retryable == retryable)
  {
    hide DbOk, OnlyRow, Transition;
    var id := db.ops[row].id;
    OkMeansDistinct(db, cap);
    match outcome {
      case Returned(result) =>
        TransitionOk(db, cap, id, {Queued, Running}, Succeeded, Some(1.0), Some(result), None, false, at);
        TransitionOnlyRow(db, row, {Queued, Running}, Succeeded, Some(1.0), Some(result), None, false, at);
      case Raised(error, retryable) =>
        TransitionOk(db, cap, id, {Queued, Running}, Failed, None, None, Some(error), retryable, at);
        TransitionOnlyRow(db, row, {Queued, Running}, Failed, None, None, Some(error), retryable, at);
    }
  }

  /** One round takes the first queued operation to its end and touches no other row. */
  lemma {:induction false} OnceTakesFirst(db: Db, cap: nat, environment: string, e: Execution)
    requires DbOk(db, cap) && RowsIn(db.ops, environment, Running) == {}
    ensures var (db', row) := Once(db, environment, e);
            && DbOk(db', cap) && row == First(RowsIn(db.ops, environment, Queued))
            && (row.None? ==> db' == db)
            && (row.Some? ==> OnlyRow(db, db', row.value) && Concluded(db'.ops[row.value], e))
  {
    hide DbOk, OnlyRow, Perform, Finish, Claim, Evolves, InRange;
    var (db1, c) := Claim(db, environment, e.at);
    ClaimOk(db, cap, environment, e.at);
    ClaimTakesFirst(db, cap, environment, e.at);
    if c.Claimed? {
      var (db2, performed) := Perform(db1, environment, db1.ops[c.row].id, e.effects, e.at);
      PerformKeeps(db1, cap, environment, c.row, e.effects, e.at);
      OnlyRowSameId(db1, db2, c.row);
      FinishEnds(db2, cap, c.row, Conclusion(performed, e.outcome), e.at);
      var db3 := Finish(db2, db2.ops[c.row].id, Conclusion(performed, e.outcome), e.at);
      OnlyRowTransitive(db, db1, db2, c.row);
      OnlyRowTransitive(db, db2, db3, c.row);
    }
  }

  lemma ClaimTakesFirst(db: Db, cap: nat, environment: string, now: int)
    requires DbOk(db, cap) && RowsIn(db.ops, environment, Running) == {}
    ensures var (db', c) := Claim(db, environment, now);
            var first := First(RowsIn(db.ops, environment, Queued));
            && (first.None? ==> db' == db && c == NothingToClaim)
            && (first.Some? ==> c == Claimed(first.value) && OnlyRow(db, db', first.value) && first.value in db'.ops
                                && db'.ops[first.value].state == Running)
  {
    hide AllServed, SubsOk, HandleRows, OpsOk, Evolves;
    var first := First(RowsIn(db.ops, environment, Queued));
    ClaimAdvances(db, environment, now);
    if first.Some? {
      assert first.value in RowsIn(db.ops, environment, Queued);
      HandleExists(db, first.value);
    }
  }

  lemma {:induction false} RowsAfter(db: Db, db': Db, environment: string, row: nat, state: JobState)
    requires OnlyRow(db, db', row) && row in RowsIn(db.ops, environment, Queued) && Terminal(db'.ops[row].state)
             && !Terminal(state)
    ensures RowsIn(db'.ops, environment, state) == RowsIn(db.ops, environment, state) - {row}
  {
  }

  lemma {:induction false} AscendingIsSorted(rows: set<nat>)
    ensures forall i, j :: 0 <= i < j < |Ascending(rows)| ==> Ascending(rows)[i] < Ascending(rows)[j]
    decreases |rows|
  {
    var first := First(rows);
    if first.Some? {
      AscendingIsSorted(rows - {first.value});
      var rest := Ascending(rows - {first.value});
      forall i, j | 0 <= i < j < |Ascending(rows)| ensures Ascending(rows)[i] < Ascending(rows)[j] {
        assert Ascending(rows)[j] == rest[j - 1];
        assert rest[j - 1] in rest;
      }
    }
  }

  function Min(a: nat, b: nat): nat {
    if a < b then a else b
  }

  ghost predicate Untouched<V>(m: map<nat, V>, m': map<nat, V>, order: seq<nat>) {
    forall r :: r in m && r !in order ==> r in m' && m'[r] == m[r]
  }

  lemma UntouchedCons<V>(m: map<nat, V>, m1: map<nat, V>, m2: map<nat, V>, row: nat, order: seq<nat>)
    requires forall r :: r in m && r != row ==> r in m1 && m1[r] == m[r]
    requires Untouched(m1, m2, order)
    ensures Untouched(m, m2, [row] + order)
  {
    forall r | r in m && r !in [row] + order ensures r in m2 && m2[r] == m[r] {
      assert ([row] + order)[0] == row;
      assert forall k :: 0 <= k < |order| ==> ([row] + order)[k + 1] == order[k];
    }
  }

  /** Each row taken ended as its execution says, and the other rows are as they were. */
  ghost predicate Drained(db: Db, db': Db, order: seq<nat>, es: seq<Execution>) {
    && |order| <= |es| && db'.ops.Keys == db.ops.Keys
    && (forall i :: 0 <= i < |order| ==> order[i] in db'.ops && Concluded(db'.ops[order[i]], es[i]))
    && Untouched(db.ops, db'.ops, order)
  }

  lemma DrainedCons(db: Db, db1: Db, db2: Db, row: nat, order: seq<nat>, es: seq<Execution>)
    requires es != [] && OnlyRow(db, db1, row) && row in db.ops && Concluded(db1.ops[row], es[0])
    requires Drained(db1, db2, order, es[1..]) && row !in order
    ensures Drained(db, db2, [row] + order, es)
  {
    hide Concluded, Evolves;
    UntouchedCons(db.ops, db1.ops, db2.ops, row, order);
    assert db2.ops[row] == db1.ops[row];
    hide Untouched;
    var all := [row] + order;
    forall i | 0 <= i < |all| ensures all[i] in db2.ops && Concluded(db2.ops[all[i]], es[i]) {
      if i > 0 {
        assert all[i] == order[i - 1] && es[i] == es[1..][i - 1];
      }
    }
  }

  /**
   The drain. From recovered tables, with no new submissions, the runner takes the queued operations one by
   one in rowid order, each exactly once, ends each of them as its execution says whatever that does, and
   touches no other row; allowed as many rounds as there are queued operations, it leaves none live.
   */
  lemma {:induction false} DrainTakesTheQueue(db: Db, cap: nat, environment: string, es: seq<Execution>)
    requires DbOk(db, cap) && RowsIn(db.ops, environment, Running) == {}
    ensures var (db', order) := Drain(db, environment, es);
            var queue := Ascending(RowsIn(db.ops, environment, Queued));
            && DbOk(db', cap)
            && order == queue[..Min(|es|, |queue|)]
            && Drained(db, db', order, es)
            && (|es| >= |queue| ==> ActiveRows(db'.ops, environment) == {})
    decreases |es|
  {
    hide DbOk, OnlyRow, Once, Concluded, Drained, RowsIn, ActiveRows;
    var rows := RowsIn(db.ops, environment, Queued);
    if es == [] || rows == {} {
      NothingDrained(db, es);
      NoneLive(db, environment);
      if es != [] {
        OnceTakesFirst(db, cap, environment, es[0]);
      }
    } else {
      var (db1, row) := Once(db, environment, es[0]);
      Round(db, cap, environment, es[0]);
      DrainTakesTheQueue(db1, cap, environment, es[1..]);
      var (db2, order) := Drain(db1, environment, es[1..]);
      var rest := Ascending(rows - {row.value});
      PrefixMembers(rest, Min(|es| - 1, |rest|), row.value);
      DrainedCons(db, db1, db2, row.value, order, es);
      PrefixCons(row.value, rest, Min(|es| - 1, |rest|));
    }
  }

  lemma PrefixCons(x: nat, rest: seq<nat>, k: nat)
    requires k <= |rest|
    ensures ([x] + rest)[..k + 1] == [x] + rest[..k]
  {
  }

  lemma {:induction false} Round(db: Db, cap: nat, environment: string, e: Execution)
    requires DbOk(db, cap) && RowsIn(db.ops, environment, Running) == {} && RowsIn(db.ops, environment, Queued) != {}
    ensures var (db', row) := Once(db, environment, e);
            var rows := RowsIn(db.ops, environment, Queued);
            && DbOk(db', cap) && row.Some? && row == First(rows) && row.value in db.ops
            && OnlyRow(db, db', row.value) && row.value in db'.ops && Concluded(db'.ops[row.value], e)
            && RowsIn(db'.ops, environment, Running) == {} && RowsIn(db'.ops, environment, Queued) == rows - {row.value}
  {
    hide DbOk, Once, OnlyRow, Concluded;
    OnceTakesFirst(db, cap, environment, e);
    var (db', row) := Once(db, environment, e);
    OnlyRowSameId(db, db', row.value);
    ConcludedIsOver(db'.ops[row.value], e);
    RowsAfter(db, db', environment, row.value, Running);
    RowsAfter(db, db', environment, row.value, Queued);
  }

  lemma PrefixMembers(s: seq<nat>, k: nat, x: nat)
    requires k <= |s| && x !in s
    ensures x !in s[..k]
  {
  }

  lemma NothingDrained(db: Db, es: seq<Execution>)
    ensures Drained(db, db, [], es)
  {
  }

  lemma NoneLive(db: Db, environment: string)
    requires RowsIn(db.ops, environment, Running) == {}
    ensures ActiveRows(db.ops, environment) == RowsIn(db.ops, environment, Queued)
  {
    forall r | r in ActiveRows(db.ops, environment) ensures r in RowsIn(db.ops, environment, Queued) {
      assert r !in RowsIn(db.ops, environment, Running);
    }
  }

  lemma ConcludedIsOver(o: Operation, e: Execution)
    requires Concluded(o, e)
    ensures Terminal(o.state)
  {
  }

  /** Rowid order is the order of arrival, so the drain is first in, first out. */
  lemma {:induction false} QueueIsInArrivalOrder(db: Db, cap: nat, environment: string)
    requires DbOk(db, cap)
    ensures var queue := Ascending(RowsIn(db.ops, environment, Queued));
            forall i, j :: 0 <= i < j < |queue| ==>
              queue[i] in db.ops && queue[j] in db.ops && db.ops[queue[i]].arrival < db.ops[queue[j]].arrival
  {
    hide AllServed, AllHeld, SubsOk, ProperRow, RowsIn, Ascending;
    var rows := RowsIn(db.ops, environment, Queued);
    assert rows <= db.ops.Keys by { QueuedAreRows(db, environment); }
    AscendingIsSorted(rows);
    var queue := Ascending(rows);
    forall i, j | 0 <= i < j < |queue|
      ensures queue[i] in db.ops && queue[j] in db.ops && db.ops[queue[i]].arrival < db.ops[queue[j]].arrival
    {
      assert queue[i] in queue && queue[j] in queue;
    }
  }

  lemma QueuedAreRows(db: Db, environment: string)
    ensures RowsIn(db.ops, environment, Queued) <= db.ops.Keys
  {
  }
}
