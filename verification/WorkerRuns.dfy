/**
 The closures and operations of the worker, undisturbed: each is one run of the state machine, with the effect on the
 tables and on both stores that is stated of its method.
 */
module WorkerRuns {
  import opened Wrappers
  import opened Types
  import opened Canonical
  import opened Worker
  import opened WorkerLaws
  import opened Rebuild
  import J = Jobs
  import L = JobLaws
  import O = JobOutcomes
  import E = Executor
  import D = Documents
  import DL = DocumentLaws
  import X = Indexes
  import XL = IndexLaws
  import SV = Service

  // ---------------------------------------------------------------- runs

  lemma Alone(site: Site, w: World, step: Step)
    requires Enabled(site, w, step)
    ensures Runs(site, w, [step]) && After(site, w, [step]) == Apply(site, w, step)
  {
    hide Enabled, Apply;
    assert [step][1..] == [];
  }

  lemma Prepend(site: Site, w: World, step: Step, rest: seq<Step>)
    requires Enabled(site, w, step) && Runs(site, Apply(site, w, step), rest)
    ensures Runs(site, w, [step] + rest)
            && After(site, w, [step] + rest) == After(site, Apply(site, w, step), rest)
  {
    hide Enabled, Apply;
    assert ([step] + rest)[0] == step && ([step] + rest)[1..] == rest;
  }

  lemma {:induction false} Then(site: Site, w: World, first: seq<Step>, rest: seq<Step>)
    requires Runs(site, w, first) && Runs(site, After(site, w, first), rest)
    ensures Runs(site, w, first + rest)
            && After(site, w, first + rest) == After(site, After(site, w, first), rest)
    decreases |first|
  {
    hide Enabled, Apply;
    if first == [] {
      assert first + rest == rest;
    } else {
      var w' := Apply(site, w, first[0]);
      assert After(site, w, first) == After(site, w', first[1..]);
      Then(site, w', first[1..], rest);
      assert (first + rest)[0] == first[0] && (first + rest)[1..] == first[1..] + rest;
    }
  }

  // ---------------------------------------------------------------- submission and restart

  /** A submission: what has expired is purged, then the request is submitted. */
  lemma {:induction false} UndisturbedSubmission(site: Site, w: World, cutoff: int, req: J.SubmitRequest, at: int,
                                                 opId: string, subId: string)
    requires w.lock == Free && (w.exec == Ready || w.exec.Busy?) && req.environment == site.environment
    requires L.FreshHandles(w.db, opId, subId)
    ensures var steps := [ApiLock, ApiPurge(cutoff), ApiSubmit(req, at, opId, subId)];
            && Runs(site, w, steps)
            && After(site, w, steps)
                 == w.(db := J.Submit(J.Purge(w.db, site.environment, cutoff), req, site.cap, at, opId, subId).0)
  {
    hide J.Submit, Runs, After;
    var w1 := Apply(site, w, ApiLock);
    var w2 := Apply(site, w1, ApiPurge(cutoff));
    Alone(site, w2, ApiSubmit(req, at, opId, subId));
    Prepend(site, w1, ApiPurge(cutoff), [ApiSubmit(req, at, opId, subId)]);
    Prepend(site, w, ApiLock, [ApiPurge(cutoff)] + [ApiSubmit(req, at, opId, subId)]);
    assert [ApiLock] + ([ApiPurge(cutoff)] + [ApiSubmit(req, at, opId, subId)])
        == [ApiLock, ApiPurge(cutoff), ApiSubmit(req, at, opId, subId)];
  }

  lemma {:induction false} BootRuns(site: Site, w: World, at: int, cutoff: int)
    requires w.exec == Down && w.lock == Free
    ensures var steps := [BootRecover(at)] + ([BootPurge(cutoff)] + [Start]);
            && Runs(site, w, steps)
            && After(site, w, steps)
                 == World(J.Purge(J.Recover(w.db, at), site.environment, cutoff),
                          w.docs.(bytesUsed := D.TreeSize(w.docs)), w.idx.(bytesUsed := X.RepoSize(w.idx)), Ready, Free)
  {
    hide J.Purge, J.Recover, Runs, After, D.TreeSize, X.RepoSize;
    var w2 := Apply(site, w, BootRecover(at));
    var w3 := Apply(site, w2, BootPurge(cutoff));
    Alone(site, w3, Start);
    Prepend(site, w2, BootPurge(cutoff), [Start]);
    Prepend(site, w, BootRecover(at), [BootPurge(cutoff)] + [Start]);
  }

  /** A crash and the start after it: interrupted work is recovered, what has expired purged, both stores measured. */
  lemma {:induction false} UndisturbedRestart(site: Site, w: World, at: int, cutoff: int)
    ensures var steps := [Crash, BootRecover(at), BootPurge(cutoff), Start];
            && Runs(site, w, steps)
            && After(site, w, steps)
                 == World(J.Purge(J.Recover(w.db, at), site.environment, cutoff),
                          w.docs.(bytesUsed := D.TreeSize(w.docs)), w.idx.(bytesUsed := X.RepoSize(w.idx)), Ready, Free)
  {
    hide J.Purge, J.Recover, Runs, After, D.TreeSize, X.RepoSize;
    var w1 := Apply(site, w, Crash);
    BootRuns(site, w1, at, cutoff);
    Prepend(site, w, Crash, [BootRecover(at)] + ([BootPurge(cutoff)] + [Start]));
    assert [Crash] + ([BootRecover(at)] + ([BootPurge(cutoff)] + [Start]))
        == [Crash, BootRecover(at), BootPurge(cutoff), Start];
  }

  // ---------------------------------------------------------------- one operation

  function Reported(reports: seq<real>): seq<E.Effect> {
    seq(|reports|, i requires 0 <= i < |reports| => E.Report(reports[i]))
  }

  /** Reports up to the first that is refused. */
  function ReportSteps(reports: seq<real>, at: int): seq<Step> {
    if reports == [] then []
    else [Report(reports[0], at)] + (if 0.0 <= reports[0] <= 1.0 then ReportSteps(reports[1..], at) else [])
  }

  lemma {:induction false} ReportsRun(site: Site, w: World, reports: seq<real>, at: int)
    requires L.DistinctIds(w.db.ops) && Working(w) && Current(w).state == J.Running
    ensures Runs(site, w, ReportSteps(reports, at))
    ensures var db := E.Perform(w.db, site.environment, Current(w).id, Reported(reports), at).0;
            && After(site, w, ReportSteps(reports, at)) == w.(db := db)
            && w.exec.row in db.ops && db.ops[w.exec.row].id == Current(w).id
    decreases |reports|
  {
    hide J.SetProgress, J.Transition;
    if reports != [] {
      var effects := Reported(reports);
      assert effects[1..] == Reported(reports[1..]);
      O.SetProgressExactly(w.db, w.exec.row, reports[0], at);
      var w' := Apply(site, w, Report(reports[0], at));
      if 0.0 <= reports[0] <= 1.0 {
        ReportsRun(site, w', reports[1..], at);
        Prepend(site, w, Report(reports[0], at), ReportSteps(reports[1..], at));
      } else {
        Alone(site, w, Report(reports[0], at));
        assert [Report(reports[0], at)] + [] == [Report(reports[0], at)];
      }
    } else {
      assert Reported([]) == [];
    }
  }

  function End(outcome: E.Outcome, at: int): Step {
    match outcome
    case Returned(result) => EndOk(result, at)
    case Raised(error, retryable) => EndFailed(error, retryable, at)
  }

  lemma {:induction false} TakeRuns(site: Site, w: World, at: int)
    requires Inv(site, w) && w.exec == Ready && J.Claim(w.db, site.environment, at).1.Claimed?
    ensures Enabled(site, w, Take(at))
    ensures var (db, c) := J.Claim(w.db, site.environment, at);
            var w1 := Apply(site, w, Take(at));
            && c.row in w.db.ops && c.row in db.ops
            && w1 == w.(db := db, exec := Busy(c.row, TaskOf(w.db.ops[c.row].operation)))
            && db.ops[c.row].state == J.Running && db.ops[c.row].operation == w.db.ops[c.row].operation
            && db.ops[c.row].scope == w.db.ops[c.row].scope && L.DistinctIds(db.ops)
  {
    hide L.DbOk, PointersOk, KeepOk, TaskOk;
    DistinctRows(site, w);
  }

  lemma DistinctRows(site: Site, w: World)
    requires Inv(site, w)
    ensures L.DistinctIds(w.db.ops)
  {
  }

  /**
   A query, a model start or a model stop: it is claimed, reports, and ends as its execution says. The tables are
   those of one round of the serialized runner.
   */
  lemma {:induction false} UndisturbedOperation(site: Site, w: World, at: int, reports: seq<real>, outcome: E.Outcome)
    requires Inv(site, w) && w.exec == Ready && J.Claim(w.db, site.environment, at).1.Claimed?
    requires w.db.ops[J.Claim(w.db, site.environment, at).1.row].operation != J.IndexRebuild
    ensures var (db1, c) := J.Claim(w.db, site.environment, at);
            var performed := E.Perform(db1, site.environment, db1.ops[c.row].id, Reported(reports), at).1;
            var steps := [Take(at)] + (ReportSteps(reports, at) + [End(E.Conclusion(performed, outcome), at)]);
            && Runs(site, w, steps)
            && After(site, w, steps)
                 == w.(db := E.Once(w.db, site.environment, E.Execution(Reported(reports), outcome, at)).0)
  {
    hide Inv, J.Claim, J.Transition, E.Perform, Runs, After, ReportSteps, E.Conclusion, Reported, L.DistinctIds;
    TakeRuns(site, w, at);
    var (db1, c) := J.Claim(w.db, site.environment, at);
    var w1 := Apply(site, w, Take(at));
    ReportsRun(site, w1, reports, at);
    var w2 := After(site, w1, ReportSteps(reports, at));
    var (db2, performed) := E.Perform(db1, site.environment, db1.ops[c.row].id, Reported(reports), at);
    var end := End(E.Conclusion(performed, outcome), at);
    Alone(site, w2, end);
    Then(site, w1, ReportSteps(reports, at), [end]);
    Prepend(site, w, Take(at), ReportSteps(reports, at) + [end]);
  }

  /** An ingested batch: the batch is staged in the scope of the operation, and the operation ends. */
  lemma {:induction false} UndisturbedIngest(site: Site, w: World, at: int, number: nat, checksum: Digest,
                                             pages: seq<Page>, outcome: E.Outcome)
    requires Inv(site, w) && w.exec == Ready && J.Claim(w.db, site.environment, at).1.Claimed?
    requires var o := w.db.ops[J.Claim(w.db, site.environment, at).1.row];
             o.operation == J.IngestBatch && |o.scope| == 1
    ensures var steps := [Take(at), StagePages(number, checksum, pages), End(outcome, at)];
            var scope := w.db.ops[J.Claim(w.db, site.environment, at).1.row].scope[0];
            && Runs(site, w, steps)
            && After(site, w, steps)
                 == w.(db := E.Once(w.db, site.environment, E.Execution([], outcome, at)).0,
                       docs := D.StageBatch(w.docs, scope, number, checksum, pages).0)
  {
    hide Inv, J.Claim, J.Transition, Runs, After, D.StageBatch, L.DistinctIds;
    TakeRuns(site, w, at);
    var w1 := Apply(site, w, Take(at));
    var store := StagePages(number, checksum, pages);
    var w2 := Apply(site, w1, store);
    Alone(site, w2, End(outcome, at));
    Prepend(site, w1, store, [End(outcome, at)]);
    Prepend(site, w, Take(at), [store] + [End(outcome, at)]);
    assert [Take(at)] + ([store] + [End(outcome, at)]) == [Take(at), store, End(outcome, at)];
  }

  /** A finalize, completed or interrupted by an error while its staging is removed. */
  lemma {:induction false} UndisturbedFinalize(site: Site, w: World, at: int, checksum: Digest, pageCount: nat,
                                               batchCount: nat, torn: Option<set<nat>>, outcome: E.Outcome)
    requires Inv(site, w) && w.exec == Ready && J.Claim(w.db, site.environment, at).1.Claimed?
    requires var o := w.db.ops[J.Claim(w.db, site.environment, at).1.row];
             o.operation == J.IngestFinalize && |o.scope| == 1
    ensures var finalize := if torn.None? then FinalizePages(checksum, pageCount, batchCount)
                            else TornFinalize(checksum, pageCount, batchCount, torn.value);
            var scope := w.db.ops[J.Claim(w.db, site.environment, at).1.row].scope[0];
            var docs := if torn.None? then D.Finalize(w.docs, scope, checksum, pageCount, batchCount).0
                        else D.CutFinalize(w.docs, scope, checksum, pageCount, batchCount, torn.value).0;
            && Runs(site, w, [Take(at), finalize, End(outcome, at)])
            && After(site, w, [Take(at), finalize, End(outcome, at)])
                 == w.(db := E.Once(w.db, site.environment, E.Execution([], outcome, at)).0, docs := docs)
  {
    hide Inv, J.Claim, J.Transition, Runs, After, D.Finalize, D.CutFinalize, L.DistinctIds;
    TakeRuns(site, w, at);
    var w1 := Apply(site, w, Take(at));
    var finalize := if torn.None? then FinalizePages(checksum, pageCount, batchCount)
                    else TornFinalize(checksum, pageCount, batchCount, torn.value);
    var w2 := Apply(site, w1, finalize);
    Alone(site, w2, End(outcome, at));
    Prepend(site, w1, finalize, [End(outcome, at)]);
    Prepend(site, w, Take(at), [finalize] + [End(outcome, at)]);
    assert [Take(at)] + ([finalize] + [End(outcome, at)]) == [Take(at), finalize, End(outcome, at)];
  }

  // ---------------------------------------------------------------- a rebuild

  function BuildSteps(shares: seq<Share>, k: nat): seq<Step>
    requires k <= |shares|
  {
    seq(k, i requires 0 <= i < k => BuildNext(shares[i].artifactId, shares[i].material, shares[i].fault))
  }

  /** The outside keeps its part: new identifiers, and a header that fits the margin. */
  ghost predicate ProperShares(idx: X.Repo, shares: seq<Share>) {
    && NewShares(idx, shares)
    && forall i :: 0 <= i < |shares| ==> 0 < shares[i].material.overheadBytes <= X.MARGIN
  }

  /** The executor has just taken this rebuild. */
  ghost predicate Rebuilding(w: World, shares: seq<Share>) {
    && Working(w) && w.exec.task == Building([]) && |shares| == |Current(w).scope| && ProperShares(w.idx, shares)
  }

  /** Taking an index rebuild begins it: nothing is built, and it is the rebuild of the queued operation's scopes. */
  lemma {:induction false} TakenRebuild(site: Site, w: World, at: int, shares: seq<Share>)
    requires Inv(site, w) && w.exec == Ready && J.Claim(w.db, site.environment, at).1.Claimed?
    requires var o := w.db.ops[J.Claim(w.db, site.environment, at).1.row];
             o.operation == J.IndexRebuild && |o.scope| == |shares| && ProperShares(w.idx, shares)
    ensures Enabled(site, w, Take(at))
    ensures var (db, c) := J.Claim(w.db, site.environment, at);
            var w1 := Apply(site, w, Take(at));
            && Rebuilding(w1, shares) && Current(w1).scope == w.db.ops[c.row].scope
            && w1 == w.(db := db, exec := Busy(c.row, Building([])))
  {
    hide Inv, J.Claim, L.DistinctIds, ProperShares;
    TakeRuns(site, w, at);
  }

  lemma {:induction false} BuildsRun(site: Site, w: World, shares: seq<Share>, k: nat) returns (built: seq<X.Candidate>)
    requires Rebuilding(w, shares) && k <= |shares|
    requires AfterBuilds(w.docs, w.idx, Current(w).scope, shares, k).Some?
    ensures Runs(site, w, BuildSteps(shares, k)) && |built| == k
    ensures var idx := AfterBuilds(w.docs, w.idx, Current(w).scope, shares, k).value;
            && After(site, w, BuildSteps(shares, k)) == w.(idx := idx, exec := Busy(w.exec.row, Building(built)))
            && BuiltSoFar(w.docs, w.idx, idx, Current(w).scope, shares, built)
  {
    hide X.Build, D.Load, BuiltSoFar, X.IsArtifactId;
    var scope := Current(w).scope;
    if k == 0 {
      built := [];
      NothingBuilt(w.docs, w.idx, scope, shares);
      assert BuildSteps(shares, 0) == [];
    } else {
      built := BuildsRun(site, w, shares, k - 1);
      built := BuildOneMore(site, w, shares, k, built);
    }
  }

  lemma {:induction false} BuildOneMore(site: Site, w: World, shares: seq<Share>, k: nat, before: seq<X.Candidate>)
    returns (built: seq<X.Candidate>)
    requires Rebuilding(w, shares) && 0 < k <= |shares|
    requires AfterBuilds(w.docs, w.idx, Current(w).scope, shares, k).Some?
    requires Runs(site, w, BuildSteps(shares, k - 1)) && |before| == k - 1
    requires var idx := AfterBuilds(w.docs, w.idx, Current(w).scope, shares, k - 1).value;
             && After(site, w, BuildSteps(shares, k - 1)) == w.(idx := idx, exec := Busy(w.exec.row, Building(before)))
             && BuiltSoFar(w.docs, w.idx, idx, Current(w).scope, shares, before)
    ensures Runs(site, w, BuildSteps(shares, k)) && |built| == k
    ensures var idx := AfterBuilds(w.docs, w.idx, Current(w).scope, shares, k).value;
            && After(site, w, BuildSteps(shares, k)) == w.(idx := idx, exec := Busy(w.exec.row, Building(built)))
            && BuiltSoFar(w.docs, w.idx, idx, Current(w).scope, shares, built)
  {
    hide X.Build, D.Load, BuiltSoFar, X.IsArtifactId, NewShares, Runs, After;
    var scope, share := Current(w).scope, shares[k - 1];
    var w1 := After(site, w, BuildSteps(shares, k - 1));
    var step := BuildNext(share.artifactId, share.material, share.fault);
    NextFits(w, w1.idx, shares, before);
    BuildStep(w.docs, w.idx, w1.idx, scope, shares, before);
    var r := X.Build(w1.idx, w.docs.final[scope[k - 1]], share.artifactId, share.material, share.fault).1;
    built := before + [r.value];
    Alone(site, w1, step);
    Then(site, w, BuildSteps(shares, k - 1), [step]);
    assert BuildSteps(shares, k - 1) + [step] == BuildSteps(shares, k);
  }

  lemma NextFits(w: World, idx: X.Repo, shares: seq<Share>, built: seq<X.Candidate>)
    requires Rebuilding(w, shares) && |built| < |shares|
    requires BuiltSoFar(w.docs, w.idx, idx, Current(w).scope, shares, built)
    ensures XL.NewId(idx, shares[|built|].artifactId)
  {
    hide X.IsArtifactId, CandidatesOk;
    NextIsNew(w.idx, idx, shares, built);
  }

  function CommitSteps(n: nat): seq<Step> {
    seq(n, i => CommitNext)
  }

  /** All candidates are built and none is moved, or some are. */
  predicate Committing(w: World, built: seq<X.Candidate>, n: nat) {
    && Working(w) && n <= |built| == |Current(w).scope|
    && (w.exec.task == Task.Committing(built, n) || (n == 0 && built != [] && w.exec.task == Building(built)))
  }

  lemma NoSteps(site: Site, w: World)
    ensures Runs(site, w, []) && After(site, w, []) == w
  {
  }

  lemma NoIds()
    ensures Ids([]) == {}
  {
  }

  lemma {:induction false} CommitsRun(site: Site, w: World, built: seq<X.Candidate>, n: nat) returns (idx: X.Repo)
    requires Committing(w, built, 0) && n <= |built|
    requires CandidatesOk(w.docs, w.idx, Current(w).scope, built, 0)
    ensures Runs(site, w, CommitSteps(n))
    ensures var w' := After(site, w, CommitSteps(n));
            && w' == w.(idx := idx, exec := w'.exec) && Committing(w', built, n) && w'.exec.row == w.exec.row
            && CandidatesOk(w.docs, idx, Current(w).scope, built, n)
            && idx.candidates == w.idx.candidates - Ids(built[..n])
            && Grows(w.docs, w.docs, w.idx, idx)
  {
    hide X.Commit, CandidatesOk, Grows, Ids, Runs, After;
    if n == 0 {
      NoSteps(site, w);
      NoIds();
      idx := w.idx;
      assert built[..0] == [] && w.idx.candidates - {} == w.idx.candidates;
      SameStoresGrow(w.docs, w.idx, w.docs.bytesUsed, w.idx.bytesUsed);
      assert CommitSteps(0) == [];
    } else {
      var before := CommitsRun(site, w, built, n - 1);
      var w1 := After(site, w, CommitSteps(n - 1));
      CommitStep(w.docs, before, Current(w).scope, built, n - 1);
      CommitGrows(w.docs, before, built[n - 1]);
      idx := X.Commit(before, built[n - 1]).0;
      GrowsTransitive(w.docs, w.docs, w.docs, w.idx, before, idx);
      assert built[..n] == built[..n - 1] + [built[n - 1]];
      IdsOneMore(built[..n - 1], built[n - 1]);
      RemoveMore(w.idx.candidates, Ids(built[..n - 1]), built[n - 1].artifactId);
      Alone(site, w1, CommitNext);
      Then(site, w, CommitSteps(n - 1), [CommitNext]);
      assert CommitSteps(n - 1) + [CommitNext] == CommitSteps(n);
    }
  }

  /**
   A rebuild that nothing disturbs: every scope is built, every candidate moved, all pointers published in one
   transaction and the operation ended. It leaves what is stated of the method that succeeds.
   */
  lemma {:induction false} UndisturbedRebuild(site: Site, w: World, shares: seq<Share>, result: string, at: int)
    requires Rebuilding(w, shares)
    requires AfterBuilds(w.docs, w.idx, Current(w).scope, shares, |shares|).Some?
    ensures var steps := BuildSteps(shares, |shares|) + (CommitSteps(|shares|) + [Publish(at), EndOk(result, at)]);
            && Runs(site, w, steps)
            && var w' := After(site, w, steps);
               && w'.exec == Ready && w'.lock == w.lock && w'.docs == w.docs
               && w'.idx.candidates == w.idx.candidates && Grows(w.docs, w.docs, w.idx, w'.idx)
               && (forall i :: 0 <= i < |shares| ==>
                     Backed(w.docs, w'.idx, Current(w).scope[i], shares[i].artifactId))
               && w'.db == J.Succeed(J.ActivateIndexes(w.db, site.environment, Assigned(Current(w).scope, shares), at),
                                     Current(w).id, result, at).0
  {
    hide CandidatesOk, Grows, Backed, Runs, After, J.Pointers, J.Succeed, J.Transition, BuildSteps, CommitSteps;
    hide AfterBuilds, ProperShares;
    var scope, n := Current(w).scope, |shares|;
    var built := BuildsRun(site, w, shares, n);
    var w1 := After(site, w, BuildSteps(shares, n));
    SameArtifactsGrow(w.docs, w.idx, w1.idx);
    var w2, commits := w1, CommitSteps(n);
    if n > 0 {
      var idx := CommitsRun(site, w1, built, n);
      w2 := After(site, w1, commits);
      assert built[..n] == built;
      GrowsTransitive(w.docs, w.docs, w.docs, w.idx, w1.idx, w2.idx);
    } else {
      NoCommits(site, w1, built);
    }
    AllMoved(w.docs, w2.idx, scope, shares, built);
    assert Entries(built) == Assigned(scope, shares);
    var w3 := Apply(site, w2, Publish(at));
    Alone(site, w3, EndOk(result, at));
    Prepend(site, w2, Publish(at), [EndOk(result, at)]);
    assert [Publish(at)] + [EndOk(result, at)] == [Publish(at), EndOk(result, at)];
    Then(site, w1, commits, [Publish(at), EndOk(result, at)]);
    Then(site, w, BuildSteps(shares, n), commits + [Publish(at), EndOk(result, at)]);
    assert w2.idx.candidates == w.idx.candidates;
  }

  lemma NoCommits(site: Site, w: World, built: seq<X.Candidate>)
    requires built == []
    ensures Runs(site, w, CommitSteps(0)) && After(site, w, CommitSteps(0)) == w
    ensures forall docs, idx, scope :: CandidatesOk(docs, idx, scope, built, 0) ==>
              CandidatesOk(docs, idx, scope, built, |built|)
    ensures Ids(built) == {} && forall m: map<string, X.Artifact> :: m - Ids(built) == m
  {
    assert CommitSteps(0) == [];
  }

  function DiscardSteps(n: nat): seq<Step> {
    seq(n, i => DiscardNext)
  }

  lemma {:induction false} DiscardsRun(site: Site, w: World, built: seq<X.Candidate>, n: nat) returns (idx: X.Repo)
    requires Working(w) && w.exec.task == Unwinding(built, 0) && n <= |built|
    ensures Runs(site, w, DiscardSteps(n))
    ensures After(site, w, DiscardSteps(n)) == w.(idx := idx, exec := Busy(w.exec.row, Unwinding(built, n)))
    ensures idx.candidates == w.idx.candidates - Ids(built[..n]) && idx.artifacts == w.idx.artifacts
  {
    hide X.Discard;
    if n == 0 {
      idx := w.idx;
      assert built[..0] == [] && w.idx.candidates - {} == w.idx.candidates;
      assert DiscardSteps(0) == [];
    } else {
      var before := DiscardsRun(site, w, built, n - 1);
      var w1 := After(site, w, DiscardSteps(n - 1));
      var id := built[n - 1].artifactId;
      DiscardFrame(before, id);
      idx := X.Discard(before, id);
      assert built[..n][..n - 1] == built[..n - 1];
      RemoveMore(w.idx.candidates, Ids(built[..n - 1]), id);
      Alone(site, w1, DiscardNext);
      Then(site, w, DiscardSteps(n - 1), [DiscardNext]);
      assert DiscardSteps(n - 1) + [DiscardNext] == DiscardSteps(n);
    }
  }

  /**
   A rebuild whose build of some scope fails: the candidates built so far are discarded and the operation fails; no
   pointer, artifact or candidate of before is touched.
   */
  lemma {:induction false} FailedBuild(site: Site, w: World, shares: seq<Share>, k: nat, error: string, retryable: bool,
                                       at: int)
    requires Rebuilding(w, shares) && k < |shares|
    requires AfterBuilds(w.docs, w.idx, Current(w).scope, shares, k).Some?
    requires AfterBuilds(w.docs, w.idx, Current(w).scope, shares, k + 1).None?
    ensures var steps := BuildSteps(shares, k + 1) + (DiscardSteps(k) + [EndFailed(error, retryable, at)]);
            && Runs(site, w, steps)
            && var w' := After(site, w, steps);
               && w'.exec == Ready && w'.lock == w.lock && w'.docs == w.docs
               && w'.idx.candidates == w.idx.candidates && w'.idx.artifacts == w.idx.artifacts
               && w'.db == J.Fail(w.db, Current(w).id, error, retryable, at).0
  {
    hide X.Build, D.Load, X.IsArtifactId, NewShares, Runs, After, BuildSteps, DiscardSteps, J.Fail, J.Transition;
    hide CandidatesOk;
    var scope, share := Current(w).scope, shares[k];
    var built := BuildsRun(site, w, shares, k);
    var w1 := After(site, w, BuildSteps(shares, k));
    var step := BuildNext(share.artifactId, share.material, share.fault);
    NextFits(w, w1.idx, shares, built);
    var w2 := Apply(site, w1, step);
    FailingBuild(w1, share, built);
    var idx := DiscardsRun(site, w2, built, k);
    assert built[..k] == built;
    var w3 := After(site, w2, DiscardSteps(k));
    Alone(site, w3, EndFailed(error, retryable, at));
    Then(site, w2, DiscardSteps(k), [EndFailed(error, retryable, at)]);
    Alone(site, w1, step);
    Then(site, w, BuildSteps(shares, k), [step]);
    OneMoreBuild(shares, k);
    Then(site, w, BuildSteps(shares, k + 1), DiscardSteps(k) + [EndFailed(error, retryable, at)]);
  }

  lemma OneMoreBuild(shares: seq<Share>, k: nat)
    requires k < |shares|
    ensures BuildSteps(shares, k + 1)
         == BuildSteps(shares, k) + [BuildNext(shares[k].artifactId, shares[k].material, shares[k].fault)]
  {
  }

  lemma FailingBuild(w: World, share: Share, built: seq<X.Candidate>)
    requires BuildPending(w) && w.exec.task == Building(built)
    requires var scope := Current(w).scope[|built|];
             D.Load(w.docs, scope).Err? || scope !in w.docs.final
             || X.Build(w.idx, w.docs.final[scope], share.artifactId, share.material, share.fault).1.Err?
    ensures var w' := AfterBuild(w, share.artifactId, share.material, share.fault);
            && w' == w.(idx := w'.idx, exec := Busy(w.exec.row, Unwinding(built, 0)))
            && w'.idx.candidates == w.idx.candidates && w'.idx.artifacts == w.idx.artifacts
  {
    hide X.Build, D.Load;
    var scope := Current(w).scope[|built|];
    if scope in w.docs.final {
      BuildFrame(w.idx, w.docs.final[scope], share.artifactId, share.material, share.fault);
    }
  }

  /** From wherever it raised, the executor discards what it built and fails the operation. */
  lemma {:induction false} Unwinds(site: Site, w: World, built: seq<X.Candidate>, error: string, retryable: bool,
                                   at: int)
    returns (idx: X.Repo)
    requires Working(w) && (w.exec.task.Building? || w.exec.task.Committing?) && Candidates(w.exec.task) == built
    ensures var steps := [Raise] + (DiscardSteps(|built|) + [EndFailed(error, retryable, at)]);
            && Runs(site, w, steps)
            && After(site, w, steps)
                 == w.(db := J.Fail(w.db, Current(w).id, error, retryable, at).0, idx := idx, exec := Ready)
    ensures idx.candidates == w.idx.candidates - Ids(built) && idx.artifacts == w.idx.artifacts
  {
    hide Runs, After, J.Fail, J.Transition, DiscardSteps;
    var n := |built|;
    var w3 := Apply(site, w, Raise);
    idx := DiscardsRun(site, w3, built, n);
    var w4 := After(site, w3, DiscardSteps(n));
    assert built[..n] == built;
    var end := EndFailed(error, retryable, at);
    Alone(site, w4, end);
    Then(site, w3, DiscardSteps(n), [end]);
    Prepend(site, w, Raise, DiscardSteps(n) + [end]);
  }

  /**
   A rebuild that raises between two moves, or before it publishes: what is still a candidate is discarded and the
   operation fails. No pointer moves; what was moved stays, unnamed, beside the artifacts of before.
   */
  lemma {:induction false} FailedCommit(site: Site, w: World, shares: seq<Share>, n: nat, error: string,
                                        retryable: bool, at: int)
    requires Rebuilding(w, shares) && n <= |shares| && shares != []
    requires AfterBuilds(w.docs, w.idx, Current(w).scope, shares, |shares|).Some?
    ensures var unwind := [Raise] + (DiscardSteps(|shares|) + [EndFailed(error, retryable, at)]);
            var steps := BuildSteps(shares, |shares|) + (CommitSteps(n) + unwind);
            && Runs(site, w, steps)
            && var w' := After(site, w, steps);
               && w'.exec == Ready && w'.lock == w.lock && w'.docs == w.docs
               && w'.idx.candidates == w.idx.candidates && Grows(w.docs, w.docs, w.idx, w'.idx)
               && w'.db == J.Fail(w.db, Current(w).id, error, retryable, at).0
  {
    hide CandidatesOk, Grows, Backed, Runs, After, J.Fail, J.Transition, BuildSteps, CommitSteps, DiscardSteps;
    hide AfterBuilds, ProperShares, Enabled, Apply;
    var k := |shares|;
    var built := BuildsRun(site, w, shares, k);
    var w1 := After(site, w, BuildSteps(shares, k));
    SameArtifactsGrow(w.docs, w.idx, w1.idx);
    var idx2 := CommitsRun(site, w1, built, n);
    var w2 := After(site, w1, CommitSteps(n));
    GrowsTransitive(w.docs, w.docs, w.docs, w.idx, w1.idx, w2.idx);
    var idx3 := Unwinds(site, w2, built, error, retryable, at);
    SomeRemoved(w1.idx.candidates, built, n);
    SameArtifactsGrow(w.docs, w2.idx, idx3);
    GrowsTransitive(w.docs, w.docs, w.docs, w.idx, w2.idx, idx3);
    var unwind := [Raise] + (DiscardSteps(k) + [EndFailed(error, retryable, at)]);
    Then(site, w1, CommitSteps(n), unwind);
    Then(site, w, BuildSteps(shares, k), CommitSteps(n) + unwind);
  }

  lemma {:induction false} IdsOfFirst(built: seq<X.Candidate>, n: nat)
    requires n <= |built|
    ensures Ids(built[..n]) <= Ids(built)
    decreases |built|
  {
    if n < |built| {
      IdsOfFirst(built[..|built| - 1], n);
      assert built[..|built| - 1][..n] == built[..n];
    } else {
      assert built[..n] == built;
    }
  }

  lemma SomeRemoved(m: map<string, X.Artifact>, built: seq<X.Candidate>, n: nat)
    requires n <= |built|
    ensures m - Ids(built[..n]) - Ids(built) == m - Ids(built)
  {
    IdsOfFirst(built, n);
  }

  // ---------------------------------------------------------------- maintenance

  /** Directories are deleted one by one, in any order. */
  lemma {:induction false} StagedGo(site: Site, w: World, gone: set<NotebookScope>) returns (steps: seq<Step>)
    requires w.lock.Pruning?
    ensures Runs(site, w, steps)
    ensures After(site, w, steps) == w.(docs := w.docs.(staging := w.docs.staging - gone))
    decreases gone
  {
    if gone == {} {
      steps := [];
      assert w.docs.staging - {} == w.docs.staging;
    } else {
      var scope :| scope in gone;
      var w1 := Apply(site, w, RemoveStaged(scope));
      var rest := StagedGo(site, w1, gone - {scope});
      Prepend(site, w, RemoveStaged(scope), rest);
      assert w.docs.staging - {scope} - (gone - {scope}) == w.docs.staging - gone;
      steps := [RemoveStaged(scope)] + rest;
    }
  }

  lemma {:induction false} DocumentsGo(site: Site, w: World, gone: set<NotebookScope>) returns (steps: seq<Step>)
    requires w.lock.Pruning? && gone !! w.lock.keep.scopes
    ensures Runs(site, w, steps)
    ensures After(site, w, steps) == w.(docs := w.docs.(final := w.docs.final - gone))
    decreases gone
  {
    if gone == {} {
      steps := [];
      assert w.docs.final - {} == w.docs.final;
    } else {
      var scope :| scope in gone;
      var w1 := Apply(site, w, RemoveDocument(scope));
      var rest := DocumentsGo(site, w1, gone - {scope});
      Prepend(site, w, RemoveDocument(scope), rest);
      assert w.docs.final - {scope} - (gone - {scope}) == w.docs.final - gone;
      steps := [RemoveDocument(scope)] + rest;
    }
  }

  lemma {:induction false} CandidatesGo(site: Site, w: World, gone: set<string>) returns (steps: seq<Step>)
    requires w.lock.Pruning?
    ensures Runs(site, w, steps)
    ensures After(site, w, steps) == w.(idx := w.idx.(candidates := w.idx.candidates - gone))
    decreases gone
  {
    if gone == {} {
      steps := [];
      assert w.idx.candidates - {} == w.idx.candidates;
    } else {
      var id :| id in gone;
      var w1 := Apply(site, w, RemoveCandidate(id));
      var rest := CandidatesGo(site, w1, gone - {id});
      Prepend(site, w, RemoveCandidate(id), rest);
      assert w.idx.candidates - {id} - (gone - {id}) == w.idx.candidates - gone;
      steps := [RemoveCandidate(id)] + rest;
    }
  }

  lemma {:induction false} ArtifactsGo(site: Site, w: World, gone: set<string>) returns (steps: seq<Step>)
    requires w.lock.Pruning? && forall id :: id in gone ==> !(id in w.lock.keep.artifactIds && X.IsArtifactId(id))
    ensures Runs(site, w, steps)
    ensures After(site, w, steps) == w.(idx := w.idx.(artifacts := w.idx.artifacts - gone))
    decreases gone
  {
    hide X.IsArtifactId;
    if gone == {} {
      steps := [];
      assert w.idx.artifacts - {} == w.idx.artifacts;
    } else {
      var id :| id in gone;
      var w1 := Apply(site, w, RemoveArtifact(id));
      var rest := ArtifactsGo(site, w1, gone - {id});
      Prepend(site, w, RemoveArtifact(id), rest);
      assert w.idx.artifacts - {id} - (gone - {id}) == w.idx.artifacts - gone;
      steps := [RemoveArtifact(id)] + rest;
    }
  }

  /** The pruning of the document trees, and their measurement when something went. */
  lemma {:induction false} DocumentsPruned(site: Site, w: World, stale: SV.Stale) returns (steps: seq<Step>)
    requires w.lock.Pruning?
    ensures Runs(site, w, steps)
    ensures After(site, w, steps)
         == w.(docs := D.PruneFinal(D.PruneStaging(w.docs, {}, stale.staging), w.lock.keep.scopes, stale.final))
  {
    hide Runs, After, D.TreeSize;
    var goneFinal := set scope | scope in stale.final && scope !in w.lock.keep.scopes;
    var first := StagedGo(site, w, stale.staging);
    var w1 := After(site, w, first);
    var second := DocumentsGo(site, w1, goneFinal);
    var w2 := After(site, w1, second);
    Then(site, w, first, second);
    steps := first + second;
    var s1 := D.PruneStaging(w.docs, {}, stale.staging);
    assert w1.docs.staging == D.Survivors(w.docs.staging, {}, stale.staging);
    assert w2.docs.final == D.Survivors(w.docs.final, w.lock.keep.scopes, stale.final);
    DL.MeasureIgnoresCounter(w1.docs);
    DL.MeasureIgnoresCounter(w2.docs);
    if w2.docs != w.docs {
      Alone(site, w2, RecountDocuments);
      Then(site, w, steps, [RecountDocuments]);
      steps := steps + [RecountDocuments];
    }
  }

  lemma {:induction false} IndexesPruned(site: Site, w: World, stale: SV.Stale) returns (steps: seq<Step>)
    requires w.lock.Pruning?
    ensures Runs(site, w, steps)
    ensures After(site, w, steps)
         == w.(idx := X.Prune(w.idx, w.lock.keep.artifactIds, stale.candidates, stale.artifacts))
  {
    hide Runs, After, X.RepoSize, X.IsArtifactId;
    var gone := set id | id in stale.artifacts && !(id in w.lock.keep.artifactIds && X.IsArtifactId(id));
    var first := CandidatesGo(site, w, stale.candidates);
    var w1 := After(site, w, first);
    var second := ArtifactsGo(site, w1, gone);
    var w2 := After(site, w1, second);
    Then(site, w, first, second);
    steps := first + second;
    assert w1.idx.candidates == X.Remaining(w.idx.candidates, {}, stale.candidates);
    assert w2.idx.artifacts == X.Remaining(w.idx.artifacts, w.lock.keep.artifactIds, stale.artifacts);
    XL.SizeIgnoresCounter(w2.idx, X.RepoSize(w2.idx));
    if w2.idx != w.idx {
      Alone(site, w2, RecountIndexes);
      Then(site, w, steps, [RecountIndexes]);
      steps := steps + [RecountIndexes];
    }
  }

  /** Maintenance: the snapshot, and while the environment is idle the prunes, as stated of the method. */
  lemma {:induction false} UndisturbedMaintenance(site: Site, w: World, cutoff: int, stale: SV.Stale)
    returns (steps: seq<Step>)
    requires w.lock == Free && w.exec != Down
    ensures Runs(site, w, steps)
    ensures var (db, snapshot) := J.Retain(w.db, site.environment, cutoff);
            After(site, w, steps)
              == if !snapshot.idle then w.(db := db)
                 else w.(db := db,
                         docs := D.PruneFinal(D.PruneStaging(w.docs, {}, stale.staging), snapshot.scopes, stale.final),
                         idx := X.Prune(w.idx, snapshot.artifactIds, stale.candidates, stale.artifacts))
  {
    hide Runs, After, J.Retain, D.PruneFinal, D.PruneStaging, X.Prune;
    var (db, snapshot) := J.Retain(w.db, site.environment, cutoff);
    var w1 := Apply(site, w, TakeSnapshot(cutoff));
    if !snapshot.idle {
      Alone(site, w, TakeSnapshot(cutoff));
      return [TakeSnapshot(cutoff)];
    }
    var first := DocumentsPruned(site, w1, stale);
    var w2 := After(site, w1, first);
    var second := IndexesPruned(site, w2, stale);
    var w3 := After(site, w2, second);
    Alone(site, w3, ReleaseMaintenance);
    Then(site, w2, second, [ReleaseMaintenance]);
    Then(site, w1, first, second + [ReleaseMaintenance]);
    Prepend(site, w, TakeSnapshot(cutoff), first + (second + [ReleaseMaintenance]));
    steps := [TakeSnapshot(cutoff)] + (first + (second + [ReleaseMaintenance]));
  }
}
