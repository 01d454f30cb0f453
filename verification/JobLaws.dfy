/** What every transaction keeps, and what whole runs of transactions promise to a submitter. */
module JobLaws {
  import opened Wrappers
  import opened Types
  import opened Fingerprints
  import opened Jobs

  // ---------------------------------------------------------------- invariants

  /** A live operation is keyed by its request; a terminal one has vacated that key. */
  ghost predicate ProperRow(o: Operation) {
    && o.dedupeKey == (if Live(o) then RequestKey(o) else RequestKey(o) + TERMINAL_MARK + o.id)
    && 0.0 <= o.progress <= 1.0
  }

  ghost predicate ProperRows(ops: map<nat, Operation>) {
    forall r :: r in ops ==> ProperRow(ops[r])
  }

  ghost predicate DistinctIds(ops: map<nat, Operation>) {
    forall r, q :: r in ops && q in ops && ops[r].id == ops[q].id ==> r == q
  }

  predicate SameRequest(o: Operation, p: Operation) {
    o.environment == p.environment && o.operation == p.operation && o.scope == p.scope && o.payload == p.payload
  }

  /** The operation carries out exactly this request. */
  predicate Requested(o: Operation, req: SubmitRequest) {
    o.environment == req.environment && o.operation == req.operation && o.scope == req.scope && o.payload == req.payload
  }

  ghost predicate OneLivePerRequest(ops: map<nat, Operation>) {
    forall r, q :: r in ops && q in ops && Live(ops[r]) && Live(ops[q]) && SameRequest(ops[r], ops[q]) ==> r == q
  }

  ghost predicate SingleRunner(ops: map<nat, Operation>) {
    forall r, q :: (r in ops && q in ops && ops[r].state == Running && ops[q].state == Running
                    && ops[r].environment == ops[q].environment) ==> r == q
  }

  ghost predicate UnderCap(ops: map<nat, Operation>, cap: nat) {
    forall environment :: |ActiveRows(ops, environment)| <= cap
  }

  /** Rowids follow arrival, although purged rowids are reused. */
  ghost predicate Arranged(ops: map<nat, Operation>, arrivals: nat) {
    && (forall r, q :: r in ops && q in ops && r < q ==> ops[r].arrival < ops[q].arrival)
    && (forall r :: r in ops ==> ops[r].arrival < arrivals)
  }

  ghost predicate OpsIssued(ops: map<nat, Operation>, issued: set<string>) {
    forall r :: r in ops ==> ops[r].id in issued
  }

  ghost predicate OpsOk(ops: map<nat, Operation>, cap: nat, arrivals: nat, issued: set<string>) {
    && ProperRows(ops) && DistinctIds(ops) && OneLivePerRequest(ops) && UnderCap(ops, cap)
    && Arranged(ops, arrivals) && OpsIssued(ops, issued)
  }

  predicate Serves(o: Operation, s: Submission) {
    s.operationId == o.id && s.environment == o.environment && s.fingerprint == RequestKey(o)
  }

  ghost predicate Served(ops: map<nat, Operation>, s: Submission) {
    exists r :: r in ops && Serves(ops[r], s)
  }

  ghost predicate Held(subs: map<nat, Submission>, o: Operation) {
    exists s :: s in subs && Serves(o, subs[s])
  }

  ghost predicate AllServed(ops: map<nat, Operation>, subs: map<nat, Submission>) {
    forall s :: s in subs ==> Served(ops, subs[s])
  }

  ghost predicate AllHeld(ops: map<nat, Operation>, subs: map<nat, Submission>) {
    forall r :: r in ops ==> Held(subs, ops[r])
  }

  predicate SameKey(s: Submission, t: Submission) {
    s.environment == t.environment && s.actor == t.actor && s.idempotencyKey == t.idempotencyKey
  }

  ghost predicate SubsOk(subs: map<nat, Submission>, issued: set<string>) {
    && (forall r, q :: r in subs && q in subs && subs[r].id == subs[q].id ==> r == q)
    && (forall r, q :: r in subs && q in subs && SameKey(subs[r], subs[q]) ==> r == q)
    && (forall r :: r in subs ==> subs[r].id in issued)
  }

  /** Every submission has its operation, and every operation a submission. */
  ghost predicate DbOk(db: Db, cap: nat) {
    && OpsOk(db.ops, cap, db.arrivals, db.issued) && SingleRunner(db.ops)
    && AllServed(db.ops, db.subs) && AllHeld(db.ops, db.subs) && SubsOk(db.subs, db.issued)
  }

  /** The table constraint UNIQUE(environment, operation_type, dedupe_key). */
  predicate KeysClash(o: Operation, p: Operation) {
    o.environment == p.environment && o.operation == p.operation && o.dedupeKey == p.dedupeKey
  }

  ghost predicate UniqueKeys(ops: map<nat, Operation>) {
    forall r, q :: r in ops && q in ops && KeysClash(ops[r], ops[q]) ==> r == q
  }

  lemma MarkPosition(a: string, x: string)
    ensures (a + TERMINAL_MARK + x)[|a|] == ':'
  {
  }

  lemma NeverMarked(a: string, b: string, x: string)
    requires NoColon(a)
    ensures a != b + TERMINAL_MARK + x
  {
    var t := b + TERMINAL_MARK + x;
    assert t[|b|] == ':';
  }

  lemma PrefixAt(b: string, z: string, i: nat)
    requires NoColon(b) && i < |b + z| && (b + z)[i] == ':'
    ensures |b| <= i
  {
  }

  lemma NotShorter(a: string, b: string, x: string, y: string)
    requires NoColon(b) && a + TERMINAL_MARK + x == b + TERMINAL_MARK + y
    ensures |b| <= |a|
  {
    MarkPosition(a, x);
    PrefixAt(b, TERMINAL_MARK + y, |a|);
    assert b + (TERMINAL_MARK + y) == b + TERMINAL_MARK + y;
  }

  lemma {:induction false} SplitAtMark(a: string, b: string, x: string, y: string)
    requires NoColon(a) && NoColon(b)
    requires a + TERMINAL_MARK + x == b + TERMINAL_MARK + y
    ensures a == b && x == y
  {
    NotShorter(a, b, x, y);
    NotShorter(b, a, y, x);
    var s, t := a + TERMINAL_MARK + x, b + TERMINAL_MARK + y;
    assert a == s[..|a|] && b == t[..|b|];
    assert x == s[|a| + |TERMINAL_MARK|..] && y == t[|b| + |TERMINAL_MARK|..];
  }

  /** Within one operation type a fingerprint determines scope and payload. */
  lemma SameFingerprint(operation: JobOperation, scope: seq<NotebookScope>, payload: string,
                        operation': JobOperation, scope': seq<NotebookScope>, payload': string)
    ensures Fingerprint(OperationName(operation), scope, payload)
              == Fingerprint(OperationName(operation'), scope', payload')
       <==> operation == operation' && scope == scope' && payload == payload'
  {
    hide Fingerprint;
    var name, name' := OperationName(operation), OperationName(operation');
    if Fingerprint(name, scope, payload) == Fingerprint(name', scope', payload') {
      FingerprintInjective(name, scope, payload, name', scope', payload');
    }
  }

  lemma ClashMeansSame(o: Operation, p: Operation)
    requires ProperRow(o) && ProperRow(p) && KeysClash(o, p)
    ensures if Live(o) then Live(p) && SameRequest(o, p) else o.id == p.id
  {
    hide Fingerprint;
    NoColonInside(OperationName(o.operation), o.scope, o.payload);
    NoColonInside(OperationName(p.operation), p.scope, p.payload);
    if Live(o) {
      assert Live(p) by { if !Live(p) { NeverMarked(RequestKey(o), RequestKey(p), p.id); } }
      SameFingerprint(o.operation, o.scope, o.payload, p.operation, p.scope, p.payload);
    } else {
      assert !Live(p) by { if Live(p) { NeverMarked(RequestKey(p), RequestKey(o), o.id); } }
      SplitAtMark(RequestKey(o), RequestKey(p), o.id, p.id);
    }
  }

  /** The ':terminal:' rewrite never collides: no statement that keeps the invariants can violate the constraint. */
  lemma {:induction false} KeysNeverCollide(db: Db, cap: nat)
    requires DbOk(db, cap)
    ensures UniqueKeys(db.ops)
  {
    hide ProperRow, SameRequest, KeysClash;
    var ops := db.ops;
    forall r, q | r in ops && q in ops && KeysClash(ops[r], ops[q]) ensures r == q {
      assert ProperRow(ops[r]) && ProperRow(ops[q]);
      ClashMeansSame(ops[r], ops[q]);
    }
  }

  // ---------------------------------------------------------------- steps that only move or drop rows

  /** An operation keeps its identity; it never leaves a terminal state nor changes in one. */
  ghost predicate Evolves(o: Operation, o': Operation) {
    && o'.id == o.id && o'.environment == o.environment && o'.operation == o.operation
    && o'.arrival == o.arrival && o'.scope == o.scope && o'.payload == o.payload
    && (!Live(o) ==> o' == o)
    && (ProperRow(o) ==> ProperRow(o'))
  }

  ghost predicate Advances(ops: map<nat, Operation>, ops': map<nat, Operation>) {
    ops'.Keys <= ops.Keys && forall r :: r in ops' ==> Evolves(ops[r], ops'[r])
  }

  lemma EvolvesFacts(o: Operation, o': Operation)
    requires Evolves(o, o')
    ensures o'.id == o.id && o'.environment == o.environment && o'.arrival == o.arrival
    ensures (Live(o') ==> Live(o)) && (ProperRow(o) ==> ProperRow(o'))
  {
  }

  lemma SameRequestEvolves(o: Operation, o': Operation, p: Operation, p': Operation)
    requires Evolves(o, o') && Evolves(p, p')
    ensures SameRequest(o', p') <==> SameRequest(o, p)
  {
  }

  lemma ServesEvolves(o: Operation, o': Operation, s: Submission)
    requires Evolves(o, o')
    ensures Serves(o', s) <==> Serves(o, s)
  {
  }

  lemma SubsetSize(part: set<nat>, whole: set<nat>)
    requires part <= whole
    ensures |whole| == |part| + |whole - part|
  {
    assert whole == part + (whole - part);
  }

  lemma {:induction false} AdvanceKeepsOps(ops: map<nat, Operation>, ops': map<nat, Operation>,
                                           cap: nat, arrivals: nat, issued: set<string>)
    requires Advances(ops, ops') && OpsOk(ops, cap, arrivals, issued)
    ensures OpsOk(ops', cap, arrivals, issued)
  {
    hide Evolves, ProperRow, SameRequest;
    forall r | r in ops' ensures ops'[r].id == ops[r].id && ops'[r].environment == ops[r].environment
                                 && ops'[r].arrival == ops[r].arrival && (Live(ops'[r]) ==> Live(ops[r]))
                                 && ProperRow(ops'[r]) {
      EvolvesFacts(ops[r], ops'[r]);
      assert ProperRow(ops[r]);
    }
    forall r, q | r in ops' && q in ops' && SameRequest(ops'[r], ops'[q]) ensures SameRequest(ops[r], ops[q]) {
      SameRequestEvolves(ops[r], ops'[r], ops[q], ops'[q]);
    }
    forall environment ensures |ActiveRows(ops', environment)| <= cap {
      SubsetSize(ActiveRows(ops', environment), ActiveRows(ops, environment));
    }
  }

  lemma {:induction false} AdvanceKeepsServed(ops: map<nat, Operation>, ops': map<nat, Operation>,
                                              subs: map<nat, Submission>)
    requires Advances(ops, ops') && ops'.Keys == ops.Keys && AllServed(ops, subs)
    ensures AllServed(ops', subs)
  {
    hide Evolves, Serves;
    forall s | s in subs ensures Served(ops', subs[s]) {
      var r :| r in ops && Serves(ops[r], subs[s]);
      ServesEvolves(ops[r], ops'[r], subs[s]);
    }
  }

  lemma {:induction false} AdvanceKeepsHeld(ops: map<nat, Operation>, ops': map<nat, Operation>,
                                            subs: map<nat, Submission>)
    requires Advances(ops, ops') && AllHeld(ops, subs)
    ensures AllHeld(ops', subs)
  {
    hide Evolves, Serves;
    forall r | r in ops' ensures Held(subs, ops'[r]) {
      var s :| s in subs && Serves(ops[r], subs[s]);
      ServesEvolves(ops[r], ops'[r], subs[s]);
    }
  }

  /** A step that only moves rows along keeps everything but, perhaps, the single runner. */
  lemma {:induction false} AdvanceOk(db: Db, db': Db, cap: nat)
    requires DbOk(db, cap) && Advances(db.ops, db'.ops) && db'.ops.Keys == db.ops.Keys && SingleRunner(db'.ops)
    requires db' == db.(ops := db'.ops)
    ensures DbOk(db', cap)
  {
    hide Evolves, OpsOk, AllServed, AllHeld, SubsOk, SingleRunner;
    AdvanceKeepsOps(db.ops, db'.ops, cap, db.arrivals, db.issued);
    AdvanceKeepsServed(db.ops, db'.ops, db.subs);
    AdvanceKeepsHeld(db.ops, db'.ops, db.subs);
  }

  // ---------------------------------------------------------------- one transaction each

  lemma MovingEvolves(o: Operation, state: JobState, progress: Option<real>, result: Option<string>,
                      error: Option<string>,
                      retryable: bool, now: int)
    requires Live(o) && (Terminal(state) || state == Running) && (progress.Some? ==> 0.0 <= progress.value <= 1.0)
    ensures Evolves(o, Moving(o, state, progress, result, error, retryable, now))
  {
    hide Fingerprint;
  }

  lemma EvolvesReflexive(o: Operation)
    ensures Evolves(o, o)
  {
  }

  lemma {:induction false} TransitionAdvances(db: Db, id: string, allowedFrom: set<JobState>, state: JobState,
                                              progress: Option<real>,
                                              result: Option<string>, error: Option<string>, retryable: bool, now: int)
    requires allowedFrom <= {Queued, Running} && (Terminal(state) || state == Running)
    requires state == Running ==> allowedFrom == {Running}
    ensures var db' := Transition(db, id, allowedFrom, state, progress, result, error, retryable, now).0;
            && Advances(db.ops, db'.ops) && db'.ops.Keys == db.ops.Keys && db' == db.(ops := db'.ops)
            && forall r :: r in db'.ops ==>
                 && (db'.ops[r].state == Running ==> db.ops[r].state == Running)
                 && (db'.ops[r].state == Queued ==> db.ops[r].state == Queued)
  {
    hide Evolves, Moving, ProperRow;
    var db' := Transition(db, id, allowedFrom, state, progress, result, error, retryable, now).0;
    var row := First(RowsWithId(db.ops, id));
    forall r | r in db'.ops
      ensures Evolves(db.ops[r], db'.ops[r])
      ensures db'.ops[r].state == Running ==> db.ops[r].state == Running
      ensures db'.ops[r].state == Queued ==> db.ops[r].state == Queued
    {
      if row.Some? && r == row.value && db'.ops != db.ops {
        MovingEvolves(db.ops[r], state, progress, result, error, retryable, now);
        MovingState(db.ops[r], state, progress, result, error, retryable, now);
      } else {
        EvolvesReflexive(db.ops[r]);
      }
    }
  }

  lemma MovingState(o: Operation, state: JobState, progress: Option<real>, result: Option<string>,
                    error: Option<string>,
                    retryable: bool, now: int)
    ensures Moving(o, state, progress, result, error, retryable, now).state == state
  {
  }

  lemma RunnersDoNotAppear(ops: map<nat, Operation>, ops': map<nat, Operation>)
    requires Advances(ops, ops') && SingleRunner(ops)
    requires forall r :: r in ops' && ops'[r].state == Running ==> ops[r].state == Running
    ensures SingleRunner(ops')
  {
    hide Evolves;
    forall r | r in ops' ensures ops'[r].environment == ops[r].environment {
      EvolvesFacts(ops[r], ops'[r]);
    }
  }

  lemma {:induction false} TransitionOk(db: Db, cap: nat, id: string, allowedFrom: set<JobState>, state: JobState,
                                        progress: Option<real>,
                                        result: Option<string>, error: Option<string>, retryable: bool, now: int)
    requires DbOk(db, cap)
    requires allowedFrom <= {Queued, Running} && (Terminal(state) || state == Running)
    requires state == Running ==> allowedFrom == {Running}
    ensures DbOk(Transition(db, id, allowedFrom, state, progress, result, error, retryable, now).0, cap)
  {
    hide Transition, Advances, OpsOk, AllServed, AllHeld, SubsOk, SingleRunner;
    TransitionAdvances(db, id, allowedFrom, state, progress, result, error, retryable, now);
    var db' := Transition(db, id, allowedFrom, state, progress, result, error, retryable, now).0;
    RunnersDoNotAppear(db.ops, db'.ops);
    AdvanceOk(db, db', cap);
  }

  lemma {:induction false} ClaimAdvances(db: Db, environment: string, now: int)
    requires SingleRunner(db.ops)
    ensures var db' := Claim(db, environment, now).0;
            Advances(db.ops, db'.ops) && db'.ops.Keys == db.ops.Keys && SingleRunner(db'.ops)
            && db' == db.(ops := db'.ops)
  {
    hide Evolves, ProperRow, HandleRows;
    var (db', c) := Claim(db, environment, now);
    forall r | r in db'.ops ensures Evolves(db.ops[r], db'.ops[r]) {
      if c.Claimed? && r == c.row {
        ClaimingEvolves(db.ops[r], now);
      } else {
        EvolvesReflexive(db.ops[r]);
      }
    }
    if c.Claimed? {
      forall r | r in db.ops && db.ops[r].environment == environment ensures db.ops[r].state != Running {
        assert r !in RowsIn(db.ops, environment, Running);
      }
    }
  }

  lemma ClaimingEvolves(o: Operation, now: int)
    requires o.state == Queued
    ensures Evolves(o, o.(state := Running, progress := 0.0, updatedAt := now))
  {
    hide Fingerprint;
  }

  lemma {:induction false} ClaimOk(db: Db, cap: nat, environment: string, now: int)
    requires DbOk(db, cap)
    ensures DbOk(Claim(db, environment, now).0, cap)
  {
    hide Claim, Advances, OpsOk, AllServed, AllHeld, SubsOk, SingleRunner;
    ClaimAdvances(db, environment, now);
    AdvanceOk(db, Claim(db, environment, now).0, cap);
  }

  lemma HandleExists(db: Db, row: nat)
    requires row in db.ops && AllHeld(db.ops, db.subs)
    ensures HandleRows(db.subs, db.ops[row].id) != {}
  {
    assert Held(db.subs, db.ops[row]);
    var s :| s in db.subs && Serves(db.ops[row], db.subs[s]);
    assert s in HandleRows(db.subs, db.ops[row].id);
  }

  lemma RecoveredEvolves(o: Operation, now: int)
    ensures Evolves(o, RecoveredRow(o, now)) && RecoveredRow(o, now).state != Running
  {
    hide Fingerprint;
  }

  lemma {:induction false} RecoverOk(db: Db, cap: nat, now: int)
    requires DbOk(db, cap)
    ensures DbOk(Recover(db, now), cap)
  {
    hide Evolves, RecoveredRow, OpsOk, AllServed, AllHeld, SubsOk;
    var db' := Recover(db, now);
    forall r | r in db'.ops ensures Evolves(db.ops[r], db'.ops[r]) && db'.ops[r].state != Running {
      RecoveredEvolves(db.ops[r], now);
    }
    AdvanceOk(db, db', cap);
  }

  /** A purge takes exactly the expired operations, each together with all its handles. */
  lemma PurgeKeeps(db: Db, environment: string, cutoff: int)
    requires DistinctIds(db.ops)
    ensures var db' := Purge(db, environment, cutoff);
            && (forall r :: r in db'.ops ==> r in db.ops && db'.ops[r] == db.ops[r])
            && (forall r :: r in db.ops ==> (r in db'.ops <==> !Expired(db.ops[r], environment, cutoff)))
            && (forall s :: s in db'.subs ==> s in db.subs && db'.subs[s] == db.subs[s])
            && (forall r, s :: r in db.ops && s in db.subs && db.subs[s].operationId == db.ops[r].id ==>
                  (r in db'.ops <==> s in db'.subs))
  {
    hide Expired;
  }

  lemma {:induction false} PurgeKeepsServed(db: Db, environment: string, cutoff: int)
    requires AllServed(db.ops, db.subs) && DistinctIds(db.ops)
    ensures AllServed(Purge(db, environment, cutoff).ops, Purge(db, environment, cutoff).subs)
  {
    hide Purge, DistinctIds;
    var db' := Purge(db, environment, cutoff);
    PurgeKeeps(db, environment, cutoff);
    forall s | s in db'.subs ensures Served(db'.ops, db'.subs[s]) {
      var r :| r in db.ops && Serves(db.ops[r], db.subs[s]);
    }
  }

  lemma {:induction false} PurgeKeepsHeld(db: Db, environment: string, cutoff: int)
    requires AllHeld(db.ops, db.subs) && DistinctIds(db.ops)
    ensures AllHeld(Purge(db, environment, cutoff).ops, Purge(db, environment, cutoff).subs)
  {
    hide Purge, DistinctIds;
    var db' := Purge(db, environment, cutoff);
    PurgeKeeps(db, environment, cutoff);
    forall r | r in db'.ops ensures Held(db'.subs, db'.ops[r]) {
      var s :| s in db.subs && Serves(db.ops[r], db.subs[s]);
    }
  }

  lemma {:induction false} PurgeAdvances(db: Db, environment: string, cutoff: int)
    requires DistinctIds(db.ops) && SingleRunner(db.ops)
    ensures var db' := Purge(db, environment, cutoff);
            Advances(db.ops, db'.ops) && SingleRunner(db'.ops)
  {
    hide Purge, Evolves, DistinctIds;
    var db' := Purge(db, environment, cutoff);
    PurgeKeeps(db, environment, cutoff);
    forall r | r in db'.ops ensures Evolves(db.ops[r], db'.ops[r]) {
      EvolvesReflexive(db.ops[r]);
    }
  }

  lemma {:induction false} PurgeOk(db: Db, cap: nat, environment: string, cutoff: int)
    requires DbOk(db, cap)
    ensures DbOk(Purge(db, environment, cutoff), cap)
  {
    hide Purge, Advances, ProperRows, DistinctIds, OneLivePerRequest, UnderCap, Arranged, OpsIssued;
    hide AllServed, AllHeld, SubsOk, SingleRunner;
    PurgeAdvances(db, environment, cutoff);
    PurgeKeepsServed(db, environment, cutoff);
    PurgeKeepsHeld(db, environment, cutoff);
    PurgeKeepsSubs(db, environment, cutoff);
    AdvanceKeepsOps(db.ops, Purge(db, environment, cutoff).ops, cap, db.arrivals, db.issued);
  }

  lemma PurgeKeepsSubs(db: Db, environment: string, cutoff: int)
    requires SubsOk(db.subs, db.issued)
    ensures SubsOk(Purge(db, environment, cutoff).subs, db.issued)
    ensures Purge(db, environment, cutoff).issued == db.issued && Purge(db, environment, cutoff).arrivals == db.arrivals
  {
    hide SameKey;
  }

  lemma MarkIsThere(a: string, x: string)
    ensures Contains(a + TERMINAL_MARK + x, TERMINAL_MARK + x)
  {
    var s, t := a + TERMINAL_MARK + x, TERMINAL_MARK + x;
    assert OccursAt(s, t, |a|);
  }

  /** Every terminal key carries its mark already, so opening the store again rewrites none a second time. */
  lemma {:induction false} ReopenChangesNothing(db: Db, cap: nat)
    requires DbOk(db, cap)
    ensures Reopen(db) == db
  {
    hide Contains, AllServed, AllHeld, SubsOk, SingleRunner, Fingerprint;
    forall r | r in db.ops && Terminal(db.ops[r].state)
      ensures Contains(db.ops[r].dedupeKey, TERMINAL_MARK + db.ops[r].id)
    {
      assert ProperRow(db.ops[r]);
      MarkIsThere(RequestKey(db.ops[r]), db.ops[r].id);
    }
    assert Reopen(db).ops == db.ops;
  }

  lemma EmptyIsOk(cap: nat)
    ensures DbOk(Db(map[], map[], map[], {}, 0), cap)
  {
    var ops: map<nat, Operation> := map[];
    assert forall environment :: ActiveRows(ops, environment) == {};
  }

  // ---------------------------------------------------------------- submission

  ghost predicate FreshHandles(db: Db, opId: string, subId: string) {
    opId !in db.issued && subId !in db.issued && opId != subId
  }

  lemma {:induction false} InsertKeepsCap(ops: map<nat, Operation>, n: nat, o: Operation, cap: nat)
    requires n !in ops && UnderCap(ops, cap) && |ActiveRows(ops, o.environment)| < cap
    ensures UnderCap(ops[n := o], cap)
  {
    var ops' := ops[n := o];
    forall environment ensures |ActiveRows(ops', environment)| <= cap {
      if environment == o.environment {
        SubsetSize(ActiveRows(ops', environment), ActiveRows(ops, environment) + {n});
      } else {
        SubsetSize(ActiveRows(ops', environment), ActiveRows(ops, environment));
      }
    }
  }

  lemma InsertKeepsIds(ops: map<nat, Operation>, n: nat, o: Operation, issued: set<string>)
    requires n !in ops && DistinctIds(ops) && OpsIssued(ops, issued) && o.id !in issued
    ensures DistinctIds(ops[n := o]) && OpsIssued(ops[n := o], issued + {o.id})
  {
  }

  lemma InsertKeepsOneLive(ops: map<nat, Operation>, n: nat, o: Operation)
    requires n !in ops && OneLivePerRequest(ops)
    requires forall r :: r in ops && Live(ops[r]) ==> !SameRequest(ops[r], o) && !SameRequest(o, ops[r])
    ensures OneLivePerRequest(ops[n := o])
  {
    hide SameRequest;
  }

  lemma {:induction false} InsertKeepsOps(ops: map<nat, Operation>, n: nat, o: Operation, cap: nat, arrivals: nat,
                                          issued: set<string>)
    requires OpsOk(ops, cap, arrivals, issued)
    requires (forall r :: r in ops ==> r < n) && o.id !in issued && o.arrival == arrivals && ProperRow(o)
    requires |ActiveRows(ops, o.environment)| < cap
    requires forall r :: r in ops && Live(ops[r]) ==> !SameRequest(ops[r], o) && !SameRequest(o, ops[r])
    ensures OpsOk(ops[n := o], cap, arrivals + 1, issued + {o.id})
  {
    hide ProperRow, SameRequest, UnderCap, DistinctIds, OpsIssued, OneLivePerRequest;
    InsertKeepsCap(ops, n, o, cap);
    InsertKeepsIds(ops, n, o, issued);
    InsertKeepsOneLive(ops, n, o);
  }

  lemma NoLiveTwin(db: Db, cap: nat, req: SubmitRequest, o: Operation, row: nat)
    requires OpsOk(db.ops, cap, db.arrivals, db.issued) && row in db.ops && Live(db.ops[row])
    requires KeyRows(db, req.environment, req.operation, RequestFingerprint(req)) == {}
    requires Requested(o, req)
    ensures !SameRequest(db.ops[row], o) && !SameRequest(o, db.ops[row])
  {
    hide Fingerprint;
    assert ProperRow(db.ops[row]);
    assert row !in KeyRows(db, req.environment, req.operation, RequestFingerprint(req));
  }

  lemma NewOperationFacts(db: Db, req: SubmitRequest, now: int, opId: string)
    ensures var o := NewOperation(db, req, now, opId);
            ProperRow(o) && Requested(o, req) && o.id == opId && o.state == Queued && o.arrival == db.arrivals
  {
    hide Fingerprint;
  }

  lemma {:induction false} AddOperationOk(db: Db, req: SubmitRequest, cap: nat, now: int, opId: string)
    requires OpsOk(db.ops, cap, db.arrivals, db.issued) && SingleRunner(db.ops)
    requires opId !in db.issued
    requires KeyRows(db, req.environment, req.operation, RequestFingerprint(req)) == {}
    requires |ActiveRows(db.ops, req.environment)| < cap
    ensures var db' := AddOperation(db, req, now, opId);
            OpsOk(db'.ops, cap, db'.arrivals, db'.issued) && SingleRunner(db'.ops)
  {
    hide OpsOk, KeyRows, SameRequest, ProperRow, RequestFingerprint, ActiveRows, NewOperation;
    var o, n := NewOperation(db, req, now, opId), NextRowid(db.ops.Keys);
    NewOperationFacts(db, req, now, opId);
    forall r | r in db.ops && Live(db.ops[r]) ensures !SameRequest(db.ops[r], o) && !SameRequest(o, db.ops[r]) {
      NoLiveTwin(db, cap, req, o, r);
    }
    InsertKeepsOps(db.ops, n, o, cap, db.arrivals, db.issued);
  }

  lemma InsertKeepsServed(ops: map<nat, Operation>, subs: map<nat, Submission>, n: nat, o: Operation)
    requires n !in ops && AllServed(ops, subs)
    ensures AllServed(ops[n := o], subs)
  {
    hide Serves;
    forall s | s in subs ensures Served(ops[n := o], subs[s]) {
      var r :| r in ops && Serves(ops[r], subs[s]);
      assert ops[n := o][r] == ops[r];
    }
  }

  lemma InsertKeepsHeld(ops: map<nat, Operation>, subs: map<nat, Submission>, n: nat, s: Submission)
    requires n !in subs && forall r :: r in ops ==> Serves(ops[r], s) || Held(subs, ops[r])
    ensures AllHeld(ops, subs[n := s])
  {
    hide Serves;
    forall r | r in ops ensures Held(subs[n := s], ops[r]) {
      if Serves(ops[r], s) {
        assert subs[n := s][n] == s;
      } else {
        var q :| q in subs && Serves(ops[r], subs[q]);
        assert subs[n := s][q] == subs[q];
      }
    }
  }

  lemma NoEarlierKey(db: Db, req: SubmitRequest, s: Submission, q: nat)
    requires q in db.subs && SubmissionRows(db, req.environment, req.actor, req.idempotencyKey) == {}
    requires s.environment == req.environment && s.actor == req.actor && s.idempotencyKey == req.idempotencyKey
    ensures !SameKey(s, db.subs[q]) && !SameKey(db.subs[q], s)
  {
    assert q !in SubmissionRows(db, req.environment, req.actor, req.idempotencyKey);
  }

  /** Adding the submission of an operation that is there, under a key that is not. */
  lemma {:induction false} AddSubmissionOk(db: Db, req: SubmitRequest, cap: nat, now: int, subId: string, row: nat)
    requires OpsOk(db.ops, cap, db.arrivals, db.issued) && SingleRunner(db.ops) && SubsOk(db.subs, db.issued)
    requires row in db.ops && subId !in db.issued
    requires Requested(db.ops[row], req)
    requires SubmissionRows(db, req.environment, req.actor, req.idempotencyKey) == {}
    requires AllServed(db.ops, db.subs)
    requires forall r :: r in db.ops && r != row ==> Held(db.subs, db.ops[r])
    ensures DbOk(AddSubmission(db, req, now, subId, db.ops[row].id), cap)
  {
    hide SingleRunner, SameKey, Held, OpsOk, Fingerprint;
    var s, n := NewSubmission(req, now, subId, db.ops[row].id), NextRowid(db.subs.Keys);
    assert Serves(db.ops[row], s);
    forall q | q in db.subs ensures !SameKey(s, db.subs[q]) && !SameKey(db.subs[q], s) {
      NoEarlierKey(db, req, s, q);
    }
    hide SubmissionRows, Serves;
    InsertKeepsHeld(db.ops, db.subs, n, s);
    assert Served(db.ops, s);
    MoreIssued(db.ops, cap, db.arrivals, db.issued, subId);
    hide Served;
    assert SubsOk(db.subs[n := s], db.issued + {subId});
    assert AllServed(db.ops, db.subs[n := s]);
  }

  lemma MoreIssued(ops: map<nat, Operation>, cap: nat, arrivals: nat, issued: set<string>, id: string)
    requires OpsOk(ops, cap, arrivals, issued)
    ensures OpsOk(ops, cap, arrivals, issued + {id})
  {
    hide ProperRows, DistinctIds, OneLivePerRequest, UnderCap, Arranged;
  }

  lemma ExistingIsLive(db: Db, req: SubmitRequest, row: nat)
    requires ProperRows(db.ops)
    requires row in KeyRows(db, req.environment, req.operation, RequestFingerprint(req))
    ensures Live(db.ops[row]) && Requested(db.ops[row], req)
  {
    hide Fingerprint;
    var o := db.ops[row];
    assert ProperRow(o);
    NoColonInside(OperationName(req.operation), req.scope, req.payload);
    if !Live(o) {
      NeverMarked(RequestFingerprint(req), RequestKey(o), o.id);
    }
    SameFingerprint(o.operation, o.scope, o.payload, req.operation, req.scope, req.payload);
  }

  lemma {:induction false} SubmitOk(db: Db, cap: nat, req: SubmitRequest, now: int, opId: string, subId: string)
    requires DbOk(db, cap) && FreshHandles(db, opId, subId)
    ensures DbOk(Submit(db, req, cap, now, opId, subId).0, cap)
  {
    hide SingleRunner, AllServed, SubsOk, Requested, Fingerprint, AddSubmission, ActiveRows, KeyRows, SubmissionRows;
    hide Held, ProperRows;
    if SubmissionRows(db, req.environment, req.actor, req.idempotencyKey) == {} {
      var existing := First(KeyRows(db, req.environment, req.operation, RequestFingerprint(req)));
      if existing.Some? {
        KeyRowsAreRows(db, req.environment, req.operation, RequestFingerprint(req));
        ExistingIsLive(db, req, existing.value);
        AddSubmissionOk(db, req, cap, now, subId, existing.value);
      } else if |ActiveRows(db.ops, req.environment)| < cap {
        EnqueueOk(db, cap, req, now, opId, subId);
      }
    }
  }

  lemma KeyRowsAreRows(db: Db, environment: string, operation: JobOperation, key: string)
    ensures KeyRows(db, environment, operation, key) <= db.ops.Keys
  {
  }

  lemma {:induction false} EnqueueOk(db: Db, cap: nat, req: SubmitRequest, now: int, opId: string, subId: string)
    requires DbOk(db, cap) && FreshHandles(db, opId, subId)
    requires SubmissionRows(db, req.environment, req.actor, req.idempotencyKey) == {}
    requires KeyRows(db, req.environment, req.operation, RequestFingerprint(req)) == {}
    requires |ActiveRows(db.ops, req.environment)| < cap
    ensures DbOk(AddSubmission(AddOperation(db, req, now, opId), req, now, subId, opId), cap)
  {
    hide Fingerprint, OpsOk, SingleRunner, Held, Served, KeyRows, ActiveRows, SameKey;
    var db', n := AddOperation(db, req, now, opId), NextRowid(db.ops.Keys);
    AddOperationOk(db, req, cap, now, opId);
    InsertKeepsServed(db.ops, db.subs, n, db'.ops[n]);
    assert SubmissionRows(db', req.environment, req.actor, req.idempotencyKey) == {};
    assert forall r :: r in db'.ops && r != n ==> db'.ops[r] == db.ops[r];
    hide AllServed, SubmissionRows;
    AddSubmissionOk(db', req, cap, now, subId, n);
  }
}
