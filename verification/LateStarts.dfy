/**
 Starts that land late. A docker start that times out gives up the lock like any failed start, but the daemon
 may still carry it out afterwards. This breaks exclusion in some runs; here is in which.
 */
module LateStarts {
  import opened Wrappers
  import opened GpuExclusion

  function LateStart(s: Host, container: string): Host {
    s.(running := s.running + {container})
  }

  /** The start command has ended without effect, and its process has yet to give up the lock. */
  ghost predicate GivingUp(s: Host, p: nat) {
    PcOf(s, p) == Leaving && s.holder == Some(p) && Quiet(s)
  }

  /** Where a timed-out start leaves the host. */
  lemma {:induction false} TimedOut(s: Host, configs: Configs, p: nat)
    requires Inv(s, configs) && Enabled(s, configs, Launch(p, false))
    ensures var s' := Apply(s, configs, Launch(p, false));
            Inv(s', configs) && GivingUp(s', p) && PcOf(s, p).target in s'.inventory
  {
    StepKeepsInv(s, configs, Launch(p, false));
    assert PcOk(s, configs, p);
    assert forall c :: Busy(Apply(s, configs, Launch(p, false)), c) ==> Busy(s, c);
  }

  // ---------------------------------------------------------------- while the lock is held

  predicate LetsGo(step: Step, p: nat) {
    step == Release(p) || step == Crash(p)
  }

  lemma {:induction false} WaitingStep(s: Host, configs: Configs, step: Step, p: nat)
    requires LockHeld(s) && GivingUp(s, p) && Enabled(s, configs, step) && !LetsGo(step, p)
    ensures GivingUp(Apply(s, configs, step), p) && LockHeld(Apply(s, configs, step))
    ensures forall c :: c in s.inventory ==> c in Apply(s, configs, step).inventory
  {
    var s' := Apply(s, configs, step);
    assert s'.pcs == s.pcs && s'.holder == s.holder;
    assert forall c :: Busy(s', c) ==> Busy(s, c);
    forall q: nat ensures PcOf(s', q) == PcOf(s, q) {
    }
  }

  /** Landing before the lock is given up, a late start is harmless, then and in every run that follows. */
  lemma {:induction false} HarmlessWhileLocked(s: Host, configs: Configs, steps: seq<Step>, p: nat, container: string)
    requires LockHeld(s) && GivingUp(s, p) && container in s.inventory && Runs(s, configs, steps)
    requires forall i :: 0 <= i < |steps| ==> !LetsGo(steps[i], p)
    ensures Inv(LateStart(After(s, configs, steps), container), configs)
    ensures Exclusive(LateStart(After(s, configs, steps), container))
    decreases |steps|
  {
    if steps == [] {
      var s' := LateStart(s, container);
      assert forall c :: Busy(s', c) ==> Busy(s, c) || c == container;
      forall q: nat ensures PcOf(s', q) == PcOf(s, q) && (q != p ==> PcOf(s, q) == Idle) {
      }
    } else {
      hide Enabled, Apply, GivingUp, Inv;
      WaitingStep(s, configs, steps[0], p);
      HarmlessWhileLocked(Apply(s, configs, steps[0]), configs, steps[1..], p, container);
    }
  }

  // ---------------------------------------------------------------- once the lock is free

  ghost function StateAt(s: Host, configs: Configs, steps: seq<Step>, i: nat): Host
    requires Runs(s, configs, steps) && i <= |steps|
    decreases |steps|
  {
    if i == 0 then s else StateAt(Apply(s, configs, steps[0]), configs, steps[1..], i - 1)
  }

  /** A start command for this container that lands. */
  predicate Starts(s: Host, step: Step, container: string) {
    step.Launch? && step.landed && PcOf(s, step.p) == Launching(container)
  }

  predicate Ends(s: Host, step: Step, container: string) {
    || step == Exit(container)
    || (step.Halt? && step.landed && PcOf(s, step.p) == Halting(container))
  }

  ghost predicate KeptFrom(s: Host, configs: Configs, steps: seq<Step>, container: string, from: nat)
    requires Runs(s, configs, steps)
  {
    forall j :: from <= j < |steps| ==> !Ends(StateAt(s, configs, steps, j), steps[j], container)
  }

  /** Step i is a start of this container that lands, and nothing has ended it since. */
  ghost predicate StartedAt(s: Host, configs: Configs, steps: seq<Step>, container: string, i: nat)
    requires Runs(s, configs, steps)
  {
    && i < |steps| && Starts(StateAt(s, configs, steps, i), steps[i], container)
    && KeptFrom(s, configs, steps, container, i + 1)
  }

  lemma {:induction false} BusyStep(s: Host, configs: Configs, step: Step, container: string)
    requires Inv(s, configs) && Enabled(s, configs, step)
    ensures Busy(Apply(s, configs, step), container) <==>
              Starts(s, step, container) || (Busy(s, container) && !Ends(s, step, container))
  {
    if step.Launch? {
      assert PcOk(s, configs, step.p);
    }
  }

  lemma KeptTail(s: Host, configs: Configs, steps: seq<Step>, container: string, from: nat)
    requires steps != [] && Runs(s, configs, steps)
    ensures KeptFrom(s, configs, steps, container, from + 1)
       <==> KeptFrom(Apply(s, configs, steps[0]), configs, steps[1..], container, from)
  {
    hide Apply, Enabled, Ends;
    var s', rest := Apply(s, configs, steps[0]), steps[1..];
    assert forall j :: 0 <= j < |rest| ==>
             StateAt(s', configs, rest, j) == StateAt(s, configs, steps, j + 1) && rest[j] == steps[j + 1];
    if KeptFrom(s', configs, rest, container, from) {
      forall j | from + 1 <= j < |steps| ensures !Ends(StateAt(s, configs, steps, j), steps[j], container) {
        assert !Ends(StateAt(s', configs, rest, j - 1), rest[j - 1], container);
      }
    }
  }

  lemma StartedTail(s: Host, configs: Configs, steps: seq<Step>, container: string, i: nat)
    requires steps != [] && Runs(s, configs, steps)
    ensures StartedAt(s, configs, steps, container, i + 1)
       <==> StartedAt(Apply(s, configs, steps[0]), configs, steps[1..], container, i)
  {
    hide Apply, Enabled, Starts, KeptFrom;
    KeptTail(s, configs, steps, container, i + 1);
  }

  ghost predicate StartedSince(s: Host, configs: Configs, steps: seq<Step>, container: string)
    requires Runs(s, configs, steps)
  {
    exists i :: StartedAt(s, configs, steps, container, i)
  }

  /** What runs at the end was started in the run, or was running all along; and has not been ended since. */
  lemma {:induction false} BusyAfter(s: Host, configs: Configs, steps: seq<Step>, container: string)
    requires Inv(s, configs) && Runs(s, configs, steps)
    ensures Busy(After(s, configs, steps), container) <==>
              StartedSince(s, configs, steps, container)
              || (Busy(s, container) && KeptFrom(s, configs, steps, container, 0))
    decreases |steps|
  {
    hide Apply, Enabled, Inv, Starts, Ends, Busy;
    if steps == [] {
      assert KeptFrom(s, configs, steps, container, 0);
    } else {
      var s', rest := Apply(s, configs, steps[0]), steps[1..];
      StepKeepsInv(s, configs, steps[0]);
      BusyStep(s, configs, steps[0], container);
      BusyAfter(s', configs, rest, container);
      KeptTail(s, configs, steps, container, 0);
      StartedHead(s, configs, steps, container);
      KeptHead(s, configs, steps, container);
    }
  }

  lemma KeptHead(s: Host, configs: Configs, steps: seq<Step>, container: string)
    requires steps != [] && Runs(s, configs, steps)
    ensures KeptFrom(s, configs, steps, container, 0) <==>
              !Ends(s, steps[0], container) && KeptFrom(s, configs, steps, container, 1)
  {
    hide Apply, Enabled, Ends;
    assert StateAt(s, configs, steps, 0) == s;
  }

  lemma {:induction false} StartedHead(s: Host, configs: Configs, steps: seq<Step>, container: string)
    requires steps != [] && Runs(s, configs, steps)
    ensures StartedSince(s, configs, steps, container) <==>
              || StartedSince(Apply(s, configs, steps[0]), configs, steps[1..], container)
              || (Starts(s, steps[0], container) && KeptFrom(s, configs, steps, container, 1))
  {
    hide Apply, Enabled, KeptFrom, Starts;
    var s', rest := Apply(s, configs, steps[0]), steps[1..];
    assert StateAt(s, configs, steps, 0) == s;
    if StartedSince(s, configs, steps, container) {
      var i: nat :| StartedAt(s, configs, steps, container, i);
      if i > 0 {
        StartedTail(s, configs, steps, container, i - 1);
        assert StartedAt(s', configs, rest, container, i - 1);
      }
    }
    if StartedSince(s', configs, rest, container) {
      var i: nat :| StartedAt(s', configs, rest, container, i);
      StartedTail(s, configs, steps, container, i);
      assert StartedAt(s, configs, steps, container, i + 1);
    }
    if Starts(s, steps[0], container) && KeptFrom(s, configs, steps, container, 1) {
      assert StartedAt(s, configs, steps, container, 0);
    }
  }

  /**
   After any run since the timeout, a late start breaks exclusion if and only if in that run another inventoried
   container was started, the start landed, and nothing has ended it since.
   */
  lemma {:induction false} LateStartBreaksExactly(s: Host, configs: Configs, steps: seq<Step>, container: string)
    requires Inv(s, configs) && Quiet(s) && container in s.inventory && Runs(s, configs, steps)
    ensures Exclusive(LateStart(After(s, configs, steps), container)) <==>
              forall other :: StartedSince(s, configs, steps, other) ==> other == container
  {
    hide Inv, StartedSince, Apply, Enabled, KeptFrom;
    var u := After(s, configs, steps);
    InventoryGrows(s, configs, steps, container);
    forall c ensures Busy(LateStart(u, container), c) <==> c == container || StartedSince(s, configs, steps, c) {
      BusyAfter(s, configs, steps, c);
      assert !Busy(s, c);
    }
    assert Busy(LateStart(u, container), container);
    hide Busy;
  }

  lemma {:induction false} InventoryGrows(s: Host, configs: Configs, steps: seq<Step>, container: string)
    requires container in s.inventory && Runs(s, configs, steps)
    ensures container in After(s, configs, steps).inventory
    decreases |steps|
  {
    if steps != [] {
      InventoryGrows(Apply(s, configs, steps[0]), configs, steps[1..], container);
    }
  }

  /** A run that does: another process acquires the lock, finds nothing running, and starts its container. */
  function RivalSteps(p: nat, q: nat, rival: string, size: nat): seq<Step> {
    [Release(p)] + StartSteps(q, rival, Started, size)
  }

  /** Whatever the host, if another controller has another model, a late start can break exclusion. */
  lemma {:induction false} LateStartCanBreak(s: Host, configs: Configs, p: nat, q: nat, container: string,
                                             rival: string)
    requires Inv(s, configs) && GivingUp(s, p) && container in s.inventory && q != p
    requires q in configs && rival in configs[q] && rival != container && !Unlisted(configs[q], s.inventory)
    ensures var steps := RivalSteps(p, q, rival, |s.inventory|);
            && Runs(s, configs, steps)
            && !Exclusive(LateStart(After(s, configs, steps), container))
  {
    hide StartSteps, Runs, After;
    var s1 := Apply(s, configs, Release(p));
    assert PcOf(s1, q) == PcOf(s, q) == Idle;
    NothingElseRuns(s, rival);
    UndisturbedStart(s1, configs, q, rival, true);
    Prepend(s, configs, Release(p), StartSteps(q, rival, Started, |s.inventory|));
    var u := After(s, configs, RivalSteps(p, q, rival, |s.inventory|));
    assert rival in s.inventory;
    assert Busy(LateStart(u, container), rival) && Busy(LateStart(u, container), container);
  }

  lemma NothingElseRuns(s: Host, container: string)
    requires Quiet(s) && container in s.inventory
    ensures container !in s.running && !OtherRuns(container, s.running, s.inventory)
  {
    assert !Busy(s, container);
    assert forall c :: c in s.running && c in s.inventory ==> Busy(s, c);
  }

  // ---------------------------------------------------------------- every run that follows

  /** What holds of the processes whatever runs. */
  ghost predicate PcSane(s: Host, configs: Configs, p: nat) {
    match PcOf(s, p)
    case Loading(target) => p in configs && target in configs[p]
    case Scanning(target, snapshot, next, _) =>
      target in s.inventory && next <= |snapshot| && (forall c :: c in snapshot ==> c in s.inventory)
    case Launching(target) => target in s.inventory
    case _ => true
  }

  ghost predicate Sane(s: Host, configs: Configs) {
    LockHeld(s) && forall p: nat :: PcSane(s, configs, p)
  }

  /** This process cannot start a second container: it has found one, or will, or starts the one that runs. */
  ghost predicate PcSafe(s: Host, p: nat) {
    match PcOf(s, p)
    case Scanning(target, snapshot, next, found) =>
      next <= |snapshot| && (found != {} || forall c :: Busy(s, c) ==> c == target || c in snapshot[next..])
    case Launching(target) => forall c :: Busy(s, c) ==> c == target
    case _ => true
  }

  ghost predicate Safe(s: Host) {
    Exclusive(s) && forall p: nat :: PcSafe(s, p)
  }

  lemma InvIsSafe(s: Host, configs: Configs)
    requires Inv(s, configs)
    ensures Sane(s, configs) && Safe(s)
  {
    forall p: nat ensures PcSane(s, configs, p) && PcSafe(s, p) {
      assert PcOk(s, configs, p);
    }
  }

  lemma {:induction false} SaneStep(s: Host, configs: Configs, step: Step)
    requires Sane(s, configs) && Enabled(s, configs, step)
    ensures Sane(Apply(s, configs, step), configs)
  {
    var s' := Apply(s, configs, step);
    forall p: nat ensures PcSane(s', configs, p) && (PcOf(s', p) != Idle ==> s'.holder == Some(p)) {
      assert PcSane(s, configs, p);
    }
  }

  lemma Unscanned(s: Host, snapshot: seq<string>, next: nat, target: string)
    requires next < |snapshot| && snapshot[next] !in s.running
    requires forall c :: Busy(s, c) ==> c == target || c in snapshot[next..]
    ensures forall c :: Busy(s, c) ==> c == target || c in snapshot[next + 1..]
  {
    assert snapshot[next..] == [snapshot[next]] + snapshot[next + 1..];
  }

  lemma {:induction false} SafeStep(s: Host, configs: Configs, step: Step)
    requires Sane(s, configs) && Safe(s) && Enabled(s, configs, step)
    ensures Safe(Apply(s, configs, step))
  {
    var s' := Apply(s, configs, step);
    if step.Launch? {
      assert PcSafe(s, step.p) && PcSane(s, configs, step.p);
      assert forall c :: Busy(s', c) ==> Busy(s, c) || c == PcOf(s, step.p).target;
    } else {
      assert forall c :: Busy(s', c) ==> Busy(s, c);
    }
    forall p: nat ensures PcSafe(s', p) {
      assert PcSafe(s, p) && PcSane(s, configs, p);
      if PcOf(s, p).Scanning? && PcOf(s', p) != PcOf(s, p) {
        var pc := PcOf(s, p);
        if step.Inspect? && pc.found == {} && pc.snapshot[pc.next] !in s.running {
          Unscanned(s, pc.snapshot, pc.next, pc.target);
        }
      }
    }
  }

  lemma {:induction false} SafeRun(s: Host, configs: Configs, steps: seq<Step>)
    requires Sane(s, configs) && Safe(s) && Runs(s, configs, steps)
    ensures Exclusive(After(s, configs, steps))
    decreases |steps|
  {
    hide Enabled, Apply, Sane;
    if steps != [] {
      SaneStep(s, configs, steps[0]);
      SafeStep(s, configs, steps[0]);
      SafeRun(Apply(s, configs, steps[0]), configs, steps[1..]);
    }
  }

  /** An unobserved container beside a scan that has found nothing: the scan goes on to start another. */
  lemma {:induction false} BlindScanBreaks(s: Host, configs: Configs, p: nat, unseen: string) returns (steps: seq<Step>)
    requires Sane(s, configs) && Exclusive(s) && Busy(s, unseen)
    requires PcOf(s, p).Scanning? && PcOf(s, p).found == {} && unseen != PcOf(s, p).target
    requires PcOf(s, p).next <= |PcOf(s, p).snapshot| && unseen !in PcOf(s, p).snapshot[PcOf(s, p).next..]
    ensures Runs(s, configs, steps) && !Exclusive(After(s, configs, steps))
  {
    hide Inspections, Runs, After;
    assert PcSane(s, configs, p);
    var pc := PcOf(s, p);
    var rest := pc.snapshot[pc.next..];
    NothingRunsIn(s, rest, unseen);
    UndisturbedScan(s, configs, p, |rest|);
    assert pc.found + RunningIn(rest, s.running) == {};
    var scanned := Move(s, p, pc.(next := |pc.snapshot|, found := {}));
    var decided := Apply(scanned, configs, Decide(p));
    var end := Apply(decided, configs, Launch(p, true));
    Alone(decided, configs, Launch(p, true));
    Prepend(scanned, configs, Decide(p), [Launch(p, true)]);
    assert [Decide(p)] + [Launch(p, true)] == [Decide(p), Launch(p, true)];
    RunsThen(s, configs, Inspections(p, |rest|), [Decide(p), Launch(p, true)]);
    steps := Inspections(p, |rest|) + [Decide(p), Launch(p, true)];
    assert Busy(end, pc.target) && Busy(end, unseen);
  }

  lemma NothingRunsIn(s: Host, containers: seq<string>, only: string)
    requires Exclusive(s) && Busy(s, only) && only !in containers && forall c :: c in containers ==> c in s.inventory
    ensures RunningIn(containers, s.running) == {}
  {
    assert forall c :: c in containers && c in s.running ==> Busy(s, c);
  }

  lemma {:induction false} UnsafeBreaks(s: Host, configs: Configs) returns (steps: seq<Step>)
    requires Sane(s, configs) && !Safe(s)
    ensures Runs(s, configs, steps) && !Exclusive(After(s, configs, steps))
  {
    if !Exclusive(s) {
      return [];
    }
    var p: nat :| !PcSafe(s, p);
    assert PcSane(s, configs, p);
    var pc := PcOf(s, p);
    var unseen :| Busy(s, unseen) && unseen != pc.target && (pc.Scanning? ==> unseen !in pc.snapshot[pc.next..]);
    if pc.Scanning? {
      steps := BlindScanBreaks(s, configs, p, unseen);
    } else {
      var end := Apply(s, configs, Launch(p, true));
      Alone(s, configs, Launch(p, true));
      assert Busy(end, pc.target) && Busy(end, unseen);
      return [Launch(p, true)];
    }
  }

  /** Every run from here keeps exclusion. */
  ghost predicate AlwaysExclusive(s: Host, configs: Configs) {
    forall steps :: Runs(s, configs, steps) ==> Exclusive(After(s, configs, steps))
  }

  lemma {:induction false} AlwaysExclusiveExactly(s: Host, configs: Configs)
    requires Sane(s, configs)
    ensures AlwaysExclusive(s, configs) <==> Safe(s)
  {
    hide Sane, Safe, Exclusive, After;
    if Safe(s) {
      forall steps | Runs(s, configs, steps) ensures Exclusive(After(s, configs, steps)) {
        SafeRun(s, configs, steps);
      }
    } else {
      var steps := UnsafeBreaks(s, configs);
      assert Runs(s, configs, steps);
    }
  }

  predicate HarmlessFor(s: Host, p: nat, container: string) {
    match PcOf(s, p)
    case Scanning(target, snapshot, next, found) =>
      target == container || found != {} || (next <= |snapshot| && container in snapshot[next..])
    case Launching(target) => target == container
    case _ => true
  }

  /**
   No other inventoried container runs, and whoever holds the lock is starting this one, has already found
   one running, or has yet to look at it.
   */
  ghost predicate Harmless(s: Host, container: string) {
    && (forall c :: Busy(s, c) ==> c == container)
    && (forall p: nat :: HarmlessFor(s, p, container))
  }

  /** A late start keeps exclusion then and in every run that follows if and only if it lands at such a moment. */
  lemma {:induction false} HarmlessExactly(s: Host, configs: Configs, container: string)
    requires Sane(s, configs) && Safe(s) && container in s.inventory
    ensures AlwaysExclusive(LateStart(s, container), configs) <==> Harmless(s, container)
  {
    hide AlwaysExclusive;
    var s' := LateStart(s, container);
    forall c ensures Busy(s', c) <==> Busy(s, c) || c == container {
    }
    forall p: nat ensures PcOf(s', p) == PcOf(s, p) && PcSane(s', configs, p) {
      assert PcSane(s, configs, p);
    }
    AlwaysExclusiveExactly(s', configs);
    SafeMeansHarmless(s, configs, container);
  }

  lemma SafeMeansHarmless(s: Host, configs: Configs, container: string)
    requires Sane(s, configs) && Safe(s) && container in s.inventory
    ensures Safe(LateStart(s, container)) <==> Harmless(s, container)
  {
    var s' := LateStart(s, container);
    forall c ensures Busy(s', c) <==> Busy(s, c) || c == container {
    }
    assert Busy(s', container);
    if Safe(s') {
      forall p: nat ensures HarmlessFor(s, p, container) {
        assert PcSafe(s', p) && PcOf(s', p) == PcOf(s, p);
      }
    }
    if Harmless(s, container) {
      forall p: nat ensures PcSafe(s', p) {
        assert PcOf(s', p) == PcOf(s, p) && PcSane(s, configs, p) && HarmlessFor(s, p, container);
      }
    }
  }
}
