/**
 Host-wide exclusion of model containers: any number of controller processes, each with its own model map,
 one lock file and one shared inventory. Every docker command is one step, so a scan of the inventory is not
 atomic, and containers stop by themselves between any two steps.
 */
module GpuExclusion {
  import opened Wrappers

  datatype Call = StartCall(target: string) | StopCall(target: string)

  /** Where a controller process is; all but Idle hold the lock. */
  datatype Pc =
    | Idle
    | Loading(target: string)
    | Scanning(target: string, snapshot: seq<string>, next: nat, found: set<string>)
    | Launching(target: string)
    | Checking(target: string)
    | Halting(target: string)
    | Leaving

  datatype Host = Host(running: set<string>, inventory: seq<string>, holder: Option<nat>, pcs: map<nat, Pc>)

  type Configs = map<nat, set<string>>

  datatype Step =
    | Acquire(p: nat, call: Call)
    | Load(p: nat)
    | Inspect(p: nat, answered: bool)
    | Decide(p: nat)
    | Launch(p: nat, landed: bool)
    | Check(p: nat, answered: bool)
    | Halt(p: nat, landed: bool)
    | Release(p: nat)
    | Crash(p: nat)
    | Exit(container: string)
    | Register(container: string)
    | StartOutside(container: string)

  function PcOf(s: Host, p: nat): Pc {
    if p in s.pcs then s.pcs[p] else Idle
  }

  predicate Enabled(s: Host, configs: Configs, step: Step) {
    match step
    case Acquire(p, call) => s.holder == None && PcOf(s, p) == Idle && p in configs && call.target in configs[p]
    case Load(p) => PcOf(s, p).Loading?
    case Inspect(p, _) => PcOf(s, p).Scanning? && PcOf(s, p).next < |PcOf(s, p).snapshot|
    case Decide(p) => PcOf(s, p).Scanning? && PcOf(s, p).next >= |PcOf(s, p).snapshot|
    case Launch(p, _) => PcOf(s, p).Launching?
    case Check(p, _) => PcOf(s, p).Checking?
    case Halt(p, _) => PcOf(s, p).Halting?
    case Release(p) => PcOf(s, p).Leaving?
    case Crash(p) => PcOf(s, p) != Idle
    case Exit(_) => true
    case Register(container) => container !in s.running && container !in s.inventory
    case StartOutside(container) => container !in s.inventory
  }

  function Move(s: Host, p: nat, pc: Pc): Host {
    s.(pcs := s.pcs[p := pc])
  }

  /** A configured container missing from the inventory refuses the start. */
  function AfterLoad(s: Host, configured: set<string>, target: string): Pc {
    if forall c :: c in configured ==> c in s.inventory then Scanning(target, s.inventory, 0, {}) else Leaving
  }

  function AfterScan(target: string, found: set<string>): Pc {
    if exists c :: c in found && c != target then Leaving
    else if target in found then Leaving
    else Launching(target)
  }

  function Apply(s: Host, configs: Configs, step: Step): Host
    requires Enabled(s, configs, step)
  {
    match step
    case Acquire(p, call) =>
      Move(s, p, if call.StartCall? then Loading(call.target) else Checking(call.target)).(holder := Some(p))
    case Load(p) => Move(s, p, AfterLoad(s, if p in configs then configs[p] else {}, PcOf(s, p).target))
    case Inspect(p, answered) =>
      var pc := PcOf(s, p);
      var container := pc.snapshot[pc.next];
      Move(s, p, if !answered then Leaving
                 else pc.(next := pc.next + 1,
                          found := if container in s.running then pc.found + {container} else pc.found))
    case Decide(p) => Move(s, p, AfterScan(PcOf(s, p).target, PcOf(s, p).found))
    case Launch(p, landed) =>
      Move(s, p, Leaving).(running := if landed then s.running + {PcOf(s, p).target} else s.running)
    case Check(p, answered) =>
      Move(s, p, if answered && PcOf(s, p).target in s.running then Halting(PcOf(s, p).target) else Leaving)
    case Halt(p, landed) =>
      Move(s, p, Leaving).(running := if landed then s.running - {PcOf(s, p).target} else s.running)
    case Release(p) => Move(s, p, Idle).(holder := None)
    case Crash(p) => Move(s, p, Idle).(holder := None)
    case Exit(container) => s.(running := s.running - {container})
    case Register(container) => s.(inventory := s.inventory + [container])
    case StartOutside(container) => s.(running := s.running + {container})
  }

  ghost predicate Runs(s: Host, configs: Configs, steps: seq<Step>)
    decreases |steps|
  {
    steps != [] ==> Enabled(s, configs, steps[0]) && Runs(Apply(s, configs, steps[0]), configs, steps[1..])
  }

  ghost function After(s: Host, configs: Configs, steps: seq<Step>): Host
    requires Runs(s, configs, steps)
    decreases |steps|
  {
    if steps == [] then s else After(Apply(s, configs, steps[0]), configs, steps[1..])
  }

  // ---------------------------------------------------------------- the invariant

  predicate Busy(s: Host, container: string) {
    container in s.running && container in s.inventory
  }

  ghost predicate Exclusive(s: Host) {
    forall c, d :: Busy(s, c) && Busy(s, d) ==> c == d
  }

  ghost predicate Quiet(s: Host) {
    forall c :: !Busy(s, c)
  }

  ghost predicate LockHeld(s: Host) {
    forall p: nat :: PcOf(s, p) != Idle ==> s.holder == Some(p)
  }

  /** Whatever runs has been seen, or is still to be looked at: the scan is not atomic, but nothing else can start. */
  ghost predicate PcOk(s: Host, configs: Configs, p: nat) {
    match PcOf(s, p)
    case Loading(target) => p in configs && target in configs[p]
    case Scanning(target, snapshot, next, found) =>
      && target in s.inventory && next <= |snapshot| && (forall c :: c in snapshot ==> c in s.inventory)
      && forall c :: Busy(s, c) ==> c in found || c in snapshot[next..]
    case Launching(target) => target in s.inventory && Quiet(s)
    case _ => true
  }

  ghost predicate Inv(s: Host, configs: Configs) {
    Exclusive(s) && LockHeld(s) && forall p: nat :: PcOk(s, configs, p)
  }

  /** The heart of it: what one step of a process may leave behind. */
  lemma MoveKeeps(s: Host, s': Host, configs: Configs, p: nat, pc: Pc)
    requires Inv(s, configs) && (PcOf(s, p) != Idle || s.holder == None)
    requires s'.pcs == s.pcs[p := pc] && s'.holder == (if pc == Idle then None else Some(p))
    requires Exclusive(s') && PcOk(s', configs, p)
    ensures Inv(s', configs)
  {
    hide Exclusive;
    forall q: nat ensures PcOf(s', q) != Idle ==> s'.holder == Some(q) {
    }
    forall q: nat ensures PcOk(s', configs, q) {
      if q != p {
        assert PcOf(s', q) == Idle;
      }
    }
  }

  lemma SeenOneMore(s: Host, snapshot: seq<string>, next: nat, found: set<string>)
    requires next < |snapshot| && forall c :: Busy(s, c) ==> c in found || c in snapshot[next..]
    ensures forall c :: Busy(s, c) ==>
              c in (if snapshot[next] in s.running then found + {snapshot[next]} else found)
              || c in snapshot[next + 1..]
  {
    assert snapshot[next..] == [snapshot[next]] + snapshot[next + 1..];
  }

  lemma ScanComplete(s: Host, configs: Configs, p: nat)
    requires PcOk(s, configs, p) && Enabled(s, configs, Decide(p))
    ensures PcOk(Apply(s, configs, Decide(p)), configs, p)
  {
    var pc, s' := PcOf(s, p), Apply(s, configs, Decide(p));
    if PcOf(s', p).Launching? {
      assert pc.snapshot[pc.next..] == [];
      assert forall c :: Busy(s', c) ==> Busy(s, c) && c in pc.found;
    }
  }

  lemma StartsAlone(s: Host, configs: Configs, p: nat, landed: bool)
    requires PcOk(s, configs, p) && Exclusive(s) && Enabled(s, configs, Launch(p, landed))
    ensures Exclusive(Apply(s, configs, Launch(p, landed)))
  {
    var s' := Apply(s, configs, Launch(p, landed));
    forall c | Busy(s', c) ensures Busy(s, c) || c == PcOf(s, p).target {
    }
  }

  lemma {:induction false} ProcessStepKeepsInv(s: Host, configs: Configs, step: Step, p: nat)
    requires Inv(s, configs) && Enabled(s, configs, step)
    requires !step.Exit? && !step.Register? && !step.StartOutside? && p == step.p
    ensures Inv(Apply(s, configs, step), configs)
  {
    var s' := Apply(s, configs, step);
    assert PcOk(s, configs, p);
    match step {
      case Inspect(_, answered) =>
        var pc := PcOf(s, p);
        SeenOneMore(s, pc.snapshot, pc.next, pc.found);
      case Decide(_) => ScanComplete(s, configs, p);
      case Launch(_, landed) => StartsAlone(s, configs, p, landed);
      case _ =>
    }
    if !step.Launch? {
      assert forall c :: Busy(s', c) ==> Busy(s, c);
    }
    assert PcOk(s', configs, p);
    assert s'.holder == (if PcOf(s', p) == Idle then None else Some(p));
    MoveKeeps(s, s', configs, p, PcOf(s', p));
  }

  lemma {:induction false} OutsideStepKeepsInv(s: Host, configs: Configs, step: Step)
    requires Inv(s, configs) && Enabled(s, configs, step)
    requires step.Exit? || step.Register? || step.StartOutside?
    ensures Inv(Apply(s, configs, step), configs)
  {
    var s' := Apply(s, configs, step);
    assert forall c :: Busy(s', c) ==> Busy(s, c);
    forall p: nat ensures PcOk(s', configs, p) {
      assert PcOk(s, configs, p) && PcOf(s', p) == PcOf(s, p);
    }
  }

  /**
   At most one inventoried container runs, in every state of every run: whatever the interleaving, the model
   maps, the containers that stop by themselves and the processes that die holding the lock.
   */
  lemma {:induction false} AtMostOneRuns(s: Host, configs: Configs, steps: seq<Step>)
    requires Inv(s, configs) && Runs(s, configs, steps)
    ensures Inv(After(s, configs, steps), configs) && Exclusive(After(s, configs, steps))
    decreases |steps|
  {
    hide Inv, Enabled, Apply;
    if steps == [] {
      InvIsExclusive(s, configs);
    } else {
      StepKeepsInv(s, configs, steps[0]);
      AtMostOneRuns(Apply(s, configs, steps[0]), configs, steps[1..]);
    }
  }

  lemma StepKeepsInv(s: Host, configs: Configs, step: Step)
    requires Inv(s, configs) && Enabled(s, configs, step)
    ensures Inv(Apply(s, configs, step), configs)
  {
    hide Inv, Enabled, Apply;
    if step.Exit? || step.Register? || step.StartOutside? {
      OutsideStepKeepsInv(s, configs, step);
    } else {
      ProcessStepKeepsInv(s, configs, step, step.p);
    }
  }

  lemma InvIsExclusive(s: Host, configs: Configs)
    requires Inv(s, configs)
    ensures Exclusive(s)
  {
  }

  /** A start command is issued only while no inventoried container runs, and nothing can start before it lands. */
  lemma {:induction false} LaunchesIntoQuiet(s: Host, configs: Configs, steps: seq<Step>, p: nat)
    requires Inv(s, configs) && Runs(s, configs, steps)
    ensures PcOf(After(s, configs, steps), p).Launching? ==>
              Quiet(After(s, configs, steps))
              && PcOf(After(s, configs, steps), p).target in After(s, configs, steps).inventory
  {
    AtMostOneRuns(s, configs, steps);
    assert PcOk(After(s, configs, steps), configs, p);
  }

  /** Whoever holds the lock is at work: it is never left behind, by a process that ends or one that dies. */
  ghost predicate HolderWorks(s: Host) {
    s.holder.Some? ==> PcOf(s, s.holder.value) != Idle
  }

  lemma {:induction false} LockIsNeverLost(s: Host, configs: Configs, steps: seq<Step>)
    requires LockHeld(s) && HolderWorks(s) && Runs(s, configs, steps)
    ensures LockHeld(After(s, configs, steps)) && HolderWorks(After(s, configs, steps))
    decreases |steps|
  {
    if steps != [] {
      var s' := Apply(s, configs, steps[0]);
      forall p: nat ensures PcOf(s', p) != Idle ==> s'.holder == Some(p) {
      }
      LockIsNeverLost(s', configs, steps[1..]);
    }
  }

  /** A host without a controller at work satisfies the invariant exactly when
      at most one inventoried container runs. */
  lemma InitiallyOk(s: Host, configs: Configs)
    requires s.pcs == map[]
    ensures Inv(s, configs) <==> Exclusive(s)
  {
  }

  // ---------------------------------------------------------------- the commands, undisturbed

  datatype StartResult =
    | Started
    | AlreadyRunning
    | UnknownModel
    | InventoryUnavailable
    | ContainerUnavailable
    | ModelConflict
    | StartFailed

  datatype StopResult = Stopped | AlreadyStopped | UnknownModelToStop | StateUnknown | StopFailed

  class DockerHost {
    var running: set<string>
    var inventory: seq<string>
  }

  class DockerController {
    const host: DockerHost
    const configured: set<string>

    constructor (host: DockerHost, configured: set<string>)
      ensures this.host == host && this.configured == configured
    {
      this.host, this.configured := host, configured;
    }

    /** `silent` are the containers docker cannot inspect; `landed` is whether the start command works. */
    method Start(target: string, silent: set<string>, landed: bool) returns (r: StartResult)
      modifies host
      ensures r == StartOutcome(target, configured, old(host.running), host.inventory, silent, landed)
      ensures host.inventory == old(host.inventory)
      ensures host.running == if r == Started then old(host.running) + {target} else old(host.running)
    {
      if target !in configured {
        return UnknownModel;
      }
      if Unlisted(configured, host.inventory) {
        return InventoryUnavailable;
      }
      var found := {};
      for i := 0 to |host.inventory|
        invariant host.running == old(host.running) && host.inventory == old(host.inventory)
        invariant found == RunningIn(host.inventory[..i], host.running)
        invariant forall c :: c in host.inventory[..i] ==> c !in silent
      {
        var container := host.inventory[i];
        assert host.inventory[..i + 1] == host.inventory[..i] + [container];
        if container in silent {
          assert container in host.inventory;
          return ContainerUnavailable;
        }
        if container in host.running {
          found := found + {container};
        }
      }
      assert host.inventory[..|host.inventory|] == host.inventory;
      assert forall c :: c in host.running ==> (c in found <==> c in host.inventory);
      assert OtherRuns(target, host.running, host.inventory) <==> exists c :: c in found && c != target;
      if exists c :: c in found && c != target {
        return ModelConflict;
      }
      if target in found {
        return AlreadyRunning;
      }
      if !landed {
        return StartFailed;
      }
      host.running := host.running + {target};
      r := Started;
    }

    method Stop(target: string, silent: set<string>, landed: bool) returns (r: StopResult)
      modifies host
      ensures r == StopOutcome(target, configured, old(host.running), silent, landed)
      ensures host.running == if r == Stopped then old(host.running) - {target} else old(host.running)
      ensures host.inventory == old(host.inventory)
    {
      if target !in configured {
        return UnknownModelToStop;
      }
      if target in silent {
        return StateUnknown;
      }
      if target !in host.running {
        return AlreadyStopped;
      }
      if !landed {
        return StopFailed;
      }
      host.running := host.running - {target};
      r := Stopped;
    }
  }

  /** A stop looks at no container but its own. */
  function StopOutcome(target: string, configured: set<string>, running: set<string>, silent: set<string>,
                       landed: bool): StopResult
  {
    if target !in configured then UnknownModelToStop
    else if target in silent then StateUnknown
    else if target !in running then AlreadyStopped
    else if landed then Stopped
    else StopFailed
  }

  function RunningIn(containers: seq<string>, running: set<string>): set<string> {
    set c | c in containers && c in running
  }

  predicate Unlisted(configured: set<string>, inventory: seq<string>) {
    exists c :: c in configured && c !in inventory
  }

  predicate OtherRuns(target: string, running: set<string>, inventory: seq<string>) {
    exists c :: c in running && c in inventory && c != target
  }

  function StartOutcome(target: string, configured: set<string>, running: set<string>, inventory: seq<string>,
                        silent: set<string>,
                        landed: bool): StartResult
  {
    if target !in configured then UnknownModel
    else if Unlisted(configured, inventory) then InventoryUnavailable
    else if exists c :: c in inventory && c in silent then ContainerUnavailable
    else if OtherRuns(target, running, inventory) then ModelConflict
    else if target in running then AlreadyRunning
    else if landed then Started
    else StartFailed
  }

  lemma {:induction false} RunsThen(s: Host, configs: Configs, first: seq<Step>, rest: seq<Step>)
    requires Runs(s, configs, first) && Runs(After(s, configs, first), configs, rest)
    ensures Runs(s, configs, first + rest)
            && After(s, configs, first + rest) == After(After(s, configs, first), configs, rest)
    decreases |first|
  {
    if first == [] {
      assert first + rest == rest;
    } else {
      var s' := Apply(s, configs, first[0]);
      assert After(s, configs, first) == After(s', configs, first[1..]);
      RunsThen(s', configs, first[1..], rest);
      assert (first + rest)[0] == first[0] && (first + rest)[1..] == first[1..] + rest;
    }
  }

  function Inspections(p: nat, count: nat): seq<Step> {
    seq(count, i => Inspect(p, true))
  }

  lemma RunningInCons(container: string, rest: seq<string>, running: set<string>, found: set<string>)
    ensures (if container in running then found + {container} else found) + RunningIn(rest, running)
         == found + RunningIn([container] + rest, running)
  {
  }

  lemma SetPcTwice(s: Host, p: nat, a: Pc, b: Pc)
    ensures Move(Move(s, p, a), p, b) == Move(s, p, b)
  {
  }

  /** A scan that nothing interrupts finds exactly what runs. */
  lemma {:induction false} UndisturbedScan(s: Host, configs: Configs, p: nat, count: nat)
    requires PcOf(s, p).Scanning? && PcOf(s, p).next + count == |PcOf(s, p).snapshot|
    ensures Runs(s, configs, Inspections(p, count))
    ensures var pc := PcOf(s, p);
            After(s, configs, Inspections(p, count))
              == Move(s, p, pc.(next := |pc.snapshot|,
                                found := pc.found + RunningIn(pc.snapshot[pc.next..], s.running)))
    decreases count
  {
    hide RunningIn;
    var pc := PcOf(s, p);
    if count > 0 {
      var s', container, rest := Apply(s, configs, Inspect(p, true)), pc.snapshot[pc.next], pc.snapshot[pc.next + 1..];
      UndisturbedScan(s', configs, p, count - 1);
      assert Inspections(p, count)[1..] == Inspections(p, count - 1);
      assert pc.snapshot[pc.next..] == [container] + rest;
      RunningInCons(container, rest, s.running, pc.found);
      var last := pc.(next := |pc.snapshot|, found := pc.found + RunningIn(pc.snapshot[pc.next..], s.running));
      SetPcTwice(s, p, PcOf(s', p), last);
    } else {
      NothingMore(pc.snapshot, pc.next, s.running, pc.found);
      assert Move(s, p, pc).pcs == s.pcs;
    }
  }

  lemma NothingMore(snapshot: seq<string>, next: nat, running: set<string>, found: set<string>)
    requires next == |snapshot|
    ensures found + RunningIn(snapshot[next..], running) == found
  {
  }

  function StartSteps(p: nat, target: string, outcome: StartResult, size: nat): seq<Step> {
    match outcome
    case UnknownModel => []
    case InventoryUnavailable => [Acquire(p, StartCall(target)), Load(p), Release(p)]
    case Started =>
      [Acquire(p, StartCall(target)), Load(p)] + Inspections(p, size) + [Decide(p), Launch(p, true), Release(p)]
    case StartFailed =>
      [Acquire(p, StartCall(target)), Load(p)] + Inspections(p, size) + [Decide(p), Launch(p, false), Release(p)]
    case _ => [Acquire(p, StartCall(target)), Load(p)] + Inspections(p, size) + [Decide(p), Release(p)]
  }

  lemma {:induction false} ScanPhase(s: Host, configs: Configs, p: nat, target: string)
    requires s.holder == None && PcOf(s, p) == Idle && p in configs && target in configs[p]
    requires !Unlisted(configs[p], s.inventory)
    ensures var steps := [Acquire(p, StartCall(target)), Load(p)] + Inspections(p, |s.inventory|);
            && Runs(s, configs, steps)
            && After(s, configs, steps)
                 == Move(s, p, Scanning(target, s.inventory, |s.inventory|, RunningIn(s.inventory, s.running)))
                    .(holder := Some(p))
  {
    hide Inspections, RunningIn;
    var s1 := Apply(s, configs, Acquire(p, StartCall(target)));
    var s2 := Apply(s1, configs, Load(p));
    assert PcOf(s2, p) == Scanning(target, s.inventory, 0, {});
    UndisturbedScan(s2, configs, p, |s.inventory|);
    assert s.inventory[0..] == s.inventory;
    var opening := [Acquire(p, StartCall(target)), Load(p)];
    Alone(s1, configs, Load(p));
    Prepend(s, configs, Acquire(p, StartCall(target)), [Load(p)]);
    assert opening == [Acquire(p, StartCall(target))] + [Load(p)];
    RunsThen(s, configs, opening, Inspections(p, |s.inventory|));
    EmptyUnion(RunningIn(s.inventory, s.running));
    var found := RunningIn(s.inventory, s.running);
    SetPcTwice(s, p, Loading(target), Scanning(target, s.inventory, 0, {}));
    SetPcTwice(s, p, Scanning(target, s.inventory, 0, {}), Scanning(target, s.inventory, |s.inventory|, found));
  }

  lemma EmptyUnion(a: set<string>)
    ensures {} + a == a
  {
  }

  /**
   A start command that nothing disturbs is one run of the machine: its outcome is the one stated of the method,
   it leaves the lock free, and it changes what runs as the method does.
   */
  lemma {:induction false} UndisturbedStart(s: Host, configs: Configs, p: nat, target: string, landed: bool)
    requires s.holder == None && PcOf(s, p) == Idle && p in configs && target in configs[p]
    ensures var outcome := StartOutcome(target, configs[p], s.running, s.inventory, {}, landed);
            var steps := StartSteps(p, target, outcome, |s.inventory|);
            && Runs(s, configs, steps)
            && After(s, configs, steps)
                 == Move(s, p, Idle).(running := if outcome == Started then s.running + {target} else s.running)
  {
    hide Inspections, Runs, After;
    var outcome := StartOutcome(target, configs[p], s.running, s.inventory, {}, landed);
    if Unlisted(configs[p], s.inventory) {
      UnlistedStart(s, configs, p, target);
    } else {
      ScanPhase(s, configs, p, target);
      var scanned := Move(s, p,
                          Scanning(target, s.inventory, |s.inventory|, RunningIn(s.inventory, s.running)))
                     .(holder := Some(p));
      var tail := DecisionSteps(p, outcome);
      Decision(scanned, configs, p, target, outcome);
      var opening := [Acquire(p, StartCall(target)), Load(p)] + Inspections(p, |s.inventory|);
      RunsThen(s, configs, opening, tail);
      assert StartSteps(p, target, outcome, |s.inventory|) == opening + tail;
      SetPcTwice(s, p, PcOf(scanned, p), Idle);
    }
  }

  /** A start lands exactly when every listed container answers, none of them runs, and the command works. */
  lemma StartedExactly(target: string, configured: set<string>, running: set<string>, inventory: seq<string>,
                       silent: set<string>, landed: bool)
    ensures StartOutcome(target, configured, running, inventory, silent, landed) == Started <==>
              && target in configured && (forall c :: c in configured ==> c in inventory)
              && (forall c :: c in inventory ==> c !in silent && c !in running)
              && landed
  {
    var outcome := StartOutcome(target, configured, running, inventory, silent, landed);
    if outcome == Started {
      assert !Unlisted(configured, inventory);
      forall c | c in inventory ensures c !in running {
        assert c in running && c != target ==> OtherRuns(target, running, inventory);
      }
    }
  }

  /** The first listed container that does not answer. */
  ghost predicate FirstSilent(inventory: seq<string>, silent: set<string>, k: nat) {
    k < |inventory| && inventory[k] in silent && forall i :: 0 <= i < k ==> inventory[i] !in silent
  }

  lemma {:induction false} SomeAreFirst(inventory: seq<string>, silent: set<string>, n: nat) returns (k: nat)
    requires n < |inventory| && inventory[n] in silent
    ensures FirstSilent(inventory, silent, k)
  {
    k := n;
    if i :| 0 <= i < n && inventory[i] in silent {
      k := SomeAreFirst(inventory, silent, i);
    }
  }

  lemma {:induction false} PartOfScan(s: Host, configs: Configs, p: nat, count: nat) returns (found: set<string>)
    requires PcOf(s, p).Scanning? && PcOf(s, p).next + count <= |PcOf(s, p).snapshot|
    ensures Runs(s, configs, Inspections(p, count))
    ensures var pc := PcOf(s, p);
            After(s, configs, Inspections(p, count)) == Move(s, p, pc.(next := pc.next + count, found := found))
    decreases count
  {
    var pc := PcOf(s, p);
    found := pc.found;
    if count > 0 {
      var s' := Apply(s, configs, Inspect(p, true));
      found := PartOfScan(s', configs, p, count - 1);
      assert Inspections(p, count)[1..] == Inspections(p, count - 1);
      SetPcTwice(s, p, PcOf(s', p), pc.(next := pc.next + count, found := found));
    } else {
      assert Move(s, p, pc).pcs == s.pcs;
    }
  }

  /** The inventory is scanned up to a container that does not answer. */
  function SilentSteps(p: nat, target: string, k: nat): seq<Step> {
    [Acquire(p, StartCall(target)), Load(p)] + (Inspections(p, k) + [Inspect(p, false), Release(p)])
  }

  lemma {:induction false} SilentStart(s: Host, configs: Configs, p: nat, target: string, k: nat)
    requires s.holder == None && PcOf(s, p) == Idle && p in configs && target in configs[p]
    requires !Unlisted(configs[p], s.inventory) && k < |s.inventory|
    ensures Runs(s, configs, SilentSteps(p, target, k))
    ensures After(s, configs, SilentSteps(p, target, k)) == Move(s, p, Idle)
  {
    hide Inspections;
    var s1 := Apply(s, configs, Acquire(p, StartCall(target)));
    var s2 := Apply(s1, configs, Load(p));
    assert PcOf(s2, p) == Scanning(target, s.inventory, 0, {});
    var found := PartOfScan(s2, configs, p, k);
    var s3 := After(s2, configs, Inspections(p, k));
    var s4 := Apply(s3, configs, Inspect(p, false));
    Alone(s4, configs, Release(p));
    Prepend(s3, configs, Inspect(p, false), [Release(p)]);
    assert [Inspect(p, false)] + [Release(p)] == [Inspect(p, false), Release(p)];
    RunsThen(s2, configs, Inspections(p, k), [Inspect(p, false), Release(p)]);
    var rest := Inspections(p, k) + [Inspect(p, false), Release(p)];
    Alone(s1, configs, Load(p));
    Prepend(s, configs, Acquire(p, StartCall(target)), [Load(p)]);
    var opening := [Acquire(p, StartCall(target)), Load(p)];
    assert opening == [Acquire(p, StartCall(target))] + [Load(p)];
    RunsThen(s, configs, opening, rest);
    assert After(s, configs, SilentSteps(p, target, k)).pcs == s.pcs[p := Idle];
  }

  /** Whichever containers do not answer, an undisturbed start is a run of the machine with the method's outcome. */
  lemma {:induction false} UndisturbedAttempt(s: Host, configs: Configs, p: nat, target: string, silent: set<string>,
                                              landed: bool) returns (steps: seq<Step>)
    requires s.holder == None && PcOf(s, p) == Idle && p in configs && target in configs[p]
    ensures var outcome := StartOutcome(target, configs[p], s.running, s.inventory, silent, landed);
            && Runs(s, configs, steps)
            && After(s, configs, steps)
                 == Move(s, p, Idle).(running := if outcome == Started then s.running + {target} else s.running)
            && (outcome == ContainerUnavailable <==>
                  exists k :: FirstSilent(s.inventory, silent, k) && steps == SilentSteps(p, target, k))
  {
    hide Runs, After, SilentSteps, StartSteps;
    var outcome := StartOutcome(target, configs[p], s.running, s.inventory, silent, landed);
    if outcome == ContainerUnavailable {
      var c :| c in s.inventory && c in silent;
      var n :| 0 <= n < |s.inventory| && s.inventory[n] == c;
      var k := SomeAreFirst(s.inventory, silent, n);
      SilentStart(s, configs, p, target, k);
      steps := SilentSteps(p, target, k);
    } else {
      UndisturbedStart(s, configs, p, target, landed);
      var undisturbed := StartOutcome(target, configs[p], s.running, s.inventory, {}, landed);
      steps := StartSteps(p, target, undisturbed, |s.inventory|);
      AnsweredSteps(p, target, undisturbed, s.inventory, silent, outcome);
    }
  }

  lemma AnsweredSteps(p: nat, target: string, undisturbed: StartResult, inventory: seq<string>, silent: set<string>,
                      outcome: StartResult)
    requires undisturbed == InventoryUnavailable || (forall c :: c in inventory ==> c !in silent)
    ensures forall k :: FirstSilent(inventory, silent, k) ==>
              StartSteps(p, target, undisturbed, |inventory|) != SilentSteps(p, target, k)
  {
    forall k | FirstSilent(inventory, silent, k)
      ensures StartSteps(p, target, undisturbed, |inventory|) != SilentSteps(p, target, k) {
      assert undisturbed == InventoryUnavailable;
      assert |SilentSteps(p, target, k)| > 3;
    }
  }

  function DecisionSteps(p: nat, outcome: StartResult): seq<Step> {
    match outcome
    case Started => [Decide(p), Launch(p, true), Release(p)]
    case StartFailed => [Decide(p), Launch(p, false), Release(p)]
    case _ => [Decide(p), Release(p)]
  }

  lemma {:induction false} Decision(s: Host, configs: Configs, p: nat, target: string, outcome: StartResult)
    requires PcOf(s, p) == Scanning(target, s.inventory, |s.inventory|, RunningIn(s.inventory, s.running))
    requires target in s.inventory
    requires if OtherRuns(target, s.running, s.inventory) then outcome == ModelConflict
             else if target in s.running then outcome == AlreadyRunning
             else outcome == Started || outcome == StartFailed
    ensures Runs(s, configs, DecisionSteps(p, outcome))
    ensures After(s, configs, DecisionSteps(p, outcome))
         == Move(s, p, Idle).(running := if outcome == Started then s.running + {target} else s.running, holder := None)
  {
    var pc, s1 := PcOf(s, p), Apply(s, configs, Decide(p));
    assert forall c :: c in s.running ==> (c in pc.found <==> c in s.inventory);
    assert OtherRuns(target, s.running, s.inventory) <==> exists c :: c in pc.found && c != target;
    if outcome == ModelConflict || outcome == AlreadyRunning {
      Alone(s1, configs, Release(p));
      Prepend(s, configs, Decide(p), [Release(p)]);
      assert DecisionSteps(p, outcome) == [Decide(p)] + [Release(p)];
      SetPcTwice(s, p, Leaving, Idle);
    } else {
      var s2 := Apply(s1, configs, Launch(p, outcome == Started));
      Alone(s2, configs, Release(p));
      Prepend(s1, configs, Launch(p, outcome == Started), [Release(p)]);
      Prepend(s, configs, Decide(p), [Launch(p, outcome == Started), Release(p)]);
      assert DecisionSteps(p, outcome) == [Decide(p)] + [Launch(p, outcome == Started), Release(p)];
      SetPcTwice(s, p, Launching(target), Leaving);
      SetPcTwice(s, p, Leaving, Idle);
    }
  }

  lemma Prepend(s: Host, configs: Configs, step: Step, rest: seq<Step>)
    requires Enabled(s, configs, step) && Runs(Apply(s, configs, step), configs, rest)
    ensures Runs(s, configs, [step] + rest)
            && After(s, configs, [step] + rest) == After(Apply(s, configs, step), configs, rest)
  {
    assert ([step] + rest)[0] == step && ([step] + rest)[1..] == rest;
  }

  lemma Alone(s: Host, configs: Configs, step: Step)
    requires Enabled(s, configs, step)
    ensures Runs(s, configs, [step]) && After(s, configs, [step]) == Apply(s, configs, step)
  {
    assert [step][1..] == [];
  }

  lemma UnlistedStart(s: Host, configs: Configs, p: nat, target: string)
    requires s.holder == None && PcOf(s, p) == Idle && p in configs && target in configs[p]
             && Unlisted(configs[p], s.inventory)
    ensures var steps := [Acquire(p, StartCall(target)), Load(p), Release(p)];
            Runs(s, configs, steps) && After(s, configs, steps) == Move(s, p, Idle)
  {
    var s1 := Apply(s, configs, Acquire(p, StartCall(target)));
    var s2 := Apply(s1, configs, Load(p));
    Alone(s2, configs, Release(p));
    Prepend(s1, configs, Load(p), [Release(p)]);
    Prepend(s, configs, Acquire(p, StartCall(target)), [Load(p), Release(p)]);
    assert [Acquire(p, StartCall(target))] + [Load(p), Release(p)]
         == [Acquire(p, StartCall(target)), Load(p), Release(p)];
    SetPcTwice(s, p, Loading(target), Leaving);
    SetPcTwice(s, p, Leaving, Idle);
  }

  function StopSteps(p: nat, target: string, outcome: StopResult): seq<Step> {
    match outcome
    case UnknownModelToStop => []
    case Stopped => [Acquire(p, StopCall(target)), Check(p, true), Halt(p, true), Release(p)]
    case StopFailed => [Acquire(p, StopCall(target)), Check(p, true), Halt(p, false), Release(p)]
    case StateUnknown => [Acquire(p, StopCall(target)), Check(p, false), Release(p)]
    case AlreadyStopped => [Acquire(p, StopCall(target)), Check(p, true), Release(p)]
  }

  /** So is a stop command. */
  lemma {:induction false} UndisturbedStop(s: Host, configs: Configs, p: nat, target: string, silent: set<string>,
                                           landed: bool)
    requires s.holder == None && PcOf(s, p) == Idle && p in configs && target in configs[p]
    ensures var outcome := StopOutcome(target, configs[p], s.running, silent, landed);
            var steps := StopSteps(p, target, outcome);
            && Runs(s, configs, steps)
            && After(s, configs, steps)
                 == Move(s, p, Idle).(running := if outcome == Stopped then s.running - {target} else s.running)
  {
    var outcome := StopOutcome(target, configs[p], s.running, silent, landed);
    var acquire, check := Acquire(p, StopCall(target)), Check(p, outcome != StateUnknown);
    var s1 := Apply(s, configs, acquire);
    var s2 := Apply(s1, configs, check);
    SetPcTwice(s, p, Checking(target), PcOf(s2, p));
    SetPcTwice(s, p, PcOf(s2, p), Leaving);
    SetPcTwice(s, p, Leaving, Idle);
    if outcome == Stopped || outcome == StopFailed {
      var s3 := Apply(s2, configs, Halt(p, landed));
      Alone(s3, configs, Release(p));
      Prepend(s2, configs, Halt(p, landed), [Release(p)]);
      Prepend(s1, configs, check, [Halt(p, landed), Release(p)]);
      Prepend(s, configs, acquire, [check, Halt(p, landed), Release(p)]);
      assert StopSteps(p, target, outcome) == [acquire] + [check, Halt(p, landed), Release(p)];
    } else {
      Alone(s2, configs, Release(p));
      Prepend(s1, configs, check, [Release(p)]);
      Prepend(s, configs, acquire, [check, Release(p)]);
      assert StopSteps(p, target, outcome) == [acquire] + [check, Release(p)];
    }
  }
}
