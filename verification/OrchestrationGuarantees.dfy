// The system-level guarantees drawn from the invariant: what the hardware runs
// in every live state, and which gate lists it is ever handed.
module OrchestrationGuarantees {
  import opened TsnTypes
  import opened GateSchedule
  import opened GateControl
  import opened GateTimeline
  import opened Orchestration
  import opened OrchestrationSafety
  import opened OrchestrationDegradation
  import P = PtpClock
  import F = FrerStreams

  // In every reachable running, degraded or safe state, every managed port has
  // loaded in its hardware a schedule that passed all seven stages, and at any
  // instant the safety class gets room for its whole burst within its computed
  // delay of at most 500 microseconds. Failed updates, failed applies of the
  // safe-state schedule and lost clocks included.
  lemma SystemGuarantee(cfg: Config, boot: InitEnv, ops: seq<Op>, i: nat, t: int)
    requires Live(Run(Booted(cfg, boot), ops).state) && i < |Run(Booted(cfg, boot), ops).gcms|
    ensures var s := Run(Booted(cfg, boot), ops);
            var p := s.gcms[i].activeSchedule;
            && LastLoaded(s.trace, i) == Schedule(p) && Accepted(p) && WellFormed(p)
            && OpenTime(p, SAFETY_CRITICAL, t, WorstCaseDelayNs(p, SAFETY_CRITICAL)) >= 12_304
            && WorstCaseDelayNs(p, SAFETY_CRITICAL) <= 500_000
            && WorstCaseDelayNs(p, SAFETY_CRITICAL) <= p.cycleTimeNs
  {
    hide Booted, Run, Step, TraceSafe, SyncedSinceStart, Accepted, LastLoaded, Offset, OpenAt, StartOf, Count;
    RunInv(cfg, boot, ops);
    var s := Run(Booted(cfg, boot), ops);
    assert Consistent(s.gcms[i], s.trace) && s.gcms[i].scheduleActive && s.gcms[i].port == i;
    SafetyServiceGuarantee(s.gcms[i].activeSchedule, t);
  }

  // Position j is an observed synchronisation with no start between it and k.
  ghost predicate SyncedBefore(trace: seq<HalEvent>, j: nat, k: nat) {
    j < k <= |trace| && trace[j] == SyncObserved && forall m :: j < m < k ==> trace[m] != Started
  }

  lemma {:induction false} SyncPosition(trace: seq<HalEvent>) returns (j: nat)
    requires SyncedSinceStart(trace)
    ensures SyncedBefore(trace, j, |trace|)
  {
    var n := |trace| - 1;
    if trace[n] == SyncObserved {
      j := n;
    } else {
      j := SyncPosition(trace[..n]);
    }
  }

  lemma {:induction false} SafeAt(trace: seq<HalEvent>, k: nat)
    requires TraceSafe(trace) && k < |trace|
    ensures WriteAllowed(trace[k], trace[..k])
  {
    var n := |trace| - 1;
    if k == n {
    } else {
      SafeAt(trace[..n], k);
      assert trace[..n][..k] == trace[..k];
    }
  }

  // On every run, each gate list handed to the hardware is the all-open
  // pass-through, or passed all seven stages and was written after a tick that
  // observed a synchronised clock since the latest start.
  lemma OnlySafeWrites(cfg: Config, boot: InitEnv, ops: seq<Op>, k: nat)
    requires k < |Run(Booted(cfg, boot), ops).trace| && Run(Booted(cfg, boot), ops).trace[k].GclWrite?
    ensures var trace := Run(Booted(cfg, boot), ops).trace;
            trace[k].params == PASS_THROUGH
            || (Accepted(trace[k].params) && exists j :: SyncedBefore(trace, j, k))
  {
    hide Booted, Run, Step, Accepted, TraceSafe;
    RunInv(cfg, boot, ops);
    var trace := Run(Booted(cfg, boot), ops).trace;
    SafeAt(trace, k);
    if trace[k].params != PASS_THROUGH {
      var j := SyncPosition(trace[..k]);
      assert SyncedBefore(trace, j, k);
    }
  }

  // ---- What the marks in the trace stand for ------------------------------------------

  // after is before followed by gate writes only.
  predicate WritesOnly(before: seq<HalEvent>, after: seq<HalEvent>) {
    |before| <= |after| && after[..|before|] == before && forall k :: |before| <= k < |after| ==> after[k].GclWrite?
  }

  lemma {:induction false} LoadWrites(b: Ports, schedules: ScheduleArray, answers: int -> Status, i: nat)
    ensures WritesOnly(b.trace, LoadFrom(b, schedules, answers, i).0.trace)
    decreases |b.gcms| - i
  {
    hide Applied, Accepted, ApplyStatus;
    if i >= |b.gcms| {
    } else {
      LoadWrites(ApplyAt(b, i, schedules[i], answers(i)), schedules, answers, i + 1);
    }
  }

  lemma {:induction false} ApplyAllWrites(b: Ports, p: ScheduleParams, answers: int -> Status, i: nat)
    ensures WritesOnly(b.trace, ApplyAllFrom(b, p, answers, i).trace)
    decreases |b.gcms| - i
  {
    hide Applied, Accepted;
    if i >= |b.gcms| {
    } else {
      ApplyAllWrites(ApplyAt(b, i, p, answers(i)), p, answers, i + 1);
    }
  }

  lemma {:induction false} DisableAllWrites(b: Ports, answers: int -> Status, i: nat)
    ensures WritesOnly(b.trace, DisableAllFrom(b, answers, i).trace)
    decreases |b.gcms| - i
  {
    hide Disabled;
    if i >= |b.gcms| {
    } else {
      DisableAllWrites(DisableAt(b, i, answers(i)), answers, i + 1);
    }
  }

  predicate TickSeesSync(s: Orch, env: TickEnv) {
    s.initialised && s.state == PtpConverging && P.IsSynchronised(Observe(s, env).ptp)
  }

  // A tick marks an observed synchronisation exactly when the converging
  // orchestrator finds the clock synchronised, before any write of that tick,
  // and only a start marks a start.
  lemma TickMarks(s: Orch, env: TickEnv)
    ensures WritesOnly(s.trace + (if TickSeesSync(s, env) then [SyncObserved] else []), Tick(s, env).0.trace)
  {
    hide LoadFrom, ApplyAllFrom, DisableAllFrom, RegisterFrom, P.IsSynchronised, P.CurrentNs, Observe, Wrap64;
    assert s.trace + [] == s.trace;
    ObserveFrame(s, env);
    var o := Observe(s, env);
    ApplyAllWrites(PortsOf(o), o.cfg.safeStateSchedule, env.apply, 0);
    DisableAllWrites(PortsOf(o), env.disable, 0);
    if o.state == PtpConverging {
      var b := Ports(o.gcms, o.trace + [SyncObserved]);
      LoadWrites(b, o.cfg.schedules, env.apply, 0);
      var b' := LoadFrom(b, o.cfg.schedules, env.apply, 0).0;
      DisableAllWrites(b', env.disable, 0);
    }
  }

  // ---- The safe state ---------------------------------------------------------------------

  lemma AnalysedKeepsSchedule(g: Gcm, p: ScheduleParams)
    ensures Analysed(g, p).activeSchedule == g.activeSchedule
    ensures Accepted(p) <==> Validation(p) == Ok
  {
    hide Structural, Analysis;
  }

  // Whether port i has been put on the schedule p: only if p is acceptable and
  // the hardware took it, or p was there already.
  predicate PortSwitched(before: Gcm, after: Gcm, p: ScheduleParams, answer: Status) {
    && (after.activeSchedule == p <==> (Accepted(p) && answer == Ok) || before.activeSchedule == p)
    && (after.activeSchedule != p ==> after.activeSchedule == before.activeSchedule)
    && after.scheduleActive
  }

  lemma SafeStatePorts(s: Orch, trigger: ErrorCode, env: TickEnv, i: nat)
    requires PortsOk(PortsOf(s)) && AllActive(s.gcms) && SyncedSinceStart(s.trace) && i < |s.gcms|
    ensures var s' := EnterSafeState(s, trigger, env);
            |s'.gcms| == |s.gcms| && PortSwitched(s.gcms[i], s'.gcms[i], s.cfg.safeStateSchedule, env.apply(i))
  {
    hide Accepted, PortsOk, SyncedSinceStart, P.CurrentNs, ApplyAllFrom, Analysed;
    ApplyAllOk(PortsOf(s), s.cfg.safeStateSchedule, env.apply, 0);
    AnalysedKeepsSchedule(s.gcms[i], s.cfg.safeStateSchedule);
    AppliedPort(s.gcms[i], s.cfg.safeStateSchedule, env.apply(i));
  }

  // A tick that enters the safe state puts a port on the safe-state schedule
  // exactly when that schedule is itself acceptable and the hardware takes it;
  // nothing has validated it before, and otherwise the port keeps what it had.
  lemma SafeStateSchedule(s: Orch, env: TickEnv, i: nat)
    requires Inv(s) && (s.state == Running || s.state == Degraded) && i < |s.gcms|
    ensures var s' := Tick(s, env).0;
            s'.state == SafeState
            ==> |s'.gcms| == |s.gcms|
                && PortSwitched(s.gcms[i], s'.gcms[i], s.cfg.safeStateSchedule, env.apply(i))
  {
    hide Observe, EnterSafeState, PortSwitched, PortsOk, SyncedSinceStart, P.CurrentNs;
    ObserveFrame(s, env);
    var o := Observe(s, env);
    SafeStatePorts(o, if o.faults.holdover then PtpHoldoverExpired else DeadlineViolation, env, i);
    SafeStatePorts(o.(faults := o.faults.(ncDeadline := true)), DeadlineViolation, env, i);
  }

  // ---- Loading and shutting down ---------------------------------------------------------------

  lemma LoadedOn(b: Ports, i: nat)
    requires PortsOk(b) && i < |b.gcms| && b.gcms[i].scheduleActive
    ensures LastLoaded(b.trace, i) == Schedule(b.gcms[i].activeSchedule)
  {
    hide TraceSafe, Accepted, LastLoaded;
    assert Consistent(b.gcms[i], b.trace);
  }

  // A tick that starts running leaves every port on its own configured schedule.
  lemma RunningStartsAsConfigured(s: Orch, env: TickEnv, i: nat)
    requires Inv(s) && s.state == PtpConverging && i < |s.gcms|
    ensures var s' := Tick(s, env).0;
            s'.state == Running
            ==> |s'.gcms| == |s.gcms|
                && s'.gcms[i].scheduleActive && s'.gcms[i].activeSchedule == s.cfg.schedules[i]
                && LastLoaded(s'.trace, i) == Schedule(s.cfg.schedules[i])
  {
    hide PortsOk, SyncedSinceStart, DisableAllFrom, RegisterFrom, LoadFrom, Observe, P.CurrentNs, P.IsSynchronised;
    hide Wrap64;
    TickInv(s, env);
    ObserveFrame(s, env);
    var o := Observe(s, env);
    MarkOk(PortsOf(o), SyncObserved);
    LoadFromOk(Ports(o.gcms, o.trace + [SyncObserved]), o.cfg.schedules, env.apply, 0);
    if Tick(s, env).0.state == Running { LoadedOn(PortsOf(Tick(s, env).0), i); }
  }

  // Port i is in pass-through if its write succeeded, and otherwise keeps the
  // schedule it had, active and loaded.
  predicate PortShutDown(before: Orch, after: Orch, answers: int -> Status, i: nat)
    requires i < |before.gcms|
  {
    && |after.gcms| == |before.gcms|
    && if answers(i) == Ok
       then !after.gcms[i].scheduleActive && LastLoaded(after.trace, i) == Schedule(PASS_THROUGH)
       else after.gcms[i] == before.gcms[i] && LastLoaded(after.trace, i) == LastLoaded(before.trace, i)
  }

  // Stopping, and entering the fault state, shut down exactly the ports whose
  // write succeeds.
  lemma ShutdownExact(s: Orch, trigger: ErrorCode, env: TickEnv, i: nat)
    requires Inv(s) && i < |s.gcms|
    ensures Stop(s, env.disable).state == Uninitialized && PortShutDown(s, Stop(s, env.disable), env.disable, i)
    ensures EnterFault(s, trigger, env).state == Fault
            && PortShutDown(s, EnterFault(s, trigger, env), env.disable, i)
  {
    hide PortsOk, SyncedSinceStart, DisableAllFrom, LastLoaded, P.CurrentNs;
    DisableAllExact(PortsOf(s), env.disable, 0);
  }

  // ---- Initialising again ---------------------------------------------------------------------

  lemma PassThroughRejected()
    ensures !Accepted(PASS_THROUGH)
  {
    assert PASS_THROUGH.gcl[0].gateStates == ALL_QUEUES_OPEN;
  }

  // Initialising a live object once more constructs its managers afresh. A port
  // then agrees with its hardware exactly when it had no active schedule:
  // otherwise the schedule stays loaded and its manager no longer knows of it.
  lemma ReinitForgets(s: Orch, cfg: Config, env: InitEnv, i: nat)
    requires Inv(s) && i < |s.gcms| && i < cfg.schedulePortCount
    requires Init(s, cfg, env).1 == Ok
    ensures var s' := Init(s, cfg, env).0;
            && i < |s'.gcms| && !s'.gcms[i].scheduleActive && LastLoaded(s'.trace, i) == LastLoaded(s.trace, i)
            && (Consistent(s'.gcms[i], s'.trace) <==> !s.gcms[i].scheduleActive)
  {
    hide LastLoaded, Accepted, TraceSafe, SyncedSinceStart, FilterFrom, PrevalidationFrom, P.Init;
    PassThroughRejected();
    assert Consistent(s.gcms[i], s.trace) && s.gcms[i].port == i;
  }

  // ---- Prevalidation -----------------------------------------------------------------------

  predicate HasWindow(p: ScheduleParams) {
    exists i :: 0 <= i < p.entryCount && i < 256 && p.gcl[i].gateStates == 0x80
  }

  // The single loop of the prevalidation accepts a schedule exactly when the
  // manager's stages 1 to 4 and 6 do. Its errors are those of the stages, but it
  // does not tell too many entries from none nor a long cycle from a short one.
  lemma PrevalidationRefines(p: ScheduleParams)
    ensures PrevalidationOf(p) == Ok <==> Prevalidated(p)
    ensures PrevalidationOf(p) == Ok <==> Stages(p, 4) && HasWindow(p)
    ensures PrevalidationOf(p) == Err(GclEmpty) <==> !Stages(p, 1)
    ensures PrevalidationOf(p) == Err(CycleTimeTooShort) <==> Stages(p, 1) && !Stages(p, 2)
    ensures PrevalidationOf(p) == Err(ZeroIntervalEntry) <==> Stages(p, 2) && !Stages(p, 3)
    ensures PrevalidationOf(p) == Err(IntervalSumMismatch) <==> Stages(p, 3) && !Stages(p, 4)
    ensures PrevalidationOf(p) == Err(SafetyCriticalWindowAbsent) <==> Stages(p, 4) && !HasWindow(p)
  {
    hide StartOf;
  }

  // Schedule j is the first from i on that prevalidation rejects.
  predicate FirstRejected(cfg: Config, i: nat, j: nat)
    requires i <= j < cfg.schedulePortCount <= MAX_SWITCH_PORTS
  {
    !Prevalidated(cfg.schedules[j]) && forall k :: i <= k < j ==> Prevalidated(cfg.schedules[k])
  }

  // A configuration passes exactly when each of its schedules does, and fails
  // with the error of the first that does not.
  lemma {:induction false} PrevalidationAll(cfg: Config, i: nat)
    requires cfg.schedulePortCount <= MAX_SWITCH_PORTS
    ensures PrevalidationFrom(cfg, i) == Ok
       <==> forall j :: i <= j < cfg.schedulePortCount ==> Prevalidated(cfg.schedules[j])
    ensures PrevalidationFrom(cfg, i) != Ok ==>
              exists j :: i <= j < cfg.schedulePortCount && FirstRejected(cfg, i, j)
                          && PrevalidationFrom(cfg, i) == PrevalidationOf(cfg.schedules[j])
    decreases cfg.schedulePortCount - i
  {
    hide PrevalidationOf, Prevalidated;
    if i >= cfg.schedulePortCount {
    } else {
      PrevalidationRefines(cfg.schedules[i]);
      PrevalidationAll(cfg, i + 1);
      if PrevalidationFrom(cfg, i) != Ok {
        if !Prevalidated(cfg.schedules[i]) {
          assert FirstRejected(cfg, i, i);
        } else {
          var j :| i + 1 <= j < cfg.schedulePortCount && FirstRejected(cfg, i + 1, j)
                   && PrevalidationFrom(cfg, i + 1) == PrevalidationOf(cfg.schedules[j]);
          assert FirstRejected(cfg, i, j);
        }
      }
    }
  }

  // ---- Initialisation ------------------------------------------------------------------------

  // Filters are installed in order up to the first refusal, whose error is told.
  lemma {:induction false} FiltersExact(answers: int -> Status, n: nat, i: nat)
    requires i <= n
    ensures FilterFrom(answers, n, i) == Ok <==> forall k :: i <= k < n ==> answers(k) == Ok
    ensures FilterFrom(answers, n, i) != Ok ==>
              exists k :: i <= k < n && FilterFrom(answers, n, i) == answers(k)
                          && forall j :: i <= j < k ==> answers(j) == Ok
    decreases n - i
  {
    if i == n {
    } else {
      FiltersExact(answers, n, i + 1);
    }
  }

  // Initialisation succeeds exactly when the configuration is sound, the chip,
  // the VLAN table, every stream filter and the frequency register answer, and
  // every schedule passes. What fails first is told; whatever fails before the
  // managers are constructed leaves nothing but the configuration behind.
  lemma InitExact(s: Orch, cfg: Config, env: InitEnv)
    ensures var (s', st) := Init(s, cfg, env);
            var sound := cfg.tickPeriodUs > 0 && cfg.schedulePortCount <= 16;
            var filtered := forall k :: 0 <= k < cfg.streamFilterCount ==> env.filter(k) == Ok;
            var passed := forall j :: 0 <= j < cfg.schedulePortCount && j < 16 ==> Prevalidated(cfg.schedules[j]);
            var clocked := 1 <= cfg.ptp.portCount <= 16 && env.ptpWrite == Ok;
            && (st == Ok <==> sound && env.hal == Ok && env.vlan == Ok && filtered && passed && clocked)
            && (!sound ==> (s', st) == (s, Err(InvalidArgument)))
            && (sound && env.hal != Ok ==> st == env.hal)
            && (sound && env.hal == Ok && env.vlan != Ok ==> st == env.vlan)
            && (sound && env.hal == env.vlan == Ok && !filtered ==>
                  exists k :: 0 <= k < cfg.streamFilterCount && st == env.filter(k))
            && (sound && !(env.hal == env.vlan == Ok && filtered && passed) ==> s' == s.(cfg := cfg))
            && (sound && env.hal == env.vlan == Ok && filtered && passed && !clocked ==>
                  st == (if 1 <= cfg.ptp.portCount <= 16 then env.ptpWrite else Err(InvalidArgument))
                  && s'.initialised == s.initialised && s'.state == s.state && s'.frer == s.frer)
  {
    hide Prevalidated;
    if cfg.schedulePortCount <= 16 { PrevalidationAll(cfg, 0); }
    FiltersExact(env.filter, cfg.streamFilterCount, 0);
  }

  // Before its first initialisation an orchestrator refuses everything.
  lemma CreatedRefuses(env: TickEnv, port: u8, p: ScheduleParams, answer: Status, frame: F.StreamEntry)
    ensures Tick(Created(), env) == (Created(), Err(NotInitialised))
    ensures Start(Created()) == (Created(), Err(NotInitialised))
    ensures Update(Created(), port, p, answer) == (Created(), Err(OperationNotPermitted))
    ensures F.Register(Created().frer, frame, answer) == (Created().frer, Err(NotInitialised))
    ensures Created().state == Uninitialized && Created().gcms == [] && Created().faults == NO_FAULTS
    ensures Created().history == [] && Created().trace == []
  {
  }

  // A successful initialisation leaves an initialising orchestrator with an
  // empty stream table, an inactive manager on every configured port and a
  // clock just initialised; faults, log and clock of an earlier life stay.
  lemma InitialisedState(s: Orch, cfg: Config, env: InitEnv)
    requires Init(s, cfg, env).1 == Ok
    ensures var s' := Init(s, cfg, env).0;
            && s'.initialised && s'.state == Initializing && s'.cfg == cfg && s'.frer == F.Frer(true, [])
            && |s'.gcms| >= cfg.schedulePortCount
            && (forall j :: 0 <= j < cfg.schedulePortCount ==>
                  s'.gcms[j].port == j && !s'.gcms[j].scheduleActive && !s'.gcms[j].ncResultValid)
            && (forall j :: cfg.schedulePortCount <= j < |s'.gcms| ==> j < |s.gcms| && s'.gcms[j] == s.gcms[j])
            && s'.ptp == P.Init(s.ptp, cfg.ptp, Ok).0
            && s'.faults == s.faults && s'.history == s.history && s'.trace == s.trace
            && s'.monotonicNs == s.monotonicNs && s'.lastHealthCheckNs == s.lastHealthCheckNs
  {
    hide PrevalidationFrom, FilterFrom;
  }

  ghost predicate LateFailure(s: Status, answers: int -> Status, ports: nat) {
    s == Err(GuardBandViolation) || s == Err(DeadlineViolation) || exists i :: 0 <= i < ports && s == answers(i)
  }

  lemma LateStatus(p: ScheduleParams, answer: Status)
    requires Prevalidated(p)
    ensures ApplyStatus(p, answer) in {answer, Err(GuardBandViolation), Err(DeadlineViolation)}
  {
    PrevalidatedLoad(p);
  }

  lemma {:induction false} LoadFailure(b: Ports, schedules: ScheduleArray, answers: int -> Status, i: nat)
    requires forall j :: 0 <= j < |b.gcms| ==> Prevalidated(schedules[j])
    ensures var s := LoadFrom(b, schedules, answers, i).1; s.Err? ==> LateFailure(s, answers, |b.gcms|)
    decreases |b.gcms| - i
  {
    hide Prevalidated, Applied, Accepted, ApplyEvents;
    if i >= |b.gcms| {
    } else {
      LateStatus(schedules[i], answers(i));
      LoadFailure(ApplyAt(b, i, schedules[i], answers(i)), schedules, answers, i + 1);
    }
  }

  predicate Configured(s: Orch) {
    s.initialised ==> s.cfg.schedulePortCount == |s.gcms|
                      && forall j :: 0 <= j < |s.gcms| ==> Prevalidated(s.cfg.schedules[j])
  }

  lemma BootConfigures(cfg: Config, boot: InitEnv)
    ensures Configured(Booted(cfg, boot))
  {
    hide Prevalidated, FilterFrom, P.Init;
    if cfg.schedulePortCount <= MAX_SWITCH_PORTS { PrevalidationAll(cfg, 0); }
  }

  lemma {:induction false} LoopLengthsFrom(
    b: Ports, p: ScheduleParams, schedules: ScheduleArray, apply: int -> Status, disable: int -> Status, i: nat)
    ensures |LoadFrom(b, schedules, apply, i).0.gcms| == |b.gcms|
    ensures |ApplyAllFrom(b, p, apply, i).gcms| == |b.gcms|
    ensures |DisableAllFrom(b, disable, i).gcms| == |b.gcms|
    decreases |b.gcms| - i
  {
    hide Applied, ApplyStatus, ApplyEvents, Disabled;
    if i >= |b.gcms| {
    } else {
      LoopLengthsFrom(ApplyAt(b, i, schedules[i], apply(i)), p, schedules, apply, disable, i + 1);
      LoopLengthsFrom(ApplyAt(b, i, p, apply(i)), p, schedules, apply, disable, i + 1);
      LoopLengthsFrom(DisableAt(b, i, disable(i)), p, schedules, apply, disable, i + 1);
    }
  }

  lemma LoopLengths(b: Ports, p: ScheduleParams, schedules: ScheduleArray, apply: int -> Status, disable: int -> Status)
    ensures |LoadFrom(b, schedules, apply, 0).0.gcms| == |b.gcms|
    ensures |ApplyAllFrom(b, p, apply, 0).gcms| == |b.gcms|
    ensures |DisableAllFrom(b, disable, 0).gcms| == |b.gcms|
  {
    LoopLengthsFrom(b, p, schedules, apply, disable, 0);
  }

  lemma DegradationKeepsPorts(s: Orch, env: TickEnv)
    ensures |TickDegradation(s, env).gcms| == |s.gcms|
  {
    hide P.CurrentNs, ApplyAllFrom;
    LoopLengths(PortsOf(s), s.cfg.safeStateSchedule, s.cfg.schedules, env.apply, env.disable);
  }

  lemma FaultKeepsPorts(s: Orch, trigger: ErrorCode, env: TickEnv)
    ensures |EnterFault(s, trigger, env).gcms| == |s.gcms|
  {
    hide P.CurrentNs, DisableAllFrom;
    LoopLengths(PortsOf(s), s.cfg.safeStateSchedule, s.cfg.schedules, env.apply, env.disable);
  }

  lemma ConvergeKeepsPorts(s: Orch, nowNs: u64, env: TickEnv)
    ensures |Converge(s, nowNs, env).0.gcms| == |s.gcms|
  {
    hide P.IsSynchronised, RegisterFrom, LoadFrom, EnterFault, Wrap64;
    var b := Ports(s.gcms, s.trace + [SyncObserved]);
    LoopLengths(b, s.cfg.safeStateSchedule, s.cfg.schedules, env.apply, env.disable);
    var (b', loaded) := LoadFrom(b, s.cfg.schedules, env.apply, 0);
    if loaded.Err? { FaultKeepsPorts(WithPorts(s, b'), loaded.error, env); }
    var armed := if s.convergenceStartNs == 0 then s.(convergenceStartNs := s.monotonicNs) else s;
    FaultKeepsPorts(armed, PtpNotSynchronised, env);
  }

  lemma StepKeepsConfig(s: Orch, op: Op)
    ensures Step(s, op).cfg == s.cfg && Step(s, op).initialised == s.initialised
    ensures |Step(s, op).gcms| == |s.gcms|
  {
    hide P.CurrentNs, Observe, TickDegradation, Converge, DisableAllFrom, F.Receive, P.Sync, Applied, ApplyEvents;
    match op
    case TickOp(env) =>
      ObserveFrame(s, env);
      var o := Observe(s, env);
      var d := TickDegradation(o, env);
      DegradationKeepsPorts(o, env);
      DegradationKeepsRest(o, env);
      ConvergeKeepsPorts(d, P.CurrentNs(s.ptp, env.start), env);
      ConvergeKeepsRest(d, P.CurrentNs(s.ptp, env.start), env);
    case StopOp(a) => LoopLengths(PortsOf(s), s.cfg.safeStateSchedule, s.cfg.schedules, a, a);
    case _ =>
  }

  lemma {:induction false} RunConfigured(cfg: Config, boot: InitEnv, ops: seq<Op>)
    ensures Configured(Run(Booted(cfg, boot), ops))
  {
    hide Booted, Step, Prevalidated;
    if ops == [] {
      BootConfigures(cfg, boot);
    } else {
      RunConfigured(cfg, boot, ops[..|ops| - 1]);
      StepKeepsConfig(Run(Booted(cfg, boot), ops[..|ops| - 1]), ops[|ops| - 1]);
    }
  }

  // After a successful initialisation, loading the configured schedules can
  // only fail for a window too narrow, a missed deadline, or an answer of the
  // hardware; these are what the prevalidation leaves unchecked.
  lemma LoadFailsLate(cfg: Config, boot: InitEnv, ops: seq<Op>, b: Ports, answers: int -> Status)
    requires Run(Booted(cfg, boot), ops).initialised && |b.gcms| == |Run(Booted(cfg, boot), ops).gcms|
    ensures var s := LoadFrom(b, Run(Booted(cfg, boot), ops).cfg.schedules, answers, 0).1;
            s.Err? ==> LateFailure(s, answers, |b.gcms|)
  {
    hide Booted, Run, Prevalidated, LoadFrom, LateFailure;
    RunConfigured(cfg, boot, ops);
    LoadFailure(b, Run(Booted(cfg, boot), ops).cfg.schedules, answers, 0);
  }

  function TwoEntries(a: GclEntry, b: GclEntry): (gcl: GclArray)
    ensures gcl[0] == a && gcl[1] == b
  {
    seq(MAX_GCL_ENTRIES, i => if i == 0 then a else b)
  }

  // A configuration that passes initialisation although its schedule can never
  // be loaded: the safety-only window is narrower than the guard band.
  const NARROW: ScheduleParams := ScheduleParams(
    100_000, PtpTimestamp(0, 0), 100, 2,
    TwoEntries(GclEntry(SAFETY_ONLY_OPEN, 10_000), GclEntry(ALL_QUEUES_OPEN, 90_000)))

  lemma PrevalidatedButNotLoadable()
    ensures Prevalidated(NARROW) && Validation(NARROW) == Err(GuardBandViolation)
  {
    var p := NARROW;
    assert StartOf(p.gcl, 1) == StartOf(p.gcl, 0) + 10_000;
    assert StartOf(p.gcl, 2) == StartOf(p.gcl, 1) + 90_000;
    assert p.gcl[0].gateStates == SAFETY_ONLY_OPEN;
  }
}
