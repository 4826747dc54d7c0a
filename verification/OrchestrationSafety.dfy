// What every reachable state of the orchestrator guarantees about the gate
// hardware, over all runs and all hardware answers.
module OrchestrationSafety {
  import opened TsnTypes
  import opened GateSchedule
  import opened GateControl
  import opened GateTimeline
  import opened Orchestration
  import P = PtpClock
  import F = FrerStreams

  // ---- The hardware trace -----------------------------------------------------

  // Since the latest start, some tick has observed a synchronised clock.
  predicate SyncedSinceStart(trace: seq<HalEvent>) {
    trace != [] && (trace[|trace| - 1] == SyncObserved
                    || (trace[|trace| - 1] != Started && SyncedSinceStart(trace[..|trace| - 1])))
  }

  predicate WriteAllowed(e: HalEvent, before: seq<HalEvent>) {
    e.GclWrite? && e.params != PASS_THROUGH ==> Accepted(e.params) && SyncedSinceStart(before)
  }

  predicate TraceSafe(trace: seq<HalEvent>) {
    trace == [] || (TraceSafe(trace[..|trace| - 1]) && WriteAllowed(trace[|trace| - 1], trace[..|trace| - 1]))
  }

  lemma TraceAppend(trace: seq<HalEvent>, e: HalEvent)
    ensures TraceSafe(trace + [e]) <==> TraceSafe(trace) && WriteAllowed(e, trace)
    ensures SyncedSinceStart(trace + [e]) <==> e == SyncObserved || (e != Started && SyncedSinceStart(trace))
  {
    assert (trace + [e])[..|trace|] == trace;
  }

  // ---- The ports ----------------------------------------------------------------

  // Each manager stands at the position of its port.
  predicate Numbered(gcms: seq<Gcm>) {
    forall i :: 0 <= i < |gcms| ==> gcms[i].port == i
  }

  predicate PortsOk(b: Ports) {
    && Numbered(b.gcms)
    && (forall i :: 0 <= i < |b.gcms| ==> Consistent(b.gcms[i], b.trace))
    && TraceSafe(b.trace)
  }

  lemma AppliedPort(g: Gcm, p: ScheduleParams, answer: Status)
    ensures Applied(g, p, answer).port == g.port
    ensures g.scheduleActive ==> Applied(g, p, answer).scheduleActive
    ensures ApplyStatus(p, answer) == Ok
            ==> Applied(g, p, answer).scheduleActive && Applied(g, p, answer).activeSchedule == p
  {
    hide Validation, Structural, Analysis;
  }

  lemma ApplyAtOk(b: Ports, i: nat, p: ScheduleParams, answer: Status)
    requires PortsOk(b) && i < |b.gcms| && SyncedSinceStart(b.trace)
    ensures PortsOk(ApplyAt(b, i, p, answer)) && SyncedSinceStart(ApplyAt(b, i, p, answer).trace)
  {
    hide Consistent, Applied, Accepted, SyncedSinceStart, TraceSafe;
    var b' := ApplyAt(b, i, p, answer);
    if Accepted(p) {
      TraceAppend(b.trace, GclWrite(b.gcms[i].port, p, answer));
    } else {
      assert b'.trace == b.trace;
    }
    ApplyOneConsistent(b.gcms[i], b.trace, p, answer);
    AppliedPort(b.gcms[i], p, answer);
    forall j | 0 <= j < |b.gcms| && j != i ensures Consistent(b'.gcms[j], b'.trace) {
      ApplyKeepsConsistent(b.gcms[i], b.gcms[j], b.trace, p, answer);
    }
  }

  lemma DisableAtOk(b: Ports, i: nat, answer: Status)
    requires PortsOk(b) && i < |b.gcms|
    ensures PortsOk(DisableAt(b, i, answer))
  {
    hide Consistent, Accepted, SyncedSinceStart, TraceSafe;
    var b' := DisableAt(b, i, answer);
    TraceAppend(b.trace, GclWrite(b.gcms[i].port, PASS_THROUGH, answer));
    DisableOneConsistent(b.gcms[i], b.trace, answer);
    forall j | 0 <= j < |b.gcms| && j != i ensures Consistent(b'.gcms[j], b'.trace) {
      DisableKeepsConsistent(b.gcms[i], b.gcms[j], b.trace, answer);
    }
  }

  lemma {:induction false} LoadFromOk(b: Ports, schedules: ScheduleArray, answers: int -> Status, i: nat)
    requires PortsOk(b) && SyncedSinceStart(b.trace)
    ensures var (b', s) := LoadFrom(b, schedules, answers, i);
            && PortsOk(b') && SyncedSinceStart(b'.trace) && |b'.gcms| == |b.gcms|
            && (forall j :: 0 <= j < i && j < |b.gcms| ==> b'.gcms[j] == b.gcms[j])
            && (s == Ok ==> forall j :: i <= j < |b.gcms| ==>
                              b'.gcms[j].scheduleActive && b'.gcms[j].activeSchedule == schedules[j])
    decreases |b.gcms| - i
  {
    hide Consistent, Applied, Accepted, SyncedSinceStart, TraceSafe, PortsOk, ApplyStatus;
    if i >= |b.gcms| {
    } else {
      ApplyAtOk(b, i, schedules[i], answers(i));
      AppliedPort(b.gcms[i], schedules[i], answers(i));
      LoadFromOk(ApplyAt(b, i, schedules[i], answers(i)), schedules, answers, i + 1);
    }
  }

  lemma {:induction false} ApplyAllOk(b: Ports, p: ScheduleParams, answers: int -> Status, i: nat)
    requires PortsOk(b) && SyncedSinceStart(b.trace)
    ensures var b' := ApplyAllFrom(b, p, answers, i);
            && PortsOk(b') && SyncedSinceStart(b'.trace) && |b'.gcms| == |b.gcms|
            && (forall j :: 0 <= j < i && j < |b.gcms| ==> b'.gcms[j] == b.gcms[j])
            && (forall j :: i <= j < |b.gcms| ==> b'.gcms[j] == Applied(b.gcms[j], p, answers(j)))
    decreases |b.gcms| - i
  {
    hide Consistent, Applied, Accepted, SyncedSinceStart, TraceSafe, PortsOk;
    if i >= |b.gcms| {
    } else {
      ApplyAtOk(b, i, p, answers(i));
      ApplyAllOk(ApplyAt(b, i, p, answers(i)), p, answers, i + 1);
    }
  }

  lemma PortNumber(b: Ports, i: nat)
    requires PortsOk(b) && i < |b.gcms|
    ensures b.gcms[i].port == i
  {
  }

  lemma {:induction false} DisableAllExact(b: Ports, answers: int -> Status, i: nat)
    requires PortsOk(b)
    ensures PortsOk(DisableAllFrom(b, answers, i)) && |DisableAllFrom(b, answers, i).gcms| == |b.gcms|
    ensures forall j :: 0 <= j < |b.gcms| ==>
              DisableAllFrom(b, answers, i).gcms[j] == if j < i then b.gcms[j] else Disabled(b.gcms[j], answers(j))
    ensures forall j :: 0 <= j < i && j < |b.gcms| ==>
              LastLoaded(DisableAllFrom(b, answers, i).trace, j) == LastLoaded(b.trace, j)
    ensures forall j :: i <= j < |b.gcms| ==>
              LastLoaded(DisableAllFrom(b, answers, i).trace, j)
              == if answers(j) == Ok then Schedule(PASS_THROUGH) else LastLoaded(b.trace, j)
    decreases |b.gcms| - i
  {
    hide PortsOk, LastLoaded, Disabled;
    if i >= |b.gcms| {
    } else {
      var b' := DisableAt(b, i, answers(i));
      DisableAtOk(b, i, answers(i));
      PortNumber(b, i);
      DisableAllExact(b', answers, i + 1);
      forall j | 0 <= j < |b.gcms|
        ensures LastLoaded(b'.trace, j)
                == if j == i && answers(i) == Ok then Schedule(PASS_THROUGH) else LastLoaded(b.trace, j)
      {
        LastLoadedAppend(b.trace, GclWrite(i, PASS_THROUGH, answers(i)), j);
      }
    }
  }

  // ---- The invariant ---------------------------------------------------------------

  predicate Live(state: State) {
    state == Running || state == Degraded || state == SafeState
  }

  predicate AllActive(gcms: seq<Gcm>) {
    forall i :: 0 <= i < |gcms| ==> gcms[i].scheduleActive
  }

  predicate Inv(s: Orch) {
    && PortsOk(PortsOf(s))
    && (Live(s.state) ==> AllActive(s.gcms) && SyncedSinceStart(s.trace))
    && (s.state == Degraded ==> s.faults.DegradeTrigger() && !s.faults.SafeStateTrigger())
    && (s.state == SafeState ==> s.faults.SafeStateTrigger())
    && (s.state != Uninitialized ==> s.initialised)
  }

  lemma EnterSafeStateInv(s: Orch, trigger: ErrorCode, env: TickEnv)
    requires PortsOk(PortsOf(s)) && AllActive(s.gcms) && SyncedSinceStart(s.trace)
    requires s.faults.SafeStateTrigger() && s.initialised
    ensures Inv(EnterSafeState(s, trigger, env))
  {
    hide PortsOk, SyncedSinceStart, Applied, P.CurrentNs;
    var p := s.cfg.safeStateSchedule;
    ApplyAllOk(PortsOf(s), p, env.apply, 0);
    forall i | 0 <= i < |s.gcms| ensures Applied(s.gcms[i], p, env.apply(i)).scheduleActive {
      AppliedPort(s.gcms[i], p, env.apply(i));
    }
  }

  lemma EnterFaultInv(s: Orch, trigger: ErrorCode, env: TickEnv)
    requires PortsOk(PortsOf(s)) && s.initialised
    ensures Inv(EnterFault(s, trigger, env))
  {
    hide PortsOk, SyncedSinceStart, P.CurrentNs;
    DisableAllExact(PortsOf(s), env.disable, 0);
  }

  // The observing half of a tick touches neither ports, trace nor state.
  lemma ObserveFrame(s: Orch, env: TickEnv)
    ensures var o := Observe(s, env);
            && PortsOf(o) == PortsOf(s) && o.state == s.state && o.cfg == s.cfg
            && o.initialised == s.initialised && o.history == s.history
            && o.convergenceStartNs == s.convergenceStartNs
            && o.monotonicNs == Wrap64(s.monotonicNs + s.cfg.tickPeriodUs * 1_000)
            && s.faults.Within(o.faults) && o.faults.ncDeadline == s.faults.ncDeadline
  {
    hide P.Tick, F.Tick, P.CurrentNs, AnyMismatch, MacsecTotal, Wrap64;
  }

  // A degraded state that came from a tick has a degrade bit and no safe-state
  // bit; the machine acts on the faults just observed, so this is its own
  // conclusion rather than an assumption about the observation.
  lemma DegradationInv(s: Orch, env: TickEnv)
    requires PortsOk(PortsOf(s)) && (Live(s.state) ==> AllActive(s.gcms) && SyncedSinceStart(s.trace))
    requires s.state == Degraded ==> s.faults.DegradeTrigger()
    requires s.state == SafeState ==> s.faults.SafeStateTrigger()
    requires s.state != Uninitialized ==> s.initialised
    ensures Inv(TickDegradation(s, env))
  {
    hide PortsOk, SyncedSinceStart, P.CurrentNs, EnterSafeState;
    if s.state == Running || s.state == Degraded {
      if s.faults.SafeStateTrigger() {
        EnterSafeStateInv(s, if s.faults.holdover then PtpHoldoverExpired else DeadlineViolation, env);
      } else if s.state == Degraded && s.faults.halIntegrity {
        EnterSafeStateInv(s.(faults := s.faults.(ncDeadline := true)), DeadlineViolation, env);
      }
    }
  }

  lemma NotLive(state: State)
    ensures state == PtpConverging ==> !Live(state)
  {
  }

  // Marking a start or an observed synchronisation writes no gate list.
  lemma MarkOk(b: Ports, e: HalEvent)
    requires PortsOk(b) && !e.GclWrite?
    ensures PortsOk(Ports(b.gcms, b.trace + [e]))
    ensures SyncedSinceStart(b.trace + [e]) <==> e == SyncObserved || (e != Started && SyncedSinceStart(b.trace))
  {
    hide SyncedSinceStart, TraceSafe, Accepted;
    TraceAppend(b.trace, e);
    forall i | 0 <= i < |b.gcms| ensures Consistent(b.gcms[i], b.trace + [e]) {
      LastLoadedAppend(b.trace, e, b.gcms[i].port);
    }
  }

  lemma ConvergeSynchronisedInv(s: Orch, nowNs: u64, env: TickEnv)
    requires Inv(s) && s.state == PtpConverging
    ensures Inv(ConvergeSynchronised(s, nowNs, env).0)
  {
    hide PortsOk, SyncedSinceStart, EnterFault, RegisterFrom, LoadFrom, Live;
    var b := Ports(s.gcms, s.trace + [SyncObserved]);
    MarkOk(PortsOf(s), SyncObserved);
    LoadFromOk(b, s.cfg.schedules, env.apply, 0);
    var (b', loaded) := LoadFrom(b, s.cfg.schedules, env.apply, 0);
    var s1 := WithPorts(s, b');
    if loaded.Err? {
      EnterFaultInv(s1, loaded.error, env);
    } else {
      assert Inv(s1) by { assert !Live(s.state) by { NotLive(s.state); } }
    }
  }

  lemma ConvergeInv(s: Orch, nowNs: u64, env: TickEnv)
    requires Inv(s)
    ensures Inv(Converge(s, nowNs, env).0)
  {
    hide PortsOk, SyncedSinceStart, P.IsSynchronised, EnterFault, LoadFrom, RegisterFrom, Wrap64;
    if s.state == PtpConverging {
      if P.IsSynchronised(s.ptp) {
        ConvergeSynchronisedInv(s, nowNs, env);
      } else {
        var s1 := if s.convergenceStartNs == 0 then s.(convergenceStartNs := s.monotonicNs) else s;
        EnterFaultInv(s1, PtpNotSynchronised, env);
      }
    }
  }

  lemma TickInv(s: Orch, env: TickEnv)
    requires Inv(s)
    ensures Inv(Tick(s, env).0)
  {
    hide PortsOk, SyncedSinceStart, P.CurrentNs, Observe, TickDegradation, Converge;
    ObserveFrame(s, env);
    var o := Observe(s, env);
    DegradationInv(o, env);
    ConvergeInv(TickDegradation(o, env), P.CurrentNs(s.ptp, env.start), env);
  }

  lemma UpdateInv(s: Orch, port: u8, p: ScheduleParams, answer: Status)
    requires Inv(s)
    ensures Inv(Update(s, port, p, answer).0)
  {
    hide PortsOk, SyncedSinceStart, Applied, ApplyStatus, ApplyEvents;
    var i := PortIndex(s.gcms, port, 0);
    if s.state == Running && i < |s.gcms| {
      ApplyAtOk(PortsOf(s), i, p, answer);
      AppliedPort(s.gcms[i], p, answer);
    }
  }

  lemma StepInv(s: Orch, op: Op)
    requires Inv(s)
    ensures Inv(Step(s, op))
  {
    hide PortsOk, SyncedSinceStart, Tick, Update, F.Receive, P.Sync;
    match op
    case TickOp(env) => TickInv(s, env);
    case UpdateOp(port, p, a) => UpdateInv(s, port, p, a);
    case SyncOp(_, _, _, _) =>
    case FrameOp(_, _, _, _) =>
    case StartOp => MarkOk(PortsOf(s), Started);
    case StopOp(a) => DisableAllExact(PortsOf(s), a, 0);
  }

  lemma BootedInv(cfg: Config, env: InitEnv)
    ensures Inv(Booted(cfg, env))
  {
    hide P.Init, FilterFrom, PrevalidationFrom;
  }

  // Whatever configuration is offered, whatever the hardware answers and in
  // whatever order ticks, updates, frames, Sync messages, starts and stops come.
  lemma {:induction false} RunInv(cfg: Config, boot: InitEnv, ops: seq<Op>)
    ensures Inv(Run(Booted(cfg, boot), ops))
  {
    hide Inv, Booted, Step;
    if ops == [] {
      BootedInv(cfg, boot);
    } else {
      RunInv(cfg, boot, ops[..|ops| - 1]);
      StepInv(Run(Booted(cfg, boot), ops[..|ops| - 1]), ops[|ops| - 1]);
    }
  }

  lemma {:induction false} PortAt(gcms: seq<Gcm>, port: u8, i: nat)
    requires i <= |gcms| && forall k :: 0 <= k < |gcms| ==> gcms[k].port == k
    requires i <= port
    ensures PortIndex(gcms, port, i) == if port < |gcms| then port else |gcms|
    decreases |gcms| - i
  {
    if i >= |gcms| || gcms[i].port == port {
    } else {
      PortAt(gcms, port, i + 1);
    }
  }

  // Outside the running state every update is refused and changes nothing.
  lemma UpdateRefused(s: Orch, port: u8, p: ScheduleParams, answer: Status)
    requires s.state != Running
    ensures Update(s, port, p, answer) == (s, Err(OperationNotPermitted))
  {
  }

  // With the managers in port order, as on every reachable state, an update
  // reaches exactly the port it names and is refused for one without a manager.
  lemma UpdateReachesPort(s: Orch, port: u8, p: ScheduleParams, answer: Status)
    requires Numbered(s.gcms) && s.state == Running
    ensures Update(s, port, p, answer)
         == if port < |s.gcms|
            then (s.(gcms := s.gcms[port := Applied(s.gcms[port], p, answer)],
                     trace := s.trace + if Accepted(p) then [GclWrite(port, p, answer)] else []),
                  ApplyStatus(p, answer))
            else (s, Err(HalPortOutOfRange))
  {
    hide Applied, ApplyStatus, Accepted;
    PortAt(s.gcms, port, 0);
  }
}
