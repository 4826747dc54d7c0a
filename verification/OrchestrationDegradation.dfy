// Degradation over whole runs: which state changes occur, why, and how they
// are logged.
module OrchestrationDegradation {
  import opened TsnTypes
  import opened GateSchedule
  import opened GateControl
  import opened GateVerification
  import opened Orchestration
  import opened OrchestrationSafety
  import P = PtpClock
  import F = FrerStreams
  import T = FrerTable

  // The only changes of state made without a lifecycle call.
  predicate Edge(a: State, b: State) {
    || (a == PtpConverging && (b == Running || b == Fault))
    || (a == Running && (b == Degraded || b == SafeState))
    || (a == Degraded && b == SafeState)
  }

  // The order of the states in the code's enumeration.
  function Severity(s: State): nat {
    match s
    case Uninitialized => 0 case Initializing => 1 case PtpConverging => 2
    case Running => 4 case Degraded => 5 case SafeState => 6 case Fault => 7
  }

  function Depth(s: State): nat {
    match s
    case Uninitialized => 0 case Initializing => 0 case PtpConverging => 0
    case Running => 1 case Degraded => 2 case SafeState => 3 case Fault => 3
  }

  // A log that leads from one state to another through single edges, each
  // entry taking over where the one before it ended.
  predicate Chained(log: seq<AuditEntry>, a: State, b: State) {
    if log == [] then a == b
    else
      var last := log[|log| - 1];
      last.newState == b && Edge(last.previousState, b) && Chained(log[..|log| - 1], a, last.previousState)
  }

  predicate LoggedStep(s: Orch, s': Orch) {
    || (s'.state == s.state && s'.history == s.history)
    || (Edge(s.state, s'.state) && |s'.history| == |s.history| + 1 && s'.history[..|s.history|] == s.history
        && s'.history[|s.history|].previousState == s.state && s'.history[|s.history|].newState == s'.state)
  }

  lemma DegradationEdge(s: Orch, env: TickEnv)
    ensures LoggedStep(s, TickDegradation(s, env))
    ensures s.state == PtpConverging ==> TickDegradation(s, env) == s
    ensures s.state != PtpConverging ==> TickDegradation(s, env).state != PtpConverging
  {
    hide ApplyAllFrom, P.CurrentNs;
  }

  lemma ConvergeEdge(s: Orch, nowNs: u64, env: TickEnv)
    ensures LoggedStep(s, Converge(s, nowNs, env).0)
    ensures s.state != PtpConverging ==> Converge(s, nowNs, env).0 == s
  {
    hide LoadFrom, DisableAllFrom, RegisterFrom, P.CurrentNs, P.IsSynchronised, Wrap64;
  }

  // The state machines leave alone what only the observing half of a tick changes.
  predicate SameRest(s: Orch, s': Orch) {
    && s'.ptp == s.ptp && s'.faults.holdover == s.faults.holdover && s'.initialised == s.initialised
    && s'.cfg == s.cfg && s'.lastHealthCheckNs == s.lastHealthCheckNs
  }

  lemma DegradationKeepsRest(s: Orch, env: TickEnv)
    ensures SameRest(s, TickDegradation(s, env))
  {
    hide P.CurrentNs, ApplyAllFrom;
  }

  lemma ConvergeKeepsRest(s: Orch, nowNs: u64, env: TickEnv)
    ensures SameRest(s, Converge(s, nowNs, env).0)
  {
    hide P.CurrentNs, P.IsSynchronised, Wrap64, DisableAllFrom, LoadFrom, RegisterFrom;
  }

  lemma TickKeepsConfig(s: Orch, env: TickEnv)
    ensures Tick(s, env).0.cfg == s.cfg && Tick(s, env).0.initialised == s.initialised
  {
    hide Observe, TickDegradation, Converge, P.CurrentNs;
    ObserveFrame(s, env);
    DegradationKeepsRest(Observe(s, env), env);
    ConvergeKeepsRest(TickDegradation(Observe(s, env), env), P.CurrentNs(s.ptp, env.start), env);
  }

  // Every change of state made by a tick is one of five edges and is logged
  // exactly once; a tick that changes nothing logs nothing.
  lemma TickLogged(s: Orch, env: TickEnv)
    ensures LoggedStep(s, Tick(s, env).0)
  {
    hide Observe, TickDegradation, Converge, P.CurrentNs;
    ObserveFrame(s, env);
    DegradationEdge(Observe(s, env), env);
    ConvergeEdge(TickDegradation(Observe(s, env), env), P.CurrentNs(s.ptp, env.start), env);
  }

  predicate Quiet(ops: seq<Op>) {
    forall k :: 0 <= k < |ops| ==> !ops[k].StartOp? && !ops[k].StopOp?
  }

  function Ticks(ops: seq<Op>): nat {
    if ops == [] then 0 else Ticks(ops[..|ops| - 1]) + if ops[|ops| - 1].TickOp? then 1 else 0
  }

  // What happens between ticks touches neither state, faults nor log, and no
  // port loses its schedule.
  lemma BetweenTicks(s: Orch, op: Op)
    requires !op.TickOp? && !op.StartOp? && !op.StopOp?
    ensures var s' := Step(s, op);
            && s'.state == s.state && s'.initialised == s.initialised && s'.faults == s.faults
            && s'.history == s.history && s'.lastHealthCheckNs == s.lastHealthCheckNs
            && |s'.gcms| == |s.gcms|
            && (forall i :: 0 <= i < |s.gcms| && s.gcms[i].scheduleActive ==> s'.gcms[i].scheduleActive)
            && (!op.SyncOp? ==> s'.ptp == s.ptp)
  {
    hide Applied, ApplyStatus, ApplyEvents, P.Sync, F.Receive;
    if op.UpdateOp? {
      var i := PortIndex(s.gcms, op.port, 0);
      if i < |s.gcms| { AppliedPort(s.gcms[i], op.params, op.answer); }
    }
  }

  lemma QuietStep(s: Orch, op: Op)
    requires !op.StartOp? && !op.StopOp?
    ensures LoggedStep(s, Step(s, op))
  {
    hide Tick, F.Receive, P.Sync, ApplyAt, ApplyStatus, PortIndex;
    if op.TickOp? { TickLogged(s, op.env); }
  }

  lemma {:induction false} ChainShort(log: seq<AuditEntry>, a: State, b: State)
    requires Chained(log, a, b)
    ensures Severity(a) <= Severity(b) && Depth(a) + |log| <= Depth(b) <= 3
  {
    if log == [] {
    } else {
      ChainShort(log[..|log| - 1], a, log[|log| - 1].previousState);
    }
  }

  // Between lifecycle calls, over any mix of ticks, updates, frames and Sync
  // messages: the new log entries chain from the first state to the last, the
  // state never moves back, and at most three changes happen.
  lemma {:induction false} QuietRun(s: Orch, ops: seq<Op>) returns (log: seq<AuditEntry>)
    requires Quiet(ops)
    ensures Run(s, ops).history == s.history + log
    ensures Chained(log, s.state, Run(s, ops).state)
    ensures Severity(s.state) <= Severity(Run(s, ops).state)
    ensures |log| <= 3
  {
    hide Step, Edge;
    if ops == [] {
      log := [];
    } else {
      var n := |ops| - 1;
      log := QuietRun(s, ops[..n]);
      var a, b := Run(s, ops[..n]), Run(s, ops);
      QuietStep(a, ops[n]);
      if b.history != a.history {
        var e := b.history[|a.history|];
        assert b.history == a.history + [e];
        assert (log + [e])[..|log|] == log;
        log := log + [e];
      }
    }
    ChainShort(log, s.state, Run(s, ops).state);
  }

  // ---- Reactions ------------------------------------------------------------------------

  // The check of the ports finds a fault exactly when some active port fails to
  // be read back or reads back a list that does not agree.
  lemma MismatchExact(gcms: seq<Gcm>, oper: int -> OperRead)
    ensures AnyMismatch(gcms, oper)
       <==> exists i :: 0 <= i < |gcms| && gcms[i].scheduleActive && Corrupt(gcms[i], oper(i))
  {
    hide Verification, Corrupt;
    forall i | 0 <= i < |gcms|
      ensures Verification(gcms[i], oper(i)) == Ok <==> gcms[i].scheduleActive && !Corrupt(gcms[i], oper(i))
    {
      VerificationExact(gcms[i], oper(i));
    }
  }

  // The authentication failures counted on the first n channels; a channel that
  // cannot be read counts none.
  function MacsecSum(fails: int -> MacsecRead, n: nat): nat {
    if n == 0 then 0 else MacsecSum(fails, n - 1) + if fails(n - 1).MacsecCount? then fails(n - 1).count else 0
  }

  lemma {:induction false} MacsecExact(fails: int -> MacsecRead, n: nat)
    ensures MacsecTotal(fails, n) == MacsecSum(fails, n) % 0x1_0000_0000_0000_0000
    ensures MacsecSum(fails, n) > 0 <==> exists ch :: 0 <= ch < n && fails(ch).MacsecCount? && fails(ch).count > 0
  {
    if n == 0 {
    } else {
      MacsecExact(fails, n - 1);
    }
  }

  // What a tick latches: the holdover fault exactly when the clock reports its
  // expiry, the FRER fault exactly when some stream reports a latent error, and
  // the other two only in a tick eight milliseconds after the last check: when
  // an active port is not read back or reads back a list that does not agree,
  // and when the failures of the 32 channels do not sum to zero in 64 bits.
  lemma FaultsObserved(s: Orch, env: TickEnv)
    ensures var nowNs := P.CurrentNs(s.ptp, env.start);
            var due := Wrap64(nowNs - s.lastHealthCheckNs) >= 8_000_000;
            Observe(s, env).faults == Faults(
              s.faults.holdover || P.Tick(s.ptp, env.ptpRead, env.driftWrite).1 == Err(PtpHoldoverExpired),
              s.faults.frerLatent || F.Tick(s.frer, nowNs).1 == Err(FrerLatentError),
              s.faults.macsecAuth || (due && MacsecSum(env.macsecFails, 32) % 0x1_0000_0000_0000_0000 != 0),
              s.faults.halIntegrity
                || (due && exists i :: 0 <= i < |s.gcms|
                                       && s.gcms[i].scheduleActive && Corrupt(s.gcms[i], env.oper(i))),
              s.faults.ncDeadline)
  {
    hide P.Tick, F.Tick, P.CurrentNs, AnyMismatch, MacsecTotal, Wrap64, MacsecSum, Corrupt;
    MacsecExact(env.macsecFails, 32);
    MismatchExact(s.gcms, env.oper);
  }

  // A converging tick adds nothing to the faults it has observed.
  lemma ConvergingFaults(s: Orch, env: TickEnv)
    requires s.state == PtpConverging && s.initialised
    ensures Tick(s, env).0.faults == Observe(s, env).faults
  {
    hide Observe, LoadFrom, DisableAllFrom, RegisterFrom, P.CurrentNs, P.IsSynchronised, Wrap64;
    ObserveFrame(s, env);
  }

  // A tick from the running state stays there exactly when no fault is latched
  // once the tick has observed its inputs, and otherwise goes to the safe state
  // or the degraded state as the faults say.
  lemma RunningReacts(s: Orch, env: TickEnv)
    requires s.state == Running && s.initialised
    ensures var s', f := Tick(s, env).0, Observe(s, env).faults;
            && (s'.state == Running <==> f == NO_FAULTS)
            && (s'.state == SafeState <==> f.holdover || f.ncDeadline)
            && (s'.state == Degraded <==> (f.frerLatent || f.macsecAuth || f.halIntegrity)
                                          && !f.holdover && !f.ncDeadline)
            && s'.faults == f
  {
    hide Observe, ApplyAllFrom, P.CurrentNs;
    ObserveFrame(s, env);
  }

  // From the degraded state only the safe state can be reached, and it is
  // reached exactly on a safe-state trigger or a hardware integrity fault.
  lemma DegradedReacts(s: Orch, env: TickEnv)
    requires s.state == Degraded && s.initialised
    ensures var s', f := Tick(s, env).0, Observe(s, env).faults;
            && s'.state in {Degraded, SafeState}
            && (s'.state == SafeState <==> f.holdover || f.ncDeadline || f.halIntegrity)
            && s'.faults == if s'.state == SafeState && !f.holdover then f.(ncDeadline := true) else f
  {
    hide Observe, ApplyAllFrom, P.CurrentNs;
    ObserveFrame(s, env);
  }

  lemma SafeStateStays(s: Orch, env: TickEnv)
    requires s.state == SafeState
    ensures Tick(s, env).0.state == SafeState
  {
    hide Observe, P.CurrentNs;
    ObserveFrame(s, env);
  }

  // A transition to the degraded state is logged under a code that names a
  // latched fault exactly when a FRER or MACsec fault is among them: a hardware
  // integrity fault alone is logged as a MACsec replay attack.
  lemma DegradeCodeNamesFault(s: Orch, env: TickEnv)
    requires s.state == Running && s.initialised
    ensures var s', f := Tick(s, env).0, Observe(s, env).faults;
            s'.state == Degraded ==>
              && |s'.history| == |s.history| + 1
              && var code := s'.history[|s.history|].triggerCode;
                 && code in {FrerLatentError, MacsecReplayAttack}
                 && (code == FrerLatentError <==> f.frerLatent)
                 && ((code == FrerLatentError && f.frerLatent) || (code == MacsecReplayAttack && f.macsecAuth)
                     <==> f.frerLatent || f.macsecAuth)
  {
    hide Observe, ApplyAllFrom, P.CurrentNs;
    ObserveFrame(s, env);
  }

  // What a tick that changes the state logs of it: the cause, and the PHC time,
  // read anew except on entering the running state. The code of a safe state is
  // that of holdover if it has expired, that of a fault the failing load's or a
  // missing synchronisation.
  lemma TransitionLogged(s: Orch, env: TickEnv)
    requires s.initialised
    ensures var s', o := Tick(s, env).0, Observe(s, env);
            s'.state != s.state ==>
              |s'.history| == |s.history| + 1 && s'.history[..|s.history|] == s.history &&
              var e := s'.history[|s.history|];
              && e.portOrStream == 0 && e.previousState == s.state && e.newState == s'.state
              && e.timestampNs == P.CurrentNs(if s'.state == Running then s.ptp else o.ptp,
                                              if s'.state == Running then env.start else env.log)
              && (s'.state == Running ==> e.triggerCode == NoError)
              && (s'.state == Degraded ==>
                    e.triggerCode == if o.faults.frerLatent then FrerLatentError else MacsecReplayAttack)
              && (s'.state == SafeState ==>
                    e.triggerCode == if o.faults.holdover then PtpHoldoverExpired else DeadlineViolation)
              && (s'.state == Fault && !P.IsSynchronised(o.ptp) ==> e.triggerCode == PtpNotSynchronised)
              && (s'.state == Fault && P.IsSynchronised(o.ptp) ==>
                    Err(e.triggerCode)
                    == LoadFrom(Ports(s.gcms, s.trace + [SyncObserved]), s.cfg.schedules, env.apply, 0).1)
  {
    hide Observe, ApplyAllFrom, DisableAllFrom, LoadFrom, RegisterFrom, P.CurrentNs, P.IsSynchronised, Wrap64;
    ObserveFrame(s, env);
  }

  // What a tick answers: an error in the fault state, without initialisation,
  // in the tick that enters the fault state, with the code it logs, and while
  // synchronised schedules are loaded but the streams cannot be registered.
  lemma TickAnswers(s: Orch, env: TickEnv)
    ensures var (s', st) := Tick(s, env);
            && (s.state == Fault ==> st == Err(OperationNotPermitted))
            && (s.state != Fault && !s.initialised ==> st == Err(NotInitialised))
            && (s.state != Fault && s.initialised ==>
                  && (s'.state == Fault ==> s'.history != [] && st == Err(s'.history[|s'.history| - 1].triggerCode))
                  && (s'.state == PtpConverging ==> (st == Ok <==> !P.IsSynchronised(Observe(s, env).ptp)))
                  && (s'.state != Fault && s'.state != PtpConverging ==> st == Ok))
  {
    hide Observe, ApplyAllFrom, DisableAllFrom, LoadFrom, RegisterFrom, P.CurrentNs, P.IsSynchronised, Wrap64;
    ObserveFrame(s, env);
  }

  // Lifecycle calls touch neither log, faults, clock nor streams, and a start
  // needs an initialisation.
  lemma LifecycleSilent(s: Orch, answers: int -> Status)
    ensures var s' := Start(s).0;
            && s'.history == s.history && s'.faults == s.faults && s'.ptp == s.ptp && s'.frer == s.frer
            && s'.gcms == s.gcms && (!s.initialised ==> s' == s)
            && (s.initialised ==> s'.state == PtpConverging && s'.trace == s.trace + [Started])
            && Start(s).1 == if s.initialised then Ok else Err(NotInitialised)
    ensures var s' := Stop(s, answers);
            && s'.history == s.history && s'.faults == s.faults && s'.ptp == s.ptp && s'.frer == s.frer
            && s'.initialised == s.initialised && s'.state == Uninitialized
  {
    hide DisableAllFrom;
  }

  // ---- Reactions to the other components --------------------------------------------------

  // A latent error on any stream keeps the orchestrator out of the running
  // state from the next tick on.
  lemma LatentErrorDegrades(s: Orch, env: TickEnv, handle: u16, bound: nat)
    requires s.initialised && s.state == Running && s.frer.initialised
    requires T.Latched(s.frer, handle, bound) && bound + 1 < U64_RANGE
    ensures Tick(s, env).0.state in {Degraded, SafeState}
  {
    hide P.CurrentNs;
    T.LatentErrorSticks(s.frer, [], handle, bound, P.CurrentNs(s.ptp, env.start));
    assert Observe(s, env).faults.frerLatent by { hide P.Tick, F.Tick, AnyMismatch, MacsecTotal, Wrap64; }
    hide Observe, Tick;
    RunningReacts(s, env);
  }

  // ---- What the ports run once it is serious --------------------------------------------

  lemma DegradedStepPorts(s: Orch, op: Op)
    requires s.state == Degraded || s.state == SafeState
    requires !op.StartOp? && !op.StopOp?
    ensures Step(s, op).state == SafeState || (s.state == Degraded && Step(s, op).state == Degraded)
    ensures s.state == SafeState || Step(s, op).state == Degraded ==> PortsOf(Step(s, op)) == PortsOf(s)
  {
    hide Observe, ApplyAllFrom, P.CurrentNs, F.Receive, P.Sync;
    if op.TickOp? { ObserveFrame(s, op.env); }
    if op.UpdateOp? { UpdateRefused(s, op.port, op.params, op.answer); }
  }

  // From the degraded state no port and no gate list is touched before the safe
  // state is entered, and in the safe state none is ever touched again: over
  // every run without a lifecycle call, updates included.
  lemma {:induction false} PortsFrozen(s: Orch, ops: seq<Op>)
    requires (s.state == Degraded || s.state == SafeState) && Quiet(ops)
    ensures Run(s, ops).state == SafeState || (s.state == Degraded && Run(s, ops).state == Degraded)
    ensures s.state == SafeState || Run(s, ops).state == Degraded ==> PortsOf(Run(s, ops)) == PortsOf(s)
  {
    hide Step, PortsOf;
    if ops == [] {
    } else {
      PortsFrozen(s, ops[..|ops| - 1]);
      DegradedStepPorts(Run(s, ops[..|ops| - 1]), ops[|ops| - 1]);
    }
  }

  // ---- Faults are never forgotten ----------------------------------------------------------

  lemma StepKeepsFaults(s: Orch, op: Op)
    ensures s.faults.Within(Step(s, op).faults)
    ensures Step(s, op).initialised == s.initialised
  {
    hide Observe, LoadFrom, ApplyAllFrom, DisableAllFrom, RegisterFrom, P.CurrentNs, P.IsSynchronised, Wrap64;
    hide F.Receive, P.Sync, ApplyAt, ApplyStatus, PortIndex;
    if op.TickOp? { ObserveFrame(s, op.env); }
  }

  lemma {:induction false} FaultsLatch(s: Orch, ops: seq<Op>)
    ensures s.faults.Within(Run(s, ops).faults)
    ensures Run(s, ops).initialised == s.initialised
  {
    hide Step;
    if ops == [] {
    } else {
      FaultsLatch(s, ops[..|ops| - 1]);
      StepKeepsFaults(Run(s, ops[..|ops| - 1]), ops[|ops| - 1]);
    }
  }

  // A fault outlives every stop and restart: once one has been latched, no
  // later tick finds and leaves the orchestrator running.
  lemma RestartDoesNotClear(s: Orch, ops: seq<Op>, env: TickEnv)
    requires s.faults.Any() && Run(s, ops).initialised && Run(s, ops).state == Running
    ensures Tick(Run(s, ops), env).0.state in {Degraded, SafeState}
  {
    hide Tick, Run, Observe;
    FaultsLatch(s, ops);
    ObserveFrame(Run(s, ops), env);
    RunningReacts(Run(s, ops), env);
  }
}
