// Response times of the orchestrator, counted in ticks.
module OrchestrationTiming {
  import opened Arithmetic
  import opened TsnTypes
  import opened GateControl
  import opened GateVerification
  import opened Orchestration
  import opened OrchestrationSafety
  import opened OrchestrationDegradation
  import P = PtpClock
  import F = FrerStreams

  // ---- The convergence watchdog -------------------------------------------------------

  // No tick of the run finds the clock synchronised.
  predicate NeverSynced(s: Orch, ops: seq<Op>) {
    ops == [] ||
    var n := |ops| - 1;
    NeverSynced(s, ops[..n]) && (ops[n].TickOp? ==> !P.IsSynchronised(Observe(Run(s, ops[..n]), ops[n].env).ptp))
  }

  // The tick after a start at which the watchdog fires.
  function WatchdogTick(cfg: Config): int
    requires cfg.tickPeriodUs > 0
  {
    1 + CeilDiv(1_000 * (cfg.ptpConvergenceTimeoutMs + 1), cfg.tickPeriodUs)
  }

  lemma WaitingTick(s: Orch, env: TickEnv)
    requires s.state == PtpConverging && s.initialised && !P.IsSynchronised(Observe(s, env).ptp)
    ensures var s' := Tick(s, env).0;
            var m := Wrap64(s.monotonicNs + s.cfg.tickPeriodUs * 1_000);
            var c := if s.convergenceStartNs == 0 then m else s.convergenceStartNs;
            && s'.cfg == s.cfg && s'.initialised && s'.monotonicNs == m && s'.convergenceStartNs == c
            && s'.state == if Wrap64(m - c) / 1_000_000 > s.cfg.ptpConvergenceTimeoutMs then Fault else PtpConverging
  {
    hide Observe, DisableAllFrom, P.CurrentNs, P.IsSynchronised, Wrap64, LoadFrom;
    ObserveFrame(s, env);
  }

  // Where a run that never sees synchronisation stands after n ticks.
  predicate Waiting(s: Orch, start: Orch, n: nat)
    requires start.cfg.tickPeriodUs > 0
  {
    && s.cfg == start.cfg && s.initialised
    && (n < WatchdogTick(start.cfg) ==>
          && s.state == PtpConverging
          && s.monotonicNs == start.monotonicNs + 1_000 * Times(n, s.cfg.tickPeriodUs)
          && s.convergenceStartNs == if n == 0 then 0 else start.monotonicNs + 1_000 * s.cfg.tickPeriodUs)
    && (n >= WatchdogTick(start.cfg) ==> s.state == Fault)
  }

  lemma FaultStays(s: Orch, env: TickEnv)
    requires s.state == Fault
    ensures Tick(s, env).0 == s
  {
  }

  lemma WaitingStep(s: Orch, start: Orch, n: nat, env: TickEnv)
    requires start.cfg.tickPeriodUs > 0 && Waiting(s, start, n)
    requires !P.IsSynchronised(Observe(s, env).ptp)
    requires start.monotonicNs + 1_000 * Times(n + 1, start.cfg.tickPeriodUs) < U64_RANGE
    ensures Waiting(Tick(s, env).0, start, n + 1)
  {
    hide Times, Tick, Observe, P.IsSynchronised, CeilDiv;
    var d := s.cfg.tickPeriodUs;
    TimesSucc(n, d);
    TimesSucc(0, d);
    CeilExact(1_000 * (s.cfg.ptpConvergenceTimeoutMs + 1), d, n);
    if s.state == Fault {
      FaultStays(s, env);
    } else {
      WaitingTick(s, env);
    }
  }

  // The watchdog is exact: after a start from any state, as long as no tick
  // finds the clock synchronised, the fault state is entered on one particular
  // tick, whatever the PHC reads and whatever else happens in between.
  lemma {:induction false} WatchdogExact(s: Orch, ops: seq<Op>)
    requires s.initialised && s.cfg.tickPeriodUs > 0 && Quiet(ops) && NeverSynced(Start(s).0, ops)
    requires s.monotonicNs + 1_000 * Times(Ticks(ops), s.cfg.tickPeriodUs) < U64_RANGE
    ensures Waiting(Run(Start(s).0, ops), Start(s).0, Ticks(ops))
    ensures Run(Start(s).0, ops).state == if Ticks(ops) < WatchdogTick(s.cfg) then PtpConverging else Fault
  {
    hide Times, Tick, Observe, P.IsSynchronised, P.Sync, F.Receive;
    var a := Start(s).0;
    if ops == [] {
      TimesSucc(0, s.cfg.tickPeriodUs);
      CeilExact(1_000 * (s.cfg.ptpConvergenceTimeoutMs + 1), s.cfg.tickPeriodUs, 0);
    } else {
      var n := |ops| - 1;
      TimesSucc(Ticks(ops[..n]), s.cfg.tickPeriodUs);
      WatchdogExact(s, ops[..n]);
      if ops[n].TickOp? { WaitingStep(Run(a, ops[..n]), a, Ticks(ops[..n]), ops[n].env); }
    }
  }

  // ---- Detection of a corrupted gate list -----------------------------------------------

  // At every tick of the run the read-back of port i differs from the schedule
  // active on it then, and the PHC has moved on by at least d nanoseconds per
  // tick since the last integrity check.
  predicate Corrupted(s: Orch, ops: seq<Op>, i: nat, d: nat) {
    ops == [] ||
    var n := |ops| - 1;
    var m := Run(s, ops[..n]);
    && Corrupted(s, ops[..n], i, d)
    && (ops[n].TickOp? ==>
          && i < |m.gcms| && Corrupt(m.gcms[i], ops[n].env.oper(i))
          && P.CurrentNs(m.ptp, ops[n].env.start) >= s.lastHealthCheckNs + Times(Ticks(ops[..n]) + 1, d))
  }

  predicate Alarmed(s: Orch) {
    s.initialised && (s.state == SafeState || (s.state == Degraded && s.faults.halIntegrity))
  }

  // No check has run since the given stamp, and port i still has a schedule to check.
  predicate Watching(s: Orch, i: nat, stamp: u64) {
    && (s.state == Running || s.state == Degraded) && s.initialised && s.lastHealthCheckNs == stamp
    && i < |s.gcms| && s.gcms[i].scheduleActive
  }

  // Short of the safe state, a tick of a live orchestrator touches no port.
  lemma PortsUntilSafe(s: Orch, env: TickEnv)
    requires s.initialised && (s.state == Running || s.state == Degraded)
    ensures Tick(s, env).0.state == SafeState || Tick(s, env).0.gcms == s.gcms
  {
    hide Observe, P.CurrentNs, ApplyAllFrom;
    ObserveFrame(s, env);
  }

  lemma HealthStamp(s: Orch, env: TickEnv)
    ensures var now := P.CurrentNs(s.ptp, env.start);
            Tick(s, env).0.lastHealthCheckNs
            == if s.initialised && s.state != Fault && Wrap64(now - s.lastHealthCheckNs) >= 8_000_000
               then now else s.lastHealthCheckNs
  {
    hide TickDegradation, Converge, P.CurrentNs, Wrap64, P.Tick, F.Tick, AnyMismatch, MacsecTotal;
    DegradationKeepsRest(Observe(s, env), env);
    ConvergeKeepsRest(TickDegradation(Observe(s, env), env), P.CurrentNs(s.ptp, env.start), env);
  }

  lemma WatchingTick(s: Orch, env: TickEnv, i: nat, stamp: u64)
    requires Watching(s, i, stamp) && Corrupt(s.gcms[i], env.oper(i))
    ensures var s' := Tick(s, env).0;
            var now := P.CurrentNs(s.ptp, env.start);
            Alarmed(s') || (Watching(s', i, stamp) && Wrap64(now - stamp) < 8_000_000)
  {
    hide Tick, Observe, P.CurrentNs, P.Tick, F.Tick, AnyMismatch, MacsecTotal, Wrap64, Corrupt;
    MismatchExact(s.gcms, env.oper);
    FaultsObserved(s, env);
    HealthStamp(s, env);
    PortsUntilSafe(s, env);
    StepKeepsFaults(s, TickOp(env));
    if s.state == Running { RunningReacts(s, env); } else { DegradedReacts(s, env); }
  }

  lemma AlarmedTick(s: Orch, env: TickEnv)
    requires Alarmed(s)
    ensures Tick(s, env).0.state == SafeState && Tick(s, env).0.initialised
  {
    hide Observe, P.CurrentNs, ApplyAllFrom;
    ObserveFrame(s, env);
  }

  lemma AlarmedStep(s: Orch, op: Op)
    requires Alarmed(s) && !op.StartOp? && !op.StopOp?
    ensures Alarmed(Step(s, op))
    ensures op.TickOp? || s.state == SafeState ==> Step(s, op).state == SafeState
  {
    hide Tick;
    if op.TickOp? { AlarmedTick(s, op.env); } else { BetweenTicks(s, op); }
  }

  // Once an integrity fault is latched, one tick more leads to the safe state,
  // and nothing short of a lifecycle call leads out of it.
  lemma {:induction false} AlarmEscalates(s: Orch, ops: seq<Op>)
    requires Alarmed(s) && Quiet(ops)
    ensures Alarmed(Run(s, ops))
    ensures Ticks(ops) > 0 ==> Run(s, ops).state == SafeState
  {
    hide Step;
    if ops == [] {
    } else {
      var n := |ops| - 1;
      AlarmEscalates(s, ops[..n]);
      AlarmedStep(Run(s, ops[..n]), ops[n]);
    }
  }

  // An integrity fault observed by a tick in the running state has reached the
  // safe state by the following tick, whatever happens between the two.
  lemma IntegrityEscalates(s: Orch, env: TickEnv, ops: seq<Op>)
    requires s.state == Running && s.initialised
    requires Quiet(ops) && Ticks(ops) > 0
    ensures Observe(s, env).faults.halIntegrity ==> Run(Tick(s, env).0, ops).state == SafeState
  {
    hide Observe, Tick, Run;
    RunningReacts(s, env);
    StepKeepsFaults(s, TickOp(env));
    if Observe(s, env).faults.halIntegrity { AlarmEscalates(Tick(s, env).0, ops); }
  }

  lemma WatchingStep(s: Orch, op: Op, i: nat, stamp: u64)
    requires Watching(s, i, stamp) && !op.StartOp? && !op.StopOp?
    requires op.TickOp? ==> Corrupt(s.gcms[i], op.env.oper(i))
    ensures Alarmed(Step(s, op)) || Watching(Step(s, op), i, stamp)
    ensures op.TickOp? && P.CurrentNs(s.ptp, op.env.start) >= stamp + 8_000_000 ==> Alarmed(Step(s, op))
  {
    hide Tick, P.CurrentNs, Corrupt;
    if op.TickOp? { WatchingTick(s, op.env, i, stamp); } else { BetweenTicks(s, op); }
  }

  // After each operation the fault is either acted on or the clock has not yet
  // moved past the next check.
  lemma {:induction false} DetectionProgress(s: Orch, ops: seq<Op>, i: nat, d: nat)
    requires Watching(s, i, s.lastHealthCheckNs) && Quiet(ops) && Corrupted(s, ops, i, d)
    ensures Alarmed(Run(s, ops))
            || (Watching(Run(s, ops), i, s.lastHealthCheckNs) && Times(Ticks(ops), d) < 8_000_000)
    ensures Ticks(ops) > 0 && Times(Ticks(ops) - 1, d) >= 8_000_000
            ==> Run(s, ops).state == SafeState
  {
    hide Tick, Step, Corrupt, P.CurrentNs, Times, Alarmed, Watching;
    TimesSucc(0, d);
    if ops == [] {
    } else {
      var n := |ops| - 1;
      var m := Run(s, ops[..n]);
      DetectionProgress(s, ops[..n], i, d);
      if Alarmed(m) {
        AlarmedStep(m, ops[n]);
      } else {
        WatchingStep(m, ops[n], i, s.lastHealthCheckNs);
        TimesSucc(Ticks(ops[..n]), d);
        if Ticks(ops[..n]) > 0 { TimesSucc(Ticks(ops[..n]) - 1, d); }
      }
    }
  }

  // Bounded detection: from the running or degraded state, with a port whose
  // read-back differs at every tick from its then active schedule and a PHC
  // that advances at least d nanoseconds per tick past the last check, the
  // safe state is reached within one tick of the eight milliseconds between
  // checks, whatever updates, frames and Sync messages come in between.
  lemma BoundedDetection(s: Orch, ops: seq<Op>, i: nat, d: nat)
    requires Watching(s, i, s.lastHealthCheckNs) && d > 0 && Quiet(ops) && Corrupted(s, ops, i, d)
    requires Ticks(ops) >= CeilDiv(8_000_000, d) + 1
    ensures Run(s, ops).state == SafeState
  {
    hide Run, Watching, Corrupted, Times;
    CeilExact(8_000_000, d, Ticks(ops) - 1);
    DetectionProgress(s, ops, i, d);
  }

  // On every reachable running state each port's schedule is active, so the
  // bound needs nothing of the state beyond being there.
  lemma DetectionOnEveryRun(cfg: Config, boot: InitEnv, before: seq<Op>, ops: seq<Op>, i: nat, d: nat)
    requires d > 0 && Quiet(ops) && Ticks(ops) >= CeilDiv(8_000_000, d) + 1
    ensures var s := Run(Booted(cfg, boot), before);
            s.state == Running && i < |s.gcms| && Corrupted(s, ops, i, d) ==> Run(s, ops).state == SafeState
  {
    hide Booted, Run, Corrupted, PortsOk, SyncedSinceStart;
    var s := Run(Booted(cfg, boot), before);
    RunInv(cfg, boot, before);
    if s.state == Running && i < |s.gcms| && Corrupted(s, ops, i, d) { BoundedDetection(s, ops, i, d); }
  }

  // ---- Pacing of the integrity check --------------------------------------------------------

  // PHC time as the tick at position k of a run reads it.
  function ReadingAt(s: Orch, ops: seq<Op>, k: nat): u64
    requires k < |ops| && ops[k].TickOp?
  {
    P.CurrentNs(Run(s, ops[..k]).ptp, ops[k].env.start)
  }

  // The operation at position k is a tick that runs the integrity check.
  predicate ChecksAt(s: Orch, ops: seq<Op>, k: nat)
    requires k < |ops|
  {
    var m := Run(s, ops[..k]);
    && ops[k].TickOp? && m.initialised && m.state != Fault
    && Wrap64(ReadingAt(s, ops, k) - m.lastHealthCheckNs) >= 8_000_000
  }

  // The reading of the last of the ticks among the first n operations, or the
  // stamp the run starts with.
  function LastReading(s: Orch, ops: seq<Op>, n: nat): u64
    requires n <= |ops|
  {
    if n == 0 then s.lastHealthCheckNs
    else if ops[n - 1].TickOp? then ReadingAt(s, ops, n - 1)
    else LastReading(s, ops, n - 1)
  }

  // None of the ticks among the first n operations reads less than those before it.
  predicate Forward(s: Orch, ops: seq<Op>, n: nat)
    requires n <= |ops|
  {
    n == 0 || (Forward(s, ops, n - 1) && LastReading(s, ops, n - 1) <= LastReading(s, ops, n))
  }

  // Only a tick that checks moves the stamp, and to its own reading.
  lemma StampStep(s: Orch, ops: seq<Op>, n: nat)
    requires n < |ops|
    ensures Run(s, ops[..n + 1]).lastHealthCheckNs
            == if ChecksAt(s, ops, n) then ReadingAt(s, ops, n) else Run(s, ops[..n]).lastHealthCheckNs
  {
    hide Tick, P.CurrentNs, Wrap64, ApplyAt, DisableAllFrom, P.Sync, F.Receive, PortIndex, ApplyStatus;
    assert ops[..n + 1][..n] == ops[..n];
    if ops[n].TickOp? { HealthStamp(Run(s, ops[..n]), ops[n].env); }
  }

  // While the clock does not run backwards, the stamp is never behind the
  // reading of a tick that checked, nor ahead of the last reading.
  lemma {:induction false} StampFollows(s: Orch, ops: seq<Op>, n: nat)
    requires n <= |ops| && Forward(s, ops, n)
    ensures Run(s, ops[..n]).lastHealthCheckNs <= LastReading(s, ops, n)
    ensures forall k :: 0 <= k < n && ChecksAt(s, ops, k) ==>
              ReadingAt(s, ops, k) <= Run(s, ops[..n]).lastHealthCheckNs
  {
    hide Step, P.CurrentNs, Wrap64;
    if n == 0 {
      assert ops[..0] == [];
    } else {
      StampFollows(s, ops, n - 1);
      StampStep(s, ops, n - 1);
    }
  }

  // Two integrity checks of a run are at least eight milliseconds of PHC time
  // apart, whatever operations of whatever kind the run contains.
  lemma ChecksSpaced(s: Orch, ops: seq<Op>, j: nat, k: nat)
    requires j < k < |ops| && Forward(s, ops, k + 1)
    ensures ChecksAt(s, ops, j) && ChecksAt(s, ops, k)
            ==> ReadingAt(s, ops, k) - ReadingAt(s, ops, j) >= 8_000_000
  {
    hide Run, P.CurrentNs;
    StampFollows(s, ops, k);
  }
}
