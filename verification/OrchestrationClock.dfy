// What the orchestrator makes of a clock that stops hearing Sync messages.
module OrchestrationClock {
  import opened Arithmetic
  import opened TsnTypes
  import opened GateControl
  import opened Orchestration
  import opened OrchestrationSafety
  import opened OrchestrationDegradation
  import P = PtpClock
  import F = FrerStreams

  // ---- The clock inside the orchestrator -------------------------------------------

  // Holdover counts from the last Sync, and an initialised orchestrator has an
  // initialised clock.
  predicate ClockOk(s: Orch) {
    P.HoldoverInv(s.ptp) && P.ServoInv(s.ptp) && (s.initialised ==> s.ptp.initialised)
  }

  predicate SyncWritesSucceed(ops: seq<Op>) {
    forall k :: 0 <= k < |ops| && ops[k].SyncOp? ==> ops[k].write == Ok
  }

  lemma ObserveClock(s: Orch, env: TickEnv)
    ensures var (p, st) := P.Tick(s.ptp, env.ptpRead, env.driftWrite);
            && Observe(s, env).ptp == p
            && Observe(s, env).faults.holdover == (s.faults.holdover || st == Err(PtpHoldoverExpired))
  {
    hide P.Tick, F.Tick, P.CurrentNs, AnyMismatch, MacsecTotal, Wrap64;
  }

  // A tick moves the clock by its own tick, and latches the holdover fault
  // exactly when that reports an expiry; or it does nothing at all.
  lemma TickMovesClock(s: Orch, env: TickEnv)
    ensures var s', (p, st) := Tick(s, env).0, P.Tick(s.ptp, env.ptpRead, env.driftWrite);
            && s'.initialised == s.initialised
            && if s.initialised && s.state != Fault
               then s'.ptp == p && s'.faults.holdover == (s.faults.holdover || st == Err(PtpHoldoverExpired))
               else s' == s
  {
    hide Observe, TickDegradation, Converge, P.Tick, P.CurrentNs;
    ObserveFrame(s, env);
    ObserveClock(s, env);
    DegradationKeepsRest(Observe(s, env), env);
    ConvergeKeepsRest(TickDegradation(Observe(s, env), env), P.CurrentNs(s.ptp, env.start), env);
  }

  lemma ClockStep(s: Orch, op: Op)
    requires ClockOk(s) && (op.SyncOp? ==> op.write == Ok)
    ensures ClockOk(Step(s, op))
  {
    hide Tick, ApplyAt, ApplyStatus, PortIndex, DisableAllFrom, F.Receive;
    if op.TickOp? { TickMovesClock(s, op.env); }
  }

  lemma BootedClock(cfg: Config, boot: InitEnv)
    ensures ClockOk(Booted(cfg, boot))
  {
    hide FilterFrom, PrevalidationFrom;
  }

  // On every run in which the frequency register can be written.
  lemma {:induction false} ClockOnEveryRun(cfg: Config, boot: InitEnv, ops: seq<Op>)
    requires SyncWritesSucceed(ops)
    ensures ClockOk(Run(Booted(cfg, boot), ops))
  {
    hide Booted, Step, ClockOk;
    if ops == [] {
      BootedClock(cfg, boot);
    } else {
      ClockOnEveryRun(cfg, boot, ops[..|ops| - 1]);
      ClockStep(Run(Booted(cfg, boot), ops[..|ops| - 1]), ops[|ops| - 1]);
    }
  }

  // Silence a clock in holdover endures.
  function EnduredNs(cfg: P.PtpConfig): nat {
    if cfg.holdoverBudgetNs < 10 * cfg.syncTimeoutNs then cfg.holdoverBudgetNs else 10 * cfg.syncTimeoutNs
  }

  // On every reachable running or degraded state, a tick that finds holdover
  // past its budget or past ten sync timeouts leaves it for the safe state.
  lemma HoldoverExpiryIsSafe(cfg: Config, boot: InitEnv, before: seq<Op>, env: TickEnv)
    requires SyncWritesSucceed(before)
    requires env.ptpRead.PhcOk? && env.driftWrite == Ok
    ensures var s := Run(Booted(cfg, boot), before);
            && (s.state == Running || s.state == Degraded) && s.ptp.sync == P.Holdover
            && s.ptp.cfg.syncTimeoutNs * 10 < U64_RANGE
            && PhcNs(env.ptpRead) > s.ptp.lastSyncNs + EnduredNs(s.ptp.cfg)
            ==> Tick(s, env).0.state == SafeState
  {
    hide Booted, Run, Tick, Observe, PhcNs, P.Tick, PortsOk, SyncedSinceStart;
    var s := Run(Booted(cfg, boot), before);
    RunInv(cfg, boot, before);
    ClockOnEveryRun(cfg, boot, before);
    if && (s.state == Running || s.state == Degraded) && s.ptp.sync == P.Holdover
       && s.ptp.cfg.syncTimeoutNs * 10 < U64_RANGE && PhcNs(env.ptpRead) > s.ptp.lastSyncNs + EnduredNs(s.ptp.cfg)
    {
      P.HoldoverTickExact(s.ptp, env.ptpRead);
      ObserveClock(s, env);
      if s.state == Running { RunningReacts(s, env); } else { DegradedReacts(s, env); }
    }
  }

  // ---- Loss of the clock ---------------------------------------------------------------

  predicate NoSync(ops: seq<Op>) {
    forall k :: 0 <= k < |ops| ==> !ops[k].SyncOp?
  }

  // The clock would elect itself at its next tick.
  predicate Electable(p: P.Ptp) {
    !p.gmValid && P.GmCapable(p.cfg)
  }

  // A clock that will notice silence: it has had a Sync message, and is locked,
  // in holdover, or about to lock by electing itself.
  predicate Listening(p: P.Ptp) {
    p.lastSyncNs != 0 && (p.sync == P.Locked || p.sync == P.Holdover || Electable(p))
  }

  function Max(a: int, b: int): int {
    if a < b then b else a
  }

  // Ticks of a PHC advancing d nanoseconds each within which silence leads to
  // the safe state: one past the sync timeout to enter holdover, one more to
  // expire, and none before the endured silence is over.
  function LossTicks(cfg: P.PtpConfig, d: nat): int
    requires d > 0
  {
    Max(3, Max(cfg.syncTimeoutNs / d + 2, EnduredNs(cfg) / d + 1))
  }

  // The register reads and writes of every tick of the run succeed, and the
  // PHC reads at least d nanoseconds per tick past the last Sync.
  predicate Readable(s: Orch, ops: seq<Op>, d: nat) {
    ops == [] ||
    var n := |ops| - 1;
    && Readable(s, ops[..n], d)
    && (ops[n].TickOp? ==>
          && ops[n].env.ptpRead.PhcOk? && ops[n].env.driftWrite == Ok
          && PhcNs(ops[n].env.ptpRead) >= s.ptp.lastSyncNs + Times(Ticks(ops[..n]) + 1, d))
  }

  // How far n ticks without a Sync have got the clock on its way to expiry.
  predicate OnTheWay(p: P.Ptp, start: P.Ptp, n: nat, d: nat) {
    && p.initialised && p.cfg == start.cfg && p.lastSyncNs == start.lastSyncNs != 0 && P.HoldoverInv(p)
    && (n == 0 ==> Listening(p))
    && (n > 0 ==>
          || (p.sync == P.Locked && (n == 1 || Times(n, d) <= p.cfg.syncTimeoutNs))
          || (p.sync == P.Holdover
              && (n <= 2 || Times(n - 1, d) <= p.cfg.syncTimeoutNs || Times(n, d) <= EnduredNs(p.cfg))))
  }

  // One tick of the clock: it gets further on its way, or reports the expiry.
  lemma ClockTick(p: P.Ptp, start: P.Ptp, n: nat, d: nat, read: PhcRead)
    requires OnTheWay(p, start, n, d) && p.cfg.syncTimeoutNs * 10 < U64_RANGE
    requires read.PhcOk? && PhcNs(read) >= start.lastSyncNs + Times(n + 1, d)
    ensures var (p', st) := P.Tick(p, read, Ok);
            st == Err(PtpHoldoverExpired) || OnTheWay(p', start, n + 1, d)
  {
    hide PhcNs, Times;
    TimesSucc(n, d);
    if p.sync == P.Holdover { P.HoldoverTickExact(p, read); }
  }

  predicate Noticing(s: Orch, start: P.Ptp, n: nat, d: nat) {
    s.initialised
    && (s.state == SafeState || ((s.state == Running || s.state == Degraded) && OnTheWay(s.ptp, start, n, d)))
  }

  lemma WayKeepsConfig(p: P.Ptp, start: P.Ptp, n: nat, d: nat)
    requires OnTheWay(p, start, n, d)
    ensures p.cfg == start.cfg
  {
  }

  lemma NoticingTick(s: Orch, start: P.Ptp, n: nat, d: nat, env: TickEnv)
    requires Noticing(s, start, n, d) && start.cfg.syncTimeoutNs * 10 < U64_RANGE
    requires env.ptpRead.PhcOk? && env.driftWrite == Ok
    requires PhcNs(env.ptpRead) >= start.lastSyncNs + Times(n + 1, d)
    ensures Noticing(Tick(s, env).0, start, n + 1, d)
  {
    hide P.Tick, PhcNs, Times, Tick, Observe, OnTheWay;
    TickMovesClock(s, env);
    if s.state == SafeState {
      SafeStateStays(s, env);
    } else {
      assert s.ptp.cfg == start.cfg by { WayKeepsConfig(s.ptp, start, n, d); }
      ClockTick(s.ptp, start, n, d, env.ptpRead);
      ObserveClock(s, env);
      if s.state == Running { RunningReacts(s, env); } else { DegradedReacts(s, env); }
    }
  }

  lemma {:induction false} SilenceProgress(s: Orch, ops: seq<Op>, d: nat)
    requires Noticing(s, s.ptp, 0, d) && s.ptp.cfg.syncTimeoutNs * 10 < U64_RANGE
    requires Quiet(ops) && NoSync(ops) && Readable(s, ops, d)
    ensures Noticing(Run(s, ops), s.ptp, Ticks(ops), d)
  {
    hide Tick, OnTheWay, Times, PhcNs;
    if ops == [] {
    } else {
      var n := |ops| - 1;
      SilenceProgress(s, ops[..n], d);
      var m := Run(s, ops[..n]);
      if ops[n].TickOp? {
        NoticingTick(m, s.ptp, Ticks(ops[..n]), d, ops[n].env);
      } else {
        BetweenTicks(m, ops[n]);
      }
    }
  }

  // Nothing is left of the way after the computed number of ticks.
  lemma WayEnds(p: P.Ptp, start: P.Ptp, n: nat, d: nat)
    requires d > 0 && n >= LossTicks(start.cfg, d)
    ensures !OnTheWay(p, start, n, d)
  {
    DivBelow(start.cfg.syncTimeoutNs, d, n - 1);
    DivBelow(EnduredNs(start.cfg), d, n);
    TimesSucc(n - 1, d);
  }

  // Response to a lost clock: from a running or degraded state with a listening
  // clock and no further Sync message, under a readable PHC advancing at least
  // d nanoseconds per tick, the safe state is reached within a number of ticks
  // computed from the sync timeout and the holdover budget.
  lemma ClockLossIsSafe(s: Orch, ops: seq<Op>, d: nat)
    requires s.initialised && (s.state == Running || s.state == Degraded)
    requires ClockOk(s) && Listening(s.ptp) && s.ptp.cfg.syncTimeoutNs * 10 < U64_RANGE
    requires Quiet(ops) && NoSync(ops) && Readable(s, ops, d)
    requires d > 0 && Ticks(ops) >= LossTicks(s.ptp.cfg, d)
    ensures Run(s, ops).state == SafeState
  {
    hide Run, Times, LossTicks;
    SilenceProgress(s, ops, d);
    WayEnds(Run(s, ops).ptp, s.ptp, Ticks(ops), d);
  }

  // The same from every reachable state.
  lemma ClockLossOnEveryRun(cfg: Config, boot: InitEnv, before: seq<Op>, ops: seq<Op>, d: nat)
    requires SyncWritesSucceed(before) && Quiet(ops) && NoSync(ops) && d > 0
    ensures var s := Run(Booted(cfg, boot), before);
            && (s.state == Running || s.state == Degraded)
            && Listening(s.ptp) && s.ptp.cfg.syncTimeoutNs * 10 < U64_RANGE
            && Readable(s, ops, d) && Ticks(ops) >= LossTicks(s.ptp.cfg, d)
            ==> Run(s, ops).state == SafeState
  {
    hide Booted, Run, Listening, Readable, LossTicks, PortsOk, SyncedSinceStart;
    var s := Run(Booted(cfg, boot), before);
    RunInv(cfg, boot, before);
    ClockOnEveryRun(cfg, boot, before);
    if && (s.state == Running || s.state == Degraded) && Listening(s.ptp) && s.ptp.cfg.syncTimeoutNs * 10 < U64_RANGE
       && Readable(s, ops, d) && Ticks(ops) >= LossTicks(s.ptp.cfg, d)
    {
      ClockLossIsSafe(s, ops, d);
    }
  }

  // The hardware layer itself never answers a PHC read with the holdover code.
  predicate HonestReads(ops: seq<Op>) {
    forall k :: 0 <= k < |ops| && ops[k].TickOp? ==> ops[k].env.ptpRead != PhcFail(PtpHoldoverExpired)
  }

  lemma DeafTick(p: P.Ptp, read: PhcRead, write: Status)
    requires P.HoldoverInv(p) && !Listening(p) && read != PhcFail(PtpHoldoverExpired)
    ensures var (p', st) := P.Tick(p, read, write);
            !Listening(p') && p'.sync != P.Holdover && st != Err(PtpHoldoverExpired)
  {
    hide PhcNs;
  }

  lemma DeafStep(s: Orch, op: Op)
    requires ClockOk(s) && !Listening(s.ptp) && !op.SyncOp?
    requires op.TickOp? ==> op.env.ptpRead != PhcFail(PtpHoldoverExpired)
    ensures var s' := Step(s, op);
            !Listening(s'.ptp) && s'.ptp.sync != P.Holdover && s'.faults.holdover == s.faults.holdover
  {
    hide Tick, P.Tick, ApplyAt, ApplyStatus, PortIndex, DisableAllFrom, F.Receive;
    if op.TickOp? {
      DeafTick(s.ptp, op.env.ptpRead, op.env.driftWrite);
      TickMovesClock(s, op.env);
    }
  }

  // A clock that is not listening never notices: without a further Sync no run
  // makes it do so, enters holdover or latches the holdover fault, however long
  // the silence and whatever the PHC reads. A Sync received in holdover is
  // enough to get there: it leaves the clock locking, and locking has no timeout.
  lemma {:induction false} ClockLossUnnoticed(s: Orch, ops: seq<Op>)
    requires ClockOk(s) && !Listening(s.ptp) && NoSync(ops) && HonestReads(ops)
    ensures var e := Run(s, ops);
            ClockOk(e) && !Listening(e.ptp) && e.ptp.sync != P.Holdover && e.faults.holdover == s.faults.holdover
  {
    hide Step;
    if ops == [] {
    } else {
      var m, op := Run(s, ops[..|ops| - 1]), ops[|ops| - 1];
      ClockLossUnnoticed(s, ops[..|ops| - 1]);
      ClockStep(m, op);
      DeafStep(m, op);
    }
  }
}
