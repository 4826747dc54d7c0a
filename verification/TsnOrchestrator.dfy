// The orchestrator: it owns the clock, the stream table and one gate control
// manager per scheduled port, and drives them from a single tick.
module TsnOrchestrators {
  import opened TsnTypes
  import opened GateSchedule
  import opened GateControl
  import opened GateControlManagers
  import opened PtpClockManagers
  import opened FrerManagers
  import opened Orchestration
  import opened AuditRing
  import P = PtpClock
  import F = FrerStreams

  const FAULT_PTP_HOLDOVER: bv32 := 1
  const FAULT_FRER_LATENT: bv32 := 2
  const FAULT_MACSEC_AUTH: bv32 := 4
  const FAULT_HAL_INTEGRITY: bv32 := 8
  const FAULT_NC_DEADLINE: bv32 := 16

  predicate HasFault(mask: bv32, bits: bv32) {
    mask & bits != 0
  }

  function Latch(mask: bv32, bits: bv32): bv32 {
    mask | bits
  }

  function FaultsOf(mask: bv32): Faults {
    Faults(HasFault(mask, FAULT_PTP_HOLDOVER), HasFault(mask, FAULT_FRER_LATENT), HasFault(mask, FAULT_MACSEC_AUTH),
           HasFault(mask, FAULT_HAL_INTEGRITY), HasFault(mask, FAULT_NC_DEADLINE))
  }

  lemma LatchOther(mask: bv32, bit: bv32, other: bv32)
    requires other & bit == 0
    ensures HasFault(Latch(mask, bit), other) <==> HasFault(mask, other)
  {
  }

  lemma LatchSelf(mask: bv32, bit: bv32)
    requires bit & bit != 0
    ensures HasFault(Latch(mask, bit), bit)
    ensures !HasFault(0, bit)
  {
  }

  // Setting a bit latches that fault and no other.
  lemma LatchFault(mask: bv32, bit: bv32)
    requires bit in {FAULT_PTP_HOLDOVER, FAULT_FRER_LATENT, FAULT_MACSEC_AUTH, FAULT_HAL_INTEGRITY, FAULT_NC_DEADLINE}
    ensures var f := FaultsOf(mask);
            FaultsOf(Latch(mask, bit))
            == if bit == FAULT_PTP_HOLDOVER then f.(holdover := true)
               else if bit == FAULT_FRER_LATENT then f.(frerLatent := true)
               else if bit == FAULT_MACSEC_AUTH then f.(macsecAuth := true)
               else if bit == FAULT_HAL_INTEGRITY then f.(halIntegrity := true)
               else f.(ncDeadline := true)
  {
    hide HasFault, Latch;
    LatchSelf(mask, bit);
    if bit != FAULT_PTP_HOLDOVER { LatchOther(mask, bit, FAULT_PTP_HOLDOVER); }
    if bit != FAULT_FRER_LATENT { LatchOther(mask, bit, FAULT_FRER_LATENT); }
    if bit != FAULT_MACSEC_AUTH { LatchOther(mask, bit, FAULT_MACSEC_AUTH); }
    if bit != FAULT_HAL_INTEGRITY { LatchOther(mask, bit, FAULT_HAL_INTEGRITY); }
    if bit != FAULT_NC_DEADLINE { LatchOther(mask, bit, FAULT_NC_DEADLINE); }
  }

  lemma NothingLatched()
    ensures FaultsOf(0) == NO_FAULTS
  {
  }

  // The bits of the mask as the health metrics show it.
  lemma FaultBits()
    ensures FaultsOf(0x01) == NO_FAULTS.(holdover := true) && FaultsOf(0x02) == NO_FAULTS.(frerLatent := true)
    ensures FaultsOf(0x04) == NO_FAULTS.(macsecAuth := true) && FaultsOf(0x08) == NO_FAULTS.(halIntegrity := true)
    ensures FaultsOf(0x10) == NO_FAULTS.(ncDeadline := true)
  {
  }

  lemma TriggerMasks(mask: bv32)
    ensures HasFault(mask, FAULT_PTP_HOLDOVER | FAULT_NC_DEADLINE) <==> FaultsOf(mask).SafeStateTrigger()
    ensures HasFault(mask, FAULT_FRER_LATENT | FAULT_MACSEC_AUTH | FAULT_HAL_INTEGRITY)
       <==> FaultsOf(mask).DegradeTrigger()
  {
  }

  ghost function Views(gs: seq<GateControlManager>): (v: seq<Gcm>)
    reads gs
    ensures |v| == |gs|
    ensures forall i :: 0 <= i < |gs| ==> v[i] == gs[i].View()
  {
    if gs == [] then [] else Views(gs[..|gs| - 1]) + [gs[|gs| - 1].View()]
  }

  lemma ConstructedStep(gcms: GcmList, n: nat)
    ensures Constructed(gcms, 0) == gcms
    ensures n < MAX_SWITCH_PORTS ==>
              var g := Constructed(gcms, n);
              Constructed(gcms, n + 1) == if n < |g| then g[n := NewGcm(n)] else g + [NewGcm(n)]
  {
    hide NewGcm, NewGcms;
  }

  lemma NoMismatch(v: seq<Gcm>, oper: int -> OperRead)
    ensures !AnyMismatch(v[..0], oper)
  {
  }

  lemma MismatchUpTo(v: seq<Gcm>, oper: int -> OperRead, i: nat)
    requires i < |v|
    ensures AnyMismatch(v[..i + 1], oper)
       <==> AnyMismatch(v[..i], oper) || (v[i].scheduleActive && Verification(v[i], oper(i)) != Ok)
  {
    hide Verification;
    var a, b := v[..i + 1], v[..i];
    assert forall k :: 0 <= k < i ==> a[k] == b[k];
    assert a[i] == v[i];
  }

  const NO_ENTRY := AuditEntry(0, Uninitialized, Uninitialized, NoError, 0)

  class TsnOrchestrator {
    const hal: SwitchHal
    const ptpManager: PtpClockManager
    const frerManager: FrerManager
    var cfg: Config
    var state: State
    var initialised: bool
    // The managers constructed, in port order, and the count the loops over
    // them run to; positions past the last manager are null and skipped.
    var gcManagers: seq<GateControlManager>
    var gcmCount: u8
    var ptpConvergenceStartNs: u64
    var lastHealthCheckNs: u64
    var monotonicNs: u64
    var activeFaultMask: bv32
    const auditLog: array<AuditEntry>
    var auditHead: u8
    var auditCount: u8
    ghost var history: seq<AuditEntry>

    ghost function Repr(): set<object>
      reads this
    {
      {this, hal, ptpManager, frerManager, frerManager.states, frerManager.entries, auditLog}
      + (set g | g in gcManagers)
    }

    // The managers are distinct and write to the one hardware layer.
    ghost predicate PortsValid()
      reads `gcManagers, `gcmCount, gcManagers
    {
      && |gcManagers| <= gcmCount <= MAX_SWITCH_PORTS
      && (forall i, j :: 0 <= i < j < |gcManagers| ==> gcManagers[i] != gcManagers[j])
      && (forall i :: 0 <= i < |gcManagers| ==> gcManagers[i].Valid() && gcManagers[i].hal == hal)
    }

    ghost predicate LogValid()
      reads `auditHead, `auditCount, `history, auditLog
    {
      RingOk(auditLog[..], auditHead, auditCount, history)
    }

    ghost predicate Valid()
      reads Repr()
    {
      PortsValid() && frerManager.Valid() && LogValid()
    }

    ghost function PortsView(): Ports
      requires PortsValid()
      reads `gcManagers, `gcmCount, gcManagers, hal
    {
      Ports(Views(gcManagers), hal.trace)
    }

    ghost function View(): Orch
      requires Valid()
      reads Repr()
    {
      Orch(cfg, state, initialised, ptpManager.View(), frerManager.View(), Views(gcManagers),
           ptpConvergenceStartNs, lastHealthCheckNs, monotonicNs, FaultsOf(activeFaultMask), history, hal.trace)
    }

    constructor (hal: SwitchHal)
      ensures Valid() && this.hal == hal && gcmCount == 0 && fresh(Repr() - {hal})
      ensures View() == Created().(trace := hal.trace)
    {
      this.hal := hal;
      ptpManager := new PtpClockManager();
      frerManager := new FrerManager();
      cfg, state, initialised := NoConfig(), Uninitialized, false;
      gcManagers, gcmCount := [], 0;
      ptpConvergenceStartNs, lastHealthCheckNs, monotonicNs, activeFaultMask := 0, 0, 0, 0;
      auditLog := new AuditEntry[AUDIT_LOG_SIZE](_ => NO_ENTRY);
      auditHead, auditCount, history := 0, 0, [];
      new;
      NothingLatched();
    }

    // ---- Audit log -------------------------------------------------------------

    method LogStateTransition(from: State, to: State, trigger: ErrorCode, portOrStream: u8, nowNs: u64)
      requires LogValid()
      modifies this`auditHead, this`auditCount, this`history, auditLog
      ensures LogValid()
      ensures history == old(history) + [AuditEntry(nowNs, from, to, trigger, portOrStream)]
    {
      var entry := AuditEntry(nowNs, from, to, trigger, portOrStream);
      RingPush(auditLog[..], auditHead, auditCount, history, entry);
      auditLog[auditHead] := entry;
      assert auditLog[..] == old(auditLog[..])[auditHead := entry];
      auditHead := (auditHead + 1) % AUDIT_LOG_SIZE;
      if auditCount < AUDIT_LOG_SIZE { auditCount := auditCount + 1; }
      history := history + [entry];
    }

    // ---- Loops over the ports ------------------------------------------------------

    method ApplyToPort(i: nat, params: ScheduleParams, answer: Status) returns (s: Status)
      requires PortsValid() && i < |gcManagers|
      modifies gcManagers[i], hal
      ensures PortsValid()
      ensures PortsView() == ApplyAt(old(PortsView()), i, params, answer)
      ensures s == ApplyStatus(params, answer)
    {
      hide Applied, ApplyEvents, ApplyStatus, Accepted;
      s := gcManagers[i].ApplySchedule(params, answer);
      assert Views(gcManagers) == old(Views(gcManagers))[i := Applied(old(gcManagers[i].View()), params, answer)];
    }

    method DisablePort(i: nat, answer: Status)
      requires PortsValid() && i < |gcManagers|
      modifies gcManagers[i], hal
      ensures PortsValid()
      ensures PortsView() == DisableAt(old(PortsView()), i, answer)
    {
      hide Disabled, Accepted;
      var _ := gcManagers[i].DisableSchedule(answer);
      assert Views(gcManagers) == old(Views(gcManagers))[i := Disabled(old(gcManagers[i].View()), answer)];
    }

    method LoadSchedules(answers: int -> Status) returns (s: Status)
      requires PortsValid()
      modifies gcManagers, hal
      ensures PortsValid()
      ensures (PortsView(), s) == LoadFrom(old(PortsView()), cfg.schedules, answers, 0)
    {
      hide Applied, ApplyEvents, ApplyStatus, Accepted, ApplyAt;
      ghost var goal := LoadFrom(PortsView(), cfg.schedules, answers, 0);
      for i := 0 to |gcManagers|
        invariant PortsValid()
        invariant LoadFrom(PortsView(), cfg.schedules, answers, i) == goal
      {
        s := ApplyToPort(i, cfg.schedules[i], answers(i));
        if s.Err? { return; }
      }
      s := Ok;
    }

    method ApplyToAllPorts(params: ScheduleParams, answers: int -> Status)
      requires PortsValid()
      modifies gcManagers, hal
      ensures PortsValid()
      ensures PortsView() == ApplyAllFrom(old(PortsView()), params, answers, 0)
    {
      hide Applied, ApplyEvents, ApplyStatus, Accepted, ApplyAt;
      ghost var goal := ApplyAllFrom(PortsView(), params, answers, 0);
      for i := 0 to |gcManagers|
        invariant PortsValid()
        invariant ApplyAllFrom(PortsView(), params, answers, i) == goal
      {
        var _ := ApplyToPort(i, params, answers(i));
      }
    }

    method DisableAllPorts(answers: int -> Status)
      requires PortsValid()
      modifies gcManagers, hal
      ensures PortsValid()
      ensures PortsView() == DisableAllFrom(old(PortsView()), answers, 0)
    {
      hide Disabled, Accepted, DisableAt;
      ghost var goal := DisableAllFrom(PortsView(), answers, 0);
      for i := 0 to |gcManagers|
        invariant PortsValid()
        invariant DisableAllFrom(PortsView(), answers, i) == goal
      {
        DisablePort(i, answers(i));
      }
    }

    method InitFrerStreams(answers: int -> Status) returns (s: Status)
      requires frerManager.Valid()
      modifies frerManager, frerManager.states, frerManager.entries
      ensures frerManager.Valid()
      ensures (frerManager.View(), s) == RegisterFrom(old(frerManager.View()), cfg.frerStreams, answers, 0)
    {
      hide F.Register;
      ghost var goal := RegisterFrom(frerManager.View(), cfg.frerStreams, answers, 0);
      for i := 0 to |cfg.frerStreams|
        invariant frerManager.Valid()
        invariant RegisterFrom(frerManager.View(), cfg.frerStreams, answers, i) == goal
      {
        s := frerManager.RegisterStream(cfg.frerStreams[i], answers(i));
        if s.Err? { return; }
      }
      s := Ok;
    }

    // ---- Transitions -----------------------------------------------------------------

    // What the fields show of the state, for reasoning with View() as a whole.
    lemma Fields()
      requires Valid()
      ensures View().state == state && View().initialised == initialised && View().cfg == cfg
      ensures View().faults == FaultsOf(activeFaultMask)
      ensures View().ptp == ptpManager.View() && View().frer == frerManager.View()
      ensures View().monotonicNs == monotonicNs && View().lastHealthCheckNs == lastHealthCheckNs
      ensures View().convergenceStartNs == ptpConvergenceStartNs
      ensures PortsOf(View()) == PortsView()
    {
    }

    // Log a transition, then take it.
    method EnterState(to: State, trigger: ErrorCode, nowNs: u64)
      requires Valid()
      modifies this`state, this`auditHead, this`auditCount, this`history, auditLog
      ensures Valid() && View() == Enter(old(View()), to, trigger, nowNs)
    {
      hide PortsValid, PtpClockManager.View, FrerManager.View, FrerManager.Valid, LogValid, Views;
      LogStateTransition(state, to, trigger, 0, nowNs);
      state := to;
    }

    // Current PHC time, zero when it cannot be read.
    function ReadNowNs(read: PhcRead): (nowNs: u64)
      reads ptpManager
      ensures nowNs == P.CurrentNs(ptpManager.View(), read)
    {
      var t := ptpManager.GetCurrentTime(read);
      if t.PhcOk? then PhcNs(t) else 0
    }

    method EnterSafeState(trigger: ErrorCode, env: TickEnv) returns (s: Status)
      requires Valid()
      modifies this`state, this`auditHead, this`auditCount, this`history, auditLog, gcManagers, hal
      ensures Valid() && s == Ok
      ensures View() == Orchestration.EnterSafeState(old(View()), trigger, env)
    {
      hide ApplyAllFrom, P.CurrentNs, PtpClockManager.View, FrerManager.View, FrerManager.Valid, LogValid, Views;
      var nowNs := ReadNowNs(env.log);
      ApplyToAllPorts(cfg.safeStateSchedule, env.apply);
      EnterState(SafeState, trigger, nowNs);
      return Ok;
    }

    method EnterFault(trigger: ErrorCode, env: TickEnv) returns (s: Status)
      requires Valid()
      modifies this`state, this`auditHead, this`auditCount, this`history, auditLog, gcManagers, hal
      ensures Valid() && s == Ok
      ensures View() == Orchestration.EnterFault(old(View()), trigger, env)
    {
      hide DisableAllFrom, P.CurrentNs, PtpClockManager.View, FrerManager.View, FrerManager.Valid, LogValid, Views;
      var nowNs := ReadNowNs(env.log);
      DisableAllPorts(env.disable);
      EnterState(Fault, trigger, nowNs);
      return Ok;
    }

    // ---- The stages of a tick ------------------------------------------------------------

    method TickPtp(env: TickEnv)
      requires Valid()
      modifies this`activeFaultMask, ptpManager
      ensures Valid()
      ensures View() == Orchestration.TickPtp(old(View()), env)
    {
      hide P.Tick, FaultsOf, Latch, PortsValid, PtpClockManager.View, FrerManager.View, FrerManager.Valid, LogValid;
      hide Views;
      var s := ptpManager.Tick(env.ptpRead, env.driftWrite);
      LatchFault(activeFaultMask, FAULT_PTP_HOLDOVER);
      if s == Err(PtpHoldoverExpired) {
        activeFaultMask := Latch(activeFaultMask, FAULT_PTP_HOLDOVER);
      }
    }

    method TickFrer(nowNs: u64)
      requires Valid()
      modifies this`activeFaultMask, frerManager.states
      ensures Valid()
      ensures View() == Orchestration.TickFrer(old(View()), nowNs)
    {
      hide F.Tick, FaultsOf, Latch, PortsValid, PtpClockManager.View, FrerManager.View, FrerManager.Valid, LogValid;
      hide Views;
      var s := frerManager.Tick(nowNs);
      LatchFault(activeFaultMask, FAULT_FRER_LATENT);
      if s == Err(FrerLatentError) {
        activeFaultMask := Latch(activeFaultMask, FAULT_FRER_LATENT);
      }
    }

    // Reads one port back if its schedule is active.
    method VerifyPort(i: nat, read: OperRead) returns (bad: bool)
      requires PortsValid() && i < |gcManagers|
      modifies gcManagers[i]
      ensures PortsValid() && Views(gcManagers) == old(Views(gcManagers))
      ensures bad == (Views(gcManagers)[i].scheduleActive && Verification(Views(gcManagers)[i], read) != Ok)
    {
      hide Verification, Accepted, Views;
      ghost var was := Views(gcManagers);
      bad := false;
      if gcManagers[i].scheduleActive {
        var s := gcManagers[i].VerifyHardwareSchedule(read);
        bad := s.Err?;
      }
      assert Views(gcManagers) == was;
    }

    // Reads back every active port.
    method VerifyPorts(oper: int -> OperRead) returns (mismatch: bool)
      requires PortsValid()
      modifies gcManagers
      ensures PortsValid() && Views(gcManagers) == old(Views(gcManagers))
      ensures mismatch == AnyMismatch(Views(gcManagers), oper)
    {
      hide Verification, Views, AnyMismatch, GateControlManager.Valid, GateControlManager.View;
      ghost var v := Views(gcManagers);
      mismatch := false;
      NoMismatch(v, oper);
      for i := 0 to |gcManagers|
        invariant PortsValid() && Views(gcManagers) == v
        invariant mismatch <==> AnyMismatch(v[..i], oper)
      {
        MismatchUpTo(v, oper, i);
        var bad := VerifyPort(i, oper(i));
        if bad { mismatch := true; }
      }
      assert v[..|gcManagers|] == v;
    }

    method SumMacsecFailures(fails: int -> MacsecRead) returns (total: u64)
      ensures total == MacsecTotal(fails, MAX_SECURE_CHANNELS)
    {
      total := 0;
      for ch := 0 to MAX_SECURE_CHANNELS
        invariant total == MacsecTotal(fails, ch)
      {
        if fails(ch).MacsecCount? { total := Wrap64(total + fails(ch).count); }
      }
    }

    method CheckPorts(env: TickEnv)
      requires Valid()
      modifies this`activeFaultMask, gcManagers
      ensures Valid()
      ensures var f := old(View()).faults;
              var mismatch := AnyMismatch(old(View()).gcms, env.oper);
              View() == old(View()).(faults := f.(halIntegrity := f.halIntegrity || mismatch))
    {
      hide AnyMismatch, FaultsOf, Latch, PortsValid, PtpClockManager.View, FrerManager.View, FrerManager.Valid;
      hide LogValid, Views;
      var mismatch := VerifyPorts(env.oper);
      LatchFault(activeFaultMask, FAULT_HAL_INTEGRITY);
      if mismatch { activeFaultMask := Latch(activeFaultMask, FAULT_HAL_INTEGRITY); }
    }

    method CheckMacsec(env: TickEnv)
      requires Valid()
      modifies this`activeFaultMask
      ensures Valid()
      ensures var f := old(View()).faults;
              var failed := MacsecTotal(env.macsecFails, MAX_SECURE_CHANNELS) > 0;
              View() == old(View()).(faults := f.(macsecAuth := f.macsecAuth || failed))
    {
      hide MacsecTotal, FaultsOf, Latch, PortsValid, PtpClockManager.View, FrerManager.View, FrerManager.Valid;
      hide LogValid, Views;
      var totalMacsecFails := SumMacsecFailures(env.macsecFails);
      LatchFault(activeFaultMask, FAULT_MACSEC_AUTH);
      if totalMacsecFails > 0 { activeFaultMask := Latch(activeFaultMask, FAULT_MACSEC_AUTH); }
    }

    method TickIntegrityCheck(env: TickEnv) returns (s: Status)
      requires Valid()
      modifies this`activeFaultMask, gcManagers
      ensures Valid() && s == Ok
      ensures View() == Orchestration.TickIntegrity(old(View()), env)
    {
      hide AnyMismatch, MacsecTotal, View, Valid;
      CheckPorts(env);
      CheckMacsec(env);
      return Ok;
    }

    method TickDegradationMachine(env: TickEnv) returns (s: Status)
      requires Valid()
      modifies this`activeFaultMask, this`state, this`auditHead, this`auditCount, this`history, auditLog,
               gcManagers, hal
      ensures Valid() && s == Ok
      ensures View() == Orchestration.TickDegradation(old(View()), env)
    {
      hide Orchestration.EnterSafeState, HasFault, Latch, PortsValid, P.CurrentNs, PtpClockManager.View;
      hide FrerManager.View, FrerManager.Valid, LogValid, Views;
      if state != Running && state != Degraded { return Ok; }
      TriggerMasks(activeFaultMask);
      if HasFault(activeFaultMask, FAULT_PTP_HOLDOVER | FAULT_NC_DEADLINE) {
        var trigger := if HasFault(activeFaultMask, FAULT_PTP_HOLDOVER) then PtpHoldoverExpired else DeadlineViolation;
        s := EnterSafeState(trigger, env);
        return;
      }
      if HasFault(activeFaultMask, FAULT_FRER_LATENT | FAULT_MACSEC_AUTH | FAULT_HAL_INTEGRITY) && state == Running {
        var trigger := if HasFault(activeFaultMask, FAULT_FRER_LATENT) then FrerLatentError else MacsecReplayAttack;
        var nowNs := ReadNowNs(env.log);
        Fields();
        EnterState(Degraded, trigger, nowNs);
        return Ok;
      }
      if state == Degraded && HasFault(activeFaultMask, FAULT_HAL_INTEGRITY) {
        LatchFault(activeFaultMask, FAULT_NC_DEADLINE);
        activeFaultMask := Latch(activeFaultMask, FAULT_NC_DEADLINE);
        s := EnterSafeState(DeadlineViolation, env);
        return;
      }
      return Ok;
    }

    method RegisterStreams(answers: int -> Status) returns (s: Status)
      requires Valid()
      modifies frerManager, frerManager.states, frerManager.entries
      ensures Valid()
      ensures var (f, st) := RegisterFrom(old(View()).frer, cfg.frerStreams, answers, 0);
              View() == old(View()).(frer := f) && s == st
    {
      hide RegisterFrom, PortsValid, PtpClockManager.View, FrerManager.View, FrerManager.Valid, LogValid, Views;
      s := InitFrerStreams(answers);
    }

    // Note the synchronised clock and load every port.
    method LoadSynchronised(answers: int -> Status) returns (s: Status)
      requires Valid()
      modifies gcManagers, hal
      ensures Valid()
      ensures var marked := Ports(old(View()).gcms, old(View()).trace + [SyncObserved]);
              var (b, st) := LoadFrom(marked, cfg.schedules, answers, 0);
              View() == WithPorts(old(View()), b) && s == st
    {
      hide LoadFrom, PtpClockManager.View, FrerManager.View, FrerManager.Valid, LogValid, Views;
      hal.Mark(SyncObserved);
      s := LoadSchedules(answers);
    }

    method ConvergeSynchronised(nowNs: u64, env: TickEnv) returns (s: Status)
      requires Valid()
      modifies this`state, this`auditHead, this`auditCount, this`history, auditLog, gcManagers, hal,
               frerManager, frerManager.states, frerManager.entries
      ensures Valid()
      ensures (View(), s) == Orchestration.ConvergeSynchronised(old(View()), nowNs, env)
    {
      hide Orchestration.EnterFault, LoadFrom, RegisterFrom, View, Valid;
      Fields();
      s := LoadSynchronised(env.apply);
      Fields();
      if s.Err? {
        var _ := EnterFault(s.error, env);
        return;
      }
      s := RegisterStreams(env.frerRegister);
      if s.Err? { return; }
      EnterState(Running, NoError, nowNs);
      return Ok;
    }

    method ConvergeWaiting(env: TickEnv) returns (s: Status)
      requires Valid()
      modifies this`state, this`ptpConvergenceStartNs, this`auditHead, this`auditCount, this`history, auditLog,
               gcManagers, hal
      ensures Valid()
      ensures (View(), s) == Orchestration.ConvergeWaiting(old(View()), env)
    {
      hide Orchestration.EnterFault, PortsValid, Wrap64, PtpClockManager.View, FrerManager.View, FrerManager.Valid;
      hide LogValid, Views;
      if ptpConvergenceStartNs == 0 { ptpConvergenceStartNs := monotonicNs; }
      var elapsedMs := Wrap64(monotonicNs - ptpConvergenceStartNs) / 1_000_000;
      if elapsedMs > cfg.ptpConvergenceTimeoutMs {
        var _ := EnterFault(PtpNotSynchronised, env);
        return Err(PtpNotSynchronised);
      }
      return Ok;
    }

    method AdvanceClock()
      requires Valid()
      modifies this`monotonicNs
      ensures Valid()
      ensures View() == old(View()).(monotonicNs := Wrap64(old(monotonicNs) + cfg.tickPeriodUs * 1_000))
    {
      hide Wrap64, PortsValid, PtpClockManager.View, FrerManager.View, FrerManager.Valid, LogValid, Views;
      monotonicNs := Wrap64(monotonicNs + cfg.tickPeriodUs * 1_000);
    }

    method TickHealth(nowNs: u64, env: TickEnv)
      requires Valid()
      modifies this`lastHealthCheckNs, this`activeFaultMask, gcManagers
      ensures Valid()
      ensures View() == Orchestration.TickHealth(old(View()), nowNs, env)
    {
      hide Orchestration.TickIntegrity, Wrap64, PortsValid, PtpClockManager.View, FrerManager.View;
      hide FrerManager.Valid, LogValid, Views;
      if Wrap64(nowNs - lastHealthCheckNs) >= HEALTH_CHECK_INTERVAL_NS {
        var _ := TickIntegrityCheck(env);
        lastHealthCheckNs := nowNs;
      }
    }

    // Everything a tick does before the state machines.
    method ObserveInputs(env: TickEnv) returns (nowNs: u64)
      requires Valid()
      modifies this`monotonicNs, this`lastHealthCheckNs, this`activeFaultMask, ptpManager, frerManager.states,
               gcManagers
      ensures Valid() && nowNs == P.CurrentNs(old(View()).ptp, env.start)
      ensures View() == Observe(old(View()), env)
    {
      hide Orchestration.TickPtp, Orchestration.TickFrer, Orchestration.TickHealth, P.CurrentNs, View, Valid;
      Fields();
      nowNs := ReadNowNs(env.start);
      AdvanceClock();
      TickPtp(env);
      TickFrer(nowNs);
      TickHealth(nowNs, env);
    }

    method Tick(env: TickEnv) returns (s: Status)
      requires Valid()
      modifies this`monotonicNs, this`lastHealthCheckNs, this`activeFaultMask, this`state, this`ptpConvergenceStartNs,
               this`auditHead, this`auditCount, this`history, auditLog, gcManagers, hal,
               ptpManager, frerManager, frerManager.states, frerManager.entries
      ensures Valid()
      ensures (View(), s) == Orchestration.Tick(old(View()), env)
    {
      hide Observe, Orchestration.TickDegradation, Orchestration.ConvergeSynchronised, Orchestration.ConvergeWaiting;
      hide P.CurrentNs, P.IsSynchronised, View, Valid;
      hide ReadNowNs, PtpClockManager.IsSynchronised;
      Fields();
      if state == Fault { return Err(OperationNotPermitted); }
      if !initialised { return Err(NotInitialised); }
      var nowNs := ObserveInputs(env);
      s := TickDegradationMachine(env);
      Fields();
      if state == PtpConverging {
        if ptpManager.IsSynchronised() {
          s := ConvergeSynchronised(nowNs, env);
        } else {
          s := ConvergeWaiting(env);
        }
      }
    }

    // ---- Lifecycle and updates ---------------------------------------------------------------

    method Start() returns (s: Status)
      requires Valid()
      modifies this`state, this`ptpConvergenceStartNs, hal
      ensures Valid()
      ensures (View(), s) == Orchestration.Start(old(View()))
    {
      hide PortsValid, PtpClockManager.View, FrerManager.View, FrerManager.Valid, LogValid, Views;
      if !initialised { return Err(NotInitialised); }
      state := PtpConverging;
      ptpConvergenceStartNs := 0;
      hal.Mark(Started);
      return Ok;
    }

    method Stop(answers: int -> Status) returns (s: Status)
      requires Valid()
      modifies this`state, gcManagers, hal
      ensures Valid() && s == Ok
      ensures View() == Orchestration.Stop(old(View()), answers)
    {
      hide DisableAllFrom, PortsValid, PtpClockManager.View, FrerManager.View, FrerManager.Valid, LogValid, Views;
      DisableAllPorts(answers);
      state := Uninitialized;
      return Ok;
    }

    method UpdatePortSchedule(port: u8, params: ScheduleParams, answer: Status) returns (s: Status)
      requires Valid()
      modifies gcManagers, hal
      ensures Valid()
      ensures (View(), s) == Orchestration.Update(old(View()), port, params, answer)
      ensures state != Running ==> s == Err(OperationNotPermitted) && View() == old(View())
    {
      hide ApplyAt, ApplyStatus, PtpClockManager.View, FrerManager.View, FrerManager.Valid, LogValid;
      if state != Running { return Err(OperationNotPermitted); }
      ghost var goal := PortIndex(Views(gcManagers), port, 0);
      for i := 0 to |gcManagers|
        invariant PortIndex(Views(gcManagers), port, i) == goal
      {
        if gcManagers[i].port == port {
          s := ApplyToPort(i, params, answer);
          return;
        }
      }
      return Err(HalPortOutOfRange);
    }

    // The receive paths, which run between ticks.
    method ReceiveSync(rx: u64, tx: u64, correction: i64, write: Status) returns (s: Status)
      requires Valid() && P.SyncDefined(ptpManager.View(), rx, tx, correction)
      modifies ptpManager
      ensures Valid()
      ensures View() == old(View()).(ptp := P.Sync(old(ptpManager.View()), rx, tx, correction, write).0)
    {
      hide P.Sync, P.SyncDefined, PortsValid, PtpClockManager.View, FrerManager.View, FrerManager.Valid, LogValid;
      hide Views;
      s := ptpManager.InjectSyncMessage(rx, tx, correction, write);
    }

    method ReceiveFrame(handle: u16, seqNum: u16, path: F.PathIndex, nowNs: u64) returns (r: F.FrameResult)
      requires Valid()
      modifies frerManager.states
      ensures Valid()
      ensures View() == old(View()).(frer := F.Receive(old(frerManager.View()), handle, seqNum, path, nowNs).0)
    {
      hide F.Receive, PortsValid, PtpClockManager.View, FrerManager.View, FrerManager.Valid, LogValid, Views;
      r := frerManager.OnFrameReceived(handle, seqNum, path, nowNs);
    }

    // One fused scan: intervals, their sum and the safety window together.
    static method PrevalidateSchedule(p: ScheduleParams) returns (s: Status)
      ensures s == PrevalidationOf(p)
    {
      if p.entryCount == 0 || p.entryCount > MAX_GCL_ENTRIES { return Err(GclEmpty); }
      if p.cycleTimeNs < MIN_CYCLE_TIME_NS || p.cycleTimeNs > MAX_CYCLE_TIME_NS { return Err(CycleTimeTooShort); }
      var sum: u64, hasSafetyWindow := 0, false;
      for j := 0 to p.entryCount
        invariant sum == StartOf(p.gcl, j)
        invariant forall k :: 0 <= k < j ==> p.gcl[k].intervalNs != 0
        invariant hasSafetyWindow <==> exists k :: 0 <= k < j && p.gcl[k].gateStates == SAFETY_ONLY_OPEN
      {
        if p.gcl[j].intervalNs == 0 { return Err(ZeroIntervalEntry); }
        sum := Wrap64(sum + p.gcl[j].intervalNs);
        if p.gcl[j].gateStates == SAFETY_ONLY_OPEN { hasSafetyWindow := true; }
      }
      if sum != p.cycleTimeNs { return Err(IntervalSumMismatch); }
      if !hasSafetyWindow { return Err(SafetyCriticalWindowAbsent); }
      return Ok;
    }

    method PrevalidateAllSchedules() returns (s: Status)
      requires cfg.schedulePortCount <= MAX_SWITCH_PORTS
      ensures s == PrevalidationFrom(cfg, 0)
    {
      hide PrevalidationOf;
      for i := 0 to cfg.schedulePortCount
        invariant PrevalidationFrom(cfg, i) == PrevalidationFrom(cfg, 0)
      {
        s := PrevalidateSchedule(cfg.schedules[i]);
        if s.Err? { return; }
      }
      return Ok;
    }

    method InitStreamFilters(answers: int -> Status) returns (s: Status)
      ensures s == FilterFrom(answers, cfg.streamFilterCount, 0)
    {
      for i := 0 to cfg.streamFilterCount
        invariant FilterFrom(answers, cfg.streamFilterCount, i) == FilterFrom(answers, cfg.streamFilterCount, 0)
      {
        s := answers(i);
        if s.Err? { return; }
      }
      return Ok;
    }

    // Constructs the manager of one port over what its place held before.
    method PlaceManager(i: u8)
      requires PortsValid() && i <= |gcManagers| && gcmCount < MAX_SWITCH_PORTS
      modifies this`gcManagers, this`gcmCount
      ensures PortsValid() && gcmCount == old(gcmCount) + 1
      ensures Views(gcManagers) == if i < |old(gcManagers)| then old(Views(gcManagers))[i := NewGcm(i)]
                                   else old(Views(gcManagers)) + [NewGcm(i)]
      ensures forall g :: g in gcManagers ==> fresh(g) || g in old(gcManagers)
    {
      hide Views, GateControlManager.Valid, GateControlManager.View;
      ghost var v := Views(gcManagers);
      var g := new GateControlManager(i, hal);
      gcManagers := if i < |gcManagers| then gcManagers[i := g] else gcManagers + [g];
      gcmCount := gcmCount + 1;
      assert Views(gcManagers) == if i < |v| then v[i := NewGcm(i)] else v + [NewGcm(i)];
    }

    lemma PortCount()
      requires PortsValid()
      ensures |gcManagers| <= gcmCount <= MAX_SWITCH_PORTS
    {
    }

    method ConstructManagers()
      requires PortsValid() && gcmCount + cfg.schedulePortCount <= MAX_SWITCH_PORTS
      modifies this`gcManagers, this`gcmCount
      ensures PortsValid() && Views(gcManagers) == Constructed(old(Views(gcManagers)), cfg.schedulePortCount)
      ensures forall g :: g in gcManagers ==> fresh(g) || g in old(gcManagers)
    {
      hide PortsValid, Views, Constructed, NewGcm;
      PortCount();
      ghost var v := Views(gcManagers);
      ConstructedStep(v, 0);
      for i := 0 to cfg.schedulePortCount
        invariant gcmCount == old(gcmCount) + i && PortsValid()
        invariant Views(gcManagers) == Constructed(v, i)
        invariant forall g :: g in gcManagers ==> fresh(g) || g in old(gcManagers)
      {
        ConstructedStep(v, i);
        PlaceManager(i);
        PortCount();
      }
    }

    method BringUp(env: InitEnv) returns (s: Status)
      requires Valid() && gcmCount + cfg.schedulePortCount <= MAX_SWITCH_PORTS
      modifies this`gcManagers, this`gcmCount, this`initialised, this`state, ptpManager,
               frerManager, frerManager.states, frerManager.entries
      ensures Valid() && forall g :: g in gcManagers ==> fresh(g) || g in old(gcManagers)
      ensures (View(), s) == Orchestration.BringUp(old(View()), env)
    {
      hide P.Init, Constructed, PortsValid, PtpClockManager.View, FrerManager.View, FrerManager.Valid, LogValid, Views;
      ConstructManagers();
      s := ptpManager.Init(cfg.ptp, env.ptpWrite);
      if s.Err? { return; }
      var _ := frerManager.Init();
      initialised := true;
      state := Initializing;
      return Ok;
    }

    // Initialisation, also of an object initialised before. The manager count
    // accumulates, and must stay within the array it is used to index.
    method Init(config: Config, env: InitEnv) returns (s: Status)
      requires Valid()
      requires config.schedulePortCount <= MAX_SWITCH_PORTS ==> gcmCount + config.schedulePortCount <= MAX_SWITCH_PORTS
      modifies this`cfg, this`gcManagers, this`gcmCount, this`initialised, this`state, ptpManager,
               frerManager, frerManager.states, frerManager.entries
      ensures Valid() && forall g :: g in gcManagers ==> fresh(g) || g in old(gcManagers)
      ensures (View(), s) == Orchestration.Init(old(View()), config, env)
    {
      hide Orchestration.BringUp, PrevalidationFrom, FilterFrom, PtpClockManager.View, FrerManager.View;
      hide FrerManager.Valid, LogValid, Views, PortsValid;
      if config.tickPeriodUs == 0 { return Err(InvalidArgument); }
      if config.schedulePortCount > MAX_SWITCH_PORTS { return Err(InvalidArgument); }
      cfg := config;
      if env.hal.Err? { return env.hal; }
      if env.vlan.Err? { return env.vlan; }
      s := InitStreamFilters(env.filter);
      if s.Err? { return; }
      s := PrevalidateAllSchedules();
      if s.Err? { return; }
      s := BringUp(env);
    }

    // The log as a reader sees it: the most recent transitions, oldest first.
    ghost function RecentTransitions(): seq<AuditEntry>
      requires LogValid()
      reads this, auditLog
      ensures RecentTransitions() == history[|history| - Kept(|history|)..]
    {
      RingIsRecentHistory(auditLog[..], auditHead, auditCount, history);
      Read(auditLog[..], auditHead, auditCount)
    }
  }
}
