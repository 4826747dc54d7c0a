// The orchestrator as a state machine: lifecycle, degradation, watchdog, audit
// trail and the loading of schedules, with every hardware answer an input.
module Orchestration {
  import opened TsnTypes
  import opened GateSchedule
  import opened GateControl
  import P = PtpClock
  import F = FrerStreams

  const HEALTH_CHECK_INTERVAL_NS: u64 := 8_000_000

  datatype State = Uninitialized | Initializing | PtpConverging | Running | Degraded | SafeState | Fault

  function Copies(p: ScheduleParams, n: nat): (s: seq<ScheduleParams>)
    ensures |s| == n && forall i :: 0 <= i < n ==> s[i] == p
  {
    if n == 0 then [] else Copies(p, n - 1) + [p]
  }

  type ScheduleArray = s: seq<ScheduleParams> | |s| == MAX_SWITCH_PORTS witness Copies(PASS_THROUGH, MAX_SWITCH_PORTS)

  // The managers constructed for the managed ports, in port order.
  type GcmList = s: seq<Gcm> | |s| <= MAX_SWITCH_PORTS witness []

  // The configured FRER streams are the used prefix of a 64-slot array.
  type StreamList = s: seq<F.StreamEntry> | |s| <= MAX_FRER_ENTRIES witness []

  datatype Config = Config(
    ptp: P.PtpConfig, schedulePortCount: u8, schedules: ScheduleArray, frerStreams: StreamList,
    streamFilterCount: u8, safeStateSchedule: ScheduleParams,
    tickPeriodUs: u32, ptpConvergenceTimeoutMs: u32)

  datatype AuditEntry = AuditEntry(
    timestampNs: u64, previousState: State, newState: State, triggerCode: ErrorCode, portOrStream: u8)

  // The set of latched fault conditions.
  datatype Faults = Faults(holdover: bool, frerLatent: bool, macsecAuth: bool, halIntegrity: bool, ncDeadline: bool) {
    predicate SafeStateTrigger() { holdover || ncDeadline }
    predicate DegradeTrigger() { frerLatent || macsecAuth || halIntegrity }
    predicate Any() { SafeStateTrigger() || DegradeTrigger() }
    predicate Within(f: Faults) {
      && (holdover ==> f.holdover) && (frerLatent ==> f.frerLatent) && (macsecAuth ==> f.macsecAuth)
      && (halIntegrity ==> f.halIntegrity) && (ncDeadline ==> f.ncDeadline)
    }
  }

  const NO_FAULTS := Faults(false, false, false, false, false)

  // history and trace record every logged transition and every event at the
  // hardware since construction; the code keeps only the last 64 entries of the first.
  datatype Orch = Orch(
    cfg: Config, state: State, initialised: bool, ptp: P.Ptp, frer: F.Frer, gcms: GcmList,
    convergenceStartNs: u64, lastHealthCheckNs: u64, monotonicNs: u64, faults: Faults,
    history: seq<AuditEntry>, trace: seq<HalEvent>)

  datatype MacsecRead = MacsecFail | MacsecCount(count: u64)

  // The answers of the hardware to one tick. Per-port and per-channel answers
  // are functions of the index.
  datatype TickEnv = TickEnv(
    start: PhcRead, ptpRead: PhcRead, driftWrite: Status, log: PhcRead,
    oper: int -> OperRead, macsecFails: int -> MacsecRead,
    apply: int -> Status, disable: int -> Status, frerRegister: int -> Status)

  datatype InitEnv = InitEnv(hal: Status, vlan: Status, filter: int -> Status, ptpWrite: Status)

  // ---- Loops over the ports ----------------------------------------------------

  datatype Ports = Ports(gcms: GcmList, trace: seq<HalEvent>)

  function ApplyAt(b: Ports, i: nat, p: ScheduleParams, answer: Status): Ports
    requires i < |b.gcms|
  {
    Ports(b.gcms[i := Applied(b.gcms[i], p, answer)], b.trace + ApplyEvents(b.gcms[i], p, answer))
  }

  function DisableAt(b: Ports, i: nat, answer: Status): Ports
    requires i < |b.gcms|
  {
    Ports(b.gcms[i := Disabled(b.gcms[i], answer)], b.trace + [GclWrite(b.gcms[i].port, PASS_THROUGH, answer)])
  }

  // Load each port's own schedule, stopping at the first error.
  function LoadFrom(b: Ports, schedules: ScheduleArray, answers: int -> Status, i: nat): (Ports, Status)
    decreases |b.gcms| - i
  {
    if i >= |b.gcms| then (b, Ok)
    else
      var b' := ApplyAt(b, i, schedules[i], answers(i));
      var s := ApplyStatus(schedules[i], answers(i));
      if s.Err? then (b', s) else LoadFrom(b', schedules, answers, i + 1)
  }

  // Apply one schedule to every port, ignoring errors.
  function ApplyAllFrom(b: Ports, p: ScheduleParams, answers: int -> Status, i: nat): Ports
    decreases |b.gcms| - i
  {
    if i >= |b.gcms| then b else ApplyAllFrom(ApplyAt(b, i, p, answers(i)), p, answers, i + 1)
  }

  function DisableAllFrom(b: Ports, answers: int -> Status, i: nat): Ports
    decreases |b.gcms| - i
  {
    if i >= |b.gcms| then b else DisableAllFrom(DisableAt(b, i, answers(i)), answers, i + 1)
  }

  function RegisterFrom(f: F.Frer, entries: seq<F.StreamEntry>, answers: int -> Status, i: nat): (F.Frer, Status)
    decreases |entries| - i
  {
    if i >= |entries| then (f, Ok)
    else
      var (f', s) := F.Register(f, entries[i], answers(i));
      if s.Err? then (f', s) else RegisterFrom(f', entries, answers, i + 1)
  }

  function WithPorts(s: Orch, b: Ports): Orch {
    s.(gcms := b.gcms, trace := b.trace)
  }

  function PortsOf(s: Orch): Ports {
    Ports(s.gcms, s.trace)
  }

  // ---- Transitions --------------------------------------------------------------

  // Log a transition and take it.
  function Enter(s: Orch, to: State, trigger: ErrorCode, nowNs: u64): Orch {
    s.(history := s.history + [AuditEntry(nowNs, s.state, to, trigger, 0)], state := to)
  }

  function EnterSafeState(s: Orch, trigger: ErrorCode, env: TickEnv): Orch {
    Enter(WithPorts(s, ApplyAllFrom(PortsOf(s), s.cfg.safeStateSchedule, env.apply, 0)),
          SafeState, trigger, P.CurrentNs(s.ptp, env.log))
  }

  function EnterFault(s: Orch, trigger: ErrorCode, env: TickEnv): Orch {
    Enter(WithPorts(s, DisableAllFrom(PortsOf(s), env.disable, 0)), Fault, trigger, P.CurrentNs(s.ptp, env.log))
  }

  // ---- The stages of a tick -------------------------------------------------------

  function TickPtp(s: Orch, env: TickEnv): Orch {
    var (p, st) := P.Tick(s.ptp, env.ptpRead, env.driftWrite);
    s.(ptp := p, faults := if st == Err(PtpHoldoverExpired) then s.faults.(holdover := true) else s.faults)
  }

  function TickFrer(s: Orch, nowNs: u64): Orch {
    var (f, st) := F.Tick(s.frer, nowNs);
    s.(frer := f, faults := if st == Err(FrerLatentError) then s.faults.(frerLatent := true) else s.faults)
  }

  predicate AnyMismatch(gcms: seq<Gcm>, oper: int -> OperRead) {
    exists i :: 0 <= i < |gcms| && gcms[i].scheduleActive && Verification(gcms[i], oper(i)) != Ok
  }

  function MacsecTotal(fails: int -> MacsecRead, n: nat): u64 {
    if n == 0 then 0
    else if fails(n - 1).MacsecCount? then Wrap64(MacsecTotal(fails, n - 1) + fails(n - 1).count)
    else MacsecTotal(fails, n - 1)
  }

  function TickIntegrity(s: Orch, env: TickEnv): Orch {
    s.(faults := s.faults.(
      halIntegrity := s.faults.halIntegrity || AnyMismatch(s.gcms, env.oper),
      macsecAuth := s.faults.macsecAuth || MacsecTotal(env.macsecFails, MAX_SECURE_CHANNELS) > 0))
  }

  function TickHealth(s: Orch, nowNs: u64, env: TickEnv): Orch {
    if Wrap64(nowNs - s.lastHealthCheckNs) >= HEALTH_CHECK_INTERVAL_NS
    then TickIntegrity(s, env).(lastHealthCheckNs := nowNs)
    else s
  }

  function TickDegradation(s: Orch, env: TickEnv): Orch {
    if s.state != Running && s.state != Degraded then s
    else if s.faults.SafeStateTrigger() then
      EnterSafeState(s, if s.faults.holdover then PtpHoldoverExpired else DeadlineViolation, env)
    else if s.faults.DegradeTrigger() && s.state == Running then
      Enter(s, Degraded, if s.faults.frerLatent then FrerLatentError else MacsecReplayAttack,
            P.CurrentNs(s.ptp, env.log))
    else if s.state == Degraded && s.faults.halIntegrity then
      EnterSafeState(s.(faults := s.faults.(ncDeadline := true)), DeadlineViolation, env)
    else s
  }

  function ConvergeSynchronised(s: Orch, nowNs: u64, env: TickEnv): (Orch, Status) {
    var (b, loaded) := LoadFrom(Ports(s.gcms, s.trace + [SyncObserved]), s.cfg.schedules, env.apply, 0);
    var s1 := WithPorts(s, b);
    if loaded.Err? then (EnterFault(s1, loaded.error, env), loaded)
    else
      var (f, registered) := RegisterFrom(s1.frer, s1.cfg.frerStreams, env.frerRegister, 0);
      var s2 := s1.(frer := f);
      if registered.Err? then (s2, registered) else (Enter(s2, Running, NoError, nowNs), Ok)
  }

  function ConvergeWaiting(s: Orch, env: TickEnv): (Orch, Status) {
    var s1 := if s.convergenceStartNs == 0 then s.(convergenceStartNs := s.monotonicNs) else s;
    if Wrap64(s1.monotonicNs - s1.convergenceStartNs) / 1_000_000 > s1.cfg.ptpConvergenceTimeoutMs
    then (EnterFault(s1, PtpNotSynchronised, env), Err(PtpNotSynchronised))
    else (s1, Ok)
  }

  function Converge(s: Orch, nowNs: u64, env: TickEnv): (Orch, Status) {
    if s.state != PtpConverging then (s, Ok)
    else if P.IsSynchronised(s.ptp) then ConvergeSynchronised(s, nowNs, env)
    else ConvergeWaiting(s, env)
  }

  // Everything a tick does before the state machines look at the faults.
  function Observe(s: Orch, env: TickEnv): Orch {
    var nowNs := P.CurrentNs(s.ptp, env.start);
    var s1 := s.(monotonicNs := Wrap64(s.monotonicNs + s.cfg.tickPeriodUs * 1_000));
    TickHealth(TickFrer(TickPtp(s1, env), nowNs), nowNs, env)
  }

  function Tick(s: Orch, env: TickEnv): (Orch, Status) {
    if s.state == Fault then (s, Err(OperationNotPermitted))
    else if !s.initialised then (s, Err(NotInitialised))
    else Converge(TickDegradation(Observe(s, env), env), P.CurrentNs(s.ptp, env.start), env)
  }

  // ---- Lifecycle and updates ---------------------------------------------------------

  // Verdict of the prevalidation loop on one schedule.
  function PrevalidationOf(p: ScheduleParams): Status {
    if p.entryCount == 0 || p.entryCount > MAX_GCL_ENTRIES then Err(GclEmpty)
    else if p.cycleTimeNs < MIN_CYCLE_TIME_NS || p.cycleTimeNs > MAX_CYCLE_TIME_NS then Err(CycleTimeTooShort)
    else if !NoZeroInterval(p) then Err(ZeroIntervalEntry)
    else if !IntervalsFillCycle(p) then Err(IntervalSumMismatch)
    else if !HasSafetyWindow(p) then Err(SafetyCriticalWindowAbsent)
    else Ok
  }

  // First error among the schedules from port i on.
  function PrevalidationFrom(cfg: Config, i: nat): Status
    requires cfg.schedulePortCount <= MAX_SWITCH_PORTS
    decreases cfg.schedulePortCount - i
  {
    if i >= cfg.schedulePortCount then Ok
    else if PrevalidationOf(cfg.schedules[i]).Err? then PrevalidationOf(cfg.schedules[i])
    else PrevalidationFrom(cfg, i + 1)
  }

  function FilterFrom(answers: int -> Status, n: nat, i: nat): Status
    decreases n - i
  {
    if i >= n then Ok else if answers(i).Err? then answers(i) else FilterFrom(answers, n, i + 1)
  }

  function NewGcm(port: u8): Gcm {
    Gcm(port, false, PASS_THROUGH, NO_RESULT, false)
  }

  function NewGcms(n: u8): (g: seq<Gcm>)
    ensures |g| == n && forall i :: 0 <= i < n ==> g[i] == NewGcm(i)
  {
    if n == 0 then [] else NewGcms(n - 1) + [NewGcm(n - 1)]
  }

  // The managers of the first n ports, constructed afresh; any behind them stay.
  function Constructed(gcms: GcmList, n: u8): (g: GcmList)
    requires n <= MAX_SWITCH_PORTS
    ensures |g| == if |gcms| < n then n else |gcms|
    ensures forall i :: 0 <= i < |g| ==> g[i] == if i < n then NewGcm(i) else gcms[i]
  {
    if |gcms| <= n then NewGcms(n) else NewGcms(n) + gcms[n..]
  }

  function NoConfig(): Config {
    Config(P.NO_CONFIG, 0, Copies(PASS_THROUGH, MAX_SWITCH_PORTS), [], 0, PASS_THROUGH, 0, 0)
  }

  function Created(): Orch {
    Orch(NoConfig(), Uninitialized, false, P.FRESH, F.Frer(false, []), [], 0, 0, 0, NO_FAULTS, [], [])
  }

  // The phases before anything is constructed: configuration, chip, VLAN table,
  // stream filters, prevalidation.
  function Checks(cfg: Config, env: InitEnv): Status
    requires cfg.schedulePortCount <= MAX_SWITCH_PORTS
  {
    if env.hal.Err? then env.hal
    else if env.vlan.Err? then env.vlan
    else if FilterFrom(env.filter, cfg.streamFilterCount, 0).Err? then FilterFrom(env.filter, cfg.streamFilterCount, 0)
    else PrevalidationFrom(cfg, 0)
  }

  // The phases that construct: gate control managers, clock, stream table.
  function BringUp(s: Orch, env: InitEnv): (Orch, Status)
    requires s.cfg.schedulePortCount <= MAX_SWITCH_PORTS
  {
    var (p, st) := P.Init(s.ptp, s.cfg.ptp, env.ptpWrite);
    var s' := s.(gcms := Constructed(s.gcms, s.cfg.schedulePortCount), ptp := p);
    if st.Err? then (s', st)
    else (s'.(frer := F.Frer(true, []), initialised := true, state := Initializing), Ok)
  }

  function Init(s: Orch, cfg: Config, env: InitEnv): (Orch, Status) {
    if cfg.tickPeriodUs == 0 || cfg.schedulePortCount > MAX_SWITCH_PORTS then (s, Err(InvalidArgument))
    else if Checks(cfg, env).Err? then (s.(cfg := cfg), Checks(cfg, env))
    else BringUp(s.(cfg := cfg), env)
  }

  function Start(s: Orch): (Orch, Status) {
    if !s.initialised then (s, Err(NotInitialised))
    else (s.(state := PtpConverging, convergenceStartNs := 0, trace := s.trace + [Started]), Ok)
  }

  function Stop(s: Orch, answers: int -> Status): Orch {
    WithPorts(s, DisableAllFrom(PortsOf(s), answers, 0)).(state := Uninitialized)
  }

  function PortIndex(gcms: seq<Gcm>, port: u8, i: nat): (k: nat)
    ensures k < |gcms| ==> gcms[k].port == port
    decreases |gcms| - i
  {
    if i >= |gcms| || gcms[i].port == port then i else PortIndex(gcms, port, i + 1)
  }

  function Update(s: Orch, port: u8, p: ScheduleParams, answer: Status): (Orch, Status) {
    var i := PortIndex(s.gcms, port, 0);
    if s.state != Running then (s, Err(OperationNotPermitted))
    else if i >= |s.gcms| then (s, Err(HalPortOutOfRange))
    else (WithPorts(s, ApplyAt(PortsOf(s), i, p, answer)), ApplyStatus(p, answer))
  }

  // ---- Runs -----------------------------------------------------------------------------

  // What can happen to an initialised orchestrator. SyncOp and FrameOp are the
  // receive paths, which run between ticks.
  datatype Op =
    | TickOp(env: TickEnv)
    | UpdateOp(port: u8, params: ScheduleParams, answer: Status)
    | SyncOp(rx: u64, tx: u64, correction: int, write: Status)
    | FrameOp(handle: u16, seqNum: u16, path: F.PathIndex, frameNs: u64)
    | StartOp
    | StopOp(answers: int -> Status)

  function Step(s: Orch, op: Op): Orch {
    match op
    case TickOp(env) => Tick(s, env).0
    case UpdateOp(port, p, a) => Update(s, port, p, a).0
    case SyncOp(rx, tx, c, w) => s.(ptp := P.Sync(s.ptp, rx, tx, c, w).0)
    case FrameOp(h, n, p, t) => s.(frer := F.Receive(s.frer, h, n, p, t).0)
    case StartOp => Start(s).0
    case StopOp(a) => Stop(s, a)
  }

  function Run(s: Orch, ops: seq<Op>): Orch {
    if ops == [] then s else Step(Run(s, ops[..|ops| - 1]), ops[|ops| - 1])
  }

  function Booted(cfg: Config, env: InitEnv): Orch {
    Init(Created(), cfg, env).0
  }
}
