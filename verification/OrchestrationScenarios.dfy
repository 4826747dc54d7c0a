// Short runs from initialisation that reach what the general results say can
// go wrong.
module OrchestrationScenarios {
  import opened Arithmetic
  import opened TsnTypes
  import opened GateSchedule
  import opened GateControl
  import opened GateTimeline
  import opened GateVerification
  import opened Orchestration
  import opened OrchestrationSafety
  import opened OrchestrationGuarantees
  import opened OrchestrationDegradation
  import opened OrchestrationStartup
  import opened OrchestrationClock
  import opened OrchestrationTiming
  import P = PtpClock
  import F = FrerStreams

  // ---- A node and its environment -------------------------------------------------------

  const GRANDMASTER: P.PtpConfig :=
    P.PtpConfig(P.ClockQuality(6, 0, 0), 128, 128, 1, 1_000_000, 2_000_000, 0)

  const SLAVE: P.PtpConfig :=
    P.PtpConfig(P.ClockQuality(248, 0, 0), 128, 128, 1, 1_000_000, 2_000_000, 0)

  function Streams(n: nat): (s: seq<F.StreamEntry>)
    ensures |s| == n
  {
    if n == 0 then [] else Streams(n - 1) + [F.NO_ENTRY]
  }

  // An acceptable schedule for the ports; the safe-state schedule is one that
  // prevalidation would let pass and validation rejects.
  function Node(ptp: P.PtpConfig, ports: u8, streams: StreamList): Config {
    Config(ptp, ports, Copies(STARVING, MAX_SWITCH_PORTS), streams, 0, NARROW, 1_000, 1_000)
  }

  function Answering(answer: Status): InitEnv {
    InitEnv(answer, answer, _ => answer, answer)
  }

  // A tick at a PHC reading, with every read-back failing and everything else in order.
  function At(ns: u32): TickEnv {
    TickEnv(PhcOk(0, 0, ns), PhcOk(0, 0, ns), Ok, PhcOk(0, 0, ns),
            _ => OperFail(HalError(0)), _ => MacsecCount(0), _ => Ok, _ => Ok, _ => Ok)
  }

  lemma {:induction false} NoMacsecFailures(ns: u32, n: nat)
    ensures MacsecSum(At(ns).macsecFails, n) == 0
  {
    if n == 0 {
    } else {
      NoMacsecFailures(ns, n - 1);
    }
  }

  lemma StarvingAccepted()
    ensures Accepted(STARVING) && Prevalidated(STARVING)
  {
    hide StartOf, ClosedUpTo, OpenAt;
    DeadlineMetIsNotService(0);
  }

  // A node initialised and started.
  function StartedNode(ptp: P.PtpConfig, ports: u8, streams: StreamList): Orch {
    Start(Booted(Node(ptp, ports, streams), Answering(Ok))).0
  }

  lemma NodeStarts(ptp: P.PtpConfig, ports: u8, streams: StreamList)
    requires 0 < ptp.portCount <= MAX_SWITCH_PORTS && ports <= MAX_SWITCH_PORTS
    ensures var cfg, s := Node(ptp, ports, streams), StartedNode(ptp, ports, streams);
            && Init(Created(), cfg, Answering(Ok)).1 == Ok
            && s.state == PtpConverging && s.initialised && s.cfg == cfg && |s.gcms| == ports
            && s.frer == F.Frer(true, []) && s.ptp == P.Init(P.FRESH, ptp, Ok).0
            && s.faults == NO_FAULTS && s.history == [] && s.lastHealthCheckNs == 0
    ensures Inv(StartedNode(ptp, ports, streams))
  {
    hide Prevalidated, PrevalidationFrom, Inv;
    StarvingAccepted();
    PrevalidationAll(Node(ptp, ports, streams), 0);
    BootedInv(Node(ptp, ports, streams), Answering(Ok));
    StepInv(Booted(Node(ptp, ports, streams), Answering(Ok)), StartOp);
  }

  // A tick of a started node that finds the clock synchronised brings it to the
  // running state, with every port on its schedule and no fault.
  lemma FirstTick(s: Orch, ptp: P.PtpConfig, ports: u8, streams: StreamList, ns: u32)
    requires Inv(s) && s.state == PtpConverging && s.initialised && s.cfg == Node(ptp, ports, streams)
    requires |s.gcms| == ports && s.frer == F.Frer(true, []) && s.faults == NO_FAULTS && s.history == []
    requires P.IsSynchronised(P.Tick(s.ptp, PhcOk(0, 0, ns), Ok).0)
    requires P.Tick(s.ptp, PhcOk(0, 0, ns), Ok).1 == Ok
    requires Wrap64(P.CurrentNs(s.ptp, PhcOk(0, 0, ns)) - s.lastHealthCheckNs) < HEALTH_CHECK_INTERVAL_NS
    ensures var s' := Tick(s, At(ns)).0;
            && s'.state == Running && s'.initialised && s'.cfg == s.cfg && |s'.gcms| == ports
            && s'.frer.initialised && |s'.frer.streams| == |streams| && s'.faults == NO_FAULTS
            && s'.ptp == P.Tick(s.ptp, PhcOk(0, 0, ns), Ok).0 && s'.lastHealthCheckNs == s.lastHealthCheckNs
            && |s'.history| == 1 && s'.history[0].newState == Running
            && (forall i :: 0 <= i < ports ==> s'.gcms[i].scheduleActive && s'.gcms[i].activeSchedule == STARVING)
    ensures Inv(Tick(s, At(ns)).0)
  {
    hide Accepted, Tick, P.Tick, P.CurrentNs, Observe, AnyMismatch, MacsecSum, Inv, P.IsSynchronised, Wrap64;
    StarvingAccepted();
    ObserveClock(s, At(ns));
    RunsExactly(s, At(ns));
    StepKeepsTable(s, TickOp(At(ns)));
    StepKeepsConfig(s, TickOp(At(ns)));
    TickMovesClock(s, At(ns));
    HealthStamp(s, At(ns));
    ConvergingFaults(s, At(ns));
    FaultsObserved(s, At(ns));
    TickLogged(s, At(ns));
    TickInv(s, At(ns));
    forall i | 0 <= i < ports
      ensures Tick(s, At(ns)).0.gcms[i].scheduleActive && Tick(s, At(ns)).0.gcms[i].activeSchedule == STARVING
    {
      RunningStartsAsConfigured(s, At(ns), i);
    }
  }

  // A node that qualifies as grandmaster, after its first tick.
  function MasterNode(ports: u8, streams: StreamList): Orch {
    Tick(StartedNode(GRANDMASTER, ports, streams), At(0)).0
  }

  lemma MasterRuns(ports: u8, streams: StreamList)
    requires ports <= MAX_SWITCH_PORTS
    ensures var s := MasterNode(ports, streams);
            && Inv(s) && s.state == Running && s.initialised && s.cfg == Node(GRANDMASTER, ports, streams)
            && |s.gcms| == ports && s.frer.initialised && |s.frer.streams| == |streams| && s.faults == NO_FAULTS
            && s.ptp.initialised && s.ptp.sync == P.Locked && s.ptp.offsetNs == 0 && s.ptp.lastSyncNs == 0
            && s.lastHealthCheckNs == 0 && |s.history| == 1 && s.history[0].newState == Running
            && (forall i :: 0 <= i < ports ==> s.gcms[i].scheduleActive && s.gcms[i].activeSchedule == STARVING)
  {
    hide Tick, Inv, StartedNode;
    NodeStarts(GRANDMASTER, ports, streams);
    FirstTick(StartedNode(GRANDMASTER, ports, streams), GRANDMASTER, ports, streams, 0);
  }

  // ---- An integrity fault in a node with a bad safe-state schedule ------------------------

  // The next tick finds the read-back of the one port failing.
  function DegradedNode(): Orch {
    Tick(MasterNode(1, []), At(8_000_000)).0
  }

  lemma CorruptionFaults()
    ensures Observe(MasterNode(1, []), At(8_000_000)).faults == NO_FAULTS.(halIntegrity := true)
  {
    hide Observe, AnyMismatch, MacsecSum, Inv, MasterNode;
    var s, env := MasterNode(1, []), At(8_000_000);
    MasterRuns(1, []);
    NoMacsecFailures(8_000_000, MAX_SECURE_CHANNELS);
    assert Corrupt(s.gcms[0], env.oper(0));
    FaultsObserved(s, env);
  }

  // A failed read-back alone degrades the node, and is logged as a MACsec
  // replay attack although no MACsec failure was ever counted.
  lemma IntegrityLoggedAsReplay()
    ensures var s := DegradedNode();
            && s.state == Degraded && s.initialised && s.faults == NO_FAULTS.(halIntegrity := true)
            && |s.history| == 2 && s.history[1].triggerCode == MacsecReplayAttack
    ensures Inv(DegradedNode())
  {
    hide Tick, Observe, Inv, MasterNode;
    var s, env := MasterNode(1, []), At(8_000_000);
    MasterRuns(1, []);
    CorruptionFaults();
    RunningReacts(s, env);
    DegradeCodeNamesFault(s, env);
    StepKeepsFaults(s, TickOp(env));
    TickInv(s, env);
  }

  lemma CorruptedPorts()
    ensures var s := DegradedNode();
            && s.cfg == Node(GRANDMASTER, 1, []) && |s.gcms| == 1
            && s.gcms[0].scheduleActive && s.gcms[0].activeSchedule == STARVING
  {
    hide Observe, Inv, MasterNode;
    var s, env := MasterNode(1, []), At(8_000_000);
    MasterRuns(1, []);
    CorruptionFaults();
    ObserveFrame(s, env);
  }

  // The tick after that enters the safe state with the port still on its old
  // schedule, because the safe-state schedule is refused only now.
  lemma SafeStateOnOldSchedule()
    ensures var s := Tick(DegradedNode(), At(8_000_001)).0;
            && s.state == SafeState && |s.gcms| == 1 && s.gcms[0].scheduleActive
            && s.gcms[0].activeSchedule == STARVING != s.cfg.safeStateSchedule
  {
    hide Tick, Inv, DegradedNode, Validation;
    var s, env := DegradedNode(), At(8_000_001);
    IntegrityLoggedAsReplay();
    CorruptedPorts();
    AlarmedTick(s, env);
    PrevalidatedButNotLoadable();
    StepKeepsConfig(s, TickOp(env));
    SafeStateSchedule(s, env, 0);
  }

  // ---- Running out of stream slots ----------------------------------------------------------

  lemma RunExtends(s: Orch, ops: seq<Op>, op: Op)
    ensures Run(s, ops + [op]) == Step(Run(s, ops), op)
  {
    hide Step;
    assert (ops + [op])[..|ops|] == ops;
  }

  // A node with 33 streams runs, and once stopped never runs again.
  lemma OneStopTooMany(after: seq<Op>)
    ensures MasterNode(0, Streams(33)).state == Running
    ensures Run(Stop(MasterNode(0, Streams(33)), At(0).disable), after).state != Running
  {
    hide Run, Tick, Booted, DisableAllFrom;
    var cfg, boot, stop := Node(GRANDMASTER, 0, Streams(33)), Answering(Ok), At(0).disable;
    var m := MasterNode(0, Streams(33));
    TwoSteps(Booted(cfg, boot), StartOp, TickOp(At(0)));
    RunExtends(Booted(cfg, boot), [StartOp, TickOp(At(0))], StopOp(stop));
    MasterRuns(0, Streams(33));
    EntriesAppend([], m.history[0]);
    assert m.history == [] + [m.history[0]];
    StoppedForGood(cfg, boot, [StartOp, TickOp(At(0))] + [StopOp(stop)], after);
  }

  // ---- A fault across a restart -----------------------------------------------------------

  lemma TickKeepsTable(s: Orch, env: TickEnv)
    requires s.state == Running
    ensures Tick(s, env).0.frer.initialised == s.frer.initialised
    ensures |Tick(s, env).0.frer.streams| == |s.frer.streams|
  {
    hide Observe, ApplyAllFrom, P.CurrentNs;
    ObserveFrame(s, env);
    ObserveKeepsStreams(s, env);
  }

  lemma CorruptedClock()
    ensures var s := DegradedNode();
            && s.ptp.initialised && s.ptp.sync == P.Locked && s.ptp.offsetNs == 0 && s.ptp.lastSyncNs == 0
            && s.frer.initialised && s.frer.streams == []
  {
    hide Tick, Observe, Inv, MasterNode;
    var s, env := MasterNode(1, []), At(8_000_000);
    MasterRuns(1, []);
    TickMovesClock(s, env);
    TickKeepsTable(s, env);
  }

  lemma RunsAgain(s: Orch, env: TickEnv)
    requires s.initialised && s.state == PtpConverging && s.cfg == Node(GRANDMASTER, 1, []) && |s.gcms| == 1
    requires s.frer.initialised && s.frer.streams == [] && env == At(8_000_001)
    requires s.ptp.initialised && s.ptp.sync == P.Locked && s.ptp.offsetNs == 0 && s.ptp.lastSyncNs == 0
    ensures Tick(s, env).0.state == Running && Tick(s, env).0.initialised && s.faults.Within(Tick(s, env).0.faults)
  {
    hide Tick, Observe, Accepted;
    StarvingAccepted();
    ObserveClock(s, env);
    RunsExactly(s, env);
    StepKeepsFaults(s, TickOp(env));
  }

  // A node degraded by an integrity fault, stopped and started again, runs
  // after its next tick with the fault still latched, and is out of the running
  // state again one tick later although nothing new has gone wrong.
  lemma FaultSurvivesRestart()
    ensures var s := Tick(Start(Stop(DegradedNode(), At(0).disable)).0, At(8_000_001)).0;
            s.state == Running && s.faults.halIntegrity && Tick(s, At(8_000_002)).0.state in {Degraded, SafeState}
  {
    hide Tick, Inv, DegradedNode, Observe, Accepted;
    var a := Start(Stop(DegradedNode(), At(0).disable)).0;
    IntegrityLoggedAsReplay();
    CorruptedPorts();
    CorruptedClock();
    LoopLengths(PortsOf(DegradedNode()), NARROW, a.cfg.schedules, At(0).apply, At(0).disable);
    assert TableOk(a) && |a.gcms| == 1;
    hide DisableAllFrom;
    RunsAgain(a, At(8_000_001));
    var s := Tick(a, At(8_000_001)).0;
    ObserveFrame(s, At(8_000_002));
    RunningReacts(s, At(8_000_002));
  }

  // ---- A clock that is lost, and heard once more ---------------------------------------------

  function Heard(s: Orch, ns: u64, write: Status): Orch {
    Step(s, SyncOp(ns, ns, 0, write))
  }

  // A slave that has locked on its second Sync message and runs.
  function FollowingNode(): Orch {
    Tick(Heard(Heard(StartedNode(SLAVE, 0, []), 1_000, Ok), 1_000, Ok), At(1_000)).0
  }

  lemma FollowingRuns()
    ensures var s := FollowingNode();
            && s.state == Running && s.initialised && |s.gcms| == 0 && s.faults == NO_FAULTS
            && s.frer.initialised && s.frer.streams == [] && s.lastHealthCheckNs == 0
            && s.ptp.initialised && s.ptp.cfg == SLAVE && s.ptp.sync == P.Locked && s.ptp.lastSyncNs == 1_000
            && !s.ptp.gmValid && s.ptp.integral == 0
  {
    hide Tick, Inv, StartedNode;
    NodeStarts(SLAVE, 0, []);
    var a := Heard(Heard(StartedNode(SLAVE, 0, []), 1_000, Ok), 1_000, Ok);
    assert Inv(a) by {
      StepInv(StartedNode(SLAVE, 0, []), SyncOp(1_000, 1_000, 0, Ok));
      StepInv(Heard(StartedNode(SLAVE, 0, []), 1_000, Ok), SyncOp(1_000, 1_000, 0, Ok));
    }
    FirstTick(a, SLAVE, 0, [], 1_000);
  }

  // A millisecond of silence later it still runs, in holdover.
  function HoldoverNode(): Orch {
    Tick(FollowingNode(), At(1_001_001)).0
  }

  lemma LostRuns()
    ensures var s := HoldoverNode();
            && s.state == Running && s.initialised && s.faults == NO_FAULTS && ClockOk(s)
            && s.ptp.cfg == SLAVE && s.ptp.sync == P.Holdover && s.ptp.lastSyncNs == 1_000 && !s.ptp.gmValid
  {
    hide Tick, Observe, FollowingNode, MacsecSum, Corrupt, Inv;
    var s, env := FollowingNode(), At(1_001_001);
    FollowingRuns();
    FaultsObserved(s, env);
    RunningReacts(s, env);
    TickMovesClock(s, env);
  }

  // One Sync message in holdover and then silence: the node keeps running with
  // a clock that is not synchronised, and no run of anything but another Sync
  // ever brings holdover or its fault.
  lemma LateSyncDeafens(ops: seq<Op>)
    requires NoSync(ops) && HonestReads(ops)
    ensures var s := Heard(HoldoverNode(), 1_002_000, Ok);
            && s.state == Running && !P.IsSynchronised(s.ptp)
            && Run(s, ops).ptp.sync != P.Holdover && !Run(s, ops).faults.holdover
  {
    hide Run, HoldoverNode;
    LostRuns();
    ClockLossUnnoticed(Heard(HoldoverNode(), 1_002_000, Ok), ops);
  }

  // The same Sync with a failing register write leaves the clock in holdover
  // from an instant that is no longer that of the last Sync.
  lemma FailedWriteDetachesHoldover(error: ErrorCode)
    ensures var p := Heard(HoldoverNode(), 1_002_000, Err(error)).ptp;
            p.sync == P.Holdover && p.holdoverStartNs == 1_000 && p.lastSyncNs == 1_002_000 && !P.HoldoverInv(p)
  {
    hide HoldoverNode;
    LostRuns();
  }
}
