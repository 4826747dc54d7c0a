// When the orchestrator starts running, exactly, and what a restart costs.
module OrchestrationStartup {
  import opened Arithmetic
  import opened TsnTypes
  import opened GateSchedule
  import opened GateControl
  import opened Orchestration
  import opened OrchestrationSafety
  import opened OrchestrationDegradation
  import P = PtpClock
  import F = FrerStreams

  // ---- Convergence, exactly ---------------------------------------------------------------

  predicate AllOk(answers: int -> Status, n: nat) {
    forall i :: 0 <= i < n ==> answers(i) == Ok
  }

  // The streams of a list of entries as they are when just registered.
  function FreshStreams(entries: seq<F.StreamEntry>): (r: seq<F.Stream>)
    ensures |r| == |entries|
    ensures forall k :: 0 <= k < |r| ==> r[k] == F.Stream(F.Registered(entries[k]), entries[k])
  {
    if entries == [] then []
    else [F.Stream(F.Registered(entries[0]), entries[0])] + FreshStreams(entries[1..])
  }

  lemma RegisterOne(f: F.Frer, en: F.StreamEntry, answer: Status)
    requires f.initialised
    ensures var (f', s) := F.Register(f, en, answer);
            && s == (if |f.streams| >= 64 then Err(FrerTableFull) else answer)
            && f' == if s == Ok then F.Frer(true, f.streams + [F.Stream(F.Registered(en), en)]) else f
  {
  }

  lemma TakeOne(streams: seq<F.Stream>, entries: seq<F.StreamEntry>, i: nat, n: nat)
    requires i + n < |entries|
    ensures streams + FreshStreams(entries[i..i + n + 1])
         == streams + [F.Stream(F.Registered(entries[i]), entries[i])] + FreshStreams(entries[i + 1..i + 1 + n])
    ensures streams + FreshStreams(entries[i..i]) == streams
  {
    hide F.Registered;
    assert entries[i..i + n + 1][1..] == entries[i + 1..i + 1 + n];
  }

  lemma NoFreshStreams(streams: seq<F.Stream>)
    ensures streams + FreshStreams([]) == streams
  {
  }

  // Registration from entry i on appends n fresh streams, those of the entries
  // in their order, and stops at the first refusal, of which it tells the
  // reason. It takes all of them exactly when they fit in 64 slots and the
  // hardware takes each.
  lemma {:induction false} RegistersAll(f: F.Frer, entries: seq<F.StreamEntry>, answers: int -> Status, i: nat)
    returns (n: nat)
    requires f.initialised && i <= |entries| && |f.streams| <= 64
    ensures n <= |entries| - i && |f.streams| + n <= 64
    ensures RegisterFrom(f, entries, answers, i).0 == F.Frer(true, f.streams + FreshStreams(entries[i..i + n]))
    ensures var s := RegisterFrom(f, entries, answers, i).1;
            && (s == Ok <==> n == |entries| - i)
            && (s == Ok <==> |f.streams| + (|entries| - i) <= 64 && forall j :: i <= j < |entries| ==> answers(j) == Ok)
            && (forall j :: i <= j < i + n ==> answers(j) == Ok)
            && (n < |entries| - i ==> s == if |f.streams| + n == 64 then Err(FrerTableFull) else answers(i + n))
    decreases |entries| - i
  {
    hide F.Registered, F.Register, FreshStreams;
    n := 0;
    NoFreshStreams(f.streams);
    if i == |entries| {
    } else {
      var (f', s) := F.Register(f, entries[i], answers(i));
      RegisterOne(f, entries[i], answers(i));
      if s == Ok {
        n := RegistersAll(f', entries, answers, i + 1);
        TakeOne(f.streams, entries, i, n);
        n := n + 1;
      }
    }
  }

  // A converging tick that sees the clock synchronised starts running exactly
  // when every schedule loads and the stream table still has room for all the
  // configured streams; if only the streams fail it stays converging, with the
  // schedules loaded and the convergence watchdog not consulted.
  lemma ConvergeExact(s: Orch, nowNs: u64, env: TickEnv)
    requires s.state == PtpConverging && P.IsSynchronised(s.ptp)
    requires s.frer.initialised && |s.frer.streams| <= 64
    ensures var s' := Converge(s, nowNs, env).0;
            var loads := LoadFrom(Ports(s.gcms, s.trace + [SyncObserved]), s.cfg.schedules, env.apply, 0).1 == Ok;
            var fits := |s.frer.streams| + |s.cfg.frerStreams| <= 64
                        && AllOk(env.frerRegister, |s.cfg.frerStreams|);
            && (s'.state == Running <==> loads && fits)
            && (s'.state == Fault <==> !loads)
            && (s'.state == PtpConverging <==> loads && !fits)
            && (s'.state == Running ==> |s'.frer.streams| == |s.frer.streams| + |s.cfg.frerStreams|)
  {
    hide LoadFrom, DisableAllFrom, P.CurrentNs, RegisterFrom;
    var _ := RegistersAll(s.frer, s.cfg.frerStreams, env.frerRegister, 0);
  }

  lemma RejectedIsError(p: ScheduleParams, answer: Status)
    ensures ApplyStatus(p, answer) == Ok <==> Accepted(p) && answer == Ok
  {
    hide Structural, SafetyDeadlineMet;
  }

  lemma {:induction false} LoadsExactly(b: Ports, schedules: ScheduleArray, answers: int -> Status, i: nat)
    ensures LoadFrom(b, schedules, answers, i).1 == Ok
       <==> forall j :: i <= j < |b.gcms| ==> Accepted(schedules[j]) && answers(j) == Ok
    decreases |b.gcms| - i
  {
    hide Accepted, Applied, ApplyEvents;
    if i >= |b.gcms| {
    } else {
      RejectedIsError(schedules[i], answers(i));
      LoadsExactly(ApplyAt(b, i, schedules[i], answers(i)), schedules, answers, i + 1);
    }
  }

  lemma ObserveKeepsStreams(s: Orch, env: TickEnv)
    ensures Observe(s, env).frer.initialised == s.frer.initialised
    ensures |Observe(s, env).frer.streams| == |s.frer.streams|
  {
    hide P.Tick, P.CurrentNs, F.OnTick, AnyMismatch, MacsecTotal, Wrap64;
  }

  predicate TableOk(s: Orch) {
    s.initialised ==> s.frer.initialised && |s.frer.streams| <= 64
  }

  // A converging tick starts running exactly when it finds the clock
  // synchronised, every schedule passes validation and is taken by the
  // hardware, and the stream table has the room and the hardware the will for
  // every configured stream. Earlier entries into the running state leave
  // nothing behind that matters but the slots they took.
  lemma RunsExactly(s: Orch, env: TickEnv)
    requires s.initialised && TableOk(s) && s.state == PtpConverging
    ensures Tick(s, env).0.state == Running
       <==> && P.IsSynchronised(Observe(s, env).ptp)
            && (forall j :: 0 <= j < |s.gcms| ==> Accepted(s.cfg.schedules[j]) && env.apply(j) == Ok)
            && |s.frer.streams| + |s.cfg.frerStreams| <= 64
            && AllOk(env.frerRegister, |s.cfg.frerStreams|)
  {
    hide Accepted, LoadFrom, DisableAllFrom, Wrap64, AllOk, P.CurrentNs, P.IsSynchronised, Observe;
    hide ConvergeSynchronised;
    ObserveFrame(s, env);
    ObserveKeepsStreams(s, env);
    var o := Observe(s, env);
    LoadsExactly(Ports(o.gcms, o.trace + [SyncObserved]), o.cfg.schedules, env.apply, 0);
    if P.IsSynchronised(o.ptp) { ConvergeExact(o, P.CurrentNs(s.ptp, env.start), env); }
  }

  lemma ObserveStreams(s: Orch, env: TickEnv)
    requires s.frer.initialised
    ensures Observe(s, env).frer == F.Frer(true, F.TickAll(s.frer.streams, P.CurrentNs(s.ptp, env.start)))
  {
    hide P.Tick, P.CurrentNs, F.TickAll, AnyMismatch, MacsecTotal, Wrap64;
  }

  // Loading goes port by port up to the first failure, whose reason it tells;
  // the ports behind it are not touched.
  lemma {:induction false} LoadsUpTo(b: Ports, schedules: ScheduleArray, answers: int -> Status, i: nat)
    returns (n: nat)
    requires i <= |b.gcms|
    ensures n <= |b.gcms| - i
    ensures var (b', s) := LoadFrom(b, schedules, answers, i);
            && |b'.gcms| == |b.gcms|
            && (s == Ok <==> n == |b.gcms| - i)
            && (n < |b.gcms| - i ==> s == ApplyStatus(schedules[i + n], answers(i + n)) && s != Ok)
            && (forall j :: i <= j < i + n ==> ApplyStatus(schedules[j], answers(j)) == Ok)
            && (forall j :: 0 <= j < |b.gcms| ==>
                  b'.gcms[j] == if i <= j <= i + n then Applied(b.gcms[j], schedules[j], answers(j)) else b.gcms[j])
    decreases |b.gcms| - i
  {
    hide Applied, ApplyStatus, ApplyEvents;
    n := 0;
    if i == |b.gcms| {
    } else if ApplyStatus(schedules[i], answers(i)) == Ok {
      n := LoadsUpTo(ApplyAt(b, i, schedules[i], answers(i)), schedules, answers, i + 1);
      n := n + 1;
    }
  }

  // What a tick does to the stream table: it ticks the streams at the reading it
  // started with, and appends the first n of the configured streams, fresh and
  // in order; none outside convergence, and all of them when it starts running.
  lemma TickTable(s: Orch, env: TickEnv) returns (n: nat)
    requires s.initialised && s.state != Fault && TableOk(s)
    ensures n <= |s.cfg.frerStreams| && |s.frer.streams| + n <= 64
    ensures var s' := Tick(s, env).0;
            && s'.frer == F.Frer(true, F.TickAll(s.frer.streams, P.CurrentNs(s.ptp, env.start))
                                       + FreshStreams(s.cfg.frerStreams[..n]))
            && (s.state != PtpConverging ==> n == 0)
            && (s.state == PtpConverging && s'.state == Running ==> n == |s.cfg.frerStreams|)
  {
    hide F.TickAll, FreshStreams, P.CurrentNs, P.IsSynchronised, Observe, RegisterFrom, LoadFrom, DisableAllFrom;
    hide ApplyAllFrom, Wrap64;
    n := 0;
    var o, ticked := Observe(s, env), F.TickAll(s.frer.streams, P.CurrentNs(s.ptp, env.start));
    ObserveFrame(s, env);
    ObserveStreams(s, env);
    NoFreshStreams(ticked);
    assert s.cfg.frerStreams[..0] == [];
    if s.state == PtpConverging && P.IsSynchronised(o.ptp) {
      var loaded := LoadFrom(Ports(o.gcms, o.trace + [SyncObserved]), o.cfg.schedules, env.apply, 0).1;
      if loaded == Ok { n := RegistersAll(o.frer, o.cfg.frerStreams, env.frerRegister, 0); }
      assert s.cfg.frerStreams[0..n] == s.cfg.frerStreams[..n];
    }
  }

  // Once running, the frames of every configured stream are known.
  lemma ConfiguredStreamsServed(s: Orch, env: TickEnv, k: nat, seqNum: u16, path: F.PathIndex, frameNs: u64)
    requires s.initialised && TableOk(s) && s.state == PtpConverging && k < |s.cfg.frerStreams|
    ensures var s' := Tick(s, env).0;
            s'.state == Running
            ==> F.Receive(s'.frer, s.cfg.frerStreams[k].streamHandle, seqNum, path, frameNs).1 != F.Unknown
  {
    hide Tick, F.OnFrame, F.TickAll;
    var s' := Tick(s, env).0;
    var n := TickTable(s, env);
    if s'.state == Running {
      assert s.cfg.frerStreams[..n] == s.cfg.frerStreams;
      var j := |s.frer.streams| + k;
      assert s'.frer.streams[j] == FreshStreams(s.cfg.frerStreams)[k];
      assert s'.frer.streams[j].st.streamHandle == s.cfg.frerStreams[k].streamHandle;
    }
  }

  lemma TwoSteps(s: Orch, a: Op, b: Op)
    ensures Run(s, [a, b]) == Step(Step(s, a), b)
  {
    hide Step;
    assert [a, b][..1] == [a] && [a][..0] == [];
    assert Run(s, [a]) == Step(Run(s, []), a);
  }

  // A node that qualifies as grandmaster is running on the first tick after its
  // start exactly when its schedules are all acceptable and the hardware takes
  // the schedules and the streams.
  lemma StartupExact(cfg: Config, boot: InitEnv, env: TickEnv)
    requires Init(Created(), cfg, boot).1 == Ok
    requires P.GmCapable(cfg.ptp) && env.ptpRead.PhcOk?
    ensures Run(Booted(cfg, boot), [StartOp, TickOp(env)]).state == Running
       <==> (forall j :: 0 <= j < cfg.schedulePortCount ==> Accepted(cfg.schedules[j]) && env.apply(j) == Ok)
            && AllOk(env.frerRegister, |cfg.frerStreams|)
  {
    hide Accepted, Tick, F.Tick, AnyMismatch, MacsecTotal, Wrap64, PhcNs, AllOk, FilterFrom, PrevalidationFrom;
    TwoSteps(Booted(cfg, boot), StartOp, TickOp(env));
    RunsExactly(Start(Booted(cfg, boot)).0, env);
  }

  // ---- Streams are never given back -----------------------------------------------------------

  // How often the log enters the running state.
  function Entries(log: seq<AuditEntry>): nat {
    if log == [] then 0
    else Entries(log[..|log| - 1]) + if log[|log| - 1].newState == Running then 1 else 0
  }

  // Every entry into the running state has taken a slot for each configured stream.
  predicate WithinBudget(s: Orch) {
    && TableOk(s)
    && (s.initialised ==> Times(Entries(s.history), |s.cfg.frerStreams|) <= |s.frer.streams|)
    && (!s.initialised ==> Entries(s.history) == 0 && s.state == Uninitialized)
  }

  // No room left for the configured streams.
  predicate TableFull(s: Orch) {
    s.initialised && |s.frer.streams| + |s.cfg.frerStreams| > 64
  }

  lemma IdleTick(s: Orch, env: TickEnv)
    requires s.state == Fault || !s.initialised
    ensures Tick(s, env).0 == s
  {
  }

  lemma StepKeepsTable(s: Orch, op: Op)
    requires TableOk(s)
    ensures TableOk(Step(s, op)) && Step(s, op).cfg == s.cfg && Step(s, op).initialised == s.initialised
    ensures s.initialised ==> |s.frer.streams| <= |Step(s, op).frer.streams|
    ensures s.initialised && s.state != Running && Step(s, op).state == Running
            ==> |Step(s, op).frer.streams| == |s.frer.streams| + |s.cfg.frerStreams|
  {
    hide Tick, DisableAllFrom, P.Sync, F.OnFrame, F.TickAll, ApplyAt, ApplyStatus, PortIndex;
    if op.TickOp? {
      TickKeepsConfig(s, op.env);
      if s.initialised && s.state != Fault {
        var _ := TickTable(s, op.env);
        TickLogged(s, op.env);
      } else {
        IdleTick(s, op.env);
      }
    }
  }

  lemma StepLogged(s: Orch, op: Op)
    ensures var s' := Step(s, op);
            s'.history == s.history
            || (s'.state != s.state && exists e: AuditEntry :: e.newState == s'.state && s'.history == s.history + [e])
    ensures !s.initialised && s.state == Uninitialized ==> Step(s, op).state == Uninitialized
  {
    hide Tick, DisableAllFrom, P.Sync, F.Receive, ApplyAt, PortIndex, ApplyStatus;
    if op.TickOp? {
      TickLogged(s, op.env);
      var s' := Tick(s, op.env).0;
      if s'.history != s.history {
        var e := s'.history[|s.history|];
        assert s'.history == s.history + [e] && e.newState == s'.state;
      }
      if !s.initialised && s.state == Uninitialized { IdleTick(s, op.env); }
    }
  }

  lemma EntriesAppend(log: seq<AuditEntry>, e: AuditEntry)
    ensures Entries(log + [e]) == Entries(log) + if e.newState == Running then 1 else 0
  {
    assert (log + [e])[..|log|] == log;
  }

  lemma StepKeepsBudget(s: Orch, op: Op)
    requires WithinBudget(s)
    ensures WithinBudget(Step(s, op))
  {
    hide Step, Entries, Times;
    var s' := Step(s, op);
    StepKeepsTable(s, op);
    StepLogged(s, op);
    if s'.history != s.history {
      var e: AuditEntry :| e.newState == s'.state && s'.history == s.history + [e];
      EntriesAppend(s.history, e);
      TimesSucc(Entries(s.history), |s.cfg.frerStreams|);
    }
  }

  lemma BootedBudget(cfg: Config, boot: InitEnv)
    ensures WithinBudget(Booted(cfg, boot))
  {
    hide P.Init, FilterFrom, PrevalidationFrom;
  }

  // The stream budget, over every run of operations from initialisation on:
  // each entry into the running state costs as many of the 64 slots as there
  // are configured streams, and nothing ever gives one back.
  lemma {:induction false} StreamBudget(cfg: Config, boot: InitEnv, ops: seq<Op>)
    ensures WithinBudget(Run(Booted(cfg, boot), ops))
    ensures var s := Run(Booted(cfg, boot), ops);
            Times(Entries(s.history), |s.cfg.frerStreams|) <= 64
  {
    hide Booted, Step, Entries, Times;
    if ops == [] {
      BootedBudget(cfg, boot);
    } else {
      StreamBudget(cfg, boot, ops[..|ops| - 1]);
      StepKeepsBudget(Run(Booted(cfg, boot), ops[..|ops| - 1]), ops[|ops| - 1]);
    }
    TimesSucc(0, |Run(Booted(cfg, boot), ops).cfg.frerStreams|);
  }

  lemma {:induction false} TableGrows(s: Orch, ops: seq<Op>)
    requires TableOk(s)
    ensures TableOk(Run(s, ops)) && Run(s, ops).cfg == s.cfg && Run(s, ops).initialised == s.initialised
    ensures s.initialised ==> |s.frer.streams| <= |Run(s, ops).frer.streams|
    ensures TableFull(s) && s.state != Running ==> Run(s, ops).state != Running
  {
    hide Step;
    if ops == [] {
    } else {
      TableGrows(s, ops[..|ops| - 1]);
      StepKeepsTable(Run(s, ops[..|ops| - 1]), ops[|ops| - 1]);
    }
  }

  // Stopping does not deregister streams. Once the slots do not allow for one
  // entry more, an orchestrator that is not running never runs again, however
  // it is stopped and restarted and whatever the hardware answers.
  lemma StoppedForGood(cfg: Config, boot: InitEnv, before: seq<Op>, after: seq<Op>)
    ensures var s := Run(Booted(cfg, boot), before);
            s.state != Running && Times(Entries(s.history) + 1, |s.cfg.frerStreams|) > 64
            ==> Run(s, after).state != Running
  {
    hide Booted, Run, Entries, Times;
    var s := Run(Booted(cfg, boot), before);
    StreamBudget(cfg, boot, before);
    TimesSucc(Entries(s.history), |s.cfg.frerStreams|);
    TableGrows(s, after);
  }
}
