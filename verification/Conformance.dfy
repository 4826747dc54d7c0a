// The object under any sequence of calls is the state machine under the same
// sequence of operations, so everything proved of its runs holds of the object.
module Conformance {
  import opened TsnTypes
  import opened Orchestration
  import opened OrchestrationSafety
  import opened GateControlManagers
  import opened TsnOrchestrators
  import P = PtpClock
  import F = FrerStreams

  // The Sync messages of the operations have defined 64-bit arithmetic where they arrive.
  predicate OpDefined(s: Orch, op: Op) {
    op.SyncOp? ==> FitsI64(op.correction) && P.SyncDefined(s.ptp, op.rx, op.tx, op.correction)
  }

  predicate Defined(s: Orch, ops: seq<Op>) {
    forall k :: 0 <= k < |ops| ==> OpDefined(Run(s, ops[..k]), ops[k])
  }

  method Apply(o: TsnOrchestrator, op: Op)
    requires o.Valid() && OpDefined(o.View(), op)
    modifies o.Repr()
    ensures o.Valid() && o.gcManagers == old(o.gcManagers)
    ensures o.View() == Step(old(o.View()), op)
  {
    hide TsnOrchestrator.View, TsnOrchestrator.Valid, Tick, Update, Start, Stop, P.Sync, F.Receive, P.SyncDefined;
    o.Fields();
    match op
    case TickOp(env) => var _ := o.Tick(env);
    case UpdateOp(port, p, a) => var _ := o.UpdatePortSchedule(port, p, a);
    case SyncOp(rx, tx, c, w) => var _ := o.ReceiveSync(rx, tx, c, w);
    case FrameOp(h, n, p, t) => var _ := o.ReceiveFrame(h, n, p, t);
    case StartOp => var _ := o.Start();
    case StopOp(a) => var _ := o.Stop(a);
  }

  // A fresh orchestrator, initialised with any configuration and then driven
  // through any operations, ends in the state of the machine after that run,
  // which satisfies the invariant.
  method Drive(hal: SwitchHal, cfg: Config, boot: InitEnv, ops: seq<Op>) returns (o: TsnOrchestrator)
    requires hal.trace == [] && Defined(Booted(cfg, boot), ops)
    modifies hal
    ensures o.Valid() && o.View() == Run(Booted(cfg, boot), ops) && Inv(o.View())
  {
    hide TsnOrchestrator.View, TsnOrchestrator.Valid, Init, Step, OpDefined, Inv;
    o := new TsnOrchestrator(hal);
    var _ := o.Init(cfg, boot);
    for i := 0 to |ops|
      invariant o.Valid() && o.View() == Run(Booted(cfg, boot), ops[..i])
      invariant o.hal == hal && fresh(o.Repr() - {hal})
    {
      Apply(o, ops[i]);
      assert ops[..i + 1][..i] == ops[..i];
    }
    assert ops[..|ops|] == ops;
    RunInv(cfg, boot, ops);
  }
}
