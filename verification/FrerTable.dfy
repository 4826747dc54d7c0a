// What the table of streams keeps over whole runs of registrations,
// removals, frames and ticks.
module FrerTable {
  import opened TsnTypes
  import opened FrerStreams
  import opened FrerProperties

  datatype Op =
    | Deliver(handle: u16, seqNum: u16, path: PathIndex, frameNs: u64)
    | Pass(nowNs: u64)
    | Add(entry: StreamEntry, addAnswer: Status)
    | Drop(dropHandle: u16, dropAnswer: Status)

  function Step(f: Frer, op: Op): Frer {
    match op
    case Deliver(h, s, p, t) => Receive(f, h, s, p, t).0
    case Pass(now) => Tick(f, now).0
    case Add(en, a) => Register(f, en, a).0
    case Drop(h, a) => Deregister(f, h, a).0
  }

  function Run(f: Frer, ops: seq<Op>): Frer {
    if ops == [] then f else Step(Run(f, ops[..|ops| - 1]), ops[|ops| - 1])
  }

  // ---- The table invariant ---------------------------------------------------------

  predicate Lockstep(f: Frer) {
    && |f.streams| <= MAX_FRER_ENTRIES
    && forall k :: 0 <= k < |f.streams| ==> f.streams[k].st.streamHandle == f.streams[k].en.streamHandle
  }

  lemma StepKeepsLockstep(f: Frer, op: Op)
    requires Lockstep(f)
    ensures Lockstep(Step(f, op))
  {
    hide LatentErrorDue, AllPaths, Seen, HistoryBit, With, MarkPath, ClearPaths;
  }

  lemma {:induction false} RunKeepsLockstep(f: Frer, ops: seq<Op>)
    requires Lockstep(f)
    ensures Lockstep(Run(f, ops))
  {
    hide Lockstep, Step;
    if ops == [] {
    } else {
      RunKeepsLockstep(f, ops[..|ops| - 1]);
      StepKeepsLockstep(Run(f, ops[..|ops| - 1]), ops[|ops| - 1]);
    }
  }

  // ---- Streams do not disturb each other ---------------------------------------------

  // The operation removes the stream at position i.
  predicate Removes(f: Frer, op: Op, i: nat) {
    op.Drop? && op.dropAnswer == Ok && Find(f.streams, op.dropHandle) == i
  }

  // Where the stream at position i is found after the operation.
  function Moved(f: Frer, op: Op, i: nat): nat {
    if op.Drop? && op.dropAnswer == Ok && Find(f.streams, op.dropHandle) < i then i - 1 else i
  }

  // Where the stream that started at position i is found after a run.
  function Place(f: Frer, ops: seq<Op>, i: nat): nat {
    if ops == [] then i
    else Moved(Run(f, ops[..|ops| - 1]), ops[|ops| - 1], Place(f, ops[..|ops| - 1], i))
  }

  predicate Survives(f: Frer, ops: seq<Op>, i: nat) {
    ops == [] ||
    var n := |ops| - 1;
    Survives(f, ops[..n], i) && !Removes(Run(f, ops[..n]), ops[n], Place(f, ops[..n], i))
  }

  // What the stream at position i sees of an operation: the ticks, and the
  // frames whose handle it is the first to carry.
  function SeenBy(f: Frer, op: Op, i: nat): seq<Event> {
    match op
    case Deliver(h, s, p, t) => if Find(f.streams, h) == i then [Frame(s, p, t)] else []
    case Pass(now) => [Check(now)]
    case _ => []
  }

  // What the stream that starts at position i sees of a run.
  function Project(f: Frer, ops: seq<Op>, i: nat): seq<Event> {
    if ops == [] then []
    else
      var n := |ops| - 1;
      Project(f, ops[..n], i) + SeenBy(Run(f, ops[..n]), ops[n], Place(f, ops[..n], i))
  }

  // The table's own answers to the frames of the stream at position i.
  function AnswerTo(f: Frer, op: Op, i: nat): seq<FrameResult> {
    if op.Deliver? && Find(f.streams, op.handle) == i
    then [Receive(f, op.handle, op.seqNum, op.path, op.frameNs).1] else []
  }

  function Answers(f: Frer, ops: seq<Op>, i: nat): seq<FrameResult> {
    if ops == [] then []
    else
      var n := |ops| - 1;
      Answers(f, ops[..n], i) + AnswerTo(Run(f, ops[..n]), ops[n], Place(f, ops[..n], i))
  }

  function StreamStep(st: StreamState, en: StreamEntry, e: Event): StreamState {
    match e
    case Frame(s, p, t) => OnFrame(st, s, p, t).0
    case Check(now) => OnTick(st, en, now)
  }

  function StreamRun(st: StreamState, en: StreamEntry, events: seq<Event>): StreamState {
    if events == [] then st
    else StreamStep(StreamRun(st, en, events[..|events| - 1]), en, events[|events| - 1])
  }

  // One operation changes a stream that stays by no more than what it sees.
  lemma StepProjects(f: Frer, op: Op, i: nat)
    requires f.initialised && i < |f.streams| && !Removes(f, op, i)
    ensures var f', j := Step(f, op), Moved(f, op, i);
            && f'.initialised && j < |f'.streams| && f'.streams[j].en == f.streams[i].en
            && |SeenBy(f, op, i)| <= 1
            && f'.streams[j].st == if SeenBy(f, op, i) == [] then f.streams[i].st
                                   else StreamStep(f.streams[i].st, f.streams[i].en, SeenBy(f, op, i)[0])
  {
    hide OnFrame, OnTick, Registered;
  }

  // Each stream of a table evolves over any run, as long as it is not removed,
  // as if it were alone with its own frames: no frame, registration or removal
  // of another stream touches it.
  lemma {:induction false} StreamsIndependent(f: Frer, ops: seq<Op>, i: nat)
    requires f.initialised && i < |f.streams| && Survives(f, ops, i)
    ensures var f', j := Run(f, ops), Place(f, ops, i);
            && f'.initialised && j < |f'.streams| && f'.streams[j].en == f.streams[i].en
            && f'.streams[j].st == StreamRun(f.streams[i].st, f.streams[i].en, Project(f, ops, i))
  {
    hide OnFrame, OnTick, Step, SeenBy, StreamStep, Moved, Removes;
    if ops == [] {
    } else {
      var n := |ops| - 1;
      var seen := SeenBy(Run(f, ops[..n]), ops[n], Place(f, ops[..n], i));
      StreamsIndependent(f, ops[..n], i);
      StepProjects(Run(f, ops[..n]), ops[n], Place(f, ops[..n], i));
      if seen == [] {
        assert Project(f, ops, i) == Project(f, ops[..n], i);
      } else {
        assert Project(f, ops, i)[..|Project(f, ops, i)| - 1] == Project(f, ops[..n], i);
      }
    }
  }

  lemma {:induction false} AccountIsStreamRun(en: StreamEntry, events: seq<Event>)
    ensures AccountRun(en, events).st == StreamRun(Registered(en), en, events)
  {
    hide OnFrame, OnTick, Registered;
    if events == [] {
    } else {
      AccountIsStreamRun(en, events[..|events| - 1]);
    }
  }

  function Result(forward: bool): FrameResult {
    if forward then Forward else Discard
  }

  predicate Agree(answers: seq<FrameResult>, verdicts: seq<bool>) {
    |answers| == |verdicts| && forall k :: 0 <= k < |verdicts| ==> answers[k] == Result(verdicts[k])
  }

  lemma VerdictAppends(en: StreamEntry, before: seq<Event>, e: Event)
    ensures var a := AccountRun(en, before);
            AccountRun(en, before + [e]).verdicts
            == if e.Frame? then a.verdicts + [OnFrame(a.st, e.seqNum, e.path, e.frameNs).1] else a.verdicts
  {
    hide OnFrame, OnTick, LatentErrorDue;
    assert (before + [e])[..|before|] == before;
  }

  lemma AgreeAppends(answers: seq<FrameResult>, verdicts: seq<bool>, forward: bool)
    requires Agree(answers, verdicts)
    ensures Agree(answers + [Result(forward)], verdicts + [forward])
  {
  }

  lemma AnswerIsVerdict(
    f: Frer, op: Op, i: nat, en: StreamEntry, before: seq<Event>, answers: seq<FrameResult>)
    requires i < |f.streams| && f.streams[i].st == AccountRun(en, before).st
    requires Agree(answers, AccountRun(en, before).verdicts)
    ensures Agree(answers + AnswerTo(f, op, i), AccountRun(en, before + SeenBy(f, op, i)).verdicts)
  {
    hide OnFrame, AccountRun, Agree;
    var a, seen := AccountRun(en, before), SeenBy(f, op, i);
    assert answers + [] == answers && before + [] == before;
    if seen != [] {
      VerdictAppends(en, before, seen[0]);
      if op.Deliver? {
        AgreeAppends(answers, a.verdicts, OnFrame(a.st, op.seqNum, op.path, op.frameNs).1);
      }
    }
  }

  // A stream registered in a shared table ends in the state of a lone stream.
  lemma TableKeepsState(f: Frer, ops: seq<Op>, i: nat, en: StreamEntry)
    requires f.initialised && i < |f.streams| && f.streams[i] == Stream(Registered(en), en) && Survives(f, ops, i)
    ensures Place(f, ops, i) < |Run(f, ops).streams|
    ensures Run(f, ops).streams[Place(f, ops, i)] == Stream(AccountRun(en, Project(f, ops, i)).st, en)
  {
    hide Registered, Run, Place, Survives, Project, AccountRun, StreamRun;
    StreamsIndependent(f, ops, i);
    AccountIsStreamRun(en, Project(f, ops, i));
  }

  lemma NothingAnswered(en: StreamEntry)
    ensures Agree([], AccountRun(en, []).verdicts)
  {
  }

  // And it gets from the table, over any run that does not remove it, exactly
  // the verdicts of a lone stream on its own frames.
  lemma {:induction false} TableKeepsVerdicts(f: Frer, ops: seq<Op>, i: nat, en: StreamEntry)
    requires f.initialised && i < |f.streams| && f.streams[i] == Stream(Registered(en), en) && Survives(f, ops, i)
    ensures Agree(Answers(f, ops, i), AccountRun(en, Project(f, ops, i)).verdicts)
  {
    hide Registered, Step, Run, Place, SeenBy, AnswerTo, Removes, AccountStep, Agree;
    if ops == [] {
      NothingAnswered(en);
    } else {
      hide AccountRun;
      var n := |ops| - 1;
      var before, answers := Project(f, ops[..n], i), Answers(f, ops[..n], i);
      TableKeepsState(f, ops[..n], i, en);
      TableKeepsVerdicts(f, ops[..n], i, en);
      AnswerIsVerdict(Run(f, ops[..n]), ops[n], Place(f, ops[..n], i), en, before, answers);
    }
  }

  // So its counters account for every frame the table was given for it.
  lemma TableKeepsAccounts(f: Frer, ops: seq<Op>, i: nat, en: StreamEntry)
    requires f.initialised && i < |f.streams| && f.streams[i] == Stream(Registered(en), en) && Survives(f, ops, i)
    requires ShortOfWrap(Project(f, ops, i))
    ensures Place(f, ops, i) < |Run(f, ops).streams|
    ensures var st, a := Run(f, ops).streams[Place(f, ops, i)].st, AccountRun(en, Project(f, ops, i));
            && Conserved(a, |Project(f, ops, i)|)
            && st.framesAccepted + st.framesDiscardedDuplicate + a.cleared == |Answers(f, ops, i)|
  {
    hide OnFrame, OnTick, Registered, Step, AccountRun, Project, Answers, Run, Place, Survives;
    TableKeepsState(f, ops, i, en);
    TableKeepsVerdicts(f, ops, i, en);
    FramesConserved(en, Project(f, ops, i));
  }

  // ---- What the table answers ----------------------------------------------------------

  // A frame is unknown exactly when no stream carries its handle; otherwise it
  // changes the first that does and no other.
  lemma ReceiveExact(f: Frer, handle: u16, seqNum: u16, path: PathIndex, nowNs: u64, i: nat)
    requires i < |f.streams|
    ensures var (f', r) := Receive(f, handle, seqNum, path, nowNs);
            var first := f.streams[i].st.streamHandle == handle
                         && forall k :: 0 <= k < i ==> f.streams[k].st.streamHandle != handle;
            && (r == Unknown <==> forall k :: 0 <= k < |f.streams| ==> f.streams[k].st.streamHandle != handle)
            && f'.initialised == f.initialised && |f'.streams| == |f.streams|
            && f'.streams[i].en == f.streams[i].en
            && (first ==> f'.streams[i].st == OnFrame(f.streams[i].st, seqNum, path, nowNs).0
                          && r == Result(OnFrame(f.streams[i].st, seqNum, path, nowNs).1))
            && (!first ==> f'.streams[i] == f.streams[i])
  {
    hide OnFrame;
  }

  // Removal is refused exactly when no stream carries the handle, fails with
  // the hardware, and a refused or failed one changes nothing.
  lemma DeregisterExact(f: Frer, handle: u16, answer: Status)
    ensures var (f', s) := Deregister(f, handle, answer);
            var known := exists k :: 0 <= k < |f.streams| && f.streams[k].st.streamHandle == handle;
            && s == (if known then answer else Err(PsfsStreamUnknown))
            && (s.Err? ==> f' == f) && (s.Ok? ==> |f'.streams| == |f.streams| - 1)
  {
  }

  // What a latent-error report says of a stream before the tick: it had an
  // event already, or its window is full with fewer than one duplicate in twenty.
  predicate Suspect(st: StreamState) {
    var total := st.framesAccepted + st.framesDiscardedDuplicate;
    st.latentErrorEvents > 0 || (total >= 10_000 && 20 * st.framesDiscardedDuplicate < total)
  }

  lemma SuspectExact(st: StreamState, en: StreamEntry, nowNs: u64)
    requires (st.framesAccepted + st.framesDiscardedDuplicate) * 100 < U64_RANGE && st.latentErrorEvents + 1 < U64_RANGE
    ensures OnTick(st, en, nowNs).latentErrorEvents > 0 <==> Suspect(st)
  {
    hide LatentErrorDue, AllPaths, ClearPaths;
    LatentErrorExact(st);
    CheckCounted(st, en, nowNs);
  }

  // A tick reports a latent error exactly when some stream is suspect.
  lemma TickReportsExact(f: Frer, nowNs: u64)
    requires f.initialised
    requires forall k :: 0 <= k < |f.streams| ==>
               (f.streams[k].st.framesAccepted + f.streams[k].st.framesDiscardedDuplicate) * 100 < U64_RANGE
               && f.streams[k].st.latentErrorEvents + 1 < U64_RANGE
    ensures Tick(f, nowNs).1 == Err(FrerLatentError)
       <==> exists k :: 0 <= k < |f.streams| && Suspect(f.streams[k].st)
    ensures Tick(f, nowNs).1 in {Ok, Err(FrerLatentError)}
  {
    hide OnTick, Suspect;
    var ticked := TickAll(f.streams, nowNs);
    forall k | 0 <= k < |f.streams| ensures ticked[k].st.latentErrorEvents > 0 <==> Suspect(f.streams[k].st) {
      SuspectExact(f.streams[k].st, f.streams[k].en, nowNs);
    }
    if i :| 0 <= i < |f.streams| && Suspect(f.streams[i].st) {
      assert ticked[i].st.latentErrorEvents > 0;
    }
  }

  // ---- A latent error is reported until its stream is removed ------------------------

  ghost predicate Latched(f: Frer, handle: u16, bound: nat) {
    exists k :: 0 <= k < |f.streams| && f.streams[k].st.streamHandle == handle
                && 0 < f.streams[k].st.latentErrorEvents <= bound
  }

  lemma CounterGrows(st: StreamState, en: StreamEntry, e: Event)
    requires st.latentErrorEvents + 1 < U64_RANGE
    ensures var st' := StreamStep(st, en, e);
            && st.latentErrorEvents <= st'.latentErrorEvents <= st.latentErrorEvents + 1
            && st'.streamHandle == st.streamHandle
  {
    hide WindowFailed, AllPaths, Seen, HistoryBit, With, MarkPath, ClearPaths;
  }

  lemma StepKeepsLatched(f: Frer, op: Op, handle: u16, bound: nat)
    requires f.initialised && Latched(f, handle, bound) && bound + 1 < U64_RANGE
    requires !(op.Drop? && op.dropHandle == handle)
    ensures Step(f, op).initialised && Latched(Step(f, op), handle, bound + 1)
  {
    hide Step, SeenBy, StreamStep, Moved;
    var k :| 0 <= k < |f.streams| && f.streams[k].st.streamHandle == handle
             && 0 < f.streams[k].st.latentErrorEvents <= bound;
    StepProjects(f, op, k);
    if SeenBy(f, op, k) != [] { CounterGrows(f.streams[k].st, f.streams[k].en, SeenBy(f, op, k)[0]); }
    var st := Step(f, op).streams[Moved(f, op, k)].st;
    assert st.streamHandle == handle && 0 < st.latentErrorEvents <= bound + 1;
  }

  lemma LatchedIsReported(f: Frer, handle: u16, bound: nat)
    requires Latched(f, handle, bound)
    ensures AnyLatent(f.streams)
  {
  }

  // Once an event has fired on a stream, every later tick reports it, whatever
  // else happens, until that stream is deregistered.
  lemma {:induction false} LatentErrorSticks(f: Frer, ops: seq<Op>, handle: u16, bound: nat, nowNs: u64)
    requires f.initialised && Latched(f, handle, bound) && bound + |ops| + 1 < U64_RANGE
    requires forall k :: 0 <= k < |ops| && ops[k].Drop? ==> ops[k].dropHandle != handle
    ensures Run(f, ops).initialised && Latched(Run(f, ops), handle, bound + |ops|)
    ensures Tick(Run(f, ops), nowNs).1 == Err(FrerLatentError)
  {
    hide OnTick, Latched, Receive, Register, Deregister;
    if ops == [] {
    } else {
      LatentErrorSticks(f, ops[..|ops| - 1], handle, bound, nowNs);
      StepKeepsLatched(Run(f, ops[..|ops| - 1]), ops[|ops| - 1], handle, bound + |ops| - 1);
    }
    StepKeepsLatched(Run(f, ops), Pass(nowNs), handle, bound + |ops|);
    LatchedIsReported(Step(Run(f, ops), Pass(nowNs)), handle, bound + |ops| + 1);
  }

  // ---- Registration and removal ---------------------------------------------------------

  lemma {:induction false} FindAppended(streams: seq<Stream>, s: Stream, handle: u16)
    ensures Find(streams, handle) < |streams| ==> Find(streams + [s], handle) == Find(streams, handle)
    ensures Find(streams, handle) == |streams| && s.st.streamHandle == handle
            ==> Find(streams + [s], handle) == |streams|
  {
    if streams != [] {
      assert (streams + [s])[1..] == streams[1..] + [s];
      FindAppended(streams[1..], s, handle);
    } else {
      assert streams + [s] == [s];
    }
  }

  // Removing the handle of a stream just registered restores the table when
  // the handle was new, and otherwise removes the older stream and keeps the new.
  lemma RemovalAfterRegistration(f: Frer, en: StreamEntry)
    requires f.initialised && |f.streams| < MAX_FRER_ENTRIES
    ensures var i := Find(f.streams, en.streamHandle);
            Deregister(Register(f, en, Ok).0, en.streamHandle, Ok).0.streams
            == if i == |f.streams| then f.streams
               else f.streams[..i] + f.streams[i + 1..] + [Stream(Registered(en), en)]
  {
    var i, added := Find(f.streams, en.streamHandle), Stream(Registered(en), en);
    FindAppended(f.streams, added, en.streamHandle);
    assert (f.streams + [added])[..i] == f.streams[..i];
    if i < |f.streams| {
      assert (f.streams + [added])[i + 1..] == f.streams[i + 1..] + [added];
    }
  }
}
