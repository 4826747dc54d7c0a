// One port's gate control state as a value, and the record of what is handed
// to the switch hardware.
module GateControl {
  import opened TsnTypes
  import opened GateSchedule

  // The hardware's side of a run. Started and SyncObserved mark the points
  // that decide when a schedule may be written.
  datatype HalEvent =
    | Started
    | SyncObserved
    | GclWrite(port: u8, params: ScheduleParams, answer: Status)

  // Outcome of reading back the operative gate list of a port.
  datatype OperRead = OperFail(error: ErrorCode) | OperGcl(params: ScheduleParams)

  datatype Gcm = Gcm(
    port: u8,
    scheduleActive: bool,
    activeSchedule: ScheduleParams,
    lastNcResult: NetworkCalculusResult,
    ncResultValid: bool)

  // State after validating p: stage 7 records its result even when the
  // schedule is then rejected for its deadline.
  function Analysed(g: Gcm, p: ScheduleParams): Gcm {
    if Structural(p) == Ok then g.(lastNcResult := Analysis(p), ncResultValid := true) else g
  }

  function ApplyStatus(p: ScheduleParams, answer: Status): Status {
    if Accepted(p) then answer else Validation(p)
  }

  function Applied(g: Gcm, p: ScheduleParams, answer: Status): Gcm {
    var g' := Analysed(g, p);
    if ApplyStatus(p, answer) == Ok then g'.(scheduleActive := true, activeSchedule := p) else g'
  }

  function ApplyEvents(g: Gcm, p: ScheduleParams, answer: Status): seq<HalEvent> {
    if Accepted(p) then [GclWrite(g.port, p, answer)] else []
  }

  function Disabled(g: Gcm, answer: Status): Gcm {
    if answer == Ok then g.(scheduleActive := false) else g
  }

  predicate SameGcl(a: ScheduleParams, b: ScheduleParams) {
    && a.cycleTimeNs == b.cycleTimeNs
    && a.entryCount == b.entryCount
    && forall i :: 0 <= i < b.entryCount && i < MAX_GCL_ENTRIES ==> a.gcl[i] == b.gcl[i]
  }

  function Verification(g: Gcm, read: OperRead): Status {
    if !g.scheduleActive then Err(NotInitialised)
    else if read.OperFail? then Err(read.error)
    else if SameGcl(read.params, g.activeSchedule) then Ok
    else Err(OperationNotPermitted)
  }

  // The schedule in force in the hardware of a port: the last one the
  // hardware acknowledged.
  datatype Loaded = Nothing | Schedule(params: ScheduleParams)

  function LastLoaded(trace: seq<HalEvent>, port: u8): Loaded {
    if trace == [] then Nothing
    else
      var e := trace[|trace| - 1];
      if e.GclWrite? && e.port == port && e.answer == Ok then Schedule(e.params)
      else LastLoaded(trace[..|trace| - 1], port)
  }

  // What one port's state says about its hardware: an active schedule passed
  // validation and is the one loaded; an inactive port has only ever been
  // left in pass-through.
  predicate Consistent(g: Gcm, trace: seq<HalEvent>) {
    if g.scheduleActive
    then Accepted(g.activeSchedule) && LastLoaded(trace, g.port) == Schedule(g.activeSchedule)
    else LastLoaded(trace, g.port) == Nothing || LastLoaded(trace, g.port) == Schedule(PASS_THROUGH)
  }

  lemma LastLoadedAppend(trace: seq<HalEvent>, e: HalEvent, port: u8)
    ensures LastLoaded(trace + [e], port)
         == if e.GclWrite? && e.port == port && e.answer == Ok then Schedule(e.params) else LastLoaded(trace, port)
  {
    assert (trace + [e])[..|trace|] == trace;
  }

  // An application changes a port's schedule exactly when the schedule passes
  // validation and the hardware takes it, and reports which of the two failed.
  // The analysis is replaced whenever stage 7 was reached.
  lemma AppliedExact(g: Gcm, p: ScheduleParams, answer: Status)
    ensures var g', s := Applied(g, p, answer), ApplyStatus(p, answer);
            && g'.port == g.port
            && s == (if Accepted(p) then answer else Validation(p))
            && (s == Ok ==> Accepted(p) && answer == Ok && g'.scheduleActive && g'.activeSchedule == p)
            && (s != Ok ==> g'.scheduleActive == g.scheduleActive && g'.activeSchedule == g.activeSchedule)
            && (if Validation(p) in {Ok, Err(DeadlineViolation)}
                then g'.ncResultValid && g'.lastNcResult == Analysis(p)
                else g'.ncResultValid == g.ncResultValid && g'.lastNcResult == g.lastNcResult)
  {
    hide Analysis, SafetyDeadlineMet, StartOf;
  }

  // Applying keeps a port consistent, whatever the schedule and whatever the
  // hardware answers.
  lemma ApplyOneConsistent(g: Gcm, trace: seq<HalEvent>, p: ScheduleParams, answer: Status)
    requires Consistent(g, trace)
    ensures Consistent(Applied(g, p, answer), trace + ApplyEvents(g, p, answer))
  {
    if Accepted(p) {
      LastLoadedAppend(trace, GclWrite(g.port, p, answer), g.port);
    } else {
      assert trace + [] == trace;
    }
  }

  // Applying on port g leaves another port h alone.
  lemma ApplyKeepsConsistent(g: Gcm, h: Gcm, trace: seq<HalEvent>, p: ScheduleParams, answer: Status)
    requires Consistent(h, trace) && g.port != h.port
    ensures Consistent(h, trace + ApplyEvents(g, p, answer))
  {
    if Accepted(p) {
      LastLoadedAppend(trace, GclWrite(g.port, p, answer), h.port);
    } else {
      assert trace + [] == trace;
    }
  }

  lemma DisableOneConsistent(g: Gcm, trace: seq<HalEvent>, answer: Status)
    requires Consistent(g, trace)
    ensures Consistent(Disabled(g, answer), trace + [GclWrite(g.port, PASS_THROUGH, answer)])
  {
    LastLoadedAppend(trace, GclWrite(g.port, PASS_THROUGH, answer), g.port);
  }

  lemma DisableKeepsConsistent(g: Gcm, h: Gcm, trace: seq<HalEvent>, answer: Status)
    requires Consistent(h, trace) && g.port != h.port
    ensures Consistent(h, trace + [GclWrite(g.port, PASS_THROUGH, answer)])
  {
    LastLoadedAppend(trace, GclWrite(g.port, PASS_THROUGH, answer), h.port);
  }
}
