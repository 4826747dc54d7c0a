// What the seven validation stages of GateControlManager accept, and what its
// delay analyser computes, stated on schedules as values.
module GateSchedule {
  import opened TsnTypes

  // Sum of the first n intervals: the offset within the cycle at which entry n starts.
  function StartOf(gcl: GclArray, n: nat): (s: nat)
    requires n <= MAX_GCL_ENTRIES
    ensures s <= n * (U32_RANGE - 1)
  {
    if n == 0 then 0 else StartOf(gcl, n - 1) + gcl[n - 1].intervalNs
  }

  function GateBit(tc: TrafficClass): bv8 {
    (1 as bv8) << tc
  }

  predicate IsOpenIn(gates: bv8, tc: TrafficClass) {
    gates & GateBit(tc) != 0
  }

  // Gate n has bit n of the mask.
  lemma GateBitTable()
    ensures GateBit(0) == 0x01 && GateBit(1) == 0x02 && GateBit(2) == 0x04 && GateBit(3) == 0x08
    ensures GateBit(4) == 0x10 && GateBit(5) == 0x20 && GateBit(6) == 0x40 && GateBit(7) == 0x80
  {
  }

  // Total time per cycle, over the first n entries, during which class tc is closed.
  function ClosedUpTo(gcl: GclArray, n: nat, tc: TrafficClass): (s: nat)
    requires n <= MAX_GCL_ENTRIES
    ensures s <= StartOf(gcl, n)
  {
    if n == 0 then 0
    else ClosedUpTo(gcl, n - 1, tc) + if IsOpenIn(gcl[n - 1].gateStates, tc) then 0 else gcl[n - 1].intervalNs
  }

  // Eight nanoseconds per byte at 1 Gbit/s.
  function FrameTransmissionNs(bytes: u32): u64 {
    Wrap64(bytes * 8)
  }

  // Burst allowance of each traffic class in bytes, and its deadline.
  function BurstBytes(tc: TrafficClass): (b: u32)
    ensures b <= 9000
  {
    match tc
    case 0 => 9000 case 1 => 4500 case 2 => 2048 case 3 => 1538
    case 4 => 8192 case 5 => 1538 case 6 => 512 case _ => 1538
  }

  function DeadlineNs(tc: TrafficClass): u64 {
    match tc
    case 0 => 50_000_000 case 1 => 50_000_000 case 2 => 10_000_000 case 3 => 5_000_000
    case 4 => 10_000_000 case 5 => 2_000_000 case 6 => 500_000 case _ => 500_000
  }

  // Time to drain the bursts of classes tc..7 at link speed: what class tc
  // must wait for in front of and including its own burst.
  function DemandNs(tc: nat): nat
    requires tc <= 8
    decreases 8 - tc
  {
    if tc == 8 then 0 else FrameTransmissionNs(BurstBytes(tc)) + DemandNs(tc + 1)
  }

  lemma DemandFigures()
    ensures DemandNs(8) == 0 && DemandNs(7) == 12_304 && DemandNs(6) == 16_400 && DemandNs(5) == 28_704
    ensures DemandNs(4) == 94_240 && DemandNs(3) == 106_544 && DemandNs(2) == 122_928
    ensures DemandNs(1) == 158_928 && DemandNs(0) == 230_928
    ensures forall tc: nat :: tc <= 8 ==> DemandNs(tc) <= 230_928
  {
    assert DemandNs(8) == 0 && DemandNs(7) == 12_304 && DemandNs(6) == 16_400 && DemandNs(5) == 28_704;
    assert DemandNs(4) == 94_240 && DemandNs(3) == 106_544 && DemandNs(2) == 122_928;
    assert DemandNs(1) == 158_928 && DemandNs(0) == 230_928;
  }

  function BlockingNs(p: ScheduleParams, tc: TrafficClass): nat
    requires p.entryCount <= MAX_GCL_ENTRIES
  {
    ClosedUpTo(p.gcl, p.entryCount, tc)
  }

  function WorstCaseDelayNs(p: ScheduleParams, tc: TrafficClass): nat
    requires p.entryCount <= MAX_GCL_ENTRIES
  {
    BlockingNs(p, tc) + DemandNs(tc)
  }

  // ---- The stages ----------------------------------------------------------

  predicate EntryCountInRange(p: ScheduleParams) {
    1 <= p.entryCount <= MAX_GCL_ENTRIES
  }

  predicate CycleTimeInRange(p: ScheduleParams) {
    MIN_CYCLE_TIME_NS <= p.cycleTimeNs <= MAX_CYCLE_TIME_NS
  }

  predicate NoZeroInterval(p: ScheduleParams)
    requires p.entryCount <= MAX_GCL_ENTRIES
  {
    forall i :: 0 <= i < p.entryCount ==> p.gcl[i].intervalNs != 0
  }

  predicate IntervalsFillCycle(p: ScheduleParams)
    requires p.entryCount <= MAX_GCL_ENTRIES
  {
    StartOf(p.gcl, p.entryCount) == p.cycleTimeNs
  }

  // Narrowest admissible safety-only window: the largest safety frame and the
  // largest frame of any kind back to back.
  function MinWindowNs(p: ScheduleParams): u64 {
    FrameTransmissionNs(p.maxSafetyFrameSizeBytes) + FrameTransmissionNs(MAX_FRAME_SIZE_BYTES)
  }

  predicate SafetyWindowsWideEnough(p: ScheduleParams)
    requires p.entryCount <= MAX_GCL_ENTRIES
  {
    forall i :: 0 <= i < p.entryCount && p.gcl[i].gateStates == SAFETY_ONLY_OPEN
                ==> p.gcl[i].intervalNs >= MinWindowNs(p)
  }

  predicate HasSafetyWindow(p: ScheduleParams)
    requires p.entryCount <= MAX_GCL_ENTRIES
  {
    exists i :: 0 <= i < p.entryCount && p.gcl[i].gateStates == SAFETY_ONLY_OPEN
  }

  predicate SafetyDeadlineMet(p: ScheduleParams)
    requires p.entryCount <= MAX_GCL_ENTRIES
  {
    WorstCaseDelayNs(p, SAFETY_CRITICAL) <= DeadlineNs(SAFETY_CRITICAL)
  }

  // Stages 1 to 6, first failure first.
  function Structural(p: ScheduleParams): Status {
    if p.entryCount == 0 then Err(GclEmpty)
    else if p.entryCount > MAX_GCL_ENTRIES then Err(GclTooManyEntries)
    else if p.cycleTimeNs < MIN_CYCLE_TIME_NS then Err(CycleTimeTooShort)
    else if p.cycleTimeNs > MAX_CYCLE_TIME_NS then Err(CycleTimeTooLong)
    else if !NoZeroInterval(p) then Err(ZeroIntervalEntry)
    else if !IntervalsFillCycle(p) then Err(IntervalSumMismatch)
    else if !SafetyWindowsWideEnough(p) then Err(GuardBandViolation)
    else if !HasSafetyWindow(p) then Err(SafetyCriticalWindowAbsent)
    else Ok
  }

  // All seven stages.
  function Validation(p: ScheduleParams): Status {
    if Structural(p) != Ok then Structural(p)
    else if !SafetyDeadlineMet(p) then Err(DeadlineViolation)
    else Ok
  }

  predicate Accepted(p: ScheduleParams) {
    Validation(p) == Ok
  }

  // The first k stages, in figures: entry count, cycle time, no zero interval,
  // intervals filling the cycle, guard band of every safety-only window, one
  // such window, deadline of class 7.
  predicate Stages(p: ScheduleParams, k: nat) {
    && (k >= 1 ==> 1 <= p.entryCount <= 256)
    && (k >= 2 ==> 100_000 <= p.cycleTimeNs <= 1_000_000_000)
    && (k >= 3 ==> forall i :: 0 <= i < p.entryCount ==> p.gcl[i].intervalNs > 0)
    && (k >= 4 ==> StartOf(p.gcl, p.entryCount) == p.cycleTimeNs)
    && (k >= 5 ==> forall i :: 0 <= i < p.entryCount && p.gcl[i].gateStates == 0x80
                     ==> p.gcl[i].intervalNs >= 8 * p.maxSafetyFrameSizeBytes + 12_304)
    && (k >= 6 ==> exists i :: 0 <= i < p.entryCount && p.gcl[i].gateStates == 0x80)
    && (k >= 7 ==> ClosedUpTo(p.gcl, p.entryCount, 7) + 12_304 <= 500_000)
  }

  // The seven stages accept exactly what all of them accept, and the error is
  // that of the first that does not.
  lemma ValidationExact(p: ScheduleParams)
    ensures Accepted(p) <==> Stages(p, 7)
    ensures Validation(p) == Err(GclEmpty) <==> p.entryCount == 0
    ensures Validation(p) == Err(GclTooManyEntries) <==> p.entryCount > 256
    ensures Validation(p) == Err(CycleTimeTooShort) <==> Stages(p, 1) && p.cycleTimeNs < 100_000
    ensures Validation(p) == Err(CycleTimeTooLong) <==> Stages(p, 1) && p.cycleTimeNs > 1_000_000_000
    ensures Validation(p) == Err(ZeroIntervalEntry) <==> Stages(p, 2) && !Stages(p, 3)
    ensures Validation(p) == Err(IntervalSumMismatch) <==> Stages(p, 3) && !Stages(p, 4)
    ensures Validation(p) == Err(GuardBandViolation) <==> Stages(p, 4) && !Stages(p, 5)
    ensures Validation(p) == Err(SafetyCriticalWindowAbsent) <==> Stages(p, 5) && !Stages(p, 6)
    ensures Validation(p) == Err(DeadlineViolation) <==> Stages(p, 6) && !Stages(p, 7)
  {
    hide StartOf, ClosedUpTo;
    DemandFigures();
    assert MinWindowNs(p) == 8 * p.maxSafetyFrameSizeBytes + 12_304;
  }

  // The checks made on the configured schedules before any gate hardware is
  // touched: stages 1 to 4 and 6, without the window width and the deadline.
  predicate Prevalidated(p: ScheduleParams) {
    && EntryCountInRange(p) && CycleTimeInRange(p)
    && NoZeroInterval(p) && IntervalsFillCycle(p) && HasSafetyWindow(p)
  }

  // A prevalidated schedule is accepted exactly when the two checks left to
  // load time hold, and otherwise only those two can be reported.
  lemma PrevalidatedLoad(p: ScheduleParams)
    requires Prevalidated(p)
    ensures Accepted(p) <==> SafetyWindowsWideEnough(p) && SafetyDeadlineMet(p)
    ensures !Accepted(p) ==> Validation(p) in {Err(GuardBandViolation), Err(DeadlineViolation)}
  {
  }

  // What stage 7 records: delay and verdict per class, and the link utilisation.
  datatype NetworkCalculusResult = NetworkCalculusResult(
    worstCaseDelayNs: seq<u64>,
    deadlineMet: seq<bool>,
    safetyClassBurstNs: u64,
    totalGuardBandUsedNs: u64,
    scheduleUtilisationPercent: u64)

  const NO_RESULT := NetworkCalculusResult(
    [0, 0, 0, 0, 0, 0, 0, 0], [false, false, false, false, false, false, false, false], 0, 0, 0)

  function TotalBurstBits(tc: nat): nat
    requires tc <= 8
  {
    if tc == 0 then 0 else TotalBurstBits(tc - 1) + BurstBytes(tc - 1) * 8
  }

  function Analysis(p: ScheduleParams): NetworkCalculusResult
    requires p.entryCount <= MAX_GCL_ENTRIES && p.cycleTimeNs != 0
  {
    NetworkCalculusResult(
      seq(8, tc requires 0 <= tc < 8 => Wrap64(WorstCaseDelayNs(p, tc))),
      seq(8, tc requires 0 <= tc < 8 => WorstCaseDelayNs(p, tc) <= DeadlineNs(tc)),
      FrameTransmissionNs(BurstBytes(SAFETY_CRITICAL)),
      0,
      Wrap64(TotalBurstBits(8) * 100) / p.cycleTimeNs)
  }

  // Bursts of a class and all above it, and the deadline, of classes 0 to 7.
  const DEMAND_FIGURES: seq<nat> := [230_928, 158_928, 122_928, 106_544, 94_240, 28_704, 16_400, 12_304]
  const DEADLINE_FIGURES: seq<nat> :=
    [50_000_000, 50_000_000, 10_000_000, 5_000_000, 10_000_000, 2_000_000, 500_000, 500_000]

  lemma {:induction false} TotalBits()
    ensures TotalBurstBits(8) == 230_928
  {
    assert TotalBurstBits(4) == 136_688;
    assert TotalBurstBits(8) == TotalBurstBits(4) + 94_240;
  }

  lemma ClassFigures(tc: TrafficClass)
    ensures DemandNs(tc) == DEMAND_FIGURES[tc] && DeadlineNs(tc) == DEADLINE_FIGURES[tc]
  {
    DemandFigures();
  }

  // The analyser's record in figures: the delay and the verdict of every class,
  // without wrap, and all bursts in percent of one cycle.
  lemma AnalysisExact(p: ScheduleParams, tc: TrafficClass)
    requires p.entryCount <= 256 && p.cycleTimeNs != 0
    ensures |Analysis(p).worstCaseDelayNs| == |Analysis(p).deadlineMet| == 8
    ensures var r, delay := Analysis(p), ClosedUpTo(p.gcl, p.entryCount, tc) + DEMAND_FIGURES[tc];
            && r.worstCaseDelayNs[tc] == delay
            && (r.deadlineMet[tc] <==> delay <= DEADLINE_FIGURES[tc])
            && r.safetyClassBurstNs == 12_304 && r.totalGuardBandUsedNs == 0
            && r.scheduleUtilisationPercent == 23_092_800 / p.cycleTimeNs
  {
    hide ClosedUpTo, StartOf, DemandNs, DeadlineNs, TotalBurstBits;
    ClassFigures(tc);
    TotalBits();
    assert Wrap64(WorstCaseDelayNs(p, tc)) == WorstCaseDelayNs(p, tc);
  }

  // A gate array with one entry in use.
  function OneEntry(e: GclEntry): (gcl: GclArray)
    ensures gcl[0] == e
  {
    seq(MAX_GCL_ENTRIES, i => if i == 0 then e else GclEntry(0, 0))
  }

  // The all-open schedule written when time-aware shaping is switched off.
  const PASS_THROUGH: ScheduleParams := ScheduleParams(
    MIN_CYCLE_TIME_NS, PtpTimestamp(0, 0), MAX_FRAME_SIZE_BYTES, 1,
    OneEntry(GclEntry(ALL_QUEUES_OPEN, MIN_CYCLE_TIME_NS)))
}
