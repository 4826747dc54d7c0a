// The per-port gate control manager: a validator that scans the gate list
// stage by stage, and the only writer of gate lists to the hardware.
module GateControlManagers {
  import opened TsnTypes
  import opened GateSchedule
  import opened GateControl
  import opened GateVerification

  // The hardware abstraction layer. Its answers are the environment's choice
  // and reach the model as parameters; what is kept is the record of every
  // gate list it was handed.
  class SwitchHal {
    ghost var trace: seq<HalEvent>

    constructor ()
      ensures trace == []
    {
      trace := [];
    }

    method ApplyGclToPort(port: u8, params: ScheduleParams, answer: Status) returns (s: Status)
      modifies this
      ensures trace == old(trace) + [GclWrite(port, params, answer)]
      ensures s == answer
    {
      trace := trace + [GclWrite(port, params, answer)];
      s := answer;
    }

    ghost method Mark(e: HalEvent)
      modifies this
      ensures trace == old(trace) + [e]
    {
      trace := trace + [e];
    }
  }

  class GateControlManager {
    const port: u8
    const hal: SwitchHal
    var scheduleActive: bool
    var activeSchedule: ScheduleParams
    var verifyBuffer: ScheduleParams
    var lastNcResult: NetworkCalculusResult
    var ncResultValid: bool

    ghost function View(): Gcm
      reads this
    {
      Gcm(port, scheduleActive, activeSchedule, lastNcResult, ncResultValid)
    }

    ghost predicate Valid()
      reads this
    {
      scheduleActive ==> Accepted(activeSchedule)
    }

    constructor (port: u8, hal: SwitchHal)
      ensures this.port == port && this.hal == hal
      ensures Valid() && !scheduleActive
      ensures View() == Gcm(port, false, PASS_THROUGH, NO_RESULT, false)
    {
      this.port, this.hal := port, hal;
      scheduleActive, ncResultValid := false, false;
      activeSchedule, verifyBuffer, lastNcResult := PASS_THROUGH, PASS_THROUGH, NO_RESULT;
    }

    method CheckEntryCount(params: ScheduleParams) returns (s: Status)
      ensures s == Ok <==> EntryCountInRange(params)
      ensures s == Ok <==> 1 <= params.entryCount <= 256
      ensures s == Err(GclEmpty) <==> params.entryCount == 0
      ensures s in {Ok, Err(GclEmpty), Err(GclTooManyEntries)}
    {
      if params.entryCount == 0 { return Err(GclEmpty); }
      if params.entryCount > MAX_GCL_ENTRIES { return Err(GclTooManyEntries); }
      return Ok;
    }

    method CheckCycleTime(params: ScheduleParams) returns (s: Status)
      ensures s == Ok <==> CycleTimeInRange(params)
      ensures s == Ok <==> 100_000 <= params.cycleTimeNs <= 1_000_000_000
      ensures s == Err(CycleTimeTooShort) <==> params.cycleTimeNs < MIN_CYCLE_TIME_NS
      ensures s in {Ok, Err(CycleTimeTooShort), Err(CycleTimeTooLong)}
    {
      if params.cycleTimeNs < MIN_CYCLE_TIME_NS { return Err(CycleTimeTooShort); }
      if params.cycleTimeNs > MAX_CYCLE_TIME_NS { return Err(CycleTimeTooLong); }
      return Ok;
    }

    method CheckNoZeroIntervals(params: ScheduleParams) returns (s: Status)
      requires params.entryCount <= MAX_GCL_ENTRIES
      ensures s == if NoZeroInterval(params) then Ok else Err(ZeroIntervalEntry)
    {
      for i := 0 to params.entryCount
        invariant forall k :: 0 <= k < i ==> params.gcl[k].intervalNs != 0
      {
        if params.gcl[i].intervalNs == 0 { return Err(ZeroIntervalEntry); }
      }
      return Ok;
    }

    // The 64-bit accumulator cannot wrap: 256 intervals of 32 bits.
    method CheckIntervalSum(params: ScheduleParams) returns (s: Status)
      requires params.entryCount <= MAX_GCL_ENTRIES
      ensures s == if IntervalsFillCycle(params) then Ok else Err(IntervalSumMismatch)
    {
      var sum: u64 := 0;
      for i := 0 to params.entryCount
        invariant sum == StartOf(params.gcl, i)
      {
        sum := Wrap64(sum + params.gcl[i].intervalNs);
      }
      if sum != params.cycleTimeNs { return Err(IntervalSumMismatch); }
      return Ok;
    }

    method CheckGuardBand(params: ScheduleParams) returns (s: Status)
      requires params.entryCount <= MAX_GCL_ENTRIES
      ensures s == if SafetyWindowsWideEnough(params) then Ok else Err(GuardBandViolation)
    {
      var safetyFrameNs := FrameTransmissionNs(params.maxSafetyFrameSizeBytes);
      var guardBandNs := FrameTransmissionNs(MAX_FRAME_SIZE_BYTES);
      var minWindowNs := Wrap64(safetyFrameNs + guardBandNs);
      for i := 0 to params.entryCount
        invariant forall k :: 0 <= k < i && params.gcl[k].gateStates == SAFETY_ONLY_OPEN
                              ==> params.gcl[k].intervalNs >= MinWindowNs(params)
      {
        if params.gcl[i].gateStates == SAFETY_ONLY_OPEN {
          if params.gcl[i].intervalNs < minWindowNs { return Err(GuardBandViolation); }
        }
      }
      return Ok;
    }

    method CheckSafetyCriticalWindow(params: ScheduleParams) returns (s: Status)
      requires params.entryCount <= MAX_GCL_ENTRIES
      ensures s == if HasSafetyWindow(params) then Ok else Err(SafetyCriticalWindowAbsent)
    {
      for i := 0 to params.entryCount
        invariant forall k :: 0 <= k < i ==> params.gcl[k].gateStates != SAFETY_ONLY_OPEN
      {
        if params.gcl[i].gateStates == SAFETY_ONLY_OPEN { return Ok; }
      }
      return Err(SafetyCriticalWindowAbsent);
    }

    method ComputeBlockingTimeNs(params: ScheduleParams, tc: TrafficClass) returns (blocked: u64)
      requires params.entryCount <= MAX_GCL_ENTRIES
      ensures blocked == BlockingNs(params, tc)
    {
      var tcBit := GateBit(tc);
      blocked := 0;
      for i := 0 to params.entryCount
        invariant blocked == ClosedUpTo(params.gcl, i, tc)
      {
        if params.gcl[i].gateStates & tcBit == 0 {
          blocked := Wrap64(blocked + params.gcl[i].intervalNs);
        }
      }
    }

    method BlockingTimes(params: ScheduleParams) returns (blockingNs: array<u64>)
      requires params.entryCount <= MAX_GCL_ENTRIES
      ensures fresh(blockingNs) && blockingNs.Length == 8
      ensures forall k :: 0 <= k < 8 ==> blockingNs[k] == BlockingNs(params, k)
    {
      hide BlockingNs;
      blockingNs := new u64[8](_ => 0);
      for tc := 0 to 8
        invariant forall k :: 0 <= k < tc ==> blockingNs[k] == BlockingNs(params, k)
      {
        blockingNs[tc] := ComputeBlockingTimeNs(params, tc);
      }
    }

    method BurstTimes() returns (burstNs: array<u64>)
      ensures fresh(burstNs) && burstNs.Length == 8
      ensures forall k :: 0 <= k < 8 ==> burstNs[k] == FrameTransmissionNs(BurstBytes(k))
    {
      hide FrameTransmissionNs, BurstBytes;
      burstNs := new u64[8](_ => 0);
      for tc := 0 to 8
        invariant forall k :: 0 <= k < tc ==> burstNs[k] == FrameTransmissionNs(BurstBytes(k))
      {
        burstNs[tc] := FrameTransmissionNs(BurstBytes(tc));
      }
    }

    // No 64-bit sum of the analyser can wrap, so the delays are the exact ones.
    method ClassDelay(params: ScheduleParams, blockingNs: array<u64>, burstNs: array<u64>, tc: TrafficClass)
      returns (wcd: u64)
      requires params.entryCount <= MAX_GCL_ENTRIES && blockingNs.Length == burstNs.Length == 8
      requires forall k :: 0 <= k < 8 ==> blockingNs[k] == BlockingNs(params, k)
      requires forall k :: 0 <= k < 8 ==> burstNs[k] == FrameTransmissionNs(BurstBytes(k))
      ensures wcd == WorstCaseDelayNs(params, tc)
    {
      hide BurstBytes, FrameTransmissionNs, ClosedUpTo;
      DemandFigures();
      var higherPriorityBurstNs: u64 := 0;
      for j := tc + 1 to 8
        invariant higherPriorityBurstNs + DemandNs(j) == DemandNs(tc + 1)
      {
        higherPriorityBurstNs := Wrap64(higherPriorityBurstNs + burstNs[j]);
      }
      wcd := Wrap64(blockingNs[tc] + burstNs[tc] + higherPriorityBurstNs);
    }

    // The delay and verdict of every class, and the burst bits of all of them.
    method ClassResults(params: ScheduleParams) returns (wcds: seq<u64>, met: seq<bool>, totalBitsUsed: u64)
      requires params.entryCount <= MAX_GCL_ENTRIES
      ensures |wcds| == |met| == 8
      ensures forall k :: 0 <= k < 8 ==> wcds[k] == WorstCaseDelayNs(params, k)
      ensures forall k :: 0 <= k < 8 ==> met[k] == (WorstCaseDelayNs(params, k) <= DeadlineNs(k))
      ensures totalBitsUsed == TotalBurstBits(8) <= 576_000
    {
      hide FrameTransmissionNs, BlockingNs, WorstCaseDelayNs, DeadlineNs, BurstBytes;
      var blockingNs := BlockingTimes(params);
      var burstNs := BurstTimes();
      wcds, met, totalBitsUsed := [], [], 0;
      for tc := 0 to 8
        invariant |wcds| == |met| == tc
        invariant forall k :: 0 <= k < tc ==> wcds[k] == WorstCaseDelayNs(params, k)
        invariant forall k :: 0 <= k < tc ==> met[k] == (WorstCaseDelayNs(params, k) <= DeadlineNs(k))
        invariant totalBitsUsed == TotalBurstBits(tc) <= 72_000 * tc
        modifies {}
      {
        var wcd := ClassDelay(params, blockingNs, burstNs, tc);
        wcds := wcds + [wcd];
        met := met + [wcd <= DeadlineNs(tc)];
        totalBitsUsed := Wrap64(totalBitsUsed + BurstBytes(tc) * 8);
      }
    }

    // Stage 7.
    method RunNetworkCalculus(params: ScheduleParams) returns (s: Status)
      requires params.entryCount <= MAX_GCL_ENTRIES && params.cycleTimeNs != 0
      modifies this`lastNcResult, this`ncResultValid
      ensures lastNcResult == Analysis(params) && ncResultValid
      ensures s == if SafetyDeadlineMet(params) then Ok else Err(DeadlineViolation)
    {
      hide WorstCaseDelayNs, DeadlineNs;
      var wcds, met, totalBitsUsed := ClassResults(params);
      lastNcResult := NetworkCalculusResult(
        wcds, met, FrameTransmissionNs(BurstBytes(SAFETY_CRITICAL)), 0,
        Wrap64(totalBitsUsed * 100) / params.cycleTimeNs);
      assert wcds == Analysis(params).worstCaseDelayNs && met == Analysis(params).deadlineMet;
      ncResultValid := true;
      if !met[SAFETY_CRITICAL] { return Err(DeadlineViolation); }
      return Ok;
    }

    method ValidateSchedule(params: ScheduleParams) returns (s: Status)
      modifies this`lastNcResult, this`ncResultValid
      ensures View() == Analysed(old(View()), params)
      ensures s == Validation(params)
    {
      s := CheckEntryCount(params);
      if s.Err? { return; }
      s := CheckCycleTime(params);
      if s.Err? { return; }
      s := CheckNoZeroIntervals(params);
      if s.Err? { return; }
      s := CheckIntervalSum(params);
      if s.Err? { return; }
      s := CheckGuardBand(params);
      if s.Err? { return; }
      s := CheckSafetyCriticalWindow(params);
      if s.Err? { return; }
      s := RunNetworkCalculus(params);
    }

    method ApplySchedule(params: ScheduleParams, answer: Status) returns (s: Status)
      requires Valid()
      modifies this, hal
      ensures Valid()
      ensures View() == Applied(old(View()), params, answer)
      ensures s == ApplyStatus(params, answer)
      ensures hal.trace == old(hal.trace) + ApplyEvents(old(View()), params, answer)
    {
      s := ValidateSchedule(params);
      if s.Err? { return; }
      s := hal.ApplyGclToPort(port, params, answer);
      if s.Err? { return; }
      activeSchedule := params;
      scheduleActive := true;
    }

    method DisableSchedule(answer: Status) returns (s: Status)
      requires Valid()
      modifies this`scheduleActive, hal
      ensures Valid()
      ensures View() == Disabled(old(View()), answer)
      ensures s == answer
      ensures hal.trace == old(hal.trace) + [GclWrite(port, PASS_THROUGH, answer)]
    {
      s := hal.ApplyGclToPort(port, PASS_THROUGH, answer);
      if s.Err? { return; }
      scheduleActive := false;
    }

    method VerifyHardwareSchedule(read: OperRead) returns (s: Status)
      requires Valid()
      modifies this`verifyBuffer
      ensures s == Verification(View(), read) && View() == old(View())
      ensures s == Ok <==> scheduleActive && read.OperGcl? && Agrees(activeSchedule, read.params)
    {
      VerificationExact(View(), read);
      if !scheduleActive { return Err(NotInitialised); }
      verifyBuffer := PASS_THROUGH;
      if read.OperFail? { return Err(read.error); }
      verifyBuffer := read.params;
      if verifyBuffer.cycleTimeNs != activeSchedule.cycleTimeNs { return Err(OperationNotPermitted); }
      if verifyBuffer.entryCount != activeSchedule.entryCount { return Err(OperationNotPermitted); }
      for i := 0 to activeSchedule.entryCount
        invariant forall k :: 0 <= k < i ==> verifyBuffer.gcl[k] == activeSchedule.gcl[k]
      {
        if verifyBuffer.gcl[i].gateStates != activeSchedule.gcl[i].gateStates
          || verifyBuffer.gcl[i].intervalNs != activeSchedule.gcl[i].intervalNs
        {
          return Err(OperationNotPermitted);
        }
      }
      return Ok;
    }
  }
}
