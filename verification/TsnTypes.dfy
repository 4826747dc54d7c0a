// Fixed-width integers, error codes and schedule data shared by every component.
module TsnTypes {

  const U64_RANGE: int := 0x1_0000_0000_0000_0000
  const U32_RANGE: int := 0x1_0000_0000

  type u8 = x: int | 0 <= x < 0x100
  type u16 = x: int | 0 <= x < 0x1_0000
  type u32 = x: int | 0 <= x < U32_RANGE
  type u64 = x: int | 0 <= x < U64_RANGE
  type i64 = x: int | -0x8000_0000_0000_0000 <= x < 0x8000_0000_0000_0000

  // Unsigned 64-bit arithmetic reduces modulo 2^64.
  function Wrap64(x: int): u64 {
    x % U64_RANGE
  }

  predicate FitsI64(x: int) {
    -0x8000_0000_0000_0000 <= x < 0x8000_0000_0000_0000
  }

  const MAX_GCL_ENTRIES: int := 256
  const MAX_SWITCH_PORTS: int := 16
  const MAX_FRER_ENTRIES: int := 64
  const MAX_SECURE_CHANNELS: int := 32
  const NS_PER_SECOND: u64 := 1_000_000_000
  const MIN_CYCLE_TIME_NS: u64 := 100_000
  const MAX_CYCLE_TIME_NS: u64 := 1_000_000_000
  const MAX_FRAME_SIZE_BYTES: u32 := 1538
  const PTP_SYNC_TARGET_NS: u64 := 1_000

  const ALL_QUEUES_OPEN: bv8 := 0xFF
  const SAFETY_ONLY_OPEN: bv8 := 0x80

  datatype ErrorCode =
    | GclEmpty | GclTooManyEntries | CycleTimeTooShort | CycleTimeTooLong
    | IntervalSumMismatch | SafetyCriticalWindowAbsent | ZeroIntervalEntry
    | GuardBandViolation | DeadlineViolation
    | HalError(code: u32) | HalPortOutOfRange
    | PtpNotSynchronised | PtpHoldoverExpired
    | FrerTableFull | FrerLatentError | PsfsStreamUnknown | MacsecReplayAttack
    | InvalidArgument | NotInitialised | OperationNotPermitted
    | NoError

  datatype Status = Ok | Err(error: ErrorCode)

  // A queue index 0..7; queue 7 carries the safety-critical class.
  type TrafficClass = x: int | 0 <= x < 8
  const SAFETY_CRITICAL: TrafficClass := 7

  // Gate mask: bit N is traffic class N, one means open.
  datatype GclEntry = GclEntry(gateStates: bv8, intervalNs: u32)

  // The fixed-size gate array of a schedule; only a prefix of it is in use.
  type GclArray = s: seq<GclEntry> | |s| == MAX_GCL_ENTRIES
    witness seq(MAX_GCL_ENTRIES, _ => GclEntry(0, 0))

  datatype PtpTimestamp = PtpTimestamp(seconds: u64, nanoseconds: u32)

  datatype ScheduleParams = ScheduleParams(
    cycleTimeNs: u64,
    baseTime: PtpTimestamp,
    maxSafetyFrameSizeBytes: u32,
    entryCount: u16,
    gcl: GclArray)

  // Outcome of reading the three PHC registers that make up a timestamp.
  datatype PhcRead = PhcFail(error: ErrorCode) | PhcOk(secHigh: u32, secLow: u32, ns: u32)

  // A reading as nanoseconds, with the two 64-bit wraps the code can make.
  function PhcNs(r: PhcRead): u64
    requires r.PhcOk?
  {
    Wrap64(Wrap64((r.secHigh * U32_RANGE + r.secLow) * NS_PER_SECOND) + r.ns)
  }

  lemma WrapsOnce(x: int, y: int)
    ensures Wrap64(Wrap64(x) + y) == (x + y) % 0x1_0000_0000_0000_0000
  {
  }

  // The three words weigh 2^32 seconds, one second and one nanosecond; the
  // wraps only reduce the total modulo 2^64.
  lemma PhcNsExact(secHigh: u32, secLow: u32, ns: u32)
    ensures PhcNs(PhcOk(secHigh, secLow, ns))
         == ((secHigh * 0x1_0000_0000 + secLow) * 1_000_000_000 + ns) % 0x1_0000_0000_0000_0000
  {
    hide Wrap64;
    WrapsOnce((secHigh * 0x1_0000_0000 + secLow) * 1_000_000_000, ns);
  }
}
