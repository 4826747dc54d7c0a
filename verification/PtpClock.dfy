// The gPTP clock as a state machine over environment inputs: PHC readings,
// register write answers and received Sync messages.
module PtpClock {
  import opened TsnTypes
  import opened PtpServo

  datatype SyncState = FreeRun | Locking | Locked | Holdover

  datatype ClockRole = Grandmaster | Boundary | Slave

  datatype ClockQuality = ClockQuality(clockClass: u8, clockAccuracy: u8, offsetScaledLogVariance: u16)

  datatype PtpConfig = PtpConfig(
    localClockQuality: ClockQuality, priority1: u8, priority2: u8, portCount: u8,
    syncTimeoutNs: u64, holdoverBudgetNs: u64, driftCompensationNs: u64)

  datatype GmIdentity = GmIdentity(quality: ClockQuality, priority1: u8, priority2: u8)

  // Signed quantities are unbounded here; SyncDefined says when the 64-bit
  // arithmetic of the code agrees with them.
  datatype Ptp = Ptp(
    cfg: PtpConfig, initialised: bool, sync: SyncState, role: ClockRole,
    electedGm: GmIdentity, gmValid: bool, offsetNs: int, integral: int,
    lastSyncNs: u64, holdoverStartNs: u64, holdoverUsedNs: u64)

  const NO_QUALITY := ClockQuality(0, 0, 0)
  const NO_CONFIG := PtpConfig(NO_QUALITY, 0, 0, 0, 0, 0, 0)
  const FRESH := Ptp(NO_CONFIG, false, FreeRun, Slave, GmIdentity(NO_QUALITY, 0, 0), false, 0, 0, 0, 0, 0)

  function Init(s: Ptp, cfg: PtpConfig, write: Status): (Ptp, Status) {
    if cfg.portCount == 0 || cfg.portCount > MAX_SWITCH_PORTS then (s, Err(InvalidArgument))
    else if write.Err? then (s.(cfg := cfg), write)
    else (s.(cfg := cfg, sync := FreeRun, role := Slave, gmValid := false, integral := 0, initialised := true), Ok)
  }

  // A clock that may elect itself grandmaster.
  predicate GmCapable(cfg: PtpConfig) {
    cfg.priority1 == 0 || cfg.localClockQuality.clockClass < 135
  }

  function Bmca(s: Ptp): Ptp {
    if !s.gmValid && GmCapable(s.cfg)
    then s.(role := Grandmaster, gmValid := true, sync := Locked,
            electedGm := GmIdentity(s.cfg.localClockQuality, s.cfg.priority1, s.cfg.priority2))
    else s
  }

  // Time since a recorded instant, with the 64-bit wrap of a clock that is behind it.
  function Since(now: u64, earlier: u64): (d: u64)
    ensures now >= earlier ==> d == now - earlier
  {
    Wrap64(now - earlier)
  }

  function Tick(s: Ptp, read: PhcRead, driftWrite: Status): (Ptp, Status) {
    if !s.initialised then (s, Err(NotInitialised))
    else if read.PhcFail? then (s, Err(read.error))
    else
      var now := PhcNs(read);
      if s.sync == Holdover then
        var elapsed := Since(now, s.holdoverStartNs);
        if driftWrite.Err? then (s, driftWrite)
        else if elapsed > s.cfg.holdoverBudgetNs
        then (s.(holdoverUsedNs := elapsed, sync := FreeRun), Err(PtpHoldoverExpired))
        else if Since(now, s.lastSyncNs) > Wrap64(s.cfg.syncTimeoutNs * 10)
        then (s.(holdoverUsedNs := elapsed), Err(PtpHoldoverExpired))
        else (s.(holdoverUsedNs := elapsed), Ok)
      else if s.lastSyncNs != 0 && Since(now, s.lastSyncNs) > s.cfg.syncTimeoutNs && s.sync == Locked
      then (s.(sync := Holdover, holdoverStartNs := s.lastSyncNs, holdoverUsedNs := 0), Ok)
      else (Bmca(s), Ok)
  }

  function RawOffset(rx: u64, tx: u64, correction: int): int {
    ToI64(rx) - ToI64(tx) - correction
  }

  function Abs(x: int): nat {
    if x < 0 then -x else x
  }

  // The signed arithmetic of a Sync message stays in 64 bits; outside this the
  // code has no defined behaviour.
  predicate SyncDefined(s: Ptp, rx: u64, tx: u64, correction: int) {
    && FitsI64(ToI64(rx) - ToI64(tx))
    && FitsI64(RawOffset(rx, tx, correction)) && FitsI64(-RawOffset(rx, tx, correction))
    && FitsI64(s.integral + RawOffset(rx, tx, correction))
  }

  function Sync(s: Ptp, rx: u64, tx: u64, correction: int, write: Status): (Ptp, Status) {
    if !s.initialised then (s, Err(NotInitialised))
    else
      var raw := RawOffset(rx, tx, correction);
      var s' := s.(offsetNs := raw, lastSyncNs := rx, integral := NextIntegral(s.integral, raw));
      if write.Err? then (s', write)
      else if s.sync == Locking && Abs(raw) < PTP_SYNC_TARGET_NS then (s'.(sync := Locked), Ok)
      else if s.sync == FreeRun || s.sync == Holdover then (s'.(sync := Locking, holdoverUsedNs := 0), Ok)
      else (s', Ok)
  }

  function ForceGrandmaster(s: Ptp): Ptp {
    s.(cfg := s.cfg.(priority1 := 0), role := Grandmaster, gmValid := true, sync := Locked)
  }

  predicate IsSynchronised(s: Ptp) {
    s.sync == Locked && Abs(s.offsetNs) < PTP_SYNC_TARGET_NS
  }

  // PHC time as a caller that ignores the error sees it: zero when unreadable.
  function CurrentNs(s: Ptp, read: PhcRead): u64 {
    if s.initialised && s.sync != FreeRun && read.PhcOk? then PhcNs(read) else 0
  }

  function HoldoverRemainingNs(s: Ptp): u64 {
    if s.sync != Holdover || s.holdoverUsedNs >= s.cfg.holdoverBudgetNs then 0
    else s.cfg.holdoverBudgetNs - s.holdoverUsedNs
  }

  // ---- Single operations, in figures -----------------------------------------------------

  // A clock is initialised exactly for 1 to 16 ports and a working frequency
  // register; it then runs free, elects nobody and has an empty integral, and
  // after a failure it is initialised no more and no less than before.
  lemma InitExact(s: Ptp, cfg: PtpConfig, write: Status)
    ensures var (s', st) := Init(s, cfg, write);
            && (st == Ok <==> 1 <= cfg.portCount <= 16 && write == Ok)
            && (st == Ok ==> s'.initialised && s'.cfg == cfg && s'.sync == FreeRun && s'.role == Slave
                             && !s'.gmValid && s'.integral == 0)
            && (st != Ok ==> s'.initialised == s.initialised && s'.sync == s.sync && s'.gmValid == s.gmValid
                             && s'.integral == s.integral
                             && st == if 1 <= cfg.portCount <= 16 then write else Err(InvalidArgument))
  {
  }

  // Measured offset: reception minus transmission minus correction, for instants
  // before the year 2262.
  lemma OffsetExact(rx: u64, tx: u64, correction: int)
    ensures rx < 0x8000_0000_0000_0000 && tx < 0x8000_0000_0000_0000
            ==> RawOffset(rx, tx, correction) == rx - tx - correction
    ensures rx >= 0x8000_0000_0000_0000 && tx >= 0x8000_0000_0000_0000
            ==> RawOffset(rx, tx, correction) == rx - tx - correction
  {
  }

  // A Sync message on an initialised clock: the offset goes into the integral
  // whatever the register answers, and the message locks a locking clock
  // exactly when it measures less than a microsecond and is acknowledged.
  lemma SyncExact(s: Ptp, rx: u64, tx: u64, correction: int, write: Status)
    requires s.initialised
    ensures var (s', st) := Sync(s, rx, tx, correction, write);
            var offset := RawOffset(rx, tx, correction);
            && st == write && s'.offsetNs == offset && s'.lastSyncNs == rx
            && IntegralLaw(s.integral, offset, s'.integral)
            && (s'.sync == Locked
                <==> s.sync == Locked || (s.sync == Locking && write == Ok && -1_000 < offset < 1_000))
            && (s'.sync == FreeRun <==> s.sync == FreeRun && write != Ok)
            && (s'.sync == Holdover <==> s.sync == Holdover && write != Ok)
            && s' == s.(offsetNs := s'.offsetNs, lastSyncNs := s'.lastSyncNs, integral := s'.integral,
                        sync := s'.sync, holdoverUsedNs := s'.holdoverUsedNs)
            && s'.holdoverUsedNs == if write == Ok && s.sync in {FreeRun, Holdover} then 0 else s.holdoverUsedNs
  {
  }

  // A tick whose registers cannot be read or, in holdover, written reports the
  // hardware's error and leaves the clock as it was.
  lemma FailedTickExact(s: Ptp, read: PhcRead, driftWrite: Status)
    requires s.initialised
    ensures read.PhcFail? ==> Tick(s, read, driftWrite) == (s, Err(read.error))
    ensures read.PhcOk? && s.sync == Holdover && driftWrite != Ok ==> Tick(s, read, driftWrite) == (s, driftWrite)
  {
  }

  // A readable tick outside holdover enters it exactly on a locked clock that
  // has heard a Sync longer ago than the timeout; it then counts from that
  // Sync and the whole budget is left. It never reports an error.
  lemma HoldoverEntryExact(s: Ptp, read: PhcRead, driftWrite: Status)
    requires s.initialised && s.sync != Holdover && read.PhcOk? && PhcNs(read) >= s.lastSyncNs
    ensures var (s', st) := Tick(s, read, driftWrite);
            && st == Ok
            && (s'.sync == Holdover <==> s.sync == Locked && s.lastSyncNs != 0
                                         && PhcNs(read) - s.lastSyncNs > s.cfg.syncTimeoutNs)
            && (s'.sync == Holdover ==> s'.holdoverStartNs == s.lastSyncNs
                                        && HoldoverRemainingNs(s') == s.cfg.holdoverBudgetNs)
            && s'.integral == s.integral && s'.offsetNs == s.offsetNs && s'.lastSyncNs == s.lastSyncNs
  {
    hide PhcNs;
  }

  // A clock forced to be grandmaster is locked as such at once and qualifies
  // for ever after.
  lemma ForcedExact(s: Ptp)
    ensures var s' := ForceGrandmaster(s);
            && s'.role == Grandmaster && s'.gmValid && s'.sync == Locked && s'.cfg.priority1 == 0 && GmCapable(s'.cfg)
            && s' == s.(role := s'.role, gmValid := s'.gmValid, sync := s'.sync, cfg := s.cfg.(priority1 := 0))
            && (IsSynchronised(s') <==> -1_000 < s.offsetNs < 1_000)
  {
  }

  // The time a caller sees who ignores errors: that of the three registers when
  // they can be read and the clock is not in free run, and zero otherwise.
  lemma ReadingExact(s: Ptp, secHigh: u32, secLow: u32, ns: u32, error: ErrorCode)
    ensures CurrentNs(s, PhcOk(secHigh, secLow, ns))
         == if s.initialised && s.sync != FreeRun
            then ((secHigh * 0x1_0000_0000 + secLow) * 1_000_000_000 + ns) % 0x1_0000_0000_0000_0000 else 0
    ensures CurrentNs(s, PhcFail(error)) == 0
  {
    hide PhcNs;
    PhcNsExact(secHigh, secLow, ns);
  }

  // ---- Runs ------------------------------------------------------------------

  datatype Op =
    | TickOp(read: PhcRead, driftWrite: Status)
    | SyncOp(rx: u64, tx: u64, correction: int, write: Status)
    | ForceOp

  function Step(s: Ptp, op: Op): Ptp {
    match op
    case TickOp(read, w) => Tick(s, read, w).0
    case SyncOp(rx, tx, c, w) => Sync(s, rx, tx, c, w).0
    case ForceOp => ForceGrandmaster(s)
  }

  function Run(s: Ptp, ops: seq<Op>): Ptp {
    if ops == [] then s else Step(Run(s, ops[..|ops| - 1]), ops[|ops| - 1])
  }

  // Before its initialisation a clock ignores ticks and messages.
  lemma {:induction false} FreshIgnores(ops: seq<Op>)
    requires forall k :: 0 <= k < |ops| ==> !ops[k].ForceOp?
    ensures Run(FRESH, ops) == FRESH && !FRESH.initialised && FRESH.sync == FreeRun && FRESH.lastSyncNs == 0
  {
    if ops == [] {
    } else {
      FreshIgnores(ops[..|ops| - 1]);
    }
  }

  predicate ServoInv(s: Ptp) {
    -INTEGRAL_CLAMP <= s.integral <= INTEGRAL_CLAMP
  }

  predicate HoldoverInv(s: Ptp) {
    s.sync == Holdover ==> s.holdoverStartNs == s.lastSyncNs != 0
  }

  predicate SyncWritesSucceed(ops: seq<Op>) {
    forall k :: 0 <= k < |ops| && ops[k].SyncOp? ==> ops[k].write == Ok
  }

  // Holdover always counts from the last Sync, on every run from
  // initialisation in which the frequency register can be written.
  lemma {:induction false} HoldoverCountsFromLastSync(cfg: PtpConfig, write: Status, ops: seq<Op>)
    requires SyncWritesSucceed(ops)
    ensures HoldoverInv(Run(Init(FRESH, cfg, write).0, ops))
    ensures ServoInv(Run(Init(FRESH, cfg, write).0, ops))
  {
    if ops == [] {
    } else {
      HoldoverCountsFromLastSync(cfg, write, ops[..|ops| - 1]);
    }
  }

  // A Sync message taken in holdover keeps that exactly when its register
  // write succeeds or it repeats the recorded instant: on a failed write the
  // code moves the last-sync instant but stays in holdover from the old one.
  lemma FailedSyncWrite(s: Ptp, rx: u64, tx: u64, correction: int, write: Status)
    requires s.initialised && s.sync == Holdover && HoldoverInv(s)
    ensures HoldoverInv(Sync(s, rx, tx, correction, write).0) <==> write == Ok || rx == s.lastSyncNs
  {
  }

  // A holdover tick succeeds exactly while the silence since the last Sync is
  // within both the budget and ten sync timeouts, and what remains of the
  // budget is then exact.
  lemma HoldoverTickExact(s: Ptp, read: PhcRead)
    requires s.initialised && s.sync == Holdover && HoldoverInv(s)
    requires read.PhcOk? && PhcNs(read) >= s.lastSyncNs && s.cfg.syncTimeoutNs * 10 < U64_RANGE
    ensures var (s', status) := Tick(s, read, Ok);
            var silence := PhcNs(read) - s.lastSyncNs;
            && (status == Ok <==> silence <= s.cfg.holdoverBudgetNs && silence <= 10 * s.cfg.syncTimeoutNs)
            && (status != Ok ==> status == Err(PtpHoldoverExpired))
            && (s'.sync == Holdover <==> silence <= s.cfg.holdoverBudgetNs)
            && (s'.sync == Holdover ==> HoldoverRemainingNs(s') == s.cfg.holdoverBudgetNs - silence)
            && HoldoverInv(s')
  {
  }

  // A tick with a readable PHC that is not behind the last Sync.
  predicate SilentTick(s: Ptp, op: Op) {
    op.TickOp? && op.read.PhcOk? && op.driftWrite == Ok && PhcNs(op.read) >= s.lastSyncNs
  }

  function SilenceNs(s: Ptp, op: Op): nat
    requires SilentTick(s, op)
  {
    PhcNs(op.read) - s.lastSyncNs
  }

  predicate WithinBudget(s: Ptp, ops: seq<Op>) {
    forall k :: 0 <= k < |ops| ==> SilentTick(s, ops[k]) && SilenceNs(s, ops[k]) <= s.cfg.holdoverBudgetNs
  }

  // Without a Sync message holdover outlasts any run of ticks whose readings
  // are within the budget, changes nothing else, and the remaining budget is exact.
  lemma {:induction false} HoldoverPersists(s: Ptp, ops: seq<Op>)
    requires s.initialised && s.sync == Holdover && HoldoverInv(s) && WithinBudget(s, ops)
    requires s.cfg.syncTimeoutNs * 10 < U64_RANGE
    ensures var e := Run(s, ops);
            && e == s.(holdoverUsedNs := e.holdoverUsedNs)
            && (ops != [] ==> HoldoverRemainingNs(e)
                              == s.cfg.holdoverBudgetNs - SilenceNs(s, ops[|ops| - 1]))
  {
    if ops == [] {
    } else {
      var n := |ops| - 1;
      HoldoverPersists(s, ops[..n]);
      HoldoverTickExact(Run(s, ops[..n]), ops[n].read);
    }
  }

  // The first reading beyond the budget ends holdover and is reported.
  lemma HoldoverExpires(s: Ptp, ops: seq<Op>, last: Op)
    requires s.initialised && s.sync == Holdover && HoldoverInv(s) && WithinBudget(s, ops)
    requires s.cfg.syncTimeoutNs * 10 < U64_RANGE
    requires SilentTick(s, last) && SilenceNs(s, last) > s.cfg.holdoverBudgetNs
    ensures Run(s, ops + [last]).sync == FreeRun
    ensures Tick(Run(s, ops), last.read, last.driftWrite).1 == Err(PtpHoldoverExpired)
  {
    assert (ops + [last])[..|ops|] == ops;
    HoldoverPersists(s, ops);
    HoldoverTickExact(Run(s, ops), last.read);
  }

  // ---- Self-election ------------------------------------------------------------------

  predicate TicksOnly(ops: seq<Op>) {
    forall k :: 0 <= k < |ops| ==> ops[k].TickOp?
  }

  predicate SomeReadable(ops: seq<Op>) {
    exists k :: 0 <= k < |ops| && ops[k].TickOp? && ops[k].read.PhcOk?
  }

  // Left alone after initialisation, a clock synchronises exactly when it
  // qualifies as grandmaster and some tick could read the PHC; it then elects
  // itself, and otherwise it stays in free run for ever.
  lemma {:induction false} SelfElectionExact(cfg: PtpConfig, ops: seq<Op>)
    requires 0 < cfg.portCount <= MAX_SWITCH_PORTS && TicksOnly(ops)
    ensures var s := Run(Init(FRESH, cfg, Ok).0, ops);
            && s.initialised && s.cfg == cfg && s.lastSyncNs == 0 && s.offsetNs == 0
            && (IsSynchronised(s)
                <==> (cfg.priority1 == 0 || cfg.localClockQuality.clockClass < 135) && SomeReadable(ops))
            && (if IsSynchronised(s)
                then s.role == Grandmaster && s.gmValid
                     && s.electedGm == GmIdentity(cfg.localClockQuality, cfg.priority1, cfg.priority2)
                else s.sync == FreeRun && s.role == Slave && !s.gmValid)
  {
    if ops == [] {
    } else {
      var n := |ops| - 1;
      SelfElectionExact(cfg, ops[..n]);
      assert SomeReadable(ops) <==> SomeReadable(ops[..n]) || ops[n].read.PhcOk? by {
        assert forall k :: 0 <= k < n ==> ops[..n][k] == ops[k];
      }
    }
  }

  // ---- Locking to a grandmaster -----------------------------------------------------------

  function Syncs(ops: seq<Op>): nat {
    if ops == [] then 0 else Syncs(ops[..|ops| - 1]) + if ops[|ops| - 1].SyncOp? then 1 else 0
  }

  // Offset measured by the last Sync message of a run.
  function LastOffset(ops: seq<Op>): int {
    if ops == [] then 0
    else
      match ops[|ops| - 1]
      case SyncOp(rx, tx, c, _) => RawOffset(rx, tx, c)
      case _ => LastOffset(ops[..|ops| - 1])
  }

  // Every register write for a Sync message succeeds and no tick finds the
  // last of them longer ago than the timeout.
  predicate Attended(s: Ptp, ops: seq<Op>) {
    ops == [] ||
    var n := |ops| - 1;
    var m := Run(s, ops[..n]);
    Attended(s, ops[..n]) &&
    match ops[n]
    case SyncOp(_, _, _, w) => w == Ok
    case TickOp(read, _) => read.PhcOk? && m.lastSyncNs != 0 ==> Since(PhcNs(read), m.lastSyncNs) <= m.cfg.syncTimeoutNs
    case ForceOp => false
  }

  // A clock that does not qualify as grandmaster and never misses a Sync is
  // synchronised exactly when it has had two of them and the last measured an
  // offset of less than a microsecond.
  lemma {:induction false} SlaveLocksExact(cfg: PtpConfig, ops: seq<Op>)
    requires 0 < cfg.portCount <= MAX_SWITCH_PORTS && !GmCapable(cfg)
    requires Attended(Init(FRESH, cfg, Ok).0, ops)
    ensures var s := Run(Init(FRESH, cfg, Ok).0, ops);
            && s.initialised && s.cfg == cfg && s.role == Slave && s.offsetNs == LastOffset(ops)
            && (s.sync == FreeRun <==> Syncs(ops) == 0) && s.sync != Holdover
            && (s.sync == Locked ==> Syncs(ops) >= 2)
            && (IsSynchronised(s) <==> Syncs(ops) >= 2 && -1_000 < LastOffset(ops) < 1_000)
  {
    hide PhcNs, RawOffset, NextIntegral;
    if ops == [] {
    } else {
      SlaveLocksExact(cfg, ops[..|ops| - 1]);
    }
  }
}
