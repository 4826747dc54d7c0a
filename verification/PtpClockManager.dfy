// The gPTP clock manager: the servo and the holdover state, updated in place.
module PtpClockManagers {
  import opened TsnTypes
  import opened PtpServo
  import P = PtpClock

  // Offsets whose negation is representable; the only ones ever stored.
  type Negatable = x: i64 | FitsI64(-(x as int)) witness 0

  lemma ShiftsByConstants(value: i64)
    ensures ArithmeticShiftRight(value, KP_SHIFT) == value / 4
    ensures ArithmeticShiftRight(value, KI_SHIFT) == value / 32
  {
    hide ArithmeticShiftRight;
    ShiftIsFloor(value, KP_SHIFT);
    ShiftIsFloor(value, KI_SHIFT);
    assert Pow2(2) == 4 && Pow2(5) == 32;
  }

  class PtpClockManager {
    var cfg: P.PtpConfig
    var initialised: bool
    var syncState: P.SyncState
    var clockRole: P.ClockRole
    var electedGm: P.GmIdentity
    var gmValid: bool
    var offsetFromGmNs: Negatable
    var integral: i64
    var lastSyncNs: u64
    var holdoverStartNs: u64
    var holdoverUsedNs: u64
    // What was last staged in the frequency and nanosecond registers.
    ghost var frequencyRegister: u32
    ghost var nanosecondRegister: u32

    ghost function View(): P.Ptp
      reads this
    {
      P.Ptp(cfg, initialised, syncState, clockRole, electedGm, gmValid, offsetFromGmNs, integral,
            lastSyncNs, holdoverStartNs, holdoverUsedNs)
    }

    constructor ()
      ensures View() == P.FRESH
    {
      cfg, initialised, syncState, clockRole := P.NO_CONFIG, false, P.FreeRun, P.Slave;
      electedGm, gmValid := P.GmIdentity(P.NO_QUALITY, 0, 0), false;
      offsetFromGmNs, integral, lastSyncNs, holdoverStartNs, holdoverUsedNs := 0, 0, 0, 0, 0;
      frequencyRegister, nanosecondRegister := 0, 0;
    }

    // What is staged in the register reads back as the adjustment.
    method ApplyPhcAdjustment(adjustmentPpb: i64, write: Status) returns (s: Status)
      requires -ADJUSTMENT_CLAMP_PPB <= adjustmentPpb <= ADJUSTMENT_CLAMP_PPB
      modifies this`frequencyRegister
      ensures s == write
      ensures DecodeRegister(frequencyRegister) == adjustmentPpb
      ensures frequencyRegister == if adjustmentPpb < 0 then 0x1_0000_0000 + adjustmentPpb else adjustmentPpb
    {
      var regVal: u32 := adjustmentPpb % U32_RANGE;
      frequencyRegister := regVal;
      s := write;
    }

    method Init(cfg: P.PtpConfig, write: Status) returns (s: Status)
      modifies this
      ensures (View(), s) == P.Init(old(View()), cfg, write)
    {
      if cfg.portCount == 0 || cfg.portCount > MAX_SWITCH_PORTS { return Err(InvalidArgument); }
      this.cfg := cfg;
      s := ApplyPhcAdjustment(0, write);
      if s.Err? { return; }
      syncState, clockRole, gmValid, integral, initialised := P.FreeRun, P.Slave, false, 0, true;
    }

    method ApplyHoldoverDrift(elapsedNs: u64, write: Status) returns (s: Status)
      modifies this`nanosecondRegister
      ensures s == write
      ensures nanosecondRegister == DriftNs(cfg.driftCompensationNs, elapsedNs) % U32_RANGE
    {
      var driftNs := Wrap64(cfg.driftCompensationNs * (elapsedNs / 1_000)) / 1_000_000;
      nanosecondRegister := driftNs % U32_RANGE;
      s := write;
    }

    method EnterHoldover()
      modifies this`syncState, this`holdoverStartNs, this`holdoverUsedNs
      ensures syncState == P.Holdover && holdoverStartNs == lastSyncNs && holdoverUsedNs == 0
    {
      syncState := P.Holdover;
      holdoverStartNs := lastSyncNs;
      holdoverUsedNs := 0;
    }

    method RunBmca()
      modifies this`clockRole, this`electedGm, this`gmValid, this`syncState
      ensures View() == P.Bmca(old(View()))
    {
      if !gmValid {
        if cfg.priority1 == 0 || cfg.localClockQuality.clockClass < 135 {
          clockRole := P.Grandmaster;
          electedGm := electedGm.(priority1 := cfg.priority1);
          electedGm := electedGm.(priority2 := cfg.priority2);
          electedGm := electedGm.(quality := cfg.localClockQuality);
          gmValid := true;
          syncState := P.Locked;
        }
      }
    }

    method Tick(read: PhcRead, driftWrite: Status) returns (s: Status)
      modifies this
      ensures (View(), s) == P.Tick(old(View()), read, driftWrite)
      ensures old(initialised && syncState == P.Holdover) && read.PhcOk? ==>
                var elapsedNs := P.Since(PhcNs(read), old(holdoverStartNs));
                nanosecondRegister == DriftNs(cfg.driftCompensationNs, elapsedNs) % U32_RANGE
      ensures frequencyRegister == old(frequencyRegister)
    {
      if !initialised { return Err(NotInitialised); }
      if read.PhcFail? { return Err(read.error); }
      var nowNs := PhcNs(read);
      if syncState == P.Holdover {
        var holdoverElapsedNs := Wrap64(nowNs - holdoverStartNs);
        s := ApplyHoldoverDrift(holdoverElapsedNs, driftWrite);
        if s.Err? { return; }
        holdoverUsedNs := holdoverElapsedNs;
        if holdoverUsedNs > cfg.holdoverBudgetNs {
          syncState := P.FreeRun;
          return Err(PtpHoldoverExpired);
        }
        var silenceNs := Wrap64(nowNs - lastSyncNs);
        if silenceNs > Wrap64(cfg.syncTimeoutNs * 10) { return Err(PtpHoldoverExpired); }
        return Ok;
      }
      if lastSyncNs != 0 {
        var silenceNs := Wrap64(nowNs - lastSyncNs);
        if silenceNs > cfg.syncTimeoutNs && syncState == P.Locked {
          EnterHoldover();
          return Ok;
        }
      }
      RunBmca();
      return Ok;
    }

    // The shifts and the two-sided clamps compute the rounded and saturated
    // servo law, and the sum cannot overflow.
    method RunServo(offsetNs: i64) returns (adjustment: i64)
      requires FitsI64(integral + offsetNs)
      modifies this`integral
      ensures integral == NextIntegral(old(integral), offsetNs)
      ensures adjustment == Adjustment(integral, offsetNs) && -500_000 <= adjustment <= 500_000
      ensures IntegralLaw(old(integral), offsetNs, integral) && ControlLaw(offsetNs, integral, adjustment)
    {
      ServoLaw(integral, offsetNs);
      hide ArithmeticShiftRight, Pow2;
      var proportional := ArithmeticShiftRight(offsetNs, KP_SHIFT);
      ShiftsByConstants(offsetNs);
      integral := integral + offsetNs;
      if integral > INTEGRAL_CLAMP { integral := INTEGRAL_CLAMP; }
      if integral < -INTEGRAL_CLAMP { integral := -INTEGRAL_CLAMP; }
      var integralTerm := ArithmeticShiftRight(integral, KI_SHIFT);
      ShiftsByConstants(integral);
      adjustment := -(proportional + integralTerm);
      if adjustment > ADJUSTMENT_CLAMP_PPB { adjustment := ADJUSTMENT_CLAMP_PPB; }
      if adjustment < -ADJUSTMENT_CLAMP_PPB { adjustment := -ADJUSTMENT_CLAMP_PPB; }
    }

    method InjectSyncMessage(rxTimestampNs: u64, txTimestampNs: u64, correctionNs: i64, write: Status)
      returns (s: Status)
      requires P.SyncDefined(View(), rxTimestampNs, txTimestampNs, correctionNs)
      modifies this
      ensures (View(), s) == P.Sync(old(View()), rxTimestampNs, txTimestampNs, correctionNs, write)
      ensures old(initialised) ==>
                var staged := if frequencyRegister < 0x8000_0000 then frequencyRegister
                              else frequencyRegister - 0x1_0000_0000;
                staged == Adjustment(integral, offsetFromGmNs) && ControlLaw(offsetFromGmNs, integral, staged)
      ensures old(initialised) ==> IntegralLaw(old(integral), offsetFromGmNs, integral)
    {
      hide ControlLaw, IntegralLaw, Adjustment, NextIntegral, ToI64;
      if !initialised { return Err(NotInitialised); }
      var rawOffset: Negatable := ToI64(rxTimestampNs) - ToI64(txTimestampNs) - correctionNs;
      offsetFromGmNs := rawOffset;
      lastSyncNs := rxTimestampNs;
      var adjustmentPpb := RunServo(rawOffset);
      s := ApplyPhcAdjustment(adjustmentPpb, write);
      if s.Err? { return; }
      var absOffset: i64 := if rawOffset < 0 then -rawOffset else rawOffset;
      if syncState == P.Locking && absOffset < PTP_SYNC_TARGET_NS {
        syncState := P.Locked;
      } else if syncState == P.FreeRun || syncState == P.Holdover {
        syncState := P.Locking;
        holdoverUsedNs := 0;
      }
      return Ok;
    }

    // The reading, or the reason there is none: a missing initialisation
    // before a missing synchronisation before a failing register.
    function GetCurrentTime(read: PhcRead): (r: PhcRead)
      reads this
      ensures P.CurrentNs(View(), read) == if r.PhcOk? then PhcNs(r) else 0
      ensures r != read ==> r == PhcFail(if initialised then PtpNotSynchronised else NotInitialised)
    {
      if !initialised then PhcFail(NotInitialised)
      else if syncState == P.FreeRun then PhcFail(PtpNotSynchronised)
      else read
    }

    function IsSynchronised(): (b: bool)
      reads this
      ensures b == P.IsSynchronised(View())
    {
      var abs := if offsetFromGmNs < 0 then -(offsetFromGmNs as int) else offsetFromGmNs;
      syncState == P.Locked && abs < PTP_SYNC_TARGET_NS
    }

    function GetHoldoverRemainingNs(): (ns: u64)
      reads this
      ensures ns == P.HoldoverRemainingNs(View())
      ensures ns <= cfg.holdoverBudgetNs && (ns > 0 ==> syncState == P.Holdover)
    {
      if syncState != P.Holdover then 0
      else if holdoverUsedNs >= cfg.holdoverBudgetNs then 0
      else cfg.holdoverBudgetNs - holdoverUsedNs
    }

    method ForceGrandmasterRole() returns (s: Status)
      modifies this
      ensures s == Ok && View() == P.ForceGrandmaster(old(View()))
    {
      cfg := cfg.(priority1 := 0);
      clockRole, gmValid, syncState := P.Grandmaster, true, P.Locked;
      return Ok;
    }
  }
}
