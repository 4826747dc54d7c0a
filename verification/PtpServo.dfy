// The integer PI servo and the truncated integer arithmetic around it.
module PtpServo {
  import opened Arithmetic
  import opened TsnTypes

  const KP_SHIFT: nat := 2
  const KI_SHIFT: nat := 5
  const INTEGRAL_CLAMP: int := 500_000_000
  const ADJUSTMENT_CLAMP_PPB: int := 500_000

  // ---- Shifting with unsigned operations -------------------------------------

  function Pow2(s: nat): (p: nat)
    ensures p > 0
  {
    if s == 0 then 1 else 2 * Pow2(s - 1)
  }

  function Complement64(x: u64): u64 {
    U64_RANGE - 1 - x
  }

  function ShiftRight64(x: u64, s: nat): u64 {
    DivBound(x, Pow2(s));
    x / Pow2(s)
  }

  function ToI64(x: u64): i64 {
    if x < 0x8000_0000_0000_0000 then x else x - U64_RANGE
  }

  function ArithmeticShiftRight(value: i64, shift: nat): i64 {
    if value >= 0 then ToI64(ShiftRight64(Wrap64(value), shift))
    else ToI64(Complement64(ShiftRight64(Complement64(Wrap64(value)), shift)))
  }

  // Complement, logical shift, complement again is floor division by 2^s for
  // every signed 64-bit value.
  lemma ShiftIsFloor(value: i64, shift: nat)
    ensures ArithmeticShiftRight(value, shift) == value / Pow2(shift)
  {
    var d := Pow2(shift);
    if value < 0 {
      var x: nat := -1 - value;
      assert Complement64(Wrap64(value)) == x;
      var q := x / d;
      DivBound(x, d);
      assert x == q * d + x % d;
      assert (-1 - q) * d == -d - q * d;
      FloorUnique(value, d, -1 - q);
    } else {
      DivBound(value, d);
    }
  }

  // ---- The frequency register ----------------------------------------------------

  function EncodeRegister(adjustmentPpb: int): u32 {
    adjustmentPpb % U32_RANGE
  }

  function DecodeRegister(r: u32): int {
    if r < 0x8000_0000 then r else r - U32_RANGE
  }

  // Two's complement in 32 bits, both ways.
  lemma RegisterExact(adjustmentPpb: int, r: u32)
    ensures 0 <= adjustmentPpb < 0x8000_0000 ==> EncodeRegister(adjustmentPpb) == adjustmentPpb
    ensures -0x8000_0000 <= adjustmentPpb < 0 ==> EncodeRegister(adjustmentPpb) == 0x1_0000_0000 + adjustmentPpb
    ensures DecodeRegister(r) == if r < 0x8000_0000 then r else r - 0x1_0000_0000
  {
  }

  // ---- The servo ---------------------------------------------------------------

  function Clamp(x: int, limit: int): (r: int)
    requires limit >= 0
    ensures -limit <= r <= limit
    ensures -limit <= x <= limit ==> r == x
  {
    if x > limit then limit else if x < -limit then -limit else x
  }

  function NextIntegral(integral: int, offset: int): int {
    Clamp(integral + offset, INTEGRAL_CLAMP)
  }

  // The frequency correction: a quarter of the offset and a thirty-second of
  // the integral, each rounded towards minus infinity, negated and clamped.
  function Adjustment(integral: int, offset: int): int {
    Clamp(-(offset / 4 + integral / 32), ADJUSTMENT_CLAMP_PPB)
  }

  // The control law in figures: strictly inside its range the adjustment in ppb
  // balances a quarter of the offset and a thirty-second of the integral but
  // for what the two roundings leave, and at a bound it errs towards zero.
  predicate ControlLaw(offset: int, integral: int, adjustment: int) {
    var balance := 8 * offset + integral + 32 * adjustment;
    && -500_000 <= adjustment <= 500_000
    && (-500_000 < adjustment < 500_000 ==> balance == 8 * (offset % 4) + integral % 32 && 0 <= balance <= 55)
    && (adjustment == 500_000 ==> balance <= 55)
    && (adjustment == -500_000 ==> balance >= 0)
  }

  // The integral in figures: the sum, unless it leaves half a second.
  predicate IntegralLaw(before: int, offset: int, after: int) {
    && (-500_000_000 <= before + offset <= 500_000_000 ==> after == before + offset)
    && (before + offset > 500_000_000 ==> after == 500_000_000)
    && (before + offset < -500_000_000 ==> after == -500_000_000)
  }

  lemma LawOfParts(offset: int, integral: int, p: int, pr: int, i: int, ir: int)
    requires offset == 4 * p + pr && 0 <= pr < 4 && integral == 32 * i + ir && 0 <= ir < 32
    ensures ControlLaw(offset, integral, Clamp(-(p + i), ADJUSTMENT_CLAMP_PPB))
  {
    assert offset % 4 == pr && integral % 32 == ir;
  }

  lemma ServoLaw(before: int, offset: int)
    ensures var after := NextIntegral(before, offset);
            IntegralLaw(before, offset, after) && ControlLaw(offset, after, Adjustment(after, offset))
  {
    var after := NextIntegral(before, offset);
    LawOfParts(offset, after, offset / 4, offset % 4, after / 32, after % 32);
  }

  function IntegralAfter(integral: int, offsets: seq<int>): int {
    if offsets == [] then integral
    else NextIntegral(IntegralAfter(integral, offsets[..|offsets| - 1]), offsets[|offsets| - 1])
  }

  // The adjustment produced by the last of a non-empty sequence of offsets.
  function LastAdjustment(integral: int, offsets: seq<int>): int
    requires offsets != []
  {
    Adjustment(IntegralAfter(integral, offsets), offsets[|offsets| - 1])
  }

  // Over any sequence of offsets the integral stays in its clamp, and the
  // adjustment stays in its own and survives the 32-bit register.
  lemma {:induction false} ServoBounded(integral: int, offsets: seq<int>)
    requires -INTEGRAL_CLAMP <= integral <= INTEGRAL_CLAMP
    ensures -INTEGRAL_CLAMP <= IntegralAfter(integral, offsets) <= INTEGRAL_CLAMP
    ensures offsets != [] ==> DecodeRegister(EncodeRegister(LastAdjustment(integral, offsets)))
                              == LastAdjustment(integral, offsets)
  {
  }

  function Sum(offsets: seq<int>): int {
    if offsets == [] then 0 else Sum(offsets[..|offsets| - 1]) + offsets[|offsets| - 1]
  }

  // As long as no partial sum leaves half a second the integral is the sum.
  lemma {:induction false} IntegralIsSum(integral: int, offsets: seq<int>)
    requires forall n :: 0 <= n <= |offsets| ==> -500_000_000 <= integral + Sum(offsets[..n]) <= 500_000_000
    ensures IntegralAfter(integral, offsets) == integral + Sum(offsets)
  {
    assert offsets[..|offsets|] == offsets;
    if offsets == [] {
    } else {
      var m := |offsets| - 1;
      forall n | 0 <= n <= m ensures offsets[..m][..n] == offsets[..n] {
      }
      IntegralIsSum(integral, offsets[..m]);
    }
  }

  // Larger offsets never give a larger adjustment: the servo is antitone in its
  // whole input history, clamps included.
  lemma {:induction false} ServoAntitone(a: int, b: int, low: seq<int>, high: seq<int>)
    requires a <= b && |low| == |high|
    requires forall k :: 0 <= k < |low| ==> low[k] <= high[k]
    ensures IntegralAfter(a, low) <= IntegralAfter(b, high)
    ensures low != [] ==> LastAdjustment(a, low) >= LastAdjustment(b, high)
  {
    if low == [] {
    } else {
      var n := |low| - 1;
      ServoAntitone(a, b, low[..n], high[..n]);
    }
  }

  // Anti-windup recovery: consecutive offsets of at most -d bring any clamped
  // integral down to zero or below once their number times d covers the clamp.
  lemma {:induction false} ServoRecovers(integral: int, offsets: seq<int>, d: int)
    requires -INTEGRAL_CLAMP <= integral <= INTEGRAL_CLAMP
    requires d >= 0 && forall k :: 0 <= k < |offsets| ==> offsets[k] <= -d
    ensures IntegralAfter(integral, offsets) <= INTEGRAL_CLAMP - |offsets| * d
         || IntegralAfter(integral, offsets) == -INTEGRAL_CLAMP
    ensures |offsets| * d >= INTEGRAL_CLAMP ==> IntegralAfter(integral, offsets) <= 0
  {
    if offsets == [] {
    } else {
      var n := |offsets| - 1;
      ServoRecovers(integral, offsets[..n], d);
      assert |offsets| * d == n * d + d;
    }
  }

  // ---- Holdover drift ---------------------------------------------------------------

  // Drift compensation in whole nanoseconds, dividing the elapsed time first.
  function DriftNs(rate: u64, elapsedNs: u64): u64 {
    Wrap64(Times(rate, elapsedNs / 1_000)) / 1_000_000
  }

  // The drift at the configured rate in nanoseconds per second, rounded down once.
  function ExactDriftNs(rate: u64, elapsedNs: u64): int {
    Times(rate, elapsedNs) / 1_000_000_000
  }

  lemma SplitProduct(rate: nat, us: nat, rem: nat)
    ensures Times(rate, us) >= 0
    ensures Times(rate, 1_000 * us + rem) == 1_000 * Times(rate, us) + Times(rate, rem)
    ensures rem <= 999 ==> 0 <= Times(rate, rem) <= rate * 999
  {
    if rem <= 999 { assert rate * (999 - rem) >= 0; }
  }

  lemma TwoRoundings(rate: nat, whole: nat, part: nat)
    requires part <= rate * 999
    ensures whole / 1_000_000 <= (1_000 * whole + part) / 1_000_000_000
                              <= whole / 1_000_000 + CeilDiv(rate, 1_000_000)
  {
    var c := CeilDiv(rate, 1_000_000);
    assert rate <= 1_000_000 * c && (c == 0 ==> rate == 0);
  }

  lemma TimesMonotone(rate: nat, a: nat, b: nat)
    requires a <= b
    ensures 0 <= Times(rate, a) <= Times(rate, b)
  {
    assert rate * b == rate * a + rate * (b - a);
    assert rate * (b - a) >= 0;
  }

  // One nanosecond of drift for each full million of the rate times the elapsed
  // whole microseconds, and the rest within a microsecond counts for nothing.
  lemma DriftQuotient(rate: u64, elapsedNs: u64)
    ensures Times(rate, elapsedNs / 1_000) < U64_RANGE ==>
              var product, d := Times(rate, elapsedNs / 1_000), DriftNs(rate, elapsedNs);
              1_000_000 * d <= product < 1_000_000 * d + 1_000_000
  {
    hide Times;
    if Times(rate, elapsedNs / 1_000) < U64_RANGE { TimesMonotone(rate, 0, elapsedNs / 1_000); }
  }

  // Rounding twice never overshoots and loses at most one nanosecond per
  // started million of the rate.
  lemma DriftAccuracy(rate: u64, elapsedNs: u64)
    requires Times(rate, elapsedNs / 1_000) < U64_RANGE
    ensures DriftNs(rate, elapsedNs) <= ExactDriftNs(rate, elapsedNs)
    ensures ExactDriftNs(rate, elapsedNs) <= DriftNs(rate, elapsedNs) + CeilDiv(rate, 1_000_000)
  {
    hide Times;
    var us, rem := elapsedNs / 1_000, elapsedNs % 1_000;
    SplitProduct(rate, us, rem);
    assert elapsedNs == 1_000 * us + rem;
    TwoRoundings(rate, Times(rate, us), Times(rate, rem));
  }

  lemma DriftMonotone(rate: u64, earlier: u64, later: u64)
    requires earlier <= later
    ensures Times(rate, later / 1_000) < U64_RANGE ==> DriftNs(rate, earlier) <= DriftNs(rate, later)
  {
    hide Times;
    TimesMonotone(rate, earlier / 1_000, later / 1_000);
  }
}
