// The meaning of a gate control list: an infinite, periodic function from
// instants (integer nanoseconds) to gate masks. The validator's sums are
// proved to be bounds on that function.
module GateTimeline {
  import opened Arithmetic
  import opened TsnTypes
  import opened GateSchedule

  predicate WellFormed(p: ScheduleParams) {
    EntryCountInRange(p) && p.cycleTimeNs > 0 && IntervalsFillCycle(p)
  }

  type Timeline = p: ScheduleParams | WellFormed(p) witness PASS_THROUGH

  // ---- The gate function ---------------------------------------------------

  // The entry among the first n whose interval covers a cycle offset.
  function Covering(gcl: GclArray, n: nat, off: nat): (i: nat)
    requires n <= MAX_GCL_ENTRIES && off < StartOf(gcl, n)
    ensures i < n && StartOf(gcl, i) <= off < StartOf(gcl, i + 1)
  {
    if off >= StartOf(gcl, n - 1) then n - 1 else Covering(gcl, n - 1, off)
  }

  function BaseNs(p: ScheduleParams): nat {
    p.baseTime.seconds * NS_PER_SECOND + p.baseTime.nanoseconds
  }

  function Offset(p: Timeline, t: int): (off: nat)
    ensures off < p.cycleTimeNs
  {
    (t - BaseNs(p)) % p.cycleTimeNs
  }

  function EntryAt(p: Timeline, t: int): nat {
    Covering(p.gcl, p.entryCount, Offset(p, t))
  }

  function GatesAt(p: Timeline, t: int): bv8 {
    p.gcl[EntryAt(p, t)].gateStates
  }

  predicate OpenAt(p: Timeline, tc: TrafficClass, t: int) {
    IsOpenIn(GatesAt(p, t), tc)
  }

  // ---- Counting instants ---------------------------------------------------

  // Number of instants in [t, t + len) at which f holds.
  function Count(f: int -> bool, t: int, len: nat): (c: nat)
    ensures c <= len
  {
    if len == 0 then 0 else Count(f, t, len - 1) + if f(t + len - 1) then 1 else 0
  }

  function ClosedFn(p: Timeline, tc: TrafficClass): int -> bool {
    t => !OpenAt(p, tc, t)
  }

  function OpenFn(p: Timeline, tc: TrafficClass): int -> bool {
    t => OpenAt(p, tc, t)
  }

  function ClosedTime(p: Timeline, tc: TrafficClass, t: int, len: nat): nat {
    Count(ClosedFn(p, tc), t, len)
  }

  function OpenTime(p: Timeline, tc: TrafficClass, t: int, len: nat): nat {
    Count(OpenFn(p, tc), t, len)
  }

  lemma {:induction false} OpenAndClosed(p: Timeline, tc: TrafficClass, t: int, len: nat)
    ensures OpenTime(p, tc, t, len) + ClosedTime(p, tc, t, len) == len
  {
    if len == 0 {
    } else {
      OpenAndClosed(p, tc, t, len - 1);
    }
  }

  lemma {:induction false} CountSplit(f: int -> bool, t: int, a: nat, b: nat)
    ensures Count(f, t, a + b) == Count(f, t, a) + Count(f, t + a, b)
  {
    if b == 0 {
    } else {
      CountSplit(f, t, a, b - 1);
    }
  }

  lemma CountOne(f: int -> bool, t: int)
    ensures Count(f, t, 1) == if f(t) then 1 else 0
  {
    assert Count(f, t, 1) == Count(f, t, 0) + if f(t) then 1 else 0;
  }

  lemma {:induction false} CountConstant(f: int -> bool, t: int, len: nat, value: bool)
    requires forall u :: t <= u < t + len ==> f(u) == value
    ensures Count(f, t, len) == if value then len else 0
  {
    if len == 0 {
    } else {
      CountConstant(f, t, len - 1, value);
    }
  }

  ghost predicate Periodic(f: int -> bool, c: nat) {
    forall u :: f(u + c) == f(u)
  }

  // A window one period long counts the same wherever it starts.
  lemma {:induction false} CountPeriod(f: int -> bool, c: nat, t: int, n: nat)
    requires Periodic(f, c)
    ensures Count(f, t + n, c) == Count(f, t, c)
    decreases n
  {
    hide Count;
    if n == 0 {
    } else {
      CountPeriod(f, c, t, n - 1);
      var u := t + n - 1;
      CountSplit(f, u, 1, c);
      CountSplit(f, u, c, 1);
      CountOne(f, u);
      CountOne(f, u + c);
    }
  }

  lemma {:induction false} CountPeriods(f: int -> bool, c: nat, t: int, k: nat)
    requires Periodic(f, c)
    ensures Count(f, t, k * c) == k * Count(f, t, c)
  {
    if k == 0 {
    } else {
      CountPeriods(f, c, t, k - 1);
      CountSplit(f, t, (k - 1) * c, c);
      CountPeriod(f, c, t, (k - 1) * c);
      assert (k - 1) * c + c == k * c;
      assert (k - 1) * Count(f, t, c) + Count(f, t, c) == k * Count(f, t, c);
    }
  }

  // ---- From intervals to instants ------------------------------------------

  // Offsets advance with time from an aligned instant, and wrap after a cycle.
  lemma OffsetFrom(p: Timeline, base: int, off: nat)
    requires Offset(p, base) == 0 && off < p.cycleTimeNs
    ensures Offset(p, base + off) == off
  {
    var c, x := p.cycleTimeNs, base - BaseNs(p);
    assert x == x / c * c;
    ModUnique(base + off - BaseNs(p), c, x / c, off);
  }

  lemma OffsetPeriod(p: Timeline, t: int)
    ensures Offset(p, t + p.cycleTimeNs) == Offset(p, t)
  {
    var c, x := p.cycleTimeNs, t - BaseNs(p);
    assert x == x / c * c + x % c;
    assert t + c - BaseNs(p) == (x / c + 1) * c + x % c;
    ModUnique(t + c - BaseNs(p), c, x / c + 1, x % c);
  }

  lemma CycleStart(p: Timeline, t: int)
    ensures Offset(p, t - Offset(p, t)) == 0
  {
    var c, x := p.cycleTimeNs, t - BaseNs(p);
    assert x == x / c * c + x % c;
    ModUnique(t - Offset(p, t) - BaseNs(p), c, x / c, 0);
  }

  lemma TimelinePeriodic(p: Timeline, tc: TrafficClass)
    ensures Periodic(ClosedFn(p, tc), p.cycleTimeNs)
  {
    forall t: int ensures ClosedFn(p, tc)(t + p.cycleTimeNs) == ClosedFn(p, tc)(t) {
      OffsetPeriod(p, t);
    }
  }

  lemma {:induction false} StartMonotone(gcl: GclArray, i: nat, j: nat)
    requires i <= j <= MAX_GCL_ENTRIES
    ensures StartOf(gcl, i) <= StartOf(gcl, j)
  {
    if i == j {
    } else {
      StartMonotone(gcl, i, j - 1);
    }
  }

  // Entry i is the one in force at exactly the instants of its own interval.
  lemma EntryAtOffset(p: Timeline, i: nat, base: int, off: nat)
    requires i < p.entryCount && off < p.cycleTimeNs && Offset(p, base) == 0
    ensures EntryAt(p, base + off) == i <==> StartOf(p.gcl, i) <= off < StartOf(p.gcl, i + 1)
  {
    OffsetFrom(p, base, off);
    var e := EntryAt(p, base + off);
    if e < i { StartMonotone(p.gcl, e + 1, i); }
    if e > i { StartMonotone(p.gcl, i + 1, e); }
  }

  lemma GatesInEntry(p: Timeline, i: nat, base: int, u: int)
    requires i < p.entryCount && base + StartOf(p.gcl, i) <= u < base + StartOf(p.gcl, i + 1)
    requires Offset(p, base) == 0
    ensures GatesAt(p, u) == p.gcl[i].gateStates
  {
    hide Offset;
    StartMonotone(p.gcl, i + 1, p.entryCount);
    EntryAtOffset(p, i, base, u - base);
    assert base + (u - base) == u;
  }

  lemma ClosedInEntry(p: Timeline, tc: TrafficClass, base: int, i: nat)
    requires i < p.entryCount && Offset(p, base) == 0
    ensures ClosedTime(p, tc, base + StartOf(p.gcl, i), p.gcl[i].intervalNs)
         == if IsOpenIn(p.gcl[i].gateStates, tc) then 0 else p.gcl[i].intervalNs
  {
    hide Offset, EntryAt, GatesAt, IsOpenIn;
    var s, len, closed := base + StartOf(p.gcl, i), p.gcl[i].intervalNs, !IsOpenIn(p.gcl[i].gateStates, tc);
    forall u | s <= u < s + len ensures ClosedFn(p, tc)(u) == closed {
      GatesInEntry(p, i, base, u);
    }
    CountConstant(ClosedFn(p, tc), s, len, closed);
  }

  lemma {:induction false} ClosedInPrefix(p: Timeline, tc: TrafficClass, base: int, n: nat)
    requires n <= p.entryCount && Offset(p, base) == 0
    ensures ClosedTime(p, tc, base, StartOf(p.gcl, n)) == ClosedUpTo(p.gcl, n, tc)
  {
    hide Offset, OpenAt;
    if n == 0 {
    } else {
      ClosedInPrefix(p, tc, base, n - 1);
      CountSplit(ClosedFn(p, tc), base, StartOf(p.gcl, n - 1), p.gcl[n - 1].intervalNs);
      ClosedInEntry(p, tc, base, n - 1);
    }
  }

  // Blocking is exact: every window one cycle long, wherever it starts, has
  // exactly the computed blocking time closed.
  lemma ClosedPerCycle(p: Timeline, tc: TrafficClass, t: int)
    ensures ClosedTime(p, tc, t, p.cycleTimeNs) == BlockingNs(p, tc)
  {
    hide Offset, OpenAt, Count, StartOf, ClosedUpTo;
    var base := t - Offset(p, t);
    CycleStart(p, t);
    ClosedInPrefix(p, tc, base, p.entryCount);
    TimelinePeriodic(p, tc);
    CountPeriod(ClosedFn(p, tc), p.cycleTimeNs, base, Offset(p, t));
    assert base + Offset(p, t) == t;
  }

  // ---- Service bounds ------------------------------------------------------

  function PosPart(x: int): nat {
    if x < 0 then 0 else x
  }

  // Closed time in a window shorter than a cycle never exceeds the blocking time.
  lemma ClosedInWindow(p: Timeline, tc: TrafficClass, t: int, len: nat)
    requires len <= p.cycleTimeNs
    ensures ClosedTime(p, tc, t, len) <= BlockingNs(p, tc)
  {
    ClosedPerCycle(p, tc, t);
    CountSplit(ClosedFn(p, tc), t, len, p.cycleTimeNs - len);
  }

  lemma ServiceArithmetic(k: nat, c: nat, r: nat, b: nat, open: nat, rest: nat)
    requires open + (k * b + rest) == k * c + r && rest <= b && rest <= r
    ensures open >= k * (c - b) + PosPart(r - b)
  {
    assert k * (c - b) == k * c - k * b;
  }

  // Service over any window: k whole cycles and a remainder.
  lemma OpenLowerBound(p: Timeline, tc: TrafficClass, t: int, k: nat, r: nat)
    requires r < p.cycleTimeNs
    ensures BlockingNs(p, tc) <= p.cycleTimeNs
    ensures OpenTime(p, tc, t, k * p.cycleTimeNs + r)
         >= k * (p.cycleTimeNs - BlockingNs(p, tc)) + PosPart(r - BlockingNs(p, tc))
  {
    hide Offset, OpenAt, Count, BlockingNs, StartOf, PosPart;
    var f, c, b := ClosedFn(p, tc), p.cycleTimeNs, BlockingNs(p, tc);
    TimelinePeriodic(p, tc);
    ClosedPerCycle(p, tc, t);
    CountSplit(f, t, k * c, r);
    CountPeriods(f, c, t, k);
    ClosedInWindow(p, tc, t + k * c, r);
    OpenAndClosed(p, tc, t, k * c + r);
    ServiceArithmetic(k, c, r, b, OpenTime(p, tc, t, k * c + r), Count(f, t + k * c, r));
  }

  lemma {:induction false} SomeInstant(f: int -> bool, t: int, len: nat) returns (w: nat)
    requires Count(f, t, len) > 0
    ensures w < len && f(t + w)
  {
    if f(t + len - 1) { w := len - 1; } else { w := SomeInstant(f, t, len - 1); }
  }

  ghost predicate OpensWithin(p: Timeline, tc: TrafficClass, t: int, wait: nat) {
    exists u :: t <= u <= t + wait && OpenAt(p, tc, u)
  }

  // A class is served at all exactly when it is not closed for the whole
  // cycle, and then it waits at most its blocking time for an open gate.
  lemma WaitBound(p: Timeline, tc: TrafficClass)
    ensures (exists t :: OpenAt(p, tc, t)) <==> BlockingNs(p, tc) < p.cycleTimeNs
    ensures BlockingNs(p, tc) < p.cycleTimeNs
            ==> forall t :: OpensWithin(p, tc, t, BlockingNs(p, tc))
  {
    hide Offset, GatesAt, Count, StartOf, BlockingNs;
    var c, b := p.cycleTimeNs, BlockingNs(p, tc);
    if b < c {
      forall t: int ensures OpensWithin(p, tc, t, b) {
        ClosedInWindow(p, tc, t, b + 1);
        OpenAndClosed(p, tc, t, b + 1);
        var w := SomeInstant(OpenFn(p, tc), t, b + 1);
        assert OpenAt(p, tc, t + w);
      }
      assert OpensWithin(p, tc, 0, b);
    } else {
      forall t: int ensures !OpenAt(p, tc, t) {
        ClosedPerCycle(p, tc, t);
        OpenAndClosed(p, tc, t, c);
        CountSplit(OpenFn(p, tc), t, 1, c - 1);
        CountOne(OpenFn(p, tc), t);
      }
    }
  }

  // The delay bound of the analyser, read as a promise about the timeline: a
  // class is given its own burst and all higher bursts within its worst-case
  // delay of any instant.
  ghost predicate DelayBoundHolds(p: Timeline, tc: TrafficClass) {
    forall t :: OpenTime(p, tc, t, WorstCaseDelayNs(p, tc)) >= DemandNs(tc)
  }

  lemma BeyondOneCycle(p: Timeline, tc: TrafficClass)
    requires WorstCaseDelayNs(p, tc) > p.cycleTimeNs && BlockingNs(p, tc) > 0
    ensures !DelayBoundHolds(p, tc)
  {
    hide Offset, OpenAt, Count, StartOf, BlockingNs, DemandNs;
    var f, c, d := ClosedFn(p, tc), p.cycleTimeNs, WorstCaseDelayNs(p, tc);
    TimelinePeriodic(p, tc);
    ClosedPerCycle(p, tc, 0);
    var w := SomeInstant(f, 0, c);
    ClosedPerCycle(p, tc, w);
    CountSplit(f, w, c, d - c);
    CountSplit(f, w + c, 1, d - c - 1);
    assert f(w + c) == f(w) == f(0 + w);
    CountOne(f, w + c);
    OpenAndClosed(p, tc, w, d);
    assert OpenTime(p, tc, w, d) < DemandNs(tc);
  }

  lemma NeverClosed(p: Timeline, tc: TrafficClass, t: int, len: nat)
    requires BlockingNs(p, tc) == 0
    ensures ClosedTime(p, tc, t, len) == 0
  {
    forall u: int ensures !ClosedFn(p, tc)(u) {
      ClosedInWindow(p, tc, u, 1);
      CountOne(ClosedFn(p, tc), u);
    }
    CountConstant(ClosedFn(p, tc), t, len, false);
  }

  // The promise holds exactly when the delay fits in one cycle or the class is
  // never closed; a delay longer than a cycle meets the next closed interval,
  // which the formula counts only once.
  lemma DelayBoundExact(p: Timeline, tc: TrafficClass)
    ensures DelayBoundHolds(p, tc) <==> WorstCaseDelayNs(p, tc) <= p.cycleTimeNs || BlockingNs(p, tc) == 0
  {
    hide Offset, OpenAt;
    var d := WorstCaseDelayNs(p, tc);
    if d <= p.cycleTimeNs || BlockingNs(p, tc) == 0 {
      forall t: int ensures OpenTime(p, tc, t, d) >= DemandNs(tc) {
        if d <= p.cycleTimeNs { ClosedInWindow(p, tc, t, d); } else { NeverClosed(p, tc, t, d); }
        OpenAndClosed(p, tc, t, d);
      }
    } else {
      BeyondOneCycle(p, tc);
    }
  }

  // ---- The delay bound the analyser should compute ---------------------------

  // Time within which a class closed for b out of every c nanoseconds is open
  // for demand: the cycles it takes, and a further blocking time only when the
  // demand does not end with a cycle.
  function ServedWithinNs(c: nat, b: nat, demand: nat): nat
    requires b < c
  {
    var cycles, rest := demand / (c - b), demand % (c - b);
    cycles * c + if rest == 0 then 0 else b + rest
  }

  function CorrectedDelayNs(p: Timeline, tc: TrafficClass): nat
    requires BlockingNs(p, tc) < p.cycleTimeNs
  {
    ServedWithinNs(p.cycleTimeNs, BlockingNs(p, tc), DemandNs(tc))
  }

  // From the second cycle on, each cycle adds a blocking time the analyser leaves out.
  lemma ExtraBlocking(q: nat, w: nat, b: nat)
    requires q > 0
    ensures q * (w + b) >= q * w + b
    ensures b > 0 && q > 1 ==> q * (w + b) > q * w + b
    ensures b == 0 ==> q * (w + b) == q * w
  {
    assert q * (w + b) == q * w + (q - 1) * b + b;
    if b > 0 && q > 1 { MulGrows(b, q - 1); }
  }

  lemma ServedCases(w: nat, b: nat, q: nat, r: nat, demand: nat)
    requires demand == q * w + r && r < w && demand > 0
    requires (q == 0 <==> demand < w) && (demand == w ==> q == 1)
    ensures var total := q * (w + b) + if r == 0 then 0 else b + r;
            && (demand <= w ==> total == b + demand)
            && (demand > w && b > 0 ==> total > b + demand)
            && (demand > w && b == 0 ==> total == demand)
  {
    if q > 0 {
      ExtraBlocking(q, w, b);
    }
    if q == 1 {
      assert q * w == w;
    }
  }

  lemma ServedFigures(c: nat, b: nat, demand: nat)
    requires b < c && demand > 0
    ensures demand <= c - b ==> ServedWithinNs(c, b, demand) == b + demand
    ensures demand > c - b && b > 0 ==> ServedWithinNs(c, b, demand) > b + demand
    ensures demand > c - b && b == 0 ==> ServedWithinNs(c, b, demand) == demand
  {
    var w: nat := c - b;
    DivBelow(demand, w, 1);
    DivBound(demand, w);
    if demand == w { FloorUnique(demand, w, 1); }
    ServedCases(w, b, demand / w, demand % w, demand);
  }

  lemma DemandPositive(tc: TrafficClass)
    ensures DemandNs(tc) > 0
  {
    DemandFigures();
    assert DemandNs(tc) == FrameTransmissionNs(BurstBytes(tc)) + DemandNs(tc + 1);
  }

  lemma Excess(rest: nat, b: nat, r: nat)
    requires rest == if r == 0 then 0 else b + r
    ensures PosPart(rest - b) == r
  {
  }

  // The corrected bound holds for every class that is ever open, is never
  // below the analyser's, and differs from it exactly when the analyser's is
  // not a bound.
  lemma CorrectedDelayHolds(p: Timeline, tc: TrafficClass)
    requires BlockingNs(p, tc) < p.cycleTimeNs
    ensures forall t :: OpenTime(p, tc, t, CorrectedDelayNs(p, tc)) >= DemandNs(tc)
    ensures CorrectedDelayNs(p, tc) >= WorstCaseDelayNs(p, tc)
    ensures CorrectedDelayNs(p, tc) == WorstCaseDelayNs(p, tc) <==> DelayBoundHolds(p, tc)
  {
    hide Offset, OpenAt, Count, BlockingNs, StartOf, DemandNs, PosPart;
    var c, b, demand := p.cycleTimeNs, BlockingNs(p, tc), DemandNs(tc);
    var q, r := demand / (c - b), demand % (c - b);
    assert demand == q * (c - b) + r;
    assert q >= 0 by { DivBound(demand, c - b); }
    forall t: int ensures OpenTime(p, tc, t, CorrectedDelayNs(p, tc)) >= demand {
      var rest := if r == 0 then 0 else b + r;
      OpenLowerBound(p, tc, t, q, rest);
      Excess(rest, b, r);
    }
    DemandPositive(tc);
    ServedFigures(c, b, demand);
    DelayBoundExact(p, tc);
  }

  // From an instant at which the whole closed time of a cycle begins.
  lemma ClosedFirst(p: Timeline, tc: TrafficClass, s: int, k: nat, x: nat)
    requires forall u :: s <= u < s + BlockingNs(p, tc) ==> !OpenAt(p, tc, u)
    requires BlockingNs(p, tc) <= x <= p.cycleTimeNs
    ensures ClosedTime(p, tc, s, x + k * p.cycleTimeNs) == (k + 1) * BlockingNs(p, tc)
  {
    hide Offset, OpenAt, Count, BlockingNs, StartOf;
    var f, c, b := ClosedFn(p, tc), p.cycleTimeNs, BlockingNs(p, tc);
    CountConstant(f, s, b, true);
    CountSplit(f, s, b, x - b);
    ClosedInWindow(p, tc, s, x);
    TimelinePeriodic(p, tc);
    CountSplit(f, s, x, k * c);
    CountPeriods(f, c, s + x, k);
    ClosedPerCycle(p, tc, s + x);
    assert (k + 1) * b == k * b + b;
  }

  lemma OneShortFigures(w: nat, b: nat, q: nat, r: nat, k: int, x: int)
    requires if r == 0 then k == q - 1 && x == w + b - 1 else k == q && x == b + r - 1
    ensures x + k * (w + b) == q * (w + b) + (if r == 0 then 0 else b + r) - 1
    ensures x + k * (w + b) - (k + 1) * b == q * w + r - 1
  {
    assert k * (w + b) == k * w + k * b && (k + 1) * b == k * b + b;
    if r == 0 { assert (q - 1) * w == q * w - w && (q - 1) * (w + b) == q * (w + b) - (w + b); }
  }

  // One nanosecond less than the served time, in cycles and a rest that covers
  // the blocking time.
  lemma OneShort(c: nat, b: nat, demand: nat) returns (k: nat, x: nat)
    requires b < c && demand > 0
    ensures b <= x <= c && x + k * c == ServedWithinNs(c, b, demand) - 1
    ensures x + k * c - (k + 1) * b == demand - 1
  {
    var w: nat := c - b;
    var q, r := demand / w, demand % w;
    DivBound(demand, w);
    DivBelow(demand, w, 1);
    assert demand == q * w + r;
    k, x := if r == 0 then q - 1 else q, if r == 0 then c - 1 else b + r - 1;
    OneShortFigures(w, b, q, r, k, x);
  }

  // And it is attained wherever the closed time of the cycle is contiguous: one
  // nanosecond less from its beginning leaves the demand one nanosecond short.
  lemma CorrectedDelayTight(p: Timeline, tc: TrafficClass, s: int)
    requires BlockingNs(p, tc) < p.cycleTimeNs
    requires forall u :: s <= u < s + BlockingNs(p, tc) ==> !OpenAt(p, tc, u)
    ensures CorrectedDelayNs(p, tc) > 0
    ensures OpenTime(p, tc, s, CorrectedDelayNs(p, tc) - 1) == DemandNs(tc) - 1
  {
    hide Offset, OpenAt, Count, BlockingNs, StartOf, DemandNs, ServedWithinNs;
    DemandPositive(tc);
    var k, x := OneShort(p.cycleTimeNs, BlockingNs(p, tc), DemandNs(tc));
    assert k * p.cycleTimeNs >= 0;
    ClosedFirst(p, tc, s, k, x);
    OpenAndClosed(p, tc, s, x + k * p.cycleTimeNs);
  }

  lemma AllOpen(tc: TrafficClass)
    ensures IsOpenIn(0xFF, tc)
  {
    GateBitTable();
  }

  // The pass-through list is one entry of a tenth of a millisecond and closes no
  // gate at any instant.
  lemma PassThroughOpen(tc: TrafficClass, t: int)
    ensures PASS_THROUGH.cycleTimeNs == 100_000 && PASS_THROUGH.baseTime == PtpTimestamp(0, 0)
    ensures PASS_THROUGH.entryCount == 1 && PASS_THROUGH.gcl[0] == GclEntry(0xFF, 100_000)
    ensures WellFormed(PASS_THROUGH) && OpenAt(PASS_THROUGH, tc, t)
    ensures BlockingNs(PASS_THROUGH, tc) == 0
  {
    var p := PASS_THROUGH;
    assert StartOf(p.gcl, 1) == StartOf(p.gcl, 0) + 100_000;
    assert ClosedUpTo(p.gcl, 1, tc) == ClosedUpTo(p.gcl, 0, tc) + if IsOpenIn(0xFF, tc) then 0 else 100_000;
    AllOpen(tc);
  }

  // The first entry begins at the base time of the schedule.
  lemma BaseAligned(p: Timeline)
    ensures Offset(p, p.baseTime.seconds * 1_000_000_000 + p.baseTime.nanoseconds) == 0
  {
    ModUnique(0, p.cycleTimeNs, 0, 0);
  }

  // ---- What acceptance guarantees ------------------------------------------

  // An accepted schedule has a safety-only entry wide enough for the largest
  // safety frame behind the largest frame of any kind.
  lemma AcceptedWindow(p: ScheduleParams) returns (i: nat)
    requires Accepted(p)
    ensures WellFormed(p)
    ensures i < p.entryCount && p.gcl[i].gateStates == SAFETY_ONLY_OPEN
    ensures p.gcl[i].intervalNs >= MinWindowNs(p)
  {
    hide SafetyDeadlineMet, StartOf;
    i :| 0 <= i < p.entryCount && p.gcl[i].gateStates == SAFETY_ONLY_OPEN;
  }

  lemma {:induction false} ClosedSkips(gcl: GclArray, n: nat, tc: TrafficClass, i: nat)
    requires i < n <= MAX_GCL_ENTRIES && IsOpenIn(gcl[i].gateStates, tc)
    ensures ClosedUpTo(gcl, n, tc) + gcl[i].intervalNs <= StartOf(gcl, n)
  {
    if i == n - 1 {
    } else {
      ClosedSkips(gcl, n - 1, tc, i);
    }
  }

  // The real-time guarantee: whatever schedule passes the seven stages, from
  // any instant on the safety class gets room for its whole burst within its
  // computed delay, which is at most 500 microseconds and at most one cycle.
  lemma SafetyServiceGuarantee(p: ScheduleParams, t: int)
    requires Accepted(p)
    ensures WellFormed(p)
    ensures OpenTime(p, SAFETY_CRITICAL, t, WorstCaseDelayNs(p, SAFETY_CRITICAL)) >= 12_304
    ensures WorstCaseDelayNs(p, SAFETY_CRITICAL) <= 500_000
    ensures WorstCaseDelayNs(p, SAFETY_CRITICAL) <= p.cycleTimeNs
  {
    hide StartOf, ClosedUpTo, OpenAt, Offset, Structural;
    var i := AcceptedWindow(p);
    assert IsOpenIn(SAFETY_ONLY_OPEN, SAFETY_CRITICAL);
    ClosedSkips(p.gcl, p.entryCount, SAFETY_CRITICAL, i);
    DemandFigures();
    DelayBoundExact(p, SAFETY_CRITICAL);
  }

  // [s, s + width) is one whole safety-only entry: it begins where the entry
  // begins and at each of its instants exactly the safety gate is open.
  ghost predicate ExclusiveWindow(p: Timeline, s: int, width: nat) {
    && (exists i :: 0 <= i < p.entryCount && Offset(p, s) == StartOf(p.gcl, i) && width == p.gcl[i].intervalNs)
    && forall u :: s <= u < s + width ==> GatesAt(p, u) == SAFETY_ONLY_OPEN
  }

  // A frame begun before instant s has drained with at least the time of the
  // largest safety frame left before s + width.
  ghost predicate LeavesRoom(p: ScheduleParams, s: int, width: nat, begun: int, size: u32) {
    begun < s && size <= MAX_FRAME_SIZE_BYTES
    ==> s + width - (begun + FrameTransmissionNs(size)) >= FrameTransmissionNs(p.maxSafetyFrameSizeBytes)
  }

  // Entry i recurs: within one cycle of any instant it starts afresh.
  lemma EntryRecurs(p: Timeline, i: nat, t: int) returns (s: int)
    requires i < p.entryCount && p.gcl[i].intervalNs > 0
    ensures t <= s < t + p.cycleTimeNs && Offset(p, s) == StartOf(p.gcl, i)
    ensures forall u :: s <= u < s + p.gcl[i].intervalNs ==> GatesAt(p, u) == p.gcl[i].gateStates
  {
    hide Offset, GatesAt;
    var c, off, start := p.cycleTimeNs, Offset(p, t), StartOf(p.gcl, i);
    StartMonotone(p.gcl, i + 1, p.entryCount);
    CycleStart(p, t);
    OffsetPeriod(p, t - off);
    var base := if off <= start then t - off else t - off + c;
    s := base + start;
    forall u | s <= u < s + p.gcl[i].intervalNs ensures GatesAt(p, u) == p.gcl[i].gateStates {
      GatesInEntry(p, i, base, u);
    }
    OffsetFrom(p, base, start);
  }

  // The guard band on the timeline: within one cycle of any instant a
  // safety-only window starts, and a frame of at most 1538 bytes whose
  // transmission began before it has drained with room for the largest safety
  // frame still left in the window.
  lemma GuardBandGuarantee(p: ScheduleParams, t: int) returns (s: int, width: nat)
    requires Accepted(p)
    ensures WellFormed(p)
    ensures t <= s < t + p.cycleTimeNs
    ensures ExclusiveWindow(p, s, width)
    ensures forall begun: int, size: u32 :: LeavesRoom(p, s, width, begun, size)
  {
    hide Accepted, StartOf, GatesAt, Offset;
    var i := AcceptedWindow(p);
    width := p.gcl[i].intervalNs;
    s := EntryRecurs(p, i, t);
  }

  // ---- Where the analyser says more than the timeline gives ------------------

  // A schedule that is accepted and reports every deadline met although the
  // best-effort class is never served.
  const STARVING: ScheduleParams := ScheduleParams(
    100_000, PtpTimestamp(0, 0), 100, 1, OneEntry(GclEntry(SAFETY_ONLY_OPEN, 100_000)))

  lemma StarvingFigures()
    ensures WellFormed(STARVING) && Structural(STARVING) == Ok
    ensures BlockingNs(STARVING, 0) == 100_000 && BlockingNs(STARVING, SAFETY_CRITICAL) == 0
  {
    var p := STARVING;
    assert StartOf(p.gcl, 1) == StartOf(p.gcl, 0) + 100_000;
    assert IsOpenIn(SAFETY_ONLY_OPEN, 7) && !IsOpenIn(SAFETY_ONLY_OPEN, 0);
    assert ClosedUpTo(p.gcl, 1, 0) == ClosedUpTo(p.gcl, 0, 0) + 100_000;
    assert ClosedUpTo(p.gcl, 1, 7) == ClosedUpTo(p.gcl, 0, 7) + 0;
    assert p.gcl[0].gateStates == SAFETY_ONLY_OPEN;
  }

  lemma DeadlineMetIsNotService(t: int)
    ensures Accepted(STARVING)
    ensures Analysis(STARVING).deadlineMet[0]
    ensures !OpenAt(STARVING, 0, t)
    ensures !DelayBoundHolds(STARVING, 0)
  {
    hide Structural, BlockingNs, DemandNs, OpenAt, Count, BurstBytes;
    var p := STARVING;
    StarvingFigures();
    DemandFigures();
    assert Analysis(p).deadlineMet[0] == (WorstCaseDelayNs(p, 0) <= DeadlineNs(0));
    WaitBound(p, 0);
    DelayBoundExact(p, 0);
  }
}
