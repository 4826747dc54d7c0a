// What the FRER recovery function does over whole runs.
module FrerProperties {
  import opened Arithmetic
  import opened TsnTypes
  import opened FrerStreams

  // ---- The history mask refines a search of accepted frames ----------------------

  // A recovery function that keeps the accepted sequence numbers themselves.
  datatype History = History(last: u16, accepted: seq<u16>)

  predicate Collides(h: History, seqNum: u16) {
    exists k :: 0 <= k < |h.accepted| && Residue(h.accepted[k]) == Residue(seqNum)
  }

  function Search(h: History, seqNum: u16): (History, bool) {
    if Collides(h, seqNum) then (h, false)
    else if OutOfWindow(h.last, seqNum) then (History(seqNum, [seqNum]), true)
    else (History(seqNum, h.accepted + [seqNum]), true)
  }

  function ResiduesOf(s: seq<u16>): set<nat> {
    if s == [] then {} else ResiduesOf(s[..|s| - 1]) + {Residue(s[|s| - 1])}
  }

  lemma {:induction false} ResidueMember(s: seq<u16>, r: nat)
    ensures r in ResiduesOf(s) <==> exists k :: 0 <= k < |s| && Residue(s[k]) == r
  {
    if s == [] {
    } else {
      ResidueMember(s[..|s| - 1], r);
      assert forall k :: 0 <= k < |s| - 1 ==> s[..|s| - 1][k] == s[k];
      if r in ResiduesOf(s[..|s| - 1]) {
        var k :| 0 <= k < |s| - 1 && Residue(s[..|s| - 1][k]) == r;
        assert Residue(s[k]) == r;
      } else if exists k :: 0 <= k < |s| && Residue(s[k]) == r {
        var k :| 0 <= k < |s| && Residue(s[k]) == r;
        assert k == |s| - 1;
      }
    }
  }

  // The mask is the set of residues of the accepted numbers, and its
  // population count is how many were accepted.
  predicate Represents(st: StreamState, h: History) {
    && st.lastSeqNum == h.last
    && Residues(st.seqNumHistoryMask) == ResiduesOf(h.accepted)
    && |Residues(st.seqNumHistoryMask)| == |h.accepted|
  }

  lemma ResiduesAfterSet(mask: bv32, b: nat)
    requires b < 32
    ensures Residues(With(mask, HistoryBit(b))) == Residues(mask) + {b}
    ensures Residues(0) == {}
  {
    hide Seen;
    forall a: nat | a < 32
      ensures Seen(With(mask, HistoryBit(b)), a) <==> Seen(mask, a) || a == b
      ensures !Seen(0, a)
    {
      SeenAfterSet(mask, a, b);
    }
  }

  lemma ResidueSeen(mask: bv32, r: nat)
    requires r < 32
    ensures r in Residues(mask) <==> Seen(mask, r)
  {
    hide Seen;
  }

  lemma ResiduesAppend(s: seq<u16>, x: u16)
    ensures ResiduesOf(s + [x]) == ResiduesOf(s) + {Residue(x)} && ResiduesOf([]) == {}
  {
    assert (s + [x])[..|s|] == s;
  }

  lemma FrameRefinesSearch(st: StreamState, h: History, seqNum: u16, path: PathIndex, nowNs: u64)
    requires Represents(st, h)
    ensures OnFrame(st, seqNum, path, nowNs).1 == Search(h, seqNum).1
    ensures Represents(OnFrame(st, seqNum, path, nowNs).0, Search(h, seqNum).0)
  {
    hide Seen, HistoryBit, With, MarkPath, Residues, OutOfWindow, ResiduesOf;
    var r := Residue(seqNum);
    ResidueMember(h.accepted, r);
    ResidueSeen(st.seqNumHistoryMask, r);
    if !Collides(h, seqNum) {
      var kept := if OutOfWindow(st.lastSeqNum, seqNum) then [] else h.accepted;
      var mask := if OutOfWindow(st.lastSeqNum, seqNum) then 0 else st.seqNumHistoryMask;
      ResiduesAfterSet(mask, r);
      ResiduesAppend(kept, seqNum);
      assert [] + [seqNum] == [seqNum];
      assert r !in Residues(mask);
    }
  }

  // ---- Runs of one stream -----------------------------------------------------------

  datatype Event = Frame(seqNum: u16, path: PathIndex, frameNs: u64) | Check(nowNs: u64)

  // A stream with its bookkeeping: frames delivered and forwarded since
  // registration, frames written off at latent-error events.
  datatype Account = Account(
    st: StreamState, verdicts: seq<bool>, forwarded: nat, clearedAccepted: nat, cleared: nat, events: nat)

  function AccountStep(a: Account, en: StreamEntry, e: Event): Account {
    match e
    case Frame(s, p, t) =>
      var (st, forward) := OnFrame(a.st, s, p, t);
      a.(st := st, verdicts := a.verdicts + [forward], forwarded := a.forwarded + if forward then 1 else 0)
    case Check(now) =>
      var st := OnTick(a.st, en, now);
      if LatentErrorDue(a.st)
      then a.(st := st, events := a.events + 1, clearedAccepted := a.clearedAccepted + a.st.framesAccepted,
              cleared := a.cleared + a.st.framesAccepted + a.st.framesDiscardedDuplicate)
      else a.(st := st)
  }

  function AccountRun(en: StreamEntry, events: seq<Event>): Account {
    if events == [] then Account(Registered(en), [], 0, 0, 0, 0)
    else AccountStep(AccountRun(en, events[..|events| - 1]), en, events[|events| - 1])
  }

  function SearchRun(events: seq<Event>): (History, seq<bool>) {
    if events == [] then (History(0, []), [])
    else
      var (h, verdicts) := SearchRun(events[..|events| - 1]);
      match events[|events| - 1]
      case Frame(s, _, _) => (Search(h, s).0, verdicts + [Search(h, s).1])
      case Check(_) => (h, verdicts)
  }

  lemma TickKeepsHistory(st: StreamState, en: StreamEntry, nowNs: u64)
    ensures OnTick(st, en, nowNs).seqNumHistoryMask == st.seqNumHistoryMask
    ensures OnTick(st, en, nowNs).lastSeqNum == st.lastSeqNum
  {
  }

  function Below(n: nat): (s: set<nat>)
    ensures |s| == n
    ensures forall k: nat :: k in s <==> k < n
  {
    if n == 0 then {} else Below(n - 1) + {n - 1}
  }

  lemma {:induction false} SubsetSize(a: set<nat>, b: set<nat>)
    requires a <= b
    ensures |a| <= |b|
  {
    if a == {} {
    } else {
      var x :| x in a;
      SubsetSize(a - {x}, b - {x});
    }
  }

  lemma AtMost32(mask: bv32)
    ensures |Residues(mask)| <= 32
  {
    assert Residues(mask) <= Below(32);
    SubsetSize(Residues(mask), Below(32));
  }

  // Over every run since registration the bitmask gives the verdicts of the
  // search, and the population count of the mask is the number of frames
  // accepted since the last reset, at most 32 and all of different residues.
  lemma {:induction false} MaskRefinesSearch(en: StreamEntry, events: seq<Event>)
    ensures AccountRun(en, events).verdicts == SearchRun(events).1
    ensures Represents(AccountRun(en, events).st, SearchRun(events).0)
    ensures |SearchRun(events).0.accepted| <= 32
  {
    hide Residues, LatentErrorDue, Silenced, AllPaths;
    if events == [] {
      ResiduesAfterSet(0, 0);
    } else {
      MaskRefinesSearch(en, events[..|events| - 1]);
      var st, h := AccountRun(en, events[..|events| - 1]).st, SearchRun(events[..|events| - 1]).0;
      match events[|events| - 1] {
        case Frame(s, p, t) => FrameRefinesSearch(st, h, s, p, t);
        case Check(now) => TickKeepsHistory(st, en, now);
      }
    }
    AtMost32(AccountRun(en, events).st.seqNumHistoryMask);
  }

  // ---- What the recovery function promises, and when it keeps it ----------------------

  lemma {:induction false} ResiduesBounded(s: seq<u16>)
    ensures |ResiduesOf(s)| <= |s|
  {
    if s == [] {
    } else {
      ResiduesBounded(s[..|s| - 1]);
    }
  }

  lemma {:induction false} DifferentResidues(s: seq<u16>, i: nat, j: nat)
    requires |ResiduesOf(s)| == |s| && i < j < |s|
    ensures Residue(s[i]) != Residue(s[j])
  {
    var t := s[..|s| - 1];
    ResiduesBounded(t);
    if j < |t| {
      DifferentResidues(t, i, j);
      assert t[i] == s[i] && t[j] == s[j];
    } else {
      assert t[i] == s[i];
      ResidueMember(t, Residue(s[i]));
      assert Residue(s[j]) !in ResiduesOf(t);
    }
  }

  // No sequence number is forwarded twice between resets, on any run.
  lemma NeverForwardedTwice(en: StreamEntry, events: seq<Event>, i: nat, j: nat)
    requires i < j < |SearchRun(events).0.accepted|
    ensures SearchRun(events).0.accepted[i] != SearchRun(events).0.accepted[j]
  {
    hide Residues, LatentErrorDue, Silenced, AllPaths;
    MaskRefinesSearch(en, events);
    DifferentResidues(SearchRun(events).0.accepted, i, j);
  }

  // No accepted number other than seqNum itself is congruent to it modulo 32.
  predicate ResidueFree(accepted: seq<u16>, seqNum: u16) {
    forall k :: 0 <= k < |accepted| && accepted[k] != seqNum ==> (accepted[k] - seqNum) % HISTORY_WINDOW_WIDTH != 0
  }

  lemma SameResidue(a: u16, b: u16)
    ensures Residue(a) == Residue(b) <==> (a - b) % HISTORY_WINDOW_WIDTH == 0
  {
  }

  // After any run, a frame is forwarded if and only if it is a first copy,
  // exactly when no other number accepted since the last reset is congruent to
  // it modulo 32: the mask never slides, so a new number 32 after an accepted
  // one is taken for a copy.
  lemma FirstCopyExact(en: StreamEntry, events: seq<Event>, seqNum: u16, path: PathIndex, nowNs: u64)
    ensures var accepted := SearchRun(events).0.accepted;
            var forwarded := OnFrame(AccountRun(en, events).st, seqNum, path, nowNs).1;
            && (forwarded <==> seqNum !in accepted && ResidueFree(accepted, seqNum))
            && ((forwarded <==> seqNum !in accepted) <==> ResidueFree(accepted, seqNum))
  {
    hide Residues, SearchRun, AccountRun, OnFrame, Residue;
    var h := SearchRun(events).0;
    MaskRefinesSearch(en, events);
    FrameRefinesSearch(AccountRun(en, events).st, h, seqNum, path, nowNs);
    forall k | 0 <= k < |h.accepted|
      ensures Residue(h.accepted[k]) == Residue(seqNum) <==> (h.accepted[k] - seqNum) % HISTORY_WINDOW_WIDTH == 0
    {
      SameResidue(h.accepted[k], seqNum);
    }
    if i :| 0 <= i < |h.accepted| && h.accepted[i] == seqNum {
      forall k | 0 <= k < |h.accepted| && h.accepted[k] != seqNum ensures Residue(h.accepted[k]) != Residue(seqNum) {
        DifferentResidues(h.accepted, if i < k then i else k, if i < k then k else i);
      }
    }
  }

  // Once all 32 residues are taken the stream forwards nothing more: the
  // duplicate test comes before the window reset, so nothing ever clears the mask.
  lemma FullMaskIsDead(st: StreamState, en: StreamEntry, e: Event)
    requires forall b: nat :: b < 32 ==> Seen(st.seqNumHistoryMask, b)
    ensures e.Frame? ==> !OnFrame(st, e.seqNum, e.path, e.frameNs).1
    ensures var st' := if e.Frame? then OnFrame(st, e.seqNum, e.path, e.frameNs).0 else OnTick(st, en, e.nowNs);
            st'.seqNumHistoryMask == st.seqNumHistoryMask
  {
  }

  function Frames(events: seq<Event>): nat {
    if events == [] then 0 else Frames(events[..|events| - 1]) + if events[|events| - 1].Frame? then 1 else 0
  }

  // The healthy case: frames 0, 1, 2, ... one copy each, with ticks at any time.
  predicate InOrder(events: seq<Event>) {
    events == [] ||
    var n := |events| - 1;
    InOrder(events[..n]) && (events[n].Frame? ==> events[n].seqNum == Frames(events[..n]) % 0x1_0000)
  }

  function AtMost(n: nat, limit: nat): nat {
    if n < limit then n else limit
  }

  // History after n in-order frames.
  predicate InOrderState(h: History, n: nat) {
    && |h.accepted| == AtMost(n, 32)
    && (forall k :: 0 <= k < |h.accepted| ==> h.accepted[k] == k)
    && (n <= 32 ==> h.last == if n == 0 then 0 else n - 1)
  }

  lemma InOrderStep(h: History, n: nat)
    requires InOrderState(h, n)
    ensures Search(h, n % 0x1_0000).1 == (n < 32)
    ensures InOrderState(Search(h, n % 0x1_0000).0, n + 1)
  {
    if n >= 32 {
      var r: nat := Residue(n % 0x1_0000);
      assert Residue(h.accepted[r]) == r;
    }
  }

  lemma EmptyInOrder()
    ensures InOrderState(History(0, []), 0)
  {
  }

  lemma {:induction false} InOrderHistory(events: seq<Event>)
    requires InOrder(events)
    ensures InOrderState(SearchRun(events).0, Frames(events))
    ensures |SearchRun(events).1| == Frames(events)
    ensures forall k :: 0 <= k < Frames(events) ==> SearchRun(events).1[k] == (k < 32)
  {
    hide InOrderState, Search;
    if events == [] {
      EmptyInOrder();
    } else {
      var n := |events| - 1;
      InOrderHistory(events[..n]);
      InOrderStep(SearchRun(events[..n]).0, Frames(events[..n]));
    }
  }

  // An in-order stream without loss is forwarded for its first 32 frames and
  // never again, however the ticks fall between them.
  lemma InOrderStreamStops(en: StreamEntry, events: seq<Event>)
    requires InOrder(events)
    ensures |AccountRun(en, events).verdicts| == Frames(events)
    ensures forall k :: 0 <= k < Frames(events) ==> AccountRun(en, events).verdicts[k] == (k < 32)
  {
    hide AccountRun, SearchRun;
    MaskRefinesSearch(en, events);
    InOrderHistory(events);
  }

  // ---- The history window, in figures ---------------------------------------------------

  // One frame and the window from 32 behind to 64 ahead of the number accepted
  // before: inside it every residue seen stays seen, outside it exactly that of
  // the new number is left. A copy changes neither history nor last number.
  lemma WindowExact(st: StreamState, seqNum: u16, path: PathIndex, nowNs: u64, r: nat)
    requires r < 32
    ensures var (st', forwarded) := OnFrame(st, seqNum, path, nowNs);
            var inside := -32 <= seqNum - st.lastSeqNum <= 64;
            && (forwarded <==> !Seen(st.seqNumHistoryMask, seqNum % 32))
            && (forwarded && inside ==>
                  (Seen(st'.seqNumHistoryMask, r) <==> Seen(st.seqNumHistoryMask, r) || r == seqNum % 32))
            && (forwarded && !inside ==> (Seen(st'.seqNumHistoryMask, r) <==> r == seqNum % 32))
            && (forwarded ==> st'.framesOutOfOrder == Wrap64(st.framesOutOfOrder + if inside then 0 else 1))
            && (forwarded ==> st'.lastSeqNum == seqNum && st'.expectedSeqNum == (seqNum + 1) % 65_536)
            && (!forwarded ==> st'.seqNumHistoryMask == st.seqNumHistoryMask && st'.lastSeqNum == st.lastSeqNum
                               && st'.expectedSeqNum == st.expectedSeqNum
                               && st'.framesOutOfOrder == st.framesOutOfOrder)
            && st'.lastFrameNs == nowNs && st'.lastPathReceived == path && st'.streamHandle == st.streamHandle
  {
    hide Seen, HistoryBit, With, MarkPath;
    SeenAfterSet(st.seqNumHistoryMask, r, seqNum % 32);
    SeenAfterSet(0, r, seqNum % 32);
  }

  // From position from on, each forwarded frame lies between 32 behind and 64
  // ahead of the one accepted before it.
  predicate Steady(en: StreamEntry, events: seq<Event>, from: nat) {
    |events| <= from ||
    var n := |events| - 1;
    var st := AccountRun(en, events[..n]).st;
    && Steady(en, events[..n], from)
    && (events[n].Frame? && OnFrame(st, events[n].seqNum, events[n].path, events[n].frameNs).1
        ==> -32 <= events[n].seqNum - st.lastSeqNum <= 64)
  }

  lemma {:induction false} ResidueStays(en: StreamEntry, events: seq<Event>, from: nat, r: nat)
    requires from <= |events| && r < 32 && Steady(en, events, from)
    requires Seen(AccountRun(en, events[..from]).st.seqNumHistoryMask, r)
    ensures Seen(AccountRun(en, events).st.seqNumHistoryMask, r)
  {
    hide OnFrame, OnTick, Seen;
    if |events| == from {
      assert events[..from] == events;
    } else {
      var n := |events| - 1;
      assert events[..n][..from] == events[..from];
      ResidueStays(en, events[..n], from, r);
      var st := AccountRun(en, events[..n]).st;
      match events[n] {
        case Frame(s, p, t) => WindowExact(st, s, p, t, r);
        case Check(now) => TickKeepsHistory(st, en, now);
      }
    }
  }

  // The promise of the recovery function, and the jitter it can take: between
  // two frames of one number, with each accepted frame from 32 behind to 64
  // ahead of the one before, the second is not forwarded.
  lemma SecondCopyDiscarded(en: StreamEntry, events: seq<Event>, i: nat, path: PathIndex, nowNs: u64)
    requires i < |events| && events[i].Frame? && Steady(en, events, i + 1)
    ensures !OnFrame(AccountRun(en, events).st, events[i].seqNum, path, nowNs).1
  {
    hide OnFrame, Seen;
    var st, e, r := AccountRun(en, events[..i]).st, events[i], events[i].seqNum % 32;
    assert events[..i + 1][..i] == events[..i];
    WindowExact(st, e.seqNum, e.path, e.frameNs, r);
    ResidueStays(en, events, i + 1, r);
    WindowExact(AccountRun(en, events).st, e.seqNum, path, nowNs, r);
  }

  // ---- What a stream records ------------------------------------------------------------

  // The numbers forwarded on a run, in order.
  function Forwarded(en: StreamEntry, events: seq<Event>): seq<u16> {
    if events == [] then []
    else
      var n := |events| - 1;
      var e := events[n];
      Forwarded(en, events[..n])
      + if e.Frame? && OnFrame(AccountRun(en, events[..n]).st, e.seqNum, e.path, e.frameNs).1 then [e.seqNum] else []
  }

  function LastOf(numbers: seq<u16>): u16 {
    if numbers == [] then 0 else numbers[|numbers| - 1]
  }

  // The last number left the window of the one before it, or of zero.
  predicate Jumped(numbers: seq<u16>)
    requires numbers != []
  {
    var n := |numbers| - 1;
    var delta := numbers[n] - LastOf(numbers[..n]);
    delta < -32 || delta > 64
  }

  function Jumps(numbers: seq<u16>): nat {
    if numbers == [] then 0 else Jumps(numbers[..|numbers| - 1]) + if Jumped(numbers) then 1 else 0
  }

  // The numbers since the last that left its window.
  function SinceJump(numbers: seq<u16>): seq<u16> {
    if numbers == [] then []
    else (if Jumped(numbers) then [] else SinceJump(numbers[..|numbers| - 1])) + [numbers[|numbers| - 1]]
  }

  // Instant and path of the last frame delivered, forwarded or not.
  function LastFrame(events: seq<Event>): (u64, PathIndex) {
    if events == [] then (0, 0)
    else
      match events[|events| - 1]
      case Frame(_, p, t) => (t, p)
      case Check(_) => LastFrame(events[..|events| - 1])
  }

  predicate Records(st: StreamState, en: StreamEntry, numbers: seq<u16>, last: (u64, PathIndex)) {
    && st.streamHandle == en.streamHandle && st.recoveryState == PassRecovering
    && st.lastSeqNum == LastOf(numbers)
    && st.expectedSeqNum == (if numbers == [] then 0 else (LastOf(numbers) + 1) % 65_536)
    && (st.lastFrameNs, st.lastPathReceived) == last
    && st.framesOutOfOrder == Jumps(numbers)
  }

  lemma AppendNumber(numbers: seq<u16>, s: u16)
    ensures LastOf(numbers + [s]) == s
    ensures Jumped(numbers + [s]) <==> s - LastOf(numbers) < -32 || s - LastOf(numbers) > 64
    ensures Jumps(numbers + [s]) == Jumps(numbers) + if Jumped(numbers + [s]) then 1 else 0
    ensures SinceJump(numbers + [s]) == if Jumped(numbers + [s]) then [s] else SinceJump(numbers) + [s]
  {
    assert (numbers + [s])[..|numbers|] == numbers;
    assert [] + [s] == [s];
  }

  lemma FrameRecorded(st: StreamState, en: StreamEntry, numbers: seq<u16>, last: (u64, PathIndex), e: Event)
    requires Records(st, en, numbers, last) && Jumps(numbers) + 1 < U64_RANGE && e.Frame?
    ensures var (st', forwarded) := OnFrame(st, e.seqNum, e.path, e.frameNs);
            Records(st', en, numbers + (if forwarded then [e.seqNum] else []), (e.frameNs, e.path))
  {
    hide Seen, HistoryBit, With, MarkPath, LastOf, Jumps, Jumped;
    AppendNumber(numbers, e.seqNum);
    assert numbers + [] == numbers;
  }

  lemma {:induction false} JumpsBounded(numbers: seq<u16>)
    ensures Jumps(numbers) <= |numbers|
  {
    if numbers == [] {
    } else {
      JumpsBounded(numbers[..|numbers| - 1]);
    }
  }

  lemma {:induction false} ForwardedBounded(en: StreamEntry, events: seq<Event>)
    ensures |Forwarded(en, events)| <= |events|
  {
    if events == [] {
    } else {
      ForwardedBounded(en, events[..|events| - 1]);
    }
  }

  lemma FreshRecords(en: StreamEntry)
    ensures Records(Registered(en), en, [], (0, 0))
  {
    hide AllPaths;
  }

  // Fewer events than this cannot wrap any 64-bit counter or product.
  predicate ShortOfWrap(events: seq<Event>) {
    |events| * 100 < U64_RANGE
  }

  lemma TickRecorded(st: StreamState, en: StreamEntry, numbers: seq<u16>, last: (u64, PathIndex), nowNs: u64)
    requires Records(st, en, numbers, last)
    ensures Records(OnTick(st, en, nowNs), en, numbers, last)
  {
    hide AllPaths, ClearPaths, WindowFailed;
  }

  // Over every run the state of a stream is what its frames say: the last
  // number forwarded and the one expected after it, the instant and path of the
  // last frame of any kind, and how many forwarded numbers left their window.
  lemma {:induction false} RecordsExact(en: StreamEntry, events: seq<Event>)
    requires ShortOfWrap(events)
    ensures Records(AccountRun(en, events).st, en, Forwarded(en, events), LastFrame(events))
  {
    hide OnTick, OnFrame, Records, Jumps, AllPaths;
    if events == [] {
      FreshRecords(en);
    } else {
      var n := |events| - 1;
      var st, numbers := AccountRun(en, events[..n]).st, Forwarded(en, events[..n]);
      RecordsExact(en, events[..n]);
      ForwardedBounded(en, events[..n]);
      JumpsBounded(numbers);
      assert numbers + [] == numbers;
      match events[n] {
        case Frame(_, _, _) => FrameRecorded(st, en, numbers, LastFrame(events[..n]), events[n]);
        case Check(now) => TickRecorded(st, en, numbers, LastFrame(events[..n]), now);
      }
    }
  }

  lemma NoNumbers()
    ensures LastOf([]) == 0 && SinceJump([]) == []
  {
  }

  // The history is made of exactly the numbers forwarded since the last one
  // that left its window.
  lemma {:induction false} HistorySinceJump(en: StreamEntry, events: seq<Event>)
    ensures SearchRun(events).0.last == LastOf(Forwarded(en, events))
    ensures SearchRun(events).0.accepted == SinceJump(Forwarded(en, events))
  {
    hide OnTick, OnFrame, LastOf, Jumped, SinceJump, Represents, Collides;
    if events == [] {
      NoNumbers();
    } else {
      var n := |events| - 1;
      var st, h, numbers := AccountRun(en, events[..n]).st, SearchRun(events[..n]).0, Forwarded(en, events[..n]);
      HistorySinceJump(en, events[..n]);
      MaskRefinesSearch(en, events[..n]);
      if events[n].Frame? {
        FrameRefinesSearch(st, h, events[n].seqNum, events[n].path, events[n].frameNs);
        AppendNumber(numbers, events[n].seqNum);
      }
      assert numbers + [] == numbers;
    }
  }

  // ---- Accounting ----------------------------------------------------------------------

  predicate Conserved(a: Account, n: nat) {
    && a.st.framesAccepted + a.st.framesDiscardedDuplicate + a.cleared == |a.verdicts| <= n
    && a.st.framesAccepted + a.clearedAccepted == a.forwarded
    && a.st.latentErrorEvents == a.events <= n
  }

  lemma FrameCounted(st: StreamState, s: u16, p: PathIndex, t: u64)
    requires st.framesAccepted + 1 < U64_RANGE && st.framesDiscardedDuplicate + 1 < U64_RANGE
    ensures var (st', forward) := OnFrame(st, s, p, t);
            && st'.framesAccepted == st.framesAccepted + (if forward then 1 else 0)
            && st'.framesDiscardedDuplicate == st.framesDiscardedDuplicate + (if forward then 0 else 1)
            && st'.latentErrorEvents == st.latentErrorEvents
  {
    hide Seen, HistoryBit, With, OutOfWindow;
  }

  lemma CheckCounted(st: StreamState, en: StreamEntry, now: u64)
    requires st.latentErrorEvents + 1 < U64_RANGE
    ensures var st' := OnTick(st, en, now);
            if LatentErrorDue(st)
            then st'.framesAccepted == st'.framesDiscardedDuplicate == 0
                 && st'.latentErrorEvents == st.latentErrorEvents + 1
            else st'.framesAccepted == st.framesAccepted && st'.latentErrorEvents == st.latentErrorEvents
                 && st'.framesDiscardedDuplicate == st.framesDiscardedDuplicate
  {
    hide AllPaths, WindowFailed;
  }

  // Every delivered frame is counted exactly once: as accepted, as duplicate,
  // or among those written off at a latent-error event.
  lemma {:induction false} FramesConserved(en: StreamEntry, events: seq<Event>)
    requires ShortOfWrap(events)
    ensures Conserved(AccountRun(en, events), |events|)
  {
    hide OnFrame, OnTick, LatentErrorDue, AllPaths;
    if events != [] {
      var n := |events| - 1;
      FramesConserved(en, events[..n]);
      match events[n] {
        case Frame(s, p, t) => FrameCounted(AccountRun(en, events[..n]).st, s, p, t);
        case Check(now) => CheckCounted(AccountRun(en, events[..n]).st, en, now);
      }
    }
  }

  lemma FivePercent(part: u64, whole: u64)
    requires whole > 0 && part * 100 < U64_RANGE
    ensures PercentOf(part, whole) < 5 <==> 20 * part < whole
  {
    DivBelow(part * 100, whole, 5);
  }

  // A latent-error event fires exactly on a full window with fewer than one
  // duplicate in twenty.
  lemma LatentErrorExact(st: StreamState)
    requires (st.framesAccepted + st.framesDiscardedDuplicate) * 100 < U64_RANGE
    ensures LatentErrorDue(st) <==>
              && st.framesAccepted + st.framesDiscardedDuplicate >= 10_000
              && 20 * st.framesDiscardedDuplicate < st.framesAccepted + st.framesDiscardedDuplicate
  {
    hide PercentOf;
    var dup, total := st.framesDiscardedDuplicate, st.framesAccepted + st.framesDiscardedDuplicate;
    if total >= 10_000 { FivePercent(dup, total); }
  }

  // Counters of an in-order stream after n frames.
  predicate InOrderCounters(a: Account, n: nat) {
    && a.st.framesAccepted == AtMost(n, 32) && a.st.framesDiscardedDuplicate == n - AtMost(n, 32)
    && a.events == 0 && a.st.latentErrorEvents == 0
  }

  lemma {:induction false} FramesBounded(events: seq<Event>)
    ensures Frames(events) <= |events|
  {
    if events == [] {
    } else {
      FramesBounded(events[..|events| - 1]);
    }
  }

  lemma InOrderIsNotDue(a: Account, n: nat)
    requires InOrderCounters(a, n) && n * 100 < U64_RANGE
    ensures !LatentErrorDue(a.st)
  {
    LatentErrorExact(a.st);
  }

  // The monitor never notices: on an in-order stream no latent-error event ever
  // fires, because everything after the 32nd frame is counted as a duplicate
  // and a high share of duplicates is what it takes for health.
  lemma {:induction false} InOrderMonitorSilent(en: StreamEntry, events: seq<Event>)
    requires InOrder(events) && ShortOfWrap(events)
    ensures InOrderCounters(AccountRun(en, events), Frames(events))
  {
    hide OnFrame, OnTick, LatentErrorDue, AllPaths, SearchRun;
    if events == [] {
    } else {
      var n := |events| - 1;
      var a := AccountRun(en, events[..n]);
      InOrderMonitorSilent(en, events[..n]);
      FramesBounded(events[..n]);
      match events[n] {
        case Frame(s, p, t) =>
          InOrderStreamStops(en, events);
          InOrderStreamStops(en, events[..n]);
          assert AccountRun(en, events).verdicts[Frames(events[..n])] == OnFrame(a.st, s, p, t).1;
          FrameCounted(a.st, s, p, t);
        case Check(now) =>
          InOrderIsNotDue(a, Frames(events[..n]));
          CheckCounted(a.st, en, now);
      }
    }
  }

  // ---- Path health ----------------------------------------------------------------------

  predicate Healthy(st: StreamState, path: PathIndex) {
    HasPath(st.pathHealthMask, PathBit(path))
  }

  lemma FirstPaths(mask: bv8, n: PathIndex, path: PathIndex)
    requires path < 8
    ensures HasPath(ClearPaths(mask, AllPaths(n)), PathBit(path)) <==> HasPath(mask, PathBit(path)) && path >= n
  {
  }

  lemma MarkedPath(mask: bv8, path: PathIndex, other: PathIndex)
    requires path < 8 && other < 8
    ensures HasPath(MarkPath(mask, path), PathBit(other)) <==> HasPath(mask, PathBit(other)) || other == path
  {
  }

  // Path n has bit n of the health mask; paths from 8 on have none.
  lemma PathBitTable()
    ensures PathBit(0) == 0x01 && PathBit(1) == 0x02 && PathBit(2) == 0x04 && PathBit(3) == 0x08
    ensures PathBit(4) == 0x10 && PathBit(5) == 0x20 && PathBit(6) == 0x40 && PathBit(7) == 0x80
    ensures forall path: PathIndex :: path >= 8 ==> PathBit(path) == 0
  {
  }

  lemma FreshPaths(n: PathIndex, path: PathIndex)
    requires path < 8
    ensures HasPath(AllPaths(n), PathBit(path)) <==> path < n
  {
  }

  // A stream starts with its member paths healthy and no residue seen.
  lemma FreshStream(en: StreamEntry, path: PathIndex, r: nat)
    requires path < 8 && r < 32
    ensures Healthy(Registered(en), path) <==> path < en.memberPaths
    ensures !Seen(Registered(en).seqNumHistoryMask, r)
    ensures var st := Registered(en);
            && st.streamHandle == en.streamHandle
            && st.framesAccepted == st.framesDiscardedDuplicate == st.latentErrorEvents == st.lastFrameNs == 0
  {
    hide Seen;
    SeenAfterSet(0, r, r);
    FreshPaths(en.memberPaths, path);
  }

  // A frame makes its own path healthy and no other. A tick makes member paths
  // unhealthy only all together, when the whole stream has been silent past
  // its timeout: one instant per stream stands for all its paths.
  lemma PathHealthExact(st: StreamState, en: StreamEntry, seqNum: u16, path: PathIndex, nowNs: u64, other: PathIndex)
    requires path < 8 && other < 8
    ensures Healthy(OnFrame(st, seqNum, path, nowNs).0, other) <==> Healthy(st, other) || other == path
    ensures var silent := st.lastFrameNs != 0 && Wrap64(nowNs - st.lastFrameNs) > en.recoveryTimeoutNs;
            Healthy(OnTick(st, en, nowNs), other) <==> Healthy(st, other) && (silent ==> other >= en.memberPaths)
  {
    hide Seen, HistoryBit, With, WindowFailed, MarkPath, ClearPaths, HasPath, PathBit, AllPaths, OutOfWindow;
    MarkedPath(st.pathHealthMask, path, other);
    FirstPaths(st.pathHealthMask, en.memberPaths, other);
  }
}
