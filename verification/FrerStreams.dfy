// One FRER stream and the table of streams, as values.
module FrerStreams {
  import opened TsnTypes

  const LED_WINDOW_FRAMES: u64 := 10_000
  const LED_THRESHOLD_PERCENT: u64 := 5
  const HISTORY_WINDOW_WIDTH: int := 32

  datatype RecoveryState = PassRecovering | Reset

  datatype StreamState = StreamState(
    streamHandle: u16, recoveryState: RecoveryState, lastSeqNum: u16, expectedSeqNum: u16,
    seqNumHistoryMask: bv32, pathHealthMask: bv8, lastPathReceived: u8,
    framesAccepted: u64, framesDiscardedDuplicate: u64, framesOutOfOrder: u64,
    latentErrorEvents: u64, lastFrameNs: u64)

  // A path index as used in shifts of 32-bit values.
  type PathIndex = x: int | 0 <= x < 32

  datatype StreamEntry = StreamEntry(
    streamHandle: u16, vlanId: u16, memberPaths: PathIndex, recoveryTimeoutNs: u32, isGenerator: bool)

  const NO_STATE := StreamState(0, PassRecovering, 0, 0, 0, 0, 0, 0, 0, 0, 0, 0)
  const NO_ENTRY := StreamEntry(0, 0, 0, 0, false)

  // ---- Bits ------------------------------------------------------------------

  function HistoryBit(b: nat): bv32
    requires b < HISTORY_WINDOW_WIDTH
  {
    (1 as bv32) << b
  }

  function Residue(seqNum: u16): (r: nat)
    ensures r < HISTORY_WINDOW_WIDTH
  {
    seqNum % HISTORY_WINDOW_WIDTH
  }

  predicate Overlap(mask: bv32, bits: bv32) {
    mask & bits != 0
  }

  function With(mask: bv32, bits: bv32): bv32 {
    mask | bits
  }

  predicate Seen(mask: bv32, b: nat)
    requires b < HISTORY_WINDOW_WIDTH
  {
    Overlap(mask, HistoryBit(b))
  }

  lemma BitsDistinct(a: nat, b: nat)
    requires a < 32 && b < 32
    ensures HistoryBit(a) & HistoryBit(b) != 0 <==> a == b
  {
  }

  lemma OrDisjoint(m: bv32, x: bv32, y: bv32)
    requires x & y == 0
    ensures Overlap(With(m, y), x) <==> Overlap(m, x)
  {
  }

  lemma OrSelf(m: bv32, x: bv32)
    requires x & x != 0
    ensures Overlap(With(m, x), x)
    ensures !Overlap(0, x)
  {
  }

  // Setting a bit adds that residue to the set and no other.
  lemma SeenAfterSet(mask: bv32, a: nat, b: nat)
    requires a < 32 && b < 32
    ensures Seen(With(mask, HistoryBit(b)), a) <==> Seen(mask, a) || a == b
    ensures !Seen(0, a)
  {
    hide HistoryBit, Overlap, With;
    BitsDistinct(a, b);
    BitsDistinct(a, a);
    OrSelf(mask, HistoryBit(a));
    if a != b { OrDisjoint(mask, HistoryBit(a), HistoryBit(b)); }
  }

  // The set of residues a mask stands for; its size is the population count.
  function Residues(mask: bv32): set<nat> {
    set b: nat | b < HISTORY_WINDOW_WIDTH && Seen(mask, b)
  }

  // One path's bit in the 8-bit health mask; paths 8 and above have none.
  function PathBit(path: PathIndex): bv8 {
    if path < 8 then (1 as bv8) << path else 0
  }

  // Bits of the first n paths.
  function AllPaths(n: PathIndex): bv8 {
    if n < 8 then ((1 as bv8) << n) - 1 else 0xFF
  }

  function MarkPath(mask: bv8, path: PathIndex): bv8 {
    mask | PathBit(path)
  }

  function ClearPaths(mask: bv8, bits: bv8): bv8 {
    mask & !bits
  }

  predicate HasPath(mask: bv8, bits: bv8) {
    mask & bits != 0
  }

  // Clearing the bits of the first paths one by one, where set, clears them all.
  lemma ClearNext(mask: bv8, n: PathIndex)
    requires n + 1 < 32
    ensures var m := ClearPaths(mask, AllPaths(n));
            ClearPaths(mask, AllPaths(n + 1)) == if HasPath(m, PathBit(n)) then ClearPaths(m, PathBit(n)) else m
    ensures ClearPaths(mask, AllPaths(0)) == mask
  {
  }

  // ---- One stream --------------------------------------------------------------

  predicate OutOfWindow(last: u16, seqNum: u16) {
    seqNum - last < -HISTORY_WINDOW_WIDTH || seqNum - last > HISTORY_WINDOW_WIDTH * 2
  }

  // State of a stream after a frame, and whether the frame is forwarded.
  function OnFrame(st: StreamState, seqNum: u16, path: PathIndex, nowNs: u64): (StreamState, bool) {
    var h := st.(pathHealthMask := MarkPath(st.pathHealthMask, path), lastPathReceived := path, lastFrameNs := nowNs);
    if Seen(st.seqNumHistoryMask, Residue(seqNum)) then
      (h.(framesDiscardedDuplicate := Wrap64(st.framesDiscardedDuplicate + 1)), false)
    else
      var reset := OutOfWindow(st.lastSeqNum, seqNum);
      (h.(seqNumHistoryMask := With(if reset then 0 else st.seqNumHistoryMask, HistoryBit(Residue(seqNum))),
          framesOutOfOrder := if reset then Wrap64(st.framesOutOfOrder + 1) else st.framesOutOfOrder,
          lastSeqNum := seqNum, expectedSeqNum := (seqNum + 1) % 0x1_0000,
          recoveryState := PassRecovering, framesAccepted := Wrap64(st.framesAccepted + 1)), true)
  }

  function Silenced(st: StreamState, en: StreamEntry, nowNs: u64): StreamState {
    if st.lastFrameNs != 0 && Wrap64(nowNs - st.lastFrameNs) > en.recoveryTimeoutNs
    then st.(pathHealthMask := ClearPaths(st.pathHealthMask, AllPaths(en.memberPaths))) else st
  }

  function PercentOf(part: u64, whole: u64): nat
    requires whole > 0
  {
    Wrap64(part * 100) / whole
  }

  predicate WindowFailed(accepted: u64, duplicates: u64) {
    var total := Wrap64(accepted + duplicates);
    total >= LED_WINDOW_FRAMES && PercentOf(duplicates, total) < LED_THRESHOLD_PERCENT
  }

  predicate LatentErrorDue(st: StreamState) {
    WindowFailed(st.framesAccepted, st.framesDiscardedDuplicate)
  }

  function LatentChecked(st: StreamState): StreamState {
    if LatentErrorDue(st)
    then st.(latentErrorEvents := Wrap64(st.latentErrorEvents + 1), framesAccepted := 0, framesDiscardedDuplicate := 0)
    else st
  }

  function OnTick(st: StreamState, en: StreamEntry, nowNs: u64): StreamState {
    LatentChecked(Silenced(st, en, nowNs))
  }

  function Registered(en: StreamEntry): StreamState {
    StreamState(en.streamHandle, PassRecovering, 0, 0, 0, AllPaths(en.memberPaths), 0, 0, 0, 0, 0, 0)
  }

  // ---- The stream table ----------------------------------------------------------

  datatype Stream = Stream(st: StreamState, en: StreamEntry)

  datatype Frer = Frer(initialised: bool, streams: seq<Stream>)

  // Position of the first stream with a handle, or the length when there is none.
  function Find(streams: seq<Stream>, handle: u16): (i: nat)
    ensures i <= |streams|
    ensures i < |streams| ==> streams[i].st.streamHandle == handle
    ensures forall k :: 0 <= k < i ==> streams[k].st.streamHandle != handle
  {
    if streams == [] || streams[0].st.streamHandle == handle then 0 else 1 + Find(streams[1..], handle)
  }

  function Register(f: Frer, en: StreamEntry, answer: Status): (Frer, Status) {
    if !f.initialised then (f, Err(NotInitialised))
    else if |f.streams| >= MAX_FRER_ENTRIES then (f, Err(FrerTableFull))
    else if answer.Err? then (f, answer)
    else (f.(streams := f.streams + [Stream(Registered(en), en)]), Ok)
  }

  function Deregister(f: Frer, handle: u16, answer: Status): (Frer, Status) {
    var i := Find(f.streams, handle);
    if i == |f.streams| then (f, Err(PsfsStreamUnknown))
    else if answer.Err? then (f, answer)
    else (f.(streams := f.streams[..i] + f.streams[i + 1..]), Ok)
  }

  datatype FrameResult = Forward | Discard | Unknown

  function Receive(f: Frer, handle: u16, seqNum: u16, path: PathIndex, nowNs: u64): (Frer, FrameResult) {
    var i := Find(f.streams, handle);
    if i == |f.streams| then (f, Unknown)
    else
      var (st, forward) := OnFrame(f.streams[i].st, seqNum, path, nowNs);
      (f.(streams := f.streams[i := f.streams[i].(st := st)]), if forward then Forward else Discard)
  }

  function TickAll(streams: seq<Stream>, nowNs: u64): (r: seq<Stream>)
    ensures |r| == |streams|
    ensures forall k :: 0 <= k < |r| ==> r[k] == Stream(OnTick(streams[k].st, streams[k].en, nowNs), streams[k].en)
  {
    if streams == [] then []
    else TickAll(streams[..|streams| - 1], nowNs)
         + [streams[|streams| - 1].(st := OnTick(streams[|streams| - 1].st, streams[|streams| - 1].en, nowNs))]
  }

  predicate AnyLatent(streams: seq<Stream>) {
    exists k :: 0 <= k < |streams| && streams[k].st.latentErrorEvents > 0
  }

  function Tick(f: Frer, nowNs: u64): (Frer, Status) {
    if !f.initialised then (f, Err(NotInitialised))
    else
      var f' := f.(streams := TickAll(f.streams, nowNs));
      (f', if AnyLatent(f'.streams) then Err(FrerLatentError) else Ok)
  }
}
