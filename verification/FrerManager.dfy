// The FRER manager: two parallel arrays used as a table with compaction.
module FrerManagers {
  import opened TsnTypes
  import F = FrerStreams

  ghost function Zip(a: seq<F.StreamState>, b: seq<F.StreamEntry>): (t: seq<F.Stream>)
    requires |a| == |b|
    ensures |t| == |a|
    ensures forall k :: 0 <= k < |a| ==> t[k] == F.Stream(a[k], b[k])
  {
    if a == [] then [] else Zip(a[..|a| - 1], b[..|a| - 1]) + [F.Stream(a[|a| - 1], b[|a| - 1])]
  }

  lemma LatentUpTo(t: seq<F.Stream>, n: nat)
    requires n <= |t|
    ensures F.AnyLatent(t[..n]) <==> n > 0 && (F.AnyLatent(t[..n - 1]) || t[n - 1].st.latentErrorEvents > 0)
  {
    if n > 0 {
      var a, b := t[..n], t[..n - 1];
      assert forall k :: 0 <= k < n - 1 ==> a[k] == b[k];
      assert a[n - 1] == t[n - 1];
    }
  }

  // A slot is the one found when it holds the handle and none before it does.
  lemma FindIs(t: seq<F.Stream>, handle: u16, i: nat)
    requires i <= |t| && (i < |t| ==> t[i].st.streamHandle == handle)
    requires forall k :: 0 <= k < i ==> t[k].st.streamHandle != handle
    ensures F.Find(t, handle) == i
  {
  }

  class FrerManager {
    var initialised: bool
    var streamCount: u8
    const states: array<F.StreamState>
    const entries: array<F.StreamEntry>

    ghost predicate Valid()
      reads this
    {
      && states.Length == entries.Length == MAX_FRER_ENTRIES
      && streamCount <= MAX_FRER_ENTRIES
    }

    // The ordered table the two arrays stand for.
    ghost function Table(): (t: seq<F.Stream>)
      requires Valid()
      reads this, states, entries
      ensures |t| == streamCount
      ensures forall k :: 0 <= k < streamCount ==> t[k] == F.Stream(states[k], entries[k])
    {
      Zip(states[..streamCount], entries[..streamCount])
    }

    ghost function View(): F.Frer
      requires Valid()
      reads this, states, entries
    {
      F.Frer(initialised, Table())
    }

    constructor ()
      ensures Valid() && View() == F.Frer(false, [])
      ensures fresh(states) && fresh(entries)
    {
      states := new F.StreamState[MAX_FRER_ENTRIES](_ => F.NO_STATE);
      entries := new F.StreamEntry[MAX_FRER_ENTRIES](_ => F.NO_ENTRY);
      initialised, streamCount := false, 0;
    }

    method Init() returns (s: Status)
      requires Valid()
      modifies this, states, entries
      ensures Valid() && s == Ok && View() == F.Frer(true, [])
    {
      streamCount := 0;
      for i := 0 to MAX_FRER_ENTRIES
        modifies states, entries
      {
        states[i] := F.NO_STATE;
        entries[i] := F.NO_ENTRY;
      }
      initialised := true;
      return Ok;
    }

    method FindStreamSlot(streamHandle: u16) returns (slot: u8)
      requires Valid()
      ensures slot == if F.Find(Table(), streamHandle) < streamCount then F.Find(Table(), streamHandle)
                      else MAX_FRER_ENTRIES
    {
      for i := 0 to streamCount
        invariant forall k :: 0 <= k < i ==> Table()[k].st.streamHandle != streamHandle
      {
        if states[i].streamHandle == streamHandle {
          FindIs(Table(), streamHandle, i);
          return i;
        }
      }
      FindIs(Table(), streamHandle, streamCount);
      return MAX_FRER_ENTRIES;
    }

    method RegisterStream(entry: F.StreamEntry, answer: Status) returns (s: Status)
      requires Valid()
      modifies this`streamCount, states, entries
      ensures Valid()
      ensures (View(), s) == F.Register(old(View()), entry, answer)
    {
      if !initialised { return Err(NotInitialised); }
      if streamCount >= MAX_FRER_ENTRIES { return Err(FrerTableFull); }
      var slot := streamCount;
      entries[slot] := entry;
      states[slot] := F.StreamState(
        entry.streamHandle, F.PassRecovering, 0, 0, 0, F.AllPaths(entry.memberPaths), 0, 0, 0, 0, 0, 0);
      assert Table() == old(Table());
      if answer.Err? { return answer; }
      streamCount := streamCount + 1;
      assert Table() == old(Table()) + [F.Stream(F.Registered(entry), entry)];
      return Ok;
    }

    // Shifts the entries behind a slot down by one and gives up the last.
    method Compact(slot: u8)
      requires Valid() && slot < streamCount
      modifies this`streamCount, states, entries
      ensures Valid() && Table() == old(Table())[..slot] + old(Table())[slot + 1..]
    {
      ghost var was := Table();
      for i := slot to streamCount - 1
        invariant forall k :: 0 <= k < slot ==> F.Stream(states[k], entries[k]) == was[k]
        invariant forall k :: slot <= k < i ==> F.Stream(states[k], entries[k]) == was[k + 1]
        invariant forall k :: i <= k < streamCount ==> F.Stream(states[k], entries[k]) == was[k]
        modifies states, entries
      {
        states[i] := states[i + 1];
        entries[i] := entries[i + 1];
      }
      streamCount := streamCount - 1;
      assert Table() == was[..slot] + was[slot + 1..];
    }

    method DeregisterStream(streamHandle: u16, answer: Status) returns (s: Status)
      requires Valid()
      modifies this`streamCount, states, entries
      ensures Valid()
      ensures (View(), s) == F.Deregister(old(View()), streamHandle, answer)
    {
      var slot := FindStreamSlot(streamHandle);
      if slot >= streamCount { return Err(PsfsStreamUnknown); }
      if answer.Err? { return answer; }
      Compact(slot);
      return Ok;
    }

    static predicate IsDuplicate(state: F.StreamState, seqNum: u16) {
      var bit := seqNum % F.HISTORY_WINDOW_WIDTH;
      F.Overlap(state.seqNumHistoryMask, F.HistoryBit(bit))
    }

    // The updates made to a stream's state while a frame is received.
    static method ReceiveOn(was: F.StreamState, sequenceNum: u16, pathIndex: F.PathIndex, nowNs: u64)
      returns (st: F.StreamState, forward: bool)
      ensures (st, forward) == F.OnFrame(was, sequenceNum, pathIndex, nowNs)
    {
      hide F.MarkPath, F.HistoryBit, F.Overlap, F.With;
      st := was.(pathHealthMask := F.MarkPath(was.pathHealthMask, pathIndex));
      st := st.(lastPathReceived := pathIndex);
      st := st.(lastFrameNs := nowNs);
      if IsDuplicate(st, sequenceNum) {
        st := st.(framesDiscardedDuplicate := Wrap64(st.framesDiscardedDuplicate + 1));
        return st, false;
      }
      var delta := sequenceNum - st.lastSeqNum;
      if delta < -F.HISTORY_WINDOW_WIDTH || delta > F.HISTORY_WINDOW_WIDTH * 2 {
        st := st.(seqNumHistoryMask := 0);
        st := st.(recoveryState := F.Reset);
        st := st.(framesOutOfOrder := Wrap64(st.framesOutOfOrder + 1));
      }
      var bit := sequenceNum % F.HISTORY_WINDOW_WIDTH;
      st := st.(seqNumHistoryMask := F.With(st.seqNumHistoryMask, F.HistoryBit(bit)));
      st := st.(lastSeqNum := sequenceNum);
      st := st.(expectedSeqNum := (sequenceNum + 1) % 0x1_0000);
      st := st.(recoveryState := F.PassRecovering);
      st := st.(framesAccepted := Wrap64(st.framesAccepted + 1));
      return st, true;
    }

    method OnFrameReceived(streamHandle: u16, sequenceNum: u16, pathIndex: F.PathIndex, nowNs: u64)
      returns (r: F.FrameResult)
      requires Valid()
      modifies states
      ensures Valid()
      ensures (View(), r) == F.Receive(old(View()), streamHandle, sequenceNum, pathIndex, nowNs)
    {
      var slot := FindStreamSlot(streamHandle);
      if slot >= streamCount { return F.Unknown; }
      var st, forward := ReceiveOn(states[slot], sequenceNum, pathIndex, nowNs);
      states[slot] := st;
      assert Table() == old(Table())[slot := F.Stream(st, entries[slot])];
      return if forward then F.Forward else F.Discard;
    }

    static method CheckLatentError(was: F.StreamState) returns (st: F.StreamState)
      ensures st == F.LatentChecked(was)
    {
      st := was;
      var totalFrames := Wrap64(was.framesAccepted + was.framesDiscardedDuplicate);
      if totalFrames < F.LED_WINDOW_FRAMES { return; }
      var duplicateRatePercent := F.PercentOf(was.framesDiscardedDuplicate, totalFrames);
      if duplicateRatePercent < F.LED_THRESHOLD_PERCENT {
        st := st.(latentErrorEvents := Wrap64(st.latentErrorEvents + 1));
        st := st.(framesAccepted := 0);
        st := st.(framesDiscardedDuplicate := 0);
      }
    }

    static method MarkSilentPaths(was: F.StreamState, en: F.StreamEntry, nowNs: u64) returns (st: F.StreamState)
      requires was.lastFrameNs != 0
      ensures st == F.Silenced(was, en, nowNs)
    {
      hide F.AllPaths, F.PathBit, F.ClearPaths, F.HasPath;
      st := was;
      ghost var silent := Wrap64(nowNs - was.lastFrameNs) > en.recoveryTimeoutNs;
      F.ClearNext(was.pathHealthMask, 0);
      for path := 0 to en.memberPaths
        invariant var cleared := F.ClearPaths(was.pathHealthMask, F.AllPaths(path));
                  st == if silent then was.(pathHealthMask := cleared) else was
      {
        F.ClearNext(was.pathHealthMask, path);
        var pathBit := F.PathBit(path);
        if F.HasPath(st.pathHealthMask, pathBit) {
          var silenceNs := Wrap64(nowNs - st.lastFrameNs);
          if silenceNs > en.recoveryTimeoutNs {
            st := st.(pathHealthMask := F.ClearPaths(st.pathHealthMask, pathBit));
          }
        }
      }
    }

    // Path silence and latent-error detection for one stream.
    static method TickOn(was: F.StreamState, en: F.StreamEntry, nowNs: u64) returns (st: F.StreamState)
      ensures st == F.OnTick(was, en, nowNs)
    {
      st := was;
      if st.lastFrameNs != 0 { st := MarkSilentPaths(st, en, nowNs); }
      assert st == F.Silenced(was, en, nowNs);
      st := CheckLatentError(st);
    }

    method TickStreams(nowNs: u64) returns (latentErrorFired: bool)
      requires Valid()
      modifies states
      ensures forall k :: 0 <= k < streamCount ==> states[k] == F.OnTick(old(states[k]), entries[k], nowNs)
      ensures latentErrorFired == F.AnyLatent(F.TickAll(old(Table()), nowNs))
    {
      hide F.OnTick, F.AnyLatent;
      ghost var ticked := F.TickAll(Table(), nowNs);
      latentErrorFired := false;
      LatentUpTo(ticked, 0);
      for i := 0 to streamCount
        invariant forall k :: 0 <= k < i ==> states[k] == ticked[k].st
        invariant forall k :: i <= k < streamCount ==> states[k] == old(states[k])
        invariant latentErrorFired == F.AnyLatent(ticked[..i])
      {
        LatentUpTo(ticked, i + 1);
        var st := TickOn(states[i], entries[i], nowNs);
        states[i] := st;
        if st.latentErrorEvents > 0 { latentErrorFired := true; }
      }
      assert ticked[..streamCount] == ticked;
    }

    method Tick(nowNs: u64) returns (s: Status)
      requires Valid()
      modifies states
      ensures Valid()
      ensures (View(), s) == F.Tick(old(View()), nowNs)
    {
      if !initialised { return Err(NotInitialised); }
      var latentErrorFired := TickStreams(nowNs);
      assert Table() == F.TickAll(old(Table()), nowNs);
      if latentErrorFired { return Err(FrerLatentError); }
      return Ok;
    }
  }
}
