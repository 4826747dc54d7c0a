// Reading a gate list back from the hardware: what agreement with the active
// schedule means, field by field and on the timeline.
module GateVerification {
  import opened TsnTypes
  import opened GateSchedule
  import opened GateControl
  import opened GateTimeline

  // The list read back has the cycle time, the entry count and, in every used
  // entry, the gates and the interval of the active schedule.
  predicate Agrees(active: ScheduleParams, read: ScheduleParams) {
    && read.cycleTimeNs == active.cycleTimeNs
    && read.entryCount == active.entryCount
    && forall i :: 0 <= i < active.entryCount && i < 256 ==>
         read.gcl[i].gateStates == active.gcl[i].gateStates && read.gcl[i].intervalNs == active.gcl[i].intervalNs
  }

  // The read-back of a port fails, or is not the schedule it should be running.
  predicate Corrupt(g: Gcm, read: OperRead) {
    read.OperFail? || !Agrees(g.activeSchedule, read.params)
  }

  lemma SameEntry(a: GclEntry, b: GclEntry)
    ensures a == b <==> a.gateStates == b.gateStates && a.intervalNs == b.intervalNs
  {
  }

  // Verification succeeds exactly on an active port whose read-back agrees, and
  // otherwise tells an inactive port from a failed read from a different list.
  lemma VerificationExact(g: Gcm, read: OperRead)
    ensures Verification(g, read) == Ok <==> g.scheduleActive && !Corrupt(g, read)
    ensures !g.scheduleActive ==> Verification(g, read) == Err(NotInitialised)
    ensures g.scheduleActive && Corrupt(g, read)
            ==> Verification(g, read) == Err(if read.OperFail? then read.error else OperationNotPermitted)
  {
    if g.scheduleActive && read.OperGcl? {
      forall i | 0 <= i < g.activeSchedule.entryCount && i < 256
        ensures read.params.gcl[i] == g.activeSchedule.gcl[i]
           <==> read.params.gcl[i].gateStates == g.activeSchedule.gcl[i].gateStates
                && read.params.gcl[i].intervalNs == g.activeSchedule.gcl[i].intervalNs
      {
        SameEntry(read.params.gcl[i], g.activeSchedule.gcl[i]);
      }
    }
  }

  lemma {:induction false} SameStarts(a: GclArray, b: GclArray, n: nat)
    requires n <= MAX_GCL_ENTRIES && forall i :: 0 <= i < n ==> a[i].intervalNs == b[i].intervalNs
    ensures StartOf(a, n) == StartOf(b, n)
  {
    if n == 0 {
    } else {
      SameStarts(a, b, n - 1);
    }
  }

  lemma {:induction false} SameCovering(a: GclArray, b: GclArray, n: nat, off: nat)
    requires n <= MAX_GCL_ENTRIES && forall i :: 0 <= i < n ==> a[i].intervalNs == b[i].intervalNs
    requires off < StartOf(a, n) && off < StartOf(b, n)
    ensures Covering(a, n, off) == Covering(b, n, off)
  {
    SameStarts(a, b, n - 1);
    if off >= StartOf(a, n - 1) {
    } else {
      SameCovering(a, b, n - 1, off);
    }
  }

  // What an agreeing read-back is worth: the hardware opens the gates of the
  // active schedule, shifted in time by the difference of the base times, which
  // are not compared. With equal base times it opens the same gates at every
  // instant.
  lemma AgreementOpensSame(active: Timeline, read: ScheduleParams, t: int)
    requires Agrees(active, read)
    ensures WellFormed(read)
    ensures GatesAt(read, t + BaseNs(read) - BaseNs(active)) == GatesAt(active, t)
    ensures read.baseTime == active.baseTime ==> GatesAt(read, t) == GatesAt(active, t)
  {
    SameStarts(active.gcl, read.gcl, active.entryCount);
    assert t + BaseNs(read) - BaseNs(active) - BaseNs(read) == t - BaseNs(active);
    SameCovering(active.gcl, read.gcl, active.entryCount, Offset(active, t));
  }
}
