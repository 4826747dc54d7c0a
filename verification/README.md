# A verified model of the TSN zonal backbone control stack

The stack has four stateful components: a gate control manager per switch port
that validates IEEE 802.1Qbv gate control lists and hands them to the hardware,
a gPTP clock manager with an integer servo and a holdover mode, a FRER manager
for redundant streams, and an orchestrator that drives all of them from one
periodic tick, degrades on faults and keeps an audit log.

Every component is modelled twice. A class holds the fields of the original and
updates them in place, with the original's loops and early returns. A value with
step functions says what the class computes: each method is proved to take
`View()` to the step of the old `View()`. The step functions are what the
theorems are about, and `Conformance.Drive` carries them back to the objects: any
sequence of calls on an orchestrator ends in the state of the machine run on the
same operations. What the step functions themselves mean is stated without
them: bounds, constants, bit positions, error codes and the order of checks in
figures and fields (`ValidationExact`, `WindowExact`, `ServoLaw`,
`VerificationExact`, `RegistersAll`, `InitExact`, `TransitionLogged`). Unsigned 64-bit arithmetic wraps explicitly; signed arithmetic
that would overflow is a precondition, because the original has no defined
result there. Every hardware answer, PHC reading and received message is an
arbitrary input.

| file | content |
|---|---|
| `TsnTypes.dfy`, `Arithmetic.dfy` | fixed-width integers, error codes, schedules; products and quotients |
| `GateSchedule.dfy`, `GateTimeline.dfy` | the seven stages; the infinite gate timeline and its bounds |
| `GateControl.dfy`, `GateVerification.dfy`, `GateControlManager.dfy` | one port as a value; what a read-back is worth; the class, and the record of hardware writes |
| `FrerStreams.dfy`, `FrerProperties.dfy`, `FrerTable.dfy`, `FrerManager.dfy` | streams and table as values, their runs, the class |
| `PtpServo.dfy`, `PtpClock.dfy`, `PtpClockManager.dfy` | servo and drift arithmetic, clock states and runs, the class |
| `Orchestration.dfy` | the orchestrator as a state machine |
| `OrchestrationSafety.dfy`, `OrchestrationGuarantees.dfy` | invariant over all runs; what it means for the hardware |
| `OrchestrationDegradation.dfy`, `OrchestrationTiming.dfy` | state changes and their causes; response times in ticks |
| `OrchestrationStartup.dfy`, `OrchestrationClock.dfy` | when the stack starts running and what restarts cost; a clock that is lost |
| `OrchestrationScenarios.dfy` | short concrete runs that reach the failures described below |
| `AuditRing.dfy`, `TsnOrchestrator.dfy`, `Conformance.dfy` | the audit ring, the class, object against machine |

`dafny verify dfyconfig.toml` checks the project.

## Where the code and its documentation differ

The model follows the code. These promises of comments or documents do not hold
of it. For each, a lemma says exactly when they do, and a concrete schedule or a
concrete run from initialisation shows a case where they do not.

- The delay bound of a class is a service promise exactly when it fits in one
  cycle or the class is never closed (`DelayBoundExact`); a class that is never
  open can have its deadline reported as met (`DeadlineMetIsNotService`). The
  bound that holds for every class that is ever open is `CorrectedDelayHolds`.
- The FRER history does not slide. A new frame is forwarded exactly when no
  other accepted number is congruent to it modulo 32 (`FirstCopyExact`), so a
  lossless in-order stream is forwarded for 32 frames and then never again
  (`InOrderStreamStops`), and the latent-error monitor, which looks for too few
  duplicates, never notices (`InOrderMonitorSilent`).
- The safe-state schedule is validated only when it is applied, and may be
  refused then (`SafeStateSchedule`, reached in `SafeStateOnOldSchedule`);
  docs/architecture.md (section 4, P5) says it is validated at initialisation
  and applied unconditionally.
- Initialisation leaves the window width and the deadline to load time
  (`PrevalidationRefines`, `PrevalidatedLoad`, `PrevalidatedButNotLoadable`).
- Stopping does not deregister FRER streams. Each entry into the running state
  costs as many of the 64 slots as there are configured streams
  (`StreamBudget`); a restart succeeds only while the streams registered and
  those configured together fit in 64 (`RunsExactly`), and never again once
  the slots are used up (`StoppedForGood`): with 33 streams after the first
  stop (`OneStopTooMany`), with 22 after the second.
- The read-back of a gate list does not compare base times: a list that agrees
  opens the gates of the active schedule shifted by their difference
  (`AgreementOpensSame`).
- Latched faults survive a restart and there is no way back from degraded to
  running (`RestartDoesNotClear`, `TickLogged`, reached in
  `FaultSurvivesRestart`).
- A hardware integrity fault alone is logged as a MACsec replay attack
  (`DegradeCodeNamesFault`, reached in `IntegrityLoggedAsReplay`).
- The loss of the Sync messages is noticed exactly by a clock that has had one
  and is locked, in holdover or about to elect itself (`ClockLossIsSafe`,
  `ClockLossUnnoticed`). One Sync message received in holdover leaves the clock
  locking, which has no timeout: if no other follows, the orchestrator keeps
  running on it (`LateSyncDeafens`).
- A Sync message whose register write fails moves the last-sync instant without
  leaving holdover (`FailedSyncWrite`, reached in `FailedWriteDetachesHoldover`).
- A second initialisation of a live object makes its managers forget the
  schedules still loaded in the hardware (`ReinitForgets`).

The orchestrator gives its callers only read access to its clock and its FRER
manager (include/norxs/tsn/TsnOrchestrator.hpp:224-227) and calls neither
receive path itself. The model assumes that received Sync messages and frames
reach those two private managers between ticks, as `SyncOp` and `FrameOp`.

## Model

| member | source | states |
|---|---|---|
| GateTimeline.ClosedPerCycle | src/GateControlManager.cpp:359-374 | Over every window one cycle long, wherever it starts on the infinite timeline, the gate of a class is closed for exactly the computed blocking time. |
| GateTimeline.OpenLowerBound | src/GateControlManager.cpp:359-374 | Over k cycles and a remainder r the open time is at least k times the open time per cycle plus what of r exceeds the blocking time. |
| GateTimeline.WaitBound | src/GateControlManager.cpp:279-299 | A class is ever served if and only if its blocking time is below the cycle, and then an open gate is never further away than the blocking time. |
| GateTimeline.DelayBoundExact | src/GateControlManager.cpp:285-337 | The analyser's delay gives a class its own and all higher bursts from every instant if and only if the delay is at most one cycle or the class is never closed. |
| GateTimeline.CorrectedDelayHolds | src/GateControlManager.cpp:285-337 | The delay counted over as many cycles as the demand takes is a service bound for every class that is ever open, never below the analyser's, and equal to it if and only if the analyser's is a bound. |
| GateTimeline.CorrectedDelayTight | src/GateControlManager.cpp:285-337 | That bound is attained: from the start of a contiguous closed stretch, one nanosecond less leaves the demand one nanosecond short. |
| GateTimeline.SafetyServiceGuarantee | src/GateControlManager.cpp:153-163 | Any schedule that passes all seven stages gives class 7 at least 12304 ns of open gate within its delay from any instant, and that delay is at most 500000 ns and at most one cycle. |
| GateTimeline.GuardBandGuarantee | src/GateControlManager.cpp:221-274 | Within a cycle of any instant a safety-only window starts, and any frame of up to 1538 bytes begun before it has drained with room for the largest safety frame left in the window. |
| GateTimeline.PassThroughOpen | src/GateControlManager.cpp:86-97 | The pass-through list is one all-open entry of 100000 ns and closes no gate at any instant. |
| GateTimeline.EntryAtOffset | src/GateControlManager.cpp:209-219 | Within a cycle, a list entry is the one in force if and only if the instant lies in its own interval. |
| GateTimeline.EntryRecurs | src/GateControlManager.cpp:209-219 | Each entry starts afresh within one cycle of any instant and is in force for its whole interval. |
| GateTimeline.DeadlineMetIsNotService | src/GateControlManager.cpp:332-337 | A concrete accepted schedule whose best-effort deadline is reported met although its gate never opens. |
| GateSchedule.PrevalidatedLoad | src/TsnOrchestrator.cpp:172-206 | A prevalidated schedule is accepted at load if and only if its windows are wide enough and the deadline is met, and can be rejected for nothing else. |
| GateSchedule.ValidationExact | src/GateControlManager.cpp:153-274 | A schedule is accepted if and only if all seven stages hold, each written in figures, and every error code means exactly that the stages before hold and its own does not. |
| GateSchedule.AnalysisExact | src/GateControlManager.cpp:301-353 | The recorded delay of each class is its closed time plus 230928, 158928, 122928, 106544, 94240, 28704, 16400 or 12304 ns, its verdict compares that with its deadline, and the utilisation is 23092800 over the cycle. |
| GateSchedule.GateBitTable | src/GateControlManager.cpp:359-374 | The gate of class n is bit n of the mask. |
| GateControl.ApplyOneConsistent | src/GateControlManager.cpp:76-84 | Applying keeps a port consistent: an active schedule passed validation and is the last one the hardware acknowledged, whatever the candidate and the answer. |
| GateControl.ApplyKeepsConsistent | src/GateControlManager.cpp:76-84 | Applying on one port leaves the consistency of every other port alone. |
| GateControl.DisableOneConsistent | src/GateControlManager.cpp:86-101 | Disabling keeps a port consistent: an inactive port has last been left in pass-through. |
| GateControl.DisableKeepsConsistent | src/GateControlManager.cpp:86-101 | Disabling one port leaves the consistency of every other port alone. |
| GateControl.AppliedExact | src/GateControlManager.cpp:76-84 | Applying changes the schedule if and only if it passes and the hardware takes it, tells which of the two failed, and replaces the analysis exactly when stage 7 was reached. |
| GateVerification.VerificationExact | src/GateControlManager.cpp:117-144 | A read-back is Ok if and only if the port is active, the list is read, and cycle time, count and, in every used entry, gates and interval are equal; each failure has its own code. |
| GateVerification.AgreementOpensSame | src/GateControlManager.cpp:117-144 | A list that agrees opens, at every instant, the gates of the active schedule shifted by the difference of the base times. |
| GateControlManagers.GateControlManager.ApplySchedule | src/GateControlManager.cpp:76-84 | Validates, writes once, and changes the active schedule only when both succeed; a rejected or failed candidate leaves it. |
| GateControlManagers.GateControlManager.DisableSchedule | src/GateControlManager.cpp:86-101 | Writes the pass-through list and clears the active flag only when the write succeeds. |
| GateControlManagers.GateControlManager.VerifyHardwareSchedule | src/GateControlManager.cpp:117-144 | Ok exactly on an active port whose read-back agrees in cycle time, count, gates and interval of every used entry; changes nothing observable. |
| GateControlManagers.GateControlManager.ValidateSchedule | src/GateControlManager.cpp:153-163 | The error of the first failing stage in order, and the analyser's result recorded even for a schedule then rejected. |
| GateControlManagers.GateControlManager.CheckEntryCount | src/GateControlManager.cpp:169-176 | Stage 1 accepts exactly 1 to 256 entries and tells empty from too many. |
| GateControlManagers.GateControlManager.CheckCycleTime | src/GateControlManager.cpp:182-189 | Stage 2 accepts exactly the admissible cycle times and tells short from long. |
| GateControlManagers.GateControlManager.CheckNoZeroIntervals | src/GateControlManager.cpp:195-203 | Stage 3 accepts exactly the lists without a zero interval. |
| GateControlManagers.GateControlManager.CheckIntervalSum | src/GateControlManager.cpp:209-219 | The wrapping 64-bit sum accepts exactly the lists whose true sum is the cycle time. |
| GateControlManagers.GateControlManager.CheckGuardBand | src/GateControlManager.cpp:237-254 | Stage 5 accepts exactly when every safety-only window fits a safety frame behind a frame of maximal size. |
| GateControlManagers.GateControlManager.CheckSafetyCriticalWindow | src/GateControlManager.cpp:264-274 | Stage 6 accepts exactly when some entry opens class 7 alone. |
| GateControlManagers.GateControlManager.ComputeBlockingTimeNs | src/GateControlManager.cpp:359-374 | The wrapping sum is the true closed time per cycle of the class. |
| GateControlManagers.GateControlManager.ClassDelay | src/GateControlManager.cpp:323-337 | The delay of a class is its blocking time plus its own and all higher bursts, without wrap. |
| GateControlManagers.GateControlManager.RunNetworkCalculus | src/GateControlManager.cpp:301-353 | Records delay and verdict of every class and the utilisation; fails exactly when class 7 misses its deadline. |
| OrchestrationGuarantees.SystemGuarantee | src/TsnOrchestrator.cpp:278-300 | In every reachable running, degraded or safe state every managed port has an acknowledged, seven-stage-validated schedule in its hardware and class 7 its burst within 500 microseconds from any instant. |
| OrchestrationGuarantees.OnlySafeWrites | src/TsnOrchestrator.cpp:212-233 | On every run each gate list handed to the hardware is the pass-through, or validated and written after a tick that saw a synchronised clock since the latest start. |
| OrchestrationGuarantees.TickMarks | src/TsnOrchestrator.cpp:278-294 | A tick counts as having seen synchronisation exactly when the converging orchestrator finds the clock synchronised, and before any write of that tick. |
| OrchestrationGuarantees.SafeStateSchedule | src/TsnOrchestrator.cpp:420-438 | A tick that enters the safe state puts a port on the safe-state schedule if and only if that schedule validates and the hardware takes it (or it was there); otherwise the port keeps its schedule, active. |
| OrchestrationGuarantees.RunningStartsAsConfigured | src/TsnOrchestrator.cpp:283-300 | A tick that starts running leaves each port active on, and loaded with, its own configured schedule. |
| OrchestrationGuarantees.ShutdownExact | src/TsnOrchestrator.cpp:222-233 | Stopping, and entering the fault state, put exactly the ports whose write succeeds into pass-through; the others keep their schedule active and loaded. |
| OrchestrationGuarantees.ReinitForgets | src/TsnOrchestrator.cpp:106-127 | After initialising a live object again, each managed port agrees with its hardware if and only if it had no active schedule. |
| OrchestrationGuarantees.InitExact | src/TsnOrchestrator.cpp:76-127 | Initialisation succeeds if and only if period and port count are sound, chip, VLAN table, every filter and the frequency register answer, every schedule passes and the clock has 1 to 16 ports; the first failure is told and a failure before construction leaves only the configuration. |
| OrchestrationGuarantees.InitialisedState | src/TsnOrchestrator.cpp:106-127 | A successful initialisation leaves an inactive manager on each configured port, an empty stream table and a fresh clock, and keeps faults and log of an earlier life. |
| OrchestrationGuarantees.FiltersExact | src/TsnOrchestrator.cpp:145-152 | Stream filters are installed up to the first refusal, whose error is told. |
| OrchestrationGuarantees.CreatedRefuses | src/TsnOrchestrator.cpp:239-244 | Before initialisation ticks, starts, updates and registrations are refused. |
| OrchestrationGuarantees.PrevalidationRefines | src/TsnOrchestrator.cpp:172-206 | The fused prevalidation scan accepts a schedule if and only if stages 1 to 4 and 6 do; its errors are those of the stages, with too many entries told as none and a long cycle as a short one. |
| OrchestrationGuarantees.PrevalidationAll | src/TsnOrchestrator.cpp:178-205 | A configuration is prevalidated if and only if each of its schedules is, and fails with the error of the first that is not. |
| OrchestrationGuarantees.LoadFailsLate | src/TsnOrchestrator.cpp:283-293 | After a successful initialisation, on every run, loading can fail only for a narrow window, a missed deadline or an answer of the hardware. |
| OrchestrationGuarantees.PrevalidatedButNotLoadable | src/TsnOrchestrator.cpp:172-206 | A concrete schedule that initialisation accepts and loading always rejects. |
| OrchestrationSafety.RunInv | src/TsnOrchestrator.cpp:239-476 | The invariant holds after every run: port consistency, safe trace, active ports and observed synchronisation in live states, degraded only with a degrade fault and no safe-state fault, safe state only with a safe-state fault. |
| OrchestrationSafety.StepInv | src/TsnOrchestrator.cpp:239-476 | Every operation keeps the invariant, whatever the hardware answers. |
| OrchestrationSafety.LoadFromOk | src/TsnOrchestrator.cpp:283-294 | A completed load leaves every port active on its own schedule; an aborted one keeps all ports consistent. |
| OrchestrationSafety.ApplyAllOk | src/TsnOrchestrator.cpp:427-433 | Applying one schedule everywhere acts on each port separately and keeps all ports consistent. |
| OrchestrationSafety.DisableAllExact | src/TsnOrchestrator.cpp:446-452 | Disabling everywhere changes each port exactly as its own answer says, in state and in hardware. |
| OrchestrationSafety.UpdateReachesPort | src/TsnOrchestrator.cpp:463-476 | From running an update reaches exactly the named port, with one write if the schedule passes, and is refused for a port without a manager. |
| OrchestrationSafety.UpdateRefused | src/TsnOrchestrator.cpp:463-466 | In every other state an update is refused and changes nothing. |
| OrchestrationDegradation.TickLogged | src/TsnOrchestrator.cpp:239-315 | A state change by a tick is one of five edges and is logged exactly once; no change, no entry. |
| OrchestrationDegradation.QuietRun | src/TsnOrchestrator.cpp:239-315 | Between lifecycle calls the log entries chain from the first state to the last, the state never moves back, and at most three changes happen. |
| OrchestrationDegradation.FaultsObserved | src/TsnOrchestrator.cpp:257-275 | A tick latches each fault exactly on its own cause: clock expiry, a stream's latent error, and, only 8000000 ns after the last check, an active port that does not read back in agreement or failures of the 32 channels that do not sum to zero. |
| OrchestrationDegradation.MismatchExact | src/TsnOrchestrator.cpp:336-349 | The port check finds a fault if and only if some active port is not read back or reads back a list that does not agree. |
| OrchestrationDegradation.MacsecExact | src/TsnOrchestrator.cpp:351-362 | The failure total is the sum over the channels modulo 2^64, and that sum is positive if and only if some channel counts a failure. |
| OrchestrationDegradation.RunningReacts | src/TsnOrchestrator.cpp:367-401 | A tick keeps the running state if and only if no fault is latched, and otherwise enters the safe or the degraded state exactly as the faults say. |
| OrchestrationDegradation.DegradedReacts | src/TsnOrchestrator.cpp:403-417 | From degraded only the safe state is reachable, and it is reached exactly on a safe-state fault or an integrity fault. |
| OrchestrationDegradation.DegradeCodeNamesFault | src/TsnOrchestrator.cpp:386-401 | Degrading is logged under the FRER code exactly on a FRER fault and as a replay attack otherwise, so the code names a latched fault if and only if a FRER or MACsec fault is latched. |
| OrchestrationDegradation.TransitionLogged | src/TsnOrchestrator.cpp:367-457 | Each of the five state changes is logged with its own cause and instant: holdover before deadline for the safe state, FRER before replay for degraded, the failing load or missing synchronisation for a fault. |
| OrchestrationDegradation.TickAnswers | src/TsnOrchestrator.cpp:239-315 | A tick answers an error exactly in the fault state, without initialisation, on entering the fault state (with the code it logs), and when synchronised streams cannot be registered. |
| OrchestrationDegradation.LifecycleSilent | src/TsnOrchestrator.cpp:212-233 | Start and stop touch neither log, faults, clock nor streams, and a start needs an initialisation. |
| OrchestrationDegradation.PortsFrozen | src/TsnOrchestrator.cpp:463-466 | Over every run without a lifecycle call no port or gate list changes from degraded before the safe state is entered, nor ever in the safe state. |
| OrchestrationDegradation.LatentErrorDegrades | src/TsnOrchestrator.cpp:260-265 | A latent error on any stream ends the running state at the next tick. |
| OrchestrationDegradation.FaultsLatch | src/TsnOrchestrator.cpp:212-233 | No operation, stop and start included, ever clears a latched fault. |
| OrchestrationDegradation.RestartDoesNotClear | src/TsnOrchestrator.cpp:212-233 | Once a fault has been latched, any later tick from the running state leaves it. |
| OrchestrationStartup.ConvergeExact | src/TsnOrchestrator.cpp:278-300 | A converging tick with a synchronised clock runs if and only if all schedules load and all streams fit and register; it faults exactly when loading fails and otherwise stays converging. |
| OrchestrationStartup.RegistersAll | src/TsnOrchestrator.cpp:163-170 | Registration appends the configured streams, fresh and in order, up to the first refusal, whose reason it tells; it takes all if and only if they fit in 64 slots and the hardware takes each. |
| OrchestrationStartup.TickTable | src/TsnOrchestrator.cpp:239-300 | A tick ticks the stream table at the reading it started with and appends the first n configured streams in order: none outside convergence, all when it starts running. |
| OrchestrationStartup.ConfiguredStreamsServed | src/TsnOrchestrator.cpp:163-170 | After the tick that starts running no frame of a configured stream is unknown. |
| OrchestrationStartup.LoadsUpTo | src/TsnOrchestrator.cpp:283-294 | Loading applies each port's own schedule up to the first failure, whose reason it tells, and does not touch the ports behind it. |
| OrchestrationStartup.LoadsExactly | src/TsnOrchestrator.cpp:283-294 | Loading succeeds if and only if every schedule is accepted and every write acknowledged. |
| OrchestrationStartup.StartupExact | src/TsnOrchestrator.cpp:76-127 | A node that qualifies as grandmaster is running on the first tick after its start if and only if its schedules are acceptable and the hardware takes schedules and streams. |
| OrchestrationStartup.RunsExactly | src/TsnOrchestrator.cpp:278-300 | A converging tick starts running if and only if it finds the clock synchronised, every schedule passes and is taken, the registered and configured streams fit in 64 slots and the hardware takes each. |
| OrchestrationStartup.TableGrows | src/TsnOrchestrator.cpp:222-233 | No run ever shrinks the stream table, and with too little room left no run reaches the running state. |
| OrchestrationStartup.StreamBudget | src/TsnOrchestrator.cpp:163-170 | On every run the entries into the running state times the configured streams never exceed the slots taken, nor 64. |
| OrchestrationStartup.StoppedForGood | src/TsnOrchestrator.cpp:163-170 | Once the 64 slots do not allow one entry more, an orchestrator that is not running never runs again, whatever follows. |
| OrchestrationClock.TickMovesClock | src/TsnOrchestrator.cpp:321-329 | A tick moves the clock by exactly its own tick and latches the holdover fault exactly on its expiry. |
| OrchestrationClock.ClockOnEveryRun | src/PtpClockManager.cpp:286-292 | On every run of the orchestrator with working register writes, holdover counts from the last Sync and the servo stays in its clamp. |
| OrchestrationClock.HoldoverExpiryIsSafe | src/TsnOrchestrator.cpp:321-329 | On every such reachable running or degraded state, holdover past its budget or ten sync timeouts leads to the safe state in the tick that sees it. |
| OrchestrationClock.ClockLossIsSafe | src/TsnOrchestrator.cpp:321-384 | Without a further Sync, a clock that is locked, in holdover or about to elect itself brings the safe state within a number of ticks computed from sync timeout, holdover budget and PHC rate, whatever updates and frames come in between. |
| OrchestrationClock.ClockLossOnEveryRun | src/TsnOrchestrator.cpp:321-384 | The same from every reachable running or degraded state. |
| OrchestrationClock.ClockLossUnnoticed | src/PtpClockManager.cpp:124-160 | Any other clock never enters holdover and never latches its fault, over any run without a Sync. |
| OrchestrationTiming.WatchdogExact | src/TsnOrchestrator.cpp:301-312 | If no tick after a start finds the clock synchronised, the fault state is entered on exactly tick 1 + ceil(1000 (timeout + 1) / period), whatever the PHC reads. |
| OrchestrationTiming.IntegrityEscalates | src/TsnOrchestrator.cpp:386-415 | An integrity fault seen from running has reached the safe state by the following tick, whatever happens in between. |
| OrchestrationTiming.BoundedDetection | src/TsnOrchestrator.cpp:267-275 | A port whose read-back fails or differs, in cycle time, count, gates or an interval, at every tick from its then active schedule brings the safe state within ceil(8000000 / d) + 1 ticks of a PHC advancing d ns per tick, over any run of ticks, updates, frames and Sync messages. |
| OrchestrationTiming.DetectionOnEveryRun | src/TsnOrchestrator.cpp:336-349 | The same from every reachable running state, where the port is always active. |
| OrchestrationTiming.ChecksSpaced | src/TsnOrchestrator.cpp:267-272 | Two integrity checks of any run are at least eight milliseconds of forward-running PHC time apart. |
| AuditRing.RingPush | src/TsnOrchestrator.cpp:488-496 | Writing at the head and advancing keeps the ring equal to the recent history. |
| AuditRing.RingIsRecentHistory | src/TsnOrchestrator.cpp:482-497 | Reading the ring gives exactly the last min(n, 64) of all n entries ever logged, in order. |
| TsnOrchestrators.TsnOrchestrator.LogStateTransition | src/TsnOrchestrator.cpp:482-497 | Appends one entry to the history and keeps the ring in step with it. |
| TsnOrchestrators.TsnOrchestrator.EnterSafeState | src/TsnOrchestrator.cpp:420-438 | The loop over the ports, the log entry and the new state refine the safe-state transition. |
| TsnOrchestrators.TsnOrchestrator.EnterFault | src/TsnOrchestrator.cpp:440-457 | The loop, the log entry and the new state refine the fault transition. |
| TsnOrchestrators.TsnOrchestrator.TickPtp | src/TsnOrchestrator.cpp:321-329 | Ticks the clock and latches the holdover bit exactly on expiry. |
| TsnOrchestrators.TsnOrchestrator.TickFrer | src/TsnOrchestrator.cpp:331-334 | Ticks the streams and latches the FRER bit exactly on a latent error. |
| TsnOrchestrators.TsnOrchestrator.TickIntegrityCheck | src/TsnOrchestrator.cpp:336-365 | Latches the integrity bit exactly when some active port fails its read-back, and the MACsec bit exactly when the summed failures are not zero. |
| TsnOrchestrators.TsnOrchestrator.TickDegradationMachine | src/TsnOrchestrator.cpp:367-418 | The branches over mask bits refine the degradation step over fault sets. |
| TsnOrchestrators.TsnOrchestrator.ConvergeSynchronised | src/TsnOrchestrator.cpp:280-300 | Loads all ports, then registers all streams, then logs and runs, with the code's early exits. |
| TsnOrchestrators.TsnOrchestrator.ConvergeWaiting | src/TsnOrchestrator.cpp:301-311 | Arms the watchdog on the first waiting tick and faults past the timeout. |
| TsnOrchestrators.TsnOrchestrator.Tick | src/TsnOrchestrator.cpp:239-315 | One call of the object is one tick of the state machine, state and status. |
| TsnOrchestrators.TsnOrchestrator.Start | src/TsnOrchestrator.cpp:212-220 | From any state of an initialised object, enters converging with the watchdog disarmed. |
| TsnOrchestrators.TsnOrchestrator.Stop | src/TsnOrchestrator.cpp:222-233 | Disables every port, ignoring answers, and returns to uninitialised. |
| TsnOrchestrators.TsnOrchestrator.UpdatePortSchedule | src/TsnOrchestrator.cpp:463-476 | Outside the running state refused without any change; otherwise applies to the first manager of the port. |
| TsnOrchestrators.TsnOrchestrator.PrevalidateAllSchedules | src/TsnOrchestrator.cpp:172-206 | The nested scan returns the first error of the first failing schedule. |
| TsnOrchestrators.TsnOrchestrator.PrevalidateSchedule | src/TsnOrchestrator.cpp:186-203 | One fused loop decides intervals, sum and safety window with the code's error precedence. |
| TsnOrchestrators.TsnOrchestrator.Init | src/TsnOrchestrator.cpp:76-127 | The phases in order, each failure leaving what the phases before it did, on a new object and on one initialised before. |
| TsnOrchestrators.LatchFault | src/TsnOrchestrator.cpp:33-37 | Setting a bit of the 32-bit mask latches that fault and no other. |
| TsnOrchestrators.FaultBits | src/TsnOrchestrator.cpp:33-37 | The five faults are bits 0 to 4 of the mask. |
| Conformance.Apply | src/TsnOrchestrator.cpp:212-476 | One operation on the object is one step of the machine. |
| Conformance.Drive | src/TsnOrchestrator.cpp:46-476 | A constructed and initialised object driven through any operations ends in the machine's state after that run, which satisfies the invariant. |
| FrerProperties.MaskRefinesSearch | src/FrerManager.cpp:183-228 | Over every run since registration the 32-bit mask gives the verdicts of a search through accepted numbers; its population count is their number, at most 32. |
| FrerProperties.FrameRefinesSearch | src/FrerManager.cpp:200-227 | One frame: same verdict, and mask and history stay related across a window reset. |
| FrerProperties.NeverForwardedTwice | src/FrerManager.cpp:274-283 | No sequence number is forwarded twice between resets, on any run. |
| FrerProperties.WindowExact | src/FrerManager.cpp:200-224 | A number not seen, from 32 behind to 64 ahead of the last accepted, keeps every residue seen; any other leaves exactly its own; a copy changes neither history nor last number. |
| FrerProperties.SecondCopyDiscarded | src/FrerManager.cpp:200-216 | Between two frames of one number, with each accepted frame from 32 behind to 64 ahead of the one before, the second is not forwarded. |
| FrerProperties.HistorySinceJump | src/FrerManager.cpp:208-216 | On every run the history is made of exactly the numbers forwarded since the last that left its window. |
| FrerProperties.RecordsExact | src/FrerManager.cpp:183-228 | On every run the state holds the last number forwarded, the one expected after it, instant and path of the last frame of any kind, and how many numbers left their window. |
| FrerProperties.FreshStream | src/FrerManager.cpp:141-155 | A stream starts with its member paths healthy, no residue seen and empty counters. |
| FrerProperties.PathBitTable | src/FrerManager.cpp:193-194 | Path n is bit n of the health mask, and paths from 8 on have none. |
| FrerProperties.FirstCopyExact | src/FrerManager.cpp:200-216 | After any run, forwarding coincides with being a first copy if and only if no other number accepted since the last reset is congruent modulo 32. |
| FrerProperties.FullMaskIsDead | src/FrerManager.cpp:201-216 | A full mask discards every frame and nothing ever clears it. |
| FrerProperties.InOrderStreamStops | src/FrerManager.cpp:183-228 | Frames 0, 1, 2, ... without loss, with ticks at any time, are forwarded for the first 32 and never after. |
| FrerProperties.InOrderMonitorSilent | src/FrerManager.cpp:285-301 | On such a run no latent-error event ever fires; the counters are exactly 32 accepted and the rest duplicates. |
| FrerProperties.FramesConserved | src/FrerManager.cpp:285-304 | Accepted plus duplicates plus those written off at latent-error events equals the frames delivered, on every run that cannot wrap a counter. |
| FrerProperties.LatentErrorExact | src/FrerManager.cpp:285-301 | An event is due if and only if the window has 10000 frames and fewer than one duplicate in twenty. |
| FrerProperties.PathHealthExact | src/FrerManager.cpp:88-109 | A frame revives exactly its own path; a tick silences the member paths all together, exactly after stream silence past the timeout. |
| FrerStreams.SeenAfterSet | src/FrerManager.cpp:218-221 | Setting a history bit adds that residue and no other. |
| FrerStreams.ClearNext | src/FrerManager.cpp:91-107 | Clearing member paths one by one clears exactly those of the first paths. |
| FrerTable.LatentErrorSticks | src/FrerManager.cpp:111-123 | After an event on a stream every later tick reports the latent error, through any frames, registrations and removals of other handles. |
| FrerTable.StreamsIndependent | src/FrerManager.cpp:130-228 | Over any run of frames, ticks, registrations and removals that does not remove it, each stream of the table evolves as if alone with its own frames. |
| FrerTable.TableKeepsVerdicts | src/FrerManager.cpp:183-228 | The table's own answers to a stream's frames are, one by one, the verdicts of a lone stream, on any such run. |
| FrerTable.TableKeepsAccounts | src/FrerManager.cpp:183-228 | A stream of a shared table has the conserved counters of a lone stream: accepted, duplicates and written-off frames make up the answers given. |
| FrerTable.RunKeepsLockstep | src/FrerManager.cpp:130-177 | Over any run states and entries stay in lockstep and within 64 streams. |
| FrerTable.RemovalAfterRegistration | src/FrerManager.cpp:162-177 | Removing a handle just registered restores the table if it was new, and otherwise removes the older stream and keeps the order. |
| FrerTable.ReceiveExact | src/FrerManager.cpp:183-200 | A frame is unknown if and only if no stream carries its handle; otherwise it changes the first that does and no other. |
| FrerTable.DeregisterExact | src/FrerManager.cpp:162-177 | Removal is refused exactly for an unknown handle, fails with the hardware, and then changes nothing. |
| FrerTable.TickReportsExact | src/FrerManager.cpp:111-123 | A tick reports a latent error if and only if some stream had an event already or has 10000 frames and fewer than one duplicate in twenty. |
| FrerManagers.FrerManager.Init | src/FrerManager.cpp:61-71 | Leaves an initialised, empty table. |
| FrerManagers.FrerManager.FindStreamSlot | src/FrerManager.cpp:265-272 | The first slot with the handle, or the sentinel 64. |
| FrerManagers.FrerManager.RegisterStream | src/FrerManager.cpp:130-160 | Appends a fresh stream, or on a full table or a refusal of the hardware leaves the table as it was. |
| FrerManagers.FrerManager.DeregisterStream | src/FrerManager.cpp:162-177 | Removes exactly the first match and keeps order and all other state. |
| FrerManagers.FrerManager.Compact | src/FrerManager.cpp:169-175 | The shifting loop over both arrays removes one row of the table. |
| FrerManagers.FrerManager.OnFrameReceived | src/FrerManager.cpp:183-228 | Changes only the first matching stream, as one frame of the stream machine, and returns its verdict. |
| FrerManagers.FrerManager.Tick | src/FrerManager.cpp:77-124 | Ticks every stream in place and reports a latent error exactly when some stream has one. |
| FrerManagers.FrerManager.MarkSilentPaths | src/FrerManager.cpp:88-109 | The loop over member paths equals clearing them all at once when the stream is silent. |
| FrerManagers.FrerManager.CheckLatentError | src/FrerManager.cpp:285-304 | Counts an event and clears both counters exactly when one is due. |
| PtpServo.ShiftIsFloor | src/PtpClockManager.cpp:215-222 | Complement, shift, complement is floor division by the power of two for every 64-bit value. |
| PtpServo.ServoLaw | src/PtpClockManager.cpp:224-244 | The integral is the sum within 500000000; inside 500000 ppb, 8 times the offset plus the integral plus 32 times the adjustment is the rounding remainder, 0 to 55, and at a bound the corresponding inequality holds. |
| PtpServo.IntegralIsSum | src/PtpClockManager.cpp:229-232 | Over offsets whose partial sums stay within half a second the integral is their sum. |
| PtpServo.RegisterExact | src/PtpClockManager.cpp:246-252 | The register is two's complement in 32 bits. |
| PtpServo.DriftQuotient | src/PtpClockManager.cpp:294-304 | The drift is one nanosecond for each full million of rate times whole microseconds. |
| PtpServo.ServoBounded | src/PtpClockManager.cpp:229-241 | Over any offsets the integral stays in its clamp and the adjustment survives the 32-bit register. |
| PtpServo.ServoAntitone | src/PtpClockManager.cpp:224-244 | Pointwise larger offsets never give a larger adjustment, clamps included. |
| PtpServo.ServoRecovers | src/PtpClockManager.cpp:229-232 | Enough offsets of at most -d bring any clamped integral to zero or below. |
| PtpServo.DriftAccuracy | src/PtpClockManager.cpp:294-304 | The twice-rounded drift never exceeds the exact one and falls short by at most one nanosecond per started million of the rate. |
| PtpServo.DriftMonotone | src/PtpClockManager.cpp:294-304 | The drift never decreases with elapsed time. |
| PtpClock.HoldoverCountsFromLastSync | src/PtpClockManager.cpp:286-292 | On every run with working register writes, holdover counts from the last Sync. |
| PtpClock.FailedSyncWrite | src/PtpClockManager.cpp:180-198 | A Sync taken in holdover keeps that if and only if its register write succeeds or it repeats the instant. |
| PtpClock.HoldoverTickExact | src/PtpClockManager.cpp:124-144 | A holdover tick is Ok if and only if the silence is within the budget and ten sync timeouts, and the remaining budget is then exact. |
| PtpClock.HoldoverPersists | src/PtpClockManager.cpp:124-144 | Holdover outlasts any run of ticks within the budget and changes nothing but the used time. |
| PtpClock.HoldoverExpires | src/PtpClockManager.cpp:130-135 | The first reading beyond the budget ends holdover and is reported. |
| PtpClock.HoldoverEntryExact | src/PtpClockManager.cpp:146-155 | Holdover is entered if and only if a locked clock has heard a Sync longer ago than the timeout; it counts from that Sync with the whole budget left. |
| PtpClock.FailedTickExact | src/PtpClockManager.cpp:107-130 | A tick whose registers fail reports the hardware's error and leaves the clock as it was. |
| PtpClock.SyncExact | src/PtpClockManager.cpp:167-201 | A Sync feeds the integral whatever the register answers, and locks a locking clock if and only if it measures less than 1000 ns and is acknowledged; every other change of state is stated. |
| PtpClock.OffsetExact | src/PtpClockManager.cpp:173-180 | The offset is reception minus transmission minus correction. |
| PtpClock.InitExact | src/PtpClockManager.cpp:78-101 | The clock initialises if and only if it has 1 to 16 ports and the register is written. |
| PtpClock.FreshIgnores | src/PtpClockManager.cpp:107-109 | Before initialisation ticks and messages change nothing. |
| PtpClock.ForcedExact | src/PtpClockManager.cpp:352-359 | A forced clock is locked as grandmaster at once and qualifies for ever after. |
| PtpClock.ReadingExact | src/PtpClockManager.cpp:310-325 | The time seen by a caller that ignores errors is that of the three registers, and zero in free run, without initialisation or when they cannot be read. |
| TsnTypes.PhcNsExact | src/PtpClockManager.cpp:111-123 | The PHC words weigh 2^32 seconds, one second and one nanosecond, modulo 2^64. |
| PtpClock.SelfElectionExact | src/PtpClockManager.cpp:258-280 | Left alone, a clock synchronises if and only if it qualifies as grandmaster and some tick could read the PHC; otherwise it stays in free run. |
| PtpClock.SlaveLocksExact | src/PtpClockManager.cpp:167-201 | A clock that does not qualify and never misses a Sync is synchronised if and only if it has had two and the last measured less than a microsecond. |
| PtpClockManagers.PtpClockManager.Init | src/PtpClockManager.cpp:78-101 | Refuses bad port counts, resets the servo and the role, and keeps the configuration even when the register write fails. |
| PtpClockManagers.PtpClockManager.Tick | src/PtpClockManager.cpp:107-161 | One call is one tick of the clock machine; in holdover the drift of the elapsed time is staged. |
| PtpClockManagers.PtpClockManager.InjectSyncMessage | src/PtpClockManager.cpp:167-201 | One call is one Sync of the clock machine, and the two's-complement value staged in the register obeys the control law in figures. |
| PtpClockManagers.PtpClockManager.RunServo | src/PtpClockManager.cpp:224-244 | The shifts and two-sided clamps obey the integral and control laws in figures, without overflow. |
| PtpClockManagers.PtpClockManager.ApplyPhcAdjustment | src/PtpClockManager.cpp:246-252 | The staged register value decodes to the adjustment. |
| PtpClockManagers.PtpClockManager.ApplyHoldoverDrift | src/PtpClockManager.cpp:294-304 | Stages the low 32 bits of the drift. |
| PtpClockManagers.PtpClockManager.RunBmca | src/PtpClockManager.cpp:258-280 | Elects the local clock exactly when none is elected and it qualifies. |
| PtpClockManagers.PtpClockManager.ForceGrandmasterRole | src/PtpClockManager.cpp:352-359 | Locks the clock as grandmaster from any state. |
| OrchestrationScenarios.IntegrityLoggedAsReplay | src/TsnOrchestrator.cpp:386-401 | A run on which a failed read-back alone is logged as a MACsec replay attack. |
| OrchestrationScenarios.SafeStateOnOldSchedule | src/TsnOrchestrator.cpp:427-433 | A run that enters the safe state with the port still on its old schedule. |
| OrchestrationScenarios.OneStopTooMany | src/TsnOrchestrator.cpp:163-170 | A node with 33 streams that runs, and never again after one stop. |
| OrchestrationScenarios.FaultSurvivesRestart | src/TsnOrchestrator.cpp:212-233 | A run stopped and started again that leaves the running state for a fault from before the stop. |
| OrchestrationScenarios.LateSyncDeafens | src/PtpClockManager.cpp:188-198 | A run that stays running on a clock that one Sync in holdover has left locking, where no later silence is noticed. |
| OrchestrationScenarios.FailedWriteDetachesHoldover | src/PtpClockManager.cpp:180-198 | A run on which a failed register write leaves holdover counting from an instant that is not the last Sync. |

## Left out

- TsnOrchestrators.TsnOrchestrator.Init: assumes that the manager count, which every initialisation adds to, stays within the 16 places of the array it is used to index; beyond that the original has no defined result. The theorems about runs are about one initialisation per object.
- OrchestrationGuarantees.ReinitForgets: assumes that initialising the switch chip again does not itself clear its gate lists.
- OrchestrationTiming.WatchdogExact: assumes the 64-bit monotonic clock does not wrap during the run, and a non-zero tick period, which initialisation enforces.
- FrerProperties.FramesConserved: assumes a run short enough that no 64-bit counter or percentage product wraps.
- FrerTable.LatentErrorSticks: assumes the 64-bit event counter does not wrap back to zero.
- PtpServo.DriftAccuracy: assumes the 64-bit drift product does not wrap.
- FrerProperties.RecordsExact: assumes a run short enough that no 64-bit counter wraps.
- FrerTable.TickReportsExact: assumes counters whose hundredfold stays below 2^64.
- PtpServo.DriftQuotient: assumes the 64-bit drift product does not wrap.
- FrerProperties.InOrderMonitorSilent: assumes a run short enough that no 64-bit counter or percentage product wraps.
- FrerTable.TableKeepsAccounts: the same of the frames of its stream.
- PtpServo.DriftMonotone: the same of the drift product.
- OrchestrationClock.ClockLossIsSafe: assumes a tenfold sync timeout within 64 bits.
- OrchestrationClock.ClockLossUnnoticed: assumes that the hardware layer does not itself answer a PHC read with the holdover-expired code, which the orchestrator would take for an expiry.
- PtpClock.HoldoverTickExact: assumes a PHC that is not behind the last Sync and a tenfold sync timeout within 64 bits; the code wraps otherwise.
- PtpClockManagers.PtpClockManager.InjectSyncMessage: assumes the signed 64-bit offset arithmetic does not overflow, where the original has no defined result.
- The hardware layer itself: registers, Admin-to-Oper polling, VLAN and TCAM entries, MACsec keys and stream policing; only the calls the core makes are kept, with arbitrary answers, and a write that is not acknowledged is taken to leave the port as it was.
- Reading the PHC nanosecond register back after a drift write: PHC readings are free inputs.
- Path indices and member path counts of 32 and more, whose shifts the original leaves undefined.
- Frame transmission, queueing and preemption inside shared windows: the timeline speaks of gates, not of queues.
- Full comparison of announced clock datasets: the code only elects itself; the mean path delay, which nothing ever assigns, is zero.
- `DeltaNs` on timestamps, `scheduleUtilisationPercent` as a bounded percentage, getters, health metrics, per-port clock datasets and MAC addresses of streams.
- Calls from more than one thread.
