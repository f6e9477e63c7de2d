# vcan_diffbot_demo: verified model

A differential-drive robot is driven over CAN: a `ros2_control` hardware driver sends each of two
motors one velocity command per control cycle, and a process that simulates the motors applies the
command, acknowledges it, and reports feedback from a timer. This project models that closed loop and
proves what its safety rests on. `dafny verify dfyconfig.toml` checks everything.

The main results, each over every run, every input or every interleaving:

- ACK protocol. The driver matches ACKs by an 8-bit sequence over queues that keep order but may lose
  anything. Every attempt gets an unbounded ghost number; with at most 256 commands pending, matching
  by sequence is matching by number, an accepted command has been obeyed, a lost command is never
  popped, and a lossless link never raises an alarm. A control loop that alternates reads and writes
  keeps the window inside that bound by itself.
- Fault latch. Over any interleaving of activate, read, write, deactivate, shutdown and controller
  writes, with any answers of sockets and sender: latch coherence, the grammar of the frame log,
  sequence continuity, exactly when a shutdown's report is right, no replay of stale commands.
- Motion. Even if every stop frame is lost, a latched robot comes to rest; stopping time is exact and
  stopping distance bounded for every timing of the updates. A held command is reached exactly when
  the ramp allows and is then reported exactly.
- Feedback. Delayed frames are conserved and ordered, the shared drop counter has a known pattern.

## How it is laid out

| file | what it holds |
|---|---|
| Basics | optional values, two-element arrays, saturation, `std::round` |
| CanProtocol | byte layout of the three frames, round trips, the in-place buffer code |
| HardwareHealth | ACK window and freshness: value, class, deadline lemmas |
| MotorState | one motor: value, class, ramp and stopping lemmas |
| VirtualMotor | the motor process: value, class with its loops and timers |
| FeedbackPath | delay queue, drop counter, quantisation |
| DriverModel | the driver as a value, one function per callback and helper, with the log of attempts |
| CanMotorHardware | the driver as a class; each callback proved to do what its function says |
| DriverInvariants, DriverRuns | what every callback keeps; theorems over whole runs |
| ReadDecision | the drain loop refines a decision over the received frames |
| AckChannel | one motor's ACK window against lossy in-order queues, by unbounded number |
| ClosedLoop | driver, bus and motors as one machine, and its invariant |
| ChannelSimulation, AckProtocol | every step is a channel action; the ACK theorems |
| Motion, Fidelity | what the closed loop does to the wheels: stopping, reachable velocities, a held command |
| MotorProcess | what the motor process does with what it receives: commands taken, refused, dropped, followed |
| Measurements | where the driver's measurements come from and how close they are |

The classes carry the source's fields and loops. Their methods state the whole new state as a function
of the old one, and the theorems are about those functions. In the closed loop a read is not one step:
each turn of its drain loop is a `Receive` or `ReceiveFails` event, so frames may arrive while it runs;
`CanMotorHardware.DrainUnfolds` shows that the drain consists of exactly those turns.

## Assumptions

- Each locked section, received frame and timer tick is one step. A command and its ACK are one step:
  in the motor process only a timer can run between them, and timers send no ACKs; for an activation
  in that gap the command counts as in flight.
- One monotone clock serves driver and motor process; times are whole nanoseconds.
- For the ACK results only: no activation succeeds while an earlier command is in flight or being
  acknowledged (`AckProtocol.Quiet`). `reset` forgets the pending window while the sequence counters
  go on, so the ACK of such a command is stale; `AckProtocol.StaleAckAlarms` says on every run exactly
  when it is UNEXPECTED. Frames still in the old receiver are gone with it.
- Sockets, the sender's answers, receptions and the clock are arbitrary inputs.
- Nobody else sends commands or ACKs under these motors' identifiers; the driver may receive any other frame.
- The configuration is the one the programs accept at start-up: distinct node identifiers from 1 to
  127, positive timeouts, counts and acceleration.

Where design notes and code differ, the model follows the code: the notes
(docs/superpowers/specs/2026-07-18-code-review-fixes-design.md, lines 22-33) let a feedback-timeout
episode end when both motors report again and derive the ACK deadline from the watchdog; the code
latches until re-activation and has its own `ack_timeout_ms`. The user documentation (README.md,
lines 202-212) agrees with the code.

## Model

| member | source | states |
|---|---|---|
| AckProtocol.AcceptedMeansApplied | src/vcan_diffbot_demo/src/can_motor_hardware.cpp:434-466 | Over every run with quiet activations and at most 256 commands pending: an ACK is ACCEPTED exactly when it answers, by unwrapped attempt number, the oldest pending command; the motor had obeyed that command at an earlier step; nothing is REJECTED; an IGNORED ACK is the activation stop's or shares its sequence |
| AckProtocol.AppliedMeansObeyed | src/vcan_diffbot_demo/src/virtual_motor_node.cpp:186-200 | Apply before acknowledge: a number is in a motor's applied set only through an earlier step at which that motor took exactly that command |
| AckChannel.AcceptsOldestOnlyExactly | src/vcan_diffbot_demo/include/vcan_diffbot_demo/hardware_health.hpp:63-73 | Matching by the 8-bit sequence is matching by attempt number if and only if the contiguous window holds at most 256 commands |
| AckChannel.StaleAckAlarmsExactly | src/vcan_diffbot_demo/include/vcan_diffbot_demo/hardware_health.hpp:63-83 | In every state of a session, the ACK of an attempt from before it is UNEXPECTED if and only if its number agrees modulo 256 neither with the oldest pending command nor with a stop still awaited; always so within 255 of the latest attempt, while 256 behind the oldest pending command it is ACCEPTED |
| AckChannel.SessionKept | src/vcan_diffbot_demo/include/vcan_diffbot_demo/hardware_health.hpp:41-84 | What that needs, a contiguous window that begins after the stop and a slot that holds at most the stop's sequence, is kept by every action, whatever was in flight at the activation |
| AckProtocol.StaleAckAlarms | src/vcan_diffbot_demo/include/vcan_diffbot_demo/hardware_health.hpp:63-83 | Over every run, also with commands in flight at the activation: a stale ACK the driver takes is classified exactly so |
| AckProtocol.StaleAckEndsSession | src/vcan_diffbot_demo/src/can_motor_hardware.cpp:365-394 | Over every run, once a stale ACK within 255 of the latest attempt has been taken, the driver is not active at any later callback boundary before an activation |
| AckChannel.MatchIsTheTracker | src/vcan_diffbot_demo/include/vcan_diffbot_demo/hardware_health.hpp:55-84 | For a result-0 ACK the tracker's branches amount to matching against one motor's window and ignored slot, and raise the ACK fault exactly on UNEXPECTED |
| AckChannel.ActionKeeps | src/vcan_diffbot_demo/include/vcan_diffbot_demo/hardware_health.hpp:41-84 | Every send, delivery, loss and drain keeps the channel invariant: contiguous window, ascending numbers in flight, every past classification sound |
| AckChannel.LostStaysLost | src/vcan_diffbot_demo/include/vcan_diffbot_demo/hardware_health.hpp:63-83 | A command that is outstanding with neither itself nor its ACK on the bus is never popped by a later ACK |
| AckChannel.LaterAcksAreCaught | src/vcan_diffbot_demo/include/vcan_diffbot_demo/hardware_health.hpp:63-83 | Behind an outstanding command at most one later ACK is not UNEXPECTED, and that one used up the ignored slot |
| ChannelSimulation.StepMoves | src/vcan_diffbot_demo/src/can_motor_hardware.cpp:400-466 | Simulation: inside an active session every step of driver, bus and motors moves each motor's channel by one send, delivery, loss or drain, or not at all |
| ChannelSimulation.ActivateOpens | src/vcan_diffbot_demo/src/can_motor_hardware.cpp:202-217 | A successful activation on a quiet bus opens each motor's channel with an empty window and the stop's sequence in the ignored slot |
| AckProtocol.LossIsCaught | src/vcan_diffbot_demo/include/vcan_diffbot_demo/hardware_health.hpp:63-83 | Over every such run, from the step that loses a tracked command or its ACK, on the bus or to fault injection: the command stays outstanding, and while the driver is still active between callbacks at most one later ACK has been taken; it was IGNORED, the slot is empty and the activation stop's own ACK was never taken |
| AckProtocol.LossMakesLost | src/vcan_diffbot_demo/src/virtual_motor_node.cpp:169-174 | Every such loss leaves the attempt outstanding with neither itself nor its ACK on the bus |
| AckProtocol.LostIsCaught | src/vcan_diffbot_demo/include/vcan_diffbot_demo/hardware_health.hpp:63-83 | The same conclusion from any state with a lost command |
| AckProtocol.LostIsNeverPopped | src/vcan_diffbot_demo/include/vcan_diffbot_demo/hardware_health.hpp:63-83 | Over every such run a lost command stays outstanding until the session ends |
| AckProtocol.NoFalseAlarm | src/vcan_diffbot_demo/include/vcan_diffbot_demo/hardware_health.hpp:41-84 | Over every run with quiet activations that loses nothing: ignored slot then pending numbers equal ACKs in flight then commands in flight, no ACK is REJECTED or UNEXPECTED and no ACK fault is raised, for any queue length |
| AckProtocol.FaultIsSeen | src/vcan_diffbot_demo/include/vcan_diffbot_demo/hardware_health.hpp:55-84 | Over every run of an active driver the ACK fault flag is set if and only if some ACK of this session was UNEXPECTED |
| AckProtocol.WindowIsBounded | src/vcan_diffbot_demo/src/can_motor_hardware.cpp:365-431 | If reads alternate with writes at least p apart, an active driver has at most ack_timeout / p + 2 commands pending per motor, one less after a read |
| AckProtocol.PacedRunsNeverAlias | src/vcan_diffbot_demo/src/can_motor_hardware.cpp:365-431 | So the 256 bound assumed above holds by itself on such runs whenever ack_timeout / p + 2 is at most 256 |
| AckProtocol.PendingIsChronological | src/vcan_diffbot_demo/include/vcan_diffbot_demo/hardware_health.hpp:41-46 | Over every run the pending send times never decrease and lie in the past |
| AckProtocol.NoOverdueAfterRead | src/vcan_diffbot_demo/src/can_motor_hardware.cpp:365-394 | Over every run, a read that finds any pending entry past its deadline, not only the oldest, latches |
| HardwareHealth.FrontDeadlineIsFullScan | src/vcan_diffbot_demo/include/vcan_diffbot_demo/hardware_health.hpp:108-114 | On a chronological FIFO the front-only test holds if and only if some entry is past its deadline |
| HardwareHealth.ChronologicalKept | src/vcan_diffbot_demo/include/vcan_diffbot_demo/hardware_health.hpp:41-73 | Pushes and pops under a monotone clock keep the FIFO chronological |
| HardwareHealth.HardwareHealth.Reset | src/vcan_diffbot_demo/include/vcan_diffbot_demo/hardware_health.hpp:29-39 | Clears windows, slots, statuses, fault and stop flag in place, and restarts both feedback clocks |
| HardwareHealth.HardwareHealth.CommandSent | src/vcan_diffbot_demo/include/vcan_diffbot_demo/hardware_health.hpp:41-46 | In-place push; an index beyond the motors changes nothing |
| HardwareHealth.HardwareHealth.SafeStopSent | src/vcan_diffbot_demo/include/vcan_diffbot_demo/hardware_health.hpp:48-53 | In-place set of the ignored slot |
| HardwareHealth.HardwareHealth.AckReceived | src/vcan_diffbot_demo/include/vcan_diffbot_demo/hardware_health.hpp:55-84 | In-place classification: whole new state and status as specified, all four outcomes and the out-of-range index |
| HardwareHealth.AckOutcomes | src/vcan_diffbot_demo/include/vcan_diffbot_demo/hardware_health.hpp:63-83 | For every tracker, motor, sequence and result, in terms of windows, slots and the fault flag: an ACK for the oldest pending command pops exactly it and is ACCEPTED if its result is 0, else REJECTED with a fault; otherwise one for the awaited stop uses up the slot; any other is UNEXPECTED with a fault; the other motor is untouched |
| HardwareHealth.UnknownMotor | src/vcan_diffbot_demo/include/vcan_diffbot_demo/hardware_health.hpp:41-60 | A motor index out of range: its ACK is UNEXPECTED with a fault, and nothing else about it is recorded or timed |
| HardwareHealth.ResetRestartsDeadlines | src/vcan_diffbot_demo/include/vcan_diffbot_demo/hardware_health.hpp:29-39 | After a reset no feedback is late before its timeout has passed, nothing is pending, no fault and no awaited stop is left |
| HardwareHealth.HardwareHealth.FeedbackReceived | src/vcan_diffbot_demo/include/vcan_diffbot_demo/hardware_health.hpp:121-126 | In-place time stamp; an index beyond the motors changes nothing |
| HardwareHealth.HardwareHealth.MarkStopSent | src/vcan_diffbot_demo/include/vcan_diffbot_demo/hardware_health.hpp:154-157 | In-place flag |
| HardwareHealth.HardwareHealth.AckTimedOut | src/vcan_diffbot_demo/include/vcan_diffbot_demo/hardware_health.hpp:108-114 | Although it looks at the front entry only, on a chronological window it tells whether any pending command of that motor is overdue |
| HardwareHealth.FeedbackDeadline | src/vcan_diffbot_demo/include/vcan_diffbot_demo/hardware_health.hpp:121-144 | Feedback restarts the deadline of its own motor and no other; ACKs and commands touch none; a missed deadline stays missed until that motor reports again |
| HardwareHealth.HardwareHealth.AnyAckTimedOut | src/vcan_diffbot_demo/include/vcan_diffbot_demo/hardware_health.hpp:97-114 | The scan over both motors reports a timeout if and only if some pending entry of either motor is overdue |
| HardwareHealth.HardwareHealth.AnyFeedbackTimedOut | src/vcan_diffbot_demo/include/vcan_diffbot_demo/hardware_health.hpp:128-144 | True if and only if some motor's feedback is too old |
| DriverRuns.LatchCoherence | src/vcan_diffbot_demo/src/can_motor_hardware.cpp:195-264 | At every callback boundary of every run: latched, state safe_stop and a stop reason coincide; active means both sockets open, no ACK fault and no fault stop attempted; inactive means both closed |
| DriverRuns.OnlyActivationUnlatches | src/vcan_diffbot_demo/src/can_motor_hardware.cpp:198-229 | From a latched state a callback clears the latch if and only if it is an activation that succeeds |
| DriverRuns.SessionGrammar | src/vcan_diffbot_demo/src/can_motor_hardware.cpp:400-510 | Over every run the attempts of an activation session read stop0 stop1 (run0 run1)* run0? (stop0 stop1)?; a lone run0 is one that failed itself; an open latched driver has closed with exactly one stop pair |
| DriverRuns.SilentAfterLatch | src/vcan_diffbot_demo/src/can_motor_hardware.cpp:248-254 | Once latched, no sequence of callbacks without an activation sends anything |
| DriverRuns.SequenceContinuity | src/vcan_diffbot_demo/src/can_motor_hardware.cpp:448-458 | Over every run the k-th attempt for a motor carries sequence k mod 256 across sessions and failed sends; while active the pending list is the contiguous run ending at the counter |
| DriverRuns.ShutdownTellsTheTruth | src/vcan_diffbot_demo/src/can_motor_hardware.cpp:497-510 | Over every run deactivation or shutdown succeeds only if the last frame attempted for each motor is a disabled-zero frame the sender accepted |
| DriverRuns.FaultStopIsRemembered | src/vcan_diffbot_demo/src/can_motor_hardware.cpp:480-510 | Over every run, from the read or write that latched an active driver to the next activation call: success of the fault stop is recorded if and only if the last frame attempted for each motor was an accepted stop, and every deactivation or shutdown succeeds exactly then |
| DriverRuns.ReportIsRightExactlyWhen | src/vcan_diffbot_demo/src/can_motor_hardware.cpp:497-510 | The converse of ShutdownTellsTheTruth is false; over every run the report agrees with the last frames if and only if the driver was active, or a fault has latched it since the latest activation call, or both motors were not stopped before; an inactive driver always reports an error |
| DriverRuns.FailureOutcome | src/vcan_diffbot_demo/src/can_motor_hardware.cpp:198-432 | Over every run: a new latch, an activation and a release clear the commands, a new latch marks its stop, and each failing callback leaves its own stop reason |
| DriverRuns.ShutdownAfterDeactivation | src/vcan_diffbot_demo/src/can_motor_hardware.cpp:236-246 | A witness: activated and deactivated with every frame accepted, the driver reports an error on shutdown |
| DriverRuns.ReadAfterRelease | src/vcan_diffbot_demo/src/can_motor_hardware.cpp:255-264 | A released driver that is read sends nothing, latches, and reports an error on the next release |
| DriverRuns.NoStaleCommand | src/vcan_diffbot_demo/src/can_motor_hardware.cpp:198 | Over every run an enabled frame of the current session carries zero or a value written after its activation call, and a write sends exactly the latest such value |
| DriverRuns.RunKeeps | src/vcan_diffbot_demo/src/can_motor_hardware.cpp:195-510 | Every callback keeps the whole driver invariant, on every interleaving with controller writes |
| DriverInvariants.SafeStopKeeps | src/vcan_diffbot_demo/src/can_motor_hardware.cpp:468-478 | A stop attempts both motors whatever the sender answers for the first, and reports whether both were accepted |
| DriverInvariants.ActivateKeeps | src/vcan_diffbot_demo/src/can_motor_hardware.cpp:195-234 | Activation succeeds if and only if sockets opened and both stops were accepted, and otherwise leaves a latched, closed driver |
| DriverInvariants.ActivationRestartsDeadlines | src/vcan_diffbot_demo/src/can_motor_hardware.cpp:205-216 | After a successful activation feedback is late if and only if its timeout has passed since, nothing is pending, no fault is left, and exactly the stops just sent are awaited |
| DriverInvariants.ReleaseKeeps | src/vcan_diffbot_demo/src/can_motor_hardware.cpp:480-510 | Release closes both sockets, leaves the latch as it was, sends a stop pair only from an active session, and is truthful |
| DriverInvariants.ReadKeeps | src/vcan_diffbot_demo/src/can_motor_hardware.cpp:248-398 | A read is OK exactly when the driver is active and unlatched afterwards; a latched driver is untouched |
| DriverInvariants.WriteKeeps | src/vcan_diffbot_demo/src/can_motor_hardware.cpp:400-432 | A write is OK exactly when the driver was active and the sender took both run frames |
| DriverInvariants.OnFrameKeeps | src/vcan_diffbot_demo/src/can_motor_hardware.cpp:276-349 | A drained frame that is not fatal changes measurements, health and an unset reason only |
| ReadDecision.ReadRefinesVerdict | src/vcan_diffbot_demo/src/can_motor_hardware.cpp:266-398 | From an active state, read records exactly the reason a decision over the visible receptions gives (first bad ACK, else lowest motor with feedback before ACK; only a fatal bus error overwrites), is OK exactly when there is none, and then its health is that of the well-formed frames |
| ReadDecision.ReadIsOkExactlyWhen | src/vcan_diffbot_demo/src/can_motor_hardware.cpp:266-398 | Read is OK if and only if the at most 64 drained receptions hold no exception, no fatal error frame and no bad ACK, and afterwards nobody is past a deadline |
| ReadDecision.BadAckStopsRead | src/vcan_diffbot_demo/src/can_motor_hardware.cpp:327-346 | An active driver that can see an ACK which, when it comes, carries a non-zero result for the oldest pending command, or answers nothing awaited, does not return OK, and its reason names that motor and kind unless something earlier or a fatal bus error has given another |
| ReadDecision.FatalFrameStopsRead | src/vcan_diffbot_demo/src/can_motor_hardware.cpp:276-305 | A first fatal error frame makes read fail with bus-off if bit 0x40 is set and transmit timeout otherwise, whatever ACKs came before |
| ReadDecision.QuietStartReadsOk | src/vcan_diffbot_demo/src/can_motor_hardware.cpp:365-397 | After a successful activation a read that receives nothing is OK if and only if the feedback timeout has not passed since |
| DriverModel.Severities | src/vcan_diffbot_demo/include/vcan_diffbot_demo/can_error_policy.hpp:19-25 | On the bits received: fatal if and only if 0x40 or 0x01 is set, harmless if and only if no class bit is, else a warning |
| ReadDecision.ComplaintMeansFault | src/vcan_diffbot_demo/src/can_motor_hardware.cpp:333-346 | The tracker's ACK fault is set if and only if some drained ACK was rejected or unexpected |
| CanMotorHardware.CanMotorHardware.constructor | src/vcan_diffbot_demo/include/vcan_diffbot_demo/can_motor_hardware.hpp:58-74 | Initial field values, inside the invariant of all runs |
| CanMotorHardware.CanMotorHardware.SendCommand | src/vcan_diffbot_demo/src/can_motor_hardware.cpp:434-466 | In place: counter, frame handed over, tracker; the byte frame is the one the log records; the new state is exactly the specified one |
| CanMotorHardware.CanMotorHardware.SendSafeStop | src/vcan_diffbot_demo/src/can_motor_hardware.cpp:468-478 | The loop over both motors does what the specification does, without short-circuit |
| CanMotorHardware.CanMotorHardware.AttemptFaultSafeStop | src/vcan_diffbot_demo/src/can_motor_hardware.cpp:480-495 | One attempt per fault, with the stored answer afterwards |
| CanMotorHardware.CanMotorHardware.OnActivate | src/vcan_diffbot_demo/src/can_motor_hardware.cpp:195-234 | Whole new state and result as specified, and coherence kept |
| CanMotorHardware.CanMotorHardware.StopAndRelease | src/vcan_diffbot_demo/src/can_motor_hardware.cpp:497-510 | Whole new state and result as specified, coherence kept, success only after accepted stops to both motors |
| CanMotorHardware.CanMotorHardware.OnDeactivate | src/vcan_diffbot_demo/src/can_motor_hardware.cpp:236-240 | As stop-and-release |
| CanMotorHardware.CanMotorHardware.OnShutdown | src/vcan_diffbot_demo/src/can_motor_hardware.cpp:242-246 | As stop-and-release |
| CanMotorHardware.CanMotorHardware.Read | src/vcan_diffbot_demo/src/can_motor_hardware.cpp:248-398 | Guards, bounded drain and deadline checks in place: whole new state and result as specified, and coherence kept |
| CanMotorHardware.CanMotorHardware.DrainReceiver | src/vcan_diffbot_demo/src/can_motor_hardware.cpp:266-363 | The 64-turn loop with its early returns equals the recursive drain |
| CanMotorHardware.CanMotorHardware.HearFrame | src/vcan_diffbot_demo/src/can_motor_hardware.cpp:310-349 | The search over both motors routes a frame as specified |
| CanMotorHardware.CanMotorHardware.HearFeedback | src/vcan_diffbot_demo/src/can_motor_hardware.cpp:311-325 | Well-formed feedback sets the motor's velocity, position and freshness; a malformed frame changes nothing |
| CanMotorHardware.CanMotorHardware.HearAck | src/vcan_diffbot_demo/src/can_motor_hardware.cpp:327-348 | A well-formed ACK goes to the tracker; a bad one settles an unset reason |
| CanMotorHardware.CanMotorHardware.CheckDeadlines | src/vcan_diffbot_demo/src/can_motor_hardware.cpp:365-397 | The loop over both deadlines blames and latches as specified |
| CanMotorHardware.CanMotorHardware.Write | src/vcan_diffbot_demo/src/can_motor_hardware.cpp:400-432 | The loop with its early return: whole new state and result as specified, and coherence kept |
| ClosedLoop.OwnCommandsDecode | src/vcan_diffbot_demo/src/virtual_motor_node.cpp:159-200 | A frame the driver sends always decodes at its own motor: it is dropped by fault injection, or obeyed and acknowledged with result 0; no other motor changes |
| ClosedLoop.StepOk | src/vcan_diffbot_demo/src/virtual_motor_node.cpp:149-279 | Every step of the composed machine keeps driver, bus and motor process consistent |
| Motion.TargetDropsAfterLatch | src/vcan_diffbot_demo/src/can_motor_hardware.cpp:388-406 | The robot stops even if every stop frame is lost: once latched with nothing enabled in flight, the first update at which the watchdog of the motor's last accepted command has expired leaves its target at 0, unless an activation succeeds |
| Motion.TargetDropsWithinAPeriod | src/vcan_diffbot_demo/include/vcan_diffbot_demo/motor_state.hpp:56-59 | In terms of the configuration alone: one watchdog period and one millisecond is always enough |
| Motion.WheelComesToRest | src/vcan_diffbot_demo/include/vcan_diffbot_demo/motor_state.hpp:53-70 | From then on, for any timing of the updates, the wheel is at rest exactly from a*t >= abs(v) on, never turns back, and travels at most v^2/(2a) more, unless an activation succeeds |
| Motion.StopFrameStops | src/vcan_diffbot_demo/src/virtual_motor_node.cpp:186-199 | A stop frame that arrives and is not dropped stops its motor's target at once |
| Fidelity.LatchedRobotIsAtRest | src/vcan_diffbot_demo/src/can_motor_hardware.cpp:388-406 | Both together, whatever was commanded: from that update and the ramp time from the fastest wire velocity on, the wheel stands still, unless an activation succeeds |
| MotorState.StoppingDistance | src/vcan_diffbot_demo/include/vcan_diffbot_demo/motor_state.hpp:53-70 | Target 0, every sequence of time steps: sign kept, velocity exactly 0 if and only if a*t >= abs(v0), travel at most v0^2/(2a) in the direction of motion |
| MotorState.RampIsExact | src/vcan_diffbot_demo/include/vcan_diffbot_demo/motor_state.hpp:65-69 | While the target holds, for every partition of time the gap to it is exactly max(0, abs(gap) - a*t) and keeps its sign |
| MotorState.UpdateOutcome | src/vcan_diffbot_demo/include/vcan_diffbot_demo/motor_state.hpp:53-70 | One update, field by field: target 0 and the watchdog flag if the motor is enabled and its command too old, otherwise both left alone; position grows by the new velocity times dt; nothing else |
| MotorState.UpdateRamps | src/vcan_diffbot_demo/include/vcan_diffbot_demo/motor_state.hpp:65-69 | One update closes the gap to the target it leaves by exactly a*dt, or completely, without overshoot; so the one at which the watchdog fires already slows down |
| Motion.CommandIsObeyed | src/vcan_diffbot_demo/src/virtual_motor_node.cpp:186-199 | Over every step at which a motor takes a command: target, enable flag, watchdog and sequence become those of the frame, both fault flags are cleared, the wheel is not moved |
| MotorProcess.FollowsLastCommand | src/vcan_diffbot_demo/include/vcan_diffbot_demo/motor_state.hpp:33-59 | Over every run a motor's target is the velocity of the last command it took, 0 for a stop; an enabled command is cancelled if and only if some update since came at least watchdog + 1 milliseconds after it |
| MotorProcess.ReportNamesLastCommand | src/vcan_diffbot_demo/src/virtual_motor_node.cpp:242-246 | Over every run a report carries the sequence of the last command taken, whether it enabled the motor, and whether the watchdog has fired since |
| MotorProcess.ReportTellsState | src/vcan_diffbot_demo/src/virtual_motor_node.cpp:242-266 | A full-length report decodes to the last sequence and the three flags |
| MotorProcess.PositionIsTurned | src/vcan_diffbot_demo/include/vcan_diffbot_demo/motor_state.hpp:65-69 | Over every run the position is the sum, over the updates, of new velocity times the time since the previous one |
| MotorProcess.MalformedIsRefused | src/vcan_diffbot_demo/src/virtual_motor_node.cpp:176-184 | An undecodable command raises the protocol fault, changes nothing else, and is answered with result 2 at full length, else 1 |
| MotorProcess.OtherFramesAreIgnored | src/vcan_diffbot_demo/src/virtual_motor_node.cpp:155-167 | Frames that are not commands for either motor change nothing, the counter included |
| MotorProcess.ReceivesInOrder | src/vcan_diffbot_demo/src/virtual_motor_node.cpp:149-208 | Receptions without exception are handled in order, each from the state before it, and answers leave in that order |
| MotorProcess.StopsAtFirstFailure | src/vcan_diffbot_demo/src/virtual_motor_node.cpp:203-206 | The first exception ends the thread; nothing after it counts |
| MotorProcess.RunsUntilFailure | src/vcan_diffbot_demo/src/virtual_motor_node.cpp:149-208 | The thread runs on if and only if no exception has come |
| MotorProcess.TimeoutsAreSkipped | src/vcan_diffbot_demo/src/virtual_motor_node.cpp:201-202 | A timeout changes nothing and does not stop the thread |
| MotorProcess.DropsEveryNth | src/vcan_diffbot_demo/src/virtual_motor_node.cpp:169-174 | Over every run without a selected node an arriving command is taken if and only if the interval is 0 or does not divide the number of arrivals |
| MotorProcess.DropsAreCounted | src/vcan_diffbot_demo/src/virtual_motor_node.cpp:169-174 | So arrivals / n commands have been dropped, rounded down, and none if n is 0 |
| MotorProcess.WhichAreDropped | src/vcan_diffbot_demo/src/virtual_motor_node.cpp:169-174 | The selected node loses every command, the other every n-th of all arrivals |
| MotorProcess.NothingDroppedByDefault | src/vcan_diffbot_demo/src/virtual_motor_node.cpp:66-69 | With injection off no command is dropped |
| MotorProcess.InjectedErrorsAreWarnings | src/vcan_diffbot_demo/src/virtual_motor_node.cpp:258-264 | An injected bus error only warns the driver and changes nothing |
| FeedbackPath.PublishOneOutcome | src/vcan_diffbot_demo/src/virtual_motor_node.cpp:250-278 | One motor's turn in a publication, with the intervals as divisibility of the shared counter: drop, injected error, full or short report, sent at once or due exactly the delay later |
| FeedbackPath.CountSaturates | src/vcan_diffbot_demo/include/vcan_diffbot_demo/motor_state.hpp:92-96 | Beyond 32 bits the count stays at the end of its range |
| FeedbackPath.OneRevolution | src/vcan_diffbot_demo/include/vcan_diffbot_demo/motor_state.hpp:87-97 | One revolution of 6.28318530717958647692 is the configured number of counts, in both directions |
| Basics.HalvesAwayFromZero | src/vcan_diffbot_demo/src/can_motor_hardware.cpp:447 | Rounding takes halves away from zero, symmetrically |
| MotorState.HullKept | src/vcan_diffbot_demo/include/vcan_diffbot_demo/motor_state.hpp:33-70 | Every operation keeps target and velocity inside any interval around 0 that holds the accepted targets |
| MotorState.MotorState.Update | src/vcan_diffbot_demo/include/vcan_diffbot_demo/motor_state.hpp:53-70 | Watchdog, early return, clamped ramp and semi-implicit integration in place |
| MotorState.MotorState.AcceptCommand | src/vcan_diffbot_demo/include/vcan_diffbot_demo/motor_state.hpp:33-42 | In-place acceptance |
| MotorState.MotorState.Disable | src/vcan_diffbot_demo/include/vcan_diffbot_demo/motor_state.hpp:44-51 | In-place stop; the watchdog flag is cleared |
| MotorState.MotorState.SetProtocolFault | src/vcan_diffbot_demo/include/vcan_diffbot_demo/motor_state.hpp:121-124 | In-place flag |
| MotorState.MotorState.constructor | src/vcan_diffbot_demo/include/vcan_diffbot_demo/motor_state.hpp:21-31 | A motor at rest, disabled, with the given counts and acceleration |
| MotorState.MotorState.EncoderCount | src/vcan_diffbot_demo/include/vcan_diffbot_demo/motor_state.hpp:87-97 | Rounded, saturated encoder count |
| MotorState.MotorState.Status | src/vcan_diffbot_demo/include/vcan_diffbot_demo/motor_state.hpp:104-114 | A byte below 8 from which each of the three flags can be read back |
| Fidelity.VelocityStaysInHull | src/vcan_diffbot_demo/include/vcan_diffbot_demo/motor_state.hpp:65-69 | Over every run of the closed loop, target and velocity stay in every interval around 0 that holds the velocities the motor has accepted |
| Fidelity.FeedbackNeverClamps | src/vcan_diffbot_demo/src/virtual_motor_node.cpp:237-246 | So over every run the int16 clamp of the feedback never bites |
| Measurements.SteadyStateIsExact | src/vcan_diffbot_demo/src/can_motor_hardware.cpp:317-319 | From the step at which a motor takes a command that is held, while no update comes later than its watchdog allows, the speed gap closes exactly at the full acceleration; and once a*t has reached it, every publication's report sets the driver's velocity, at the step that takes it, to exactly the rounded, clamped command |
| Fidelity.HeldCommandRamps | src/vcan_diffbot_demo/include/vcan_diffbot_demo/motor_state.hpp:65-69 | From the step at which a motor takes a command that is held: the ramp part of it, and that the driver keeps sending the command |
| Measurements.MeasurementIsSampled | src/vcan_diffbot_demo/src/can_motor_hardware.cpp:310-325 | Over every run without forged reports, what the driver has for a motor is the initial zeros or one earlier published sample of that motor |
| Measurements.QueuedWasPublished | src/vcan_diffbot_demo/src/virtual_motor_node.cpp:231-278 | Over every run without forged reports, each report in a queue was sampled from its motor at an earlier publication |
| Measurements.PublicationIsQueued | src/vcan_diffbot_demo/src/virtual_motor_node.cpp:250-278 | A publication that fault injection spares puts the motor's full report into a queue |
| Measurements.SampleIsClose | src/vcan_diffbot_demo/src/virtual_motor_node.cpp:237-246 | A sample in a run is within half a milliradian per second of the wheel's velocity, and within half a count of its position while unsaturated |
| Measurements.WireVelocityIsNearest | src/vcan_diffbot_demo/src/can_motor_hardware.cpp:443-447 | The wire value is within half a milliradian per second of the saturated command |
| Measurements.MeasuredPosition | src/vcan_diffbot_demo/src/can_motor_hardware.cpp:317-319 | The position the driver takes from a feedback frame is within half an encoder count of the motor's, while the count is unsaturated |
| FeedbackPath.DelayedFeedbackConserved | src/vcan_diffbot_demo/src/virtual_motor_node.cpp:224-278 | Over every run: feedback sent, then queued, equals feedback produced and not dropped, in order; due times never decrease; each update leaves exactly the frames not yet due |
| FeedbackPath.FlushIsExact | src/vcan_diffbot_demo/src/virtual_motor_node.cpp:224-228 | On a queue in due order the front-popping flush takes exactly the due frames |
| FeedbackPath.DropsCountPairs | src/vcan_diffbot_demo/src/virtual_motor_node.cpp:250-256 | Over every run publication t drops motor i if and only if n divides 2t + i + 1 |
| FeedbackPath.DropSide | src/vcan_diffbot_demo/src/virtual_motor_node.cpp:250-256 | An even interval never hits the left motor; 1 or 2 silences the right one for ever |
| FeedbackPath.NoTwoDropsInARow | src/vcan_diffbot_demo/src/virtual_motor_node.cpp:250-256 | From an interval of 3 on no motor loses two consecutive publications |
| FeedbackPath.PositionWithinHalfCount | src/vcan_diffbot_demo/include/vcan_diffbot_demo/motor_state.hpp:87-97 | Count and back is at most half a count off, while unsaturated |
| FeedbackPath.WholeVelocityIsExact | src/vcan_diffbot_demo/src/virtual_motor_node.cpp:237-246 | A whole number of milliradians per second is sampled exactly |
| VirtualMotor.VirtualMotorNode.constructor | src/vcan_diffbot_demo/src/virtual_motor_node.cpp:85-109 | Two distinct motors at rest, counters at zero, an empty delay queue |
| VirtualMotor.VirtualMotorNode.ReceiveOne | src/vcan_diffbot_demo/src/virtual_motor_node.cpp:155-200 | In place: search, counter, fault injection, protocol fault, apply, then the ACK to send |
| VirtualMotor.VirtualMotorNode.ReceiveLoop | src/vcan_diffbot_demo/src/virtual_motor_node.cpp:149-208 | The loop over receptions equals the fold of one-frame steps and stops at the first exception |
| VirtualMotor.VirtualMotorNode.Update | src/vcan_diffbot_demo/src/virtual_motor_node.cpp:210-229 | Both motors move, then the due frames leave |
| VirtualMotor.VirtualMotorNode.FlushDelayed | src/vcan_diffbot_demo/src/virtual_motor_node.cpp:224-228 | The popping loop sends the due prefix and keeps the rest |
| VirtualMotor.VirtualMotorNode.PublishFeedback | src/vcan_diffbot_demo/src/virtual_motor_node.cpp:231-279 | Sampling before reporting; drops, injected errors, malformed length and delay as specified |
| CanProtocol.CommandDecodesEncoding | src/vcan_diffbot_demo/include/vcan_diffbot_demo/can_protocol.hpp:98-122 | Decode of encode gives the saturated velocity and everything else unchanged |
| CanProtocol.CommandLayout | src/vcan_diffbot_demo/include/vcan_diffbot_demo/can_protocol.hpp:16-112 | Identifier and bytes of a command frame by position: little-endian values modulo their width, unused bytes zero |
| CanProtocol.FeedbackLayout | src/vcan_diffbot_demo/include/vcan_diffbot_demo/can_protocol.hpp:21-132 | Identifier and bytes of a feedback frame by position |
| CanProtocol.AckLayout | src/vcan_diffbot_demo/include/vcan_diffbot_demo/can_protocol.hpp:26-149 | Identifier and bytes of an ACK frame by position |
| CanProtocol.CommandEncodesDecoding | src/vcan_diffbot_demo/include/vcan_diffbot_demo/can_protocol.hpp:98-122 | A frame decodes exactly when its length and reserved bytes are right, and re-encoding only clears unused flag bits |
| CanProtocol.FeedbackRoundTrip | src/vcan_diffbot_demo/include/vcan_diffbot_demo/can_protocol.hpp:124-141 | Encode and decode are mutually inverse on all full-length frames |
| CanProtocol.AckRoundTrip | src/vcan_diffbot_demo/include/vcan_diffbot_demo/can_protocol.hpp:143-163 | Encode and decode are mutually inverse on the frames that decode |
| CanProtocol.IdentifiersDisjoint | src/vcan_diffbot_demo/include/vcan_diffbot_demo/can_protocol.hpp:16-29 | No identifier serves two purposes or two motors |
| CanProtocol.PutU16 | src/vcan_diffbot_demo/include/vcan_diffbot_demo/can_protocol.hpp:56-60 | Two bytes written in place, nothing else |
| CanProtocol.PutI16 | src/vcan_diffbot_demo/include/vcan_diffbot_demo/can_protocol.hpp:62-65 | Two bytes of the two's complement written in place, nothing else |
| CanProtocol.PutI32 | src/vcan_diffbot_demo/include/vcan_diffbot_demo/can_protocol.hpp:67-73 | Four bytes written in place by the loop, nothing else |
| CanProtocol.GetI32 | src/vcan_diffbot_demo/include/vcan_diffbot_demo/can_protocol.hpp:87-94 | The joining loop gives the two's-complement value |
| CanProtocol.EncodeCommandFrame | src/vcan_diffbot_demo/include/vcan_diffbot_demo/can_protocol.hpp:98-112 | The in-place encoder yields the specified bytes |
| CanProtocol.EncodeFeedbackFrame | src/vcan_diffbot_demo/include/vcan_diffbot_demo/can_protocol.hpp:124-132 | The in-place encoder yields the specified bytes |
| CanProtocol.DecodeAckFrame | src/vcan_diffbot_demo/include/vcan_diffbot_demo/can_protocol.hpp:151-163 | The scan of the reserved bytes equals the specified decoder |

## Left out

- ROS plumbing: plugin registration, parameter parsing and its exceptions, interface export, launch files, scripts, tests.
- The configuration checks of `on_init`, of the node constructor and of the `MotorState` constructor: taken as preconditions.
- SocketCAN calls, socket options and kernel filters: opening, sending and receiving are arbitrary answers, the bus is a pair of queues.
- Diagnostics publishing and its rate limit, log text, `last_can_error_`; `stop_reason_` and `diagnostic_state_` are enumerations.
- The text tables and filter builders for CAN errors; error frames keep their class bits and the severity test.
- The plain accessors and `feedback_age`, which would only add easy members.
- IEEE rounding, NaN and infinity: `double` is an exact real; `std::round` and `llround` round halves away from zero.
- Real threads: the model has no torn reads and no step between a command and its ACK.
- The 64-bit command and feedback counters of the motor process are unbounded.
- A send that fails in the motor process is modelled as a frame the bus loses.
- `std::array` of two is a pair of values; the feedback time stamp of the closed loop is the time of its receive event.
- Bytes are joined by sums where the source uses a bitwise or of disjoint bits.
- Liveness of timers and threads: theorems about time speak of the updates that happen.
- Measurements.SteadyStateIsExact: starts at a frame with the held command that the motor takes, and assumes that later ones arrive within the watchdog period, because a lossy bus promises neither.
