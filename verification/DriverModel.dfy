/**
  The hardware driver as a value (can_motor_hardware.hpp and .cpp): its fields, a log of the frames
  it attempted to send, and one function for each callback and helper of the source.
*/
module DriverModel {
  import opened Basics
  import opened CanProtocol
  import opened HardwareHealth

  const MAX_FRAMES_PER_READ: nat := 64
  const CAN_ERR_TX_TIMEOUT: bv32 := 0x01
  const CAN_ERR_BUSOFF: bv32 := 0x40
  const CAN_ERR_MASK: bv32 := 0x1fff_ffff

  datatype Severity = Harmless | Warning | Fatal

  function Classify(mask: bv32): Severity {
    if mask & (CAN_ERR_BUSOFF | CAN_ERR_TX_TIMEOUT) != 0 then Fatal
    else if mask == 0 then Harmless
    else Warning
  }

  /** Which error frames stop the robot, on the bits received: bus-off and transmit timeout; the rest warn, if they say anything. */
  lemma Severities(mask: bv32)
    ensures Classify(mask & CAN_ERR_MASK) == Fatal <==> mask & 0x40 != 0 || mask & 0x01 != 0
    ensures Classify(mask & CAN_ERR_MASK) == Harmless <==> mask & 0x1fff_ffff == 0
    ensures mask & CAN_ERR_MASK & CAN_ERR_BUSOFF != 0 <==> mask & 0x40 != 0
  {
  }

  datatype StopReason =
    | NoReason
    | ActivationFailed
    | CanBusOff
    | CanTxTimeout
    | CanReceiveError
    | CanReceiveUnavailable
    | CanSendError
    | CanSendUnavailable
    | AckRejectedNode(node: byte)
    | UnexpectedAckNode(node: byte)
    | FeedbackTimeoutNode(node: byte)
    | AckTimeoutNode(node: byte)

  datatype DiagnosticState = Inactive | Active | SafeStop

  datatype Config = Config(
    nodes: Pair<byte>, countsPerRev: Positive, watchdogMs: uint16, ackTimeout: int, feedbackTimeout: int)
  {
    predicate Valid() {
      ValidNodes(nodes) && watchdogMs > 0 && ackTimeout > 0 && feedbackTimeout > 0
    }
  }

  /**
    One call of the sender: the fields of the command frame, and whether the sender accepted it.
    `number` is not on the wire: it counts the attempts for this motor from 1 and never wraps.
  */
  datatype Attempt = Attempt(motor: nat, number: nat, sequence: byte, enabled: bool, velocity: int16, success: bool)
  {
    function Frame(cfg: Config): CanFrame
      requires motor < 2
    {
      CommandFrame(cfg.nodes, motor, EncodeCommand(sequence, enabled, velocity, cfg.watchdogMs))
    }
  }

  /** The 8-bit counter: what `++sequences_[index]` stores, and what it shows after `n` attempts. */
  function NextSequence(s: byte): byte { (s + 1) % 0x100 }
  function WireSequence(n: nat): byte { n % 0x100 }

  lemma NextWireSequence(n: nat)
    ensures NextSequence(WireSequence(n)) == WireSequence(n + 1)
  {
  }

  function CountFor(log: seq<Attempt>, i: nat): nat
    decreases |log|
  {
    if log == [] then 0 else CountFor(log[..|log| - 1], i) + (if log[|log| - 1].motor == i then 1 else 0)
  }

  /** A commanded velocity in the unit of the wire: scaled, saturated, rounded. */
  function WireVelocity(v: real): int16 {
    var clamped := Clamp(v * 1000.0, INT16_MIN as real, INT16_MAX as real);
    RoundIsNearest(clamped, INT16_MIN, INT16_MAX);
    Round(clamped)
  }

  datatype Driver = Driver(
    commands: Pair<real>,
    positions: Pair<real>,
    velocities: Pair<real>,
    sequences: Pair<byte>,
    health: Health,
    latched: bool,
    stopAttempted: bool,
    stopSucceeded: bool,
    reason: StopReason,
    state: DiagnosticState,
    senderOpen: bool,
    receiverOpen: bool,
    log: seq<Attempt>,
    session: nat)
  {
    static function Initial(now: int): Driver {
      Driver(Pair(0.0, 0.0), Pair(0.0, 0.0), Pair(0.0, 0.0), Pair(0, 0), Health.Reset(now),
             false, false, false, NoReason, Inactive, false, false, [], 0)
    }

    /** The next frame for motor `i`, as it goes into the log. */
    function NextAttempt(i: nat, enabled: bool, velocity: real, ok: bool): Attempt
      requires i < 2
    {
      Attempt(i, CountFor(log, i) + 1, NextSequence(sequences.At(i)), enabled, WireVelocity(velocity), ok)
    }

    /** `send_command`; `ok` is whether the sender accepts the frame, `now` the clock right after. */
    function Send(i: nat, enabled: bool, velocity: real, track: bool, ok: bool, now: int): (Driver, bool) {
      if !senderOpen || i >= 2 then (this, false)
      else
        var sequence := NextSequence(sequences.At(i));
        var attempted := this.(sequences := sequences.With(i, sequence),
                               log := log + [NextAttempt(i, enabled, velocity, ok)]);
        if !ok then (attempted, false)
        else if track then (attempted.(health := health.CommandSent(i, sequence, now)), true)
        else (attempted.(health := health.SafeStopSent(i, sequence)), true)
    }

    /** `send_safe_stop`: both motors are attempted, whatever happens to the first. */
    function SendSafeStop(ok: Pair<bool>): (Driver, bool) {
      if !senderOpen then (this, false)
      else
        var (d1, ok1) := Send(0, false, 0.0, false, ok.left, 0);
        var (d2, ok2) := d1.Send(1, false, 0.0, false, ok.right, 0);
        (d2, ok2 && ok1)
    }

    function AttemptFaultStop(ok: Pair<bool>): (Driver, bool) {
      if stopAttempted then (this, stopSucceeded)
      else
        var (d, stopped) := this.(stopAttempted := true, health := health.MarkStopSent()).SendSafeStop(ok);
        (d.(stopSucceeded := stopped), stopped)
    }

    /** What every fault branch does once its reason is settled. */
    function Latch(ok: Pair<bool>): Driver {
      this.(commands := Pair(0.0, 0.0), latched := true, state := SafeStop).AttemptFaultStop(ok).0
    }

    function Because(r: StopReason): Driver {
      if reason == NoReason then this.(reason := r) else this
    }

    function SetCommand(i: nat, v: real): Driver
      requires i < 2
    {
      this.(commands := commands.With(i, v))
    }

    /** Both sockets are new and the health tracker is reset, just before the activation stops. */
    function Opened(now: int): Driver {
      this.(commands := Pair(0.0, 0.0), stopAttempted := true, stopSucceeded := false, session := |log|,
            senderOpen := true, receiverOpen := true, health := Health.Reset(now), reason := NoReason)
    }

    /** `on_activate`; `open` is whether both sockets and the filters could be set up. */
    function Activate(open: bool, ok: Pair<bool>, now: int): (Driver, bool) {
      if !open then
        (this.(commands := Pair(0.0, 0.0), stopAttempted := false, stopSucceeded := false, session := |log|,
               senderOpen := false, receiverOpen := false, latched := true, state := SafeStop,
               reason := ActivationFailed), false)
      else
        var (d, stopped) := Opened(now).SendSafeStop(ok);
        if stopped then
          (d.(latched := false, stopAttempted := false, stopSucceeded := false, state := Active), true)
        else
          (d.(stopSucceeded := false, senderOpen := false, receiverOpen := false, latched := true,
              state := SafeStop, reason := ActivationFailed), false)
    }

    /** `stop_and_release`, shared by deactivation and shutdown. */
    function Release(ok: Pair<bool>): (Driver, bool) {
      var quiet := this.(commands := Pair(0.0, 0.0));
      var (d, stopped) := if latched then quiet.AttemptFaultStop(ok) else quiet.SendSafeStop(ok);
      (d.(senderOpen := false, receiverOpen := false, state := if d.latched then SafeStop else Inactive), stopped)
    }

    // ---- read ------------------------------------------------------------------------------

    /** The guards of `read`, and whether it goes on to drain. */
    function BeginRead(ok: Pair<bool>): (Driver, bool) {
      if latched then (this, false)
      else if !receiverOpen then (this.(reason := CanReceiveUnavailable).Latch(ok), false)
      else (this, true)
    }

    function OnFeedback(cfg: Config, i: nat, dlc: nat, data: FrameData, at: int): Driver
      requires i < 2
    {
      match DecodeFeedback(data, dlc)
      case None => this
      case Some(f) =>
        this.(velocities := velocities.With(i, f.velocity as real / 1000.0),
              positions := positions.With(i, Radians(f.encoderCount, cfg.countsPerRev)),
              health := health.FeedbackReceived(i, at))
    }

    function OnAck(cfg: Config, i: nat, dlc: nat, data: FrameData): Driver
      requires i < 2
    {
      match DecodeAck(data, dlc)
      case None => this
      case Some(a) =>
        var (h, status) := health.AckReceived(i, a.sequence, a.result);
        var heard := this.(health := h);
        if status == Rejected then heard.Because(AckRejectedNode(cfg.nodes.At(i)))
        else if status == Unexpected then heard.Because(UnexpectedAckNode(cfg.nodes.At(i)))
        else heard
    }

    predicate IsFatal(frame: CanFrame) {
      frame.Error? && Classify(frame.mask & CAN_ERR_MASK) == Fatal
    }

    /** One frame that does not end the drain. */
    function OnFrame(cfg: Config, frame: CanFrame, at: int): Driver {
      if !frame.Data? then this
      else if frame.id == FeedbackId(cfg.nodes.left) then OnFeedback(cfg, 0, frame.dlc, frame.data, at)
      else if frame.id == AckId(cfg.nodes.left) then OnAck(cfg, 0, frame.dlc, frame.data)
      else if frame.id == FeedbackId(cfg.nodes.right) then OnFeedback(cfg, 1, frame.dlc, frame.data, at)
      else if frame.id == AckId(cfg.nodes.right) then OnAck(cfg, 1, frame.dlc, frame.data)
      else this
    }

    /** A fatal bus error overwrites the reason. */
    function OnFatal(frame: CanFrame, ok: Pair<bool>): Driver
      requires IsFatal(frame)
    {
      this.(reason := if frame.mask & CAN_ERR_MASK & CAN_ERR_BUSOFF != 0 then CanBusOff else CanTxTimeout).Latch(ok)
    }

    /** A receive exception keeps an earlier reason. */
    function OnFailure(ok: Pair<bool>): Driver {
      Because(CanReceiveError).Latch(ok)
    }

    predicate Overdue(cfg: Config, i: nat, now: int) {
      health.FeedbackTimedOut(i, now, cfg.feedbackTimeout) || health.AckTimedOut(i, now, cfg.ackTimeout)
    }

    function BlameMotor(cfg: Config, i: nat, now: int): Driver
      requires i < 2
    {
      var d := if health.FeedbackTimedOut(i, now, cfg.feedbackTimeout)
               then Because(FeedbackTimeoutNode(cfg.nodes.At(i))) else this;
      if health.AckTimedOut(i, now, cfg.ackTimeout) then d.Because(AckTimeoutNode(cfg.nodes.At(i))) else d
    }

    /** The deadline checks after the drain. */
    function FinishRead(cfg: Config, now: int, ok: Pair<bool>): Driver {
      var blamed := BlameMotor(cfg, 0, now).BlameMotor(cfg, 1, now);
      if health.ackFault || Overdue(cfg, 0, now) || Overdue(cfg, 1, now) then blamed.Latch(ok) else blamed
    }

    /** The drain loop: the state it leaves, whether it returned early, and the receptions used. */
    function Drain(cfg: Config, inbox: seq<Reception>, budget: nat, ok: Pair<bool>): (Driver, bool, nat)
      decreases budget
    {
      if budget == 0 || inbox == [] then (this, false, 0)
      else match inbox[0]
        case Timeout => (this, false, 1)
        case Failure => (OnFailure(ok), true, 1)
        case Received(frame, at) =>
          if IsFatal(frame) then (OnFatal(frame, ok), true, 1)
          else
            var (d, early, used) := OnFrame(cfg, frame, at).Drain(cfg, inbox[1..], budget - 1, ok);
            (d, early, used + 1)
    }

    /** `read`; the result says whether it returns OK. */
    function Read(cfg: Config, inbox: seq<Reception>, now: int, ok: Pair<bool>): (Driver, bool) {
      var (d, proceed) := BeginRead(ok);
      if !proceed then (d, false)
      else
        var (drained, early, _) := d.Drain(cfg, inbox, MAX_FRAMES_PER_READ, ok);
        if early then (drained, false)
        else
          var checked := drained.FinishRead(cfg, now, ok);
          (checked, !checked.latched)
    }

    /** One turn of the loop in `write`. */
    function WriteOne(i: nat, sent: bool, at: int, ok: Pair<bool>): (Driver, bool)
      requires i < 2
    {
      var (d, accepted) := Send(i, true, commands.At(i), true, sent, at);
      if accepted then (d, true) else (d.Because(CanSendError).Latch(ok), false)
    }

    /** `write`; `sent` and `at` are the sender's answers and the clock for the two run frames. */
    function Write(sent: Pair<bool>, at: Pair<int>, ok: Pair<bool>): (Driver, bool) {
      if latched then (this, false)
      else if !senderOpen then (this.(reason := CanSendUnavailable).Latch(ok), false)
      else
        var (d, accepted) := WriteOne(0, sent.left, at.left, ok);
        if accepted then d.WriteOne(1, sent.right, at.right, ok) else (d, false)
    }
  }
}
