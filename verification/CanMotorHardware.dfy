/**
  The hardware driver as it runs (can_motor_hardware.cpp): callbacks that update its fields in place.
  Each one is proved to do to the fields exactly what its function in DriverModel does to the value,
  so everything proved there over runs holds of these callbacks.
*/
module CanMotorHardware {
  import opened Basics
  import opened CanProtocol
  import opened HardwareHealth
  import opened DriverModel
  import opened DriverInvariants

  /** One turn of the drain loop. */
  lemma DrainUnfolds(d: Driver, cfg: Config, inbox: seq<Reception>, budget: nat, ok: Pair<bool>)
    ensures var (n, early, _) := d.Drain(cfg, inbox, budget, ok);
      if budget == 0 || inbox == [] then n == d && !early
      else match inbox[0]
        case Timeout => n == d && !early
        case Failure => n == d.OnFailure(ok) && early
        case Received(frame, at) =>
          if d.IsFatal(frame) then n == d.OnFatal(frame, ok) && early
          else
            var (n', early', _) := d.OnFrame(cfg, frame, at).Drain(cfg, inbox[1..], budget - 1, ok);
            n == n' && early == early'
  {
    hide Driver.OnFrame, Driver.OnFatal, Driver.OnFailure;
  }

  /** Clearing the fields that opening sets anyway makes no difference to it. */
  lemma OpenedAgain(d: Driver, n: Driver, now: int)
    requires n == d.(commands := Pair(0.0, 0.0), stopAttempted := false, stopSucceeded := false, session := |d.log|)
    ensures n.Opened(now) == d.Opened(now)
  {
  }

  class CanMotorHardware {
    const cfg: Config
    const health: HardwareHealth
    var commands: Pair<real>
    var positions: Pair<real>
    var velocities: Pair<real>
    var sequences: Pair<byte>
    var faultLatched: bool
    var faultStopAttempted: bool
    var faultStopSucceeded: bool
    var stopReason: StopReason
    var diagnosticState: DiagnosticState
    var senderOpen: bool
    var receiverOpen: bool
    var handed: seq<CanFrame>     // every frame handed to the sender, accepted or not
    ghost var log: seq<Attempt>
    ghost var session: nat

    /** The log is what was handed to the sender, frame by frame. */
    ghost predicate Valid()
      reads this
    {
      && |handed| == |log| && session <= |log|
      && forall k :: 0 <= k < |log| ==> log[k].motor < 2 && handed[k] == log[k].Frame(cfg)
    }

    /** What holds between callbacks over every run. */
    ghost predicate Coherent()
      reads this, health
    {
      Valid() && Inv(View()) && AtRest(View())
    }

    ghost function View(): Driver
      reads this, health
    {
      Driver(commands, positions, velocities, sequences, health.View(), faultLatched, faultStopAttempted,
             faultStopSucceeded, stopReason, diagnosticState, senderOpen, receiverOpen, log, session)
    }

    constructor (cfg: Config, now: int)
      requires cfg.Valid()
      ensures Coherent() && View() == Driver.Initial(now) && fresh(health) && this.cfg == cfg && handed == []
    {
      this.cfg := cfg;
      health := new HardwareHealth();
      commands, positions, velocities := Pair(0.0, 0.0), Pair(0.0, 0.0), Pair(0.0, 0.0);
      sequences := Pair(0, 0);
      faultLatched, faultStopAttempted, faultStopSucceeded := false, false, false;
      stopReason, diagnosticState := NoReason, Inactive;
      senderOpen, receiverOpen := false, false;
      handed, log, session := [], [], 0;
      new;
      health.Reset(now);
      InitialInv(now);
    }

    /** The controller writes one command interface. */
    method SetCommand(index: nat, velocity: real)
      requires Valid() && index < 2
      modifies this`commands
      ensures Valid() && View() == old(View()).SetCommand(index, velocity)
      ensures old(Coherent()) ==> Coherent()
    {
      commands := commands.With(index, velocity);
    }

    /** `ok` is the answer of the sender, `now` the clock after it. */
    method SendCommand(index: nat, enabled: bool, velocity: real, track: bool, ok: bool, now: int) returns (sent: bool)
      requires Valid()
      modifies this`sequences, this`handed, this`log, health
      ensures Valid()
      ensures (View(), sent) == old(View()).Send(index, enabled, velocity, track, ok, now)
    {
      hide WireVelocity, EncodeCommand, CountFor;
      if !senderOpen || index >= 2 {
        return false;
      }
      var rounded := WireVelocity(velocity);
      sequences := sequences.With(index, NextSequence(sequences.At(index)));
      var data := EncodeCommandFrame(sequences.At(index), enabled, rounded, cfg.watchdogMs);
      handed := handed + [CommandFrame(cfg.nodes, index, data[..])];
      log := log + [Attempt(index, CountFor(log, index) + 1, sequences.At(index), enabled, rounded, ok)];
      if !ok {
        return false;
      }
      if track {
        health.CommandSent(index, sequences.At(index), now);
      } else {
        health.SafeStopSent(index, sequences.At(index));
      }
      return true;
    }

    method SendSafeStop(ok: Pair<bool>) returns (success: bool)
      requires Valid()
      modifies this`sequences, this`handed, this`log, health
      ensures Valid()
      ensures (View(), success) == old(View()).SendSafeStop(ok)
    {
      hide Driver.Send;
      if !senderOpen {
        return false;
      }
      success := true;
      ghost var first := View().Send(0, false, 0.0, false, ok.left, 0);
      for index := 0 to 2
        invariant Valid()
        invariant index == 0 ==> View() == old(View()) && success
        invariant index == 1 ==> (View(), success) == first
        invariant index == 2 ==> (View(), success) == old(View()).SendSafeStop(ok)
      {
        var sent := SendCommand(index, false, 0.0, false, ok.At(index), 0);
        success := sent && success;
      }
    }

    method AttemptFaultSafeStop(ok: Pair<bool>) returns (stopped: bool)
      requires Valid()
      modifies this`sequences, this`handed, this`log, this`faultStopAttempted, this`faultStopSucceeded, health
      ensures Valid()
      ensures (View(), stopped) == old(View()).AttemptFaultStop(ok)
    {
      hide Driver.SendSafeStop;
      if faultStopAttempted {
        return faultStopSucceeded;
      }
      faultStopAttempted := true;
      health.MarkStopSent();
      faultStopSucceeded := SendSafeStop(ok);
      return faultStopSucceeded;
    }

    /** The common tail of every fault branch, after its stop reason is settled. */
    method LatchFault(ok: Pair<bool>)
      requires Valid()
      modifies this, health
      ensures Valid() && View() == old(View()).Latch(ok) && faultLatched
    {
      hide Driver.AttemptFaultStop;
      commands := Pair(0.0, 0.0);
      faultLatched := true;
      diagnosticState := SafeStop;
      var _ := AttemptFaultSafeStop(ok);
    }

    /** `open` is whether both sockets and the receive filters could be set up; `now` the clock after that. */
    method OnActivate(open: bool, ok: Pair<bool>, now: int) returns (success: bool)
      requires Valid()
      modifies this, health
      ensures Valid()
      ensures (View(), success) == old(View()).Activate(open, ok, now)
      ensures old(Coherent()) ==> Coherent()
    {
      hide Driver.SendSafeStop, Driver.Opened, Inv, AtRest;
      if Inv(View()) && AtRest(View()) {
        ActivateKeeps(View(), open, ok, now);
      }
      ClearForActivation();
      OpenedAgain(old(View()), View(), now);
      success := false;
      if open {
        success := StartSession(ok, now);
      }
      if success {
        Unlatch();
      } else {
        FailActivation();
      }
    }

    method Unlatch()
      requires Valid()
      modifies this`faultLatched, this`faultStopAttempted, this`faultStopSucceeded, this`diagnosticState
      ensures Valid()
      ensures View() == old(View()).(latched := false, stopAttempted := false, stopSucceeded := false, state := Active)
    {
      faultLatched := false;
      faultStopAttempted := false;
      faultStopSucceeded := false;
      diagnosticState := Active;
    }

    method ClearForActivation()
      requires Valid()
      modifies this
      ensures Valid()
      ensures View() == old(View()).(commands := Pair(0.0, 0.0), stopAttempted := false, stopSucceeded := false, session := |log|)
    {
      commands := Pair(0.0, 0.0);
      faultStopAttempted := false;
      faultStopSucceeded := false;
      session := |log|;
    }

    method StartSession(ok: Pair<bool>, now: int) returns (success: bool)
      requires Valid() && commands == Pair(0.0, 0.0) && !faultStopSucceeded && session == |log|
      modifies this, health
      ensures Valid()
      ensures var (d, r) := old(View()).Opened(now).SendSafeStop(ok); success == r && View() == d.(stopSucceeded := r)
    {
      hide Driver.SendSafeStop, Driver.Opened;
      OpenSockets(now);
      faultStopSucceeded := SendSafeStop(ok);
      return faultStopSucceeded;
    }

    /** Both sockets are open: the trackers restart, and the activation stops are about to go out. */
    method OpenSockets(now: int)
      requires Valid() && commands == Pair(0.0, 0.0) && !faultStopSucceeded && session == |log|
      modifies this`senderOpen, this`receiverOpen, this`stopReason, this`faultStopAttempted, health
      ensures Valid() && View() == old(View()).Opened(now)
    {
      senderOpen, receiverOpen := true, true;
      health.Reset(now);
      stopReason := NoReason;
      faultStopAttempted := true;
    }

    method FailActivation()
      requires Valid()
      modifies this`senderOpen, this`receiverOpen, this`faultLatched, this`diagnosticState, this`stopReason
      ensures Valid()
      ensures View() == old(View()).(senderOpen := false, receiverOpen := false, latched := true, state := SafeStop,
                                     reason := ActivationFailed)
    {
      senderOpen, receiverOpen := false, false;
      faultLatched := true;
      diagnosticState := SafeStop;
      stopReason := ActivationFailed;
    }

    method OnDeactivate(ok: Pair<bool>) returns (success: bool)
      requires Valid()
      modifies this, health
      ensures Valid()
      ensures (View(), success) == old(View()).Release(ok)
      ensures old(Coherent()) ==> Coherent() && (success ==> EndsStopped(log))
    {
      success := StopAndRelease(ok);
    }

    method OnShutdown(ok: Pair<bool>) returns (success: bool)
      requires Valid()
      modifies this, health
      ensures Valid()
      ensures (View(), success) == old(View()).Release(ok)
      ensures old(Coherent()) ==> Coherent() && (success ==> EndsStopped(log))
    {
      success := StopAndRelease(ok);
    }

    method StopAndRelease(ok: Pair<bool>) returns (success: bool)
      requires Valid()
      modifies this, health
      ensures Valid()
      ensures (View(), success) == old(View()).Release(ok)
      ensures old(Coherent()) ==> Coherent() && (success ==> EndsStopped(log))
    {
      hide Driver.SendSafeStop, Driver.AttemptFaultStop, Inv, AtRest;
      if Inv(View()) && AtRest(View()) {
        ReleaseKeeps(View(), ok);
      }
      commands := Pair(0.0, 0.0);
      success := FinalStop(ok);
      CloseSockets();
    }

    method CloseSockets()
      requires Valid()
      modifies this`receiverOpen, this`senderOpen, this`diagnosticState
      ensures Valid()
      ensures View() == old(View()).(senderOpen := false, receiverOpen := false,
                                     state := if faultLatched then SafeStop else Inactive)
    {
      receiverOpen := false;
      senderOpen := false;
      diagnosticState := if faultLatched then SafeStop else Inactive;
    }

    /** A latched fault has sent its stop already, or sends it now. */
    method FinalStop(ok: Pair<bool>) returns (success: bool)
      requires Valid()
      modifies this`sequences, this`handed, this`log, this`faultStopAttempted, this`faultStopSucceeded, health
      ensures Valid()
      ensures (View(), success) == if faultLatched then old(View()).AttemptFaultStop(ok) else old(View()).SendSafeStop(ok)
    {
      hide Driver.SendSafeStop;
      if !faultLatched {
        success := SendSafeStop(ok);
      } else if faultStopAttempted {
        success := faultStopSucceeded;
      } else {
        success := AttemptFaultSafeStop(ok);
      }
    }

    /** `inbox` is what the receiver delivers, `now` the clock after the drain. */
    method Read(inbox: seq<Reception>, now: int, ok: Pair<bool>) returns (success: bool)
      requires Valid()
      modifies this, health
      ensures Valid()
      ensures (View(), success) == old(View()).Read(cfg, inbox, now, ok)
      ensures old(Coherent()) ==> Coherent()
    {
      hide Driver.Latch, Driver.FinishRead, Driver.OnFrame, Driver.Drain, Inv, AtRest;
      if Inv(View()) && AtRest(View()) {
        ReadKeeps(cfg, View(), inbox, now, ok);
      }
      if faultLatched {
        return false;
      }
      if !receiverOpen {
        stopReason := CanReceiveUnavailable;
        LatchFault(ok);
        return false;
      }
      var early := DrainReceiver(inbox, ok);
      if early {
        return false;
      }
      success := CheckDeadlines(now, ok);
    }

    /** The bounded drain; the result says whether it made `read` return. */
    method DrainReceiver(inbox: seq<Reception>, ok: Pair<bool>) returns (early: bool)
      requires Valid()
      modifies this, health
      ensures Valid()
      ensures var (d, e, _) := old(View()).Drain(cfg, inbox, MAX_FRAMES_PER_READ, ok); View() == d && early == e
      ensures !early ==> faultLatched == old(faultLatched)
    {
      hide Driver.OnFailure, Driver.OnFatal, Driver.OnFrame, Driver.Drain;
      assert inbox[0..] == inbox;
      for count := 0 to MAX_FRAMES_PER_READ
        invariant Valid() && count <= |inbox| && faultLatched == old(faultLatched)
        invariant var all := old(View()).Drain(cfg, inbox, MAX_FRAMES_PER_READ, ok);
          var rest := View().Drain(cfg, inbox[count..], MAX_FRAMES_PER_READ - count, ok);
          all.0 == rest.0 && all.1 == rest.1
      {
        DrainUnfolds(View(), cfg, inbox[count..], MAX_FRAMES_PER_READ - count, ok);
        if count == |inbox| {
          return false;
        }
        assert inbox[count..][1..] == inbox[count + 1..];
        var over := TakeOne(inbox[count], ok);
        if over {
          return !inbox[count].Timeout?;
        }
      }
      DrainUnfolds(View(), cfg, inbox[MAX_FRAMES_PER_READ..], 0, ok);
      return false;
    }

    /** One reception; the result says whether it ends the drain. */
    method TakeOne(reception: Reception, ok: Pair<bool>) returns (over: bool)
      requires Valid()
      modifies this, health
      ensures Valid()
      ensures match reception
        case Timeout => over && View() == old(View())
        case Failure => over && View() == old(View()).OnFailure(ok)
        case Received(frame, at) =>
          if old(View()).IsFatal(frame) then over && View() == old(View()).OnFatal(frame, ok)
          else !over && View() == old(View()).OnFrame(cfg, frame, at)
      ensures reception.Timeout? || !over ==> faultLatched == old(faultLatched)
    {
      hide Driver.OnFailure, Driver.OnFatal, Driver.OnFrame;
      match reception
      case Timeout =>
        return true;
      case Failure =>
        FailReceive(ok);
        return true;
      case Received(frame, at) =>
        if frame.Error? && Classify(frame.mask & CAN_ERR_MASK) == Fatal {
          FailBus(frame, ok);
          return true;
        }
        HearFrame(frame, at);
        return false;
    }

    method FailReceive(ok: Pair<bool>)
      requires Valid()
      modifies this, health
      ensures Valid() && View() == old(View()).OnFailure(ok)
    {
      hide Driver.Latch;
      if stopReason == NoReason {
        stopReason := CanReceiveError;
      }
      LatchFault(ok);
    }

    method FailBus(frame: CanFrame, ok: Pair<bool>)
      requires Valid() && View().IsFatal(frame)
      modifies this, health
      ensures Valid() && View() == old(View()).OnFatal(frame, ok)
    {
      hide Driver.Latch;
      stopReason := if frame.mask & CAN_ERR_MASK & CAN_ERR_BUSOFF != 0 then CanBusOff else CanTxTimeout;
      LatchFault(ok);
    }

    /** The search for the motor and the kind of a received frame. */
    method HearFrame(frame: CanFrame, at: int)
      requires Valid()
      modifies this, health
      ensures Valid() && View() == old(View()).OnFrame(cfg, frame, at) && faultLatched == old(faultLatched)
    {
      hide Driver.OnFeedback, Driver.OnAck;
      if !frame.Data? {
        return;
      }
      for index := 0 to 2
        invariant Valid() && View() == old(View())
        invariant index >= 1 ==> frame.id != FeedbackId(cfg.nodes.left) && frame.id != AckId(cfg.nodes.left)
        invariant index == 2 ==> frame.id != FeedbackId(cfg.nodes.right) && frame.id != AckId(cfg.nodes.right)
      {
        if frame.id == FeedbackId(cfg.nodes.At(index)) {
          HearFeedback(index, frame.dlc, frame.data, at);
          return;
        }
        if frame.id == AckId(cfg.nodes.At(index)) {
          HearAck(index, frame.dlc, frame.data);
          return;
        }
      }
    }

    method HearFeedback(index: nat, dlc: nat, data: FrameData, at: int)
      requires Valid() && index < 2
      modifies this`positions, this`velocities, health
      ensures Valid() && View() == old(View()).OnFeedback(cfg, index, dlc, data, at)
    {
      hide DecodeFeedback, Radians;
      var feedback := DecodeFeedback(data, dlc);
      if feedback == None {
        return;
      }
      velocities := velocities.With(index, feedback.value.velocity as real / 1000.0);
      positions := positions.With(index, Radians(feedback.value.encoderCount, cfg.countsPerRev));
      health.FeedbackReceived(index, at);
    }

    method HearAck(index: nat, dlc: nat, data: FrameData)
      requires Valid() && index < 2
      modifies this`stopReason, health
      ensures Valid() && View() == old(View()).OnAck(cfg, index, dlc, data)
    {
      hide DecodeAck, Health.AckReceived;
      var ack := DecodeAckFrame(data, dlc);
      if ack == None {
        return;
      }
      var status := health.AckReceived(index, ack.value.sequence, ack.value.result);
      if status == Rejected {
        if stopReason == NoReason {
          stopReason := AckRejectedNode(cfg.nodes.At(index));
        }
      } else if status == Unexpected {
        if stopReason == NoReason {
          stopReason := UnexpectedAckNode(cfg.nodes.At(index));
        }
      }
    }

    /** The faults that the drain left behind, then the deadlines of both motors. */
    method CheckDeadlines(now: int, ok: Pair<bool>) returns (success: bool)
      requires Valid() && !faultLatched
      modifies this, health
      ensures Valid()
      ensures View() == old(View()).FinishRead(cfg, now, ok) && success == !faultLatched
    {
      hide Driver.Latch, Health.FeedbackTimedOut, Health.AckTimedOut;
      var fault := health.ackFault;
      ghost var first := View().BlameMotor(cfg, 0, now);
      for index := 0 to 2
        invariant Valid() && health.View() == old(health.View()) && !faultLatched
        invariant index == 0 ==> View() == old(View()) && fault == health.ackFault
        invariant index == 1 ==> View() == first && fault == (health.ackFault || View().Overdue(cfg, 0, now))
        invariant index == 2 ==> View() == first.BlameMotor(cfg, 1, now)
        invariant index == 2 ==> fault == (health.ackFault || View().Overdue(cfg, 0, now) || View().Overdue(cfg, 1, now))
      {
        if health.FeedbackTimedOut(index, now, cfg.feedbackTimeout) {
          fault := true;
          if stopReason == NoReason {
            stopReason := FeedbackTimeoutNode(cfg.nodes.At(index));
          }
        }
        if health.AckTimedOut(index, now, cfg.ackTimeout) {
          fault := true;
          if stopReason == NoReason {
            stopReason := AckTimeoutNode(cfg.nodes.At(index));
          }
        }
      }
      if fault {
        LatchFault(ok);
      }
      success := !fault;
    }

    /** `sent` and `at` are the sender's answers and the clock for the two run frames. */
    method Write(sent: Pair<bool>, at: Pair<int>, ok: Pair<bool>) returns (success: bool)
      requires Valid()
      modifies this, health
      ensures Valid()
      ensures (View(), success) == old(View()).Write(sent, at, ok)
      ensures old(Coherent()) ==> Coherent()
    {
      hide Driver.Send, Driver.Latch, Inv, AtRest;
      if Inv(View()) && AtRest(View()) {
        WriteKeeps(View(), sent, at, ok);
      }
      if faultLatched {
        return false;
      }
      if !senderOpen {
        stopReason := CanSendUnavailable;
        LatchFault(ok);
        return false;
      }
      ghost var first := View().WriteOne(0, sent.left, at.left, ok);
      for index := 0 to 2
        invariant Valid()
        invariant index == 0 ==> View() == old(View())
        invariant index == 1 ==> (View(), true) == first
        invariant index == 2 ==> (View(), true) == first.0.WriteOne(1, sent.right, at.right, ok) && first.1
      {
        var accepted := SendCommand(index, true, commands.At(index), true, sent.At(index), at.At(index));
        if !accepted {
          if stopReason == NoReason {
            stopReason := CanSendError;
          }
          LatchFault(ok);
          return false;
        }
      }
      return true;
    }
  }
}
