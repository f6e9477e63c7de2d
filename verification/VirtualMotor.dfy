/** The process that simulates both motors on the bus (virtual_motor_node.cpp). */
module VirtualMotor {
  import opened Basics
  import opened CanProtocol
  import opened MotorState

  const NS_PER_SECOND: real := 1_000_000_000.0

  datatype NodeConfig = NodeConfig(
    nodes: Pair<byte>,
    countsPerRev: Positive,
    maxAcceleration: real,
    dropCommandEveryN: nat,
    dropCommandNode: nat,
    dropFeedbackEveryN: nat,
    dropFeedbackNode: nat,
    feedbackDelayMs: nat,
    malformedFeedbackEveryN: nat,
    errorFrameEveryN: nat)
  {
    predicate Valid() {
      ValidNodes(nodes) && maxAcceleration > 0.0
    }

    predicate DropsCommand(i: nat, count: nat)
      requires i < 2
    {
      dropCommandNode == nodes.At(i) || EveryN(dropCommandEveryN, count)
    }

    predicate DropsFeedback(i: nat, count: nat)
      requires i < 2
    {
      dropFeedbackNode == nodes.At(i) || EveryN(dropFeedbackEveryN, count)
    }
  }

  predicate EveryN(interval: nat, count: nat) {
    interval > 0 && count % interval == 0
  }

  /** `duration_cast<milliseconds>`: truncation towards zero. */
  function WholeMs(ns: int): int {
    if ns >= 0 then ns / NS_PER_MS else -((-ns) / NS_PER_MS)
  }

  function Seconds(ns: int): real {
    ns as real / NS_PER_SECOND
  }

  datatype Delayed = Delayed(frame: CanFrame, due: int)

  function FramesOf(queue: seq<Delayed>): seq<CanFrame> {
    seq(|queue|, k requires 0 <= k < |queue| => queue[k].frame)
  }

  /** How many frames the flush pops: it stops at the first one that is not due. */
  function DueCount(queue: seq<Delayed>, now: int): (n: nat)
    ensures n <= |queue|
  {
    if queue != [] && queue[0].due <= now then 1 + DueCount(queue[1..], now) else 0
  }

  /** The motor an identifier addresses, or 2. */
  function MotorOf(nodes: Pair<byte>, id: nat): nat {
    if id == CommandId(nodes.left) then 0 else if id == CommandId(nodes.right) then 1 else 2
  }

  function SampleOf(m: Motor, countsPerRev: int): Feedback {
    Feedback(m.lastSequence, m.Status(),
             ClampInt(Round(m.velocity * 1000.0), INT16_MIN, INT16_MAX), m.EncoderCount(countsPerRev))
  }

  /** The motor after a command that decodes. */
  function Obey(m: Motor, c: Command): Motor {
    var cleared := m.SetProtocolFault(false);
    if c.enabled then cleared.Accept(c.sequence, c.velocity as real / 1000.0, c.watchdogMs)
    else cleared.Disable(c.sequence, c.watchdogMs)
  }

  datatype Node = Node(
    motors: Pair<Motor>,
    lastCommand: Pair<int>,
    lastUpdate: int,
    commandCount: nat,
    feedbackCount: nat,
    delayed: seq<Delayed>)
  {
    /** One received frame: the command is applied before its ACK is sent. */
    function Receive(cfg: NodeConfig, frame: CanFrame, now: int): (Node, seq<CanFrame>) {
      if !frame.Data? then (this, [])
      else
        var i := MotorOf(cfg.nodes, frame.id);
        if i == 2 then (this, [])
        else
          var counted := this.(commandCount := commandCount + 1);
          if cfg.DropsCommand(i, counted.commandCount) then (counted, [])
          else match DecodeCommand(frame.data, frame.dlc)
            case None =>
              (counted.(motors := motors.With(i, motors.At(i).SetProtocolFault(true))),
               [AckFrame(cfg.nodes, i, Ack(frame.data[0], if frame.dlc == 8 then 2 else 1))])
            case Some(c) =>
              (counted.(motors := motors.With(i, Obey(motors.At(i), c)), lastCommand := lastCommand.With(i, now)),
               [AckFrame(cfg.nodes, i, Ack(c.sequence, 0))])
    }

    function MotorTick(i: nat, now: int): Tick
      requires i < 2
    {
      Tick(Seconds(now - lastUpdate), WholeMs(now - lastCommand.At(i)))
    }

    function MoveMotor(cfg: NodeConfig, i: nat, now: int): Motor
      requires i < 2
    {
      var t := MotorTick(i, now);
      motors.At(i).Update(cfg.maxAcceleration, t.dt, t.sinceMs)
    }

    /** The update timer: both motors move, then the due feedback frames leave the queue. */
    function Update(cfg: NodeConfig, now: int): (Node, seq<CanFrame>) {
      var n := DueCount(delayed, now);
      (this.(motors := Pair(MoveMotor(cfg, 0, now), MoveMotor(cfg, 1, now)), lastUpdate := now,
             delayed := delayed[n..]),
       FramesOf(delayed[..n]))
    }

    function PublishOne(cfg: NodeConfig, i: nat, f: Feedback, at: int): (Node, seq<CanFrame>)
      requires i < 2
    {
      var count := feedbackCount + 1;
      var counted := this.(feedbackCount := count);
      if cfg.DropsFeedback(i, count) then (counted, [])
      else
        var noise := if EveryN(cfg.errorFrameEveryN, count) then [Error(0x04)] else [];
        var frame := FeedbackFrame(cfg.nodes, i, f, if EveryN(cfg.malformedFeedbackEveryN, count) then 7 else 8);
        if cfg.feedbackDelayMs == 0 then (counted, noise + [frame])
        else (counted.(delayed := delayed + [Delayed(frame, at + cfg.feedbackDelayMs * NS_PER_MS)]), noise)
    }

    /** The feedback timer: both motors are sampled first, then reported left before right. */
    function Publish(cfg: NodeConfig, at: Pair<int>): (Node, seq<CanFrame>) {
      var (n1, out1) := PublishOne(cfg, 0, SampleOf(motors.left, cfg.countsPerRev), at.left);
      var (n2, out2) := n1.PublishOne(cfg, 1, SampleOf(motors.right, cfg.countsPerRev), at.right);
      (n2, out1 + out2)
    }
  }

  /** The receive loop over a stretch of receptions: final state, still running, frames sent. */
  function ReceiveAll(n: Node, cfg: NodeConfig, inbox: seq<Reception>): (Node, bool, seq<CanFrame>)
    decreases |inbox|
  {
    if inbox == [] then (n, true, [])
    else match inbox[0]
      case Failure => (n, false, [])
      case Timeout => ReceiveAll(n, cfg, inbox[1..])
      case Received(frame, at) =>
        var (n1, out) := n.Receive(cfg, frame, at);
        var (n2, running, more) := ReceiveAll(n1, cfg, inbox[1..]);
        (n2, running, out + more)
  }

  class VirtualMotorNode {
    const cfg: NodeConfig
    const motors: Pair<MotorState>
    var lastCommand: Pair<int>
    var lastUpdate: int
    var commandCount: nat
    var feedbackCount: nat
    var delayedFrames: seq<Delayed>
    var running: bool

    ghost predicate Valid()
      reads this, motors.left, motors.right
    {
      && motors.left != motors.right
      && motors.left.maxAcceleration == motors.right.maxAcceleration == cfg.maxAcceleration
      && motors.left.countsPerRevolution == motors.right.countsPerRevolution == cfg.countsPerRev
    }

    ghost function View(): Node
      reads this, motors.left, motors.right
    {
      Node(Pair(motors.left.View(), motors.right.View()),
           lastCommand, lastUpdate, commandCount, feedbackCount, delayedFrames)
    }

    constructor (cfg: NodeConfig, now: int)
      requires cfg.Valid()
      ensures Valid() && fresh(motors.left) && fresh(motors.right) && this.cfg == cfg && running
      ensures View() == Node(Pair(Motor.Initial(), Motor.Initial()), Pair(now, now), now, 0, 0, [])
    {
      this.cfg := cfg;
      var left := new MotorState(cfg.countsPerRev, cfg.maxAcceleration);
      var right := new MotorState(cfg.countsPerRev, cfg.maxAcceleration);
      motors := Pair(left, right);
      lastCommand := Pair(now, now);
      lastUpdate := now;
      commandCount, feedbackCount, delayedFrames := 0, 0, [];
      running := true;
    }

    method ReceiveOne(frame: CanFrame, now: int) returns (sent: seq<CanFrame>)
      requires Valid()
      modifies this`commandCount, this`lastCommand, motors.left, motors.right
      ensures Valid()
      ensures (View(), sent) == old(View()).Receive(cfg, frame, now)
    {
      if !frame.Data? {
        return [];
      }
      var index := 0;
      while index < 2 && frame.id != CommandId(cfg.nodes.At(index))
        invariant index <= 2
        invariant index >= 1 ==> frame.id != CommandId(cfg.nodes.left)
        invariant index == 2 ==> frame.id != CommandId(cfg.nodes.right)
      {
        index := index + 1;
      }
      if index == 2 {
        return [];
      }
      commandCount := commandCount + 1;
      if cfg.dropCommandNode == cfg.nodes.At(index) || EveryN(cfg.dropCommandEveryN, commandCount) {
        return [];
      }
      var motor := motors.At(index);
      var command := DecodeCommand(frame.data, frame.dlc);
      if command == None {
        motor.SetProtocolFault(true);
        return [AckFrame(cfg.nodes, index, Ack(frame.data[0], if frame.dlc == 8 then 2 else 1))];
      }
      motor.SetProtocolFault(false);
      if command.value.enabled {
        motor.AcceptCommand(command.value.sequence, command.value.velocity as real / 1000.0, command.value.watchdogMs);
      } else {
        motor.Disable(command.value.sequence, command.value.watchdogMs);
      }
      lastCommand := lastCommand.With(index, now);
      return [AckFrame(cfg.nodes, index, Ack(command.value.sequence, 0))];
    }

    /** The receiver thread; `inbox` is what its receiver delivers until the thread is stopped. */
    method ReceiveLoop(inbox: seq<Reception>) returns (sent: seq<CanFrame>)
      requires Valid() && running
      modifies this`commandCount, this`lastCommand, this`running, motors.left, motors.right
      ensures Valid()
      ensures (View(), running, sent) == ReceiveAll(old(View()), cfg, inbox)
    {
      var count := 0;
      sent := [];
      ghost var all := ReceiveAll(View(), cfg, inbox);
      assert inbox[0..] == inbox;
      while running && count < |inbox|
        invariant Valid() && 0 <= count <= |inbox|
        invariant running ==>
          var rest := ReceiveAll(View(), cfg, inbox[count..]);
          all.0 == rest.0 && all.1 == rest.1 && all.2 == sent + rest.2
        invariant !running ==> all.0 == View() && !all.1 && all.2 == sent
        decreases |inbox| - count, running
      {
        ghost var rest := ReceiveAll(View(), cfg, inbox[count..]);
        ghost var was := sent;
        match inbox[count] {
          case Failure =>
            running := false;
          case Timeout =>
          case Received(frame, at) =>
            var out := ReceiveOne(frame, at);
            sent := sent + out;
        }
        count := count + 1;
        assert inbox[count - 1..][1..] == inbox[count..];
        assert running ==> rest.2 == sent[|was|..] + ReceiveAll(View(), cfg, inbox[count..]).2;
      }
      assert sent + [] == sent;
    }

    /** The update timer. */
    method Update(now: int) returns (sent: seq<CanFrame>)
      requires Valid()
      modifies this`lastUpdate, this`delayedFrames, motors.left, motors.right
      ensures Valid()
      ensures (View(), sent) == old(View()).Update(cfg, now)
    {
      hide Motor.Update;
      var dt := Seconds(now - lastUpdate);
      lastUpdate := now;
      motors.left.Update(dt, WholeMs(now - lastCommand.left));
      motors.right.Update(dt, WholeMs(now - lastCommand.right));
      sent := FlushDelayed(now);
    }

    method FlushDelayed(now: int) returns (sent: seq<CanFrame>)
      modifies this`delayedFrames
      ensures sent == FramesOf(old(delayedFrames)[..DueCount(old(delayedFrames), now)])
      ensures delayedFrames == old(delayedFrames)[DueCount(old(delayedFrames), now)..]
    {
      sent := [];
      ghost var queue := delayedFrames;
      ghost var popped := 0;
      while |delayedFrames| != 0 && delayedFrames[0].due <= now
        invariant 0 <= popped <= |queue| && delayedFrames == queue[popped..]
        invariant DueCount(queue, now) == popped + DueCount(delayedFrames, now)
        invariant sent == FramesOf(queue[..popped])
        decreases |delayedFrames|
      {
        var frame := delayedFrames[0].frame;
        delayedFrames := delayedFrames[1..];
        sent := sent + [frame];
        popped := popped + 1;
      }
    }

    /** The feedback timer. */
    method PublishFeedback(at: Pair<int>) returns (sent: seq<CanFrame>)
      requires Valid()
      modifies this`feedbackCount, this`delayedFrames
      ensures Valid()
      ensures (View(), sent) == old(View()).Publish(cfg, at)
    {
      hide SampleOf, EncodeFeedback;
      var left := Sample(motors.left);
      var right := Sample(motors.right);
      var feedback := Pair(left, right);
      ghost var first := View().PublishOne(cfg, 0, SampleOf(View().motors.left, cfg.countsPerRev), at.left);
      sent := [];
      for index := 0 to 2
        invariant Valid()
        invariant index == 0 ==> View() == old(View()) && sent == []
        invariant index == 1 ==> View() == first.0 && sent == first.1
        invariant index == 2 ==> View() == old(View()).Publish(cfg, at).0 && sent == old(View()).Publish(cfg, at).1
      {
        feedbackCount := feedbackCount + 1;
        if !(cfg.dropFeedbackNode == cfg.nodes.At(index) || EveryN(cfg.dropFeedbackEveryN, feedbackCount)) {
          if EveryN(cfg.errorFrameEveryN, feedbackCount) {
            sent := sent + [Error(0x04)];
          }
          var dlc := if EveryN(cfg.malformedFeedbackEveryN, feedbackCount) then 7 else 8;
          var frame := FeedbackFrame(cfg.nodes, index, feedback.At(index), dlc);
          if cfg.feedbackDelayMs == 0 {
            sent := sent + [frame];
          } else {
            delayedFrames := delayedFrames + [Delayed(frame, at.At(index) + cfg.feedbackDelayMs * NS_PER_MS)];
          }
        }
      }
    }

    method Sample(m: MotorState) returns (f: Feedback)
      ensures f == SampleOf(m.View(), m.countsPerRevolution)
    {
      var rawVelocity := Round(m.velocity * 1000.0);
      var status := m.Status();
      var count := m.EncoderCount();
      f := Feedback(m.lastSequence, status, ClampInt(rawVelocity, INT16_MIN, INT16_MAX), count);
    }
  }
}
