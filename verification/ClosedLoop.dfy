/**
  Driver, bus and motors as one machine. Each event is one locked section, one received frame, one
  timer tick, or one frame lost by the bus; the queues keep order but may lose anything.
*/
module ClosedLoop {
  import opened Basics
  import opened CanProtocol
  import opened MotorState
  import opened VirtualMotor
  import opened DriverModel
  import opened DriverInvariants
  import R = DriverRuns
  import C = AckChannel

  datatype Setup = Setup(cfg: Config, ncfg: NodeConfig) {
    predicate Valid() {
      cfg.Valid() && ncfg.Valid() && cfg.nodes == ncfg.nodes && cfg.countsPerRev == ncfg.countsPerRev
    }
  }

  /** A frame on its way to the driver; `number` is the attempt an ACK answers and is not on the wire. */
  datatype Reply = AckReply(motor: nat, number: nat, frame: CanFrame) | Other(frame: CanFrame)

  datatype Loop = Loop(
    drv: Driver,
    node: Node,
    toMotor: seq<Attempt>,           // command frames the sender accepted, in order
    toDriver: seq<Reply>,            // frames for the driver's receiver, in order
    reading: bool,                   // inside the drain loop of `read`
    budget: nat,
    clock: int,
    stops: Pair<nat>,                // attempts that were the latest activation's stops
    applied: Pair<set<nat>>,         // attempts each motor has applied
    verdicts: Pair<seq<C.Verdict>>,  // ACKs the driver has taken in this session
    readSince: bool,                 // a read has finished since the latest write
    lastSent: Pair<int>)             // clock of the latest run frames

  datatype Event =
    | SetCommand(i: nat, v: real)
    | Activate(open: bool, ok: Pair<bool>, now: int)
    | BeginRead(ok: Pair<bool>)
    | Receive(now: int, ok: Pair<bool>)
    | ReceiveFails(ok: Pair<bool>)
    | FinishRead(now: int, ok: Pair<bool>)
    | Write(sent: Pair<bool>, at: Pair<int>, ok: Pair<bool>)
    | Release(ok: Pair<bool>)
    | Deliver(now: int)
    | Update(now: int)
    | Publish(at: Pair<int>)
    | LoseCommand(j: nat)
    | LoseReply(j: nat)
    | Noise(frame: CanFrame)

  predicate NotAck(nodes: Pair<byte>, frame: CanFrame) {
    frame.Data? ==> frame.id != AckId(nodes.left) && frame.id != AckId(nodes.right)
  }

  predicate Admissible(s: Setup, l: Loop, e: Event) {
    match e
    case SetCommand(i, _) => i < 2
    case Activate(_, _, now) => !l.reading && l.clock <= now
    case BeginRead(_) => !l.reading
    case Receive(now, _) => l.reading && l.budget > 0 && l.toDriver != [] && l.clock <= now
    case ReceiveFails(_) => l.reading && l.budget > 0
    case FinishRead(now, _) => l.reading && l.clock <= now
    case Write(_, at, _) => !l.reading && l.clock <= at.left <= at.right
    case Release(_) => !l.reading
    case Deliver(now) => l.toMotor != [] && l.toMotor[0].motor < 2 && l.clock <= now
    case Update(now) => l.clock <= now
    case Publish(at) => l.clock <= at.left <= at.right
    case LoseCommand(j) => j < |l.toMotor|
    case LoseReply(j) => j < |l.toDriver|
    case Noise(frame) => NotAck(s.cfg.nodes, frame)
  }

  function Delivered(log: seq<Attempt>): seq<Attempt>
    decreases |log|
  {
    if log == [] then [] else (if log[0].success then [log[0]] else []) + Delivered(log[1..])
  }

  function Others(frames: seq<CanFrame>): seq<Reply> {
    seq(|frames|, k requires 0 <= k < |frames| => Other(frames[k]))
  }

  /** The driver moves to `d`; what its sender accepted on the way is now on the bus. */
  function Driven(l: Loop, d: Driver): Loop {
    l.(drv := d,
       toMotor := l.toMotor + (if |l.drv.log| <= |d.log| then Delivered(d.log[|l.drv.log|..]) else []))
  }

  /** The verdict on the ACK at the front of the receiver. */
  function Judge(l: Loop, i: nat, number: nat): C.Verdict
    requires i < 2
  {
    var pending := l.drv.health.pending.At(i);
    C.Verdict(number, l.drv.health.AckReceived(i, WireSequence(number), 0).1,
              C.Max0(CountFor(l.drv.log, i) - |pending| + 1), |pending|, number in l.applied.At(i))
  }

  function Take(s: Setup, l: Loop, at: int, ok: Pair<bool>): Loop
    requires l.toDriver != []
  {
    var reply := l.toDriver[0];
    var popped := l.(toDriver := l.toDriver[1..], budget := if l.budget == 0 then 0 else l.budget - 1, clock := at);
    if l.drv.IsFatal(reply.frame) then
      Driven(popped.(reading := false), l.drv.OnFatal(reply.frame, ok))
    else
      popped.(drv := l.drv.OnFrame(s.cfg, reply.frame, at),
              verdicts := if reply.AckReply? && reply.motor < 2
                          then l.verdicts.With(reply.motor, l.verdicts.At(reply.motor) + [Judge(l, reply.motor, reply.number)])
                          else l.verdicts)
  }

  /** The motor process takes the command at the front: lost to fault injection, or applied and acknowledged. */
  function Arrive(s: Setup, l: Loop, now: int): Loop
    requires l.toMotor != [] && l.toMotor[0].motor < 2
  {
    var a := l.toMotor[0];
    var (n, out) := l.node.Receive(s.ncfg, a.Frame(s.cfg), now);
    l.(node := n, clock := now, toMotor := l.toMotor[1..],
       toDriver := l.toDriver + (if out == [] then [] else [AckReply(a.motor, a.number, out[0])]),
       applied := if out == [] then l.applied else l.applied.With(a.motor, l.applied.At(a.motor) + {a.number}))
  }

  function Step(s: Setup, l: Loop, e: Event): Loop
    requires Admissible(s, l, e)
  {
    match e
    case SetCommand(i, v) => l.(drv := l.drv.SetCommand(i, v))
    case Activate(open, ok, now) =>
      var d := l.drv.Activate(open, ok, now).0;
      Driven(l, d).(toDriver := if open then [] else l.toDriver, clock := now, readSince := true,
                    stops := Pair(CountFor(d.log, 0), CountFor(d.log, 1)), verdicts := Pair([], []))
    case BeginRead(ok) =>
      var (d, proceed) := l.drv.BeginRead(ok);
      Driven(l, d).(reading := proceed, budget := MAX_FRAMES_PER_READ)
    case Receive(now, ok) => Take(s, l, now, ok)
    case ReceiveFails(ok) => Driven(l, l.drv.OnFailure(ok)).(reading := false)
    case FinishRead(now, ok) => Driven(l, l.drv.FinishRead(s.cfg, now, ok)).(reading := false, clock := now, readSince := true)
    case Write(sent, at, ok) => Driven(l, l.drv.Write(sent, at, ok).0).(clock := at.right, readSince := false, lastSent := at)
    case Release(ok) => Driven(l, l.drv.Release(ok).0)
    case Deliver(now) => Arrive(s, l, now)
    case Update(now) =>
      var (n, out) := l.node.Update(s.ncfg, now);
      l.(node := n, toDriver := l.toDriver + Others(out), clock := now)
    case Publish(at) =>
      var (n, out) := l.node.Publish(s.ncfg, at);
      l.(node := n, toDriver := l.toDriver + Others(out), clock := at.right)
    case LoseCommand(j) => l.(toMotor := C.Without(l.toMotor, j))
    case LoseReply(j) => l.(toDriver := C.Without(l.toDriver, j))
    case Noise(frame) => l.(toDriver := l.toDriver + [Other(frame)])
  }

  ghost predicate Start(l: Loop) {
    && l.drv == Driver.Initial(l.clock)
    && l.node == Node(Pair(Motor.Initial(), Motor.Initial()), Pair(l.clock, l.clock), l.clock, 0, 0, [])
    && l.toMotor == [] && l.toDriver == [] && !l.reading
    && l.applied == Pair({}, {}) && l.verdicts == Pair([], [])
  }

  /** `ls` are the states and `es` the events of a run from start-up. */
  ghost predicate IsRun(s: Setup, ls: seq<Loop>, es: seq<Event>) {
    && s.Valid() && |ls| == |es| + 1 && Start(ls[0])
    && forall k :: 0 <= k < |es| ==> Admissible(s, ls[k], es[k]) && ls[k + 1] == Step(s, ls[k], es[k])
  }

  // ---- What every step keeps -----------------------------------------------------------------------

  predicate CommandOk(a: Attempt) {
    a.motor < 2 && a.sequence == WireSequence(a.number)
  }

  predicate ReplyOk(s: Setup, r: Reply) {
    match r
    case AckReply(i, n, frame) => i < 2 && frame == AckFrame(s.cfg.nodes, i, Ack(WireSequence(n), 0))
    case Other(frame) => NotAck(s.cfg.nodes, frame)
  }

  ghost predicate BusOk(s: Setup, l: Loop) {
    && (forall k :: 0 <= k < |l.toMotor| ==> CommandOk(l.toMotor[k]))
    && (forall k :: 0 <= k < |l.toDriver| ==> ReplyOk(s, l.toDriver[k]))
    && (forall k :: 0 <= k < |l.node.delayed| ==> NotAck(s.cfg.nodes, l.node.delayed[k].frame))
  }

  ghost predicate DriverOk(l: Loop) {
    && Inv(l.drv)
    && (if l.reading then l.drv.state == Active else AtRest(l.drv))
  }

  ghost predicate LoopInv(s: Setup, l: Loop) {
    DriverOk(l) && BusOk(s, l)
  }

  // The driver's side.

  lemma {:induction false} DeliveredFrom(log: seq<Attempt>)
    ensures forall k :: 0 <= k < |Delivered(log)| ==> Delivered(log)[k] in log && Delivered(log)[k].success
    decreases |log|
  {
    if log != [] {
      DeliveredFrom(log[1..]);
      forall k | 0 <= k < |Delivered(log)| ensures Delivered(log)[k] in log && Delivered(log)[k].success {
        if Delivered(log)[k] in log[1..] {
        } else {
          assert Delivered(log)[k] == log[0];
        }
      }
    }
  }

  /** Whatever the driver puts on the bus is numbered and sequenced. */
  lemma DrivenBusOk(s: Setup, l: Loop, d: Driver)
    requires BusOk(s, l) && Inv(d)
    ensures BusOk(s, Driven(l, d))
  {
    if |l.drv.log| <= |d.log| {
      var fresh' := d.log[|l.drv.log|..];
      DeliveredFrom(fresh');
      forall k | 0 <= k < |Delivered(fresh')| ensures CommandOk(Delivered(fresh')[k]) {
        var j :| 0 <= j < |fresh'| && fresh'[j] == Delivered(fresh')[k];
        R.NumberedAt(d.log, |l.drv.log| + j);
      }
    }
  }

  lemma DriverStepOk(s: Setup, l: Loop, e: Event)
    requires s.Valid() && LoopInv(s, l) && Admissible(s, l, e)
    requires e.SetCommand? || e.Activate? || e.BeginRead? || e.ReceiveFails? || e.FinishRead? || e.Write? || e.Release?
    ensures LoopInv(s, Step(s, l, e))
  {
    hide Driver.Activate, Driver.BeginRead, Driver.OnFailure, Driver.FinishRead, Driver.Write, Driver.Release, Inv, BusOk, Driven;
    var d := l.drv;
    match e
    case SetCommand(i, v) => SetCommandKeeps(d, i, v); BusUnmoved(s, l, Step(s, l, e));
    case Activate(open, ok, now) =>
      ActivateKeeps(d, open, ok, now);
      DrivenBusOk(s, l, d.Activate(open, ok, now).0);
      DrivenIs(l, d.Activate(open, ok, now).0);
      BusLess(s, Driven(l, d.Activate(open, ok, now).0), Step(s, l, e));
    case BeginRead(ok) =>
      BeginReadKeeps(d, ok);
      DrivenBusOk(s, l, d.BeginRead(ok).0);
      DrivenIs(l, d.BeginRead(ok).0);
      BusLess(s, Driven(l, d.BeginRead(ok).0), Step(s, l, e));
    case ReceiveFails(ok) =>
      OnFailureKeeps(d, ok);
      DrivenBusOk(s, l, d.OnFailure(ok));
      DrivenIs(l, d.OnFailure(ok));
      BusLess(s, Driven(l, d.OnFailure(ok)), Step(s, l, e));
    case FinishRead(now, ok) =>
      FinishReadKeeps(s.cfg, d, now, ok);
      DrivenBusOk(s, l, d.FinishRead(s.cfg, now, ok));
      DrivenIs(l, d.FinishRead(s.cfg, now, ok));
      BusLess(s, Driven(l, d.FinishRead(s.cfg, now, ok)), Step(s, l, e));
    case Write(sent, at, ok) =>
      WriteKeeps(d, sent, at, ok);
      DrivenBusOk(s, l, d.Write(sent, at, ok).0);
      DrivenIs(l, d.Write(sent, at, ok).0);
      BusLess(s, Driven(l, d.Write(sent, at, ok).0), Step(s, l, e));
    case Release(ok) =>
      ReleaseKeeps(d, ok);
      DrivenBusOk(s, l, d.Release(ok).0);
      DrivenIs(l, d.Release(ok).0);
      BusLess(s, Driven(l, d.Release(ok).0), Step(s, l, e));
  }

  lemma DrivenIs(l: Loop, d: Driver)
    ensures Driven(l, d) == l.(drv := d, toMotor := Driven(l, d).toMotor)
  {
  }

  lemma SetCommandKeeps(d: Driver, i: nat, v: real)
    requires Inv(d) && i < 2
    ensures Inv(d.SetCommand(i, v)) && (AtRest(d) ==> AtRest(d.SetCommand(i, v))) && d.SetCommand(i, v).state == d.state
  {
  }

  lemma BusUnmoved(s: Setup, l: Loop, m: Loop)
    requires BusOk(s, l) && m.toMotor == l.toMotor && m.toDriver == l.toDriver && m.node == l.node
    ensures BusOk(s, m)
  {
  }

  lemma BusLess(s: Setup, l: Loop, m: Loop)
    requires BusOk(s, l) && m.toMotor == l.toMotor && m.node == l.node
    requires m.toDriver == l.toDriver || m.toDriver == []
    ensures BusOk(s, m)
  {
  }

  // The motors' side.

  /** A frame the driver sends always decodes at its own motor: it is dropped by fault injection or obeyed and acknowledged. */
  lemma OwnCommandsDecode(s: Setup, n: Node, a: Attempt, now: int)
    requires s.Valid() && CommandOk(a)
    ensures var (m, out) := n.Receive(s.ncfg, a.Frame(s.cfg), now);
      var counted := n.(commandCount := n.commandCount + 1);
      if s.ncfg.DropsCommand(a.motor, n.commandCount + 1) then m == counted && out == []
      else
        && out == [AckFrame(s.cfg.nodes, a.motor, Ack(a.sequence, 0))]
        && m == counted.(motors := n.motors.With(a.motor, Obey(n.motors.At(a.motor),
                           Command(a.sequence, a.enabled, a.velocity, s.cfg.watchdogMs))),
                         lastCommand := n.lastCommand.With(a.motor, now))
  {
    hide Obey, EncodeCommand, DecodeCommand, EncodeAck;
    CommandDecodesEncoding(a.sequence, a.enabled, a.velocity, s.cfg.watchdogMs);
    IdentifiersDisjoint(s.cfg.nodes, 0, 1);
  }

  lemma ArriveOk(s: Setup, l: Loop, now: int)
    requires s.Valid() && LoopInv(s, l) && Admissible(s, l, Deliver(now))
    ensures LoopInv(s, Step(s, l, Deliver(now)))
  {
    hide Node.Receive, AckFrame, Obey, WireSequence, Inv, AtRest;
    assert CommandOk(l.toMotor[0]);
    OwnCommandsDecode(s, l.node, l.toMotor[0], now);
  }

  lemma FeedbackIsNotAck(s: Setup, i: nat, f: Feedback, dlc: nat)
    requires s.Valid() && i < 2
    ensures NotAck(s.cfg.nodes, FeedbackFrame(s.ncfg.nodes, i, f, dlc))
  {
    IdentifiersDisjoint(s.cfg.nodes, i, 0);
    IdentifiersDisjoint(s.cfg.nodes, i, 1);
  }

  lemma PublishOneOk(s: Setup, n: Node, i: nat, f: Feedback, at: int)
    requires s.Valid() && i < 2 && forall k :: 0 <= k < |n.delayed| ==> NotAck(s.cfg.nodes, n.delayed[k].frame)
    ensures var (m, out) := n.PublishOne(s.ncfg, i, f, at);
      && (forall k :: 0 <= k < |m.delayed| ==> NotAck(s.cfg.nodes, m.delayed[k].frame))
      && (forall k :: 0 <= k < |out| ==> NotAck(s.cfg.nodes, out[k]))
      && m == n.(feedbackCount := n.feedbackCount + 1, delayed := m.delayed)
  {
    hide FeedbackFrame, NotAck;
    FeedbackIsNotAck(s, i, f, 7);
    FeedbackIsNotAck(s, i, f, 8);
    ErrorIsNotAck(s);
  }

  lemma ErrorIsNotAck(s: Setup)
    ensures NotAck(s.cfg.nodes, Error(0x04))
  {
  }

  lemma TimersOk(s: Setup, l: Loop, e: Event)
    requires s.Valid() && LoopInv(s, l) && Admissible(s, l, e) && (e.Update? || e.Publish?)
    ensures LoopInv(s, Step(s, l, e))
  {
    hide SampleOf, Node.MoveMotor, Node.PublishOne, NotAck, CommandOk, Inv, AtRest;
    match e
    case Update(now) =>
    case Publish(at) =>
      var f0, f1 := SampleOf(l.node.motors.left, s.ncfg.countsPerRev), SampleOf(l.node.motors.right, s.ncfg.countsPerRev);
      PublishOneOk(s, l.node, 0, f0, at.left);
      PublishOneOk(s, l.node.PublishOne(s.ncfg, 0, f0, at.left).0, 1, f1, at.right);
  }

  // The bus.

  lemma BusStepOk(s: Setup, l: Loop, e: Event)
    requires s.Valid() && LoopInv(s, l) && Admissible(s, l, e) && (e.LoseCommand? || e.LoseReply? || e.Noise?)
    ensures LoopInv(s, Step(s, l, e))
  {
    hide NotAck, CommandOk, AckFrame, Inv, AtRest;
  }

  lemma TakeOk(s: Setup, l: Loop, now: int, ok: Pair<bool>)
    requires s.Valid() && LoopInv(s, l) && Admissible(s, l, Receive(now, ok))
    ensures LoopInv(s, Step(s, l, Receive(now, ok)))
  {
    hide Driver.OnFatal, Driver.OnFrame, Inv, Judge, CommandOk, ReplyOk, NotAck, Driven;
    var frame := l.toDriver[0].frame;
    if l.drv.IsFatal(frame) {
      var popped := l.(toDriver := l.toDriver[1..], budget := l.budget - 1, clock := now, reading := false);
      OnFatalKeeps(l.drv, frame, ok);
      DrivenBusOk(s, popped, l.drv.OnFatal(frame, ok));
      DrivenIs(popped, l.drv.OnFatal(frame, ok));
    } else {
      OnFrameKeeps(s.cfg, l.drv, frame, now);
    }
  }

  lemma StepOk(s: Setup, l: Loop, e: Event)
    requires s.Valid() && LoopInv(s, l) && Admissible(s, l, e)
    ensures LoopInv(s, Step(s, l, e))
  {
    hide LoopInv, Take, Arrive, Driven;
    match e
    case Receive(now, ok) => TakeOk(s, l, now, ok);
    case Deliver(now) => ArriveOk(s, l, now);
    case Update(_) => TimersOk(s, l, e);
    case Publish(_) => TimersOk(s, l, e);
    case LoseCommand(_) => BusStepOk(s, l, e);
    case LoseReply(_) => BusStepOk(s, l, e);
    case Noise(_) => BusStepOk(s, l, e);
    case _ => DriverStepOk(s, l, e);
  }

  lemma {:induction false} RunOk(s: Setup, ls: seq<Loop>, es: seq<Event>, k: nat)
    requires IsRun(s, ls, es) && k <= |es|
    ensures LoopInv(s, ls[k])
  {
    if k == 0 {
      InitialInv(ls[0].clock);
    } else {
      RunOk(s, ls, es, k - 1);
      StepOk(s, ls[k - 1], es[k - 1]);
    }
  }

  // ---- Each motor's share of an active session is an ACK channel ----------------------------------------

  /** Which attempt of which motor a frame stands for; motor 2 for a frame that is no ACK. */
  datatype Tag = Tag(motor: nat, number: nat)

  function CommandTags(q: seq<Attempt>): seq<Tag> {
    seq(|q|, k requires 0 <= k < |q| => Tag(q[k].motor, q[k].number))
  }

  function ReplyTags(q: seq<Reply>): seq<Tag> {
    seq(|q|, k requires 0 <= k < |q| => if q[k].AckReply? then Tag(q[k].motor, q[k].number) else Tag(2, 0))
  }

  /** The numbers of motor `i`, in order. */
  function Pick(tags: seq<Tag>, i: nat): seq<nat>
    decreases |tags|
  {
    if tags == [] then [] else (if tags[0].motor == i then [tags[0].number] else []) + Pick(tags[1..], i)
  }

  function ChannelOf(l: Loop, i: nat): C.Channel
    requires i < 2
  {
    C.Channel(CountFor(l.drv.log, i), l.stops.At(i), l.drv.health.pending.At(i), l.drv.health.ignored.At(i),
              Pick(CommandTags(l.toMotor), i), Pick(ReplyTags(l.toDriver), i), l.applied.At(i), l.verdicts.At(i))
  }

  lemma {:induction false} PickAppend(a: seq<Tag>, b: seq<Tag>, i: nat)
    ensures Pick(a + b, i) == Pick(a, i) + Pick(b, i)
    decreases |a|
  {
    if a == [] {
      assert a + b == b;
    } else {
      assert (a + b)[1..] == a[1..] + b && (a + b)[0] == a[0];
      PickAppend(a[1..], b, i);
      var here := if a[0].motor == i then [a[0].number] else [];
      assert here + (Pick(a[1..], i) + Pick(b, i)) == here + Pick(a[1..], i) + Pick(b, i);
    }
  }

  lemma PickWithout(tags: seq<Tag>, j: nat, i: nat)
    requires j < |tags|
    ensures var at := |Pick(tags[..j], i)|;
      if tags[j].motor == i
      then at < |Pick(tags, i)| && Pick(tags, i)[at] == tags[j].number
        && Pick(C.Without(tags, j), i) == C.Without(Pick(tags, i), at)
      else Pick(C.Without(tags, j), i) == Pick(tags, i)
  {
    var before, here, after := tags[..j], [tags[j]], tags[j + 1..];
    assert tags == before + (here + after);
    PickAppend(before, here + after, i);
    PickAppend(here, after, i);
    PickAppend(before, after, i);
    assert Pick(here, i) == if tags[j].motor == i then [tags[j].number] else [];
  }
}
