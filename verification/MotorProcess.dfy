/** What the motor process does with what it receives, over whole runs, in terms of frames, counters and clocks. */
module MotorProcess {
  import opened Basics
  import opened CanProtocol
  import opened MotorState
  import opened VirtualMotor
  import opened DriverModel
  import opened DriverInvariants
  import opened ClosedLoop
  import opened FeedbackPath
  import opened Motion

  // ---- The receive loop --------------------------------------------------------------------------------

  predicate NoFailure(inbox: seq<Reception>) {
    forall k :: 0 <= k < |inbox| ==> !inbox[k].Failure?
  }

  /** What comes after a stretch without exceptions is handled from the state it left, and its ACKs leave after. */
  lemma {:induction false} ReceivesInOrder(n: Node, cfg: NodeConfig, a: seq<Reception>, b: seq<Reception>)
    requires NoFailure(a)
    ensures var first := ReceiveAll(n, cfg, a);
      var rest := ReceiveAll(first.0, cfg, b);
      first.1 && ReceiveAll(n, cfg, a + b) == (rest.0, rest.1, first.2 + rest.2)
    decreases |a|
  {
    hide Node.Receive;
    if a == [] {
      assert a + b == b;
      assert [] + ReceiveAll(n, cfg, b).2 == ReceiveAll(n, cfg, b).2;
    } else {
      assert (a + b)[1..] == a[1..] + b && (a + b)[0] == a[0];
      match a[0]
      case Timeout => ReceivesInOrder(n, cfg, a[1..], b);
      case Received(frame, at) =>
        var (n1, out) := n.Receive(cfg, frame, at);
        ReceivesInOrder(n1, cfg, a[1..], b);
        var more := ReceiveAll(n1, cfg, a[1..]);
        var rest := ReceiveAll(more.0, cfg, b);
        assert out + (more.2 + rest.2) == out + more.2 + rest.2;
    }
  }

  /** An exception ends the thread at once; nothing received later counts. */
  lemma StopsAtFirstFailure(n: Node, cfg: NodeConfig, a: seq<Reception>, b: seq<Reception>)
    requires NoFailure(a)
    ensures var all := ReceiveAll(n, cfg, a + [Failure] + b);
      !all.1 && all.0 == ReceiveAll(n, cfg, a).0 && all.2 == ReceiveAll(n, cfg, a).2
  {
    assert a + [Failure] + b == a + ([Failure] + b);
    ReceivesInOrder(n, cfg, a, [Failure] + b);
    assert ReceiveAll(n, cfg, a).2 + [] == ReceiveAll(n, cfg, a).2;
  }

  /** A timeout changes nothing. */
  lemma TimeoutsAreSkipped(n: Node, cfg: NodeConfig, a: seq<Reception>, b: seq<Reception>)
    requires NoFailure(a)
    ensures ReceiveAll(n, cfg, a + [Timeout] + b) == ReceiveAll(n, cfg, a + b)
  {
    assert a + [Timeout] + b == a + ([Timeout] + b);
    ReceivesInOrder(n, cfg, a, [Timeout] + b);
    ReceivesInOrder(n, cfg, a, b);
    assert ([Timeout] + b)[1..] == b;
  }

  /** The thread is still running exactly when no exception has come. */
  lemma {:induction false} RunsUntilFailure(n: Node, cfg: NodeConfig, inbox: seq<Reception>)
    ensures ReceiveAll(n, cfg, inbox).1 <==> NoFailure(inbox)
    decreases |inbox|
  {
    hide Node.Receive;
    if inbox != [] {
      match inbox[0]
      case Failure =>
      case Timeout => RunsUntilFailure(n, cfg, inbox[1..]);
      case Received(frame, at) => RunsUntilFailure(n.Receive(cfg, frame, at).0, cfg, inbox[1..]);
    }
  }

  // ---- Commands that do not decode ------------------------------------------------------------------------

  /**
    A command of the wrong length or with a reserved byte set raises the protocol fault of its motor and
    changes nothing else of it, restarts no watchdog, and is refused with result 2 at full length, else 1.
  */
  lemma MalformedIsRefused(s: Setup, n: Node, i: nat, dlc: nat, data: FrameData, now: int)
    requires s.Valid() && i < 2 && (dlc != 8 || data[6] != 0 || data[7] != 0)
    requires !s.ncfg.DropsCommand(i, n.commandCount + 1)
    ensures var (m, out) := n.Receive(s.ncfg, Data(CommandId(s.ncfg.nodes.At(i)), dlc, data), now);
      && out == [AckFrame(s.ncfg.nodes, i, Ack(data[0], if dlc == 8 then 2 else 1))]
      && m.motors == n.motors.With(i, n.motors.At(i).(protocolFault := true))
      && m.lastCommand == n.lastCommand && m.lastUpdate == n.lastUpdate && m.delayed == n.delayed
      && m.commandCount == n.commandCount + 1 && m.feedbackCount == n.feedbackCount
  {
    hide EncodeAck;
    IdentifiersDisjoint(s.ncfg.nodes, 0, 1);
    IdentifiersDisjoint(s.ncfg.nodes, 1, 0);
  }

  /** Anything but a command for one of the two motors is ignored, and not counted. */
  lemma OtherFramesAreIgnored(s: Setup, n: Node, frame: CanFrame, now: int)
    requires frame.Data? ==> frame.id != 0x100 + s.ncfg.nodes.left && frame.id != 0x100 + s.ncfg.nodes.right
    ensures n.Receive(s.ncfg, frame, now) == (n, [])
  {
  }

  // ---- Fault injection on commands -----------------------------------------------------------------------

  /** The selected node loses every command, the other one every n-th of all that arrive. */
  lemma WhichAreDropped(cfg: NodeConfig, i: nat, count: nat)
    requires i < 2
    ensures cfg.DropsCommand(i, count) <==>
      cfg.dropCommandNode == cfg.nodes.At(i) || (cfg.dropCommandEveryN > 0 && count % cfg.dropCommandEveryN == 0)
  {
  }

  /** The bus errors that the motor process injects only warn the driver. */
  lemma InjectedErrorsAreWarnings(s: Setup, d: Driver, at: int)
    ensures Classify(0x04 & CAN_ERR_MASK) == Warning && !d.IsFatal(Error(0x04)) && d.OnFrame(s.cfg, Error(0x04), at) == d
  {
  }

  /** With injection off no command is dropped. */
  lemma NothingDroppedByDefault(cfg: NodeConfig, i: nat, count: nat)
    requires cfg.Valid() && i < 2 && cfg.dropCommandEveryN == 0 && cfg.dropCommandNode == 0
    ensures !cfg.DropsCommand(i, count)
  {
  }

  function Deliveries(es: seq<Event>): nat
    decreases |es|
  {
    if es == [] then 0 else Deliveries(es[..|es| - 1]) + (if es[|es| - 1].Deliver? then 1 else 0)
  }

  lemma CountStep(s: Setup, l: Loop, e: Event)
    requires s.Valid() && LoopInv(s, l) && Admissible(s, l, e)
    ensures Step(s, l, e).node.commandCount == l.node.commandCount + (if e.Deliver? then 1 else 0)
  {
    hide Driver.Activate, Driver.BeginRead, Driver.OnFailure, Driver.FinishRead, Driver.Write, Driver.Release, Driver.OnFatal,
         Driver.OnFrame, CountFor, Judge, Node.Receive, Node.PublishOne, SampleOf, Node.MoveMotor, Obey, AckFrame, Inv,
         WireSequence, NotAck, NodeConfig.DropsCommand;
    if e.Deliver? {
      assert CommandOk(l.toMotor[0]);
      OwnCommandsDecode(s, l.node, l.toMotor[0], e.now);
    } else if e.Publish? {
      PublishCounts(s, l.node, e.at);
    }
  }

  lemma PublishCounts(s: Setup, n: Node, at: Pair<int>)
    ensures n.Publish(s.ncfg, at).0.commandCount == n.commandCount
  {
    hide SampleOf, EncodeFeedback;
  }

  lemma {:induction false} CommandsAreCounted(s: Setup, ls: seq<Loop>, es: seq<Event>, k: nat)
    requires IsRun(s, ls, es) && k <= |es|
    ensures ls[k].node.commandCount == Deliveries(es[..k])
  {
    hide Step, LoopInv, Admissible;
    if k > 0 {
      RunOk(s, ls, es, k - 1);
      CommandsAreCounted(s, ls, es, k - 1);
      CountStep(s, ls[k - 1], es[k - 1]);
      assert es[..k][..k - 1] == es[..k - 1];
    } else {
      assert Start(ls[0]);
    }
  }

  /**
    Which commands are dropped: over every run with an interval and no selected node, the command that
    arrives at step `k` is taken, by the motor it names, exactly when the interval is 0 or does not
    divide the number of commands that have arrived so far, that one included.
  */
  lemma DropsEveryNth(s: Setup, ls: seq<Loop>, es: seq<Event>, k: nat)
    requires IsRun(s, ls, es) && k < |es| && es[k].Deliver? && s.ncfg.dropCommandNode == 0
    ensures var n := s.ncfg.dropCommandEveryN;
      Takes(s, ls[k], es[k], ls[k].toMotor[0].motor) <==> n == 0 || Deliveries(es[..k + 1]) % n != 0
  {
    hide Step, LoopInv;
    CommandsAreCounted(s, ls, es, k);
    assert es[..k + 1][..k] == es[..k];
  }

  /** How many commands have arrived in vain in the first `k` steps. */
  ghost function Dropped(s: Setup, ls: seq<Loop>, es: seq<Event>, k: nat): nat
    requires k <= |es| < |ls| && forall j :: 0 <= j < k && es[j].Deliver? ==> ls[j].toMotor != [] && ls[j].toMotor[0].motor < 2
  {
    if k == 0 then 0 else
      var last := if es[k - 1].Deliver? && !Takes(s, ls[k - 1], es[k - 1], ls[k - 1].toMotor[0].motor) then 1 else 0;
      Dropped(s, ls, es, k - 1) + last
  }

  lemma OneMoreMultiple(x: nat, n: nat)
    requires n > 0
    ensures (x + 1) / n == x / n + (if (x + 1) % n == 0 then 1 else 0)
  {
    var q, r := x / n, x % n;
    assert x == n * q + r;
    if r + 1 == n {
      assert x + 1 == n * (q + 1) + 0;
      DivisionIsUnique(x + 1, n, q + 1, 0);
    } else {
      DivisionIsUnique(x + 1, n, q, r + 1);
    }
  }

  /** And their number: one in every `n` commands that have arrived, rounded down. */
  lemma {:induction false} DropsAreCounted(s: Setup, ls: seq<Loop>, es: seq<Event>, k: nat)
    requires IsRun(s, ls, es) && k <= |es| && s.ncfg.dropCommandNode == 0
    ensures var n := s.ncfg.dropCommandEveryN;
      Dropped(s, ls, es, k) == (if n == 0 then 0 else Deliveries(es[..k]) / n)
  {
    hide Step, LoopInv, Takes;
    if k > 0 {
      DropsAreCounted(s, ls, es, k - 1);
      assert es[..k][..k - 1] == es[..k - 1];
      if es[k - 1].Deliver? {
        DropsEveryNth(s, ls, es, k - 1);
        if s.ncfg.dropCommandEveryN > 0 {
          OneMoreMultiple(Deliveries(es[..k - 1]), s.ncfg.dropCommandEveryN);
        }
      }
    }
  }

  // ---- The motor follows its last command -------------------------------------------------------------------

  /** Motor `i` takes a command at step `k` and no other one up to step `m`. */
  ghost predicate LastTaken(s: Setup, ls: seq<Loop>, es: seq<Event>, k: nat, m: nat, i: nat)
    requires i < 2 && |ls| == |es| + 1
  {
    k < m <= |es| && Takes(s, ls[k], es[k], i) && forall j :: k < j < m ==> !Takes(s, ls[j], es[j], i)
  }

  /** An update between these steps came when the command of step `k` was older than its watchdog's whole milliseconds. */
  ghost predicate SomeLate(s: Setup, es: seq<Event>, k: nat, m: nat)
    requires k < m <= |es| && es[k].Deliver?
  {
    exists j :: k < j < m && Late(s, es, k, j)
  }

  predicate Late(s: Setup, es: seq<Event>, k: nat, j: nat)
    requires k < |es| && j < |es| && es[k].Deliver?
  {
    es[j].Update? && es[j].now - es[k].now >= (s.cfg.watchdogMs + 1) * 1_000_000
  }

  ghost predicate Follows(s: Setup, l: Loop, i: nat, a: Attempt, at: int, late: bool)
    requires i < 2
  {
    var m := l.node.motors.At(i);
    && m.target == (if a.enabled && !late then a.velocity as real / 1000.0 else 0.0)
    && m.watchdogStopped == (a.enabled && late)
    && m.enabled == a.enabled && m.lastSequence == a.sequence && m.watchdogMs == s.cfg.watchdogMs
    && !m.protocolFault && l.node.lastCommand.At(i) == at
  }

  lemma FollowStep(s: Setup, l: Loop, e: Event, i: nat, a: Attempt, at: int, late: bool)
    requires s.Valid() && LoopInv(s, l) && Admissible(s, l, e) && i < 2 && MotorOk(s, l, i)
    requires Follows(s, l, i, a, at, late) && !Takes(s, l, e, i)
    ensures Follows(s, Step(s, l, e), i, a, at, late || (e.Update? && e.now - at >= (s.cfg.watchdogMs + 1) * 1_000_000))
  {
    hide Step, LoopInv, NodeConfig.DropsCommand, Motor.Update;
    if e.Deliver? {
      ArrivalStep(s, l, e, i);
    } else if e.Update? {
      UpdateStep(s, l, e, i);
      var t := l.node.MotorTick(i, e.now);
      UpdateOutcome(l.node.motors.At(i), s.ncfg.maxAcceleration, t.dt, t.sinceMs);
    } else {
      UntouchedSteps(s, l, e, i);
    }
  }

  /**
    A motor follows the last command it took: over every run its target is that command's velocity, or 0
    for a stop; an enabled command is cancelled, with the watchdog flag set, exactly if some update since
    came more than its watchdog's milliseconds after it, never earlier.
  */
  lemma {:induction false} FollowsLastCommand(s: Setup, ls: seq<Loop>, es: seq<Event>, k: nat, m: nat, i: nat)
    requires IsRun(s, ls, es) && i < 2 && LastTaken(s, ls, es, k, m, i)
    ensures Follows(s, ls[m], i, ls[k].toMotor[0], es[k].now, SomeLate(s, es, k, m))
    decreases m
  {
    hide Step, LoopInv, NodeConfig.DropsCommand, Late, Follows;
    if m == k + 1 {
      RunOk(s, ls, es, k);
      StartsFollowing(s, ls[k], es[k], i);
    } else {
      RunOk(s, ls, es, m - 1);
      MotorsOk(s, ls, es, m - 1, i);
      FollowsLastCommand(s, ls, es, k, m - 1, i);
      FollowStep(s, ls[m - 1], es[m - 1], i, ls[k].toMotor[0], es[k].now, SomeLate(s, es, k, m - 1));
      LateStep(s, es, k, m);
      LateIs(s, es, k, m - 1);
    }
  }

  lemma LateStep(s: Setup, es: seq<Event>, k: nat, m: nat)
    requires k + 1 < m <= |es| && es[k].Deliver?
    ensures SomeLate(s, es, k, m) <==> (SomeLate(s, es, k, m - 1) || Late(s, es, k, m - 1))
  {
  }

  lemma LateIs(s: Setup, es: seq<Event>, k: nat, j: nat)
    requires k < |es| && j < |es| && es[k].Deliver?
    ensures Late(s, es, k, j) <==> es[j].Update? && es[j].now - es[k].now >= (s.cfg.watchdogMs + 1) * 1_000_000
  {
  }

  lemma StartsFollowing(s: Setup, l: Loop, e: Event, i: nat)
    requires s.Valid() && LoopInv(s, l) && Admissible(s, l, e) && i < 2 && Takes(s, l, e, i)
    ensures Follows(s, Step(s, l, e), i, l.toMotor[0], e.now, false)
  {
    hide Step, LoopInv, NodeConfig.DropsCommand;
    CommandIsObeyed(s, l, e, i);
  }

  // ---- What a report says ------------------------------------------------------------------------------------

  /** A full-length report decodes to the motor's last sequence and to its three flags, and back to its sample. */
  lemma ReportTellsState(m: Motor, countsPerRev: int)
    ensures var f := SampleOf(m, countsPerRev);
      && DecodeFeedback(EncodeFeedback(f), 8) == Some(f)
      && f.sequence == m.lastSequence && f.status < 8
      && (f.status % 2 == 1 <==> m.enabled)
      && (f.status / 2 % 2 == 1 <==> m.watchdogStopped)
      && (f.status / 4 == 1 <==> m.protocolFault)
  {
    hide EncodeFeedback, DecodeFeedback, Motor.EncoderCount, Round, Motor.Status;
    FeedbackRoundTrip(SampleOf(m, countsPerRev), EncodeFeedback(SampleOf(m, countsPerRev)));
    StatusBits(m);
  }

  /**
    So over every run a motor's report names the last command it took, tells whether that enabled it, and
    shows the watchdog flag exactly if some update came too late for an enabled command.
  */
  lemma ReportNamesLastCommand(s: Setup, ls: seq<Loop>, es: seq<Event>, k: nat, m: nat, i: nat)
    requires IsRun(s, ls, es) && i < 2 && LastTaken(s, ls, es, k, m, i)
    ensures var f, a := SampleOf(ls[m].node.motors.At(i), s.ncfg.countsPerRev), ls[k].toMotor[0];
      && f.sequence == a.sequence && (f.status % 2 == 1 <==> a.enabled) && f.status / 4 == 0
      && (f.status / 2 % 2 == 1 <==> a.enabled && SomeLate(s, es, k, m))
  {
    hide Step, LoopInv, Takes, SampleOf, SomeLate, EncodeFeedback, DecodeFeedback;
    FollowsLastCommand(s, ls, es, k, m, i);
    ReportTellsState(ls[m].node.motors.At(i), s.ncfg.countsPerRev);
  }

  // ---- Where the wheel has turned ----------------------------------------------------------------------------

  /** The angle motor `i`'s wheel turns in one step: at an update, its new velocity for the time since the last one. */
  function TurnedBy(l: Loop, e: Event, n: Loop, i: nat): real
    requires i < 2
  {
    if e.Update? && e.now > l.node.lastUpdate
    then n.node.motors.At(i).velocity * ((e.now - l.node.lastUpdate) as real / 1_000_000_000.0) else 0.0
  }

  function Turned(ls: seq<Loop>, es: seq<Event>, k: nat, m: nat, i: nat): real
    requires k <= m <= |es| < |ls| && i < 2
    decreases m
  {
    if k == m then 0.0 else Turned(ls, es, k, m - 1, i) + TurnedBy(ls[m - 1], es[m - 1], ls[m], i)
  }

  lemma TurnStep(s: Setup, l: Loop, e: Event, i: nat)
    requires s.Valid() && LoopInv(s, l) && Admissible(s, l, e) && i < 2
    ensures var n := Step(s, l, e);
      n.node.motors.At(i).position == l.node.motors.At(i).position + TurnedBy(l, e, n, i)
  {
    hide Step, LoopInv, NodeConfig.DropsCommand, Motor.Update;
    if e.Deliver? {
      ArrivalStep(s, l, e, i);
      if Takes(s, l, e, i) { CommandIsObeyed(s, l, e, i); }
    } else if e.Update? {
      UpdateStep(s, l, e, i);
      var t := l.node.MotorTick(i, e.now);
      UpdateOutcome(l.node.motors.At(i), s.ncfg.maxAcceleration, t.dt, t.sinceMs);
    } else {
      UntouchedSteps(s, l, e, i);
    }
  }

  /** Over every run the position is the sum of what the updates turned, and nothing else moves the wheel. */
  lemma {:induction false} PositionIsTurned(s: Setup, ls: seq<Loop>, es: seq<Event>, k: nat, m: nat, i: nat)
    requires IsRun(s, ls, es) && k <= m <= |es| && i < 2
    ensures ls[m].node.motors.At(i).position == ls[k].node.motors.At(i).position + Turned(ls, es, k, m, i)
    ensures k == 0 ==> ls[m].node.motors.At(i).position == Turned(ls, es, 0, m, i)
    decreases m
  {
    hide Step, LoopInv, Admissible;
    assert Start(ls[0]);
    if k < m {
      PositionIsTurned(s, ls, es, k, m - 1, i);
      RunOk(s, ls, es, m - 1);
      TurnStep(s, ls[m - 1], es[m - 1], i);
    }
  }
}
