/** Every step of the closed loop is, for each motor of an active session, one step of its ACK channel or none. */
module ChannelSimulation {
  import opened Basics
  import opened CanProtocol
  import opened HardwareHealth
  import opened VirtualMotor
  import opened DriverModel
  import opened DriverInvariants
  import opened ClosedLoop
  import C = AckChannel

  ghost predicate Moved(c: C.Channel, n: C.Channel, a: Option<C.Action>) {
    match a
    case None => n == c
    case Some(x) => C.Can(c, x) && n == C.Do(c, x)
  }

  // ---- What the driver's callbacks do to an active session -------------------------------------------

  lemma WriteOneSends(d: Driver, i: nat, at: int, ok: Pair<bool>)
    requires Live(d) && i < 2
    ensures var (n, r) := d.WriteOne(i, true, at, ok);
      var c := CountFor(d.log, i);
      && r && n.log == d.log + [n.log[|d.log|]]
      && n.log[|d.log|].motor == i && n.log[|d.log|].number == c + 1 && n.log[|d.log|].success
      && n.health == d.health.(pending := d.health.pending.With(i, d.health.pending.At(i) + [PendingAck(WireSequence(c + 1), at)]))
      && CountFor(n.log, 0) == CountFor(d.log, 0) + (if i == 0 then 1 else 0)
      && CountFor(n.log, 1) == CountFor(d.log, 1) + (if i == 1 then 1 else 0)
  {
    hide WireVelocity, NextSequence, WireSequence, Counts, CountFor, Contiguous, Running;
    SendCounts(d, i, true, d.commands.At(i), true, true, at);
    SendLogs(d, i, true, d.commands.At(i), true, true, at);
    SendWindows(d, i, d.commands.At(i), at);
  }

  /** A write that succeeds puts one tracked run frame per motor on the bus. */
  ghost predicate PairSent(d: Driver, n: Driver, at: Pair<int>) {
    && |n.log| == |d.log| + 2 && n.log[..|d.log|] == d.log
    && n.log[|d.log|].motor == 0 && n.log[|d.log|].number == CountFor(d.log, 0) + 1 && n.log[|d.log|].success
    && n.log[|d.log| + 1].motor == 1 && n.log[|d.log| + 1].number == CountFor(d.log, 1) + 1 && n.log[|d.log| + 1].success
    && CountFor(n.log, 0) == CountFor(d.log, 0) + 1 && CountFor(n.log, 1) == CountFor(d.log, 1) + 1
    && n.health == d.health.(pending := Pair(
         d.health.pending.left + [PendingAck(WireSequence(CountFor(d.log, 0) + 1), at.left)],
         d.health.pending.right + [PendingAck(WireSequence(CountFor(d.log, 1) + 1), at.right)]))
  }

  lemma WriteSends(d: Driver, sent: Pair<bool>, at: Pair<int>, ok: Pair<bool>)
    requires Inv(d) && AtRest(d) && d.Write(sent, at, ok).0.state == Active
    ensures PairSent(d, d.Write(sent, at, ok).0, at)
  {
    hide Driver.WriteOne, Driver.Latch, CountFor, Counting, Running, Contiguous, WireSequence;
    WriteKeeps(d, sent, at, ok);
    LiveAtRest(d);
    RunFrameKeeps(d, 0, true, at.left, ok);
    WriteOneSends(d, 0, at.left, ok);
    var d1 := d.WriteOne(0, true, at.left, ok).0;
    WriteOneSends(d1, 1, at.right, ok);
    RunFrameKeeps(d1, 1, true, at.right, ok);
  }

  /** An activation that succeeds puts one stop per motor on the bus and starts empty windows. */
  ghost predicate StopsSent(d: Driver, n: Driver) {
    && |n.log| == |d.log| + 2 && n.log[..|d.log|] == d.log
    && n.log[|d.log|].motor == 0 && n.log[|d.log|].number == CountFor(n.log, 0) && n.log[|d.log|].success
    && n.log[|d.log| + 1].motor == 1 && n.log[|d.log| + 1].number == CountFor(n.log, 1) && n.log[|d.log| + 1].success
    && CountFor(n.log, 0) >= 1 && CountFor(n.log, 1) >= 1
    && n.health.pending == Pair([], [])
    && n.health.ignored == Pair(Some(WireSequence(CountFor(n.log, 0))), Some(WireSequence(CountFor(n.log, 1))))
  }

  lemma ActivateSends(d: Driver, open: bool, ok: Pair<bool>, now: int)
    requires Inv(d) && d.Activate(open, ok, now).0.state == Active
    ensures open && StopsSent(d, d.Activate(open, ok, now).0)
  {
    hide Driver.SendSafeStop, CountFor, WireSequence;
    ActivateKeeps(d, open, ok, now);
    SafeStopKeeps(d.Opened(now), ok);
    StopNumbers(d.Opened(now), ok);
  }

  lemma StopNumbers(d: Driver, ok: Pair<bool>)
    requires d.senderOpen && d.session <= |d.log| && Counting(d)
    ensures var n := d.SendSafeStop(ok).0;
      && |n.log| == |d.log| + 2
      && n.log[|d.log|].number == CountFor(d.log, 0) + 1 && n.log[|d.log| + 1].number == CountFor(d.log, 1) + 1
  {
    hide Driver.Send, CountFor, Counts;
    StopSent(d, 0, ok.left);
    SendCounts(d, 0, false, 0.0, false, ok.left, 0);
    StopSent(d.Send(0, false, 0.0, false, ok.left, 0).0, 1, ok.right);
  }

  lemma AcceptedPair(a: Attempt, b: Attempt)
    ensures a.success && b.success ==> Delivered([a, b]) == [a, b]
    ensures Delivered([]) == []
  {
    assert [a, b][1..] == [b] && [b][1..] == [];
    assert b.success ==> Delivered([b]) == [b] + Delivered([]);
  }

  lemma PickPair(q: seq<Attempt>, a: Attempt, b: Attempt, i: nat)
    requires i < 2 && a.motor == 0 && b.motor == 1
    ensures Pick(CommandTags(q + [a, b]), i) == Pick(CommandTags(q), i) + [if i == 0 then a.number else b.number]
  {
    var x, y := Tag(a.motor, a.number), Tag(b.motor, b.number);
    assert CommandTags(q + [a, b]) == CommandTags(q) + [x, y];
    PickAppend(CommandTags(q), [x, y], i);
    assert [x, y][1..] == [y] && [y][1..] == [];
    assert Pick([y], i) == if i == 1 then [b.number] else [];
  }

  lemma DrivenPair(l: Loop, d: Driver)
    requires |d.log| == |l.drv.log| + 2 && d.log[..|l.drv.log|] == l.drv.log
    requires d.log[|l.drv.log|].success && d.log[|l.drv.log| + 1].success
    ensures Driven(l, d) == l.(drv := d, toMotor := l.toMotor + [d.log[|l.drv.log|], d.log[|l.drv.log| + 1]])
  {
    AcceptedPair(d.log[|l.drv.log|], d.log[|l.drv.log| + 1]);
    assert d.log[|l.drv.log|..] == [d.log[|l.drv.log|], d.log[|l.drv.log| + 1]];
  }

  lemma DrivenSilent(l: Loop, d: Driver)
    requires d.log == l.drv.log
    ensures Driven(l, d) == l.(drv := d)
  {
    assert d.log[|l.drv.log|..] == [];
    assert l.toMotor + [] == l.toMotor;
  }

  /** A successful activation opens each motor's channel behind whatever was in flight to it. */
  lemma ActivateOpens(s: Setup, l: Loop, e: Event, i: nat)
    requires s.Valid() && LoopInv(s, l) && Admissible(s, l, e) && e.Activate? && i < 2
    requires Step(s, l, e).drv.state == Active
    ensures CountFor(Step(s, l, e).drv.log, i) >= 1
    ensures ChannelOf(Step(s, l, e), i)
         == C.OpenedOver(Pick(CommandTags(l.toMotor), i), CountFor(Step(s, l, e).drv.log, i), l.applied.At(i))
    ensures l.toMotor == [] ==> Pick(CommandTags(l.toMotor), i) == []
  {
    hide Driver.Activate, CountFor, WireSequence, Inv;
    var d := l.drv.Activate(e.open, e.ok, e.now).0;
    DrivenIs(l, d);
    ActivateSends(l.drv, e.open, e.ok, e.now);
    DrivenPair(l, d);
    PickPair(l.toMotor, d.log[|l.drv.log|], d.log[|l.drv.log| + 1], i);
    assert CommandTags([]) == [] && ReplyTags([]) == [];
  }

  // ---- One lemma per kind of event -----------------------------------------------------------------------

  lemma WriteMoves(s: Setup, l: Loop, e: Event, i: nat) returns (a: Option<C.Action>)
    requires s.Valid() && LoopInv(s, l) && Admissible(s, l, e) && e.Write? && i < 2
    requires Step(s, l, e).drv.state == Active
    ensures l.drv.state == Active && Moved(ChannelOf(l, i), ChannelOf(Step(s, l, e), i), a) && a == Some(C.Send(e.at.At(i)))
  {
    hide Driver.Write, CountFor, WireSequence, Inv;
    var d := l.drv.Write(e.sent, e.at, e.ok).0;
    DrivenIs(l, d);
    WriteKeeps(l.drv, e.sent, e.at, e.ok);
    WriteSends(l.drv, e.sent, e.at, e.ok);
    DrivenPair(l, d);
    PickPair(l.toMotor, d.log[|l.drv.log|], d.log[|l.drv.log| + 1], i);
    a := Some(C.Send(e.at.At(i)));
  }

  /** The callbacks that leave an active driver active without sending anything. */
  lemma QuietMoves(s: Setup, l: Loop, e: Event, i: nat)
    requires s.Valid() && LoopInv(s, l) && Admissible(s, l, e) && i < 2
    requires e.SetCommand? || e.BeginRead? || e.ReceiveFails? || e.FinishRead? || e.Release?
    requires Step(s, l, e).drv.state == Active
    ensures l.drv.state == Active && ChannelOf(Step(s, l, e), i) == ChannelOf(l, i)
  {
    hide Driver.BeginRead, Driver.OnFailure, Driver.FinishRead, Driver.Release, CountFor, Inv, Driven;
    match e
    case SetCommand(_, _) =>
    case BeginRead(ok) =>
      BeginReadKeeps(l.drv, ok);
      DrivenIs(l, l.drv.BeginRead(ok).0);
      DrivenSilent(l, l.drv);
    case ReceiveFails(ok) =>
      OnFailureKeeps(l.drv, ok);
      DrivenIs(l, l.drv.OnFailure(ok));
    case FinishRead(now, ok) =>
      FinishReadKeeps(s.cfg, l.drv, now, ok);
      DrivenIs(l, l.drv.FinishRead(s.cfg, now, ok));
      StateAndLatch(l.drv.FinishRead(s.cfg, now, ok));
      DrivenSilent(l, l.drv);
    case Release(ok) =>
      ReleaseKeeps(l.drv, ok);
      StateAndLatch(l.drv.Release(ok).0);
      DrivenIs(l, l.drv.Release(ok).0);
  }

  lemma AckIsRouted(s: Setup, d: Driver, j: nat, ack: Ack, at: int)
    requires s.Valid() && j < 2
    ensures d.OnFrame(s.cfg, AckFrame(s.cfg.nodes, j, ack), at) == d.OnAck(s.cfg, j, 8, EncodeAck(ack))
  {
    hide Driver.OnAck, Driver.OnFeedback, EncodeAck;
    IdentifiersDisjoint(s.cfg.nodes, 0, 1);
    IdentifiersDisjoint(s.cfg.nodes, 1, 0);
  }

  lemma AckIsHeard(s: Setup, d: Driver, j: nat, sequence: byte, at: int)
    requires s.Valid() && j < 2
    ensures var n := d.OnFrame(s.cfg, AckFrame(s.cfg.nodes, j, Ack(sequence, 0)), at);
      n.health == d.health.AckReceived(j, sequence, 0).0 && n.log == d.log
  {
    hide Driver.OnFrame, DecodeAck, EncodeAck, Health.AckReceived;
    AckIsRouted(s, d, j, Ack(sequence, 0), at);
    AckRoundTrip(Ack(sequence, 0), EncodeAck(Ack(sequence, 0)), 8);
  }

  lemma OtherIsNotHeard(s: Setup, d: Driver, frame: CanFrame, at: int)
    requires NotAck(s.cfg.nodes, frame)
    ensures var n := d.OnFrame(s.cfg, frame, at);
      n.health.pending == d.health.pending && n.health.ignored == d.health.ignored && n.log == d.log
  {
    hide Driver.OnAck, Driver.OnFeedback;
    if frame.Data? {
      FeedbackOnlyHears(s, d, 0, frame, at);
      FeedbackOnlyHears(s, d, 1, frame, at);
    }
  }

  lemma FeedbackOnlyHears(s: Setup, d: Driver, i: nat, frame: CanFrame, at: int)
    requires frame.Data? && i < 2
    ensures var n := d.OnFeedback(s.cfg, i, frame.dlc, frame.data, at);
      n.health.pending == d.health.pending && n.health.ignored == d.health.ignored && n.log == d.log
  {
    hide DecodeFeedback, Radians;
  }

  lemma FrontReply(q: seq<Reply>, i: nat)
    requires q != []
    ensures |ReplyTags(q)| == |q|
    ensures Pick(ReplyTags(q), i) == (if ReplyTags(q)[0].motor == i then [ReplyTags(q)[0].number] else []) + Pick(ReplyTags(q[1..]), i)
  {
    assert ReplyTags(q)[1..] == ReplyTags(q[1..]);
  }

  lemma TakeAckMoves(s: Setup, l: Loop, e: Event, i: nat) returns (a: Option<C.Action>)
    requires s.Valid() && BusOk(s, l) && Admissible(s, l, e) && e.Receive? && i < 2 && l.toDriver[0].AckReply?
    ensures Moved(ChannelOf(l, i), ChannelOf(Step(s, l, e), i), a)
    ensures a == None || a == Some(C.Drain)
  {
    hide Driver.OnFatal, Driver.OnFrame, CountFor, WireSequence, AckFrame, NotAck, Driven, Health.AckReceived, Pick, ReplyTags;
    var reply := l.toDriver[0];
    assert ReplyOk(s, reply);
    AckIsData(s, reply.motor, reply.number);
    FrontReply(l.toDriver, i);
    assert ReplyTags(l.toDriver)[0] == Tag(reply.motor, reply.number) by { FirstTag(l.toDriver); }
    AckIsHeard(s, l.drv, reply.motor, WireSequence(reply.number), e.now);
    C.MatchIsTheTracker(l.drv.health, reply.motor, WireSequence(reply.number));
    a := if reply.motor == i then Some(C.Drain) else None;
  }

  lemma FirstTag(q: seq<Reply>)
    requires q != []
    ensures |ReplyTags(q)| == |q| && ReplyTags(q)[0] == if q[0].AckReply? then Tag(q[0].motor, q[0].number) else Tag(2, 0)
  {
  }

  lemma AckIsData(s: Setup, i: nat, n: nat)
    requires i < 2
    ensures AckFrame(s.cfg.nodes, i, Ack(WireSequence(n), 0)).Data?
  {
  }

  lemma TakeOtherMoves(s: Setup, l: Loop, e: Event, i: nat)
    requires s.Valid() && BusOk(s, l) && Admissible(s, l, e) && e.Receive? && i < 2 && l.toDriver[0].Other?
    requires !l.drv.IsFatal(l.toDriver[0].frame)
    ensures ChannelOf(Step(s, l, e), i) == ChannelOf(l, i)
  {
    hide Driver.OnFatal, Driver.OnFrame, CountFor, AckFrame, NotAck, Driven, Pick, ReplyTags;
    assert ReplyOk(s, l.toDriver[0]);
    FrontReply(l.toDriver, i);
    assert ReplyTags(l.toDriver)[0] == Tag(2, 0) by { FirstTag(l.toDriver); }
    assert [] + Pick(ReplyTags(l.toDriver[1..]), i) == Pick(ReplyTags(l.toDriver[1..]), i);
    OtherIsNotHeard(s, l.drv, l.toDriver[0].frame, e.now);
  }

  lemma TakeMoves(s: Setup, l: Loop, e: Event, i: nat) returns (a: Option<C.Action>)
    requires s.Valid() && LoopInv(s, l) && Admissible(s, l, e) && e.Receive? && i < 2
    requires Step(s, l, e).drv.state == Active
    ensures l.drv.state == Active && Moved(ChannelOf(l, i), ChannelOf(Step(s, l, e), i), a)
    ensures a == None || a == Some(C.Drain)
  {
    hide Driver.OnFatal, Driver.OnFrame, Inv, Driven, ChannelOf, Moved, BusOk, Judge;
    var reply := l.toDriver[0];
    if l.drv.IsFatal(reply.frame) {
      OnFatalKeeps(l.drv, reply.frame, e.ok);
      DrivenIs(l.(toDriver := l.toDriver[1..], budget := l.budget - 1, clock := e.now, reading := false),
               l.drv.OnFatal(reply.frame, e.ok));
      a := None;
    } else {
      OnFrameKeeps(s.cfg, l.drv, reply.frame, e.now);
      if reply.AckReply? {
        a := TakeAckMoves(s, l, e, i);
      } else {
        TakeOtherMoves(s, l, e, i);
        StandsStill(l, Step(s, l, e), i);
        a := None;
      }
    }
  }

  /** The bus after the motor process has taken a command of the driver's. */
  lemma ArriveIs(s: Setup, l: Loop, e: Event)
    requires s.Valid() && LoopInv(s, l) && Admissible(s, l, e) && e.Deliver?
    ensures var n, x := Step(s, l, e), l.toMotor[0];
      && n.drv == l.drv && n.stops == l.stops && n.verdicts == l.verdicts && n.toMotor == l.toMotor[1..]
      && if s.ncfg.DropsCommand(x.motor, l.node.commandCount + 1)
         then n.toDriver == l.toDriver && n.applied == l.applied
         else n.toDriver == l.toDriver + [AckReply(x.motor, x.number, AckFrame(s.cfg.nodes, x.motor, Ack(x.sequence, 0)))]
              && n.applied == l.applied.With(x.motor, l.applied.At(x.motor) + {x.number})
  {
    hide Node.Receive, Inv, AckFrame, Obey, NotAck, WireSequence;
    assert CommandOk(l.toMotor[0]);
    OwnCommandsDecode(s, l.node, l.toMotor[0], e.now);
    assert l.toDriver + [] == l.toDriver;
  }

  lemma ArriveMoves(s: Setup, l: Loop, e: Event, i: nat) returns (a: Option<C.Action>)
    requires s.Valid() && LoopInv(s, l) && Admissible(s, l, e) && e.Deliver? && i < 2
    ensures Moved(ChannelOf(l, i), ChannelOf(Step(s, l, e), i), a)
    ensures a == None || a == Some(C.Deliver) || (a == Some(C.LoseCommand(0)) && s.ncfg.DropsCommand(i, l.node.commandCount + 1))
    ensures l.toMotor[0].motor == i && s.ncfg.DropsCommand(i, l.node.commandCount + 1) ==>
      Loses(ChannelOf(l, i), a, l.toMotor[0].number)
  {
    hide Arrive, LoopInv, AckFrame, CountFor, NodeConfig.DropsCommand;
    var x, n := l.toMotor[0], Step(s, l, e);
    ArriveIs(s, l, e);
    var tags, y := CommandTags(l.toMotor), Tag(x.motor, x.number);
    assert tags == [y] + CommandTags(l.toMotor[1..]);
    PickAppend([y], CommandTags(l.toMotor[1..]), i);
    assert Pick([y], i) == if x.motor == i then [x.number] else [];
    if s.ncfg.DropsCommand(x.motor, l.node.commandCount + 1) {
      a := if x.motor == i then Some(C.LoseCommand(0)) else None;
    } else {
      assert ReplyTags(n.toDriver) == ReplyTags(l.toDriver) + [y];
      PickAppend(ReplyTags(l.toDriver), [y], i);
      a := if x.motor == i then Some(C.Deliver) else None;
    }
  }

  lemma OthersArePickedByNobody(q: seq<Reply>, frames: seq<CanFrame>, i: nat)
    requires i < 2
    ensures Pick(ReplyTags(q + Others(frames)), i) == Pick(ReplyTags(q), i)
  {
    assert ReplyTags(q + Others(frames)) == ReplyTags(q) + ReplyTags(Others(frames));
    PickAppend(ReplyTags(q), ReplyTags(Others(frames)), i);
    PickNothing(ReplyTags(Others(frames)), i);
  }

  lemma {:induction false} PickNothing(tags: seq<Tag>, i: nat)
    requires forall k :: 0 <= k < |tags| ==> tags[k].motor != i
    ensures Pick(tags, i) == []
    decreases |tags|
  {
    if tags != [] {
      PickNothing(tags[1..], i);
    }
  }

  /** Timers and other traffic do not touch the channel. */
  lemma TrafficMoves(s: Setup, l: Loop, e: Event, i: nat)
    requires Admissible(s, l, e) && i < 2 && (e.Update? || e.Publish? || e.Noise?)
    ensures ChannelOf(Step(s, l, e), i) == ChannelOf(l, i)
  {
    hide Node.Update, Node.Publish, CountFor, Pick;
    match e
    case Update(now) => OthersArePickedByNobody(l.toDriver, l.node.Update(s.ncfg, now).1, i);
    case Publish(at) => OthersArePickedByNobody(l.toDriver, l.node.Publish(s.ncfg, at).1, i);
    case Noise(frame) =>
      assert [Other(frame)] == Others([frame]);
      OthersArePickedByNobody(l.toDriver, [frame], i);
  }

  /** The action loses the command or the ACK of attempt `n`. */
  ghost predicate Loses(c: C.Channel, a: Option<C.Action>, n: nat) {
    && a.Some? && C.Can(c, a.value)
    && ((a.value.LoseCommand? && c.commands[a.value.j] == n) || (a.value.LoseAck? && c.acks[a.value.j] == n))
  }

  lemma LossMoves(s: Setup, l: Loop, e: Event, i: nat) returns (a: Option<C.Action>)
    requires Admissible(s, l, e) && i < 2 && (e.LoseCommand? || e.LoseReply?)
    ensures Moved(ChannelOf(l, i), ChannelOf(Step(s, l, e), i), a)
    ensures a.Some? ==> a.value.LoseCommand? || a.value.LoseAck?
    ensures e.LoseCommand? && l.toMotor[e.j].motor == i ==> Loses(ChannelOf(l, i), a, l.toMotor[e.j].number)
    ensures e.LoseReply? && l.toDriver[e.j].AckReply? && l.toDriver[e.j].motor == i ==>
      Loses(ChannelOf(l, i), a, l.toDriver[e.j].number)
  {
    hide CountFor, Pick;
    if e.LoseCommand? {
      var tags := CommandTags(l.toMotor);
      assert CommandTags(C.Without(l.toMotor, e.j)) == C.Without(tags, e.j);
      PickWithout(tags, e.j, i);
      a := if tags[e.j].motor == i then Some(C.LoseCommand(|Pick(tags[..e.j], i)|)) else None;
    } else {
      var tags := ReplyTags(l.toDriver);
      assert ReplyTags(C.Without(l.toDriver, e.j)) == C.Without(tags, e.j);
      PickWithout(tags, e.j, i);
      a := if tags[e.j].motor == i then Some(C.LoseAck(|Pick(tags[..e.j], i)|)) else None;
    }
  }

  /** On a link where nothing is lost: no loss event, and no command dropped by fault injection. */
  predicate Faithful(s: Setup, l: Loop, e: Event) {
    && !e.LoseCommand? && !e.LoseReply?
    && (e.Deliver? ==> !s.ncfg.DropsCommand(0, l.node.commandCount + 1) && !s.ncfg.DropsCommand(1, l.node.commandCount + 1))
  }

  /** At this step the command or the ACK of motor `i`'s attempt `n` is lost: on the bus, or to fault injection. */
  predicate LossOf(s: Setup, l: Loop, e: Event, i: nat, n: nat)
    requires Admissible(s, l, e) && i < 2
  {
    match e
    case LoseCommand(j) => l.toMotor[j].motor == i && l.toMotor[j].number == n
    case LoseReply(j) => l.toDriver[j].AckReply? && l.toDriver[j].motor == i && l.toDriver[j].number == n
    case Deliver(_) =>
      l.toMotor[0].motor == i && l.toMotor[0].number == n && s.ncfg.DropsCommand(i, l.node.commandCount + 1)
    case _ => false
  }

  /** The simulation: a step inside an active session moves each motor's channel by one action at most. */
  lemma StepMoves(s: Setup, l: Loop, e: Event, i: nat) returns (a: Option<C.Action>)
    requires s.Valid() && LoopInv(s, l) && Admissible(s, l, e) && i < 2 && !e.Activate?
    requires Step(s, l, e).drv.state == Active
    ensures l.drv.state == Active && Moved(ChannelOf(l, i), ChannelOf(Step(s, l, e), i), a)
    ensures Faithful(s, l, e) ==> a == None || (!a.value.LoseCommand? && !a.value.LoseAck?)
    ensures if e.Write? then a == Some(C.Send(e.at.At(i))) else a == None || !a.value.Send?
    ensures forall n :: LossOf(s, l, e, i, n) ==> Loses(ChannelOf(l, i), a, n)
  {
    hide Take, Arrive, Driven, LoopInv, ChannelOf, Moved, Loses;
    match e
    case Write(_, _, _) => a := WriteMoves(s, l, e, i);
    case Receive(_, _) => a := TakeMoves(s, l, e, i);
    case Deliver(_) => a := ArriveMoves(s, l, e, i); ArriveKeepsDriver(s, l, e);
    case LoseCommand(_) => a := LossMoves(s, l, e, i);
    case LoseReply(_) => a := LossMoves(s, l, e, i);
    case Update(_) => TrafficMoves(s, l, e, i); a := None; StandsStill(l, Step(s, l, e), i);
    case Publish(_) => TrafficMoves(s, l, e, i); a := None; StandsStill(l, Step(s, l, e), i);
    case Noise(_) => TrafficMoves(s, l, e, i); a := None; StandsStill(l, Step(s, l, e), i);
    case SetCommand(_, _) => QuietMoves(s, l, e, i); a := None; StandsStill(l, Step(s, l, e), i);
    case BeginRead(_) => QuietMoves(s, l, e, i); a := None; StandsStill(l, Step(s, l, e), i);
    case ReceiveFails(_) => QuietMoves(s, l, e, i); a := None; StandsStill(l, Step(s, l, e), i);
    case FinishRead(_, _) => QuietMoves(s, l, e, i); a := None; StandsStill(l, Step(s, l, e), i);
    case Release(_) => QuietMoves(s, l, e, i); a := None; StandsStill(l, Step(s, l, e), i);
  }

  lemma ArriveKeepsDriver(s: Setup, l: Loop, e: Event)
    requires Admissible(s, l, e) && e.Deliver?
    ensures Step(s, l, e).drv == l.drv
  {
  }

  lemma StandsStill(l: Loop, n: Loop, i: nat)
    requires i < 2 && ChannelOf(n, i) == ChannelOf(l, i)
    ensures Moved(ChannelOf(l, i), ChannelOf(n, i), None)
  {
  }
}
