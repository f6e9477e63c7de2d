/** Measurements mean what they say: they come from the motor they name, and a steady state is reported exactly. */
module Measurements {
  import opened Basics
  import opened CanProtocol
  import opened HardwareHealth
  import opened MotorState
  import opened VirtualMotor
  import opened DriverModel
  import opened DriverInvariants
  import opened ClosedLoop
  import opened FeedbackPath
  import opened Fidelity
  import opened Motion
  import R = DriverRuns
  import C = AckChannel

  // ---- One frame -----------------------------------------------------------------------------------------

  /** A full-length feedback frame gives the driver the sampled velocity and count of its motor. */
  lemma SampleIsMeasured(s: Setup, d: Driver, i: nat, f: Feedback, at: int)
    requires s.Valid() && i < 2
    ensures var n := d.OnFrame(s.cfg, FeedbackFrame(s.ncfg.nodes, i, f, 8), at);
      && n.velocities.At(i) == f.velocity as real / 1000.0
      && n.positions.At(i) == Radians(f.encoderCount, s.cfg.countsPerRev)
  {
    hide EncodeFeedback, DecodeFeedback, Radians, Driver.OnFrame;
    ReportIsRouted(s, d, i, f, 8, at);
    FeedbackRoundTrip(f, EncodeFeedback(f));
  }

  lemma ReportIsRouted(s: Setup, d: Driver, i: nat, f: Feedback, dlc: nat, at: int)
    requires s.Valid() && i < 2
    ensures d.OnFrame(s.cfg, FeedbackFrame(s.ncfg.nodes, i, f, dlc), at) == d.OnFeedback(s.cfg, i, dlc, EncodeFeedback(f), at)
  {
    hide Driver.OnAck, Driver.OnFeedback, EncodeFeedback;
    IdentifiersDisjoint(s.cfg.nodes, 0, 1);
    IdentifiersDisjoint(s.cfg.nodes, 1, 0);
  }

  /** The position the driver takes from a feedback frame is within half an encoder count of the motor's. */
  lemma MeasuredPosition(s: Setup, d: Driver, i: nat, m: Motor, at: int)
    requires s.Valid() && i < 2 && INT32_MIN <= Round(FeedbackPath.Counts(m.position, s.cfg.countsPerRev)) <= INT32_MAX
    ensures var n := d.OnFrame(s.cfg, FeedbackFrame(s.ncfg.nodes, i, SampleOf(m, s.ncfg.countsPerRev), 8), at);
      Abs(n.positions.At(i) - m.position) * s.cfg.countsPerRev as real <= TWO_PI / 2.0
  {
    hide Driver.OnFrame, Radians, Motor.EncoderCount, FeedbackPath.Counts, Round, FeedbackFrame;
    SampleIsMeasured(s, d, i, SampleOf(m, s.ncfg.countsPerRev), at);
    PositionWithinHalfCount(m, s.cfg.countsPerRev);
  }

  // ---- Where the frames come from --------------------------------------------------------------------------

  /** A full-length or a malformed report of motor `i` with this content. */
  predicate Reports(s: Setup, i: nat, m: Motor, frame: CanFrame)
    requires i < 2
  {
    var f := SampleOf(m, s.ncfg.countsPerRev);
    frame == FeedbackFrame(s.ncfg.nodes, i, f, 7) || frame == FeedbackFrame(s.ncfg.nodes, i, f, 8)
  }

  predicate IsReport(s: Setup, i: nat, frame: CanFrame)
    requires i < 2
  {
    frame.Data? && frame.id == FeedbackId(s.cfg.nodes.At(i))
  }

  /** The frame waits in the delay queue or for the driver's receiver. */
  ghost predicate Queued(l: Loop, frame: CanFrame) {
    || (exists q :: 0 <= q < |l.toDriver| && l.toDriver[q].frame == frame)
    || (exists q :: 0 <= q < |l.node.delayed| && l.node.delayed[q].frame == frame)
  }

  lemma PublishOneQueues(s: Setup, n: Node, i: nat, f: Feedback, at: int, frame: CanFrame)
    requires i < 2 && frame.Data?
    requires var (m, out) := n.PublishOne(s.ncfg, i, f, at);
      frame in out || exists q :: 0 <= q < |m.delayed| && m.delayed[q].frame == frame
    ensures (exists q :: 0 <= q < |n.delayed| && n.delayed[q].frame == frame)
      || frame == FeedbackFrame(s.ncfg.nodes, i, f, 7) || frame == FeedbackFrame(s.ncfg.nodes, i, f, 8)
  {
    hide FeedbackFrame;
  }

  lemma PublishQueues(s: Setup, l: Loop, e: Event, i: nat, frame: CanFrame)
    requires s.Valid() && Admissible(s, l, e) && e.Publish? && i < 2 && IsReport(s, i, frame)
    requires Queued(Step(s, l, e), frame) && !Queued(l, frame)
    ensures Reports(s, i, l.node.motors.At(i), frame)
  {
    hide EncodeFeedback, SampleOf, Node.PublishOne;
    var f0, f1 := SampleOf(l.node.motors.left, s.ncfg.countsPerRev), SampleOf(l.node.motors.right, s.ncfg.countsPerRev);
    var (n1, out1) := l.node.PublishOne(s.ncfg, 0, f0, e.at.left);
    var (n2, out2) := n1.PublishOne(s.ncfg, 1, f1, e.at.right);
    IdentifiersDisjoint(s.cfg.nodes, 0, 1);
    OthersAre(l.toDriver, out1 + out2, frame);
    if frame in out2 || exists q :: 0 <= q < |n2.delayed| && n2.delayed[q].frame == frame {
      PublishOneQueues(s, n1, 1, f1, e.at.right, frame);
    }
    if frame in out1 || exists q :: 0 <= q < |n1.delayed| && n1.delayed[q].frame == frame {
      PublishOneQueues(s, l.node, 0, f0, e.at.left, frame);
    }
  }

  lemma OthersAre(q: seq<Reply>, out: seq<CanFrame>, frame: CanFrame)
    ensures (exists k :: 0 <= k < |q + Others(out)| && (q + Others(out))[k].frame == frame)
       <==> (exists k :: 0 <= k < |q| && q[k].frame == frame) || frame in out
  {
    var all := q + Others(out);
    if k :| 0 <= k < |q| && q[k].frame == frame {
      assert all[k].frame == frame;
    }
    if k :| 0 <= k < |out| && out[k] == frame {
      assert all[|q| + k].frame == frame;
    }
    if k :| 0 <= k < |all| && all[k].frame == frame && k >= |q| {
      assert out[k - |q|] == frame;
    }
  }

  /** Fewer frames for the driver and the same delay queue. */
  ghost predicate QueuesShrink(l: Loop, n: Loop) {
    n.node.delayed == l.node.delayed && forall q :: 0 <= q < |n.toDriver| ==> n.toDriver[q] in l.toDriver
  }

  lemma ShrinkingAddsNothing(l: Loop, n: Loop, frame: CanFrame)
    requires QueuesShrink(l, n) && Queued(n, frame)
    ensures Queued(l, frame)
  {
  }

  /** The driver's steps and a lost reply only take frames away. */
  lemma DriverQueuesNothing(s: Setup, l: Loop, e: Event)
    requires Admissible(s, l, e) && !e.Publish? && !e.Deliver? && !e.Update? && !e.Noise?
    ensures QueuesShrink(l, Step(s, l, e))
  {
    hide Driver.Activate, Driver.BeginRead, Driver.OnFailure, Driver.FinishRead, Driver.Write, Driver.Release,
         Driver.OnFatal, Driver.OnFrame, CountFor, Judge, Delivered;
    if e.LoseReply? {
      C.WithoutIsLess(l.toDriver, e.j);
    }
  }

  lemma UpdateMovesFrames(s: Setup, l: Loop, e: Event, frame: CanFrame)
    requires Admissible(s, l, e) && e.Update? && Queued(Step(s, l, e), frame)
    ensures Queued(l, frame)
  {
    hide Node.MoveMotor;
    OthersAre(l.toDriver, l.node.Update(s.ncfg, e.now).1, frame);
  }

  /** A report that a step puts into a queue was published there and then, or came from outside. */
  lemma NewReports(s: Setup, l: Loop, e: Event, i: nat, frame: CanFrame)
    requires s.Valid() && LoopInv(s, l) && Admissible(s, l, e) && i < 2 && IsReport(s, i, frame)
    requires Queued(Step(s, l, e), frame) && !Queued(l, frame)
    ensures (e.Publish? && Reports(s, i, l.node.motors.At(i), frame)) || (e.Noise? && e.frame == frame)
  {
    hide LoopInv, Reports, IsReport, Take, Arrive, Driven, Node.Publish, Node.Update;
    match e
    case Publish(_) => PublishQueues(s, l, e, i, frame);
    case Deliver(_) => ArrivalReportsNothing(s, l, e, i, frame);
    case Update(_) => UpdateMovesFrames(s, l, e, frame);
    case Noise(_) =>
    case _ =>
      DriverQueuesNothing(s, l, e);
      ShrinkingAddsNothing(l, Step(s, l, e), frame);
  }

  lemma ArrivalReportsNothing(s: Setup, l: Loop, e: Event, i: nat, frame: CanFrame)
    requires s.Valid() && LoopInv(s, l) && Admissible(s, l, e) && e.Deliver? && i < 2 && IsReport(s, i, frame)
    ensures Queued(Step(s, l, e), frame) ==> Queued(l, frame)
  {
    hide Node.Receive, Inv, Obey, WireSequence, EncodeAck;
    assert CommandOk(l.toMotor[0]);
    OwnCommandsDecode(s, l.node, l.toMotor[0], e.now);
    IdentifiersDisjoint(s.cfg.nodes, i, 0);
    IdentifiersDisjoint(s.cfg.nodes, i, 1);
    IdentifiersDisjoint(s.cfg.nodes, 0, i);
    IdentifiersDisjoint(s.cfg.nodes, 1, i);
  }

  /** Nobody else reports under motor `i`'s identifier. */
  ghost predicate Unforged(s: Setup, es: seq<Event>, i: nat)
    requires i < 2
  {
    forall j :: 0 <= j < |es| && es[j].Noise? ==> !IsReport(s, i, es[j].frame)
  }

  /** At step `j` motor `i` was published and the frame is that report. */
  ghost predicate PublishedAt(s: Setup, ls: seq<Loop>, es: seq<Event>, j: nat, i: nat, frame: CanFrame)
    requires j < |es| < |ls| && i < 2
  {
    es[j].Publish? && Reports(s, i, ls[j].node.motors.At(i), frame)
  }

  lemma {:induction false} QueuedWasPublished(s: Setup, ls: seq<Loop>, es: seq<Event>, k: nat, i: nat, frame: CanFrame)
    returns (j: nat)
    requires IsRun(s, ls, es) && k <= |es| && i < 2 && Unforged(s, es, i) && IsReport(s, i, frame) && Queued(ls[k], frame)
    ensures j < k && PublishedAt(s, ls, es, j, i, frame)
  {
    hide Step, LoopInv, Admissible, Queued, Reports, IsReport;
    assert !Queued(ls[0], frame) by { StartIsEmpty(ls[0], frame); }
    if k > 0 && Queued(ls[k - 1], frame) {
      j := QueuedWasPublished(s, ls, es, k - 1, i, frame);
    } else if k > 0 {
      RunOk(s, ls, es, k - 1);
      NewReports(s, ls[k - 1], es[k - 1], i, frame);
      j := k - 1;
    }
  }

  lemma StartIsEmpty(l: Loop, frame: CanFrame)
    requires Start(l)
    ensures !Queued(l, frame)
  {
  }

  // ---- What the driver measures --------------------------------------------------------------------------------

  /** The driver's velocity and position for motor `i` are a sample of that motor. */
  predicate Measured(s: Setup, d: Driver, i: nat, m: Motor)
    requires i < 2
  {
    var f := SampleOf(m, s.ncfg.countsPerRev);
    d.velocities.At(i) == f.velocity as real / 1000.0 && d.positions.At(i) == Radians(f.encoderCount, s.cfg.countsPerRev)
  }

  lemma ReportIsMeasured(s: Setup, d: Driver, i: nat, m: Motor, frame: CanFrame, at: int)
    requires s.Valid() && i < 2 && Reports(s, i, m, frame)
    ensures var n := d.OnFrame(s.cfg, frame, at); Measured(s, n, i, m) || SameMeasurement(d, n, i)
  {
    hide EncodeFeedback, DecodeFeedback, SampleOf, Radians, Driver.OnFrame;
    var f := SampleOf(m, s.ncfg.countsPerRev);
    SampleIsMeasured(s, d, i, f, at);
    ReportIsRouted(s, d, i, f, 7, at);
    assert DecodeFeedback(EncodeFeedback(f), 7) == None by { ShortIsMalformed(EncodeFeedback(f)); }
  }

  lemma ShortIsMalformed(data: FrameData)
    ensures DecodeFeedback(data, 7) == None
  {
  }

  predicate SameMeasurement(d: Driver, n: Driver, i: nat)
    requires i < 2
  {
    n.velocities.At(i) == d.velocities.At(i) && n.positions.At(i) == d.positions.At(i)
  }

  lemma OtherFramesMeasureNothing(s: Setup, d: Driver, i: nat, frame: CanFrame, at: int)
    requires s.Valid() && i < 2 && !IsReport(s, i, frame)
    ensures SameMeasurement(d, d.OnFrame(s.cfg, frame, at), i)
  {
    hide Driver.OnFeedback, Driver.OnAck;
    if frame.Data? {
      OthersMeasureNothing(s, d, 0, i, frame.dlc, frame.data, at);
      OthersMeasureNothing(s, d, 1, i, frame.dlc, frame.data, at);
    }
  }

  lemma OthersMeasureNothing(s: Setup, d: Driver, j: nat, i: nat, dlc: nat, data: FrameData, at: int)
    requires j < 2 && i < 2
    ensures SameMeasurement(d, d.OnAck(s.cfg, j, dlc, data), i)
    ensures i != j ==> SameMeasurement(d, d.OnFeedback(s.cfg, j, dlc, data, at), i)
  {
    hide DecodeFeedback, DecodeAck, Radians, Health.AckReceived;
  }

  lemma LatchMeasuresNothing(d: Driver, ok: Pair<bool>, i: nat)
    requires i < 2
    ensures SameMeasurement(d, d.Latch(ok), i)
  {
    hide Driver.SendSafeStop;
    R.SafeStopAdds(d.(commands := Pair(0.0, 0.0), latched := true, state := SafeStop, stopAttempted := true,
                      health := d.health.MarkStopSent()), ok);
  }

  lemma WriteMeasuresNothing(d: Driver, k: nat, sent: bool, at: int, ok: Pair<bool>, i: nat)
    requires i < 2 && k < 2
    ensures SameMeasurement(d, d.WriteOne(k, sent, at, ok).0, i)
  {
    hide Driver.Latch, WireVelocity, CountFor;
    LatchMeasuresNothing(d.Send(k, true, d.commands.At(k), true, sent, at).0.Because(CanSendError), ok, i);
  }

  lemma ReleaseMeasuresNothing(d: Driver, ok: Pair<bool>, i: nat)
    requires i < 2
    ensures SameMeasurement(d, d.Release(ok).0, i)
  {
    hide Driver.SendSafeStop;
    var quiet := d.(commands := Pair(0.0, 0.0));
    R.SafeStopAdds(quiet, ok);
    R.SafeStopAdds(quiet.(stopAttempted := true, health := quiet.health.MarkStopSent()), ok);
  }

  lemma ActivationMeasuresNothing(d: Driver, open: bool, ok: Pair<bool>, now: int, i: nat)
    requires i < 2
    ensures SameMeasurement(d, d.Activate(open, ok, now).0, i)
  {
    hide Driver.SendSafeStop;
    R.SafeStopAdds(d.Opened(now), ok);
  }

  lemma FinishMeasuresNothing(cfg: Config, d: Driver, now: int, ok: Pair<bool>, i: nat)
    requires i < 2
    ensures SameMeasurement(d, d.FinishRead(cfg, now, ok), i)
  {
    hide Driver.Latch, Driver.BlameMotor, Driver.Overdue;
    Blames(cfg, d, now);
    LatchMeasuresNothing(d.BlameMotor(cfg, 0, now).BlameMotor(cfg, 1, now), ok, i);
  }

  /** Only a report that is taken changes a measurement. */
  lemma OnlyReportsMeasure(s: Setup, l: Loop, e: Event, i: nat)
    requires s.Valid() && Admissible(s, l, e) && i < 2
    requires !(e.Receive? && IsReport(s, i, l.toDriver[0].frame))
    ensures SameMeasurement(l.drv, Step(s, l, e).drv, i)
  {
    hide Driver.OnFrame, Driver.Activate, Driver.FinishRead, Driver.WriteOne, Driver.Release, Driver.Latch,
         Node.Receive, Node.Update, Node.Publish, CountFor, Judge;
    var d := l.drv;
    match e
    case Activate(open, ok, now) => ActivationMeasuresNothing(d, open, ok, now, i);
    case BeginRead(ok) => LatchMeasuresNothing(d.(reason := CanReceiveUnavailable), ok, i);
    case Receive(now, ok) =>
      var frame := l.toDriver[0].frame;
      if d.IsFatal(frame) {
        LatchMeasuresNothing(d.(reason := CanBusOff), ok, i);
        LatchMeasuresNothing(d.(reason := CanTxTimeout), ok, i);
      } else {
        OtherFramesMeasureNothing(s, d, i, frame, now);
      }
    case ReceiveFails(ok) => LatchMeasuresNothing(d.Because(CanReceiveError), ok, i);
    case FinishRead(now, ok) => FinishMeasuresNothing(s.cfg, d, now, ok, i);
    case Write(sent, at, ok) =>
      LatchMeasuresNothing(d.(reason := CanSendUnavailable), ok, i);
      WriteMeasuresNothing(d, 0, sent.left, at.left, ok, i);
      WriteMeasuresNothing(d.WriteOne(0, sent.left, at.left, ok).0, 1, sent.right, at.right, ok, i);
    case Release(ok) => ReleaseMeasuresNothing(d, ok, i);
    case _ =>
  }

  lemma TakenIsQueued(s: Setup, l: Loop, e: Event)
    requires Admissible(s, l, e) && e.Receive?
    ensures Queued(l, l.toDriver[0].frame)
    ensures l.toDriver[0].frame.Data? ==> Step(s, l, e).drv == l.drv.OnFrame(s.cfg, l.toDriver[0].frame, e.now)
  {
    hide Driver.OnFrame, Driver.OnFatal, Judge;
  }

  /** Step `j` published motor `i`, and that sample is what driver `d` has for it. */
  ghost predicate SampledAt(s: Setup, ls: seq<Loop>, es: seq<Event>, j: nat, d: Driver, i: nat)
    requires j < |es| < |ls| && i < 2
  {
    es[j].Publish? && Measured(s, d, i, ls[j].node.motors.At(i))
  }

  /** The driver has the initial zeros for motor `i`, or one of its samples published before step `k`. */
  ghost predicate SampledBefore(s: Setup, ls: seq<Loop>, es: seq<Event>, k: nat, d: Driver, i: nat)
    requires k <= |es| < |ls| && i < 2
  {
    || (d.velocities.At(i) == 0.0 && d.positions.At(i) == 0.0)
    || exists j :: 0 <= j < k && SampledAt(s, ls, es, j, d, i)
  }

  lemma SampleKept(s: Setup, ls: seq<Loop>, es: seq<Event>, k: nat, d: Driver, n: Driver, i: nat)
    requires k < |es| < |ls| && i < 2 && SampledBefore(s, ls, es, k, d, i) && SameMeasurement(d, n, i)
    ensures SampledBefore(s, ls, es, k + 1, n, i)
  {
    hide SampleOf, Radians;
    if j :| 0 <= j < k && SampledAt(s, ls, es, j, d, i) {
      assert SampledAt(s, ls, es, j, n, i);
    }
  }

  /** One step, given where the reports in the queues come from. */
  lemma SampleStep(s: Setup, ls: seq<Loop>, es: seq<Event>, k: nat, i: nat)
    requires IsRun(s, ls, es) && k < |es| && i < 2 && Unforged(s, es, i)
    requires SampledBefore(s, ls, es, k, ls[k].drv, i)
    ensures SampledBefore(s, ls, es, k + 1, ls[k + 1].drv, i)
  {
    hide Step, Reports, Queued, Measured, Driver.OnFrame, SampledBefore, SameMeasurement;
    var l, e := ls[k], es[k];
    if e.Receive? && IsReport(s, i, l.toDriver[0].frame) {
      var frame := l.toDriver[0].frame;
      TakenIsQueued(s, l, e);
      var j := QueuedWasPublished(s, ls, es, k, i, frame);
      ReportIsMeasured(s, l.drv, i, ls[j].node.motors.At(i), frame, e.now);
      if SameMeasurement(l.drv, ls[k + 1].drv, i) {
        SampleKept(s, ls, es, k, l.drv, ls[k + 1].drv, i);
      } else {
        NewSample(s, ls, es, k + 1, j, ls[k + 1].drv, i);
      }
    } else {
      OnlyReportsMeasure(s, l, e, i);
      SampleKept(s, ls, es, k, l.drv, ls[k + 1].drv, i);
    }
  }

  lemma NewSample(s: Setup, ls: seq<Loop>, es: seq<Event>, k: nat, j: nat, d: Driver, i: nat)
    requires j < k <= |es| < |ls| && i < 2 && SampledAt(s, ls, es, j, d, i)
    ensures SampledBefore(s, ls, es, k, d, i)
  {
  }

  /**
    Every measurement is a past sample of the right wheel: in every run where nobody else reports under
    the motor's identifier, the driver's velocity and position for it are the initial zeros or those of
    one earlier publication.
  */
  lemma {:induction false} MeasurementIsSampled(s: Setup, ls: seq<Loop>, es: seq<Event>, k: nat, i: nat)
    requires IsRun(s, ls, es) && k <= |es| && i < 2 && Unforged(s, es, i)
    ensures SampledBefore(s, ls, es, k, ls[k].drv, i)
  {
    hide Step, SampledAt, Admissible;
    if k == 0 {
      assert Start(ls[0]);
    } else {
      MeasurementIsSampled(s, ls, es, k - 1, i);
      SampleStep(s, ls, es, k - 1, i);
    }
  }

  /**
    And a sample is close: what the driver has from step `j` is within half a milliradian per second of
    the wheel's velocity then, and within half an encoder count of its position while the count is unsaturated.
  */
  lemma SampleIsClose(s: Setup, ls: seq<Loop>, es: seq<Event>, j: nat, d: Driver, i: nat)
    requires IsRun(s, ls, es) && j < |es| && i < 2 && SampledAt(s, ls, es, j, d, i)
    ensures Abs(d.velocities.At(i) - ls[j].node.motors.At(i).velocity) <= 0.0005
    ensures var m, c := ls[j].node.motors.At(i), s.cfg.countsPerRev;
      INT32_MIN <= Round(FeedbackPath.Counts(m.position, c)) <= INT32_MAX ==>
        Abs(d.positions.At(i) - m.position) * c as real <= TWO_PI / 2.0
  {
    hide Step, LoopInv, Radians, FeedbackPath.Counts, Motor.EncoderCount, Round;
    var m := ls[j].node.motors.At(i);
    FeedbackNeverClamps(s, ls, es, j, i);
    RoundIsNearest(m.velocity * 1000.0, 0, 0);
    if INT32_MIN <= Round(FeedbackPath.Counts(m.position, s.cfg.countsPerRev)) <= INT32_MAX {
      PositionWithinHalfCount(m, s.cfg.countsPerRev);
    }
  }

  /** A publication that fault injection spares puts the motor's report into a queue, full-length unless injected otherwise. */
  lemma PublicationIsQueued(s: Setup, l: Loop, e: Event, i: nat)
    requires Admissible(s, l, e) && e.Publish? && i < 2
    requires var count := l.node.feedbackCount + 1 + i;
      !s.ncfg.DropsFeedback(i, count) && !EveryN(s.ncfg.malformedFeedbackEveryN, count)
    ensures Queued(Step(s, l, e), FeedbackFrame(s.ncfg.nodes, i, SampleOf(l.node.motors.At(i), s.ncfg.countsPerRev), 8))
  {
    hide FeedbackFrame, SampleOf, EveryN;
    var f0, f1 := SampleOf(l.node.motors.left, s.ncfg.countsPerRev), SampleOf(l.node.motors.right, s.ncfg.countsPerRev);
    var (n1, out1) := l.node.PublishOne(s.ncfg, 0, f0, e.at.left);
    var (n2, out2) := n1.PublishOne(s.ncfg, 1, f1, e.at.right);
    var frame := FeedbackFrame(s.ncfg.nodes, i, if i == 0 then f0 else f1, 8);
    OthersAre(l.toDriver, out1 + out2, frame);
    if s.ncfg.feedbackDelayMs != 0 {
      var at := |l.node.delayed| + (if i == 0 then 0 else |n1.delayed| - |l.node.delayed|);
      assert n2.delayed[at].frame == frame;
    }
  }

  /**
    Steady state is exact, end to end: from the step at which the motor takes a command that the
    controller holds, while it is fed in time, its velocity closes on the wire value of that command at the full acceleration; and once
    a * t has reached the gap, every publication's report, when the driver takes it, sets its velocity
    to exactly the rounded, clamped command.
  */
  lemma SteadyStateIsExact(s: Setup, ls: seq<Loop>, es: seq<Event>, k: nat, m: nat, r: nat, i: nat, c: real)
    requires IsRun(s, ls, es) && k < m < r < |es| && i < 2 && Holding(ls[k], i, c) && Takes(s, ls[k], es[k], i)
    requires Undisturbed(ls, es, k, m, i) && Fed(ls, es, k, m, i)
    requires es[m].Publish? && es[r].Receive?
    requires ls[r].toDriver[0].frame
          == FeedbackFrame(s.ncfg.nodes, i, SampleOf(ls[m].node.motors.At(i), s.ncfg.countsPerRev), 8)
    ensures var goal := WireVelocity(c) as real / 1000.0;
      var w, n := ls[k].node.motors.At(i), ls[m].node.motors.At(i);
      var t := Seconds(ls[m].node.lastUpdate - ls[k].node.lastUpdate);
      && Abs(goal - n.velocity) == Remaining(goal - w.velocity, s.ncfg.maxAcceleration, t)
      && (s.ncfg.maxAcceleration * t >= Abs(goal - w.velocity) ==> ls[r + 1].drv.velocities.At(i) == goal)
  {
    hide Step, LoopInv, Holding, WireVelocity, Driver.OnFrame, SampleOf, EncodeFeedback, Undisturbed, Fed, Seconds;
    HeldCommandRamps(s, ls, es, k, m, i, c);
    var n := ls[m].node.motors.At(i);
    TakenIsQueued(s, ls[r], es[r]);
    SampleIsMeasured(s, ls[r].drv, i, SampleOf(n, s.ncfg.countsPerRev), es[r].now);
    if n.velocity == WireVelocity(c) as real / 1000.0 {
      WholeVelocityIsExact(n, s.ncfg.countsPerRev, WireVelocity(c));
    }
  }

  /** And the wire value is the nearest milliradian per second to the command, unless the wire saturates. */
  lemma WireVelocityIsNearest(c: real)
    ensures Abs(WireVelocity(c) as real / 1000.0 - Clamp(c, WIRE_MIN, WIRE_MAX)) <= 0.0005
  {
    RoundIsNearest(Clamp(c * 1000.0, INT16_MIN as real, INT16_MAX as real), INT16_MIN, INT16_MAX);
    assert Clamp(c * 1000.0, INT16_MIN as real, INT16_MAX as real) == 1000.0 * Clamp(c, WIRE_MIN, WIRE_MAX);
  }
}
