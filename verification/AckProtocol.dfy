/** What the ACK window guarantees over every run of the closed loop. */
module AckProtocol {
  import opened Basics
  import opened CanProtocol
  import opened HardwareHealth
  import opened VirtualMotor
  import opened DriverModel
  import opened DriverInvariants
  import opened ClosedLoop
  import opened ChannelSimulation
  import C = AckChannel

  predicate SmallWindows(l: Loop) {
    l.drv.state == Active ==> |l.drv.health.pending.left| <= 0x100 && |l.drv.health.pending.right| <= 0x100
  }

  /** In no state up to `k` are more than 256 commands pending for one motor. */
  ghost predicate Bounded(ls: seq<Loop>, k: nat)
    requires k < |ls|
  {
    forall j :: 0 <= j <= k ==> SmallWindows(ls[j])
  }

  /** No activation up to step `k` has succeeded with a command still in flight. */
  ghost predicate Quiet(ls: seq<Loop>, es: seq<Event>, k: nat)
    requires k <= |es| < |ls|
  {
    forall j :: 0 <= j < k && es[j].Activate? && ls[j + 1].drv.state == Active ==> ls[j].toMotor == []
  }

  /** Nothing is lost in the first `k` steps. */
  ghost predicate FaithfulUpTo(s: Setup, ls: seq<Loop>, es: seq<Event>, k: nat)
    requires k <= |es| < |ls|
  {
    forall j :: 0 <= j < k ==> Faithful(s, ls[j], es[j])
  }

  lemma {:induction false} ChannelHolds(s: Setup, ls: seq<Loop>, es: seq<Event>, k: nat, i: nat)
    requires IsRun(s, ls, es) && k <= |es| && i < 2 && Bounded(ls, k) && Quiet(ls, es, k)
    ensures ls[k].drv.state == Active ==> C.ChannelInv(ChannelOf(ls[k], i))
  {
    hide Step, Admissible, LoopInv, C.ChannelInv, CountFor, Pick;
    if k > 0 && ls[k].drv.state == Active {
      RunOk(s, ls, es, k - 1);
      if es[k - 1].Activate? {
        ActivateOpens(s, ls[k - 1], es[k - 1], i);
        C.OpenedInv(CountFor(ls[k].drv.log, i), ls[k - 1].applied.At(i));
      } else {
        var a := StepMoves(s, ls[k - 1], es[k - 1], i);
        ChannelHolds(s, ls, es, k - 1, i);
        assert SmallWindows(ls[k - 1]);
        if a.Some? {
          C.ActionKeeps(ChannelOf(ls[k - 1], i), a.value);
        }
      }
    } else if k == 0 {
      assert Start(ls[0]);
    }
  }

  /** At step `j` the command with attempt number `n` reached motor `i`, and the motor obeyed it. */
  ghost predicate ObeyedAt(s: Setup, ls: seq<Loop>, es: seq<Event>, j: nat, i: nat, n: nat)
    requires j < |es| && |ls| == |es| + 1 && i < 2
  {
    && es[j].Deliver? && ls[j].toMotor != []
    && var a := ls[j].toMotor[0];
       && a.motor == i && a.number == n
       && ls[j + 1].node.motors.At(i)
          == Obey(ls[j].node.motors.At(i), Command(a.sequence, a.enabled, a.velocity, s.cfg.watchdogMs))
  }

  lemma ArrivalApplies(s: Setup, l: Loop, e: Event, i: nat)
    requires s.Valid() && LoopInv(s, l) && Admissible(s, l, e) && e.Deliver? && i < 2
    ensures var n, a := Step(s, l, e), l.toMotor[0];
      n.applied.At(i) == l.applied.At(i) ||
        (&& a.motor == i && n.applied.At(i) == l.applied.At(i) + {a.number}
         && n.node.motors.At(i) == Obey(l.node.motors.At(i), Command(a.sequence, a.enabled, a.velocity, s.cfg.watchdogMs)))
  {
    hide Node.Receive, Inv, AckFrame, Obey, NotAck, WireSequence, CountFor;
    assert CommandOk(l.toMotor[0]);
    OwnCommandsDecode(s, l.node, l.toMotor[0], e.now);
  }

  lemma OnlyArrivalsApply(s: Setup, l: Loop, e: Event)
    requires Admissible(s, l, e) && !e.Deliver?
    ensures Step(s, l, e).applied == l.applied
  {
    hide Driver.Activate, Driver.BeginRead, Driver.OnFailure, Driver.FinishRead, Driver.Write, Driver.Release,
         Driver.OnFatal, Driver.OnFrame, Node.Update, Node.Publish, CountFor, Judge;
  }

  /** Applied means obeyed: a number is in a motor's applied set only through a step at which that motor obeyed it. */
  lemma {:induction false} AppliedMeansObeyed(s: Setup, ls: seq<Loop>, es: seq<Event>, k: nat, i: nat, n: nat)
    returns (j: nat)
    requires IsRun(s, ls, es) && k <= |es| && i < 2 && n in ls[k].applied.At(i)
    ensures j < k && ObeyedAt(s, ls, es, j, i, n)
  {
    hide Step, LoopInv, Obey;
    assert Start(ls[0]);
    if k > 0 && n in ls[k - 1].applied.At(i) {
      j := AppliedMeansObeyed(s, ls, es, k - 1, i, n);
    } else if k > 0 {
      RunOk(s, ls, es, k - 1);
      if es[k - 1].Deliver? {
        ArrivalApplies(s, ls[k - 1], es[k - 1], i);
      } else {
        OnlyArrivalsApply(s, ls[k - 1], es[k - 1]);
      }
      j := k - 1;
    }
  }

  /**
    ACCEPTED means applied: over in-order queues that may lose commands and ACKs, while at most 256
    commands are pending, every ACK the driver takes is accepted exactly when it answers, by attempt
    number, the oldest pending command; the motor had obeyed the acknowledged command at an earlier
    step; and nothing is ever rejected. Wrap-around, the ignored slot and ACKs after a bad one included.
  */
  lemma AcceptedMeansApplied(s: Setup, ls: seq<Loop>, es: seq<Event>, k: nat, i: nat, j: nat)
    requires IsRun(s, ls, es) && k <= |es| && i < 2 && Bounded(ls, k) && Quiet(ls, es, k)
    requires ls[k].drv.state == Active && j < |ls[k].verdicts.At(i)|
    ensures var v := ls[k].verdicts.At(i)[j];
      && (v.status == Accepted <==> v.window > 0 && v.number == v.oldest)
      && v.applied && v.status != Rejected
      && (exists at :: 0 <= at < k && ObeyedAt(s, ls, es, at, i, v.number))
      && (v.status == Ignored ==>
            v.number == ls[k].stops.At(i)
            || (v.number > v.oldest && WireSequence(v.number) == WireSequence(ls[k].stops.At(i))))
  {
    hide Step, Admissible, CountFor, Pick, ObeyedAt;
    ChannelHolds(s, ls, es, k, i);
    assert C.Sound(ChannelOf(ls[k], i), ChannelOf(ls[k], i).verdicts[j]);
    var at := AppliedMeansObeyed(s, ls, es, k, i, ls[k].verdicts.At(i)[j].number);
  }

  // ---- Loss is caught --------------------------------------------------------------------------------

  /** A lost command is never popped: it stays outstanding for the rest of the session. */
  lemma {:induction false} LostIsNeverPopped(s: Setup, ls: seq<Loop>, es: seq<Event>, k: nat, m: nat, i: nat, n: nat)
    requires IsRun(s, ls, es) && k <= m <= |es| && i < 2 && Bounded(ls, m) && Quiet(ls, es, m)
    requires forall j :: k <= j < m ==> !es[j].Activate?
    requires ls[k].drv.state == Active ==> C.Lost(ChannelOf(ls[k], i), n)
    requires ls[m].drv.state == Active
    ensures ls[k].drv.state == Active && C.Lost(ChannelOf(ls[m], i), n)
    decreases m
  {
    hide Step, Admissible, LoopInv, C.ChannelInv, C.Lost, CountFor, Pick;
    if k < m {
      RunOk(s, ls, es, m - 1);
      var a := StepMoves(s, ls[m - 1], es[m - 1], i);
      LostIsNeverPopped(s, ls, es, k, m - 1, i, n);
      ChannelHolds(s, ls, es, m - 1, i);
      assert SmallWindows(ls[m - 1]);
      if a.Some? {
        C.LostStaysLost(ChannelOf(ls[m - 1], i), a.value, n);
      }
    }
  }

  predicate NoneUnexpected(verdicts: seq<C.Verdict>) {
    forall j :: 0 <= j < |verdicts| ==> verdicts[j].status != Unexpected
  }

  /** The ACK fault is set exactly when an ACK of this session was unexpected. */
  predicate FaultSeen(l: Loop) {
    l.drv.state == Active ==>
      (!l.drv.health.ackFault <==> NoneUnexpected(l.verdicts.left) && NoneUnexpected(l.verdicts.right))
  }

  lemma OneMore(verdicts: seq<C.Verdict>, v: C.Verdict)
    ensures NoneUnexpected(verdicts + [v]) <==> NoneUnexpected(verdicts) && v.status != Unexpected
  {
    assert (verdicts + [v])[|verdicts|] == v;
    assert forall j :: 0 <= j < |verdicts| ==> (verdicts + [v])[j] == verdicts[j];
  }

  lemma FaultSeenByRead(s: Setup, l: Loop, e: Event)
    requires s.Valid() && LoopInv(s, l) && Admissible(s, l, e) && e.Receive? && FaultSeen(l)
    ensures FaultSeen(Step(s, l, e))
  {
    hide Driver.OnFatal, Driver.OnFrame, CountFor, WireSequence, Inv, AckFrame, NotAck, Driven, Health.AckReceived;
    var reply := l.toDriver[0];
    assert ReplyOk(s, reply);
    if l.drv.IsFatal(reply.frame) {
      OnFatalKeeps(l.drv, reply.frame, e.ok);
      DrivenIs(l.(toDriver := l.toDriver[1..], budget := l.budget - 1, clock := e.now, reading := false),
               l.drv.OnFatal(reply.frame, e.ok));
    } else if reply.AckReply? {
      AckIsHeard(s, l.drv, reply.motor, WireSequence(reply.number), e.now);
      C.MatchIsTheTracker(l.drv.health, reply.motor, WireSequence(reply.number));
      OneMore(l.verdicts.At(reply.motor), Judge(l, reply.motor, reply.number));
    } else {
      OtherKeepsFault(s, l.drv, reply.frame, e.now);
    }
  }

  lemma OtherKeepsFault(s: Setup, d: Driver, frame: CanFrame, at: int)
    requires NotAck(s.cfg.nodes, frame)
    ensures d.OnFrame(s.cfg, frame, at).health.ackFault == d.health.ackFault
  {
    hide DecodeFeedback, DecodeAck, Radians;
  }

  lemma FaultSeenByOthers(s: Setup, l: Loop, e: Event)
    requires s.Valid() && LoopInv(s, l) && Admissible(s, l, e) && !e.Receive? && FaultSeen(l)
    ensures FaultSeen(Step(s, l, e))
  {
    hide Driver.Activate, Driver.BeginRead, Driver.OnFailure, Driver.FinishRead, Driver.Write, Driver.Release,
         Node.Receive, Node.Update, Node.Publish, Inv, CountFor, BusOk;
    var d := l.drv;
    match e
    case Activate(open, ok, now) => ActivateKeeps(d, open, ok, now);
    case BeginRead(ok) => BeginReadKeeps(d, ok);
    case ReceiveFails(ok) => OnFailureKeeps(d, ok);
    case FinishRead(now, ok) => FinishReadKeeps(s.cfg, d, now, ok); StateAndLatch(d.FinishRead(s.cfg, now, ok));
    case Write(sent, at, ok) =>
      WriteKeeps(d, sent, at, ok);
      if d.Write(sent, at, ok).0.state == Active {
        WriteSends(d, sent, at, ok);
      }
    case Release(ok) => ReleaseKeeps(d, ok); StateAndLatch(d.Release(ok).0);
    case _ =>
  }

  lemma {:induction false} FaultIsSeen(s: Setup, ls: seq<Loop>, es: seq<Event>, k: nat)
    requires IsRun(s, ls, es) && k <= |es|
    ensures FaultSeen(ls[k])
  {
    hide Step, Admissible, LoopInv, FaultSeen;
    if k > 0 {
      RunOk(s, ls, es, k - 1);
      FaultIsSeen(s, ls, es, k - 1);
      if es[k - 1].Receive? {
        FaultSeenByRead(s, ls[k - 1], es[k - 1]);
      } else {
        FaultSeenByOthers(s, ls[k - 1], es[k - 1]);
      }
    } else {
      assert FaultSeen(ls[0]) by { StartHasNoVerdicts(ls[0]); }
    }
  }

  lemma StartHasNoVerdicts(l: Loop)
    requires Start(l)
    ensures FaultSeen(l)
  {
  }

  /**
    Behind a lost command, between callbacks of an active driver, at most one later ACK has been taken;
    it went into the ignored slot, which is empty now, and only because the activation stop's own ACK
    never arrived. The next later ACK latches the fault.
  */
  lemma LostIsCaught(s: Setup, ls: seq<Loop>, es: seq<Event>, k: nat, i: nat, n: nat, j: nat, j': nat)
    requires IsRun(s, ls, es) && k <= |es| && i < 2 && Bounded(ls, k) && Quiet(ls, es, k)
    requires ls[k].drv.state == Active && !ls[k].reading
    requires C.Lost(ChannelOf(ls[k], i), n)
    requires j < |ls[k].verdicts.At(i)| && ls[k].verdicts.At(i)[j].number > n
    ensures ls[k].verdicts.At(i)[j].status == Ignored && ls[k].drv.health.ignored.At(i) == None
    ensures j' < |ls[k].verdicts.At(i)| ==> ls[k].verdicts.At(i)[j'].number != ls[k].stops.At(i)
    ensures j' < |ls[k].verdicts.At(i)| && j' != j ==> ls[k].verdicts.At(i)[j'].number <= n
  {
    hide Step, Admissible, CountFor, Pick, C.ChannelInv;
    RunOk(s, ls, es, k);
    FaultIsSeen(s, ls, es, k);
    ChannelHolds(s, ls, es, k, i);
    C.LaterAcksAreCaught(ChannelOf(ls[k], i), n, j, j');
  }

  /** Any loss of a session's command, of its ACK, or of it to fault injection, makes it a lost command. */
  lemma LossMakesLost(s: Setup, ls: seq<Loop>, es: seq<Event>, q: nat, i: nat, n: nat)
    requires IsRun(s, ls, es) && q < |es| && i < 2 && Bounded(ls, q) && Quiet(ls, es, q)
    requires LossOf(s, ls[q], es[q], i, n) && n != ls[q].stops.At(i) && ls[q].drv.state == Active
    ensures ls[q + 1].drv.state == Active && C.Lost(ChannelOf(ls[q + 1], i), n)
  {
    hide Step, Admissible, LoopInv, C.ChannelInv, C.Lost, CountFor, Pick;
    RunOk(s, ls, es, q);
    ChannelHolds(s, ls, es, q, i);
    LossKeepsDriver(s, ls[q], es[q], i, n);
    var a := StepMoves(s, ls[q], es[q], i);
    C.LossMakesLost(ChannelOf(ls[q], i), a.value);
  }

  lemma LossKeepsDriver(s: Setup, l: Loop, e: Event, i: nat, n: nat)
    requires Admissible(s, l, e) && i < 2 && LossOf(s, l, e, i, n)
    ensures !e.Activate? && Step(s, l, e).drv == l.drv
  {
    hide Node.Receive;
  }

  /** If ACK `j` of the session is later than attempt `n`, it was ignored in the stop's place and ACK `j'` is no other such. */
  ghost predicate Absorbed(l: Loop, i: nat, n: nat, j: nat, j': nat)
    requires i < 2 && j < |l.verdicts.At(i)| && j' < |l.verdicts.At(i)|
  {
    l.verdicts.At(i)[j].number > n ==>
      && l.verdicts.At(i)[j].status == Ignored && l.drv.health.ignored.At(i) == None
      && l.verdicts.At(i)[j'].number != l.stops.At(i)
      && (j' != j ==> l.verdicts.At(i)[j'].number <= n)
  }

  ghost predicate OneLaterAtMost(l: Loop, i: nat, n: nat)
    requires i < 2
  {
    forall j, j' :: 0 <= j < |l.verdicts.At(i)| && 0 <= j' < |l.verdicts.At(i)| ==> Absorbed(l, i, n, j, j')
  }

  /**
    Loss is caught: from the step at which a tracked command or its ACK is lost, to the end of the
    session, the command stays outstanding, and between callbacks of the still active driver at most
    one later ACK has been taken: an ignored one, in place of the activation stop's, whose own ACK
    never arrived. So the second later ACK at the latest, or the first if that one did arrive, latches.
  */
  lemma LossIsCaught(s: Setup, ls: seq<Loop>, es: seq<Event>, q: nat, k: nat, i: nat, n: nat)
    requires IsRun(s, ls, es) && q < k <= |es| && i < 2 && Bounded(ls, k) && Quiet(ls, es, k)
    requires LossOf(s, ls[q], es[q], i, n) && n != ls[q].stops.At(i) && ls[q].drv.state == Active
    requires forall j :: q < j < k ==> !es[j].Activate?
    requires ls[k].drv.state == Active && !ls[k].reading
    ensures C.Lost(ChannelOf(ls[k], i), n)
    ensures OneLaterAtMost(ls[k], i, n)
  {
    hide Step, Admissible, C.Lost, ChannelOf, LossOf, LoopInv;
    assert Bounded(ls, q) && Quiet(ls, es, q);
    LossMakesLost(s, ls, es, q, i, n);
    LostIsNeverPopped(s, ls, es, q + 1, k, i, n);
    forall j, j' | 0 <= j < |ls[k].verdicts.At(i)| && 0 <= j' < |ls[k].verdicts.At(i)|
      ensures Absorbed(ls[k], i, n, j, j')
    {
      if ls[k].verdicts.At(i)[j].number > n {
        LostIsCaught(s, ls, es, k, i, n, j, j');
      }
    }
  }

  // ---- Why activation needs a quiet bus ---------------------------------------------------------------------

  /** On every run, whatever was in flight at the activation. */
  lemma {:induction false} SessionHolds(s: Setup, ls: seq<Loop>, es: seq<Event>, k: nat, i: nat)
    requires IsRun(s, ls, es) && k <= |es| && i < 2
    ensures ls[k].drv.state == Active ==> C.Session(ChannelOf(ls[k], i))
  {
    hide Step, Admissible, LoopInv, CountFor, Pick, Contiguous;
    if k > 0 && ls[k].drv.state == Active {
      RunOk(s, ls, es, k - 1);
      if es[k - 1].Activate? {
        ActivateOpens(s, ls[k - 1], es[k - 1], i);
        C.OpenedSession(Pick(CommandTags(ls[k - 1].toMotor), i), CountFor(ls[k].drv.log, i), ls[k - 1].applied.At(i));
      } else {
        var a := StepMoves(s, ls[k - 1], es[k - 1], i);
        SessionHolds(s, ls, es, k - 1, i);
        if a.Some? {
          C.SessionKept(ChannelOf(ls[k - 1], i), a.value);
        }
      }
    } else if k == 0 {
      assert Start(ls[0]);
    }
  }

  /** Within a session classifications are only added. */
  lemma {:induction false} VerdictsGrow(s: Setup, ls: seq<Loop>, es: seq<Event>, k: nat, m: nat, i: nat)
    requires IsRun(s, ls, es) && k <= m <= |es| && i < 2
    requires forall j :: k <= j < m ==> !es[j].Activate?
    requires ls[m].drv.state == Active
    ensures ls[k].drv.state == Active && ls[k].verdicts.At(i) <= ls[m].verdicts.At(i)
    decreases m
  {
    hide Step, Admissible, LoopInv, CountFor, Pick, C.Session;
    if k < m {
      RunOk(s, ls, es, m - 1);
      var a := StepMoves(s, ls[m - 1], es[m - 1], i);
      SessionHolds(s, ls, es, m - 1, i);
      if a.Some? {
        C.SessionKept(ChannelOf(ls[m - 1], i), a.value);
      }
      VerdictsGrow(s, ls, es, k, m - 1, i);
    }
  }

  /** Step `k` takes from the receiver the ACK of motor `i`'s attempt `n`. */
  predicate TakesAck(l: Loop, e: Event, i: nat, n: nat) {
    e.Receive? && l.toDriver != [] && l.toDriver[0].AckReply? && l.toDriver[0].motor == i && l.toDriver[0].number == n
  }

  lemma TakenAckIsJudged(s: Setup, l: Loop, e: Event, i: nat, n: nat)
    requires s.Valid() && LoopInv(s, l) && Admissible(s, l, e) && i < 2 && TakesAck(l, e, i, n)
    ensures l.drv.state == Active
    ensures var m := Step(s, l, e);
      && m.drv.state == Active && m.verdicts.At(i) == l.verdicts.At(i) + [Judge(l, i, n)]
      && Judge(l, i, n).status == C.Match(l.drv.health.pending.At(i), l.drv.health.ignored.At(i), WireSequence(n))
  {
    hide Driver.OnFrame, CountFor, WireSequence, Inv, AckFrame, Health.AckReceived, NotAck;
    assert ReplyOk(s, l.toDriver[0]);
    AckIsData(s, i, n);
    OnFrameKeeps(s.cfg, l.drv, l.toDriver[0].frame, e.now);
    C.MatchIsTheTracker(l.drv.health, i, WireSequence(n));
  }

  /**
    Why activation needs a quiet bus: over every run, quiet or not, an ACK of an attempt from before the
    activation is UNEXPECTED exactly when its number agrees modulo 256 neither with the oldest pending
    command nor with a stop whose ACK is still awaited, hence always within 255 of the latest attempt.
  */
  lemma StaleAckAlarms(s: Setup, ls: seq<Loop>, es: seq<Event>, k: nat, i: nat, n: nat)
    requires IsRun(s, ls, es) && k < |es| && i < 2 && TakesAck(ls[k], es[k], i, n) && n < ls[k].stops.At(i)
    ensures var c, v := ChannelOf(ls[k], i), ls[k + 1].verdicts.At(i);
      && ls[k].drv.state == Active && ls[k + 1].drv.state == Active
      && v == ls[k].verdicts.At(i) + [Judge(ls[k], i, n)]
      && (v[|v| - 1].status == Unexpected <==>
            !(c.pending != [] && n % 0x100 == c.Oldest() % 0x100) && !(c.slot.Some? && n % 0x100 == c.stop % 0x100))
      && (c.sent - n < 0x100 ==> v[|v| - 1].status == Unexpected)
  {
    hide Step, Admissible, LoopInv, CountFor, Pick, Judge, C.Session, C.Match, WireSequence, TakesAck;
    RunOk(s, ls, es, k);
    TakenAckIsJudged(s, ls[k], es[k], i, n);
    SessionHolds(s, ls, es, k, i);
    C.StaleAckAlarmsExactly(ChannelOf(ls[k], i), n);
  }

  /** And such an alarm ends the session: from then on the driver is not active between callbacks. */
  lemma StaleAckEndsSession(s: Setup, ls: seq<Loop>, es: seq<Event>, k: nat, m: nat, i: nat, n: nat)
    requires IsRun(s, ls, es) && k < m <= |es| && i < 2 && TakesAck(ls[k], es[k], i, n) && n < ls[k].stops.At(i)
    requires CountFor(ls[k].drv.log, i) - n < 0x100
    requires forall j :: k < j < m ==> !es[j].Activate?
    requires !ls[m].reading
    ensures ls[m].drv.state != Active
  {
    hide Step, Admissible, CountFor, Pick, Judge, C.Session, C.Match, WireSequence, TakesAck, Inv, BusOk;
    StaleAckAlarms(s, ls, es, k, i, n);
    if ls[m].drv.state == Active {
      VerdictsGrow(s, ls, es, k + 1, m, i);
      var v := ls[k + 1].verdicts.At(i);
      assert ls[m].verdicts.At(i)[|v| - 1] == v[|v| - 1];
      FaultIsSeen(s, ls, es, m);
      RunOk(s, ls, es, m);
    }
  }

  // ---- No false alarm on a lossless link ----------------------------------------------------------------

  lemma {:induction false} LosslessHolds(s: Setup, ls: seq<Loop>, es: seq<Event>, k: nat, i: nat)
    requires IsRun(s, ls, es) && k <= |es| && i < 2 && FaithfulUpTo(s, ls, es, k) && Quiet(ls, es, k)
    ensures ls[k].drv.state == Active ==> C.Lossless(ChannelOf(ls[k], i))
  {
    hide Step, Admissible, LoopInv, C.Lossless, Faithful, CountFor, Pick;
    if k > 0 && ls[k].drv.state == Active {
      RunOk(s, ls, es, k - 1);
      if es[k - 1].Activate? {
        ActivateOpens(s, ls[k - 1], es[k - 1], i);
        C.OpenedLossless(CountFor(ls[k].drv.log, i), ls[k - 1].applied.At(i));
      } else {
        var a := StepMoves(s, ls[k - 1], es[k - 1], i);
        LosslessHolds(s, ls, es, k - 1, i);
        assert Faithful(s, ls[k - 1], es[k - 1]);
        if a.Some? {
          C.LosslessKept(ChannelOf(ls[k - 1], i), a.value);
        }
      }
    } else if k == 0 {
      assert Start(ls[0]);
    }
  }

  /**
    No false alarm: with nothing lost and a quiescent bus at activation, the ignored number (if the
    slot is set) followed by the pending numbers is always exactly the ACKs in flight followed by the
    commands in flight, no ACK is ever rejected or unexpected, and no ACK fault is raised, for any
    queue length.
  */
  lemma NoFalseAlarm(s: Setup, ls: seq<Loop>, es: seq<Event>, k: nat, i: nat)
    requires IsRun(s, ls, es) && k <= |es| && i < 2 && FaithfulUpTo(s, ls, es, k) && Quiet(ls, es, k)
    requires ls[k].drv.state == Active
    ensures var c := ChannelOf(ls[k], i); |c.pending| <= c.sent && c.acks + c.commands == C.Expected(c)
    ensures forall j :: 0 <= j < |ls[k].verdicts.At(i)| ==>
      ls[k].verdicts.At(i)[j].status == Accepted || ls[k].verdicts.At(i)[j].status == Ignored
    ensures !ls[k].drv.health.ackFault
  {
    hide Step, Admissible, CountFor, Pick;
    LosslessHolds(s, ls, es, k, 0);
    LosslessHolds(s, ls, es, k, 1);
    FaultIsSeen(s, ls, es, k);
  }

  // ---- Deadlines and the size of the window ---------------------------------------------------------------

  lemma ChronologicalStep(s: Setup, l: Loop, e: Event, i: nat)
    requires s.Valid() && LoopInv(s, l) && Admissible(s, l, e) && i < 2 && Step(s, l, e).drv.state == Active
    requires l.drv.state == Active ==> Chronological(l.drv.health.pending.At(i), l.clock)
    ensures Chronological(Step(s, l, e).drv.health.pending.At(i), Step(s, l, e).clock)
  {
    hide Step, LoopInv, CountFor, Pick, WireSequence;
    ClockAdvances(s, l, e);
    if e.Activate? {
      ActivateOpens(s, l, e, i);
    } else {
      var a := StepMoves(s, l, e, i);
    }
  }

  /** Pending send times never decrease and lie in the past. */
  lemma {:induction false} PendingIsChronological(s: Setup, ls: seq<Loop>, es: seq<Event>, k: nat, i: nat)
    requires IsRun(s, ls, es) && k <= |es| && i < 2
    ensures ls[k].drv.state == Active ==> Chronological(ls[k].drv.health.pending.At(i), ls[k].clock)
  {
    hide Step, LoopInv, Admissible, Chronological;
    if k > 0 && ls[k].drv.state == Active {
      RunOk(s, ls, es, k - 1);
      PendingIsChronological(s, ls, es, k - 1, i);
      ChronologicalStep(s, ls[k - 1], es[k - 1], i);
    } else if k == 0 {
      assert Start(ls[0]);
    }
  }

  lemma ClockAdvances(s: Setup, l: Loop, e: Event)
    requires Admissible(s, l, e)
    ensures Step(s, l, e).clock >= l.clock
    ensures e.Write? ==> Step(s, l, e).clock == e.at.right
    ensures e.FinishRead? ==> Step(s, l, e).clock == e.now
    ensures Step(s, l, e).lastSent == if e.Write? then e.at else l.lastSent
    ensures Step(s, l, e).readSince == if e.Write? then false else if e.Activate? || e.FinishRead? then true else l.readSince
  {
    hide Driver.Activate, Driver.BeginRead, Driver.OnFailure, Driver.FinishRead, Driver.Write, Driver.Release,
         Driver.OnFatal, Driver.OnFrame, Node.Receive, Node.Update, Node.Publish, CountFor, Judge;
  }

  /** A read that ends OK leaves no pending command past its deadline, although only the oldest is looked at. */
  lemma NoOverdueAfterRead(s: Setup, ls: seq<Loop>, es: seq<Event>, k: nat, i: nat, j: nat)
    requires IsRun(s, ls, es) && k < |es| && i < 2 && es[k].FinishRead?
    requires j < |ls[k].drv.health.pending.At(i)|
    requires PastDeadline(ls[k].drv.health.pending.At(i)[j].sentAt, es[k].now, s.cfg.ackTimeout)
    ensures ls[k + 1].drv.latched
  {
    hide Inv, BusOk, Driver.FinishRead, Driver.BlameMotor;
    RunOk(s, ls, es, k);
    PendingIsChronological(s, ls, es, k, i);
    FrontDeadlineIsFullScan(ls[k].drv.health, i, es[k].now, s.cfg.ackTimeout);
    FinishReadKeeps(s.cfg, ls[k].drv, es[k].now, es[k].ok);
    DrivenIs(ls[k], ls[k].drv.FinishRead(s.cfg, es[k].now, es[k].ok));
  }

  /** The control loop reads between any two writes and writes at least `p` apart. */
  ghost predicate Paced(ls: seq<Loop>, es: seq<Event>, k: nat, p: int)
    requires k <= |es| < |ls|
  {
    forall j :: 0 <= j < k && es[j].Write? ==>
      ls[j].readSince && es[j].at.left >= ls[j].lastSent.left + p && es[j].at.right >= ls[j].lastSent.right + p
  }

  predicate Spaced(pending: seq<PendingAck>, p: int, last: int) {
    && (forall j :: 0 <= j < |pending| - 1 ==> pending[j + 1].sentAt >= pending[j].sentAt + p)
    && (pending != [] ==> pending[|pending| - 1].sentAt <= last)
  }

  lemma {:induction false} SpacedSpan(pending: seq<PendingAck>, p: int, last: int)
    requires p > 0 && pending != [] && Spaced(pending, p, last)
    ensures (|pending| - 1) * p <= last - pending[0].sentAt
    decreases |pending|
  {
    if |pending| > 1 {
      SpacedSpan(pending[..|pending| - 1], p, pending[|pending| - 2].sentAt);
    }
  }

  lemma SpanBoundsCount(n: nat, p: int, span: int)
    requires p > 0 && (n - 1) * p <= span
    ensures n <= span / p + 1
  {
    var q := span / p;
    assert span == q * p + span % p;
    assert (q + 1) * p == q * p + p;
    if n - 1 > q {
      ScaleOrder(q + 1, n - 1, p);
    }
  }

  lemma ScaleOrder(a: int, b: int, p: int)
    requires a <= b && p > 0
    ensures a * p <= b * p
  {
    assert (b - a) * p >= 0;
  }

  predicate Window(l: Loop, i: nat, p: int, timeout: int)
    requires i < 2 && p > 0
  {
    var pending := l.drv.health.pending.At(i);
    && Spaced(pending, p, l.lastSent.At(i))
    && (pending != [] ==> l.lastSent.At(i) <= l.clock)
    && |pending| <= timeout / p + (if l.readSince then 1 else 2)
  }

  lemma WindowAfterRead(s: Setup, l: Loop, now: int, i: nat, p: int)
    requires p > 0 && i < 2 && Window(l, i, p, s.cfg.ackTimeout) && l.clock <= now && s.cfg.ackTimeout > 0
    requires !l.drv.health.AckTimedOut(i, now, s.cfg.ackTimeout)
    ensures |l.drv.health.pending.At(i)| <= s.cfg.ackTimeout / p + 1
  {
    var pending := l.drv.health.pending.At(i);
    if pending != [] {
      SpacedSpan(pending, p, l.lastSent.At(i));
      SpanBoundsCount(|pending|, p, s.cfg.ackTimeout);
    } else {
      SpanBoundsCount(0, p, s.cfg.ackTimeout);
    }
  }

  lemma WindowOpens(s: Setup, l: Loop, e: Event, i: nat, p: int)
    requires s.Valid() && LoopInv(s, l) && Admissible(s, l, e) && e.Activate? && i < 2 && p > 0
    requires Step(s, l, e).drv.state == Active
    ensures Window(Step(s, l, e), i, p, s.cfg.ackTimeout)
  {
    hide Step, LoopInv, CountFor, Pick, WireSequence;
    ActivateOpens(s, l, e, i);
    SpanBoundsCount(1, p, s.cfg.ackTimeout);
  }

  lemma WindowStep(s: Setup, l: Loop, e: Event, i: nat, p: int)
    requires s.Valid() && LoopInv(s, l) && Admissible(s, l, e) && !e.Activate? && i < 2 && p > 0
    requires Window(l, i, p, s.cfg.ackTimeout) && Step(s, l, e).drv.state == Active
    requires e.Write? ==> l.readSince && e.at.left >= l.lastSent.left + p && e.at.right >= l.lastSent.right + p
    ensures Window(Step(s, l, e), i, p, s.cfg.ackTimeout)
  {
    hide Step, LoopInv, CountFor, Pick, WireSequence;
    ClockAdvances(s, l, e);
    var a := StepMoves(s, l, e, i);
    if e.FinishRead? {
      FinishedInTime(s, l, e, i);
      WindowAfterRead(s, l, e.now, i, p);
    }
  }

  /**
    The window really is bounded: if the control loop reads between writes and writes at least `p`
    apart, an active driver has at most ack_timeout / p + 2 commands pending for each motor.
  */
  lemma {:induction false} WindowIsBounded(s: Setup, ls: seq<Loop>, es: seq<Event>, k: nat, i: nat, p: int)
    requires IsRun(s, ls, es) && k <= |es| && i < 2 && p > 0 && Paced(ls, es, k, p)
    ensures ls[k].drv.state == Active ==> Window(ls[k], i, p, s.cfg.ackTimeout)
  {
    hide Step, LoopInv, Admissible, Window;
    if k > 0 && ls[k].drv.state == Active {
      RunOk(s, ls, es, k - 1);
      if es[k - 1].Activate? {
        WindowOpens(s, ls[k - 1], es[k - 1], i, p);
      } else {
        var a := StepMoves(s, ls[k - 1], es[k - 1], i);
        WindowIsBounded(s, ls, es, k - 1, i, p);
        WindowStep(s, ls[k - 1], es[k - 1], i, p);
      }
    } else if k == 0 {
      assert Start(ls[0]);
    }
  }

  lemma FinishedInTime(s: Setup, l: Loop, e: Event, i: nat)
    requires LoopInv(s, l) && Admissible(s, l, e) && e.FinishRead? && i < 2
    requires Step(s, l, e).drv.state == Active
    ensures !l.drv.health.AckTimedOut(i, e.now, s.cfg.ackTimeout)
  {
    hide Inv, BusOk, Driver.FinishRead, Driver.BlameMotor;
    FinishReadKeeps(s.cfg, l.drv, e.now, e.ok);
    StateAndLatch(l.drv.FinishRead(s.cfg, e.now, e.ok));
    DrivenIs(l, l.drv.FinishRead(s.cfg, e.now, e.ok));
  }

  /** So on a paced run the no-aliasing hypothesis holds by itself whenever ack_timeout / p + 2 is at most 256. */
  lemma PacedRunsNeverAlias(s: Setup, ls: seq<Loop>, es: seq<Event>, k: nat, p: int)
    requires IsRun(s, ls, es) && k <= |es| && p > 0 && Paced(ls, es, k, p)
    requires s.cfg.ackTimeout / p + 2 <= 0x100
    ensures Bounded(ls, k)
  {
    forall j | 0 <= j <= k ensures SmallWindows(ls[j]) {
      WindowIsBounded(s, ls, es, j, 0, p);
      WindowIsBounded(s, ls, es, j, 1, p);
    }
  }
}
