/** The bounded drain loop of `read` refines a decision that looks at the received frames as a whole. */
module ReadDecision {
  import opened Basics
  import opened CanProtocol
  import opened HardwareHealth
  import opened DriverModel
  import opened DriverInvariants

  /** What the loop can see: receptions up to the first timeout, at most `budget` of them. */
  function Visible(inbox: seq<Reception>, budget: nat): seq<Reception>
    decreases budget
  {
    if budget == 0 || inbox == [] || inbox[0].Timeout? then []
    else [inbox[0]] + Visible(inbox[1..], budget - 1)
  }

  /** A decoded ACK for one of the two motors. */
  datatype Heard = Nothing | HeardFeedback(motor: nat) | HeardAck(motor: nat, ack: Ack)

  function Listen(cfg: Config, r: Reception): Heard {
    if !r.Received? || !r.frame.Data? then Nothing
    else ListenFor(cfg, 0, r.frame, ListenFor(cfg, 1, r.frame, Nothing))
  }

  function ListenFor(cfg: Config, i: nat, frame: CanFrame, otherwise: Heard): Heard
    requires i < 2 && frame.Data?
  {
    if frame.id == FeedbackId(cfg.nodes.At(i)) then
      if DecodeFeedback(frame.data, frame.dlc).Some? then HeardFeedback(i) else Nothing
    else if frame.id == AckId(cfg.nodes.At(i)) then
      match DecodeAck(frame.data, frame.dlc)
      case None => Nothing
      case Some(a) => HeardAck(i, a)
    else otherwise
  }

  /** Health sees well-formed feedback and ACKs only: errors, warnings and malformed frames leave it alone. */
  function HealthAfterOne(cfg: Config, h: Health, r: Reception): Health {
    match Listen(cfg, r)
    case Nothing => h
    case HeardFeedback(i) => h.FeedbackReceived(i, r.at)
    case HeardAck(i, a) => h.AckReceived(i, a.sequence, a.result).0
  }

  function HealthAfter(cfg: Config, h: Health, rs: seq<Reception>): Health
    decreases |rs|
  {
    if rs == [] then h else HealthAfter(cfg, HealthAfterOne(cfg, h, rs[0]), rs[1..])
  }

  /** The complaint about one reception: an ACK that refuses the oldest pending command, or that nothing is waiting for. */
  function Complaint(cfg: Config, h: Health, r: Reception): StopReason {
    match Listen(cfg, r)
    case HeardAck(i, a) => if i < 2 then ComplaintAbout(cfg, h, i, a) else NoReason
    case _ => NoReason
  }

  function ComplaintAbout(cfg: Config, h: Health, i: nat, a: Ack): StopReason
    requires i < 2
  {
    if AnswersOldest(h, i, a.sequence) then
      (if a.result == 0 then NoReason else AckRejectedNode(cfg.nodes.At(i)))
    else if h.ignored.At(i) == Some(a.sequence) then NoReason
    else UnexpectedAckNode(cfg.nodes.At(i))
  }

  function FirstComplaint(cfg: Config, h: Health, rs: seq<Reception>): StopReason
    decreases |rs|
  {
    if rs == [] then NoReason
    else if Complaint(cfg, h, rs[0]) != NoReason then Complaint(cfg, h, rs[0])
    else FirstComplaint(cfg, HealthAfterOne(cfg, h, rs[0]), rs[1..])
  }

  /** An error frame that reports bus-off or a transmit timeout. */
  predicate Fatal(r: Reception) {
    r.Received? && r.frame.Error? && (r.frame.mask & 0x40 != 0 || r.frame.mask & 0x01 != 0)
  }

  /** Where the drain is cut short: the first fatal error frame or receive exception, or the end. */
  function Cut(rs: seq<Reception>): (c: nat)
    ensures c <= |rs|
    ensures c < |rs| ==> Fatal(rs[c]) || rs[c].Failure?
    ensures forall k :: 0 <= k < c ==> !Fatal(rs[k]) && !rs[k].Failure?
    decreases |rs|
  {
    if rs == [] || Fatal(rs[0]) || rs[0].Failure? then 0 else 1 + Cut(rs[1..])
  }

  /** The lowest motor index first, feedback before ACK. */
  function DeadlineComplaint(cfg: Config, h: Health, now: int): StopReason {
    if h.FeedbackTimedOut(0, now, cfg.feedbackTimeout) then FeedbackTimeoutNode(cfg.nodes.left)
    else if h.AckTimedOut(0, now, cfg.ackTimeout) then AckTimeoutNode(cfg.nodes.left)
    else if h.FeedbackTimedOut(1, now, cfg.feedbackTimeout) then FeedbackTimeoutNode(cfg.nodes.right)
    else if h.AckTimedOut(1, now, cfg.ackTimeout) then AckTimeoutNode(cfg.nodes.right)
    else NoReason
  }

  /** The reason settled before reception number `Cut(rs)`, given one settled earlier. */
  function Said(cfg: Config, h: Health, before: StopReason, rs: seq<Reception>): StopReason {
    if before != NoReason then before else FirstComplaint(cfg, h, rs[..Cut(rs)])
  }

  /** The reason a reception that cuts the drain leaves behind: only a fatal bus error overwrites. */
  function CutReason(r: Reception, said: StopReason): StopReason {
    if Fatal(r) then (if r.frame.mask & 0x40 != 0 then CanBusOff else CanTxTimeout)
    else if said != NoReason then said
    else CanReceiveError
  }

  /** Why this read should stop the robot, or `NoReason`. */
  function Verdict(cfg: Config, h: Health, rs: seq<Reception>, now: int): StopReason {
    var said := Said(cfg, h, NoReason, rs);
    if Cut(rs) < |rs| then CutReason(rs[Cut(rs)], said)
    else if said != NoReason then said
    else DeadlineComplaint(cfg, HealthAfter(cfg, h, rs), now)
  }

  // ---- The refinement -------------------------------------------------------------------------------

  function Keep(before: StopReason, reason: StopReason): StopReason {
    if before != NoReason then before else reason
  }

  /** The driver's reaction to the tracker's answer is the complaint. */
  lemma AckComplaint(cfg: Config, h: Health, i: nat, a: Ack)
    requires i < 2
    ensures ComplaintAbout(cfg, h, i, a) == match h.AckReceived(i, a.sequence, a.result).1
      case Rejected => AckRejectedNode(cfg.nodes.At(i))
      case Unexpected => UnexpectedAckNode(cfg.nodes.At(i))
      case _ => NoReason
  {
    hide Health.AckReceived;
    AckOutcomes(h, i, a.sequence, a.result);
  }

  lemma OnAckListens(cfg: Config, d: Driver, i: nat, frame: CanFrame, otherwise: Heard)
    requires i < 2 && frame.Data? && frame.id == AckId(cfg.nodes.At(i)) != FeedbackId(cfg.nodes.At(i))
    ensures var n := d.OnAck(cfg, i, frame.dlc, frame.data);
      match ListenFor(cfg, i, frame, otherwise)
      case HeardAck(j, a) =>
        && j == i && n.health == d.health.AckReceived(i, a.sequence, a.result).0
        && n.reason == Keep(d.reason, ComplaintAbout(cfg, d.health, i, a))
      case _ => ListenFor(cfg, i, frame, otherwise) == Nothing && n.health == d.health && n.reason == d.reason
  {
    hide Health.AckReceived, DecodeAck, ComplaintAbout;
    if DecodeAck(frame.data, frame.dlc).Some? {
      var a := DecodeAck(frame.data, frame.dlc).value;
      AckComplaint(cfg, d.health, i, a);
    }
  }

  lemma OnFeedbackListens(cfg: Config, d: Driver, i: nat, frame: CanFrame, at: int, otherwise: Heard)
    requires i < 2 && frame.Data? && frame.id == FeedbackId(cfg.nodes.At(i))
    ensures var n := d.OnFeedback(cfg, i, frame.dlc, frame.data, at);
      && n.reason == d.reason
      && ((ListenFor(cfg, i, frame, otherwise) == HeardFeedback(i) && n.health == d.health.FeedbackReceived(i, at))
          || (ListenFor(cfg, i, frame, otherwise) == Nothing && n.health == d.health))
  {
    hide Radians;
  }

  lemma OnFrameListens(cfg: Config, d: Driver, frame: CanFrame, at: int)
    requires ValidNodes(cfg.nodes)
    ensures var n, r := d.OnFrame(cfg, frame, at), Received(frame, at);
      && n.health == HealthAfterOne(cfg, d.health, r)
      && n.reason == Keep(d.reason, Complaint(cfg, d.health, r))
  {
    hide Driver.OnAck, Driver.OnFeedback, ListenFor, Health.AckReceived, Health.FeedbackReceived, ComplaintAbout;
    if frame.Data? {
      ListensElsewhere(cfg, frame, Nothing);
      ListensElsewhere(cfg, frame, ListenFor(cfg, 1, frame, Nothing));
      if frame.id == FeedbackId(cfg.nodes.left) {
        OnFeedbackListens(cfg, d, 0, frame, at, ListenFor(cfg, 1, frame, Nothing));
      } else if frame.id == AckId(cfg.nodes.left) {
        OnAckListens(cfg, d, 0, frame, ListenFor(cfg, 1, frame, Nothing));
      } else if frame.id == FeedbackId(cfg.nodes.right) {
        OnFeedbackListens(cfg, d, 1, frame, at, Nothing);
      } else if frame.id == AckId(cfg.nodes.right) {
        OnAckListens(cfg, d, 1, frame, Nothing);
      }
    }
  }

  lemma ListensElsewhere(cfg: Config, frame: CanFrame, otherwise: Heard)
    requires frame.Data?
    ensures forall i :: 0 <= i < 2 && frame.id != FeedbackId(cfg.nodes.At(i)) && frame.id != AckId(cfg.nodes.At(i)) ==>
      ListenFor(cfg, i, frame, otherwise) == otherwise
  {
  }

  lemma SaidStep(cfg: Config, h: Health, before: StopReason, rs: seq<Reception>)
    requires rs != [] && !Fatal(rs[0]) && !rs[0].Failure?
    ensures Cut(rs) == 1 + Cut(rs[1..])
    ensures Said(cfg, h, before, rs)
         == Said(cfg, HealthAfterOne(cfg, h, rs[0]), Keep(before, Complaint(cfg, h, rs[0])), rs[1..])
  {
    hide HealthAfterOne, Complaint;
    var c := Cut(rs);
    assert rs[..c][1..] == rs[1..][..c - 1];
    assert rs[..c][0] == rs[0];
  }

  lemma DrainStops(cfg: Config, d: Driver, inbox: seq<Reception>, budget: nat, ok: Pair<bool>)
    requires budget == 0 || inbox == [] || inbox[0].Timeout?
    ensures var (n, early, _) := d.Drain(cfg, inbox, budget, ok); n == d && !early
  {
  }

  /** The driver's own test of a frame, with its mask and its constants, is the test of the two bits. */
  lemma FatalBits(d: Driver, r: Reception)
    ensures r.Received? ==> (d.IsFatal(r.frame) <==> Fatal(r))
    ensures r.Received? && r.frame.Error? ==> (r.frame.mask & CAN_ERR_MASK & CAN_ERR_BUSOFF != 0 <==> r.frame.mask & 0x40 != 0)
  {
    if r.Received? && r.frame.Error? {
      Severities(r.frame.mask);
    }
  }

  lemma DrainIsCut(cfg: Config, d: Driver, inbox: seq<Reception>, budget: nat, ok: Pair<bool>)
    requires budget > 0 && inbox != [] && (inbox[0].Failure? || Fatal(inbox[0]))
    ensures var (n, early, _) := d.Drain(cfg, inbox, budget, ok);
      early && n.reason == CutReason(inbox[0], d.reason)
  {
    hide Driver.Latch, Classify;
    FatalBits(d, inbox[0]);
    LatchKeepsReason(d.Because(CanReceiveError), ok);
    LatchKeepsReason(d.(reason := CanBusOff), ok);
    LatchKeepsReason(d.(reason := CanTxTimeout), ok);
  }

  lemma DrainGoesOn(cfg: Config, d: Driver, inbox: seq<Reception>, budget: nat, ok: Pair<bool>)
    requires budget > 0 && inbox != [] && inbox[0].Received? && !Fatal(inbox[0])
    ensures var (n, early, _) := d.Drain(cfg, inbox, budget, ok);
      var (n', early', _) := d.OnFrame(cfg, inbox[0].frame, inbox[0].at).Drain(cfg, inbox[1..], budget - 1, ok);
      n == n' && early == early'
  {
  }

  /** How a drain that ended in `n` relates to the receptions it could see. */
  ghost predicate Decided(cfg: Config, h: Health, before: StopReason, rs: seq<Reception>, n: Driver, early: bool) {
    var said := Said(cfg, h, before, rs);
    && (early <==> Cut(rs) < |rs|)
    && (!early ==> n.health == HealthAfter(cfg, h, rs) && n.reason == said)
    && (early ==> n.reason == CutReason(rs[Cut(rs)], said))
  }

  lemma DecidedStep(cfg: Config, h: Health, before: StopReason, rs: seq<Reception>, n: Driver, early: bool)
    requires rs != [] && !Fatal(rs[0]) && !rs[0].Failure?
    requires Decided(cfg, HealthAfterOne(cfg, h, rs[0]), Keep(before, Complaint(cfg, h, rs[0])), rs[1..], n, early)
    ensures Decided(cfg, h, before, rs, n, early)
  {
    hide HealthAfterOne, Complaint, Said;
    SaidStep(cfg, h, before, rs);
  }

  /** What the drain ends with, in terms of the visible receptions. */
  lemma {:induction false} DrainDecides(cfg: Config, d: Driver, inbox: seq<Reception>, budget: nat, ok: Pair<bool>)
    requires ValidNodes(cfg.nodes) && Inv(d) && d.state == Active
    ensures var (n, early, _) := d.Drain(cfg, inbox, budget, ok);
      Decided(cfg, d.health, d.reason, Visible(inbox, budget), n, early)
    decreases budget
  {
    hide Driver.Drain, Driver.OnFrame, HealthAfterOne, Complaint, Inv, Decided;
    var rs := Visible(inbox, budget);
    if budget == 0 || inbox == [] || inbox[0].Timeout? {
      SaidNothing(cfg, d.health, d.reason, d);
      DrainStops(cfg, d, inbox, budget, ok);
    } else if inbox[0].Failure? || d.IsFatal(inbox[0].frame) {
      DrainIsCut(cfg, d, inbox, budget, ok);
      SaidAtOnce(cfg, d.health, d.reason, rs, d.Drain(cfg, inbox, budget, ok).0);
    } else {
      DrainGoesOn(cfg, d, inbox, budget, ok);
      var (frame, at) := (inbox[0].frame, inbox[0].at);
      OnFrameListens(cfg, d, frame, at);
      OnFrameKeeps(cfg, d, frame, at);
      DrainDecides(cfg, d.OnFrame(cfg, frame, at), inbox[1..], budget - 1, ok);
      assert rs[1..] == Visible(inbox[1..], budget - 1);
      var (n, early, _) := d.Drain(cfg, inbox, budget, ok);
      DecidedStep(cfg, d.health, d.reason, rs, n, early);
    }
  }

  lemma SaidNothing(cfg: Config, h: Health, before: StopReason, n: Driver)
    requires n.health == h && n.reason == before
    ensures Decided(cfg, h, before, [], n, false)
  {
  }

  lemma SaidAtOnce(cfg: Config, h: Health, before: StopReason, rs: seq<Reception>, n: Driver)
    requires rs != [] && (Fatal(rs[0]) || rs[0].Failure?) && n.reason == CutReason(rs[0], before)
    ensures Decided(cfg, h, before, rs, n, true)
  {
  }

  lemma LatchKeepsReason(d: Driver, ok: Pair<bool>)
    ensures d.Latch(ok).reason == d.reason
  {
  }

  lemma BlameOne(cfg: Config, d: Driver, i: nat, now: int)
    requires i < 2
    ensures var blamed := d.BlameMotor(cfg, i, now);
      && blamed.health == d.health
      && blamed.reason == Keep(d.reason,
           if d.health.FeedbackTimedOut(i, now, cfg.feedbackTimeout) then FeedbackTimeoutNode(cfg.nodes.At(i))
           else if d.health.AckTimedOut(i, now, cfg.ackTimeout) then AckTimeoutNode(cfg.nodes.At(i))
           else NoReason)
  {
    hide Health.FeedbackTimedOut, Health.AckTimedOut;
  }

  lemma DeadlinesBlame(cfg: Config, d: Driver, now: int)
    ensures var blamed := d.BlameMotor(cfg, 0, now).BlameMotor(cfg, 1, now);
      blamed.reason == Keep(d.reason, DeadlineComplaint(cfg, d.health, now))
  {
    hide Driver.BlameMotor, Health.FeedbackTimedOut, Health.AckTimedOut;
    BlameOne(cfg, d, 0, now);
    BlameOne(cfg, d.BlameMotor(cfg, 0, now), 1, now);
  }

  /**
    Started while active, `read` records exactly the reason the decision gives and returns OK exactly
    when it gives none; on OK its health is that of the visible receptions.
  */
  lemma ReadRefinesVerdict(cfg: Config, d: Driver, inbox: seq<Reception>, now: int, ok: Pair<bool>)
    requires ValidNodes(cfg.nodes) && Inv(d) && AtRest(d) && d.state == Active
    ensures var (n, r) := d.Read(cfg, inbox, now, ok);
      var rs := Visible(inbox, MAX_FRAMES_PER_READ);
      && n.reason == Verdict(cfg, d.health, rs, now)
      && (r <==> Verdict(cfg, d.health, rs, now) == NoReason)
      && (r ==> n.health == HealthAfter(cfg, d.health, rs))
  {
    hide Driver.Latch, Driver.Drain, Driver.BlameMotor, DeadlineComplaint, Driver.Overdue, Visible, Cut, Grammar, Counting, Windowed;
    var rs := Visible(inbox, MAX_FRAMES_PER_READ);
    DrainDecides(cfg, d, inbox, MAX_FRAMES_PER_READ, ok);
    DrainKeeps(cfg, d, inbox, MAX_FRAMES_PER_READ, ok);
    ReadKeeps(cfg, d, inbox, now, ok);
    var (drained, early, _) := d.Drain(cfg, inbox, MAX_FRAMES_PER_READ, ok);
    if !early {
      FinishReadKeeps(cfg, drained, now, ok);
      DeadlinesBlame(cfg, drained, now);
      LatchKeepsReason(drained.BlameMotor(cfg, 0, now).BlameMotor(cfg, 1, now), ok);
      assert rs[..|rs|] == rs;
    }
  }

  /** A complaint is made exactly when the health tracker has seen a fault in these receptions. */
  lemma {:induction false} ComplaintMeansFault(cfg: Config, h: Health, rs: seq<Reception>)
    ensures HealthAfter(cfg, h, rs).ackFault <==> h.ackFault || FirstComplaint(cfg, h, rs) != NoReason
    decreases |rs|
  {
    if rs != [] {
      ComplaintMeansFault(cfg, HealthAfterOne(cfg, h, rs[0]), rs[1..]);
    }
  }

  /**
    Read as a whole: `read` returns OK exactly when no visible reception is an exception or a fatal
    error frame, no ACK in them was rejected or unexpected, and afterwards no motor is overdue.
  */
  lemma ReadIsOkExactlyWhen(cfg: Config, d: Driver, inbox: seq<Reception>, now: int, ok: Pair<bool>)
    requires ValidNodes(cfg.nodes) && Inv(d) && AtRest(d) && d.state == Active
    ensures var rs := Visible(inbox, 64);
      var h := HealthAfter(cfg, d.health, rs);
      d.Read(cfg, inbox, now, ok).1 <==>
        && (forall k :: 0 <= k < |rs| ==> !rs[k].Failure? && !Fatal(rs[k]))
        && !h.ackFault
        && (forall i :: 0 <= i < 2 ==>
              !h.FeedbackTimedOut(i, now, cfg.feedbackTimeout) && !h.AckTimedOut(i, now, cfg.ackTimeout))
  {
    hide Driver.Read, HealthAfter, FirstComplaint, Visible, Grammar, Counting, Windowed;
    var rs := Visible(inbox, MAX_FRAMES_PER_READ);
    ReadRefinesVerdict(cfg, d, inbox, now, ok);
    ComplaintMeansFault(cfg, d.health, rs);
    assert rs[..|rs|] == rs;
  }

  // ---- What stops a read -----------------------------------------------------------------------------

  /** A complaint about reception `k` is the first one unless there was one before. */
  lemma {:induction false} FirstComplaintFrom(cfg: Config, h: Health, rs: seq<Reception>, k: nat)
    requires k < |rs| && Complaint(cfg, HealthAfter(cfg, h, rs[..k]), rs[k]) != NoReason
    ensures FirstComplaint(cfg, h, rs)
         == Keep(FirstComplaint(cfg, h, rs[..k]), Complaint(cfg, HealthAfter(cfg, h, rs[..k]), rs[k]))
    decreases k
  {
    hide Complaint, HealthAfterOne;
    if k > 0 {
      assert rs[..k][1..] == rs[1..][..k - 1] && rs[..k][0] == rs[0];
      FirstComplaintFrom(cfg, HealthAfterOne(cfg, h, rs[0]), rs[1..], k - 1);
    }
  }

  lemma AckIsHeard(cfg: Config, i: nat, a: Ack, at: int)
    requires ValidNodes(cfg.nodes) && i < 2
    ensures Listen(cfg, Received(AckFrame(cfg.nodes, i, a), at)) == HeardAck(i, a)
  {
    hide EncodeAck, DecodeAck;
    IdentifiersDisjoint(cfg.nodes, 0, 1);
    IdentifiersDisjoint(cfg.nodes, 1, 0);
    AckRoundTrip(a, EncodeAck(a), 8);
  }

  /** This ACK for motor `i` refuses the oldest pending command, or answers nothing that is awaited. */
  predicate BadAck(h: Health, i: nat, a: Ack)
    requires i < 2
  {
    if AnswersOldest(h, i, a.sequence) then a.result != 0 else h.ignored.At(i) != Some(a.sequence)
  }

  /** Reception `k` is ACK `a` of motor `i`. */
  predicate IsAckAt(cfg: Config, rs: seq<Reception>, k: nat, i: nat, a: Ack)
    requires i < 2
  {
    k < |rs| && rs[k].Received? && rs[k].frame == AckFrame(cfg.nodes, i, a)
  }

  /**
    A bad ACK stops the robot: an active driver that can see an ACK which, when it comes, carries a
    non-zero result for the oldest pending command, or answers nothing that is awaited, does not return
    OK; and its reason names that motor unless an earlier ACK, an earlier receive exception or a fatal
    bus error has given another.
  */
  lemma BadAckStopsRead(cfg: Config, d: Driver, inbox: seq<Reception>, now: int, ok: Pair<bool>, k: nat, i: nat, a: Ack)
    requires ValidNodes(cfg.nodes) && Inv(d) && AtRest(d) && d.state == Active && i < 2
    requires var rs := Visible(inbox, MAX_FRAMES_PER_READ);
      IsAckAt(cfg, rs, k, i, a) && BadAck(HealthAfter(cfg, d.health, rs[..k]), i, a)
    ensures var (n, r) := d.Read(cfg, inbox, now, ok);
      var rs := Visible(inbox, MAX_FRAMES_PER_READ);
      && !r && n.latched
      && ((forall q :: 0 <= q < |rs| ==> !Fatal(rs[q])) && (forall q :: 0 <= q < k ==> !rs[q].Failure?)
          && FirstComplaint(cfg, d.health, rs[..k]) == NoReason ==>
            n.reason == (if AnswersOldest(HealthAfter(cfg, d.health, rs[..k]), i, a.sequence)
                         then AckRejectedNode(cfg.nodes.At(i)) else UnexpectedAckNode(cfg.nodes.At(i))))
  {
    hide Driver.Read, Visible, HealthAfter, FirstComplaint, AckFrame, Grammar, Counting, Windowed;
    var rs := Visible(inbox, MAX_FRAMES_PER_READ);
    ReadRefinesVerdict(cfg, d, inbox, now, ok);
    ReadKeeps(cfg, d, inbox, now, ok);
    AckIsHeard(cfg, i, a, rs[k].at);
    AckIsData(cfg, i, a);
    assert Complaint(cfg, HealthAfter(cfg, d.health, rs[..k]), rs[k]) != NoReason;
    var c := Cut(rs);
    if k < c {
      assert rs[..c][..k] == rs[..k] && rs[..c][k] == rs[k];
      FirstComplaintFrom(cfg, d.health, rs[..c], k);
    }
  }

  lemma AckIsData(cfg: Config, i: nat, a: Ack)
    requires i < 2
    ensures AckFrame(cfg.nodes, i, a).Data?
  {
  }

  /**
    A fatal bus error stops the robot: if it is the first fatal frame that an active driver can see and
    no receive exception comes before it, read fails with bus-off if that bit is set and else with a
    transmit timeout, whatever ACKs were received before.
  */
  lemma FatalFrameStopsRead(cfg: Config, d: Driver, inbox: seq<Reception>, now: int, ok: Pair<bool>, k: nat)
    requires ValidNodes(cfg.nodes) && Inv(d) && AtRest(d) && d.state == Active
    requires var rs := Visible(inbox, MAX_FRAMES_PER_READ);
      && k < |rs| && rs[k].Received? && rs[k].frame.Error?
      && (rs[k].frame.mask & 0x40 != 0 || rs[k].frame.mask & 0x01 != 0)
      && forall q :: 0 <= q < k ==> !Fatal(rs[q]) && !rs[q].Failure?
    ensures var (n, r) := d.Read(cfg, inbox, now, ok);
      && !r && n.latched
      && n.reason == (if Visible(inbox, MAX_FRAMES_PER_READ)[k].frame.mask & 0x40 != 0 then CanBusOff else CanTxTimeout)
  {
    hide Driver.Read, Visible, HealthAfter, FirstComplaint, Grammar, Counting, Windowed;
    var rs := Visible(inbox, MAX_FRAMES_PER_READ);
    ReadRefinesVerdict(cfg, d, inbox, now, ok);
    ReadKeeps(cfg, d, inbox, now, ok);
    assert Cut(rs) == k;
  }

  /** A read of a fresh session that receives nothing is OK until the feedback timeout has passed since the activation. */
  lemma QuietStartReadsOk(cfg: Config, d: Driver, ok: Pair<bool>, at: int, inbox: seq<Reception>, now: int, again: Pair<bool>)
    requires ValidNodes(cfg.nodes) && Inv(d) && d.Activate(true, ok, at).1
    requires Visible(inbox, MAX_FRAMES_PER_READ) == []
    ensures d.Activate(true, ok, at).0.Read(cfg, inbox, now, again).1 <==> now <= at + cfg.feedbackTimeout
  {
    hide Driver.Activate, Driver.Read, Visible, Inv, AtRest;
    ActivateKeeps(d, true, ok, at);
    ReadIsOkExactlyWhen(cfg, d.Activate(true, ok, at).0, inbox, now, again);
    ActivationRestartsDeadlines(cfg, d, ok, at, now, 0);
    ActivationRestartsDeadlines(cfg, d, ok, at, now, 1);
  }
}
