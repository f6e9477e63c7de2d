/** What every callback of the hardware driver keeps, and what that means over whole runs. */
module DriverInvariants {
  import opened Basics
  import opened CanProtocol
  import opened HardwareHealth
  import opened DriverModel

  // ---- The state machine -------------------------------------------------------------------

  /** Holds between any two steps, also in the middle of a drain. */
  ghost predicate Core(d: Driver) {
    && (d.latched <==> d.state == SafeStop)
    && d.senderOpen == d.receiverOpen
    && (d.state == Active ==> d.senderOpen)
    && (d.state == Inactive ==> !d.senderOpen && !d.health.ackFault)
    && (d.latched && d.senderOpen ==> d.stopAttempted)
    && (!d.latched ==> !d.stopAttempted)
    && d.session <= |d.log|
  }

  /** The stop reason is settled with the fault it explains; a bad ACK is explained before the drain ends. */
  ghost predicate Explained(d: Driver) {
    d.reason != NoReason <==> d.latched || (d.state == Active && d.health.ackFault)
  }

  /** No drain is under way. */
  ghost predicate AtRest(d: Driver) {
    d.state == Active ==> !d.health.ackFault
  }

  // ---- The frame log -------------------------------------------------------------------------

  predicate IsStop(a: Attempt, i: nat) {
    a.motor == i && !a.enabled && a.velocity == 0
  }

  predicate StopPair(s: seq<Attempt>, k: nat) {
    k + 2 <= |s| && IsStop(s[k], 0) && IsStop(s[k + 1], 1)
  }

  /** The activation stops went out, then run frames alternate; all but perhaps the last were accepted. */
  predicate Running(s: seq<Attempt>) {
    && StopPair(s, 0) && s[0].success && s[1].success
    && forall k :: 2 <= k < |s| ==> s[k].enabled && s[k].motor == k % 2 && (k < |s| - 1 ==> s[k].success)
  }

  /** Running, both motors served, nothing failed. */
  predicate Healthy(s: seq<Attempt>) {
    Running(s) && |s| % 2 == 0 && s[|s| - 1].success
  }

  /** Closed by one stop pair; a run frame without its partner is one that failed itself. */
  predicate Stopped(s: seq<Attempt>) {
    && |s| >= 4 && StopPair(s, |s| - 2) && Running(s[..|s| - 2])
    && (|s| % 2 == 1 ==> !s[|s| - 3].success)
  }

  predicate FailedStart(s: seq<Attempt>) {
    |s| == 2 && StopPair(s, 0) && !(s[0].success && s[1].success)
  }

  function SessionOf(d: Driver): seq<Attempt>
    requires d.session <= |d.log|
  {
    d.log[d.session..]
  }

  /** The attempts since the latest activation have the shape stop0 stop1 (run0 run1)* run0? (stop0 stop1)?. */
  ghost predicate Grammar(d: Driver)
    requires d.session <= |d.log|
  {
    var s := SessionOf(d);
    && (d.state == Active ==> Healthy(s))
    && (d.state == Inactive ==> s == [] || Stopped(s))
    && (d.latched && d.senderOpen ==> Stopped(s))
    && (d.latched && !d.senderOpen ==> s == [] || FailedStart(s) || Stopped(s))
  }

  predicate EndsStopped(log: seq<Attempt>) {
    |log| >= 2 && StopPair(log, |log| - 2) && log[|log| - 2].success && log[|log| - 1].success
  }

  // ---- Sequence numbers ------------------------------------------------------------------------

  /** The k-th attempt for a motor since start-up carries sequence k mod 256, across sessions and failures. */
  predicate Numbered(log: seq<Attempt>)
    decreases |log|
  {
    log == [] ||
    var a := log[|log| - 1];
    && Numbered(log[..|log| - 1])
    && a.motor < 2
    && a.number == CountFor(log, a.motor)
    && a.sequence == WireSequence(a.number)
  }

  /** The pending list is the contiguous run, mod 256, that ends at attempt `c`. */
  predicate Contiguous(pending: seq<PendingAck>, c: nat) {
    |pending| < c && forall j :: 0 <= j < |pending| ==> pending[j].sequence == WireSequence(c - |pending| + 1 + j)
  }

  predicate Counts(log: seq<Attempt>, sequences: Pair<byte>) {
    && Numbered(log)
    && sequences.left == WireSequence(CountFor(log, 0))
    && sequences.right == WireSequence(CountFor(log, 1))
  }

  predicate Counting(d: Driver) {
    Counts(d.log, d.sequences)
  }

  predicate Windowed(d: Driver) {
    && Contiguous(d.health.pending.left, CountFor(d.log, 0))
    && Contiguous(d.health.pending.right, CountFor(d.log, 1))
  }

  /** A recorded success means accepted stops; a fault stop that went out stays recorded while the sender is open. */
  predicate Remembered(d: Driver) {
    && (d.latched && d.stopSucceeded ==> EndsStopped(d.log))
    && (d.latched && d.senderOpen && EndsStopped(d.log) ==> d.stopSucceeded)
    && (!d.stopAttempted ==> !d.stopSucceeded)
  }

  ghost predicate Inv(d: Driver) {
    && Core(d) && Explained(d) && Grammar(d) && Counting(d) && (d.state == Active ==> Windowed(d))
    && Remembered(d)
  }

  // ---- Effects of the sending helpers -----------------------------------------------------------

  lemma CountAppend(log: seq<Attempt>, a: Attempt)
    ensures CountFor(log + [a], 0) == CountFor(log, 0) + (if a.motor == 0 then 1 else 0)
    ensures CountFor(log + [a], 1) == CountFor(log, 1) + (if a.motor == 1 then 1 else 0)
    ensures Numbered(log + [a]) <==>
      Numbered(log) && a.motor < 2 && a.number == CountFor(log, a.motor) + 1 && a.sequence == WireSequence(a.number)
  {
    assert (log + [a])[..|log + [a]| - 1] == log;
  }

  lemma CountsAppend(log: seq<Attempt>, sequences: Pair<byte>, a: Attempt)
    requires Counts(log, sequences) && a.motor < 2
    requires a.number == CountFor(log, a.motor) + 1 && a.sequence == NextSequence(sequences.At(a.motor))
    ensures Counts(log + [a], sequences.With(a.motor, a.sequence))
    ensures CountFor(log + [a], 0) == CountFor(log, 0) + (if a.motor == 0 then 1 else 0)
    ensures CountFor(log + [a], 1) == CountFor(log, 1) + (if a.motor == 1 then 1 else 0)
  {
    NextWireSequence(CountFor(log, a.motor));
    CountAppend(log, a);
  }

  lemma WindowPush(p: seq<PendingAck>, c: nat, now: int)
    requires Contiguous(p, c)
    ensures Contiguous(p + [PendingAck(WireSequence(c + 1), now)], c + 1)
  {
  }

  lemma WindowPop(p: seq<PendingAck>, c: nat)
    requires Contiguous(p, c) && p != []
    ensures Contiguous(p[1..], c)
  {
  }

  /** An attempt is logged, whether or not the sender accepts it. */
  lemma SendLogs(d: Driver, i: nat, enabled: bool, velocity: real, track: bool, ok: bool, now: int)
    requires d.senderOpen && i < 2 && d.session <= |d.log|
    ensures var n := d.Send(i, enabled, velocity, track, ok, now).0;
      && n.log == d.log + [d.NextAttempt(i, enabled, velocity, ok)]
      && n.session == d.session && SessionOf(n) == SessionOf(d) + [d.NextAttempt(i, enabled, velocity, ok)]
  {
    var a := d.NextAttempt(i, enabled, velocity, ok);
    assert (d.log + [a])[d.session..] == d.log[d.session..] + [a];
  }

  /** It is counted for its motor and only for it. */
  lemma SendCounts(d: Driver, i: nat, enabled: bool, velocity: real, track: bool, ok: bool, now: int)
    requires d.senderOpen && i < 2 && d.session <= |d.log| && Counting(d)
    ensures var n := d.Send(i, enabled, velocity, track, ok, now).0;
      && Counting(n)
      && CountFor(n.log, 0) == CountFor(d.log, 0) + (if i == 0 then 1 else 0)
      && CountFor(n.log, 1) == CountFor(d.log, 1) + (if i == 1 then 1 else 0)
  {
    hide WireVelocity, Counts, CountFor, NextSequence, Health.SafeStopSent, Health.CommandSent;
    CountsAppend(d.log, d.sequences, d.NextAttempt(i, enabled, velocity, ok));
  }

  /** A tracked command that goes out extends its motor's window and leaves the other alone. */
  lemma SendWindows(d: Driver, i: nat, velocity: real, now: int)
    requires d.senderOpen && i < 2 && d.session <= |d.log| && Counting(d) && Windowed(d)
    ensures var n := d.Send(i, true, velocity, true, true, now).0;
      Windowed(n)
      && n.health == d.health.(pending := d.health.pending.With(i, d.health.pending.At(i)
                                 + [PendingAck(WireSequence(CountFor(d.log, i) + 1), now)]))
  {
    hide WireVelocity, Contiguous, CountFor, NextSequence, WireSequence;
    SendLogs(d, i, true, velocity, true, true, now);
    SendCounts(d, i, true, velocity, true, true, now);
    NextWireSequence(CountFor(d.log, i));
    WindowPush(d.health.pending.At(i), CountFor(d.log, i), now);
  }

  /** What a step appends to the log it appends to the session. */
  lemma SessionGrows(d: Driver, n: Driver)
    requires d.session <= |d.log| <= |n.log| && n.session == d.session && n.log[..|d.log|] == d.log
    ensures SessionOf(n) == SessionOf(d) + n.log[|d.log|..]
  {
    var more := n.log[|d.log|..];
    assert n.log == d.log + more;
    assert (d.log + more)[d.session..] == d.log[d.session..] + more;
  }

  /** What one `send_safe_stop` with an open sender does to the state. */
  ghost predicate StopPairSent(d: Driver, n: Driver, ok: Pair<bool>) {
    && |n.log| == |d.log| + 2 && n.log[..|d.log|] == d.log && StopPair(n.log, |d.log|)
    && n.log[|d.log|].success == ok.left && n.log[|d.log| + 1].success == ok.right
    && n == d.(log := n.log, sequences := n.sequences, health := n.health)
    && n.health == d.health.(ignored := n.health.ignored)
    && (ok == Pair(true, true) ==> n.health.ignored == Pair(Some(n.sequences.left), Some(n.sequences.right)))
    && CountFor(n.log, 0) == CountFor(d.log, 0) + 1 && CountFor(n.log, 1) == CountFor(d.log, 1) + 1
  }

  lemma StopSent(d: Driver, i: nat, ok: bool)
    requires d.senderOpen && i < 2
    ensures var (n, r) := d.Send(i, false, 0.0, false, ok, 0);
      var a := d.NextAttempt(i, false, 0.0, ok);
      && r == ok && IsStop(a, i) && a.success == ok
      && n == d.(log := d.log + [a], sequences := d.sequences.With(i, a.sequence),
                 health := if ok then d.health.(ignored := d.health.ignored.With(i, Some(a.sequence))) else d.health)
  {
    ZeroOnTheWire();
  }

  /** `send_safe_stop` logs exactly one stop pair, whatever the sender answers. */
  lemma SafeStopKeeps(d: Driver, ok: Pair<bool>)
    requires d.senderOpen && d.session <= |d.log| && Counting(d)
    ensures var (n, r) := d.SendSafeStop(ok);
      && r == (ok.left && ok.right)
      && StopPairSent(d, n, ok) && Counting(n)
      && n.session == d.session && SessionOf(n) == SessionOf(d) + n.log[|d.log|..]
  {
    hide Driver.Send, Driver.NextAttempt, Counts, CountFor;
    var d1 := d.Send(0, false, 0.0, false, ok.left, 0).0;
    StopSent(d, 0, ok.left);
    SendCounts(d, 0, false, 0.0, false, ok.left, 0);
    StopSent(d1, 1, ok.right);
    SendCounts(d1, 1, false, 0.0, false, ok.right, 0);
    SessionGrows(d, d.SendSafeStop(ok).0);
  }

  lemma ZeroOnTheWire()
    ensures WireVelocity(0.0) == 0
  {
  }

  lemma StopsClose(s: seq<Attempt>, stops: seq<Attempt>)
    requires Running(s) && |stops| == 2 && StopPair(stops, 0)
    requires |s| % 2 == 1 ==> !s[|s| - 1].success
    ensures Stopped(s + stops)
  {
    assert (s + stops)[..|s + stops| - 2] == s;
  }

  /** A session that one stop pair can close. */
  predicate Closable(s: seq<Attempt>) {
    Running(s) && (|s| % 2 == 1 ==> !s[|s| - 1].success)
  }

  /** Latching from an active session closes it with one stop pair. */
  lemma LatchKeeps(d: Driver, ok: Pair<bool>)
    requires Core(d) && d.state == Active && d.reason != NoReason && Counting(d) && Closable(SessionOf(d))
    ensures Inv(d.Latch(ok)) && d.Latch(ok).latched && d.Latch(ok).senderOpen
  {
    var ready := d.(commands := Pair(0.0, 0.0), latched := true, state := SafeStop,
                    stopAttempted := true, health := d.health.MarkStopSent());
    hide Driver.Send, Running, CountFor, WireSequence, Numbered;
    SafeStopKeeps(ready, ok);
    var n := ready.SendSafeStop(ok).0;
    StopsClose(SessionOf(d), n.log[|d.log|..]);
  }

  /** Latching while inactive sends nothing. */
  lemma IdleLatchKeeps(d: Driver, reason: StopReason, ok: Pair<bool>)
    requires Inv(d) && d.state == Inactive && reason != NoReason
    ensures var n := d.(reason := reason).Latch(ok); Inv(n) && n.latched && !n.stopSucceeded && n.log == d.log && AtRest(n)
  {
  }

  // ---- Every callback keeps the invariant ----------------------------------------------------------

  lemma InitialInv(now: int)
    ensures Inv(Driver.Initial(now)) && AtRest(Driver.Initial(now))
  {
  }

  lemma ActivateKeeps(d: Driver, open: bool, ok: Pair<bool>, now: int)
    requires Inv(d)
    ensures var (n, r) := d.Activate(open, ok, now);
      && Inv(n) && AtRest(n)
      && r == (open && ok.left && ok.right) && r == n.state.Active? && r == !n.latched && !n.stopSucceeded
  {
    hide Driver.Send, CountFor, Counts, WireSequence, EndsStopped, Stopped;
    if open {
      SafeStopKeeps(d.Opened(now), ok);
      var n := d.Opened(now).SendSafeStop(ok).0;
      assert SessionOf(n) == n.log[|d.log|..];
    }
  }

  /**
    A successful activation starts every deadline anew: no feedback is late before its timeout has passed
    since, no command is pending, no fault is left over, and only the stops' own ACKs are awaited.
  */
  lemma ActivationRestartsDeadlines(cfg: Config, d: Driver, ok: Pair<bool>, now: int, later: int, i: nat)
    requires Inv(d) && i < 2 && d.Activate(true, ok, now).1
    ensures var n := d.Activate(true, ok, now).0;
      && (n.health.FeedbackTimedOut(i, later, cfg.feedbackTimeout) <==> later > now + cfg.feedbackTimeout)
      && n.health.pending.At(i) == [] && !n.health.AckTimedOut(i, later, cfg.ackTimeout) && !n.health.ackFault
      && n.health.ignored.At(i) == Some(n.sequences.At(i))
  {
    hide Driver.Send, CountFor, Counts, WireSequence, Health.Reset;
    SafeStopKeeps(d.Opened(now), ok);
    ResetRestartsDeadlines(now, i, later, cfg.feedbackTimeout, cfg.ackTimeout);
  }

  lemma ReleaseKeeps(d: Driver, ok: Pair<bool>)
    requires Inv(d) && AtRest(d)
    ensures var (n, r) := d.Release(ok);
      && Inv(n) && AtRest(n) && !n.senderOpen && n.latched == d.latched
      && (r ==> EndsStopped(n.log))
      && (d.state != Active ==> n.log == d.log)
  {
    hide Driver.Send, Counts, CountFor, Contiguous;
    if d.state == Active {
      var quiet := d.(commands := Pair(0.0, 0.0));
      SafeStopKeeps(quiet, ok);
      var n := quiet.SendSafeStop(ok).0;
      StopsClose(SessionOf(d), n.log[|d.log|..]);
    }
  }

  lemma BeginReadKeeps(d: Driver, ok: Pair<bool>)
    requires Inv(d)
    ensures var (n, proceed) := d.BeginRead(ok);
      && Inv(n) && (proceed <==> d.state == Active) && (proceed ==> n == d)
      && (!proceed ==> n.state == SafeStop && n.latched && n.log == d.log && (d.latched ==> n == d))
      && (d.state == Inactive ==> !n.stopSucceeded)
  {
    hide Driver.Latch;
    if d.state == Inactive {
      IdleLatchKeeps(d, CanReceiveUnavailable, ok);
    }
  }

  /** Measurements, ACK windows and the reason may differ; nothing else does. */
  predicate OnlyHeard(d: Driver, n: Driver) {
    && n == d.(positions := n.positions, velocities := n.velocities, health := n.health, reason := n.reason)
    && (d.reason != NoReason ==> n.reason == d.reason)
  }

  /** So the invariant is kept if the windows still fit and the reason still explains the ACK fault. */
  lemma HeardKeeps(d: Driver, n: Driver)
    requires Inv(d) && d.state == Active && OnlyHeard(d, n) && Windowed(n)
    requires n.reason != NoReason <==> n.health.ackFault
    ensures Inv(n)
  {
    hide Healthy, Stopped, FailedStart, EndsStopped, Counts, CountFor, Contiguous;
  }

  lemma OnFeedbackKeeps(cfg: Config, d: Driver, i: nat, dlc: nat, data: FrameData, at: int)
    requires Inv(d) && d.state == Active && i < 2
    ensures var n := d.OnFeedback(cfg, i, dlc, data, at); Inv(n) && OnlyHeard(d, n)
  {
    hide Grammar, Counting, Contiguous, EndsStopped, DecodeFeedback, Radians, CountFor;
    HeardKeeps(d, d.OnFeedback(cfg, i, dlc, data, at));
  }

  /** The window of motor `i` loses its oldest entry or nothing, and the other window nothing. */
  lemma AckWindows(d: Driver, i: nat, sequence: byte, result: byte)
    requires Windowed(d) && i < 2
    ensures Windowed(d.(health := d.health.AckReceived(i, sequence, result).0))
  {
    hide Contiguous, CountFor;
    var p := d.health.pending.At(i);
    if p != [] {
      WindowPop(p, CountFor(d.log, i));
    }
  }

  lemma AckFaults(h: Health, i: nat, sequence: byte, result: byte)
    requires i < 2
    ensures var (n, status) := h.AckReceived(i, sequence, result);
      n.ackFault <==> h.ackFault || status == Rejected || status == Unexpected
  {
  }

  lemma OnAckKeeps(cfg: Config, d: Driver, i: nat, dlc: nat, data: FrameData)
    requires Inv(d) && d.state == Active && i < 2
    ensures var n := d.OnAck(cfg, i, dlc, data); Inv(n) && OnlyHeard(d, n)
  {
    hide Grammar, Counting, Contiguous, EndsStopped, DecodeAck, CountFor, Health.AckReceived;
    if DecodeAck(data, dlc).Some? {
      var a := DecodeAck(data, dlc).value;
      AckWindows(d, i, a.sequence, a.result);
      AckFaults(d.health, i, a.sequence, a.result);
      HeardKeeps(d, d.OnAck(cfg, i, dlc, data));
    }
  }

  /** A drained frame that is not fatal leaves the session running. */
  lemma OnFrameKeeps(cfg: Config, d: Driver, frame: CanFrame, at: int)
    requires Inv(d) && d.state == Active
    ensures var n := d.OnFrame(cfg, frame, at); Inv(n) && OnlyHeard(d, n)
  {
    hide Inv, Driver.OnFeedback, Driver.OnAck;
    if frame.Data? {
      OnFeedbackKeeps(cfg, d, 0, frame.dlc, frame.data, at);
      OnAckKeeps(cfg, d, 0, frame.dlc, frame.data);
      OnFeedbackKeeps(cfg, d, 1, frame.dlc, frame.data, at);
      OnAckKeeps(cfg, d, 1, frame.dlc, frame.data);
    }
  }

  lemma OnFatalKeeps(d: Driver, frame: CanFrame, ok: Pair<bool>)
    requires Inv(d) && d.state == Active && d.IsFatal(frame)
    ensures var n := d.OnFatal(frame, ok); Inv(n) && n.state == SafeStop && n.senderOpen
  {
    LatchKeeps(d.(reason := if frame.mask & CAN_ERR_MASK & CAN_ERR_BUSOFF != 0 then CanBusOff else CanTxTimeout), ok);
  }

  lemma OnFailureKeeps(d: Driver, ok: Pair<bool>)
    requires Inv(d) && d.state == Active
    ensures var n := d.OnFailure(ok); Inv(n) && n.state == SafeStop && n.senderOpen
  {
    LatchKeeps(d.Because(CanReceiveError), ok);
  }

  lemma BlamesOne(cfg: Config, d: Driver, i: nat, now: int)
    requires i < 2
    ensures var blamed := d.BlameMotor(cfg, i, now);
      && blamed == d.(reason := blamed.reason)
      && (d.reason != NoReason ==> blamed.reason == d.reason)
      && (blamed.reason == NoReason <==> d.reason == NoReason && !d.Overdue(cfg, i, now))
  {
  }

  lemma Blames(cfg: Config, d: Driver, now: int)
    ensures var blamed := d.BlameMotor(cfg, 0, now).BlameMotor(cfg, 1, now);
      && blamed == d.(reason := blamed.reason)
      && (d.reason != NoReason ==> blamed.reason == d.reason)
      && (blamed.reason == NoReason <==>
            d.reason == NoReason && !d.Overdue(cfg, 0, now) && !d.Overdue(cfg, 1, now))
  {
    hide Driver.BlameMotor;
    BlamesOne(cfg, d, 0, now);
    BlamesOne(cfg, d.BlameMotor(cfg, 0, now), 1, now);
  }

  lemma FinishReadKeeps(cfg: Config, d: Driver, now: int, ok: Pair<bool>)
    requires Inv(d) && d.state == Active
    ensures var n := d.FinishRead(cfg, now, ok);
      && Inv(n) && AtRest(n) && n.senderOpen
      && (n.latched <==> d.health.ackFault || d.Overdue(cfg, 0, now) || d.Overdue(cfg, 1, now))
      && (!n.latched ==> n == d)
  {
    var blamed := d.BlameMotor(cfg, 0, now).BlameMotor(cfg, 1, now);
    Blames(cfg, d, now);
    if d.health.ackFault || d.Overdue(cfg, 0, now) || d.Overdue(cfg, 1, now) {
      LatchKeeps(blamed, ok);
    }
  }

  lemma StateAndLatch(d: Driver)
    requires Inv(d)
    ensures (d.latched <==> d.state == SafeStop) && (d.state == Active ==> d.senderOpen)
  {
  }

  lemma {:induction false} DrainKeeps(cfg: Config, d: Driver, inbox: seq<Reception>, budget: nat, ok: Pair<bool>)
    requires Inv(d) && d.state == Active
    ensures var (n, early, used) := d.Drain(cfg, inbox, budget, ok);
      && Inv(n) && (early <==> n.latched) && (!early ==> n.state == Active) && n.senderOpen
      && used <= budget && used <= |inbox|
    decreases budget
  {
    hide Inv, Driver.OnFrame, Driver.OnFatal, Driver.OnFailure;
    StateAndLatch(d);
    if budget > 0 && inbox != [] {
      match inbox[0]
      case Timeout =>
      case Failure =>
        OnFailureKeeps(d, ok);
        StateAndLatch(d.OnFailure(ok));
      case Received(frame, at) =>
        if d.IsFatal(frame) {
          OnFatalKeeps(d, frame, ok);
          StateAndLatch(d.OnFatal(frame, ok));
        } else {
          OnFrameKeeps(cfg, d, frame, at);
          DrainKeeps(cfg, d.OnFrame(cfg, frame, at), inbox[1..], budget - 1, ok);
        }
    }
  }

  lemma ReadKeeps(cfg: Config, d: Driver, inbox: seq<Reception>, now: int, ok: Pair<bool>)
    requires Inv(d)
    ensures var (n, r) := d.Read(cfg, inbox, now, ok);
      && Inv(n) && AtRest(n) && (r <==> n.state == Active) && (r <==> !n.latched)
      && (d.latched ==> n == d)
      && (d.state == Active ==> n.senderOpen) && (d.state == Inactive ==> !n.stopSucceeded)
  {
    BeginReadKeeps(d, ok);
    if d.state == Active {
      DrainKeeps(cfg, d, inbox, MAX_FRAMES_PER_READ, ok);
      var (drained, early, _) := d.Drain(cfg, inbox, MAX_FRAMES_PER_READ, ok);
      if !early {
        FinishReadKeeps(cfg, drained, now, ok);
      }
    }
  }

  /** In the middle of a write: the session is running and nothing has failed so far. */
  ghost predicate Live(d: Driver) {
    && Core(d) && d.state == Active && d.reason == NoReason && !d.health.ackFault
    && Counting(d) && Windowed(d) && Remembered(d)
    && Running(SessionOf(d)) && SessionOf(d)[|SessionOf(d)| - 1].success
  }

  /** One run frame: accepted, the session goes on; refused, the fault stop closes it. */
  lemma RunFrameKeeps(d: Driver, i: nat, sent: bool, at: int, ok: Pair<bool>)
    requires Live(d) && i == |SessionOf(d)| % 2
    ensures var (n, r) := d.WriteOne(i, sent, at, ok);
      && r == sent
      && (r ==> Live(n) && |SessionOf(n)| == |SessionOf(d)| + 1)
      && (!r ==> Inv(n) && n.latched && n.senderOpen)
  {
    hide WireVelocity, WireSequence, NextSequence, CountFor, Contiguous, Driver.Latch;
    SendLogs(d, i, true, d.commands.At(i), true, sent, at);
    SendCounts(d, i, true, d.commands.At(i), true, sent, at);
    if sent {
      SendWindows(d, i, d.commands.At(i), at);
    } else {
      LatchKeeps(d.Send(i, true, d.commands.At(i), true, false, at).0.Because(CanSendError), ok);
    }
  }

  /** Between writes a healthy active driver is live and one that is live with both motors served is healthy. */
  lemma LiveAtRest(d: Driver)
    ensures Inv(d) && AtRest(d) && d.state == Active ==> Live(d) && |SessionOf(d)| % 2 == 0
    ensures Live(d) && |SessionOf(d)| % 2 == 0 ==> Inv(d) && AtRest(d)
  {
  }

  lemma WriteKeeps(d: Driver, sent: Pair<bool>, at: Pair<int>, ok: Pair<bool>)
    requires Inv(d) && AtRest(d)
    ensures var (n, r) := d.Write(sent, at, ok);
      && Inv(n) && AtRest(n) && (r <==> n.state == Active)
      && (r <==> d.state == Active && sent.left && sent.right)
      && (d.latched ==> n == d)
      && (d.state == Active ==> n.senderOpen) && (d.state == Inactive ==> !n.stopSucceeded)
  {
    hide Driver.Latch, Driver.WriteOne, Grammar, Counting, Windowed, Running;
    if d.state == Inactive {
      IdleLatchKeeps(d, CanSendUnavailable, ok);
    } else if d.state == Active {
      LiveAtRest(d);
      RunFrameKeeps(d, 0, sent.left, at.left, ok);
      if sent.left {
        var d1 := d.WriteOne(0, sent.left, at.left, ok).0;
        RunFrameKeeps(d1, 1, sent.right, at.right, ok);
        LiveAtRest(d1.WriteOne(1, sent.right, at.right, ok).0);
      }
    }
  }
}
