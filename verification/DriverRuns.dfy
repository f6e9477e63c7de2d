/** The driver under arbitrary interleavings of its callbacks and the controllers' writes. */
module DriverRuns {
  import opened Basics
  import opened CanProtocol
  import opened DriverModel
  import opened DriverInvariants

  datatype Callback =
    | SetCommand(i: nat, v: real)
    | Activate(open: bool, ok: Pair<bool>, now: int)
    | Read(inbox: seq<Reception>, now: int, ok: Pair<bool>)
    | Write(sent: Pair<bool>, at: Pair<int>, ok: Pair<bool>)
    | Release(ok: Pair<bool>)

  /** The callback's effect, and whether it reports success. */
  function Perform(cfg: Config, d: Driver, c: Callback): (Driver, bool) {
    match c
    case SetCommand(i, v) => if i < 2 then (d.SetCommand(i, v), true) else (d, true)
    case Activate(open, ok, now) => d.Activate(open, ok, now)
    case Read(inbox, now, ok) => d.Read(cfg, inbox, now, ok)
    case Write(sent, at, ok) => d.Write(sent, at, ok)
    case Release(ok) => d.Release(ok)
  }

  function RunFrom(cfg: Config, d: Driver, cs: seq<Callback>): Driver
    decreases |cs|
  {
    if cs == [] then d else Perform(cfg, RunFrom(cfg, d, cs[..|cs| - 1]), cs[|cs| - 1]).0
  }

  function Run(cfg: Config, start: int, cs: seq<Callback>): Driver {
    RunFrom(cfg, Driver.Initial(start), cs)
  }

  lemma PerformKeeps(cfg: Config, d: Driver, c: Callback)
    requires Inv(d) && AtRest(d)
    ensures Inv(Perform(cfg, d, c).0) && AtRest(Perform(cfg, d, c).0)
  {
    hide Driver.Activate, Driver.Read, Driver.Write, Driver.Release;
    match c
    case SetCommand(_, _) =>
    case Activate(open, ok, now) => ActivateKeeps(d, open, ok, now);
    case Read(inbox, now, ok) => ReadKeeps(cfg, d, inbox, now, ok);
    case Write(sent, at, ok) => WriteKeeps(d, sent, at, ok);
    case Release(ok) => ReleaseKeeps(d, ok);
  }

  lemma {:induction false} RunKeeps(cfg: Config, start: int, cs: seq<Callback>)
    ensures Inv(Run(cfg, start, cs)) && AtRest(Run(cfg, start, cs))
    decreases |cs|
  {
    hide Inv, AtRest, Perform;
    if cs == [] {
      InitialInv(start);
    } else {
      RunKeeps(cfg, start, cs[..|cs| - 1]);
      PerformKeeps(cfg, Run(cfg, start, cs[..|cs| - 1]), cs[|cs| - 1]);
    }
  }

  // ---- Latch coherence ---------------------------------------------------------------------------

  /** At every callback boundary of every run the latch, the diagnostic state, the reason and the sockets agree. */
  lemma LatchCoherence(cfg: Config, start: int, cs: seq<Callback>)
    ensures var d := Run(cfg, start, cs);
      && (d.latched <==> d.state == SafeStop)
      && (d.latched <==> d.reason != NoReason)
      && (d.state == Active ==> d.senderOpen && d.receiverOpen && !d.health.ackFault && !d.stopAttempted)
      && (d.state == Inactive ==> !d.senderOpen && !d.receiverOpen)
  {
    RunKeeps(cfg, start, cs);
  }

  /** Only an activation that succeeds clears the latch. */
  lemma OnlyActivationUnlatches(cfg: Config, start: int, cs: seq<Callback>, c: Callback)
    requires Run(cfg, start, cs).latched
    ensures var (n, r) := Perform(cfg, Run(cfg, start, cs), c);
      !n.latched <==> c.Activate? && r
  {
    hide Driver.Activate, Driver.Read, Driver.Write, Driver.Release;
    var d := Run(cfg, start, cs);
    RunKeeps(cfg, start, cs);
    match c
    case SetCommand(_, _) =>
    case Activate(open, ok, now) => ActivateKeeps(d, open, ok, now);
    case Read(inbox, now, ok) => ReadKeeps(cfg, d, inbox, now, ok);
    case Write(sent, at, ok) => WriteKeeps(d, sent, at, ok);
    case Release(ok) => ReleaseKeeps(d, ok);
  }

  // ---- The frame log over whole runs ------------------------------------------------------------

  /** The attempts of the current activation session read stop0 stop1 (run0 run1)* run0? (stop0 stop1)?. */
  lemma SessionGrammar(cfg: Config, start: int, cs: seq<Callback>)
    ensures var d := Run(cfg, start, cs);
      && d.session <= |d.log|
      && (SessionOf(d) == [] || FailedStart(SessionOf(d)) || Healthy(SessionOf(d)) || Stopped(SessionOf(d)))
      && (d.state == Active <==> Healthy(SessionOf(d)))
      && (d.latched && d.senderOpen ==> Stopped(SessionOf(d)))
  {
    RunKeeps(cfg, start, cs);
  }

  /** Once latched, the driver sends nothing more until it is activated again, whatever is called. */
  lemma {:induction false} SilentAfterLatch(cfg: Config, start: int, cs: seq<Callback>, more: seq<Callback>)
    requires Run(cfg, start, cs).latched
    requires forall k :: 0 <= k < |more| ==> !more[k].Activate?
    ensures Run(cfg, start, cs + more).latched
    ensures Run(cfg, start, cs + more).log == Run(cfg, start, cs).log
    decreases |more|
  {
    hide RunFrom, Perform;
    if more == [] {
      assert cs + more == cs;
    } else {
      var front, c := more[..|more| - 1], more[|more| - 1];
      SilentAfterLatch(cfg, start, cs, front);
      assert cs + more == cs + front + [c];
      RunOneMore(cfg, start, cs + front, c);
      LatchedStepIsSilent(cfg, start, cs + front, c);
    }
  }

  lemma LatchedStepIsSilent(cfg: Config, start: int, cs: seq<Callback>, c: Callback)
    requires Run(cfg, start, cs).latched && !c.Activate?
    ensures var n := Perform(cfg, Run(cfg, start, cs), c).0; n.latched && n.log == Run(cfg, start, cs).log
  {
    hide Driver.Activate, Driver.Read, Driver.Write, Driver.Release;
    var d := Run(cfg, start, cs);
    RunKeeps(cfg, start, cs);
    match c
    case SetCommand(_, _) =>
    case Read(inbox, now, ok) => ReadKeeps(cfg, d, inbox, now, ok);
    case Write(sent, at, ok) => WriteKeeps(d, sent, at, ok);
    case Release(ok) => ReleaseKeeps(d, ok);
  }

  /**
    Over every run the k-th attempt for a motor carries sequence k mod 256, and while the driver is
    active each pending list is the contiguous run of sequences that ends at that motor's counter.
  */
  lemma SequenceContinuity(cfg: Config, start: int, cs: seq<Callback>, p: nat, i: nat, j: nat)
    requires i < 2
    ensures var d := Run(cfg, start, cs);
      && (p < |d.log| ==>
            d.log[p].motor < 2 && d.log[p].sequence == CountFor(d.log[..p + 1], d.log[p].motor) % 0x100)
      && (d.state == Active && j < |d.health.pending.At(i)| ==>
            d.health.pending.At(i)[j].sequence == (CountFor(d.log, i) - |d.health.pending.At(i)| + 1 + j) % 0x100)
  {
    hide Run, Inv, AtRest, CountFor, Numbered;
    RunKeeps(cfg, start, cs);
    SequencesOf(Run(cfg, start, cs));
    if p < |Run(cfg, start, cs).log| {
      NumberedAt(Run(cfg, start, cs).log, p);
    }
  }

  lemma SequencesOf(d: Driver)
    requires Inv(d)
    ensures Numbered(d.log) && (d.state == Active ==> Windowed(d))
  {
  }

  lemma {:induction false} NumberedAt(log: seq<Attempt>, p: nat)
    requires Numbered(log) && p < |log|
    ensures log[p].motor < 2 && log[p].number == CountFor(log[..p + 1], log[p].motor)
    ensures log[p].sequence == WireSequence(log[p].number)
    decreases |log|
  {
    if p < |log| - 1 {
      NumberedAt(log[..|log| - 1], p);
      assert log[..|log| - 1][..p + 1] == log[..p + 1];
    } else {
      assert log[..p + 1] == log;
    }
  }

  // ---- Shutdown tells the truth ------------------------------------------------------------------

  /** The latest attempt for a motor. */
  function LatestFor(log: seq<Attempt>, i: nat): Option<Attempt>
    decreases |log|
  {
    if log == [] then None
    else if log[|log| - 1].motor == i then Some(log[|log| - 1])
    else LatestFor(log[..|log| - 1], i)
  }

  /** The last frame attempted for each motor is a stop that the sender accepted. */
  predicate LastAreStops(log: seq<Attempt>) {
    forall i :: 0 <= i < 2 ==>
      var last := LatestFor(log, i); last.Some? && IsStop(last.value, i) && last.value.success
  }

  /** At a callback boundary attempts come in pairs: the last two are one for each motor. */
  predicate PairEnds(log: seq<Attempt>) {
    log == [] || (|log| >= 2 && log[|log| - 2].motor == 0 && log[|log| - 1].motor == 1)
  }

  lemma LatestOfPair(log: seq<Attempt>)
    requires PairEnds(log) && log != []
    ensures LatestFor(log, 0) == Some(log[|log| - 2]) && LatestFor(log, 1) == Some(log[|log| - 1])
  {
    var front := log[..|log| - 1];
    assert front[|front| - 1] == log[|log| - 2];
  }

  lemma LastOfPair(log: seq<Attempt>)
    requires PairEnds(log)
    ensures LastAreStops(log) <==> EndsStopped(log)
  {
    hide LatestFor;
    if log == [] {
      assert LatestFor(log, 0) == None by { LatestOfNone(); }
    } else {
      LatestOfPair(log);
    }
  }

  lemma LatestOfNone()
    ensures LatestFor([], 0) == None
  {
  }

  lemma SessionPairEnds(d: Driver)
    requires Inv(d) && AtRest(d) && SessionOf(d) != []
    ensures PairEnds(d.log)
  {
    hide Counting, Windowed;
    var s := SessionOf(d);
    assert |s| >= 2 && s[|s| - 2] == d.log[|d.log| - 2] && s[|s| - 1] == d.log[|d.log| - 1];
  }

  lemma {:induction false} RunPairEnds(cfg: Config, start: int, cs: seq<Callback>)
    ensures PairEnds(Run(cfg, start, cs).log)
    decreases |cs|
  {
    hide Inv, AtRest, Perform, PairEnds;
    RunKeeps(cfg, start, cs);
    assert Run(cfg, start, cs).session <= |Run(cfg, start, cs).log| by { CoreOf(Run(cfg, start, cs)); }
    if SessionOf(Run(cfg, start, cs)) != [] {
      SessionPairEnds(Run(cfg, start, cs));
    } else if cs != [] {
      var front, c := cs[..|cs| - 1], cs[|cs| - 1];
      RunKeeps(cfg, start, front);
      EmptySessionStep(cfg, Run(cfg, start, front), c);
      RunPairEnds(cfg, start, front);
    } else {
      assert PairEnds([]) by { NothingPairEnds(); }
    }
  }

  lemma NothingPairEnds()
    ensures PairEnds([])
  {
  }

  /** A callback that leaves an empty session has logged nothing. */
  lemma EmptySessionStep(cfg: Config, d: Driver, c: Callback)
    requires Inv(d) && AtRest(d)
    requires var n := Perform(cfg, d, c).0; n.session == |n.log|
    ensures Perform(cfg, d, c).0.log == d.log
  {
    hide Driver.Activate, Driver.Read, Driver.Write, Driver.Release, Inv, WireVelocity;
    var n := Perform(cfg, d, c).0;
    assert d.session <= |d.log| by { CoreOf(d); }
    if c.Activate? {
      ActivateAdds(d, c.open, c.ok, c.now);
    } else {
      PerformAdds(cfg, d, c);
    }
    assert n.log == n.log[..|d.log|];
  }

  /** What a release reports: from an active driver the truth, else what is recorded of the fault stop of a latched one. */
  lemma ReleaseReports(d: Driver, ok: Pair<bool>)
    requires Inv(d) && AtRest(d)
    ensures var (n, r) := d.Release(ok);
      if d.state == Active then r <==> EndsStopped(n.log)
      else n.log == d.log && (r <==> d.latched && d.stopSucceeded) && (d.latched ==> n.stopSucceeded == d.stopSucceeded)
  {
    hide Driver.Send, Counts, Windowed, Running, Stopped, Healthy;
    ReleaseKeeps(d, ok);
    if d.state == Active {
      SafeStopKeeps(d.(commands := Pair(0.0, 0.0)), ok);
    }
  }

  /** Deactivation or shutdown succeeds only if the last frame attempted for each motor is a stop that went out. */
  lemma ShutdownTellsTheTruth(cfg: Config, start: int, cs: seq<Callback>, ok: Pair<bool>)
    requires Perform(cfg, Run(cfg, start, cs), Release(ok)).1
    ensures LastAreStops(Perform(cfg, Run(cfg, start, cs), Release(ok)).0.log)
  {
    hide Driver.Release, LastAreStops, EndsStopped, PairEnds, Inv, AtRest;
    RunKeeps(cfg, start, cs);
    ReleaseKeeps(Run(cfg, start, cs), ok);
    RunOneMore(cfg, start, cs, Release(ok));
    RunPairEnds(cfg, start, cs + [Release(ok)]);
    LastOfPair(Run(cfg, start, cs + [Release(ok)]).log);
  }

  /** A read or a write has latched the driver while it was active, and no activation was called since. */
  predicate FaultLatched(cfg: Config, start: int, cs: seq<Callback>)
    decreases |cs|
  {
    cs != [] &&
    var front, c := cs[..|cs| - 1], cs[|cs| - 1];
    !c.Activate? &&
      (FaultLatched(cfg, start, front) || (Run(cfg, start, front).state == Active && Run(cfg, start, cs).latched))
  }

  /** What a latched driver has recorded of its fault stop: after a fault, whether it went out; otherwise nothing. */
  ghost predicate Recorded(d: Driver, fault: bool) {
    && (fault ==> d.latched)
    && (d.latched ==> (d.stopSucceeded <==> fault && EndsStopped(d.log)))
  }

  lemma RecordStep(cfg: Config, d: Driver, c: Callback, fault: bool)
    requires Inv(d) && AtRest(d) && Recorded(d, fault)
    ensures var n := Perform(cfg, d, c).0;
      Recorded(n, !c.Activate? && (fault || (d.state == Active && n.latched)))
  {
    hide Driver.Activate, Driver.Read, Driver.Write, Driver.Release, Grammar, Counting, Windowed, EndsStopped, Explained;
    match c
    case SetCommand(_, _) =>
    case Activate(open, ok, now) => ActivateKeeps(d, open, ok, now);
    case Read(inbox, now, ok) => ReadKeeps(cfg, d, inbox, now, ok);
    case Write(sent, at, ok) => WriteKeeps(d, sent, at, ok);
    case Release(ok) => ReleaseKeeps(d, ok); ReleaseReports(d, ok);
  }

  lemma {:induction false} RunRecords(cfg: Config, start: int, cs: seq<Callback>)
    ensures Recorded(Run(cfg, start, cs), FaultLatched(cfg, start, cs))
    decreases |cs|
  {
    hide Inv, AtRest, Perform, Recorded;
    if cs == [] {
      assert Recorded(Run(cfg, start, cs), false) by { NothingRecorded(cfg, start); }
    } else {
      var front, c := cs[..|cs| - 1], cs[|cs| - 1];
      RunRecords(cfg, start, front);
      RunKeeps(cfg, start, front);
      RecordStep(cfg, Run(cfg, start, front), c, FaultLatched(cfg, start, front));
    }
  }

  lemma NothingRecorded(cfg: Config, start: int)
    ensures Recorded(Run(cfg, start, []), false)
  {
  }

  /**
    A fault stop that went out is remembered: from the callback that latched an active driver to the next
    activation, the driver has it recorded exactly if the last frame attempted for each motor was an
    accepted stop, and every deactivation or shutdown in between succeeds exactly then.
  */
  lemma FaultStopIsRemembered(cfg: Config, start: int, cs: seq<Callback>, ok: Pair<bool>)
    requires FaultLatched(cfg, start, cs)
    ensures var d := Run(cfg, start, cs);
      && d.latched && (d.stopSucceeded <==> LastAreStops(d.log))
      && (Perform(cfg, d, Release(ok)).1 <==> LastAreStops(d.log))
      && Perform(cfg, d, Release(ok)).0.log == d.log
  {
    hide Driver.Release, LastAreStops, EndsStopped, PairEnds, Grammar, Counting, Windowed, FaultLatched;
    var d := Run(cfg, start, cs);
    RunKeeps(cfg, start, cs);
    RunRecords(cfg, start, cs);
    ReleaseReports(d, ok);
    RunPairEnds(cfg, start, cs);
    LastOfPair(d.log);
  }

  /**
    The converse of ShutdownTellsTheTruth is false, and this is exactly when the report is right: the
    driver was active, or a fault has latched it since the latest activation call, or the last frames
    attempted before were not accepted stops anyway. It is wrong in every other case, as an error
    reported although both motors were stopped last; in particular every release of an inactive driver
    reports an error.
  */
  lemma ReportIsRightExactlyWhen(cfg: Config, start: int, cs: seq<Callback>, ok: Pair<bool>)
    ensures var d := Run(cfg, start, cs);
      var (n, r) := Perform(cfg, d, Release(ok));
      && ((r <==> LastAreStops(n.log)) <==>
            d.state == Active || FaultLatched(cfg, start, cs) || !LastAreStops(d.log))
      && (d.state == Inactive ==> !r)
  {
    hide Driver.Release, LastAreStops, EndsStopped, PairEnds, Grammar, Counting, Windowed, FaultLatched;
    var d := Run(cfg, start, cs);
    RunKeeps(cfg, start, cs);
    RunRecords(cfg, start, cs);
    ReleaseReports(d, ok);
    RunPairEnds(cfg, start, cs);
    LastOfPair(d.log);
    RunOneMore(cfg, start, cs, Release(ok));
    RunPairEnds(cfg, start, cs + [Release(ok)]);
    LastOfPair(Run(cfg, start, cs + [Release(ok)]).log);
  }

  lemma RunOneMore(cfg: Config, start: int, cs: seq<Callback>, c: Callback)
    ensures Run(cfg, start, cs + [c]) == Perform(cfg, Run(cfg, start, cs), c).0
  {
    assert (cs + [c])[..|cs + [c]| - 1] == cs;
  }

  /** A released driver that is read sends nothing, latches for want of a receiver, and the next release reports an error. */
  lemma ReadAfterRelease(cfg: Config, start: int, cs: seq<Callback>, inbox: seq<Reception>, now: int, ok: Pair<bool>)
    requires Run(cfg, start, cs).state == Inactive
    ensures var d := Run(cfg, start, cs + [Read(inbox, now, ok)]);
      d.latched && d.log == Run(cfg, start, cs).log && !Perform(cfg, d, Release(ok)).1
  {
    hide Driver.Drain, Driver.FinishRead, RunFrom, Grammar, Counting, Windowed;
    RunKeeps(cfg, start, cs);
    RunOneMore(cfg, start, cs, Read(inbox, now, ok));
  }

  lemma ActiveRelease(d: Driver)
    requires Inv(d) && AtRest(d) && d.state == Active
    ensures var (n, r) := d.Release(Pair(true, true)); r && n.state == Inactive && EndsStopped(n.log)
  {
    hide Driver.Send, Counts, Windowed, Running, Stopped;
    ReleaseKeeps(d, Pair(true, true));
    SafeStopKeeps(d.(commands := Pair(0.0, 0.0)), Pair(true, true));
  }

  /** A witness: activated and deactivated with every frame accepted, the driver reports an error on shutdown. */
  lemma ShutdownAfterDeactivation(cfg: Config, start: int)
    ensures var ok := Pair(true, true);
      var d := Run(cfg, start, [Activate(true, ok, start)] + [Release(ok)]);
      LastAreStops(d.log) && !Perform(cfg, d, Release(ok)).1
  {
    hide Driver.Activate, Driver.Release, RunFrom, Inv, AtRest, EndsStopped, LastAreStops, PairEnds;
    var ok := Pair(true, true);
    var a := Activate(true, ok, start);
    RunKeeps(cfg, start, []);
    RunOneMore(cfg, start, [], a);
    assert [] + [a] == [a];
    ActivateKeeps(Run(cfg, start, []), true, ok, start);
    RunOneMore(cfg, start, [a], Release(ok));
    RunKeeps(cfg, start, [a]);
    ActiveRelease(Run(cfg, start, [a]));
    RunPairEnds(cfg, start, [a] + [Release(ok)]);
    LastOfPair(Run(cfg, start, [a] + [Release(ok)]).log);
    ReportIsRightExactlyWhen(cfg, start, [a] + [Release(ok)], ok);
  }

  // ---- No stale command is replayed ---------------------------------------------------------------

  /** The latest value a controller wrote for motor `i` since the latest activation call, or zero. */
  function LatestWritten(cs: seq<Callback>, i: nat): real
    decreases |cs|
  {
    if cs == [] then 0.0
    else match cs[|cs| - 1]
      case Activate(_, _, _) => 0.0
      case SetCommand(j, v) => if i == j then v else LatestWritten(cs[..|cs| - 1], i)
      case _ => LatestWritten(cs[..|cs| - 1], i)
  }

  /** Wire velocities of zero and of everything written for motor `i` since the latest activation call. */
  function WrittenSince(cs: seq<Callback>, i: nat): set<int16>
    decreases |cs|
  {
    if cs == [] then {0}
    else match cs[|cs| - 1]
      case Activate(_, _, _) => {0}
      case SetCommand(j, v) => WrittenSince(cs[..|cs| - 1], i) + (if i == j then {WireVelocity(v)} else {})
      case _ => WrittenSince(cs[..|cs| - 1], i)
  }

  /** The log grows, and enabled frames carry the given commands. */
  ghost predicate Adds(log: seq<Attempt>, longer: seq<Attempt>, commands: Pair<real>) {
    && |log| <= |longer| && longer[..|log|] == log
    && forall k :: |log| <= k < |longer| && longer[k].enabled ==>
         longer[k].motor < 2 && longer[k].velocity == WireVelocity(commands.At(longer[k].motor))
  }

  /** The log grows, and by stop frames only. */
  ghost predicate AddsStops(log: seq<Attempt>, longer: seq<Attempt>) {
    && |log| <= |longer| && longer[..|log|] == log
    && forall k :: |log| <= k < |longer| ==> !longer[k].enabled && longer[k].velocity == 0 && longer[k].motor < 2
  }

  lemma AddsThenStops(log: seq<Attempt>, longer: seq<Attempt>, longest: seq<Attempt>, commands: Pair<real>)
    requires Adds(log, longer, commands) && AddsStops(longer, longest)
    ensures Adds(log, longest, commands)
  {
    forall k | |log| <= k < |longest| && longest[k].enabled
      ensures longest[k].motor < 2 && longest[k].velocity == WireVelocity(commands.At(longest[k].motor))
    {
      assert longest[k] == longest[..|longer|][k] == longer[k];
    }
    assert longest[..|log|] == longest[..|longer|][..|log|];
  }

  lemma SafeStopAdds(d: Driver, ok: Pair<bool>)
    ensures AddsStops(d.log, d.SendSafeStop(ok).0.log)
    ensures var n := d.SendSafeStop(ok).0;
      n == d.(log := n.log, sequences := n.sequences, health := n.health) && n.health.stopSent == d.health.stopSent
  {
    hide Driver.Send, Driver.NextAttempt;
    if d.senderOpen {
      StopSent(d, 0, ok.left);
      StopSent(d.Send(0, false, 0.0, false, ok.left, 0).0, 1, ok.right);
    }
  }

  /** If the robot was not latched before, a latched one has its commands cleared and its stop marked. */
  predicate Cleared(d: Driver, n: Driver) {
    !d.stopAttempted && n.latched ==> n.commands == Pair(0.0, 0.0) && n.health.stopSent
  }

  lemma LatchAdds(d: Driver, ok: Pair<bool>)
    ensures AddsStops(d.log, d.Latch(ok).log)
    ensures var n := d.Latch(ok); n.session == d.session && n.latched && n.state == SafeStop && n.reason == d.reason
    ensures Cleared(d, d.Latch(ok))
  {
    hide Driver.SendSafeStop;
    SafeStopAdds(d.(commands := Pair(0.0, 0.0), latched := true, state := SafeStop, stopAttempted := true,
                    health := d.health.MarkStopSent()), ok);
  }

  lemma ReleaseAdds(d: Driver, ok: Pair<bool>)
    requires Core(d)
    ensures AddsStops(d.log, d.Release(ok).0.log)
    ensures d.Release(ok).0.session == d.session && d.Release(ok).0.state != Active
  {
    hide Driver.SendSafeStop;
    var quiet := d.(commands := Pair(0.0, 0.0));
    SafeStopAdds(quiet, ok);
    SafeStopAdds(quiet.(stopAttempted := true, health := quiet.health.MarkStopSent()), ok);
  }

  lemma {:induction false} DrainAdds(cfg: Config, d: Driver, inbox: seq<Reception>, budget: nat, ok: Pair<bool>)
    requires Inv(d) && d.state == Active
    ensures var n := d.Drain(cfg, inbox, budget, ok).0;
      && AddsStops(d.log, n.log) && n.session == d.session
      && (n.state == Active ==> n.commands == d.commands) && Cleared(d, n)
    decreases budget
  {
    hide Driver.Latch, Driver.OnFrame, Driver.OnFatal, Driver.OnFailure, Inv, WireVelocity;
    StateAndLatch(d);
    if budget > 0 && inbox != [] {
      match inbox[0]
      case Timeout =>
      case Failure => FailureAdds(d, ok);
      case Received(frame, at) =>
        if d.IsFatal(frame) {
          FatalAdds(d, frame, ok);
        } else {
          OnFrameKeeps(cfg, d, frame, at);
          DrainAdds(cfg, d.OnFrame(cfg, frame, at), inbox[1..], budget - 1, ok);
        }
    }
  }

  lemma FailureAdds(d: Driver, ok: Pair<bool>)
    ensures var n := d.OnFailure(ok); AddsStops(d.log, n.log) && n.session == d.session && n.state != Active && Cleared(d, n)
  {
    hide Driver.AttemptFaultStop;
    LatchAdds(d.Because(CanReceiveError), ok);
  }

  lemma FatalAdds(d: Driver, frame: CanFrame, ok: Pair<bool>)
    requires d.IsFatal(frame)
    ensures var n := d.OnFatal(frame, ok); AddsStops(d.log, n.log) && n.session == d.session && n.state != Active && Cleared(d, n)
  {
    hide Driver.Latch;
    LatchAdds(d.(reason := CanBusOff), ok);
    LatchAdds(d.(reason := CanTxTimeout), ok);
  }

  lemma ReadAdds(cfg: Config, d: Driver, inbox: seq<Reception>, now: int, ok: Pair<bool>)
    requires Inv(d) && AtRest(d)
    ensures var n := d.Read(cfg, inbox, now, ok).0;
      && AddsStops(d.log, n.log) && n.session == d.session
      && (n.state == Active ==> d.state == Active && n.commands == d.commands) && (!d.latched ==> Cleared(d, n))
  {
    hide Driver.Latch, Driver.Drain, Driver.BlameMotor, Driver.Overdue, WireVelocity;
    if d.state == Inactive {
      LatchAdds(d.(reason := CanReceiveUnavailable), ok);
    } else if d.state == Active {
      DrainAdds(cfg, d, inbox, MAX_FRAMES_PER_READ, ok);
      DrainKeeps(cfg, d, inbox, MAX_FRAMES_PER_READ, ok);
      var drained := d.Drain(cfg, inbox, MAX_FRAMES_PER_READ, ok).0;
      var blamed := drained.BlameMotor(cfg, 0, now).BlameMotor(cfg, 1, now);
      Blames(cfg, drained, now);
      LatchAdds(blamed, ok);
    }
  }

  lemma WriteOneAdds(d: Driver, i: nat, sent: bool, at: int, ok: Pair<bool>)
    requires d.senderOpen && i < 2
    ensures var (n, r) := d.WriteOne(i, sent, at, ok);
      && Adds(d.log, n.log, d.commands) && n.session == d.session && r == sent
      && (if r then n.commands == d.commands && n.state == d.state && n.senderOpen && n.latched == d.latched
            && n.stopAttempted == d.stopAttempted
          else n.state == SafeStop && Cleared(d, n) && (d.reason == NoReason ==> n.reason == CanSendError))
      && (r ==> n.reason == d.reason)
  {
    hide Driver.Latch, WireVelocity;
    var d1 := d.Send(i, true, d.commands.At(i), true, sent, at).0;
    LatchAdds(d1.Because(CanSendError), ok);
    if !sent {
      AddsThenStops(d.log, d1.log, d1.Because(CanSendError).Latch(ok).log, d.commands);
    }
  }

  lemma AddsTrans(log: seq<Attempt>, longer: seq<Attempt>, longest: seq<Attempt>, commands: Pair<real>)
    requires Adds(log, longer, commands) && Adds(longer, longest, commands)
    ensures Adds(log, longest, commands)
  {
    forall k | |log| <= k < |longest| && longest[k].enabled
      ensures longest[k].motor < 2 && longest[k].velocity == WireVelocity(commands.At(longest[k].motor))
    {
      if k < |longer| {
        assert longest[k] == longest[..|longer|][k] == longer[k];
      }
    }
    assert longest[..|log|] == longest[..|longer|][..|log|];
  }

  /** A write sends the current commands; an idle or latched driver sends none. */
  lemma WriteAdds(d: Driver, sent: Pair<bool>, at: Pair<int>, ok: Pair<bool>)
    requires Core(d)
    ensures var n := d.Write(sent, at, ok).0;
      && Adds(d.log, n.log, d.commands) && n.session == d.session
      && (d.state != Active ==> AddsStops(d.log, n.log))
      && (n.state == Active ==> d.state == Active && n.commands == d.commands) && (!d.latched ==> Cleared(d, n))
      && (d.state == Active && n.state != Active && d.reason == NoReason ==> n.reason == CanSendError)
  {
    hide Driver.Latch, Driver.WriteOne, WireVelocity;
    if d.state == Inactive {
      LatchAdds(d.(reason := CanSendUnavailable), ok);
    } else if d.state == Active {
      WriteOneAdds(d, 0, sent.left, at.left, ok);
      if sent.left {
        var d1 := d.WriteOne(0, sent.left, at.left, ok).0;
        WriteOneAdds(d1, 1, sent.right, at.right, ok);
        AddsTrans(d.log, d1.log, d1.WriteOne(1, sent.right, at.right, ok).0.log, d.commands);
      }
    }
  }

  /** What any callback but an activation does to the log and to the commands. */
  lemma PerformAdds(cfg: Config, d: Driver, c: Callback)
    requires Inv(d) && AtRest(d) && !c.Activate?
    ensures var n := Perform(cfg, d, c).0;
      && n.session == d.session && Adds(d.log, n.log, d.commands)
      && (d.state != Active ==> AddsStops(d.log, n.log) && n.state != Active)
      && (n.state == Active && !c.SetCommand? ==> n.commands == d.commands)
  {
    hide Driver.Read, Driver.Write, Driver.Release, Inv, WireVelocity;
    CoreOf(d);
    match c
    case SetCommand(i, v) =>
    case Read(inbox, now, ok) => ReadAdds(cfg, d, inbox, now, ok);
    case Write(sent, at, ok) => WriteAdds(d, sent, at, ok);
    case Release(ok) =>
      ReleaseAdds(d, ok);
  }

  /**
    What every failing callback leaves for controllers and diagnostics, over every run: one that newly
    latches, and every activation and release, has cleared the commands; a new latch has marked its stop;
    and the reason is the one of that callback (a read of an active driver is decided in ReadDecision).
  */
  lemma FailureOutcome(cfg: Config, start: int, cs: seq<Callback>, c: Callback)
    ensures var d := Run(cfg, start, cs);
      var (n, r) := Perform(cfg, d, c);
      && (c.Activate? || c.Release? || (!d.latched && n.latched) ==> n.commands == Pair(0.0, 0.0))
      && (!c.Activate? && !d.latched && n.latched ==> n.health.stopSent)
      && (c.Activate? ==> n.reason == if r then NoReason else ActivationFailed)
      && (c.Read? && d.state == Inactive ==> n.reason == CanReceiveUnavailable)
      && (c.Write? && d.state == Inactive ==> n.reason == CanSendUnavailable)
      && (c.Write? && d.state == Active && !r ==> n.reason == CanSendError)
      && (!c.Activate? && d.latched ==> n.reason == d.reason)
  {
    hide Driver.Activate, Driver.Read, Driver.Write, Driver.Release, Grammar, Counting, Windowed, WireVelocity;
    var d := Run(cfg, start, cs);
    RunKeeps(cfg, start, cs);
    match c
    case SetCommand(_, _) =>
    case Activate(open, ok, now) => ActivateKeeps(d, open, ok, now); ActivateAdds(d, open, ok, now);
    case Read(inbox, now, ok) =>
      ReadKeeps(cfg, d, inbox, now, ok);
      ReadAdds(cfg, d, inbox, now, ok);
      if d.state == Inactive { IdleRead(cfg, d, inbox, now, ok); }
    case Write(sent, at, ok) =>
      WriteKeeps(d, sent, at, ok);
      WriteAdds(d, sent, at, ok);
      if d.state == Inactive { IdleWrite(d, sent, at, ok); }
    case Release(ok) => ReleaseKeeps(d, ok); ReleaseClears(d, ok);
  }

  lemma IdleRead(cfg: Config, d: Driver, inbox: seq<Reception>, now: int, ok: Pair<bool>)
    requires Core(d) && d.state == Inactive
    ensures d.Read(cfg, inbox, now, ok).0.reason == CanReceiveUnavailable
  {
    hide Driver.Latch, Driver.Drain, Driver.FinishRead;
    LatchAdds(d.(reason := CanReceiveUnavailable), ok);
  }

  lemma IdleWrite(d: Driver, sent: Pair<bool>, at: Pair<int>, ok: Pair<bool>)
    requires Core(d) && d.state == Inactive
    ensures d.Write(sent, at, ok).0.reason == CanSendUnavailable
  {
    hide Driver.Latch, Driver.WriteOne;
    LatchAdds(d.(reason := CanSendUnavailable), ok);
  }

  lemma ReleaseClears(d: Driver, ok: Pair<bool>)
    ensures d.Release(ok).0.commands == Pair(0.0, 0.0) && d.Release(ok).0.reason == d.reason
  {
    hide Driver.SendSafeStop;
    var quiet := d.(commands := Pair(0.0, 0.0));
    SafeStopAdds(quiet, ok);
    SafeStopAdds(quiet.(stopAttempted := true, health := quiet.health.MarkStopSent()), ok);
  }

  lemma CoreOf(d: Driver)
    requires Inv(d)
    ensures Core(d)
  {
  }

  lemma ActivateAdds(d: Driver, open: bool, ok: Pair<bool>, now: int)
    ensures var n := d.Activate(open, ok, now).0;
      && AddsStops(d.log, n.log) && n.session == |d.log| && n.commands == Pair(0.0, 0.0)
      && (n.latched ==> n.reason == ActivationFailed)
  {
    hide Driver.SendSafeStop;
    SafeStopAdds(d.Opened(now), ok);
  }

  /** Everything the current session sent enabled is zero or was written after its activation call. */
  ghost predicate Provenance(d: Driver, cs: seq<Callback>) {
    && (d.state == Active ==> d.commands == Pair(LatestWritten(cs, 0), LatestWritten(cs, 1)))
    && forall k :: d.session <= k < |d.log| && d.log[k].enabled ==>
         d.log[k].motor < 2 && d.log[k].velocity in WrittenSince(cs, d.log[k].motor)
  }

  lemma {:induction false} LatestIsWritten(cs: seq<Callback>, i: nat)
    ensures 0 in WrittenSince(cs, i) && WireVelocity(LatestWritten(cs, i)) in WrittenSince(cs, i)
    decreases |cs|
  {
    hide WireVelocity;
    ZeroOnTheWire();
    if cs != [] {
      LatestIsWritten(cs[..|cs| - 1], i);
    }
  }

  lemma ProvenanceStep(cfg: Config, d: Driver, cs: seq<Callback>, c: Callback)
    requires Inv(d) && AtRest(d) && Provenance(d, cs)
    ensures Provenance(Perform(cfg, d, c).0, cs + [c])
  {
    hide Driver.Read, Driver.Write, Driver.Release, Driver.Activate, Inv, WireVelocity;
    var n := Perform(cfg, d, c).0;
    assert (cs + [c])[..|cs + [c]| - 1] == cs;
    if c.Activate? {
      ActivateAdds(d, c.open, c.ok, c.now);
    } else {
      PerformAdds(cfg, d, c);
      LatestIsWritten(cs, 0);
      LatestIsWritten(cs, 1);
      assert d.session <= |d.log| by { CoreOf(d); }
      forall k | n.session <= k < |n.log| && n.log[k].enabled
        ensures n.log[k].motor < 2 && n.log[k].velocity in WrittenSince(cs, n.log[k].motor)
      {
        if k < |d.log| {
          assert n.log[k] == n.log[..|d.log|][k] == d.log[k];
        } else {
          assert d.state == Active;
        }
      }
      assert WrittenSince(cs, 0) <= WrittenSince(cs + [c], 0) && WrittenSince(cs, 1) <= WrittenSince(cs + [c], 1);
    }
  }

  lemma {:induction false} RunProvenance(cfg: Config, start: int, cs: seq<Callback>)
    ensures Provenance(Run(cfg, start, cs), cs)
    decreases |cs|
  {
    hide Inv, AtRest, Perform, Provenance;
    if cs == [] {
      assert Provenance(Run(cfg, start, cs), cs) by { InitialProvenance(cfg, start); }
    } else {
      var front, c := cs[..|cs| - 1], cs[|cs| - 1];
      RunProvenance(cfg, start, front);
      RunKeeps(cfg, start, front);
      ProvenanceStep(cfg, Run(cfg, start, front), front, c);
      assert cs == front + [c];
    }
  }

  lemma InitialProvenance(cfg: Config, start: int)
    ensures Provenance(Run(cfg, start, []), [])
  {
  }

  /**
    No stale command is replayed: over every run, an enabled frame of the current session carries zero
    or a value written after the activation call, and a write sends exactly the latest such value.
  */
  lemma NoStaleCommand(cfg: Config, start: int, cs: seq<Callback>, k: nat, sent: Pair<bool>, at: Pair<int>, ok: Pair<bool>)
    ensures var d := Run(cfg, start, cs);
      && (d.session <= k < |d.log| && d.log[k].enabled ==>
            d.log[k].motor < 2 && d.log[k].velocity in WrittenSince(cs, d.log[k].motor))
    ensures var d, n := Run(cfg, start, cs), Run(cfg, start, cs + [Write(sent, at, ok)]);
      |d.log| <= k < |n.log| && n.log[k].enabled ==>
        n.log[k].motor < 2 && n.log[k].velocity == WireVelocity(LatestWritten(cs, n.log[k].motor))
  {
    hide Driver.Write, Inv, WireVelocity;
    RunProvenance(cfg, start, cs);
    RunKeeps(cfg, start, cs);
    var c := Write(sent, at, ok);
    assert (cs + [c])[..|cs + [c]| - 1] == cs;
    PerformAdds(cfg, Run(cfg, start, cs), c);
  }
}
