/** What the closed loop does to the wheels: the robot stops, and measurements mean what they say. */
module Motion {
  import opened Basics
  import opened CanProtocol
  import opened MotorState
  import opened VirtualMotor
  import opened DriverModel
  import opened DriverInvariants
  import opened ClosedLoop
  import opened ChannelSimulation
  import R = DriverRuns
  import C = AckChannel

  // ---- After the latch nothing enabled is sent --------------------------------------------------------

  /** No command on its way to motor `i` would set it in motion. */
  ghost predicate NoEnabled(l: Loop, i: nat) {
    forall k :: 0 <= k < |l.toMotor| && l.toMotor[k].motor == i ==> !l.toMotor[k].enabled
  }

  lemma LatchedStep(s: Setup, l: Loop, e: Event)
    requires s.Valid() && LoopInv(s, l) && Admissible(s, l, e) && !e.Activate? && l.drv.latched
    ensures var n := Step(s, l, e);
      && n.drv.latched && n.drv.log == l.drv.log
      && (n.toMotor == l.toMotor
          || (e.Deliver? && n.toMotor == l.toMotor[1..])
          || (e.LoseCommand? && n.toMotor == C.Without(l.toMotor, e.j)))
  {
    hide Driver.BeginRead, Driver.Write, Driver.Release, Node.Receive, Node.Update, Node.Publish, Driven, BusOk;
    var d := l.drv;
    match e
    case BeginRead(ok) => BeginReadKeeps(d, ok); DrivenIs(l, d.BeginRead(ok).0); DrivenSilent(l, d.BeginRead(ok).0);
    case Write(sent, at, ok) => WriteKeeps(d, sent, at, ok); DrivenSilent(l, d.Write(sent, at, ok).0);
    case Release(ok) => ReleaseKeeps(d, ok); DrivenSilent(l, d.Release(ok).0);
    case _ =>
  }

  /** An activation adds nothing but stop frames to what is in flight. */
  lemma ActivationSendsStops(s: Setup, l: Loop, e: Event, i: nat)
    requires s.Valid() && LoopInv(s, l) && Admissible(s, l, e) && e.Activate? && NoEnabled(l, i)
    ensures NoEnabled(Step(s, l, e), i)
  {
    hide Driver.Activate, Inv, BusOk;
    var d := l.drv.Activate(e.open, e.ok, e.now).0;
    R.ActivateAdds(l.drv, e.open, e.ok, e.now);
    var more := d.log[|l.drv.log|..];
    DeliveredFrom(more);
    assert Step(s, l, e).toMotor == l.toMotor + Delivered(more);
  }

  lemma NoEnabledKept(s: Setup, l: Loop, e: Event, i: nat)
    requires s.Valid() && LoopInv(s, l) && Admissible(s, l, e) && l.drv.latched && NoEnabled(l, i)
    requires e.Activate? ==> Step(s, l, e).drv.latched
    ensures NoEnabled(Step(s, l, e), i) && Step(s, l, e).drv.latched
  {
    hide Step, LoopInv;
    if e.Activate? {
      ActivationSendsStops(s, l, e, i);
    } else {
      LatchedStep(s, l, e);
    }
  }

  // ---- Motors under the closed loop ---------------------------------------------------------------------

  ghost predicate MotorOk(s: Setup, l: Loop, i: nat)
    requires i < 2
  {
    var m := l.node.motors.At(i);
    && (!m.enabled ==> m.target == 0.0)
    && 0 <= m.watchdogMs <= s.cfg.watchdogMs
    && l.node.lastCommand.At(i) <= l.clock && l.node.lastUpdate <= l.clock
  }

  /** Only an arriving command or the update timer touches a motor. */
  ghost predicate MotorUntouched(l: Loop, n: Loop, i: nat)
    requires i < 2
  {
    && n.node.motors.At(i) == l.node.motors.At(i) && n.node.lastCommand.At(i) == l.node.lastCommand.At(i)
    && n.node.lastUpdate == l.node.lastUpdate && l.clock <= n.clock
  }

  lemma UntouchedSteps(s: Setup, l: Loop, e: Event, i: nat)
    requires Admissible(s, l, e) && i < 2 && !e.Deliver? && !e.Update?
    ensures MotorUntouched(l, Step(s, l, e), i)
  {
    hide Driver.Activate, Driver.BeginRead, Driver.OnFailure, Driver.FinishRead, Driver.Write, Driver.Release,
         Driver.OnFatal, Driver.OnFrame, CountFor, Judge, SampleOf;
    if e.Publish? {
      PublishKeepsMotors(s, l.node, e.at);
    }
  }

  lemma PublishKeepsMotors(s: Setup, n: Node, at: Pair<int>)
    ensures var m := n.Publish(s.ncfg, at).0;
      m.motors == n.motors && m.lastCommand == n.lastCommand && m.lastUpdate == n.lastUpdate
  {
    hide SampleOf;
  }

  /** A command for motor `i` reaches it and fault injection spares it. */
  predicate Takes(s: Setup, l: Loop, e: Event, i: nat)
    requires i < 2
  {
    e.Deliver? && l.toMotor != [] && l.toMotor[0].motor == i && !s.ncfg.DropsCommand(i, l.node.commandCount + 1)
  }

  /**
    What a command of the driver's does when its motor takes it: target, enable flag, watchdog and
    sequence become those of the command, both fault flags are cleared, and the wheel is not moved.
  */
  lemma CommandIsObeyed(s: Setup, l: Loop, e: Event, i: nat)
    requires s.Valid() && LoopInv(s, l) && Admissible(s, l, e) && i < 2 && Takes(s, l, e, i)
    ensures var m, n, a := l.node.motors.At(i), Step(s, l, e).node.motors.At(i), l.toMotor[0];
      && n.target == (if a.enabled then a.velocity as real / 1000.0 else 0.0) && n.enabled == a.enabled
      && n.watchdogMs == s.cfg.watchdogMs && n.lastSequence == a.sequence
      && !n.watchdogStopped && !n.protocolFault
      && n.velocity == m.velocity && n.position == m.position
    ensures Step(s, l, e).node.lastCommand.At(i) == e.now && Step(s, l, e).node.lastUpdate == l.node.lastUpdate
  {
    hide Step, LoopInv, NodeConfig.DropsCommand;
    ArrivalStep(s, l, e, i);
  }

  /** A command of the driver's arrives: the motor it names obeys it, or fault injection drops it. */
  lemma ArrivalStep(s: Setup, l: Loop, e: Event, i: nat)
    requires s.Valid() && LoopInv(s, l) && Admissible(s, l, e) && e.Deliver? && i < 2
    ensures var n, a := Step(s, l, e), l.toMotor[0];
      if a.motor == i && !s.ncfg.DropsCommand(i, l.node.commandCount + 1) then
        && n.node.motors.At(i) == Obey(l.node.motors.At(i), Command(a.sequence, a.enabled, a.velocity, s.cfg.watchdogMs))
        && n.node.lastCommand.At(i) == e.now == n.clock && n.node.lastUpdate == l.node.lastUpdate
      else MotorUntouched(l, n, i)
  {
    hide Node.Receive, Inv, AckFrame, Obey, NotAck, WireSequence, CountFor, NodeConfig.DropsCommand;
    assert CommandOk(l.toMotor[0]);
    OwnCommandsDecode(s, l.node, l.toMotor[0], e.now);
  }

  lemma UpdateStep(s: Setup, l: Loop, e: Event, i: nat)
    requires Admissible(s, l, e) && e.Update? && i < 2
    ensures var n, t := Step(s, l, e), l.node.MotorTick(i, e.now);
      && n.node.motors.At(i) == l.node.motors.At(i).Update(s.ncfg.maxAcceleration, t.dt, t.sinceMs)
      && n.node.lastCommand == l.node.lastCommand && n.node.lastUpdate == e.now == n.clock
  {
    hide Motor.Update;
  }

  lemma MotorStepOk(s: Setup, l: Loop, e: Event, i: nat)
    requires s.Valid() && LoopInv(s, l) && Admissible(s, l, e) && i < 2 && MotorOk(s, l, i)
    ensures MotorOk(s, Step(s, l, e), i)
  {
    hide Step, LoopInv, Node.MotorTick, Motor.Move;
    if e.Deliver? {
      ArrivalStep(s, l, e, i);
    } else if e.Update? {
      UpdateStep(s, l, e, i);
      UpdateOutcome(l.node.motors.At(i), s.ncfg.maxAcceleration, l.node.MotorTick(i, e.now).dt, l.node.MotorTick(i, e.now).sinceMs);
    } else {
      UntouchedSteps(s, l, e, i);
    }
  }

  lemma {:induction false} MotorsOk(s: Setup, ls: seq<Loop>, es: seq<Event>, k: nat, i: nat)
    requires IsRun(s, ls, es) && k <= |es| && i < 2
    ensures MotorOk(s, ls[k], i)
  {
    hide Step, LoopInv, Admissible;
    if k > 0 {
      RunOk(s, ls, es, k - 1);
      MotorsOk(s, ls, es, k - 1, i);
      MotorStepOk(s, ls[k - 1], es[k - 1], i);
    }
  }

  // ---- The robot stops ------------------------------------------------------------------------------------

  /** Latched, nothing enabled on its way, and the motor's target is zero. */
  ghost predicate Stopping(l: Loop, i: nat)
    requires i < 2
  {
    l.drv.latched && NoEnabled(l, i) && l.node.motors.At(i).target == 0.0
  }

  lemma StoppingKept(s: Setup, l: Loop, e: Event, i: nat)
    requires s.Valid() && LoopInv(s, l) && Admissible(s, l, e) && i < 2 && Stopping(l, i)
    requires e.Activate? ==> Step(s, l, e).drv.latched
    ensures Stopping(Step(s, l, e), i)
  {
    hide Step, LoopInv, Node.MotorTick, Motor.Move;
    NoEnabledKept(s, l, e, i);
    if e.Deliver? {
      ArrivalStep(s, l, e, i);
    } else if e.Update? {
      UpdateStep(s, l, e, i);
      UpdateOutcome(l.node.motors.At(i), s.ncfg.maxAcceleration, l.node.MotorTick(i, e.now).dt, l.node.MotorTick(i, e.now).sinceMs);
    } else {
      UntouchedSteps(s, l, e, i);
    }
  }

  /** The motor's last accepted command arrived at `t` and carried a watchdog of `w` milliseconds. */
  ghost predicate LastHeard(l: Loop, i: nat, t: int, w: int)
    requires i < 2
  {
    l.node.lastCommand.At(i) == t && l.node.motors.At(i).watchdogMs == w
  }

  /** One step of the wait: the motor is stopping, or has accepted nothing since. */
  lemma WaitStep(s: Setup, l: Loop, e: Event, i: nat, t: int, w: int)
    requires s.Valid() && LoopInv(s, l) && Admissible(s, l, e) && i < 2 && MotorOk(s, l, i)
    requires e.Activate? ==> Step(s, l, e).drv.latched
    requires l.drv.latched && NoEnabled(l, i) && (Stopping(l, i) || LastHeard(l, i, t, w))
    ensures var n := Step(s, l, e);
      && n.drv.latched && NoEnabled(n, i) && (Stopping(n, i) || LastHeard(n, i, t, w))
      && (e.Update? && WholeMs(e.now - t) > w ==> Stopping(n, i))
  {
    hide Step, LoopInv, Motor.Move, WholeMs;
    NoEnabledKept(s, l, e, i);
    if Stopping(l, i) {
      StoppingKept(s, l, e, i);
    } else if e.Deliver? {
      ArrivalStep(s, l, e, i);
    } else if e.Update? {
      UpdateStep(s, l, e, i);
      UpdateOutcome(l.node.motors.At(i), s.ncfg.maxAcceleration, l.node.MotorTick(i, e.now).dt, l.node.MotorTick(i, e.now).sinceMs);
    } else {
      UntouchedSteps(s, l, e, i);
    }
  }

  /** No activation succeeds from step `k` up to step `m`. */
  ghost predicate NoActivation(ls: seq<Loop>, es: seq<Event>, k: nat, m: nat)
    requires k <= m <= |es| < |ls|
  {
    forall j :: k <= j < m && es[j].Activate? ==> ls[j + 1].drv.latched
  }

  lemma {:induction false} Waiting(s: Setup, ls: seq<Loop>, es: seq<Event>, k: nat, m: nat, i: nat)
    requires IsRun(s, ls, es) && k <= m <= |es| && i < 2 && NoActivation(ls, es, k, m)
    requires ls[k].drv.latched && NoEnabled(ls[k], i)
    ensures ls[m].drv.latched && NoEnabled(ls[m], i)
    ensures Stopping(ls[m], i) || LastHeard(ls[m], i, ls[k].node.lastCommand.At(i), ls[k].node.motors.At(i).watchdogMs)
    decreases m
  {
    hide Step, LoopInv, Admissible, NoEnabled;
    if k < m {
      Waiting(s, ls, es, k, m - 1, i);
      RunOk(s, ls, es, m - 1);
      MotorsOk(s, ls, es, m - 1, i);
      WaitStep(s, ls[m - 1], es[m - 1], i, ls[k].node.lastCommand.At(i), ls[k].node.motors.At(i).watchdogMs);
    }
  }

  /**
    The robot stops even if every stop frame is lost: once the driver is latched and no enabled frame
    is left in flight, the first update at which the watchdog carried in the motor's last accepted
    command has expired finds or sets the target to zero, and it stays zero until the driver is
    activated again.
  */
  lemma TargetDropsAfterLatch(s: Setup, ls: seq<Loop>, es: seq<Event>, k: nat, m: nat, q: nat, i: nat)
    requires IsRun(s, ls, es) && k <= m < q <= |es| && i < 2 && NoActivation(ls, es, k, q)
    requires ls[k].drv.latched && NoEnabled(ls[k], i)
    requires es[m].Update? && WholeMs(es[m].now - ls[k].node.lastCommand.At(i)) > ls[k].node.motors.At(i).watchdogMs
    ensures Stopping(ls[q], i)
    decreases q
  {
    hide Step, LoopInv, Admissible, NoEnabled, Stopping, WholeMs;
    RunOk(s, ls, es, q - 1);
    if q == m + 1 {
      assert NoActivation(ls, es, k, m);
      Waiting(s, ls, es, k, m, i);
      MotorsOk(s, ls, es, m, i);
      WaitStep(s, ls[m], es[m], i, ls[k].node.lastCommand.At(i), ls[k].node.motors.At(i).watchdogMs);
    } else {
      TargetDropsAfterLatch(s, ls, es, k, m, q - 1, i);
      StoppingKept(s, ls[q - 1], es[q - 1], i);
    }
  }

  /** In terms of the configuration alone: one watchdog period, and the rounding of one millisecond, is always enough. */
  lemma OnePeriodIsEnough(s: Setup, ls: seq<Loop>, es: seq<Event>, k: nat, m: nat, i: nat)
    requires IsRun(s, ls, es) && k <= m < |es| && i < 2
    requires es[m].Update? && es[m].now >= ls[k].clock + (s.cfg.watchdogMs + 1) * NS_PER_MS
    ensures WholeMs(es[m].now - ls[k].node.lastCommand.At(i)) > ls[k].node.motors.At(i).watchdogMs
  {
    hide Step, LoopInv, Admissible;
    MotorsOk(s, ls, es, k, i);
  }

  lemma TargetDropsWithinAPeriod(s: Setup, ls: seq<Loop>, es: seq<Event>, k: nat, m: nat, q: nat, i: nat)
    requires IsRun(s, ls, es) && k <= m < q <= |es| && i < 2 && NoActivation(ls, es, k, q)
    requires ls[k].drv.latched && NoEnabled(ls[k], i)
    requires es[m].Update? && es[m].now >= ls[k].clock + (s.cfg.watchdogMs + 1) * NS_PER_MS
    ensures Stopping(ls[q], i)
  {
    hide IsRun, NoActivation, NoEnabled, Stopping, WholeMs;
    OnePeriodIsEnough(s, ls, es, k, m, i);
    TargetDropsAfterLatch(s, ls, es, k, m, q, i);
  }

  /** A stop frame that arrives stops the motor at once. */
  lemma StopFrameStops(s: Setup, l: Loop, e: Event)
    requires s.Valid() && LoopInv(s, l) && Admissible(s, l, e) && e.Deliver? && !l.toMotor[0].enabled
    requires l.drv.latched && NoEnabled(l, l.toMotor[0].motor)
    requires !s.ncfg.DropsCommand(l.toMotor[0].motor, l.node.commandCount + 1)
    ensures Stopping(Step(s, l, e), l.toMotor[0].motor)
  {
    hide Node.Receive, Inv, AckFrame, NotAck, WireSequence, CountFor;
    NoEnabledKept(s, l, e, l.toMotor[0].motor);
    assert CommandOk(l.toMotor[0]);
    OwnCommandsDecode(s, l.node, l.toMotor[0], e.now);
  }

  /** The update timer's calls between two points of a run, as motor `i` sees them. */
  function Ticks(ls: seq<Loop>, es: seq<Event>, k: nat, m: nat, i: nat): seq<Tick>
    requires k <= m <= |es| < |ls| && i < 2
    decreases m
  {
    if k == m then [] else
      var last := if es[m - 1].Update? then [ls[m - 1].node.MotorTick(i, es[m - 1].now)] else [];
      Ticks(ls, es, k, m - 1, i) + last
  }

  predicate SamePhysics(m: Motor, n: Motor) {
    m.target == n.target && m.velocity == n.velocity && m.position == n.position
  }

  lemma SameMove(m: Motor, n: Motor, a: real, t: Tick)
    requires SamePhysics(m, n) && m.target == 0.0
    ensures SamePhysics(m.Update(a, t.dt, t.sinceMs), n.Update(a, t.dt, t.sinceMs))
  {
  }

  lemma NoTimeYet(m: Motor, a: real)
    ensures SamePhysics(m, RunTicks(m, a, [])) && Elapsed([]) == 0.0
  {
  }

  /** One step of a wheel that is stopping: an update is one more tick, and nothing else is anything. */
  lemma TimeStep(s: Setup, l: Loop, e: Event, i: nat, from: Motor, before: seq<Tick>)
    requires s.Valid() && LoopInv(s, l) && Admissible(s, l, e) && i < 2 && MotorOk(s, l, i) && Stopping(l, i)
    requires Stopping(Step(s, l, e), i) && SamePhysics(l.node.motors.At(i), RunTicks(from, s.ncfg.maxAcceleration, before))
    ensures var n, last := Step(s, l, e), if e.Update? then [l.node.MotorTick(i, e.now)] else [];
      && SamePhysics(n.node.motors.At(i), RunTicks(from, s.ncfg.maxAcceleration, before + last))
      && Elapsed(before + last) == Elapsed(before) + Seconds(n.node.lastUpdate - l.node.lastUpdate)
  {
    hide Step, LoopInv, NoEnabled, Motor.Update;
    if e.Update? {
      UpdateStep(s, l, e, i);
      var t := l.node.MotorTick(i, e.now);
      assert (before + [t])[..|before + [t]| - 1] == before;
      SameMove(l.node.motors.At(i), RunTicks(from, s.ncfg.maxAcceleration, before), s.ncfg.maxAcceleration, t);
    } else if e.Deliver? {
      ArrivalStep(s, l, e, i);
      assert before + [] == before;
    } else {
      UntouchedSteps(s, l, e, i);
      assert before + [] == before;
    }
  }

  /** While stopping, only time acts on the wheel; the time is the time between the update ticks. */
  lemma {:induction false} OnlyTimeActs(s: Setup, ls: seq<Loop>, es: seq<Event>, k: nat, m: nat, i: nat)
    requires IsRun(s, ls, es) && k <= m <= |es| && i < 2 && NoActivation(ls, es, k, m) && Stopping(ls[k], i)
    ensures Stopping(ls[m], i)
    ensures SamePhysics(ls[m].node.motors.At(i),
                        RunTicks(ls[k].node.motors.At(i), s.ncfg.maxAcceleration, Ticks(ls, es, k, m, i)))
    ensures Elapsed(Ticks(ls, es, k, m, i)) == Seconds(ls[m].node.lastUpdate - ls[k].node.lastUpdate)
    decreases m
  {
    hide Step, LoopInv, NoEnabled, RunTicks, Elapsed, Stopping, MotorOk, SamePhysics, Node.MotorTick;
    if k == m {
      NoTimeYet(ls[k].node.motors.At(i), s.ncfg.maxAcceleration);
    } else {
      var l, e := ls[m - 1], es[m - 1];
      OnlyTimeActs(s, ls, es, k, m - 1, i);
      RunOk(s, ls, es, m - 1);
      MotorsOk(s, ls, es, m - 1, i);
      StoppingKept(s, l, e, i);
      TimeStep(s, l, e, i, ls[k].node.motors.At(i), Ticks(ls, es, k, m - 1, i));
    }
  }

  /**
    And it comes to rest: from then on, for any timing of the updates, the wheel keeps its sense of
    rotation, is at rest exactly from a * t >= |v| on, and turns by at most v^2 / (2a) more.
  */
  lemma WheelComesToRest(s: Setup, ls: seq<Loop>, es: seq<Event>, k: nat, m: nat, i: nat)
    requires IsRun(s, ls, es) && k <= m <= |es| && i < 2 && NoActivation(ls, es, k, m) && Stopping(ls[k], i)
    ensures var a, w, n := s.ncfg.maxAcceleration, ls[k].node.motors.At(i), ls[m].node.motors.At(i);
      && (n.velocity == 0.0 <==> a * Seconds(ls[m].node.lastUpdate - ls[k].node.lastUpdate) >= Abs(w.velocity))
      && SameSide(w.velocity, n.velocity) && SameSide(w.velocity, n.position - w.position)
      && 2.0 * a * Abs(n.position - w.position) <= w.velocity * w.velocity
  {
    hide Step, LoopInv, NoEnabled, Admissible, RunTicks, Ticks, Elapsed, Seconds;
    OnlyTimeActs(s, ls, es, k, m, i);
    StoppingDistance(ls[k].node.motors.At(i), s.ncfg.maxAcceleration, Ticks(ls, es, k, m, i));
  }
}
