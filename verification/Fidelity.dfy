/** Commands mean what they say: reachable velocities, the whole stop, and a command that is held. */
module Fidelity {
  import opened Basics
  import opened MotorState
  import opened VirtualMotor
  import opened DriverModel
  import opened DriverInvariants
  import opened ClosedLoop
  import opened FeedbackPath
  import opened Motion
  import R = DriverRuns

  // ---- Reachable velocities ------------------------------------------------------------------------------

  predicate Accepts(s: Setup, l: Loop, e: Event, i: nat)
    requires i < 2
  {
    Takes(s, l, e, i) && l.toMotor[0].enabled
  }

  /** Every velocity that motor `i` has accepted in the first `k` steps is in the interval. */
  ghost predicate TargetsWithin(s: Setup, ls: seq<Loop>, es: seq<Event>, k: nat, i: nat, lo: real, hi: real)
    requires k <= |es| < |ls| && i < 2
  {
    forall j :: 0 <= j < k && Accepts(s, ls[j], es[j], i) ==> lo <= ls[j].toMotor[0].velocity as real / 1000.0 <= hi
  }

  lemma StepStaysWithin(s: Setup, l: Loop, e: Event, i: nat, lo: real, hi: real)
    requires s.Valid() && LoopInv(s, l) && Admissible(s, l, e) && i < 2 && Within(l.node.motors.At(i), lo, hi)
    requires Accepts(s, l, e, i) ==> lo <= l.toMotor[0].velocity as real / 1000.0 <= hi
    ensures Within(Step(s, l, e).node.motors.At(i), lo, hi)
  {
    hide Step, LoopInv, Motor.Update, Node.MotorTick, NodeConfig.DropsCommand;
    var m := l.node.motors.At(i);
    if e.Deliver? {
      ArrivalStep(s, l, e, i);
    } else if e.Update? {
      UpdateStep(s, l, e, i);
      var t := l.node.MotorTick(i, e.now);
      HullKept(m, s.ncfg.maxAcceleration, OpUpdate(t.dt, t.sinceMs), lo, hi);
    } else {
      UntouchedSteps(s, l, e, i);
    }
  }

  /** In every run, a motor's target and velocity stay inside every interval around zero that holds the velocities it has accepted. */
  lemma {:induction false} VelocityStaysInHull(s: Setup, ls: seq<Loop>, es: seq<Event>, k: nat, i: nat, lo: real, hi: real)
    requires IsRun(s, ls, es) && k <= |es| && i < 2 && lo <= 0.0 <= hi && TargetsWithin(s, ls, es, k, i, lo, hi)
    ensures Within(ls[k].node.motors.At(i), lo, hi)
  {
    hide Step, LoopInv, Admissible, Accepts;
    if k > 0 {
      RunOk(s, ls, es, k - 1);
      VelocityStaysInHull(s, ls, es, k - 1, i, lo, hi);
      StepStaysWithin(s, ls[k - 1], es[k - 1], i, lo, hi);
    } else {
      assert Start(ls[0]);
    }
  }

  /** So the wire always has room for it: in every run the clamp in the feedback never bites. */
  lemma FeedbackNeverClamps(s: Setup, ls: seq<Loop>, es: seq<Event>, k: nat, i: nat)
    requires IsRun(s, ls, es) && k <= |es| && i < 2
    ensures var m := ls[k].node.motors.At(i);
      SampleOf(m, s.ncfg.countsPerRev).velocity == Round(m.velocity * 1000.0)
  {
    VelocityStaysInHull(s, ls, es, k, i, WIRE_MIN, WIRE_MAX);
    VelocityFitsWire(ls[k].node.motors.At(i), s.ncfg.countsPerRev);
  }

  /**
    A bound on the whole stop, whatever was commanded and even if every stop frame is lost: once latched
    with nothing enabled in flight, the wheel stands still from the first update after the watchdog of
    the motor's last accepted command has expired, plus the time to ramp down from the fastest velocity
    on the wire, until the driver is activated again.
  */
  lemma LatchedRobotIsAtRest(s: Setup, ls: seq<Loop>, es: seq<Event>, k: nat, m: nat, q: nat, i: nat)
    requires IsRun(s, ls, es) && k <= m < q <= |es| && i < 2 && NoActivation(ls, es, k, q)
    requires ls[k].drv.latched && NoEnabled(ls[k], i)
    requires es[m].Update? && WholeMs(es[m].now - ls[k].node.lastCommand.At(i)) > ls[k].node.motors.At(i).watchdogMs
    requires s.ncfg.maxAcceleration * Seconds(ls[q].node.lastUpdate - es[m].now) >= -WIRE_MIN
    ensures ls[q].node.motors.At(i).velocity == 0.0
  {
    hide Step, LoopInv, NoEnabled, Stopping, Seconds, WholeMs;
    assert NoActivation(ls, es, k, m + 1) && NoActivation(ls, es, m + 1, q);
    TargetDropsAfterLatch(s, ls, es, k, m, m + 1, i);
    assert ls[m + 1].node.lastUpdate == es[m].now by {
      assert ls[m + 1] == Step(s, ls[m], es[m]);
      UpdateStep(s, ls[m], es[m], i);
    }
    assert Within(ls[m + 1].node.motors.At(i), WIRE_MIN, WIRE_MAX) by {
      VelocityStaysInHull(s, ls, es, m + 1, i, WIRE_MIN, WIRE_MAX);
    }
    WheelComesToRest(s, ls, es, m + 1, q, i);
  }

  // ---- A command that is held --------------------------------------------------------------------------------

  /** The driver is active with command `c` for motor `i`, and every frame on its way there carries it. */
  ghost predicate Holding(l: Loop, i: nat, c: real)
    requires i < 2
  {
    && l.drv.state == Active && l.drv.commands.At(i) == c
    && forall k :: 0 <= k < |l.toMotor| && l.toMotor[k].motor == i ==>
         l.toMotor[k].enabled && l.toMotor[k].velocity == WireVelocity(c)
  }

  /** Whatever a step adds to the commands in flight it has logged. */
  lemma FlightGrows(s: Setup, l: Loop, e: Event)
    requires Admissible(s, l, e)
    ensures var n := Step(s, l, e);
      forall k :: 0 <= k < |n.toMotor| && n.toMotor[k] !in l.toMotor ==>
        |l.drv.log| <= |n.drv.log| && n.toMotor[k] in n.drv.log[|l.drv.log|..]
  {
    hide Driver.Activate, Driver.BeginRead, Driver.OnFailure, Driver.FinishRead, Driver.Write, Driver.Release,
         Driver.OnFatal, Driver.OnFrame, Node.Receive, Node.Update, Node.Publish, Judge, CountFor;
    var n := Step(s, l, e);
    if |l.drv.log| <= |n.drv.log| {
      DeliveredFrom(n.drv.log[|l.drv.log|..]);
    }
  }

  /** An active driver's new frames are run frames with its commands. */
  lemma WriteCarries(d: Driver, sent: Pair<bool>, at: Pair<int>, ok: Pair<bool>, i: nat)
    requires Inv(d) && AtRest(d) && i < 2 && d.Write(sent, at, ok).0.state == Active
    ensures var n := d.Write(sent, at, ok).0;
      && n.commands == d.commands && |d.log| <= |n.log|
      && forall k :: |d.log| <= k < |n.log| && n.log[k].motor == i ==>
           n.log[k].enabled && n.log[k].velocity == WireVelocity(d.commands.At(i))
  {
    hide Driver.Write, WireVelocity, Counting, Windowed;
    var n := d.Write(sent, at, ok).0;
    WriteKeeps(d, sent, at, ok);
    R.WriteAdds(d, sent, at, ok);
    assert |SessionOf(d)| >= 2 && Running(SessionOf(n));
    forall k | |d.log| <= k < |n.log| ensures n.log[k].enabled {
      assert n.log[k] == SessionOf(n)[k - n.session];
    }
  }

  lemma HoldingKept(s: Setup, l: Loop, e: Event, i: nat, c: real)
    requires s.Valid() && LoopInv(s, l) && Admissible(s, l, e) && i < 2 && Holding(l, i, c)
    requires !e.Activate? && !(e.SetCommand? && e.i == i) && Step(s, l, e).drv.state == Active
    ensures Holding(Step(s, l, e), i, c)
  {
    hide WireVelocity, Step, LoopInv;
    FlightGrows(s, l, e);
    if e.Write? {
      WriteStep(s, l, e, i);
    } else {
      QuietStep(s, l, e, i);
    }
  }

  lemma WriteStep(s: Setup, l: Loop, e: Event, i: nat)
    requires s.Valid() && LoopInv(s, l) && Admissible(s, l, e) && i < 2 && e.Write? && Step(s, l, e).drv.state == Active
    ensures var d, n := l.drv, Step(s, l, e).drv;
      && n.commands == d.commands && |d.log| <= |n.log|
      && forall a :: a in n.log[|d.log|..] && a.motor == i ==> a.enabled && a.velocity == WireVelocity(d.commands.At(i))
  {
    hide Driver.Write, Inv, BusOk, WireVelocity;
    WriteCarries(l.drv, e.sent, e.at, e.ok, i);
  }

  /** Any other step that leaves an active driver active logs nothing and keeps the commands but the one it sets. */
  lemma QuietStep(s: Setup, l: Loop, e: Event, i: nat)
    requires s.Valid() && LoopInv(s, l) && Admissible(s, l, e) && i < 2 && l.drv.state == Active && !e.Write?
    requires !e.Activate? && !(e.SetCommand? && e.i == i) && Step(s, l, e).drv.state == Active
    ensures Step(s, l, e).drv.commands.At(i) == l.drv.commands.At(i) && Step(s, l, e).drv.log == l.drv.log
  {
    hide Driver.BeginRead, Driver.OnFailure, Driver.FinishRead, Driver.Release, Driver.OnFatal, Driver.OnFrame,
         Inv, BusOk, Node.Receive, Node.Update, Node.Publish;
    var d := l.drv;
    match e
    case BeginRead(ok) => BeginReadKeeps(d, ok);
    case Receive(now, ok) =>
      var frame := l.toDriver[0].frame;
      if d.IsFatal(frame) { OnFatalKeeps(d, frame, ok); } else { OnFrameKeeps(s.cfg, d, frame, now); }
    case ReceiveFails(ok) => OnFailureKeeps(d, ok);
    case FinishRead(now, ok) => FinishReadKeeps(s.cfg, d, now, ok); StateAndLatch(d.FinishRead(s.cfg, now, ok));
    case Release(ok) => ReleaseKeeps(d, ok); StateAndLatch(d.Release(ok).0);
    case _ =>
  }

  /** At every update in the stretch, the motor's last command is no older than its watchdog's whole milliseconds. */
  ghost predicate Fed(ls: seq<Loop>, es: seq<Event>, k: nat, m: nat, i: nat)
    requires k <= m <= |es| < |ls| && i < 2
  {
    forall j :: k <= j < m && es[j].Update? ==>
      es[j].now - ls[j].node.lastCommand.At(i) < (ls[j].node.motors.At(i).watchdogMs + 1) * 1_000_000
  }

  /** In this stretch the driver stays active and the controller leaves motor `i`'s command alone. */
  ghost predicate Undisturbed(ls: seq<Loop>, es: seq<Event>, k: nat, m: nat, i: nat)
    requires k <= m <= |es| < |ls|
  {
    && (forall j :: k <= j <= m ==> ls[j].drv.state == Active)
    && (forall j :: k <= j < m ==> !es[j].Activate? && !(es[j].SetCommand? && es[j].i == i))
  }

  /** How far the motor is from a speed after `t` more seconds of ramping towards it. */
  ghost predicate Ramped(from: Motor, to: Motor, goal: real, a: real, t: real) {
    && to.target == goal
    && Abs(goal - to.velocity) == Remaining(goal - from.velocity, a, t)
    && SameSide(goal - from.velocity, goal - to.velocity)
  }

  lemma RampedStep(s: Setup, l: Loop, e: Event, i: nat, c: real, from: Motor, t: real)
    requires s.Valid() && LoopInv(s, l) && Admissible(s, l, e) && i < 2 && Holding(l, i, c)
    requires Ramped(from, l.node.motors.At(i), WireVelocity(c) as real / 1000.0, s.ncfg.maxAcceleration, t)
    requires e.Update? ==> e.now - l.node.lastCommand.At(i) < (l.node.motors.At(i).watchdogMs + 1) * 1_000_000
    requires MotorOk(s, l, i)
    ensures var n := Step(s, l, e);
      Ramped(from, n.node.motors.At(i), WireVelocity(c) as real / 1000.0, s.ncfg.maxAcceleration,
             t + Seconds(n.node.lastUpdate - l.node.lastUpdate))
  {
    hide Step, LoopInv, WireVelocity, Ramped;
    if e.Deliver? {
      ArrivalStep(s, l, e, i);
      assert l.toMotor[0].motor == i ==> l.toMotor[0].enabled && l.toMotor[0].velocity == WireVelocity(c);
      SameSpeed(l.node.motors.At(i), Step(s, l, e).node.motors.At(i), from, WireVelocity(c) as real / 1000.0,
                s.ncfg.maxAcceleration, t);
    } else if e.Update? {
      UpdateStep(s, l, e, i);
      RampedTick(from, l.node.motors.At(i), WireVelocity(c) as real / 1000.0, s.ncfg.maxAcceleration, t,
                 l.node.MotorTick(i, e.now));
    } else {
      UntouchedSteps(s, l, e, i);
    }
  }

  lemma SameSpeed(m: Motor, n: Motor, from: Motor, goal: real, a: real, t: real)
    requires Ramped(from, m, goal, a, t) && n.velocity == m.velocity && (n.target == m.target || n.target == goal)
    ensures Ramped(from, n, goal, a, t)
  {
  }

  lemma RampedTick(from: Motor, m: Motor, goal: real, a: real, t: real, tick: Tick)
    requires a > 0.0 && Ramped(from, m, goal, a, t) && tick.sinceMs <= m.watchdogMs && tick.dt >= 0.0
    ensures Ramped(from, m.Update(a, tick.dt, tick.sinceMs), goal, a, t + tick.dt)
  {
    MoveClosesGap(m, a, tick.dt);
    RampComposes(goal - from.velocity, goal - m.velocity, goal - m.Move(a, tick.dt).velocity, a, t, tick.dt);
  }

  lemma {:induction false} HeldTargetRamps(s: Setup, ls: seq<Loop>, es: seq<Event>, k: nat, m: nat, i: nat, c: real)
    requires IsRun(s, ls, es) && k <= m <= |es| && i < 2
    requires Holding(ls[k], i, c) && ls[k].node.motors.At(i).target == WireVelocity(c) as real / 1000.0
    requires Undisturbed(ls, es, k, m, i) && Fed(ls, es, k, m, i)
    ensures Holding(ls[m], i, c)
    ensures Ramped(ls[k].node.motors.At(i), ls[m].node.motors.At(i), WireVelocity(c) as real / 1000.0,
                   s.ncfg.maxAcceleration, Seconds(ls[m].node.lastUpdate - ls[k].node.lastUpdate))
    decreases m
  {
    hide Step, LoopInv, Admissible, WireVelocity, Holding;
    if k < m {
      HeldTargetRamps(s, ls, es, k, m - 1, i, c);
      RunOk(s, ls, es, m - 1);
      MotorsOk(s, ls, es, m - 1, i);
      assert ls[m] == Step(s, ls[m - 1], es[m - 1]) && ls[m].drv.state == Active;
      HoldingKept(s, ls[m - 1], es[m - 1], i, c);
      RampedStep(s, ls[m - 1], es[m - 1], i, c, ls[k].node.motors.At(i),
                 Seconds(ls[m - 1].node.lastUpdate - ls[k].node.lastUpdate));
    }
  }

  /**
    From the step at which a motor takes the held command: while the driver stays active with it and
    the motor is fed in time, the gap to its wire value closes at exactly the full acceleration.
  */
  lemma HeldCommandRamps(s: Setup, ls: seq<Loop>, es: seq<Event>, k: nat, m: nat, i: nat, c: real)
    requires IsRun(s, ls, es) && k < m <= |es| && i < 2 && Holding(ls[k], i, c) && Takes(s, ls[k], es[k], i)
    requires Undisturbed(ls, es, k, m, i) && Fed(ls, es, k, m, i)
    ensures Holding(ls[m], i, c)
    ensures Ramped(ls[k].node.motors.At(i), ls[m].node.motors.At(i), WireVelocity(c) as real / 1000.0,
                   s.ncfg.maxAcceleration, Seconds(ls[m].node.lastUpdate - ls[k].node.lastUpdate))
  {
    hide Step, LoopInv, WireVelocity, Ramped, NodeConfig.DropsCommand, Seconds;
    RunOk(s, ls, es, k);
    assert ls[k + 1] == Step(s, ls[k], es[k]) && ls[k + 1].drv.state == Active;
    CommandIsObeyed(s, ls[k], es[k], i);
    HoldingKept(s, ls[k], es[k], i, c);
    HeldTargetRamps(s, ls, es, k + 1, m, i, c);
    RampedFrom(ls[k].node.motors.At(i), ls[k + 1].node.motors.At(i), ls[m].node.motors.At(i),
               WireVelocity(c) as real / 1000.0, s.ncfg.maxAcceleration, Seconds(ls[m].node.lastUpdate - ls[k].node.lastUpdate));
  }

  lemma RampedFrom(from: Motor, from': Motor, to: Motor, goal: real, a: real, t: real)
    requires Ramped(from', to, goal, a, t) && from.velocity == from'.velocity
    ensures Ramped(from, to, goal, a, t)
  {
  }
}
