/** One virtual motor: watchdog, acceleration-limited ramp and encoder (motor_state.hpp). */
module MotorState {
  import opened Basics
  import opened CanProtocol

  /** The motor's fields; each function is one member function of the source. */
  datatype Motor = Motor(
    target: real,
    velocity: real,
    position: real,
    watchdogMs: int,
    lastSequence: byte,
    enabled: bool,
    watchdogStopped: bool,
    protocolFault: bool)
  {
    static function Initial(): Motor {
      Motor(0.0, 0.0, 0.0, 0, 0, false, false, false)
    }

    function Accept(sequence: byte, velocity: real, watchdogMs: int): Motor {
      this.(lastSequence := sequence, target := velocity, watchdogMs := watchdogMs,
            enabled := true, watchdogStopped := false)
    }

    function Disable(sequence: byte, watchdogMs: int): Motor {
      this.(lastSequence := sequence, target := 0.0, watchdogMs := watchdogMs,
            enabled := false, watchdogStopped := false)
    }

    function SetProtocolFault(fault: bool): Motor {
      this.(protocolFault := fault)
    }

    predicate Expired(sinceMs: int) {
      enabled && sinceMs > watchdogMs
    }

    function CheckWatchdog(sinceMs: int): Motor {
      if Expired(sinceMs) then this.(target := 0.0, watchdogStopped := true) else this
    }

    /** Rate-limited step towards the target, then semi-implicit Euler integration. */
    function Move(a: real, dt: real): Motor {
      if dt <= 0.0 then this
      else
        var v := velocity + Clamp(target - velocity, -(a * dt), a * dt);
        this.(velocity := v, position := position + v * dt)
    }

    function Update(a: real, dt: real, sinceMs: int): Motor {
      CheckWatchdog(sinceMs).Move(a, dt)
    }

    function EncoderCount(countsPerRev: int): int32 {
      ClampInt(Round(position * countsPerRev as real / TWO_PI), INT32_MIN, INT32_MAX)
    }

    function Status(): byte {
      (if enabled then 1 else 0) + (if watchdogStopped then 2 else 0) + (if protocolFault then 4 else 0)
    }
  }

  class MotorState {
    const countsPerRevolution: int
    const maxAcceleration: real
    var targetVelocity: real
    var velocity: real
    var position: real
    var watchdogMs: int
    var lastSequence: byte
    var enabled: bool
    var watchdogStopped: bool
    var protocolFault: bool

    ghost function View(): Motor
      reads this
    {
      Motor(targetVelocity, velocity, position, watchdogMs, lastSequence, enabled, watchdogStopped, protocolFault)
    }

    constructor (countsPerRevolution: int, maxAcceleration: real)
      requires countsPerRevolution > 0 && maxAcceleration > 0.0
      ensures View() == Motor.Initial()
      ensures targetVelocity == velocity == position == 0.0 && !enabled && !watchdogStopped && !protocolFault && lastSequence == 0
      ensures this.countsPerRevolution == countsPerRevolution && this.maxAcceleration == maxAcceleration
    {
      this.countsPerRevolution := countsPerRevolution;
      this.maxAcceleration := maxAcceleration;
      targetVelocity, velocity, position := 0.0, 0.0, 0.0;
      watchdogMs, lastSequence := 0, 0;
      enabled, watchdogStopped, protocolFault := false, false, false;
    }

    method AcceptCommand(sequence: byte, velocity: real, watchdog: int)
      modifies this
      ensures View() == old(View()).Accept(sequence, velocity, watchdog)
    {
      lastSequence := sequence;
      targetVelocity := velocity;
      watchdogMs := watchdog;
      enabled := true;
      watchdogStopped := false;
    }

    method Disable(sequence: byte, watchdog: int)
      modifies this
      ensures View() == old(View()).Disable(sequence, watchdog)
    {
      lastSequence := sequence;
      targetVelocity := 0.0;
      watchdogMs := watchdog;
      enabled := false;
      watchdogStopped := false;
    }

    method SetProtocolFault(fault: bool)
      modifies this
      ensures View() == old(View()).SetProtocolFault(fault)
    {
      protocolFault := fault;
    }

    method Update(dt: real, sinceLastCommandMs: int)
      modifies this
      ensures View() == old(View()).Update(maxAcceleration, dt, sinceLastCommandMs)
    {
      if enabled && sinceLastCommandMs > watchdogMs {
        targetVelocity := 0.0;
        watchdogStopped := true;
      }
      if dt <= 0.0 {
        return;
      }
      var maxDelta := maxAcceleration * dt;
      var delta := Clamp(targetVelocity - velocity, -maxDelta, maxDelta);
      velocity := velocity + delta;
      position := position + velocity * dt;
    }

    method EncoderCount() returns (count: int32)
      ensures count == View().EncoderCount(countsPerRevolution)
    {
      var rounded := Round(position * countsPerRevolution as real / TWO_PI);
      count := ClampInt(rounded, INT32_MIN, INT32_MAX);
    }

    method Status() returns (status: byte)
      ensures status == View().Status() && status < 8
      ensures (status % 2 == 1 <==> enabled) && (status / 2 % 2 == 1 <==> watchdogStopped)
      ensures status / 4 == 1 <==> protocolFault
    {
      status := if enabled then 1 else 0;
      if watchdogStopped {
        status := status + 2;
      }
      if protocolFault {
        status := status + 4;
      }
    }
  }

  // ---- What the operations do, field by field -----------------------------------------------

  /** The watchdog stops an enabled motor whose last command is older than it allows, and nothing else. */
  lemma UpdateOutcome(m: Motor, a: real, dt: real, sinceMs: int)
    ensures var n := m.Update(a, dt, sinceMs);
      && n.target == (if m.enabled && sinceMs > m.watchdogMs then 0.0 else m.target)
      && n.watchdogStopped == (m.watchdogStopped || (m.enabled && sinceMs > m.watchdogMs))
      && n.enabled == m.enabled && n.watchdogMs == m.watchdogMs
      && n.lastSequence == m.lastSequence && n.protocolFault == m.protocolFault
      && n.position == m.position + (if dt > 0.0 then n.velocity * dt else 0.0)
      && (dt <= 0.0 ==> n.velocity == m.velocity)
  {
  }

  /** Each flag can be read back from the status byte. */
  lemma StatusBits(m: Motor)
    ensures m.Status() < 8
    ensures (m.Status() % 2 == 1 <==> m.enabled) && (m.Status() / 2 % 2 == 1 <==> m.watchdogStopped)
    ensures m.Status() / 4 == 1 <==> m.protocolFault
  {
  }

  // ---- Dynamics ----------------------------------------------------------------------------

  /** One call of the update timer: elapsed seconds and whole milliseconds since the last command. */
  datatype Tick = Tick(dt: real, sinceMs: int)

  function RunTicks(m: Motor, a: real, ticks: seq<Tick>): Motor
    decreases |ticks|
  {
    if ticks == [] then m
    else RunTicks(m, a, ticks[..|ticks| - 1]).Update(a, ticks[|ticks| - 1].dt, ticks[|ticks| - 1].sinceMs)
  }

  /** Total time that moves the motor; a non-positive step moves nothing. */
  function Elapsed(ticks: seq<Tick>): real
    decreases |ticks|
  {
    if ticks == [] then 0.0 else Elapsed(ticks[..|ticks| - 1]) + Max(0.0, ticks[|ticks| - 1].dt)
  }

  /** What is left of a speed difference after `t` seconds of ramping. */
  function Remaining(gap: real, a: real, t: real): real {
    Max(0.0, Abs(gap) - a * t)
  }

  predicate SameSide(x: real, y: real) {
    (x >= 0.0 && y >= 0.0) || (x <= 0.0 && y <= 0.0)
  }

  /** Ramping for `t` and then for `dt` is ramping for `t + dt`. */
  lemma RampComposes(g0: real, g1: real, g2: real, a: real, t: real, dt: real)
    requires a > 0.0 && dt >= 0.0
    requires Abs(g1) == Remaining(g0, a, t) && SameSide(g0, g1)
    requires Abs(g2) == Remaining(g1, a, dt) && SameSide(g1, g2)
    ensures Abs(g2) == Remaining(g0, a, t + dt) && SameSide(g0, g2)
  {
    assert a * (t + dt) == a * t + a * dt;
    assert a * dt >= 0.0;
  }

  /** One ramp step closes the gap to the target by exactly `a * dt`, or completely, and never overshoots. */
  lemma MoveClosesGap(m: Motor, a: real, dt: real)
    requires a > 0.0
    ensures var n := m.Move(a, dt);
      && n.target == m.target
      && Abs(m.target - n.velocity) == Remaining(m.target - m.velocity, a, Max(0.0, dt))
      && SameSide(m.target - m.velocity, m.target - n.velocity)
  {
    if dt > 0.0 {
      assert a * dt > 0.0;
    } else {
      assert a * Max(0.0, dt) == 0.0;
    }
  }

  /**
    One update ramps towards the target that it leaves, so the update at which the watchdog fires already
    slows down: the gap to that target closes by exactly a * dt, or completely, and never changes sign.
  */
  lemma UpdateRamps(m: Motor, a: real, dt: real, sinceMs: int)
    requires a > 0.0
    ensures var n := m.Update(a, dt, sinceMs);
      && Abs(n.target - n.velocity) == Remaining(n.target - m.velocity, a, Max(0.0, dt))
      && SameSide(n.target - m.velocity, n.target - n.velocity)
  {
    hide Motor.Move, Remaining;
    MoveClosesGap(m.CheckWatchdog(sinceMs), a, dt);
  }

  lemma SquareDrops(v: real, d: real)
    ensures (v + d) * (v + d) - v * v >= 2.0 * (v * d)
  {
    assert (v + d) * (v + d) == v * v + 2.0 * (v * d) + d * d;
    assert d * d >= 0.0;
  }

  /** With target zero, one step's travel is paid for by the drop of the squared speed. */
  lemma MovePaysForTravel(m: Motor, a: real, dt: real)
    requires a > 0.0 && m.target == 0.0
    ensures var n := m.Move(a, dt);
      && 2.0 * a * Abs(n.position - m.position) <= m.velocity * m.velocity - n.velocity * n.velocity
      && (n.position - m.position) * m.velocity >= 0.0
  {
    var n := m.Move(a, dt);
    if dt > 0.0 {
      var d := a * dt;
      var v := n.velocity;
      assert d > 0.0;
      assert n.position - m.position == v * dt;
      assert a * (v * dt) == v * d;
      if v > 0.0 {
        assert m.velocity == v + d;
        SquareDrops(v, d);
        assert v * dt >= 0.0;
      } else if v < 0.0 {
        assert m.velocity == -(-v + d);
        SquareDrops(-v, d);
        assert (-v) * dt >= 0.0;
      } else {
        assert m.velocity * m.velocity >= 0.0;
      }
    }
  }

  /** The watchdog does not fire (or has nothing left to stop) during these ticks. */
  predicate TargetHolds(m: Motor, ticks: seq<Tick>) {
    m.target == 0.0 || !m.enabled || forall k :: 0 <= k < |ticks| ==> ticks[k].sinceMs <= m.watchdogMs
  }

  /**
    While the target holds, for every partition of time: the gap to it after the ticks is exactly
    what the ramp leaves over, and it never changes sign.
  */
  lemma {:induction false} RampIsExact(m: Motor, a: real, ticks: seq<Tick>)
    requires a > 0.0 && TargetHolds(m, ticks)
    ensures var n := RunTicks(m, a, ticks);
      && n.target == m.target
      && n.watchdogMs == m.watchdogMs && n.enabled == m.enabled
      && Abs(m.target - n.velocity) == Remaining(m.target - m.velocity, a, Elapsed(ticks))
      && SameSide(m.target - m.velocity, m.target - n.velocity)
    decreases |ticks|
  {
    if ticks != [] {
      var front, last := ticks[..|ticks| - 1], ticks[|ticks| - 1];
      RampIsExact(m, a, front);
      var p := RunTicks(m, a, front);
      var c := p.CheckWatchdog(last.sinceMs);
      MoveClosesGap(c, a, last.dt);
      var n := RunTicks(m, a, ticks);
      RampComposes(m.target - m.velocity, m.target - p.velocity, m.target - n.velocity,
                   a, Elapsed(front), Max(0.0, last.dt));
    }
  }

  /** The travel from `x0` to `x1` is in the direction of `v` and paid for by the drop of squared speed. */
  predicate Paid(a: real, x0: real, x1: real, v0: real, v1: real, direction: real) {
    && 2.0 * a * Abs(x1 - x0) <= v0 * v0 - v1 * v1
    && SameSide(direction, x1 - x0)
  }

  lemma PaidAdds(a: real, x0: real, x1: real, x2: real, v0: real, v1: real, v2: real, direction: real)
    requires a > 0.0 && direction != 0.0
    requires Paid(a, x0, x1, v0, v1, direction) && Paid(a, x1, x2, v1, v2, direction)
    ensures Paid(a, x0, x2, v0, v2, direction)
  {
    var d1, d2 := Abs(x1 - x0), Abs(x2 - x1);
    assert Abs(x2 - x0) == d1 + d2;
    assert a * (d1 + d2) == a * d1 + a * d2;
  }

  lemma {:induction false} TravelIsPaid(m: Motor, a: real, ticks: seq<Tick>)
    requires a > 0.0 && m.target == 0.0 && m.velocity != 0.0
    ensures var n := RunTicks(m, a, ticks);
      Paid(a, m.position, n.position, m.velocity, n.velocity, m.velocity)
    decreases |ticks|
  {
    if ticks != [] {
      var front, last := ticks[..|ticks| - 1], ticks[|ticks| - 1];
      TravelIsPaid(m, a, front);
      RampIsExact(m, a, front);
      var p := RunTicks(m, a, front);
      var n := TickIsPaid(p, m.velocity, a, last);
      PaidAdds(a, m.position, p.position, n.position, m.velocity, p.velocity, n.velocity, m.velocity);
    }
  }

  lemma TickIsPaid(p: Motor, v: real, a: real, tick: Tick) returns (n: Motor)
    requires a > 0.0 && p.target == 0.0 && SameSide(v, p.velocity) && v != 0.0
    ensures n == p.Update(a, tick.dt, tick.sinceMs)
    ensures Paid(a, p.position, n.position, p.velocity, n.velocity, v)
  {
    n := p.Update(a, tick.dt, tick.sinceMs);
    MovePaysForTravel(p.CheckWatchdog(tick.sinceMs), a, tick.dt);
  }

  /**
    Stopping: from the moment the target is zero, for every sequence of time steps and whatever the
    command ages, the velocity keeps its sign and is zero exactly from a * t >= |v0| on, and the
    travel goes the way the motor was moving and is at most v0^2 / (2a).
  */
  lemma StoppingDistance(m: Motor, a: real, ticks: seq<Tick>)
    requires a > 0.0 && m.target == 0.0
    ensures var n := RunTicks(m, a, ticks);
      && n.target == 0.0
      && SameSide(m.velocity, n.velocity)
      && (n.velocity == 0.0 <==> a * Elapsed(ticks) >= Abs(m.velocity))
      && SameSide(m.velocity, n.position - m.position)
      && 2.0 * a * Abs(n.position - m.position) <= m.velocity * m.velocity
  {
    RampIsExact(m, a, ticks);
    var n := RunTicks(m, a, ticks);
    if m.velocity == 0.0 {
      RestIsKept(m, a, ticks);
    } else {
      TravelIsPaid(m, a, ticks);
      assert n.velocity * n.velocity >= 0.0;
    }
  }

  lemma {:induction false} RestIsKept(m: Motor, a: real, ticks: seq<Tick>)
    requires a > 0.0 && m.target == 0.0 && m.velocity == 0.0
    ensures var n := RunTicks(m, a, ticks);
      n.target == 0.0 && n.velocity == 0.0 && n.position == m.position && a * Elapsed(ticks) >= 0.0
    decreases |ticks|
  {
    if ticks != [] {
      var front, last := ticks[..|ticks| - 1], ticks[|ticks| - 1];
      RestIsKept(m, a, front);
      assert a * Elapsed(ticks) == a * Elapsed(front) + a * Max(0.0, last.dt);
      assert a * Max(0.0, last.dt) >= 0.0;
    }
  }

  /** Everything that can happen to a motor. */
  datatype MotorOp =
    | OpAccept(sequence: byte, velocity: real, watchdogMs: int)
    | OpDisable(sequence: byte, watchdogMs: int)
    | OpFault(fault: bool)
    | OpUpdate(dt: real, sinceMs: int)

  function ApplyOp(m: Motor, a: real, op: MotorOp): Motor {
    match op
    case OpAccept(s, v, w) => m.Accept(s, v, w)
    case OpDisable(s, w) => m.Disable(s, w)
    case OpFault(f) => m.SetProtocolFault(f)
    case OpUpdate(dt, since) => m.Update(a, dt, since)
  }

  ghost predicate Within(m: Motor, lo: real, hi: real) {
    lo <= 0.0 <= hi && lo <= m.target <= hi && lo <= m.velocity <= hi
  }

  /** One operation keeps target and velocity inside any interval around zero that holds the accepted targets. */
  lemma HullKept(m: Motor, a: real, op: MotorOp, lo: real, hi: real)
    requires a > 0.0 && Within(m, lo, hi)
    requires op.OpAccept? ==> lo <= op.velocity <= hi
    ensures Within(ApplyOp(m, a, op), lo, hi)
  {
    if op.OpUpdate? {
      var c := m.CheckWatchdog(op.sinceMs);
      MoveClosesGap(c, a, op.dt);
      if op.dt > 0.0 {
        assert a * op.dt > 0.0;
      }
    }
  }
}
