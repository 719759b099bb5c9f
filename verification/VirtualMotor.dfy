/** The simulated motor: a first-order system in closed form that is re-anchored at every command.
    Reals stand for doubles; the exponential is a parameter with the laws that are used. */
module VirtualMotors {
  const MOTOR_TAU: real := 0.1
  const MOTOR_MAX_RPM: real := 240.0
  // Four revolutions a second.
  const TOP_SPEED: real := 4.0

  type Exp = real -> real

  ghost predicate Adds(e: Exp, a: real, b: real) {
    e(a + b) == e(a) * e(b)
  }

  /** For s >= 0, e(-s) lies in (0, 1] and differs from 1 by s at most. */
  ghost predicate Decays(e: Exp, s: real) {
    s >= 0.0 ==> 0.0 < e(-s) <= 1.0 && 1.0 - e(-s) <= s
  }

  /** What is used of the exponential. */
  ghost predicate IsExp(e: Exp) {
    && e(0.0) == 1.0
    && (forall a, b :: Adds(e, a, b))
    && (forall s :: Decays(e, s))
  }

  datatype Motor = Motor(x0: real, v0: real, t0: real, vtar: real, offs: real)

  const REST := Motor(0.0, 0.0, 0.0, 0.0, 0.0)

  function Decay(e: Exp, m: Motor, t1: real): real {
    e(-(t1 - m.t0) / MOTOR_TAU)
  }

  function Velocity(e: Exp, m: Motor, t1: real): real {
    Decay(e, m, t1) * (m.v0 - m.vtar) + m.vtar
  }

  function Position(e: Exp, m: Motor, t1: real): real {
    MOTOR_TAU * (m.v0 - Decay(e, m, t1) * (m.v0 - m.vtar)) + m.vtar * ((t1 - m.t0) - MOTOR_TAU) + m.x0
  }

  function TargetSpeed(dutyCycle: int): real {
    var d := if dutyCycle > 100 then 100 else if dutyCycle < -100 then -100 else dutyCycle;
    d as real / 100.0 * (MOTOR_MAX_RPM / 60.0)
  }

  function Commanded(e: Exp, m: Motor, t: real, dutyCycle: int): Motor {
    Motor(Position(e, m, t), Velocity(e, m, t), t, TargetSpeed(dutyCycle), m.offs)
  }

  /** `reset` reads the clock twice: once to stop the motor, once to set the offset. */
  function WasReset(e: Exp, m: Motor, t: real, u: real): Motor {
    var stopped := Commanded(e, m, t, 0);
    stopped.(offs := Position(e, stopped, u))
  }

  /** A double converted to `int`: cut toward zero. */
  function Truncate(r: real): int {
    if r >= 0.0 then r.Floor else -((-r).Floor)
  }

  /** `n` is less than one away from `r`, on the side of zero. */
  predicate CutTowardZero(r: real, n: int) {
    if r >= 0.0 then 0.0 <= n as real <= r < n as real + 1.0 else n as real - 1.0 < r <= n as real <= 0.0
  }

  /** That is the cut, and nothing else is. */
  lemma TruncateIs(r: real, n: int)
    ensures CutTowardZero(r, n) <==> n == Truncate(r)
  {
    var whole := if r >= 0.0 then r.Floor else (-r).Floor;
    var k := if r >= 0.0 then n else -n;
    var s := if r >= 0.0 then r else -r;
    assert whole as real <= s < whole as real + 1.0;
    if k as real <= s < k as real + 1.0 {
      assert k as real < (whole + 1) as real && whole as real < (k + 1) as real;
    }
  }

  /** The way since the offset in degrees. */
  function ExactDegrees(e: Exp, m: Motor, t: real): real {
    (Position(e, m, t) - m.offs) * 360.0
  }

  function Degrees(e: Exp, m: Motor, t: real): (r: int)
    ensures CutTowardZero(ExactDegrees(e, m, t), r)
  {
    TruncateIs(ExactDegrees(e, m, t), Truncate(ExactDegrees(e, m, t)));
    Truncate(ExactDegrees(e, m, t))
  }

  class VirtualMotor {
    const exp: Exp
    var x0: real
    var v0: real
    var t0: real
    var vtar: real
    var posOffs: real

    function State(): Motor
      reads this
    {
      Motor(x0, v0, t0, vtar, posOffs)
    }

    constructor (exp: Exp)
      ensures State() == REST && this.exp == exp
    {
      this.exp := exp;
      x0, v0, t0, vtar, posOffs := 0.0, 0.0, 0.0, 0.0, 0.0;
    }

    method SetDutyCycle(dutyCycle: int, now: real)
      modifies this
      ensures State() == Commanded(exp, old(State()), now, dutyCycle)
    {
      var v, x := Velocity(exp, State(), now), Position(exp, State(), now);
      v0, x0, t0 := v, x, now;
      var d := if dutyCycle < 100 then dutyCycle else 100;
      d := if d < -100 then -100 else d;
      vtar := d as real / 100.0 * (MOTOR_MAX_RPM / 60.0);
    }

    method Reset(now: real, later: real)
      modifies this
      ensures State() == WasReset(exp, old(State()), now, later)
    {
      SetDutyCycle(0, now);
      posOffs := Position(exp, State(), later);
    }

    method GetPosition(now: real) returns (degrees: int)
      ensures degrees == Degrees(exp, State(), now) && CutTowardZero(ExactDegrees(exp, State(), now), degrees)
    {
      degrees := Truncate((Position(exp, State(), now) - posOffs) * 360.0);
    }
  }

  // --------------------------------------------------------------- one anchoring

  /** Decay over two stretches of time is the product of the two. */
  lemma DecaySplits(e: Exp, m: Motor, t: real, u: real)
    requires IsExp(e)
    ensures Decay(e, m, u) == Decay(e, m, t) * e(-(u - t) / MOTOR_TAU)
  {
    var a, b := -(t - m.t0) / MOTOR_TAU, -(u - t) / MOTOR_TAU;
    assert Adds(e, a, b);
    assert a + b == -(u - m.t0) / MOTOR_TAU;
  }

  lemma DecayBounds(e: Exp, d: real)
    requires IsExp(e) && d >= 0.0
    ensures 0.0 < e(-d / MOTOR_TAU) <= 1.0 && MOTOR_TAU * (1.0 - e(-d / MOTOR_TAU)) <= d
  {
    assert Decays(e, d / MOTOR_TAU);
    assert -(d / MOTOR_TAU) == -d / MOTOR_TAU;
  }

  /** Position and velocity are continuous at a command, whatever it commands. */
  lemma Continuous(e: Exp, m: Motor, t: real, dutyCycle: int)
    requires IsExp(e)
    ensures var n := Commanded(e, m, t, dutyCycle);
            && Position(e, n, t) == Position(e, m, t) && Velocity(e, n, t) == Velocity(e, m, t)
            && Degrees(e, n, t) == Degrees(e, m, t)
  {
    var n := Commanded(e, m, t, dutyCycle);
    assert Decay(e, n, t) == 1.0 by { assert -(t - n.t0) / MOTOR_TAU == 0.0; }
  }

  /** What a duty cycle means: the motor approaches a 25th of it in revolutions a second, at most four
      either way, with a time constant of a tenth of a second. */
  lemma Approaches(e: Exp, m: Motor, t: real, d: int, u: real)
    ensures var speed := if d > 100 then 4.0 else if d < -100 then -4.0 else d as real / 25.0;
            var n := Commanded(e, m, t, d);
            && Velocity(e, n, u) - speed == e(-(u - t) / 0.1) * (Velocity(e, m, t) - speed)
            && Position(e, n, u) - Position(e, m, t) == speed * (u - t) + 0.1 * (Velocity(e, m, t) - Velocity(e, n, u))
  {
    var speed := if d > 100 then 4.0 else if d < -100 then -4.0 else d as real / 25.0;
    assert TargetSpeed(d) == speed;
    var n := Commanded(e, m, t, d);
    var b, w := e(-(u - t) / 0.1), n.v0 - speed;
    assert Decay(e, n, u) * (n.v0 - n.vtar) == b * w;
  }

  /** From rest, in degrees. */
  lemma DegreesFromRest(e: Exp, d: int, u: real)
    requires IsExp(e) && -100 <= d <= 100
    ensures CutTowardZero(14.4 * d as real * (u - 0.1 * (1.0 - e(-u / 0.1))), Degrees(e, Commanded(e, REST, 0.0, d), u))
  {
    var n := Commanded(e, REST, 0.0, d);
    Approaches(e, REST, 0.0, d, u);
    assert Velocity(e, REST, 0.0) == 0.0 && Position(e, REST, 0.0) == 0.0;
    assert u - 0.0 == u;
    var b, speed := e(-u / 0.1), d as real / 25.0;
    hide Velocity, Position, Commanded, IsExp;
    assert Velocity(e, n, u) - speed == b * -speed;
    Distribute(b, speed, u, Velocity(e, n, u));
    assert Position(e, n, u) == speed * (u - 0.1 * (1.0 - b));
    assert ExactDegrees(e, n, u) == speed * (u - 0.1 * (1.0 - b)) * 360.0 by { CommandKeepsOffset(e, REST, 0.0, d); }
    Rescale(d as real, speed, u - 0.1 * (1.0 - b));
  }

  lemma CommandKeepsOffset(e: Exp, m: Motor, t: real, d: int)
    ensures Commanded(e, m, t, d).offs == m.offs
  {
  }

  lemma Distribute(b: real, speed: real, u: real, v: real)
    requires v - speed == b * -speed
    ensures speed * u + 0.1 * (0.0 - v) == speed * (u - 0.1 * (1.0 - b))
  {
    assert b * -speed == -(b * speed);
    assert speed * (u - 0.1 * (1.0 - b)) == speed * u - 0.1 * speed + 0.1 * (b * speed);
  }

  lemma Rescale(d: real, speed: real, way: real)
    requires speed == d / 25.0
    ensures speed * way * 360.0 == 14.4 * d * way
  {
  }

  /** Repeating the current duty cycle does not change the trajectory, at any later or earlier time. */
  lemma RepeatInvisible(e: Exp, m: Motor, t: real, dutyCycle: int, u: real)
    requires IsExp(e) && m.vtar == TargetSpeed(dutyCycle)
    ensures var n := Commanded(e, m, t, dutyCycle);
            Position(e, n, u) == Position(e, m, u) && Velocity(e, n, u) == Velocity(e, m, u) && n.vtar == m.vtar
  {
    var n := Commanded(e, m, t, dutyCycle);
    DecaySplits(e, m, t, u);
    var a, b, w := Decay(e, m, t), e(-(u - t) / MOTOR_TAU), m.v0 - m.vtar;
    assert Decay(e, n, u) == b && n.v0 - n.vtar == a * w;
    assert b * (a * w) == Decay(e, m, u) * w;
  }

  function Repeat(e: Exp, m: Motor, times: seq<real>, dutyCycle: int): Motor {
    if times == [] then m
    else Commanded(e, Repeat(e, m, times[..|times| - 1], dutyCycle), times[|times| - 1], dutyCycle)
  }

  /** Nor does repeating it any number of times. */
  lemma {:induction false} RepeatsInvisible(e: Exp, m: Motor, times: seq<real>, dutyCycle: int, u: real)
    requires IsExp(e) && m.vtar == TargetSpeed(dutyCycle)
    ensures var n := Repeat(e, m, times, dutyCycle);
            Position(e, n, u) == Position(e, m, u) && Velocity(e, n, u) == Velocity(e, m, u) && n.vtar == m.vtar
  {
    if times == [] {
    } else {
      var init := times[..|times| - 1];
      RepeatsInvisible(e, m, init, dutyCycle, u);
      RepeatInvisible(e, Repeat(e, m, init, dutyCycle), times[|times| - 1], dutyCycle, u);
    }
  }

  // ------------------------------------------------------------------- speed limit

  function Abs(r: real): real {
    if r < 0.0 then -r else r
  }

  ghost predicate Limited(m: Motor) {
    Abs(m.v0) <= TOP_SPEED && Abs(m.vtar) <= TOP_SPEED
  }

  lemma TargetLimited(dutyCycle: int)
    ensures Abs(TargetSpeed(dutyCycle)) <= TOP_SPEED
  {
  }

  lemma NonNegative(x: real, y: real)
    requires x >= 0.0 && y >= 0.0
    ensures x * y >= 0.0
  {
  }

  lemma Scale(k: real, a: real, way: real)
    requires k >= 0.0 && Abs(a) <= TOP_SPEED && way == k * a
    ensures -(4.0 * k) <= way <= 4.0 * k
  {
    var up, down := TOP_SPEED - a, TOP_SPEED + a;
    NonNegative(k, up);
    NonNegative(k, down);
    assert k * up == 4.0 * k - k * a && k * down == 4.0 * k + k * a;
  }

  /** A sum of two speeds weighted with times is a way within the limit for the whole time. */
  lemma WeightedSum(k: real, a: real, l: real, b: real, total: real)
    requires k >= 0.0 && l >= 0.0 && Abs(a) <= TOP_SPEED && Abs(b) <= TOP_SPEED
    requires total == k * a + l * b
    ensures Abs(total) <= TOP_SPEED * (k + l)
  {
    var p, q := k * a, l * b;
    Scale(k, a, p);
    Scale(l, b, q);
    assert total == p + q;
  }

  /** A weighted mean of two speeds is within the limit. */
  lemma Mean(k: real, a: real, b: real, mean: real)
    requires 0.0 <= k <= 1.0 && Abs(a) <= TOP_SPEED && Abs(b) <= TOP_SPEED && mean == k * (a - b) + b
    ensures Abs(mean) <= TOP_SPEED
  {
    assert mean == k * a + (1.0 - k) * b;
    WeightedSum(k, a, 1.0 - k, b, mean);
  }

  lemma VelocityLimited(e: Exp, m: Motor, t: real)
    requires IsExp(e) && Limited(m) && t >= m.t0
    ensures Abs(Velocity(e, m, t)) <= TOP_SPEED
  {
    hide IsExp, Abs;
    DecayBounds(e, t - m.t0);
    Mean(Decay(e, m, t), m.v0, m.vtar, Velocity(e, m, t));
  }

  /** Within one anchoring the way covered is a weighted sum of the velocity at the start and the
      target velocity, the weights adding up to the time. */
  lemma WayCovered(e: Exp, m: Motor, t: real, u: real)
    requires IsExp(e)
    ensures var k := MOTOR_TAU * (1.0 - e(-(u - t) / MOTOR_TAU));
            Position(e, m, u) - Position(e, m, t) == k * Velocity(e, m, t) + ((u - t) - k) * m.vtar
  {
    DecaySplits(e, m, t, u);
    var a, b, w := Decay(e, m, t), e(-(u - t) / MOTOR_TAU), m.v0 - m.vtar;
    var k := MOTOR_TAU * (1.0 - b);
    assert Decay(e, m, u) * w == b * (a * w);
    var p := a * w;
    assert Position(e, m, u) - Position(e, m, t) == MOTOR_TAU * (p - b * p) + m.vtar * (u - t);
    assert k * (p + m.vtar) + ((u - t) - k) * m.vtar == k * p + (u - t) * m.vtar;
    assert k * p == MOTOR_TAU * (p - b * p);
  }

  lemma WayLimited(e: Exp, m: Motor, t: real, u: real)
    requires IsExp(e) && Limited(m) && m.t0 <= t <= u
    ensures Abs(Position(e, m, u) - Position(e, m, t)) <= TOP_SPEED * (u - t)
  {
    hide IsExp, Velocity, Position, Abs;
    VelocityLimited(e, m, t);
    DecayBounds(e, u - t);
    WayCovered(e, m, t, u);
    var k := MOTOR_TAU * (1.0 - e(-(u - t) / MOTOR_TAU));
    var v, l, way := Velocity(e, m, t), (u - t) - k, Position(e, m, u) - Position(e, m, t);
    WeightedSum(k, v, l, m.vtar, way);
  }

  // ------------------------------------------------------------------ runs of commands

  datatype Command =
    | Duty(at: real, dutyCycle: int)
    | ResetAt(at: real, offsetAt: real)

  /** The motor after all commands. */
  function After(e: Exp, cmds: seq<Command>): Motor {
    if cmds == [] then REST
    else
      var m := After(e, cmds[..|cmds| - 1]);
      match cmds[|cmds| - 1]
      case Duty(t, d) => Commanded(e, m, t, d)
      case ResetAt(t, u) => WasReset(e, m, t, u)
  }

  function LastTime(cmds: seq<Command>): real {
    if cmds == [] then 0.0 else cmds[|cmds| - 1].at
  }

  /** Commands come at nondecreasing times, counted from zero. */
  predicate Ordered(cmds: seq<Command>) {
    cmds == [] || (Ordered(cmds[..|cmds| - 1]) && LastTime(cmds[..|cmds| - 1]) <= LastTime(cmds))
  }

  /** The motor's state at time `t` of a run: the last command up to then is in force. */
  function InForce(e: Exp, cmds: seq<Command>, t: real): Motor {
    if cmds == [] || LastTime(cmds) <= t then After(e, cmds) else InForce(e, cmds[..|cmds| - 1], t)
  }

  function PositionAt(e: Exp, cmds: seq<Command>, t: real): real {
    Position(e, InForce(e, cmds, t), t)
  }

  function VelocityAt(e: Exp, cmds: seq<Command>, t: real): real {
    Velocity(e, InForce(e, cmds, t), t)
  }

  lemma {:induction false} RunLimited(e: Exp, cmds: seq<Command>)
    requires IsExp(e) && Ordered(cmds)
    ensures Limited(After(e, cmds)) && After(e, cmds).t0 == LastTime(cmds) && LastTime(cmds) >= 0.0
  {
    if cmds == [] {
    } else {
      var init, c := cmds[..|cmds| - 1], cmds[|cmds| - 1];
      RunLimited(e, init);
      VelocityLimited(e, After(e, init), c.at);
      TargetLimited(if c.Duty? then c.dutyCycle else 0);
    }
  }

  /** From the last command of a run on. */
  lemma SpeedLimitTail(e: Exp, cmds: seq<Command>, t: real, u: real)
    requires IsExp(e) && Ordered(cmds) && LastTime(cmds) <= t <= u
    ensures Abs(Velocity(e, After(e, cmds), t)) <= TOP_SPEED
    ensures Abs(Position(e, After(e, cmds), u) - Position(e, After(e, cmds), t)) <= TOP_SPEED * (u - t)
  {
    RunLimited(e, cmds);
    VelocityLimited(e, After(e, cmds), t);
    WayLimited(e, After(e, cmds), t, u);
  }

  /** Over every run of commands and resets at nondecreasing times the motor never turns faster than
      four revolutions a second, and never covers more way than that speed allows. */
  lemma {:induction false} SpeedLimit(e: Exp, cmds: seq<Command>, t: real, u: real)
    requires IsExp(e) && Ordered(cmds) && 0.0 <= t <= u
    ensures Abs(VelocityAt(e, cmds, t)) <= TOP_SPEED
    ensures Abs(PositionAt(e, cmds, u) - PositionAt(e, cmds, t)) <= TOP_SPEED * (u - t)
  {
    hide IsExp, Position, Velocity, Commanded, WasReset;
    if cmds == [] || LastTime(cmds) <= t {
      SpeedLimitTail(e, cmds, t, u);
    } else {
      var init, c := cmds[..|cmds| - 1], cmds[|cmds| - 1];
      if u < c.at {
        SpeedLimit(e, init, t, u);
      } else {
        SpeedLimit(e, init, t, c.at);
        SpeedLimitTail(e, cmds, c.at, u);
        LastContinuous(e, cmds);
        assert InForce(e, init, c.at) == After(e, init);
        assert TOP_SPEED * (u - c.at) + TOP_SPEED * (c.at - t) == TOP_SPEED * (u - t);
      }
    }
  }

  lemma LastContinuous(e: Exp, cmds: seq<Command>)
    requires IsExp(e) && cmds != []
    ensures var init, c := cmds[..|cmds| - 1], cmds[|cmds| - 1];
            Position(e, After(e, cmds), c.at) == Position(e, After(e, init), c.at)
  {
    var init, c := cmds[..|cmds| - 1], cmds[|cmds| - 1];
    Continuous(e, After(e, init), c.at, if c.Duty? then c.dutyCycle else 0);
  }

  // ---------------------------------------------------------------------------- reset

  lemma OffsetInvisible(e: Exp, m: Motor, offs: real, t: real)
    ensures Position(e, m.(offs := offs), t) == Position(e, m, t)
  {
    assert Decay(e, m.(offs := offs), t) == Decay(e, m, t);
  }

  /** A reset moves nothing: it commands the motor to stop and takes what it reads at `u` for zero. */
  lemma ResetStops(e: Exp, m: Motor, t: real, u: real, w: real)
    requires IsExp(e)
    ensures var r := WasReset(e, m, t, u);
            && Position(e, r, t) == Position(e, m, t)
            && Velocity(e, r, w) == e(-(w - t) / 0.1) * Velocity(e, m, t)
            && ExactDegrees(e, r, w) == 360.0 * (Position(e, r, w) - Position(e, r, u))
  {
    var s, r := Commanded(e, m, t, 0), WasReset(e, m, t, u);
    OffsetInvisible(e, s, r.offs, t);
    OffsetInvisible(e, s, r.offs, u);
    assert Decay(e, r, w) == Decay(e, s, w) && Velocity(e, r, w) == Velocity(e, s, w);
    Continuous(e, m, t, 0);
    Approaches(e, m, t, 0, w);
  }

  /** A reset motor reads zero at the moment the offset is taken, and afterwards, left alone, never
      more than the 144 degrees it can coast at full speed. */
  lemma ResetReadsZero(e: Exp, m: Motor, t: real, u: real, w: real)
    requires IsExp(e) && Limited(m) && m.t0 <= t <= u <= w
    ensures Degrees(e, WasReset(e, m, t, u), u) == 0
    ensures -144 <= Degrees(e, WasReset(e, m, t, u), w) <= 144
  {
    var r := WasReset(e, m, t, u);
    var s := Commanded(e, m, t, 0);
    OffsetInvisible(e, s, r.offs, u);
    OffsetInvisible(e, s, r.offs, w);
    hide Position, Velocity, IsExp;
    assert TargetSpeed(0) == 0.0;
    VelocityLimited(e, m, t);
    assert Limited(s);
    VelocityLimited(e, s, u);
    WayCovered(e, s, u, w);
    DecayBounds(e, w - u);
    var k := MOTOR_TAU * (1.0 - e(-(w - u) / MOTOR_TAU));
    var way := Position(e, s, w) - Position(e, s, u);
    assert way == k * Velocity(e, s, u);
    Scale(k, Velocity(e, s, u), way);
    assert -0.4 <= way <= 0.4;
    assert (Position(e, r, w) - r.offs) * 360.0 == way * 360.0;
  }
}
