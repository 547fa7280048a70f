/** The mechanism-generic part of the physics (common/include/MotorSystem.hh):
    maximum velocity, maximum acceleration, current draw and the clamping
    current limiter, written once for any system that has a motor, a current
    limit, a motor-velocity map, an acceleration and the two state-space
    coefficients. The C++ concept that names those requirements becomes a
    datatype with one variant per mechanism. */
module MotorSystems {

  import opened Numeric
  import opened Motors
  import opened Elevators
  import opened Arms

  datatype MotorSystem = Linear(elevator: Elevator) | Rotary(arm: Arm)
  {
    function Drive(): Motor
    {
      match this
      case Linear(e) => e.motor
      case Rotary(a) => a.motor
    }

    function MaxCurrent(): real
    {
      match this
      case Linear(e) => e.maxCurrent
      case Rotary(a) => a.maxCurrent
    }

    predicate Defined()
    {
      match this
      case Linear(e) => e.Defined()
      case Rotary(a) => a.Defined()
    }

    predicate Physical()
    {
      match this
      case Linear(e) => e.Physical()
      case Rotary(a) => a.Physical()
    }

    function MotorVelocity(v: real): real
      requires Defined()
    {
      match this
      case Linear(e) => e.MotorVelocity(v)
      case Rotary(a) => a.MotorVelocity(v)
    }

    function Acceleration(v: real, u: real): real
      requires Defined()
    {
      match this
      case Linear(e) => e.Acceleration(v, u)
      case Rotary(a) => a.Acceleration(v, u)
    }

    function VelocityCoefficient(): (c: real)
      requires Defined()
      ensures Physical() ==> c < 0.0
    {
      match this
      case Linear(e) => e.VelocityCoefficient()
      case Rotary(a) => a.VelocityCoefficient()
    }

    function VoltageCoefficient(): (c: real)
      requires Defined()
      ensures Physical() ==> c > 0.0
    {
      match this
      case Linear(e) => e.VoltageCoefficient()
      case Rotary(a) => a.VoltageCoefficient()
    }
  }

  /** Both mechanisms are linear in velocity and voltage. */
  lemma {:induction false} SystemAccelerationIsLinear(s: MotorSystem, v: real, u: real)
    requires s.Defined()
    ensures s.Acceleration(v, u) == s.VelocityCoefficient() * v + s.VoltageCoefficient() * u
  {
    match s
    case Linear(e) => AccelerationIsLinear(e, v, u);
    case Rotary(a) => ArmAccelerationIsLinear(a, v, u);
  }

  /** The speed at which the nominal voltage no longer accelerates the
      system: VelocityCoefficient·v + VoltageCoefficient·nominal == 0. */
  function MaximumVelocity(s: MotorSystem): (v: real)
    requires s.Defined() && s.VelocityCoefficient() != 0.0
    ensures s.VelocityCoefficient() * v + s.VoltageCoefficient() * s.Drive().nominalVoltage == 0.0
  {
    -1.0 * s.Drive().nominalVoltage * s.VoltageCoefficient() / s.VelocityCoefficient()
  }

  /** At its maximum velocity under the nominal voltage the system no longer
      accelerates, and for a physical system that velocity is positive. */
  lemma {:induction false} MaximumVelocityIsTerminal(s: MotorSystem)
    requires s.Physical()
    ensures s.Defined() && s.VelocityCoefficient() != 0.0
    ensures s.Acceleration(MaximumVelocity(s), s.Drive().nominalVoltage) == 0.0
    ensures MaximumVelocity(s) > 0.0
  {
    PhysicalSystemIsDefined(s);
    SystemAccelerationIsLinear(s, MaximumVelocity(s), s.Drive().nominalVoltage);
    var n := s.Drive().nominalVoltage;
    ProductPositive(n, s.VoltageCoefficient());
    assert -1.0 * n * s.VoltageCoefficient() < 0.0;
    NegativeQuotient(-1.0 * n * s.VoltageCoefficient(), s.VelocityCoefficient());
  }

  lemma NegativeQuotient(n: real, d: real)
    requires n < 0.0 && d < 0.0
    ensures n / d > 0.0
  {
    assert (-n) / (-d) == n / d;
    QuotientSign(-n, -d);
  }

  lemma PhysicalSystemIsDefined(s: MotorSystem)
    requires s.Physical()
    ensures s.Defined() && s.Drive().Resistance() > 0.0 && s.Drive().nominalVoltage > 0.0
  {
    PhysicalIsDefined(s.Drive());
  }

  /** The current the system draws at velocity v and voltage u. */
  function Current(s: MotorSystem, v: real, u: real): (i: real)
    requires s.Defined()
    ensures i * s.Drive().Resistance() + s.MotorVelocity(v) / s.Drive().AngularVelocityConstant() == u
  {
    s.Drive().Current(u, s.MotorVelocity(v))
  }

  /** The voltage that draws exactly the current limit at velocity v. */
  function CurrentLimitVoltage(s: MotorSystem, v: real): (u: real)
    requires s.Defined()
    ensures Current(s, v, u) == s.MaxCurrent()
  {
    var m := s.Drive();
    var u := s.MaxCurrent() * m.Resistance() + s.MotorVelocity(v) / m.AngularVelocityConstant();
    Cancel(Current(s, v, u), s.MaxCurrent(), m.Resistance());
    u
  }

  /** Clamp the request into [−nominal, nominal]; if it still draws more
      than the current limit, use the voltage that draws exactly the limit. */
  function LimitVoltage(s: MotorSystem, v: real, u: real): (r: real)
    requires s.Defined() && s.Drive().nominalVoltage >= 0.0
    ensures Current(s, v, r) <= s.MaxCurrent()
    ensures Current(s, v, Clamp(u, -s.Drive().nominalVoltage, s.Drive().nominalVoltage)) <= s.MaxCurrent()
            ==> r == Clamp(u, -s.Drive().nominalVoltage, s.Drive().nominalVoltage)
    ensures Current(s, v, Clamp(u, -s.Drive().nominalVoltage, s.Drive().nominalVoltage)) > s.MaxCurrent()
            ==> Current(s, v, r) == s.MaxCurrent()
  {
    var clamped := Clamp(u, -s.Drive().nominalVoltage, s.Drive().nominalVoltage);
    if Current(s, v, clamped) > s.MaxCurrent() then CurrentLimitVoltage(s, v) else clamped
  }

  /** The acceleration from rest under the limited nominal voltage: motor
      torque, and so acceleration, is largest at standstill. */
  function MaximumAcceleration(s: MotorSystem): (a: real)
    requires s.Defined() && s.Drive().nominalVoltage >= 0.0
    ensures s.Physical()
            ==> a == s.VoltageCoefficient() * Min(s.Drive().nominalVoltage, s.MaxCurrent() * s.Drive().Resistance())
    ensures s.Physical() ==> a > 0.0
  {
    var limited := LimitVoltage(s, 0.0, s.Drive().nominalVoltage);
    SystemAccelerationIsLinear(s, 0.0, limited);
    SystemMaximumAccelerationClosedForm(s, s.Acceleration(0.0, limited), limited);
    s.Acceleration(0.0, limited)
  }

  /** For a physical system the acceleration at rest under the limited
      nominal voltage is the voltage coefficient times the smaller of the
      nominal voltage and the voltage that draws the current limit at rest,
      and so positive. */
  lemma {:induction false} SystemMaximumAccelerationClosedForm(s: MotorSystem, a: real, limited: real)
    requires s.Defined() && s.Drive().nominalVoltage >= 0.0
    requires limited == LimitVoltage(s, 0.0, s.Drive().nominalVoltage)
    requires a == s.VelocityCoefficient() * 0.0 + s.VoltageCoefficient() * limited
    ensures s.Physical()
            ==> a == s.VoltageCoefficient() * Min(s.Drive().nominalVoltage, s.MaxCurrent() * s.Drive().Resistance())
    ensures s.Physical() ==> a > 0.0
  {
    if s.Physical() {
      var n := s.Drive().nominalVoltage;
      SystemLimitAtRest(s, n);
      assert Clamp(n, -n, n) == n;
      ProductPositive(s.MaxCurrent(), s.Drive().Resistance());
      ProductPositive(s.VoltageCoefficient(), limited);
    }
  }

  /** At rest the limited voltage is the smaller of the clamped request and
      the voltage that draws the current limit. */
  lemma {:induction false} SystemLimitAtRest(s: MotorSystem, u: real)
    requires s.Physical()
    ensures s.Defined() && s.Drive().Resistance() > 0.0 && s.Drive().nominalVoltage > 0.0
    ensures LimitVoltage(s, 0.0, u)
            == Min(Clamp(u, -s.Drive().nominalVoltage, s.Drive().nominalVoltage),
                   s.MaxCurrent() * s.Drive().Resistance())
  {
    PhysicalSystemIsDefined(s);
    var res := s.Drive().Resistance();
    var c := Clamp(u, -s.Drive().nominalVoltage, s.Drive().nominalVoltage);
    assert s.MotorVelocity(0.0) == 0.0;
    assert CurrentLimitVoltage(s, 0.0) == s.MaxCurrent() * res;
    var d := Current(s, 0.0, c) - s.MaxCurrent();
    assert Current(s, 0.0, c) * res == c;
    assert d * res == c - s.MaxCurrent() * res;
    if d > 0.0 {
      ProductPositive(d, res);
    } else if d < 0.0 {
      ProductPositive(-d, res);
    }
  }

  /** No request accelerates the system from rest harder than
      MaximumAcceleration does. */
  lemma {:induction false} MaximumAccelerationIsMaximal(s: MotorSystem, u: real)
    requires s.Physical()
    ensures s.Defined() && s.Drive().nominalVoltage >= 0.0
    ensures s.Acceleration(0.0, LimitVoltage(s, 0.0, u)) <= MaximumAcceleration(s)
  {
    var n := s.Drive().nominalVoltage;
    SystemLimitAtRest(s, u);
    SystemLimitAtRest(s, n);
    var lu := LimitVoltage(s, 0.0, u);
    var ln := LimitVoltage(s, 0.0, n);
    assert lu <= ln;
    if lu < ln {
      SystemAccelerationIncreasesWithVoltage(s, 0.0, lu, ln);
    }
    assert MaximumAcceleration(s) == s.Acceleration(0.0, ln);
  }

  /** The generic limiter and current agree with the elevator's own. */
  lemma {:induction false} ElevatorIsMotorSystem(e: Elevator, v: real, u: real)
    requires e.Defined() && e.motor.nominalVoltage >= 0.0
    ensures Current(Linear(e), v, u) == e.Current(v, u)
    ensures LimitVoltage(Linear(e), v, u) == e.LimitVoltage(v, u)
    ensures Linear(e).Acceleration(v, u) == e.Acceleration(v, u)
  {
  }

  /** The elevator's MaximumAcceleration asks the limiter for a literal 12 V,
      the generic one for the nominal voltage. Both clamp to the nominal
      voltage, so they agree whenever the nominal voltage is at most 12 V. */
  lemma {:induction false} TwelveVoltLiteralAgreesUpToTwelve(e: Elevator)
    requires e.Defined() && 0.0 <= e.motor.nominalVoltage <= MaximumAccelerationVoltage
    ensures MaximumAcceleration(Linear(e)) == e.MaximumAcceleration()
  {
    var n := e.motor.nominalVoltage;
    assert Clamp(MaximumAccelerationVoltage, -n, n) == Clamp(n, -n, n);
    ElevatorIsMotorSystem(e, 0.0, n);
    assert e.LimitVoltage(0.0, MaximumAccelerationVoltage) == e.LimitVoltage(0.0, n);
  }

  /** Above 12 V the literal understates the acceleration: once the current
      limit allows more than 12 V at rest, the elevator's own
      MaximumAcceleration is strictly below the generic one. */
  lemma {:induction false} TwelveVoltLiteralUnderstatesAboveTwelve(e: Elevator)
    requires e.Physical()
    requires e.motor.nominalVoltage > MaximumAccelerationVoltage
    requires e.maxCurrent * e.motor.Resistance() > MaximumAccelerationVoltage
    ensures e.Defined() && e.motor.nominalVoltage >= 0.0
    ensures e.MaximumAcceleration() < MaximumAcceleration(Linear(e))
  {
    var n := e.motor.nominalVoltage;
    var twelve := e.LimitVoltage(0.0, MaximumAccelerationVoltage);
    var nominal := e.LimitVoltage(0.0, n);
    LimitAtRest(e, MaximumAccelerationVoltage);
    LimitAtRest(e, n);
    assert Clamp(MaximumAccelerationVoltage, -n, n) == MaximumAccelerationVoltage;
    assert Clamp(n, -n, n) == n;
    assert twelve < nominal;
    ElevatorIsMotorSystem(e, 0.0, n);
    SystemAccelerationIncreasesWithVoltage(Linear(e), 0.0, twelve, nominal);
  }

  /** A higher voltage always accelerates a physical system harder. */
  lemma {:induction false} SystemAccelerationIncreasesWithVoltage(s: MotorSystem, v: real, u1: real, u2: real)
    requires s.Physical() && u1 < u2
    ensures s.Defined()
    ensures s.Acceleration(v, u1) < s.Acceleration(v, u2)
  {
    PhysicalSystemIsDefined(s);
    SystemAccelerationIsLinear(s, v, u1);
    SystemAccelerationIsLinear(s, v, u2);
    ProductPositive(s.VoltageCoefficient(), u2 - u1);
  }

  /** The limited voltage is not clamped a second time: when the motor is
      back-driven so hard that its back-EMF exceeds the nominal voltage plus
      the limit's resistive drop, every request is replaced by the voltage
      that draws exactly the limit, and that voltage lies below −nominal. */
  lemma {:induction false} LimitVoltageUndershootsWhenBackDriven(s: MotorSystem, v: real, u: real)
    requires s.Defined() && s.Physical()
    requires s.MotorVelocity(v) / s.Drive().AngularVelocityConstant()
             < -(s.Drive().nominalVoltage + s.MaxCurrent() * s.Drive().Resistance())
    ensures s.Drive().nominalVoltage >= 0.0
    ensures LimitVoltage(s, v, u) == CurrentLimitVoltage(s, v)
    ensures LimitVoltage(s, v, u) < -s.Drive().nominalVoltage
  {
    BackDrivenClampedOverLimit(s, v, u);
    BackDrivenLimitBelowNominal(s, v);
  }

  lemma BackDrivenClampedOverLimit(s: MotorSystem, v: real, u: real)
    requires s.Defined() && s.Physical()
    requires s.MotorVelocity(v) / s.Drive().AngularVelocityConstant()
             < -(s.Drive().nominalVoltage + s.MaxCurrent() * s.Drive().Resistance())
    ensures s.Drive().nominalVoltage >= 0.0
    ensures LimitVoltage(s, v, u) == CurrentLimitVoltage(s, v)
  {
    PhysicalSystemIsDefined(s);
    var n := s.Drive().nominalVoltage;
    var c := Clamp(u, -n, n);
    var res := s.Drive().Resistance();
    var b := s.MotorVelocity(v) / s.Drive().AngularVelocityConstant();
    var i := Current(s, v, c);
    assert i * res + b == c;
    BackDrivenOverLimit(i, res, c, b, n, s.MaxCurrent());
    OverLimitSelectsExactVoltage(s, v, u);
  }

  lemma OverLimitSelectsExactVoltage(s: MotorSystem, v: real, u: real)
    requires s.Defined() && s.Drive().nominalVoltage >= 0.0
    requires Current(s, v, Clamp(u, -s.Drive().nominalVoltage, s.Drive().nominalVoltage)) > s.MaxCurrent()
    ensures LimitVoltage(s, v, u) == CurrentLimitVoltage(s, v)
  {
  }

  lemma BackDrivenLimitBelowNominal(s: MotorSystem, v: real)
    requires s.Defined() && s.Physical()
    requires s.MotorVelocity(v) / s.Drive().AngularVelocityConstant()
             < -(s.Drive().nominalVoltage + s.MaxCurrent() * s.Drive().Resistance())
    ensures CurrentLimitVoltage(s, v) < -s.Drive().nominalVoltage
  {
  }

  lemma BackDrivenOverLimit(i: real, res: real, c: real, b: real, n: real, m: real)
    requires res > 0.0 && -n <= c && i * res + b == c && b < -(n + m * res)
    ensures m < i && m * res + b < -n
  {
    var mr := m * res;
    var ir := i * res;
    assert -(n + mr) == -n - mr;
    assert mr + b < -n;
    assert mr + b < ir + b;
    CancelLess(i, m, res);
  }
}
