/** The elevator carriage as an electromechanical system (common/src/Elevator.cc,
    src/Elevator.cc): a motor drives a drum of radius r through a gearbox of
    ratio G and lifts a carriage of mass m. Both generations share this
    datatype; they differ only in the current limiter, modelled here as
    LimitVoltage (clamps to the nominal voltage first) and
    LimitVoltageUnsaturated (does not). */
module Elevators {

  import opened Numeric
  import opened Matrices
  import opened Motors

  /** The supply voltage that MaximumAcceleration feeds to the limiter: the
      source writes the literal 12 V rather than the motor's nominal voltage. */
  const MaximumAccelerationVoltage: real := 12.0

  /** The unit conversions the programs' elevator figures are written in. */
  const Inch: real := 0.0254
  const PoundMass: real := 0.45359237

  datatype Elevator = Elevator(gearRatio: real, drumRadius: real, mass: real,
                               maxCurrent: real, maxTravel: real, motor: Motor)
  {
    /** Every division the formulas below perform is by a non-zero value. */
    predicate Defined()
    {
      motor.Defined() && drumRadius != 0.0 && mass != 0.0
    }

    /** A buildable elevator: a physical motor, positive ratio, radius, mass
        and current limit. */
    predicate Physical()
    {
      motor.Physical() && gearRatio > 0.0 && drumRadius > 0.0 && mass > 0.0 && maxCurrent > 0.0
    }

    /** The motor shaft speed (rad/s) that a carriage speed v (m/s) needs:
        the drum turns at v / r and the motor G times faster. */
    function MotorVelocity(v: real): (w: real)
      requires drumRadius != 0.0
      ensures w * drumRadius == v * gearRatio
    {
      v * gearRatio / drumRadius
    }

    /** The current drawn at carriage speed v and applied voltage u: the
        voltage is split between the resistive drop i·R and the back-EMF
        ω/Kv of the spinning motor. */
    function Current(v: real, u: real): (i: real)
      requires Defined()
      ensures i * motor.Resistance() + MotorVelocity(v) / motor.AngularVelocityConstant() == u
    {
      motor.Current(u, MotorVelocity(v))
    }

    /** The force on the carriage: the voltage term plus the back-EMF term.
        It is the motor torque kt·i taken through the gearbox and divided by
        the drum radius. */
    function Force(v: real, u: real): (f: real)
      requires Defined()
      ensures f * drumRadius == gearRatio * motor.TorqueConstant() * Current(v, u)
    {
      ForceIsGearedTorque(gearRatio, drumRadius, motor.TorqueConstant(), motor.Resistance(),
                          motor.AngularVelocityConstant(), v, u, MotorVelocity(v), Current(v, u));
      ForceOf(gearRatio, drumRadius, motor.TorqueConstant(), motor.Resistance(),
              motor.AngularVelocityConstant(), v, u)
    }

    /** Newton's second law for the carriage. */
    function Acceleration(v: real, u: real): (a: real)
      requires Defined()
      ensures a * mass == Force(v, u)
    {
      Force(v, u) / mass
    }

    /** The state-space coefficient of velocity in dv/dt. The back-EMF makes
        it a drag, negative for every physical elevator. */
    function VelocityCoefficient(): (c: real)
      requires Defined()
      ensures Physical() ==> c < 0.0
    {
      PhysicalCoefficients(this);
      VelocityCoefficientOf(gearRatio, drumRadius, mass, motor.TorqueConstant(), motor.Resistance(),
                            motor.AngularVelocityConstant())
    }

    /** The state-space coefficient of voltage in dv/dt, positive for every
        physical elevator. */
    function VoltageCoefficient(): (c: real)
      requires Defined()
      ensures Physical() ==> c > 0.0
    {
      PhysicalCoefficients(this);
      VoltageCoefficientOf(gearRatio, drumRadius, mass, motor.TorqueConstant(), motor.Resistance())
    }

    /** Ac = [[0, 1], [0, VelocityCoefficient]] for the state [position; velocity]. */
    function ContinuousSystemMatrix(): Mat2
      requires Defined()
    {
      Mat2(0.0, 1.0, 0.0, VelocityCoefficient())
    }

    /** Bc = [0; VoltageCoefficient] for the input [voltage]. */
    function ContinuousInputMatrix(): Vec2
      requires Defined()
    {
      Vec2(0.0, VoltageCoefficient())
    }

    /** The voltage whose acceleration cancels an acceleration a (gravity,
        say): VoltageCoefficient·u + a = 0. */
    function OpposingVoltage(a: real): (u: real)
      requires Defined() && VoltageCoefficient() != 0.0
      ensures VoltageCoefficient() * u + a == 0.0
    {
      -a / VoltageCoefficient()
    }

    /** The voltage that draws exactly maxCurrent at carriage speed v. */
    function CurrentLimitVoltage(v: real): (u: real)
      requires Defined()
      ensures Current(v, u) == maxCurrent
    {
      var u := maxCurrent * motor.Resistance() + MotorVelocity(v) / motor.AngularVelocityConstant();
      Cancel(Current(v, u), maxCurrent, motor.Resistance());
      u
    }

    /** The current limiter of common/src/Elevator.cc: clamp the request into
        [−nominal, nominal]; if that still draws more than maxCurrent, use the
        voltage that draws exactly maxCurrent at this speed instead. */
    function LimitVoltage(v: real, u: real): (r: real)
      requires Defined() && motor.nominalVoltage >= 0.0
      ensures Current(v, r) <= maxCurrent
      ensures Current(v, Clamp(u, -motor.nominalVoltage, motor.nominalVoltage)) <= maxCurrent
              ==> r == Clamp(u, -motor.nominalVoltage, motor.nominalVoltage)
      ensures Current(v, Clamp(u, -motor.nominalVoltage, motor.nominalVoltage)) > maxCurrent
              ==> Current(v, r) == maxCurrent
      ensures r == LimitVoltageUnsaturated(v, Clamp(u, -motor.nominalVoltage, motor.nominalVoltage))
    {
      var clamped := Clamp(u, -motor.nominalVoltage, motor.nominalVoltage);
      if Current(v, clamped) > maxCurrent then CurrentLimitVoltage(v) else clamped
    }

    /** The current limiter of src/Elevator.cc: no clamp to the nominal
        voltage, only the replacement of a voltage that draws more than
        maxCurrent by the one that draws exactly maxCurrent. */
    function LimitVoltageUnsaturated(v: real, u: real): (r: real)
      requires Defined()
      ensures Current(v, r) <= maxCurrent
      ensures Current(v, u) <= maxCurrent ==> r == u
      ensures Current(v, u) > maxCurrent ==> Current(v, r) == maxCurrent
    {
      if Current(v, u) > maxCurrent then CurrentLimitVoltage(v) else u
    }

    /** The acceleration at rest with the limited 12 V request
        (common/src/Elevator.cc). It is positive for a physical elevator. */
    function MaximumAcceleration(): (a: real)
      requires Defined() && motor.nominalVoltage >= 0.0
      ensures Physical() ==> a > 0.0
      ensures Physical()
              ==> a == VoltageCoefficient()
                       * Min(Min(MaximumAccelerationVoltage, motor.nominalVoltage), maxCurrent * motor.Resistance())
    {
      var limited := LimitVoltage(0.0, MaximumAccelerationVoltage);
      LimitedVoltageAtRestPositive(this, MaximumAccelerationVoltage);
      AccelerationIsLinear(this, 0.0, limited);
      PositiveProductWhen(Physical(), VoltageCoefficient(), limited);
      MaximumAccelerationClosedForm(this, Acceleration(0.0, limited), limited);
      Acceleration(0.0, limited)
    }

    /** The same quantity with the non-clamping limiter of src/Elevator.cc. */
    function MaximumAccelerationUnsaturated(): (a: real)
      requires Defined()
      ensures Physical() ==> a > 0.0
      ensures Physical()
              ==> a == VoltageCoefficient() * Min(MaximumAccelerationVoltage, maxCurrent * motor.Resistance())
    {
      var limited := LimitVoltageUnsaturated(0.0, MaximumAccelerationVoltage);
      UnsaturatedLimitedVoltageAtRestPositive(this, MaximumAccelerationVoltage);
      AccelerationIsLinear(this, 0.0, limited);
      PositiveProductWhen(Physical(), VoltageCoefficient(), limited);
      UnsaturatedMaximumAccelerationClosedForm(this, Acceleration(0.0, limited), limited);
      Acceleration(0.0, limited)
    }
  }

  /** G·kt·u/(R·r) − G²·kt·v/(R·r²·Kv): the force formula over plain reals. */
  function ForceOf(g: real, r: real, kt: real, res: real, kv: real, v: real, u: real): real
    requires r != 0.0 && res != 0.0 && kv != 0.0
  {
    (g * kt * u) / (res * r) + (-1.0 * (g * g * kt * v)) / (res * r * r * kv)
  }

  /** −G²·kt/(R·r²·m·Kv). */
  function VelocityCoefficientOf(g: real, r: real, m: real, kt: real, res: real, kv: real): real
    requires r != 0.0 && m != 0.0 && res != 0.0 && kv != 0.0
  {
    -1.0 * (g * g * kt) / (res * r * r * m * kv)
  }

  /** G·kt/(R·m·r). */
  function VoltageCoefficientOf(g: real, r: real, m: real, kt: real, res: real): real
    requires r != 0.0 && m != 0.0 && res != 0.0
  {
    (g * kt) / (res * m * r)
  }

  lemma PhysicalCoefficients(e: Elevator)
    requires e.Defined()
    ensures e.Physical() ==>
      VelocityCoefficientOf(e.gearRatio, e.drumRadius, e.mass, e.motor.TorqueConstant(),
                            e.motor.Resistance(), e.motor.AngularVelocityConstant()) < 0.0
    ensures e.Physical() ==>
      VoltageCoefficientOf(e.gearRatio, e.drumRadius, e.mass, e.motor.TorqueConstant(),
                           e.motor.Resistance()) > 0.0
  {
    if e.Physical() {
      PhysicalIsDefined(e.motor);
      CoefficientSigns(e.gearRatio, e.drumRadius, e.mass, e.motor.TorqueConstant(),
                       e.motor.Resistance(), e.motor.AngularVelocityConstant());
    }
  }

  lemma CoefficientSigns(g: real, r: real, m: real, kt: real, res: real, kv: real)
    requires g > 0.0 && r > 0.0 && m > 0.0 && kt > 0.0 && res > 0.0 && kv > 0.0
    ensures VelocityCoefficientOf(g, r, m, kt, res, kv) < 0.0
    ensures VoltageCoefficientOf(g, r, m, kt, res) > 0.0
  {
    ProductPositive(g, kt);
    ProductPositive(g, g * kt);
    assert g * (g * kt) == g * g * kt;
    ProductPositive(m, kv);
    ProductPositive(r, m * kv);
    ProductPositive(r, r * (m * kv));
    ProductPositive(res, r * (r * (m * kv)));
    assert res * (r * (r * (m * kv))) == res * r * r * m * kv;
    QuotientSign(-1.0 * (g * g * kt), res * r * r * m * kv);
    ProductPositive(m, r);
    ProductPositive(res, m * r);
    assert res * (m * r) == res * m * r;
    QuotientSign(g * kt, res * m * r);
  }

  lemma PositiveProductWhen(c: bool, a: real, b: real)
    ensures c && a > 0.0 && b > 0.0 ==> a * b > 0.0
  {
    if a > 0.0 && b > 0.0 {
      ProductPositive(a, b);
    }
  }

  lemma ForceIsGearedTorque(g: real, r: real, kt: real, res: real, kv: real, v: real, u: real,
                            w: real, i: real)
    requires r != 0.0 && res != 0.0 && kv != 0.0
    requires w == v * g / r && i == u / res - w / (kv * res)
    ensures ForceOf(g, r, kt, res, kv, v, u) * r == g * kt * i
  {
    var e := res * r * kv;
    var a := g * g * kt * v;
    DivCancelFactor(g * kt * u, res, r);
    ScaleQuotient(g * kt, u, res);
    assert (g * kt * u) / (res * r) * r == g * kt * (u / res);
    assert res * r * r * kv == e * r;
    DivCancelFactor(-1.0 * a, e, r);
    DivDiv(v * g, r, kv * res);
    assert r * (kv * res) == e;
    ScaleQuotient(g * kt, v * g, e);
    assert g * kt * (v * g) == a;
    assert (-1.0 * a) / e == -(a / e);
    assert (-1.0 * a) / (res * r * r * kv) * r == -(g * kt * ((v * g / r) / (kv * res)));
  }

  lemma DivCancelFactor(x: real, e: real, r: real)
    requires e != 0.0 && r != 0.0
    ensures x / (e * r) * r == x / e
  {
    var q := x / (e * r);
    assert q * (e * r) == x;
    assert (q * r) * e == x;
    assert (x / e) * e == x;
    Cancel(q * r, x / e, e);
  }

  lemma ScaleQuotient(a: real, x: real, b: real)
    requires b != 0.0
    ensures a * (x / b) == (a * x) / b
  {
    assert (x / b) * b == x;
    assert (a * (x / b)) * b == a * x;
    assert ((a * x) / b) * b == a * x;
    Cancel(a * (x / b), (a * x) / b, b);
  }

  /** The carriage dynamics are linear in the state and the input:
      dv/dt = VelocityCoefficient·v + VoltageCoefficient·u. */
  lemma {:induction false} AccelerationIsLinear(e: Elevator, v: real, u: real)
    requires e.Defined()
    ensures e.Acceleration(v, u) == e.VelocityCoefficient() * v + e.VoltageCoefficient() * u
  {
    LinearForce(e.gearRatio, e.drumRadius, e.mass, e.motor.TorqueConstant(), e.motor.Resistance(),
                e.motor.AngularVelocityConstant(), v, u);
  }

  lemma LinearForce(g: real, r: real, m: real, kt: real, res: real, kv: real, v: real, u: real)
    requires r != 0.0 && m != 0.0 && res != 0.0 && kv != 0.0
    ensures ForceOf(g, r, kt, res, kv, v, u) / m
            == VelocityCoefficientOf(g, r, m, kt, res, kv) * v + VoltageCoefficientOf(g, r, m, kt, res) * u
  {
    VoltageTerm(g, r, m, kt, res, u);
    BackEmfTerm(g, r, m, kt, res, kv, v);
  }

  lemma VoltageTerm(g: real, r: real, m: real, kt: real, res: real, u: real)
    requires r != 0.0 && m != 0.0 && res != 0.0
    ensures (g * kt * u) / (res * r) / m == VoltageCoefficientOf(g, r, m, kt, res) * u
  {
    ProductNonZero(res, r);
    ProductNonZero(m, r);
    ProductNonZero(res, m * r);
    DivDiv(g * kt * u, res * r, m);
    assert res * r * m == res * m * r;
    MulDiv(g * kt, u, res * m * r);
  }

  lemma BackEmfTerm(g: real, r: real, m: real, kt: real, res: real, kv: real, v: real)
    requires r != 0.0 && m != 0.0 && res != 0.0 && kv != 0.0
    ensures (-1.0 * (g * g * kt * v)) / (res * r * r * kv) / m
            == VelocityCoefficientOf(g, r, m, kt, res, kv) * v
  {
    ProductNonZero(r, kv);
    ProductNonZero(r, r * kv);
    ProductNonZero(res, r * (r * kv));
    assert res * (r * (r * kv)) == res * r * r * kv;
    assert res * r * r * m * kv == (res * r * r * kv) * m;
    ScaledQuotient(g * g * kt, v, res * r * r * kv, m, res * r * r * m * kv);
  }

  /** At rest the current is u/R, so a positive request stays positive
      through either limiter. */
  lemma LimitedVoltageAtRestPositive(e: Elevator, u: real)
    requires e.Defined() && e.motor.nominalVoltage >= 0.0
    ensures e.Physical() && u > 0.0 ==> e.LimitVoltage(0.0, u) > 0.0
  {
    UnsaturatedLimitedVoltageAtRestPositive(e, Clamp(u, -e.motor.nominalVoltage, e.motor.nominalVoltage));
  }

  lemma UnsaturatedLimitedVoltageAtRestPositive(e: Elevator, u: real)
    requires e.Defined()
    ensures e.Physical() && u > 0.0 ==> e.LimitVoltageUnsaturated(0.0, u) > 0.0
  {
    if e.Physical() && u > 0.0 {
      PhysicalIsDefined(e.motor);
      var res := e.motor.Resistance();
      assert e.MotorVelocity(0.0) == 0.0;
      ProductPositive(e.maxCurrent, res);
      assert e.CurrentLimitVoltage(0.0) == e.maxCurrent * res;
    }
  }

  /** The acceleration is the velocity row of the continuous state-space
      model: for any position p, Ac·[p; v] + Bc·u == [v; Acceleration(v, u)]. */
  lemma {:induction false} AccelerationIsStateSpaceRow(e: Elevator, p: real, v: real, u: real)
    requires e.Defined()
    ensures e.ContinuousSystemMatrix().Apply(Vec2(p, v)).Plus(e.ContinuousInputMatrix().Times(u))
            == Vec2(v, e.Acceleration(v, u))
  {
    AccelerationIsLinear(e, v, u);
  }

  /** Holding the carriage against an acceleration a: at rest, the opposing
      voltage produces exactly −a. */
  lemma {:induction false} OpposingVoltageCancelsAtRest(e: Elevator, a: real)
    requires e.Defined() && e.VoltageCoefficient() != 0.0
    ensures e.Acceleration(0.0, e.OpposingVoltage(a)) + a == 0.0
  {
    AccelerationIsLinear(e, 0.0, e.OpposingVoltage(a));
  }

  /** The current drawn grows with the voltage at a fixed speed:
      (Current(v, u1) − Current(v, u2))·R == u1 − u2. */
  lemma {:induction false} CurrentDifference(e: Elevator, v: real, u1: real, u2: real)
    requires e.Defined()
    ensures (e.Current(v, u1) - e.Current(v, u2)) * e.motor.Resistance() == u1 - u2
  {
    var res := e.motor.Resistance();
    assert e.Current(v, u1) * res - e.Current(v, u2) * res == u1 - u2;
  }

  /** When the limiter steps in it lowers the voltage: with a positive
      resistance the replacement is strictly below the clamped request. */
  lemma {:induction false} LimiterLowersVoltage(e: Elevator, v: real, u: real)
    requires e.Defined() && e.motor.nominalVoltage >= 0.0 && e.motor.Resistance() > 0.0
    ensures e.LimitVoltage(v, u) <= Clamp(u, -e.motor.nominalVoltage, e.motor.nominalVoltage)
    ensures e.Current(v, Clamp(u, -e.motor.nominalVoltage, e.motor.nominalVoltage)) > e.maxCurrent
            ==> e.LimitVoltage(v, u) < Clamp(u, -e.motor.nominalVoltage, e.motor.nominalVoltage)
  {
    var c := Clamp(u, -e.motor.nominalVoltage, e.motor.nominalVoltage);
    var r := e.LimitVoltage(v, u);
    CurrentDifference(e, v, c, r);
    if e.Current(v, c) > e.maxCurrent {
      ProductPositive(e.Current(v, c) - e.Current(v, r), e.motor.Resistance());
    }
  }

  /** The limiter bounds only the current drawn, not the current returned: at
      rest a full reverse request passes unchanged and draws the full stall
      current backwards, whatever maxCurrent is. */
  lemma {:induction false} ReverseCurrentUnbounded(e: Elevator)
    requires e.Physical()
    ensures e.Defined()
    ensures e.LimitVoltage(0.0, -e.motor.nominalVoltage) == -e.motor.nominalVoltage
    ensures e.Current(0.0, e.LimitVoltage(0.0, -e.motor.nominalVoltage)) == -e.motor.stallCurrent
  {
    PhysicalIsDefined(e.motor);
    var m := e.motor;
    assert e.MotorVelocity(0.0) == 0.0;
    var i := e.Current(0.0, -m.nominalVoltage);
    assert i * m.Resistance() == -m.nominalVoltage;
    assert -m.stallCurrent * m.Resistance() == -m.nominalVoltage;
    Cancel(i, -m.stallCurrent, m.Resistance());
  }

  /** At rest the non-clamping limiter returns the smaller of the request and
      the voltage maxCurrent·R that draws maxCurrent. */
  lemma {:induction false} UnsaturatedLimitAtRest(e: Elevator, c: real)
    requires e.Physical()
    ensures e.Defined() && e.motor.Resistance() > 0.0
    ensures e.LimitVoltageUnsaturated(0.0, c) == Min(c, e.maxCurrent * e.motor.Resistance())
  {
    PhysicalIsDefined(e.motor);
    var res := e.motor.Resistance();
    assert e.MotorVelocity(0.0) == 0.0;
    assert e.CurrentLimitVoltage(0.0) == e.maxCurrent * res;
    CurrentDifference(e, 0.0, c, e.maxCurrent * res);
    var d := e.Current(0.0, c) - e.maxCurrent;
    assert d * res == c - e.maxCurrent * res;
    if d > 0.0 {
      ProductPositive(d, res);
    } else if d < 0.0 {
      ProductPositive(-d, res);
    }
  }

  /** At rest the limited voltage is the smaller of the clamped request and
      the voltage maxCurrent·R that draws maxCurrent. */
  lemma {:induction false} LimitAtRest(e: Elevator, u: real)
    requires e.Physical()
    ensures e.Defined() && e.motor.Resistance() > 0.0
    ensures e.LimitVoltage(0.0, u)
            == Min(Clamp(u, -e.motor.nominalVoltage, e.motor.nominalVoltage), e.maxCurrent * e.motor.Resistance())
  {
    PhysicalIsDefined(e.motor);
    UnsaturatedLimitAtRest(e, Clamp(u, -e.motor.nominalVoltage, e.motor.nominalVoltage));
  }

  /** MaximumAcceleration in closed form: the voltage coefficient times the
      smaller of the 12 V request (clamped to the nominal voltage) and the
      current-limited voltage maxCurrent·R. */
  lemma {:induction false} MaximumAccelerationClosedForm(e: Elevator, a: real, limited: real)
    requires e.Defined() && e.motor.nominalVoltage >= 0.0
    requires limited == e.LimitVoltage(0.0, MaximumAccelerationVoltage)
    requires a == e.VelocityCoefficient() * 0.0 + e.VoltageCoefficient() * limited
    ensures e.Physical()
            ==> a == e.VoltageCoefficient()
                     * Min(Min(MaximumAccelerationVoltage, e.motor.nominalVoltage), e.maxCurrent * e.motor.Resistance())
  {
    if e.Physical() {
      var n := e.motor.nominalVoltage;
      LimitAtRest(e, MaximumAccelerationVoltage);
      assert Clamp(MaximumAccelerationVoltage, -n, n) == Min(MaximumAccelerationVoltage, n);
    }
  }

  /** MaximumAccelerationUnsaturated in closed form: the voltage coefficient
      times the smaller of the unclamped 12 V request and maxCurrent·R. */
  lemma {:induction false} UnsaturatedMaximumAccelerationClosedForm(e: Elevator, a: real, limited: real)
    requires e.Defined()
    requires limited == e.LimitVoltageUnsaturated(0.0, MaximumAccelerationVoltage)
    requires a == e.VelocityCoefficient() * 0.0 + e.VoltageCoefficient() * limited
    ensures e.Physical()
            ==> a == e.VoltageCoefficient() * Min(MaximumAccelerationVoltage, e.maxCurrent * e.motor.Resistance())
  {
    if e.Physical() {
      UnsaturatedLimitAtRest(e, MaximumAccelerationVoltage);
    }
  }

  /** The two generations agree on the maximum acceleration exactly when the
      clamp leaves the 12 V request alone, that is for a nominal voltage of
      at least 12 V. */
  lemma {:induction false} MaximumAccelerationGenerationsAgree(e: Elevator)
    requires e.Defined() && e.motor.nominalVoltage >= MaximumAccelerationVoltage
    ensures e.MaximumAcceleration() == e.MaximumAccelerationUnsaturated()
  {
    assert Clamp(MaximumAccelerationVoltage, -e.motor.nominalVoltage, e.motor.nominalVoltage)
           == MaximumAccelerationVoltage;
  }
}
