/** A rotary arm driven through a gearbox (common/src/Arm.cc, with the fields
    of common/include/Arm.hh): the rotational counterpart of the elevator,
    with a moment of inertia J in place of mass and no drum. */
module Arms {

  import opened Numeric
  import opened Motors

  datatype Arm = Arm(gearRatio: real, length: real, momentOfInertia: real,
                     maxCurrent: real, motor: Motor)
  {
    predicate Defined()
    {
      motor.Defined() && momentOfInertia != 0.0
    }

    predicate Physical()
    {
      motor.Physical() && gearRatio > 0.0 && length > 0.0 && momentOfInertia > 0.0 && maxCurrent > 0.0
    }

    /** The motor shaft speed for an arm speed ω: the motor turns G times as fast. */
    function MotorVelocity(w: real): (m: real)
      ensures m == w * gearRatio
      ensures gearRatio != 0.0 ==> (m == 0.0 <==> w == 0.0)
    {
      ProductZero(w, gearRatio);
      w * gearRatio
    }

    /** The torque on the arm: the voltage term G·kt·u/R plus the back-EMF
        term −G²·kt·ω/(R·Kv). It is the motor torque kt·i taken through the
        gearbox, where i is the current the motor draws at this voltage and
        speed. */
    function Torque(w: real, u: real): (t: real)
      requires Defined()
      ensures t == gearRatio * motor.TorqueConstant() * motor.Current(u, MotorVelocity(w))
    {
      TorqueIsGearedMotorTorque(gearRatio, motor.TorqueConstant(), motor.Resistance(),
                                motor.AngularVelocityConstant(), w, u, MotorVelocity(w),
                                motor.Current(u, MotorVelocity(w)));
      TorqueOf(gearRatio, motor.TorqueConstant(), motor.Resistance(), motor.AngularVelocityConstant(), w, u)
    }

    /** Newton's second law for rotation. */
    function Acceleration(w: real, u: real): (a: real)
      requires Defined()
      ensures a * momentOfInertia == Torque(w, u)
    {
      Torque(w, u) / momentOfInertia
    }

    /** −G²·kt/(Kv·R·J): the back-EMF drag, negative for a physical arm. */
    function VelocityCoefficient(): (c: real)
      requires Defined()
      ensures Physical() ==> c < 0.0
    {
      ArmCoefficientSigns(this);
      RotaryVelocityCoefficientOf(gearRatio, motor.TorqueConstant(), motor.Resistance(),
                                  motor.AngularVelocityConstant(), momentOfInertia)
    }

    /** G·kt/(R·J), positive for a physical arm. */
    function VoltageCoefficient(): (c: real)
      requires Defined()
      ensures Physical() ==> c > 0.0
    {
      ArmCoefficientSigns(this);
      RotaryVoltageCoefficientOf(gearRatio, motor.TorqueConstant(), motor.Resistance(), momentOfInertia)
    }
  }

  /** G·kt·u/R − G²·kt·ω/(R·Kv) over plain reals. */
  function TorqueOf(g: real, kt: real, res: real, kv: real, w: real, u: real): real
    requires res != 0.0 && kv != 0.0
  {
    (g * kt * u) / res + (-1.0 * (g * g * kt * w)) / (res * kv)
  }

  /** −G²·kt/(Kv·R·J). */
  function RotaryVelocityCoefficientOf(g: real, kt: real, res: real, kv: real, j: real): real
    requires res != 0.0 && kv != 0.0 && j != 0.0
  {
    -1.0 * (g * g * kt) / (kv * res * j)
  }

  /** G·kt/(R·J). */
  function RotaryVoltageCoefficientOf(g: real, kt: real, res: real, j: real): real
    requires res != 0.0 && j != 0.0
  {
    (g * kt) / (res * j)
  }

  lemma ProductZero(a: real, b: real)
    ensures b != 0.0 ==> (a * b == 0.0 <==> a == 0.0)
  {
    if b != 0.0 && a * b == 0.0 {
      assert a == a * b / b;
    }
  }

  lemma TorqueIsGearedMotorTorque(g: real, kt: real, res: real, kv: real, w: real, u: real,
                                  m: real, i: real)
    requires res != 0.0 && kv != 0.0
    requires m == w * g && i == u / res - m / (kv * res)
    ensures TorqueOf(g, kt, res, kv, w, u) == g * kt * i
  {
    assert (g * kt * u) / res == g * kt * (u / res);
    assert (-1.0 * (g * g * kt * w)) / (res * kv) == -(g * kt * ((w * g) / (kv * res)));
  }

  lemma ArmCoefficientSigns(a: Arm)
    requires a.Defined()
    ensures a.Physical() ==>
      RotaryVelocityCoefficientOf(a.gearRatio, a.motor.TorqueConstant(), a.motor.Resistance(),
                                  a.motor.AngularVelocityConstant(), a.momentOfInertia) < 0.0
    ensures a.Physical() ==>
      RotaryVoltageCoefficientOf(a.gearRatio, a.motor.TorqueConstant(), a.motor.Resistance(),
                                 a.momentOfInertia) > 0.0
  {
    if a.Physical() {
      PhysicalIsDefined(a.motor);
      RotarySigns(a.gearRatio, a.motor.TorqueConstant(), a.motor.Resistance(),
                  a.motor.AngularVelocityConstant(), a.momentOfInertia);
    }
  }

  lemma RotarySigns(g: real, kt: real, res: real, kv: real, j: real)
    requires g > 0.0 && kt > 0.0 && res > 0.0 && kv > 0.0 && j > 0.0
    ensures RotaryVelocityCoefficientOf(g, kt, res, kv, j) < 0.0
    ensures RotaryVoltageCoefficientOf(g, kt, res, j) > 0.0
  {
    ProductPositive(g, kt);
    ProductPositive(g, g * kt);
    assert g * (g * kt) == g * g * kt;
    ProductPositive(kv, res);
    ProductPositive(kv * res, j);
    QuotientSign(-1.0 * (g * g * kt), kv * res * j);
    ProductPositive(res, j);
    QuotientSign(g * kt, res * j);
  }

  /** The arm dynamics are linear in the state and the input:
      dω/dt = VelocityCoefficient·ω + VoltageCoefficient·u. */
  lemma {:induction false} ArmAccelerationIsLinear(a: Arm, w: real, u: real)
    requires a.Defined()
    ensures a.Acceleration(w, u) == a.VelocityCoefficient() * w + a.VoltageCoefficient() * u
  {
    RotaryLinear(a.gearRatio, a.motor.TorqueConstant(), a.motor.Resistance(),
                 a.motor.AngularVelocityConstant(), a.momentOfInertia, w, u);
  }

  lemma RotaryLinear(g: real, kt: real, res: real, kv: real, j: real, w: real, u: real)
    requires res != 0.0 && kv != 0.0 && j != 0.0
    ensures TorqueOf(g, kt, res, kv, w, u) / j
            == RotaryVelocityCoefficientOf(g, kt, res, kv, j) * w + RotaryVoltageCoefficientOf(g, kt, res, j) * u
  {
    RotaryVoltageTerm(g, kt, res, j, u);
    RotaryBackEmfTerm(g, kt, res, kv, j, w);
  }

  lemma RotaryVoltageTerm(g: real, kt: real, res: real, j: real, u: real)
    requires res != 0.0 && j != 0.0
    ensures (g * kt * u) / res / j == (g * kt) / (res * j) * u
  {
    ProductNonZero(res, j);
    DivDiv(g * kt * u, res, j);
    MulDiv(g * kt, u, res * j);
  }

  lemma RotaryBackEmfTerm(g: real, kt: real, res: real, kv: real, j: real, w: real)
    requires res != 0.0 && kv != 0.0 && j != 0.0
    ensures (-1.0 * (g * g * kt * w)) / (res * kv) / j == (-1.0 * (g * g * kt)) / (kv * res * j) * w
  {
    ProductNonZero(res, kv);
    assert kv * res * j == (res * kv) * j;
    ScaledQuotient(g * g * kt, w, res * kv, j, kv * res * j);
  }

  /** With no voltage and no motion there is no torque. */
  lemma {:induction false} TorqueAtRestWithoutVoltage(a: Arm)
    requires a.Defined()
    ensures a.Torque(0.0, 0.0) == 0.0
    ensures a.Acceleration(0.0, 0.0) == 0.0
  {
    assert a.MotorVelocity(0.0) == 0.0;
    assert a.motor.Current(0.0, 0.0) == 0.0;
  }
}
