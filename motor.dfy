/** A brushless DC motor described by its datasheet point (common/include/Motor.hh,
    src/Motor.hh): nominal voltage, stall torque, stall current, free speed and
    free current, from which the torque constant kt, the winding resistance R
    and the angular-velocity constant Kv follow. Quantities are SI reals;
    speeds are in rad/s. */
module Motors {

  import opened Numeric

  /** The double nearest to π, used to turn revolutions into radians. */
  const Pi: real := 3.141592653589793

  /** (revolutions / minute)(rpm) expressed in rad/s. */
  function RpmToRadiansPerSecond(rpm: real): (w: real)
    ensures w * 60.0 == rpm * (2.0 * Pi)
    ensures rpm > 0.0 ==> w > 0.0
  {
    rpm * (2.0 * Pi) / 60.0
  }

  datatype Motor = Motor(nominalVoltage: real, stallTorque: real, stallCurrent: real,
                         freeSpeed: real, freeCurrent: real)
  {
    /** kt: the torque produced per ampere, from the stall point. */
    function TorqueConstant(): (kt: real)
      requires stallCurrent != 0.0
      ensures kt * stallCurrent == stallTorque
    {
      stallTorque / stallCurrent
    }

    /** R: at stall there is no back-EMF, so the nominal voltage drives the
        stall current through the winding resistance alone. */
    function Resistance(): (r: real)
      requires stallCurrent != 0.0
      ensures r * stallCurrent == nominalVoltage
      ensures r != 0.0 <==> nominalVoltage != 0.0
    {
      nominalVoltage / stallCurrent
    }

    /** The back-EMF at free speed: the nominal voltage less the resistive drop
        of the free current. */
    function FreeBackEmf(): real
      requires stallCurrent != 0.0
    {
      nominalVoltage - freeCurrent * Resistance()
    }

    /** Kv: free speed per volt of back-EMF. The source divides by the
        free-speed back-EMF without checking it. */
    function AngularVelocityConstant(): (kv: real)
      requires stallCurrent != 0.0 && FreeBackEmf() != 0.0
      ensures kv * FreeBackEmf() == freeSpeed
      ensures freeSpeed != 0.0 <==> kv != 0.0
    {
      freeSpeed / FreeBackEmf()
    }

    /** Every division that the derived constants and the mechanism formulas
        perform (by Is, by the free back-EMF, by R and by Kv) is defined. */
    predicate Defined()
    {
      stallCurrent != 0.0 && FreeBackEmf() != 0.0 && nominalVoltage != 0.0 && freeSpeed != 0.0
    }

    /** The current drawn at supply voltage u while the shaft turns at w:
        the voltage is split between the resistive drop i·R and the
        back-EMF w/Kv. */
    function Current(u: real, w: real): (i: real)
      requires Defined()
      ensures i * Resistance() + w / AngularVelocityConstant() == u
    {
      CurrentSplitsVoltage(u, w, Resistance(), AngularVelocityConstant());
      u / Resistance() - w / (AngularVelocityConstant() * Resistance())
    }

    /** A datasheet a real motor has: positive ratings and a free current
        below the stall current. */
    predicate Physical()
    {
      nominalVoltage > 0.0 && stallTorque > 0.0 && stallCurrent > 0.0 && freeSpeed > 0.0
      && 0.0 <= freeCurrent < stallCurrent
    }

    /** operator*: n identical motors ganged on one shaft. Torque and currents
        add up; voltage and free speed are those of one motor. */
    function Times(n: nat): (m: Motor)
      ensures m.nominalVoltage == nominalVoltage && m.freeSpeed == freeSpeed
      ensures m.stallTorque == stallTorque * (n as real)
      ensures m.stallCurrent == stallCurrent * (n as real)
      ensures m.freeCurrent == freeCurrent * (n as real)
      ensures n >= 1 ==> (m.Physical() <==> Physical())
    {
      ScaledPhysical(this, n);
      ScaledRatings(this, n as real)
    }
  }

  lemma CurrentSplitsVoltage(u: real, w: real, res: real, kv: real)
    requires res != 0.0 && kv != 0.0
    ensures (u / res - w / (kv * res)) * res + w / kv == u
  {
    assert (u / res) * res == u;
    assert (w / (kv * res)) * res == w / kv;
  }

  /** The datasheet of k motors on one shaft. */
  function ScaledRatings(m: Motor, k: real): Motor
  {
    Motor(m.nominalVoltage, m.stallTorque * k, m.stallCurrent * k, m.freeSpeed, m.freeCurrent * k)
  }

  lemma ScaledPhysical(m: Motor, n: nat)
    ensures n >= 1 ==> (ScaledRatings(m, n as real).Physical() <==> m.Physical())
  {
    if n >= 1 {
      var k := n as real;
      assert k > 0.0;
      assert m.stallTorque * k > 0.0 <==> m.stallTorque > 0.0;
      assert m.stallCurrent * k > 0.0 <==> m.stallCurrent > 0.0;
      assert 0.0 <= m.freeCurrent * k <==> 0.0 <= m.freeCurrent;
      assert m.stallCurrent * k - m.freeCurrent * k == (m.stallCurrent - m.freeCurrent) * k;
      assert m.freeCurrent * k < m.stallCurrent * k <==> m.freeCurrent < m.stallCurrent;
    }
  }

  /** A physical motor has every derived constant defined and positive. */
  lemma {:induction false} PhysicalIsDefined(m: Motor)
    requires m.Physical()
    ensures m.Defined()
    ensures m.TorqueConstant() > 0.0 && m.Resistance() > 0.0
    ensures m.FreeBackEmf() > 0.0 && m.AngularVelocityConstant() > 0.0
  {
    var r := m.Resistance();
    assert r > 0.0;
    assert m.freeCurrent * r < m.stallCurrent * r;
    assert m.FreeBackEmf() > 0.0;
    assert m.TorqueConstant() > 0.0;
  }

  /** Ganging n >= 1 motors keeps kt and the free back-EMF (the free current's
      resistive drop If·R is unchanged because If grows and R shrinks by the
      same factor), divides R by n, and therefore keeps Kv. */
  lemma {:induction false} ScaledConstants(m: Motor, n: nat)
    requires m.stallCurrent != 0.0 && n >= 1
    ensures m.Times(n).stallCurrent != 0.0
    ensures m.Times(n).TorqueConstant() == m.TorqueConstant()
    ensures m.Times(n).Resistance() * (n as real) == m.Resistance()
    ensures m.Times(n).FreeBackEmf() == m.FreeBackEmf()
    ensures m.Times(n).Defined() <==> m.Defined()
    ensures m.FreeBackEmf() != 0.0 ==>
      m.Times(n).AngularVelocityConstant() == m.AngularVelocityConstant()
  {
    var k := n as real;
    var s := m.Times(n);
    assert k > 0.0;
    assert s.stallCurrent == m.stallCurrent * k;
    assert s.stallCurrent != 0.0;
    calc {
      s.TorqueConstant() * (m.stallCurrent * k);
      m.stallTorque * k;
      (m.TorqueConstant() * m.stallCurrent) * k;
      m.TorqueConstant() * (m.stallCurrent * k);
    }
    Cancel(s.TorqueConstant(), m.TorqueConstant(), m.stallCurrent * k);
    calc {
      (s.Resistance() * k) * m.stallCurrent;
      s.Resistance() * (m.stallCurrent * k);
      m.nominalVoltage;
      m.Resistance() * m.stallCurrent;
    }
    Cancel(s.Resistance() * k, m.Resistance(), m.stallCurrent);
    calc {
      s.freeCurrent * s.Resistance();
      (m.freeCurrent * k) * s.Resistance();
      m.freeCurrent * (s.Resistance() * k);
      m.freeCurrent * m.Resistance();
    }
    assert s.FreeBackEmf() == m.FreeBackEmf();
  }

  /** Kraken X60: 12 V, 7.09 N·m, 366 A, 6000 rpm, 2 A. */
  function KrakenX60(): (m: Motor)
    ensures m.Physical()
    ensures m.nominalVoltage == 12.0 && m.stallCurrent == 366.0
  {
    Motor(12.0, 7.09, 366.0, RpmToRadiansPerSecond(6000.0), 2.0)
  }

  /** Kraken X60 with field-oriented control: 12 V, 9.37 N·m, 483 A, 5800 rpm, 2 A. */
  function KrakenX60FOC(): (m: Motor)
    ensures m.Physical()
    ensures m.nominalVoltage == 12.0 && m.stallCurrent == 483.0
  {
    Motor(12.0, 9.37, 483.0, RpmToRadiansPerSecond(5800.0), 2.0)
  }

  /** The datasheet figures of both factories, and what they give once the
      derived constants are worked out: a Kraken X60 has 12/366 Ω and
      kt = 7.09/366 N·m/A; the FOC variant has 12/483 Ω and kt = 9.37/483. */
  lemma KrakenConstants()
    ensures KrakenX60().stallTorque == 7.09 && KrakenX60().freeCurrent == 2.0
    ensures KrakenX60().freeSpeed == 200.0 * Pi
    ensures KrakenX60().Resistance() == 12.0 / 366.0
    ensures KrakenX60().TorqueConstant() == 7.09 / 366.0
    ensures KrakenX60FOC().stallTorque == 9.37 && KrakenX60FOC().freeCurrent == 2.0
    ensures KrakenX60FOC().freeSpeed * 3.0 == 580.0 * Pi
    ensures KrakenX60FOC().Resistance() == 12.0 / 483.0
    ensures KrakenX60FOC().TorqueConstant() == 9.37 / 483.0
  {
  }
}
