/** The state and input value types that every simulator generation shares:
    a (position, velocity) state vector and a one-element voltage input
    vector (common/include/state.hh, common/include/input.hh, the nested
    State and Input of common/include/AffineSystemSim.hh and
    common/include/Elevator.hh, and ElevatorState / ElevatorInput of
    src/Elevator.hh). The C++ structs are copied by value, so their setters
    are modelled as functions that return the updated value; the caller
    reassigns its variable. Position is in m, velocity in m/s, voltage in V. */
module States {

  import opened Numeric
  import opened Matrices

  /** 1 cm and 1 cm/s: how close two states must be to count as "at" each other. */
  const PositionTolerance: real := 0.01
  const VelocityTolerance: real := 0.01

  /** A position bound that may be infinite: as a lower bound Unbounded is −∞,
      as an upper bound it is +∞. */
  datatype Bound = Unbounded | Finite(value: real)

  /** p > max, which never holds for max = +∞. */
  predicate Exceeds(p: real, max: Bound)
  {
    max.Finite? && p > max.value
  }

  /** p < min, which never holds for min = −∞. */
  predicate FallsShort(p: real, min: Bound)
  {
    min.Finite? && p < min.value
  }

  /** min ≤ max, where an infinite bound is comparable with everything. */
  predicate Ordered(min: Bound, max: Bound)
  {
    min.Finite? && max.Finite? ==> min.value <= max.value
  }

  /** min ≤ p ≤ max. */
  predicate Within(p: real, min: Bound, max: Bound)
  {
    !Exceeds(p, max) && !FallsShort(p, min)
  }

  datatype State = State(vector: Vec2)
  {
    function Position(): real { vector.x0 }
    function Velocity(): real { vector.x1 }

    /** SetPosition: only the position component changes. */
    function SetPosition(p: real): (s: State)
      ensures s.Position() == p && s.Velocity() == Velocity()
    {
      State(Vec2(p, vector.x1))
    }

    /** SetVelocity: only the velocity component changes. */
    function SetVelocity(v: real): (s: State)
      ensures s.Velocity() == v && s.Position() == Position()
    {
      State(Vec2(vector.x0, v))
    }

    /** operator-: the componentwise difference of the state vectors. */
    function Minus(o: State): (d: State)
      ensures d.Position() == Position() - o.Position()
      ensures d.Velocity() == Velocity() - o.Velocity()
    {
      State(vector.Minus(o.vector))
    }

    /** Negation of the whole vector, as the trajectory's direction flip does. */
    function Negated(): (n: State)
      ensures n.Position() == -Position() && n.Velocity() == -Velocity()
    {
      State(vector.Negated())
    }

    /** ClampPosition / PositionClamped / Clamped: a position above max is
        replaced by max, else a position below min by min; velocity is kept. */
    function ClampPosition(min: Bound, max: Bound): (s: State)
      ensures s.Velocity() == Velocity()
      ensures Exceeds(Position(), max) ==> s.Position() == max.value
      ensures !Exceeds(Position(), max) && FallsShort(Position(), min) ==> s.Position() == min.value
      ensures Within(Position(), min, max) ==> s == this
      ensures Ordered(min, max) ==> Within(s.Position(), min, max)
    {
      if Exceeds(Position(), max) then NewState(max.value, Velocity())
      else if FallsShort(Position(), min) then NewState(min.value, Velocity())
      else this
    }

    /** The finite-bound form of the clamp used by the elevator simulator. */
    function Clamped(min: real, max: real): (s: State)
      ensures s.Velocity() == Velocity()
      ensures Position() > max ==> s.Position() == max
      ensures Position() <= max && Position() < min ==> s.Position() == min
      ensures min <= max ==> min <= s.Position() <= max
      ensures min <= Position() <= max ==> s == this
    {
      ClampPosition(Finite(min), Finite(max))
    }

    /** At: both differences strictly inside their tolerances. */
    predicate At(o: State)
    {
      Abs(Position() - o.Position()) < PositionTolerance
      && Abs(Velocity() - o.Velocity()) < VelocityTolerance
    }
  }

  /** The (position, velocity) constructor. */
  function NewState(position: real, velocity: real): (s: State)
    ensures s.Position() == position && s.Velocity() == velocity
  {
    State(Vec2(position, velocity))
  }

  /** Building a state from its two readings gives back the same state. */
  lemma {:induction false} StateRoundTrip(s: State)
    ensures NewState(s.Position(), s.Velocity()) == s
  {
  }

  /** Clamping twice is clamping once. */
  lemma {:induction false} ClampPositionIdempotent(s: State, min: Bound, max: Bound)
    requires Ordered(min, max)
    ensures s.ClampPosition(min, max).ClampPosition(min, max) == s.ClampPosition(min, max)
  {
    var c := s.ClampPosition(min, max);
    assert Within(c.Position(), min, max);
  }

  lemma {:induction false} ClampedIdempotent(s: State, min: real, max: real)
    requires min <= max
    ensures s.Clamped(min, max).Clamped(min, max) == s.Clamped(min, max)
  {
    ClampPositionIdempotent(s, Finite(min), Finite(max));
  }

  /** With both bounds infinite the clamp changes nothing. */
  lemma {:induction false} UnboundedClampIsIdentity(s: State)
    ensures s.ClampPosition(Unbounded, Unbounded) == s
  {
    assert Within(s.Position(), Unbounded, Unbounded);
  }

  /** At compares the componentwise difference with the tolerances. */
  lemma {:induction false} AtIsSmallDifference(s: State, o: State)
    ensures s.At(o) <==> Abs(s.Minus(o).Position()) < PositionTolerance
                         && Abs(s.Minus(o).Velocity()) < VelocityTolerance
  {
  }

  lemma {:induction false} AtReflexive(s: State)
    ensures s.At(s)
  {
    assert Abs(s.Position() - s.Position()) == 0.0;
    assert Abs(s.Velocity() - s.Velocity()) == 0.0;
  }

  lemma {:induction false} AtSymmetric(s: State, o: State)
    ensures s.At(o) <==> o.At(s)
  {
    assert Abs(s.Position() - o.Position()) == Abs(o.Position() - s.Position());
    assert Abs(s.Velocity() - o.Velocity()) == Abs(o.Velocity() - s.Velocity());
  }

  /** Both tolerances are strict: a difference of exactly 1 cm is not "at". */
  lemma {:induction false} AtToleranceIsStrict(s: State)
    ensures !s.At(NewState(s.Position() + PositionTolerance, s.Velocity()))
    ensures !s.At(NewState(s.Position(), s.Velocity() + VelocityTolerance))
  {
    assert Abs(s.Position() - (s.Position() + PositionTolerance)) == PositionTolerance;
    assert Abs(s.Velocity() - (s.Velocity() + VelocityTolerance)) == VelocityTolerance;
  }

  /** The one-element voltage input vector. */
  datatype Input = Input(voltage: real)
  {
    /** operator+=: the voltages add. */
    function Plus(o: Input): (s: Input)
      ensures s.voltage == voltage + o.voltage
    {
      Input(voltage + o.voltage)
    }

    /** Saturated: the voltage clamped into [−nominal, nominal]. */
    function Saturated(nominal: real): (s: Input)
      requires nominal >= 0.0
      ensures -nominal <= s.voltage <= nominal
      ensures -nominal <= voltage <= nominal ==> s == this
      ensures voltage > nominal ==> s.voltage == nominal
      ensures voltage < -nominal ==> s.voltage == -nominal
    {
      Input(Clamp(voltage, -nominal, nominal))
    }
  }

  lemma {:induction false} SaturatedIdempotent(u: Input, nominal: real)
    requires nominal >= 0.0
    ensures u.Saturated(nominal).Saturated(nominal) == u.Saturated(nominal)
  {
  }
}
