/** sim::ElevatorSim: the elevator simulator declared in
    common/include/Elevator.hh and implemented in src/Elevator.cc, together
    with the accessor-style interface of src/Elevator.hh (Position,
    SetPosition, Saturate, CurrentLimit, Update with a voltage). Gravity is
    carried through the pseudoinverse of the input column, and every step
    clamps the carriage into [0, maxTravel]. The matrix exponential is passed
    to the constructor. */
module ElevatorSimulation {

  import opened Numeric
  import opened Matrices
  import opened States
  import opened Elevators

  class ElevatorSim {
    var state: State
    var input: Input

    const elevator: Elevator
    const continuousSystem: Mat2
    const continuousInput: Vec2
    const continuousInputPseudoinverse: Row2
    const discreteSystem: Mat2
    const discreteInput: Vec2
    const continuousGravity: Vec2
    const discreteGravity: Vec2
    const timeStep: real
    const exp: Mat3 -> Mat3

    /** What the constructor establishes. */
    predicate Valid()
    {
      elevator.Defined() && elevator.VoltageCoefficient() != 0.0
      && continuousSystem == Mat2(0.0, 1.0, 0.0, elevator.VelocityCoefficient())
      && continuousInput == Vec2(0.0, elevator.VoltageCoefficient())
      && continuousInputPseudoinverse == PseudoInverse(continuousInput)
      && Discrete(discreteSystem, discreteInput) == Discretize(continuousSystem, continuousInput, timeStep, exp)
      && continuousGravity.x0 == 0.0
      && discreteGravity == discreteInput.Times(continuousInputPseudoinverse.Dot(continuousGravity))
    }

    /** At rest at the bottom with 0 V applied; Ac, Bc from the elevator's
        coefficients; discrete gravity Bd·Bc⁺·[0; g]. */
    constructor (elevator: Elevator, gravity: real, timeStep: real, exp: Mat3 -> Mat3)
      requires elevator.Defined() && elevator.VoltageCoefficient() != 0.0
      ensures state == NewState(0.0, 0.0) && input == Input(0.0)
      ensures this.elevator == elevator && continuousGravity == Vec2(0.0, gravity)
      ensures this.timeStep == timeStep && this.exp == exp
      ensures continuousSystem == elevator.ContinuousSystemMatrix()
      ensures continuousInput == elevator.ContinuousInputMatrix()
      ensures Valid()
    {
      var ac := Mat2(0.0, 1.0, 0.0, elevator.VelocityCoefficient());
      var bc := Vec2(0.0, elevator.VoltageCoefficient());
      var g := Vec2(0.0, gravity);
      var pseudoinverse := PseudoInverse(bc);
      var discrete := Discretize(ac, bc, timeStep, exp);
      this.elevator := elevator;
      this.timeStep := timeStep;
      this.exp := exp;
      this.continuousSystem := ac;
      this.continuousInput := bc;
      this.continuousInputPseudoinverse := pseudoinverse;
      this.discreteSystem := discrete.ad;
      this.discreteInput := discrete.bd;
      this.continuousGravity := g;
      this.discreteGravity := discrete.bd.Times(pseudoinverse.Dot(g));
      state := NewState(0.0, 0.0);
      input := Input(0.0);
    }

    function Position(): real
      reads this
    {
      state.Position()
    }

    function Velocity(): real
      reads this
    {
      state.Velocity()
    }

    function Voltage(): real
      reads this
    {
      input.voltage
    }

    /** SetPosition: the carriage is moved; its velocity and the input stay. */
    method SetPosition(p: real)
      modifies this`state
      ensures Position() == p && Velocity() == old(Velocity())
    {
      state := state.SetPosition(p);
    }

    /** −Bc⁺·[0; g]: the voltage that holds the carriage against gravity. */
    function OpposingGravity(): (u: Input)
      requires Valid()
      ensures u.voltage == elevator.OpposingVoltage(continuousGravity.x1)
      ensures discreteInput.Times(u.voltage).Plus(discreteGravity) == Zero2
    {
      var b := elevator.VoltageCoefficient();
      var g := continuousGravity.x1;
      PseudoInverseOfAccelerationColumn(b, g);
      assert continuousInputPseudoinverse.Dot(continuousGravity) == g / b;
      Input(-1.0 * continuousInputPseudoinverse.Dot(continuousGravity))
    }

    /** Saturate: the voltage clamped into [−nominal, nominal]. */
    function Saturate(v: real): (r: real)
      requires elevator.motor.nominalVoltage >= 0.0
      ensures -elevator.motor.nominalVoltage <= r <= elevator.motor.nominalVoltage
      ensures -elevator.motor.nominalVoltage <= v <= elevator.motor.nominalVoltage ==> r == v
      ensures r == Input(v).Saturated(elevator.motor.nominalVoltage).voltage
    {
      Clamp(v, -elevator.motor.nominalVoltage, elevator.motor.nominalVoltage)
    }

    /** CurrentLimit: saturate, then the non-clamping limiter at the current
        velocity. It agrees with the clamping limiter, and the current it
        draws never exceeds the limit. */
    function CurrentLimit(v: real): (r: real)
      reads this
      requires Valid() && elevator.motor.nominalVoltage >= 0.0
      ensures elevator.Current(Velocity(), r) <= elevator.maxCurrent
      ensures r == elevator.LimitVoltage(Velocity(), v)
    {
      elevator.LimitVoltageUnsaturated(Velocity(), Saturate(v))
    }

    /** CurrentLimited: the same limit applied to an input. */
    function CurrentLimited(u: Input): (r: Input)
      reads this
      requires Valid() && elevator.motor.nominalVoltage >= 0.0
      ensures r.voltage == CurrentLimit(u.voltage)
      ensures elevator.Current(Velocity(), r.voltage) <= elevator.maxCurrent
    {
      var n := elevator.motor.nominalVoltage;
      ClampIdempotent(u.voltage, -n, n);
      Input(elevator.LimitVoltage(state.Velocity(), u.Saturated(n).voltage))
    }

    /** Ad·x + Bd·u + discrete gravity, before the clamp. */
    function AffineStep(x: State, u: Input): State
    {
      State(discreteSystem.Apply(x.vector).Plus(discreteInput.Times(u.voltage)).Plus(discreteGravity))
    }

    /** One step: the affine step with its position clamped into
        [0, maxTravel]; the velocity is never touched by the clamp. */
    function Step(x: State, u: Input): (s: State)
      ensures s.Velocity() == AffineStep(x, u).Velocity()
      ensures elevator.maxTravel >= 0.0 ==> 0.0 <= s.Position() <= elevator.maxTravel
      ensures 0.0 <= AffineStep(x, u).Position() <= elevator.maxTravel ==> s == AffineStep(x, u)
    {
      AffineStep(x, u).Clamped(0.0, elevator.maxTravel)
    }

    /** Update: the state advances one step under the current input. */
    method Update()
      modifies this`state
      ensures state == Step(old(state), input)
    {
      state := AffineStep(state, input).Clamped(0.0, elevator.maxTravel);
    }

    /** Update(voltage) of src/Elevator.hh: the voltage becomes the input and
        the state advances one step under it. */
    method UpdateWithVoltage(v: real)
      modifies this`state, this`input
      ensures input == Input(v)
      ensures state == Step(old(state), Input(v))
    {
      input := Input(v);
      Update();
    }
  }

  /** Holding against gravity: with the opposing-gravity input the input and
      gravity terms cancel, and only Ad·x is clamped. */
  lemma {:induction false} GravityCompensatedStep(sim: ElevatorSim, x: State)
    requires sim.Valid()
    ensures sim.Step(x, sim.OpposingGravity()) == State(sim.discreteSystem.Apply(x.vector)).Clamped(0.0, sim.elevator.maxTravel)
  {
    var u := sim.OpposingGravity();
    var ax := sim.discreteSystem.Apply(x.vector);
    assert sim.discreteInput.Times(u.voltage).Plus(sim.discreteGravity) == Zero2;
    assert ax.Plus(sim.discreteInput.Times(u.voltage)).Plus(sim.discreteGravity)
        == ax.Plus(sim.discreteInput.Times(u.voltage).Plus(sim.discreteGravity));
  }

  /** The opposing-gravity voltage also cancels gravity in the continuous
      model: at rest it produces exactly −g of acceleration. */
  lemma {:induction false} OpposingGravityHoldsAtRest(sim: ElevatorSim)
    requires sim.Valid()
    ensures sim.elevator.Acceleration(0.0, sim.OpposingGravity().voltage) + sim.continuousGravity.x1 == 0.0
  {
    OpposingVoltageCancelsAtRest(sim.elevator, sim.continuousGravity.x1);
  }

  lemma {:induction false} SaturateIdempotent(sim: ElevatorSim, v: real)
    requires sim.elevator.motor.nominalVoltage >= 0.0
    ensures sim.Saturate(sim.Saturate(v)) == sim.Saturate(v)
  {
  }
}
