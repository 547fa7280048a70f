/** reefscape::AffineSystemSim (common/include/AffineSystemSim.hh,
    common/src/AffineSystemSim.cc): a discretised affine system
    x' = Ad·x + Bd·u + d whose position is clamped after every step. Ad and
    Bd come from Discretize with the matrix exponential passed in by the
    caller; every property below holds whatever that exponential returns. */
module AffineSimulation {

  import opened Matrices
  import opened States
  import opened Elevators

  class AffineSystemSim {
    var state: State
    var input: Input

    const continuousSystem: Mat2
    const continuousInput: Vec2
    const continuousInputPseudoinverse: Row2
    const discreteSystem: Mat2
    const discreteInput: Vec2
    const continuousConstant: Vec2
    const discreteConstant: Vec2
    const timeStep: real
    const exp: Mat3 -> Mat3
    const minPosition: Bound
    const maxPosition: Bound

    /** What both constructors establish: the pseudoinverse of Bc, the
        discretised pair, d = Bd·Bc⁺·c, and position bounds at ∓∞. */
    predicate Valid()
    {
      continuousInput != Zero2
      && continuousInputPseudoinverse == PseudoInverse(continuousInput)
      && Discrete(discreteSystem, discreteInput) == Discretize(continuousSystem, continuousInput, timeStep, exp)
      && discreteConstant == discreteInput.Times(continuousInputPseudoinverse.Dot(continuousConstant))
      && minPosition == Unbounded && maxPosition == Unbounded
    }

    /** The general constructor: at rest at the origin with 0 V applied. */
    constructor (continuousSystem: Mat2, continuousInput: Vec2, continuousConstant: Vec2,
                 timeStep: real, exp: Mat3 -> Mat3)
      requires continuousInput != Zero2
      ensures state == NewState(0.0, 0.0) && input == Input(0.0)
      ensures this.continuousSystem == continuousSystem && this.continuousInput == continuousInput
      ensures this.continuousConstant == continuousConstant
      ensures this.timeStep == timeStep && this.exp == exp
      ensures Valid()
    {
      var discrete := Discretize(continuousSystem, continuousInput, timeStep, exp);
      var pseudoinverse := PseudoInverse(continuousInput);
      this.continuousSystem := continuousSystem;
      this.continuousInput := continuousInput;
      this.continuousConstant := continuousConstant;
      this.timeStep := timeStep;
      this.exp := exp;
      this.continuousInputPseudoinverse := pseudoinverse;
      this.discreteSystem := discrete.ad;
      this.discreteInput := discrete.bd;
      this.discreteConstant := discrete.bd.Times(pseudoinverse.Dot(continuousConstant));
      this.minPosition := Unbounded;
      this.maxPosition := Unbounded;
      state := NewState(0.0, 0.0);
      input := Input(0.0);
    }

    /** The elevator constructor: the elevator's Ac and Bc, and gravity as the
        constant c = [0; g]. */
    constructor ForElevator(elevator: Elevator, gravity: real, timeStep: real, exp: Mat3 -> Mat3)
      requires elevator.Defined() && elevator.VoltageCoefficient() != 0.0
      ensures state == NewState(0.0, 0.0) && input == Input(0.0)
      ensures continuousSystem == elevator.ContinuousSystemMatrix()
      ensures continuousInput == elevator.ContinuousInputMatrix()
      ensures continuousConstant == Vec2(0.0, gravity)
      ensures this.timeStep == timeStep && this.exp == exp
      ensures Valid()
    {
      var ac := elevator.ContinuousSystemMatrix();
      var bc := elevator.ContinuousInputMatrix();
      var c := Vec2(0.0, gravity);
      var discrete := Discretize(ac, bc, timeStep, exp);
      var pseudoinverse := PseudoInverse(bc);
      this.continuousSystem := ac;
      this.continuousInput := bc;
      this.continuousConstant := c;
      this.timeStep := timeStep;
      this.exp := exp;
      this.continuousInputPseudoinverse := pseudoinverse;
      this.discreteSystem := discrete.ad;
      this.discreteInput := discrete.bd;
      this.discreteConstant := discrete.bd.Times(pseudoinverse.Dot(c));
      this.minPosition := Unbounded;
      this.maxPosition := Unbounded;
      state := NewState(0.0, 0.0);
      input := Input(0.0);
    }

    /** −Bc⁺·c: the input that cancels the constant term of the discrete step. */
    function StabilizingInput(): (u: Input)
      requires Valid()
      ensures discreteInput.Times(u.voltage).Plus(discreteConstant) == Zero2
    {
      Input(-1.0 * continuousInputPseudoinverse.Dot(continuousConstant))
    }

    /** Ad·x + Bd·u + d, before the clamp. */
    function AffineStep(x: State, u: Input): State
    {
      State(discreteSystem.Apply(x.vector).Plus(discreteInput.Times(u.voltage)).Plus(discreteConstant))
    }

    /** One step: the affine step, then the position clamp. The bounds are
        infinite, so the clamp leaves the affine step as it is. */
    function Step(x: State, u: Input): (s: State)
      ensures s.Velocity() == AffineStep(x, u).Velocity()
      ensures Valid() ==> s == AffineStep(x, u)
    {
      UnboundedClampIsIdentity(AffineStep(x, u));
      AffineStep(x, u).ClampPosition(minPosition, maxPosition)
    }

    /** Update: the state advances one step under the current input; the
        input is left as it is. */
    method Update()
      modifies this`state
      ensures state == Step(old(state), input)
    {
      state := AffineStep(state, input).ClampPosition(minPosition, maxPosition);
    }
  }

  /** Under the stabilising input only the homogeneous part Ad·x remains. */
  lemma {:induction false} StabilizedStep(sim: AffineSystemSim, x: State)
    requires sim.Valid()
    ensures sim.Step(x, sim.StabilizingInput()) == State(sim.discreteSystem.Apply(x.vector))
  {
    var u := sim.StabilizingInput();
    var ax := sim.discreteSystem.Apply(x.vector);
    assert sim.discreteInput.Times(u.voltage).Plus(sim.discreteConstant) == Zero2;
    assert ax.Plus(sim.discreteInput.Times(u.voltage)).Plus(sim.discreteConstant)
        == ax.Plus(sim.discreteInput.Times(u.voltage).Plus(sim.discreteConstant));
  }

  /** For an input column [0; b] and a constant [0; g], as the elevator
      constructor builds them, the stabilising input also cancels the
      constant in the continuous dynamics: Bc·u + c = 0. */
  lemma {:induction false} StabilizingInputCancelsContinuousConstant(sim: AffineSystemSim)
    requires sim.Valid() && sim.continuousInput.x0 == 0.0 && sim.continuousConstant.x0 == 0.0
    ensures sim.continuousInput.Times(sim.StabilizingInput().voltage).Plus(sim.continuousConstant) == Zero2
  {
    var b := sim.continuousInput.x1;
    var g := sim.continuousConstant.x1;
    PseudoInverseOfAccelerationColumn(b, g);
    assert sim.continuousInputPseudoinverse.Dot(sim.continuousConstant) == g / b;
    assert b * (-1.0 * (g / b)) == -g;
  }
}
