/** The closed-loop simulation of sim/main.cc: every tick picks the goal from
    a 6 s schedule, advances the reference one step along the trapezoidal
    profile, applies state feedback K·(reference − state) plus the voltage
    that holds the carriage against gravity, limits it, and steps the
    simulator. Publishing, the CSV log and the real-time pacing are not
    modelled. */
module ControlLoop {

  import opened Numeric
  import opened Matrices
  import opened States
  import opened Motors
  import opened Elevators
  import opened ElevatorSimulation
  import opened Trajectories

  const TimeStep: real := 0.0025
  const Gravity: real := -9.81
  const MaxVelocity: real := 4.0
  /** The state-feedback gain K = [kP, kD] in V/m and V/(m/s). */
  const ProportionalGain: real := 191.2215
  const DerivativeGain: real := 4.811
  const Gain: Row2 := Row2(ProportionalGain, DerivativeGain)
  const SchedulePeriod: real := 6.0
  /** For the first RaisedTime seconds of every period the goal is the top. */
  const RaisedTime: real := 3.0

  /** Two Kraken X60 (FOC) motors through a 5:1 gear on a 1.273 in drum
      lifting 30 lb with a 120 A limit. */
  function SimElevator(totalTravel: real): (e: Elevator)
    ensures e.Physical() && e.maxTravel == totalTravel
  {
    Elevator(5.0, 0.5 * (1.273 * Inch), 30.0 * PoundMass, 120.0, totalTravel, KrakenX60FOC().Times(2))
  }

  /** The goal at a given time: at rest, either at the top or at the bottom. */
  function GoalAt(time: real, totalTravel: real): (g: State)
    ensures g.Velocity() == 0.0
    ensures g.Position() == totalTravel || g.Position() == 0.0
  {
    if Fmod(time, SchedulePeriod) < RaisedTime then NewState(totalTravel, 0.0) else NewState(0.0, 0.0)
  }

  /** The schedule repeats every period. */
  lemma {:induction false} GoalRepeats(time: real, totalTravel: real)
    requires time >= 0.0
    ensures GoalAt(time + SchedulePeriod, totalTravel) == GoalAt(time, totalTravel)
  {
    FmodPeriodic(time, SchedulePeriod);
  }

  /** Within one period: the top for the first three seconds, then the bottom. */
  lemma {:induction false} GoalSchedule(time: real, totalTravel: real)
    requires 0.0 <= time < SchedulePeriod
    ensures time < RaisedTime ==> GoalAt(time, totalTravel) == NewState(totalTravel, 0.0)
    ensures time >= RaisedTime ==> GoalAt(time, totalTravel) == NewState(0.0, 0.0)
  {
    FmodWithinPeriod(time, SchedulePeriod);
  }

  /** K·(reference − x) plus the gravity-holding input, before limiting. */
  function Command(sim: ElevatorSim, reference: State, x: State): Input
    requires sim.Valid()
  {
    var error := reference.Minus(x);
    Input(Gain.Dot(error.vector)).Plus(sim.OpposingGravity())
  }

  /** On the reference the feedback term vanishes and only the
      gravity-holding input is commanded. */
  lemma {:induction false} CommandOnReference(sim: ElevatorSim, x: State)
    requires sim.Valid()
    ensures Command(sim, x, x) == sim.OpposingGravity()
  {
    FeedbackVanishes(Gain, x, sim.OpposingGravity());
  }

  lemma FeedbackVanishes(k: Row2, x: State, u: Input)
    ensures Input(k.Dot(x.Minus(x).vector)).Plus(u) == u
  {
    assert x.Minus(x).vector == Zero2;
  }

  /** The feedback term grows with the position error: one more metre of
      error adds kP volts. */
  lemma {:induction false} CommandFollowsPositionError(sim: ElevatorSim, reference: State, x: State)
    requires sim.Valid()
    ensures Command(sim, reference.SetPosition(reference.Position() + 1.0), x).voltage
            == Command(sim, reference, x).voltage + ProportionalGain
  {
  }

  /** The trajectory of the set-up: 4 m/s and the elevator's maximum
      acceleration as sim::Elevator computes it, with the non-clamping
      limiter. */
  function TrajectoryFor(elevator: Elevator): (t: TrapezoidTrajectory)
    requires elevator.Physical()
    ensures elevator.Defined() && elevator.motor.nominalVoltage >= 0.0
    ensures t.Defined() && t.maxVelocity == MaxVelocity
    ensures t.maxAcceleration == elevator.MaximumAccelerationUnsaturated()
  {
    PhysicalIsDefined(elevator.motor);
    TrapezoidTrajectory(MaxVelocity, elevator.MaximumAccelerationUnsaturated())
  }

  class ClosedLoop {
    const sim: ElevatorSim
    const trajectory: TrapezoidTrajectory
    const totalTravel: real
    const sqrt: real -> real
    var reference: State
    var goal: State
    var time: real

    /** What the program's set-up establishes. */
    predicate Valid()
    {
      sim.Valid() && sim.elevator.motor.nominalVoltage >= 0.0
      && sim.timeStep == TimeStep && sim.continuousGravity == Vec2(0.0, Gravity)
      && trajectory.Defined() && trajectory.maxVelocity == MaxVelocity
      && trajectory.maxAcceleration == sim.elevator.MaximumAccelerationUnsaturated()
    }

    /** The set-up: a simulator at rest at the bottom, the reference starting
        at its state, the top as the first goal, the clock at 0. */
    constructor (elevator: Elevator, exp: Mat3 -> Mat3, sqrt: real -> real)
      requires elevator.Physical()
      ensures fresh(sim) && sim.elevator == elevator
      ensures sim.state == NewState(0.0, 0.0) && sim.input == Input(0.0)
      ensures reference == sim.state && goal == NewState(elevator.maxTravel, 0.0) && time == 0.0
      ensures this.totalTravel == elevator.maxTravel && this.sqrt == sqrt
      ensures trajectory.maxVelocity == MaxVelocity
      ensures trajectory.maxAcceleration == elevator.MaximumAccelerationUnsaturated()
      ensures Valid()
    {
      var t := TrajectoryFor(elevator);
      var s := new ElevatorSim(elevator, Gravity, TimeStep, exp);
      sim := s;
      trajectory := t;
      totalTravel := elevator.maxTravel;
      this.sqrt := sqrt;
      reference := s.state;
      goal := NewState(elevator.maxTravel, 0.0);
      time := 0.0;
    }

    /** The input applied after the reference update: the command for the
        reference, saturated and current-limited at the present velocity. */
    function AppliedInput(): (u: Input)
      reads this, sim
      requires Valid()
      ensures u.voltage == sim.elevator.LimitVoltage(sim.state.Velocity(), Command(sim, reference, sim.state).voltage)
      ensures sim.elevator.Current(sim.state.Velocity(), u.voltage) <= sim.elevator.maxCurrent
    {
      sim.CurrentLimited(Command(sim, reference, sim.state))
    }

    /** One pass of the loop. The applied input is the limited command, so
        the current it draws at the velocity it is applied at never exceeds
        the limit. */
    method Tick()
      requires Valid()
      modifies this`reference, this`goal, this`time, sim`state, sim`input
      ensures Valid()
      ensures goal == GoalAt(old(time), totalTravel)
      ensures reference == trajectory.Calculate(TimeStep, old(reference), goal, sqrt)
      ensures sim.input.voltage
              == sim.elevator.LimitVoltage(old(sim.state).Velocity(), Command(sim, reference, old(sim.state)).voltage)
      ensures sim.elevator.Current(old(sim.state).Velocity(), sim.input.voltage) <= sim.elevator.maxCurrent
      ensures sim.state == sim.Step(old(sim.state), sim.input)
      ensures time == old(time) + TimeStep
    {
      goal := GoalAt(time, totalTravel);
      reference := trajectory.Calculate(TimeStep, reference, goal, sqrt);
      sim.input := AppliedInput();
      sim.Update();
      time := time + TimeStep;
    }
  }
}
