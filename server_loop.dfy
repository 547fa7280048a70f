/** The simulation server of apps/server/main.cc: a proportional position
    controller on the accessor-style simulator of src/Elevator.hh. Every
    tick picks a setpoint from a 6 s schedule, commands kP·(setpoint −
    position) plus the gravity-holding voltage, limits it and steps the
    simulator with it. Publishing and the real-time pacing are not
    modelled. */
module ServerLoop {

  import opened Numeric
  import opened Matrices
  import opened States
  import opened Motors
  import opened Elevators
  import opened ElevatorSimulation

  const TimeStep: real := 0.001
  const Gravity: real := -9.81
  /** The proportional gain in V/m. */
  const ProportionalGain: real := 48.0
  const SchedulePeriod: real := 6.0
  /** The bottom until LowTime, the 1.25 m mark from HighTime on, the top between. */
  const LowTime: real := 2.0
  const HighTime: real := 4.0
  const MiddleSetpoint: real := 1.25

  /** Two Kraken X60 motors through a 5:1 gear on a 1.273 in drum lifting
      30 lb with a 120 A limit. */
  function ServerElevator(totalTravel: real): (e: Elevator)
    ensures e.Physical() && e.maxTravel == totalTravel
  {
    Elevator(5.0, 0.5 * (1.273 * Inch), 30.0 * PoundMass, 120.0, totalTravel, KrakenX60().Times(2))
  }

  /** The setpoint at a given time: one of the three marks. */
  function SetpointAt(time: real, totalTravel: real): (p: real)
    ensures p == 0.0 || p == MiddleSetpoint || p == totalTravel
  {
    var phase := Fmod(time, SchedulePeriod);
    if phase <= LowTime then 0.0
    else if phase >= HighTime then MiddleSetpoint
    else totalTravel
  }

  /** The schedule repeats every period. */
  lemma {:induction false} SetpointRepeats(time: real, totalTravel: real)
    requires time >= 0.0
    ensures SetpointAt(time + SchedulePeriod, totalTravel) == SetpointAt(time, totalTravel)
  {
    FmodPeriodic(time, SchedulePeriod);
  }

  /** Within one period: the bottom up to and including 2 s, the 1.25 m mark
      from 4 s on, the top strictly between. */
  lemma {:induction false} SetpointSchedule(time: real, totalTravel: real)
    requires 0.0 <= time < SchedulePeriod
    ensures time <= LowTime ==> SetpointAt(time, totalTravel) == 0.0
    ensures time >= HighTime ==> SetpointAt(time, totalTravel) == MiddleSetpoint
    ensures LowTime < time < HighTime ==> SetpointAt(time, totalTravel) == totalTravel
  {
    FmodWithinPeriod(time, SchedulePeriod);
  }

  /** kP·(setpoint − position) plus the gravity-holding voltage, before limiting. */
  function VoltageCommand(sim: ElevatorSim, setpoint: real, position: real): real
    requires sim.Valid()
  {
    (setpoint - position) * ProportionalGain + sim.OpposingGravity().voltage
  }

  /** At the setpoint only the gravity-holding voltage is commanded. */
  lemma {:induction false} CommandAtSetpoint(sim: ElevatorSim, p: real)
    requires sim.Valid()
    ensures VoltageCommand(sim, p, p) == sim.OpposingGravity().voltage
  {
  }

  /** Below the setpoint the command exceeds the gravity-holding voltage,
      above it the command falls short of it. */
  lemma {:induction false} CommandPushesTowardSetpoint(sim: ElevatorSim, setpoint: real, position: real)
    requires sim.Valid()
    ensures position < setpoint ==> VoltageCommand(sim, setpoint, position) > sim.OpposingGravity().voltage
    ensures position > setpoint ==> VoltageCommand(sim, setpoint, position) < sim.OpposingGravity().voltage
  {
  }

  class Server {
    const sim: ElevatorSim
    const totalTravel: real
    var time: real

    predicate Valid()
    {
      sim.Valid() && sim.elevator.motor.nominalVoltage >= 0.0
      && sim.timeStep == TimeStep && sim.continuousGravity == Vec2(0.0, Gravity)
    }

    /** The set-up: a simulator at rest at the bottom and the clock at 0. */
    constructor (elevator: Elevator, exp: Mat3 -> Mat3)
      requires elevator.Physical()
      ensures fresh(sim) && sim.elevator == elevator
      ensures sim.state == NewState(0.0, 0.0) && sim.input == Input(0.0)
      ensures totalTravel == elevator.maxTravel && time == 0.0
      ensures Valid()
    {
      PhysicalIsDefined(elevator.motor);
      sim := new ElevatorSim(elevator, Gravity, TimeStep, exp);
      totalTravel := elevator.maxTravel;
      time := 0.0;
    }

    /** The voltage this tick passes to the simulator: the limited command
        for the scheduled setpoint at the current position. */
    function LimitedCommand(): (u: real)
      reads this, sim
      requires Valid()
      ensures sim.elevator.Current(sim.Velocity(), u) <= sim.elevator.maxCurrent
    {
      sim.CurrentLimit(VoltageCommand(sim, SetpointAt(time, totalTravel), sim.Position()))
    }

    /** One pass of the loop: the value passed to the simulator is always the
        output of CurrentLimit, so the current it draws at the velocity it is
        applied at never exceeds the limit. */
    method Tick()
      requires Valid()
      modifies this`time, sim`state, sim`input
      ensures Valid()
      ensures sim.input.voltage == old(LimitedCommand())
      ensures sim.elevator.Current(old(sim.Velocity()), sim.input.voltage) <= sim.elevator.maxCurrent
      ensures sim.state == sim.Step(old(sim.state), sim.input)
      ensures time == old(time) + TimeStep
    {
      var voltage := LimitedCommand();
      sim.UpdateWithVoltage(voltage);
      time := time + TimeStep;
    }
  }
}
