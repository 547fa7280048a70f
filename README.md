# Elevator simulator: physics and control core in Dafny

This project models the physics and control layer of the reefscape elevator
simulator and proves properties of it over exact real arithmetic (SI units:
m, s, kg, V, A, rad). The repository keeps several generations of the same
code side by side, and each family is its own module here:

- `Numeric` (numeric.dfy): clamping, minimum, absolute value, C's `fmod`,
  and small real-arithmetic facts the other modules lean on.
- `Matrices` (matrices.dfy): the 2-state / 1-input vectors and matrices, the
  left pseudoinverse of a tall input column, and the block layout of
  `Discretize`. The matrix exponential is a parameter `exp: Mat3 -> Mat3`.
- `Motors` (motor.dfy): the DC motor with its derived constants (kt, R, Kv),
  ganging n motors (`operator*`), and the Kraken X60 / X60 FOC datasheets.
- `Elevators` (elevator.dfy): the linear mechanism. It covers motor speed,
  current, force, acceleration, the state-space coefficients and matrices, and
  the voltage that cancels an acceleration. It has both current limiters: the
  clamping one of common/src/Elevator.cc and the non-clamping one of
  src/Elevator.cc. It also covers maximum acceleration with the literal 12 V.
- `Arms` (arm.dfy): the rotary mechanism of common/src/Arm.cc.
- `MotorSystems` (motor_system.dfy): the generic `MotorSystem` functions of
  common/include/MotorSystem.hh (maximum velocity, maximum acceleration at the
  nominal voltage, current, limiter), over a datatype that is either an
  elevator or an arm.
- `States` (states.dfy): the shared (position, velocity) state and voltage
  input value types, the position clamp (finite or ±∞ bounds), the "at goal"
  test, voltage saturation.
- `AffineSimulation` (affine_sim.dfy): `reefscape::AffineSystemSim`, a class
  whose `Update` overwrites the state with Ad·x + Bd·u + d and clamps it.
- `ElevatorSimulation` (elevator_sim.dfy): `sim::ElevatorSim`, with gravity
  carried through Bc⁺, the [0, maxTravel] clamp, and the accessor interface of
  src/Elevator.hh.
- `Trajectories` (trajectory.dfy): the trapezoidal motion profile
  (`TrapezoidTrajectory::Calculate`, and the identical `calculate` of
  sim/main.cc).
- `ControlLoop` (control_loop.dfy): one tick of sim/main.cc's loop (goal
  schedule, reference update, state feedback plus gravity feed-forward,
  current limiting, simulator step) as a method on a class.
- `ServerLoop` (server_loop.dfy): one tick of apps/server/main.cc's
  proportional controller.
- `Points` (points.dfy): the bounded FIFO point buffer, the tick stamps, the
  linear `map`, the voltage-to-hue colouring and the segment filter of
  points/main.cc.

The code has no guards against division by zero (drum radius, mass, R, Kv,
maximum velocity and maximum acceleration). Every such divisor is a
precondition here (`Defined()`), and no "hold position" behaviour is added.

Two behaviours of the source are modelled as written and characterised by
lemmas:

- **The 12 V literal.** `MaximumAcceleration` in common/src/Elevator.cc
  requests a literal 12 V where common/include/MotorSystem.hh uses the motor's
  nominal voltage. They agree up to a 12 V nominal
  (`TwelveVoltLiteralAgreesUpToTwelve`). Above it, the literal understates the
  maximum whenever the current limit allows more than 12 V
  (`TwelveVoltLiteralUnderstatesAboveTwelve`).
- **No lower current bound.** The limiter replaces only a voltage that draws
  too much forward current. When the mechanism is back-driven hard, the
  replacement voltage lies below −nominal
  (`LimitVoltageUndershootsWhenBackDriven`).

The trajectory's triangular case keeps a quirk. At `t == endAcceleration` the
time falls into the cruise branch and reports the maximum velocity, although
the profile never reaches it (`TriangularPeakReportsMaximumVelocity`). The
position is still continuous there (`TriangularPositionContinuous`).

The square root used by the triangular fallback is a parameter
`sqrt: real -> real`. Lemmas that need it to be a square root take
`sqrt(x) >= 0` and `sqrt(x) * sqrt(x) == x` for the one argument they use.

## Model

| member | source | states |
|---|---|---|
| Numeric.Clamp | common/include/Elevator.hh:107-109 | the result lies in [lo, hi], equals x inside it and the nearer bound outside |
| Numeric.ClampIdempotent | src/Elevator.hh:56-59 | clamping twice is clamping once |
| Numeric.Fmod | sim/main.cc:129 | C's fmod truncates: for a positive period the result has the sign of x and magnitude below the period |
| Numeric.FmodPeriodic | sim/main.cc:129-134 | a non-negative time and the same time one period later have the same fmod |
| Numeric.FmodWithinPeriod | apps/server/main.cc:37-44 | within the first period fmod is the identity |
| Matrices.PseudoInverse | common/include/Eigen.hh:58-64 | (BcᵀBc)⁻¹Bcᵀ is a left inverse of Bc (Bc⁺·Bc = 1), and for Bc = [0; b] it is [0, 1/b] |
| Matrices.ScaledTransposeIsLeftInverse | src/Eigen.hh:47-53 | BcᵀBc is non-zero for a non-zero column, and Bcᵀ/(BcᵀBc) is a left inverse, [0, 1/b] for [0; b] |
| Matrices.GramPositive | common/include/Eigen.hh:58-64 | BcᵀBc > 0 for a non-zero column, so the inverse the source takes exists |
| Matrices.PseudoInverseReproducesRange | common/include/Eigen.hh:58-64 | Bc·Bc⁺ reproduces every vector in the range of Bc |
| Matrices.PseudoInverseOfAccelerationColumn | common/include/Eigen.hh:58-64 | for Bc = [0; b], b ≠ 0: Bc⁺ = [0, 1/b] and Bc·Bc⁺·[0; a] = [0; a] |
| Matrices.Augmented | common/include/Eigen.hh:42-47 | M = [[Ac, Bc], [0, 0]]; its meaning is stated by AugmentedDynamics (likewise in src/Eigen.hh) |
| Matrices.Discretize | common/include/Eigen.hh:37-55 | Ad and Bd are the top-left and top-right blocks of exp(M·T) for the given exponential; DiscretizeFirstOrder pins the blocks down (likewise in src/Eigen.hh) |
| Matrices.AugmentedDynamics | common/include/Eigen.hh:42-47 | M·[x; u] = [Ac·x + Bc·u; 0]: Ac and Bc in the top block row, zeros below |
| Matrices.DiscretizeFirstOrder | common/include/Eigen.hh:49-55 | with exp truncated to I + X the extracted blocks are Ad = I + Ac·T and Bd = Bc·T, which fixes Ad as the top-left and Bd as the top-right block (likewise in src/Eigen.hh) |
| Motors.RpmToRadiansPerSecond | common/include/Motor.hh:37-45 | w·60 = rpm·2π, positive for positive rpm |
| Motors.Motor.TorqueConstant | common/include/Motor.hh:26 | kt·Is = stall torque (likewise in src/Motor.hh) |
| Motors.Motor.Resistance | common/include/Motor.hh:27 | R·Is = nominal voltage; R ≠ 0 iff the nominal voltage is non-zero (likewise in src/Motor.hh) |
| Motors.Motor.AngularVelocityConstant | common/include/Motor.hh:28-29 | Kv·(V − If·R) = free speed; Kv ≠ 0 iff the free speed is non-zero (likewise in src/Motor.hh) |
| Motors.Motor.Current | common/src/Elevator.cc:37-42 | the supply voltage splits into the resistive drop and the back-EMF: i·R + w/Kv = u |
| Motors.Motor.Times | common/include/Motor.hh:31-35 | n motors keep voltage and free speed, multiply stall torque, stall current and free current by n, and for n ≥ 1 are physical iff one motor is |
| Motors.ScaledConstants | common/include/Motor.hh:26-35 | for n ≥ 1 the ganged motor has the same kt, R divided by n, the same free back-EMF and the same Kv (likewise in src/Motor.hh) |
| Motors.ScaledPhysical | src/Motor.hh:26-30 | scaling ratings by n ≥ 1 keeps a datasheet physical, and only such a datasheet |
| Motors.PhysicalIsDefined | common/include/Motor.hh:18-29 | a physical datasheet has kt, R, free back-EMF and Kv all defined and positive |
| Motors.KrakenX60 | common/include/Motor.hh:37-40 | a physical 12 V / 366 A motor |
| Motors.KrakenX60FOC | common/include/Motor.hh:42-45 | a physical 12 V / 483 A motor |
| Motors.KrakenConstants | common/include/Motor.hh:37-45 | the datasheet figures (7.09 N·m, 2 A, 6000 rpm = 200π rad/s; 9.37 N·m, 5800 rpm) and R = 12/366 Ω, kt = 7.09/366 resp. 12/483 Ω, 9.37/483 |
| Elevators.Elevator.MotorVelocity | common/src/Elevator.cc:9-11 | motor speed·r = carriage speed·G |
| Elevators.Elevator.Current | common/src/Elevator.cc:37-42 | i·R + MotorVelocity(v)/Kv = u (likewise in src/Elevator.cc) |
| Elevators.Elevator.Force | common/src/Elevator.cc:24-35 | force·r = G·kt·Current(v, u) (likewise in src/Elevator.cc) |
| Elevators.Elevator.Acceleration | common/src/Elevator.cc:13-16 | acceleration·mass = force |
| Elevators.Elevator.VelocityCoefficient | src/Elevator.cc:24-28 | negative for a physical elevator |
| Elevators.Elevator.VoltageCoefficient | src/Elevator.cc:30-33 | positive for a physical elevator |
| Elevators.Elevator.ContinuousSystemMatrix | common/src/Elevator.cc:56-67 | Ac = [[0, 1], [0, VelocityCoefficient]]; AccelerationIsStateSpaceRow shows its second row is the acceleration's speed term |
| Elevators.Elevator.ContinuousInputMatrix | common/src/Elevator.cc:69-77 | Bc = [0; VoltageCoefficient]; AccelerationIsStateSpaceRow shows it is the acceleration's voltage term |
| Elevators.Elevator.OpposingVoltage | src/Elevator.cc:35-37 | VoltageCoefficient·u + a = 0 |
| Elevators.Elevator.CurrentLimitVoltage | common/src/Elevator.cc:49-52 | the replacement voltage draws exactly maxCurrent |
| Elevators.Elevator.LimitVoltage | common/src/Elevator.cc:44-54 | the result never draws more than maxCurrent; it is the clamped request when that is within the limit and a voltage drawing exactly maxCurrent otherwise; clamp first, then limit |
| Elevators.Elevator.LimitVoltageUnsaturated | src/Elevator.cc:59-67 | no clamp: a request within the current limit is returned unchanged, one above it is replaced by the voltage drawing exactly maxCurrent |
| Elevators.Elevator.MaximumAcceleration | common/src/Elevator.cc:18-22 | the acceleration at rest under the limited 12 V request; for a physical elevator positive and equal to VoltageCoefficient·min(min(12, nominal), maxCurrent·R) |
| Elevators.Elevator.MaximumAccelerationUnsaturated | src/Elevator.cc:18-22 | the acceleration at rest under the 12 V request passed through the non-clamping limiter; for a physical elevator positive and equal to VoltageCoefficient·min(12, maxCurrent·R) |
| Elevators.PhysicalCoefficients | src/Elevator.cc:24-33 | for a physical elevator −G²·kt/(R·r²·m·Kv) < 0 and G·kt/(R·m·r) > 0 |
| Elevators.AccelerationIsLinear | common/src/Elevator.cc:13-35 | Acceleration(v, u) = VelocityCoefficient·v + VoltageCoefficient·u |
| Elevators.AccelerationIsStateSpaceRow | common/src/Elevator.cc:56-79 | Ac·[p; v] + Bc·u = [v; Acceleration(v, u)] for every p: Ac = [[0, 1], [0, cv]], Bc = [0; cu] |
| Elevators.OpposingVoltageCancelsAtRest | src/Elevator.cc:35-37 | at rest the opposing voltage for a produces acceleration −a |
| Elevators.CurrentDifference | common/src/Elevator.cc:37-42 | at a fixed speed current differences are voltage differences over R |
| Elevators.LimiterLowersVoltage | common/src/Elevator.cc:48-53 | the limiter never raises the clamped request and, when it triggers, lowers it strictly |
| Elevators.ReverseCurrentUnbounded | common/src/Elevator.cc:48-52 | −nominal at rest passes the limiter and draws −stall current: there is no lower current bound |
| Elevators.LimitAtRest | common/src/Elevator.cc:44-54 | at rest the limited voltage is min(clamped request, maxCurrent·R) |
| Elevators.UnsaturatedLimitAtRest | src/Elevator.cc:59-67 | at rest the non-clamping limiter gives min(request, maxCurrent·R) |
| Elevators.MaximumAccelerationClosedForm | common/src/Elevator.cc:18-22 | the acceleration at rest under the limited 12 V request is VoltageCoefficient·min(min(12, nominal), maxCurrent·R) for a physical elevator |
| Elevators.UnsaturatedMaximumAccelerationClosedForm | src/Elevator.cc:18-22 | the acceleration at rest under the 12 V request through the non-clamping limiter is VoltageCoefficient·min(12, maxCurrent·R), and positive, for a physical elevator |
| Elevators.MaximumAccelerationGenerationsAgree | src/Elevator.cc:18-22 | for a nominal voltage of at least 12 V both generations give the same maximum acceleration |
| Arms.Arm.MotorVelocity | common/src/Arm.cc:21-23 | motor speed = arm speed·G, so with a non-zero ratio the motor turns exactly when the arm turns |
| Arms.Arm.Torque | common/src/Arm.cc:30-40 | torque = G·kt·Current(u, MotorVelocity(ω)) |
| Arms.Arm.Acceleration | common/src/Arm.cc:25-28 | acceleration·J = torque |
| Arms.Arm.VelocityCoefficient | common/src/Arm.cc:7-12 | negative for a physical arm |
| Arms.Arm.VoltageCoefficient | common/src/Arm.cc:14-17 | positive for a physical arm |
| Arms.ArmCoefficientSigns | common/src/Arm.cc:7-17 | the closed-form coefficients have those signs for a physical arm |
| Arms.ArmAccelerationIsLinear | common/src/Arm.cc:7-40 | Acceleration(ω, u) = VelocityCoefficient·ω + VoltageCoefficient·u |
| Arms.TorqueAtRestWithoutVoltage | common/src/Arm.cc:30-40 | torque and acceleration are 0 at ω = 0, u = 0 |
| MotorSystems.MotorSystem.VelocityCoefficient | common/include/MotorSystem.hh:13-55 | negative for a physical elevator or arm |
| MotorSystems.MotorSystem.VoltageCoefficient | common/include/MotorSystem.hh:13-55 | positive for a physical elevator or arm |
| MotorSystems.SystemAccelerationIsLinear | common/include/MotorSystem.hh:13-55 | both kinds of system accelerate linearly in speed and voltage |
| MotorSystems.MaximumVelocity | common/include/MotorSystem.hh:57-65 | VelocityCoefficient·v + VoltageCoefficient·nominal = 0 |
| MotorSystems.MaximumVelocityIsTerminal | common/include/MotorSystem.hh:63-64 | at the maximum velocity under nominal voltage the acceleration is 0, and that velocity is positive |
| MotorSystems.PhysicalSystemIsDefined | common/include/MotorSystem.hh:13-55 | a physical system has every divisor defined, R > 0 and a positive nominal voltage |
| MotorSystems.Current | common/include/MotorSystem.hh:79-87 | i·R + MotorVelocity(v)/Kv = u |
| MotorSystems.CurrentLimitVoltage | common/include/MotorSystem.hh:97-101 | the replacement voltage draws exactly the current limit |
| MotorSystems.LimitVoltage | common/include/MotorSystem.hh:89-103 | clamp to ±nominal, then: within the limit returns the clamped voltage, otherwise a voltage drawing exactly the limit; never above the limit |
| MotorSystems.MaximumAcceleration | common/include/MotorSystem.hh:67-77 | the acceleration at rest under the limited nominal voltage; for a physical system positive and equal to VoltageCoefficient·min(nominal, maxCurrent·R) |
| MotorSystems.SystemLimitAtRest | common/include/MotorSystem.hh:89-103 | at rest the limiter gives min(clamped request, maxCurrent·R) |
| MotorSystems.MaximumAccelerationIsMaximal | common/include/MotorSystem.hh:67-77 | no request produces more acceleration from rest than MaximumAcceleration |
| MotorSystems.SystemMaximumAccelerationClosedForm | common/include/MotorSystem.hh:67-77 | the acceleration at rest under the limited nominal voltage is VoltageCoefficient·min(nominal, maxCurrent·R), and positive, for a physical system |
| MotorSystems.SystemAccelerationIncreasesWithVoltage | common/include/MotorSystem.hh:13-55 | for a physical system more voltage gives strictly more acceleration |
| MotorSystems.ElevatorIsMotorSystem | common/src/Elevator.cc:37-54 | the generic current, limiter and acceleration coincide with the elevator's own |
| MotorSystems.TwelveVoltLiteralAgreesUpToTwelve | common/src/Elevator.cc:18-22 | up to a 12 V nominal the literal-12 V maximum equals the generic one |
| MotorSystems.TwelveVoltLiteralUnderstatesAboveTwelve | common/src/Elevator.cc:20 | above a 12 V nominal, with room under the current limit, the literal-12 V maximum is strictly below the generic one |
| MotorSystems.LimitVoltageUndershootsWhenBackDriven | common/include/MotorSystem.hh:97-101 | when back-driven hard the limiter's output is the exact-limit voltage and lies below −nominal, since it is not re-clamped |
| States.State.SetPosition | common/include/Elevator.hh:70-72 | only the position changes (likewise in common/include/state.hh) |
| States.State.SetVelocity | common/include/Elevator.hh:73-75 | only the velocity changes (likewise in common/include/state.hh) |
| States.State.Minus | common/include/Elevator.hh:66 | componentwise difference (likewise in common/include/AffineSystemSim.hh) |
| States.State.Negated | common/src/trajectory.cc:11-12 | both components negated |
| States.State.ClampPosition | common/include/AffineSystemSim.hh:44-54 | above max gives max, else below min gives min, velocity kept; in range unchanged; with min ≤ max the result is in range; ±∞ bounds allowed (likewise in common/include/state.hh) |
| States.State.Clamped | common/include/Elevator.hh:77-87 | velocity kept; a position above max becomes max, else one below min becomes min; with min ≤ max the position lies in [min, max]; an in-range state is unchanged |
| States.NewState | common/include/state.hh:13-16 | the constructor stores position and velocity so the accessors return them (likewise in src/Elevator.hh) |
| States.StateRoundTrip | common/include/AffineSystemSim.hh:20-23 | rebuilding a state from its readings gives the same state |
| States.ClampPositionIdempotent | common/include/AffineSystemSim.hh:44-54 | for min ≤ max clamping is idempotent |
| States.ClampedIdempotent | common/include/Elevator.hh:77-87 | for min ≤ max Clamped is idempotent |
| States.UnboundedClampIsIdentity | common/src/AffineSystemSim.cc:20-21 | with bounds at ∓∞ the clamp changes nothing |
| States.State.At | common/include/state.hh:49-55 | both differences strictly below 1 cm and 1 cm/s; characterised by AtIsSmallDifference, AtReflexive, AtSymmetric and AtToleranceIsStrict |
| States.AtIsSmallDifference | common/include/state.hh:49-55 | At holds iff both components of the difference are strictly inside 1 cm and 1 cm/s |
| States.AtReflexive | common/include/AffineSystemSim.hh:56-62 | every state is at itself |
| States.AtSymmetric | common/include/AffineSystemSim.hh:56-62 | At is symmetric |
| States.AtToleranceIsStrict | common/include/AffineSystemSim.hh:11-12 | a difference of exactly 1 cm or 1 cm/s is not "at" |
| States.Input.Plus | common/include/Elevator.hh:100-103 | the voltages add (likewise in common/include/AffineSystemSim.hh) |
| States.Input.Saturated | common/include/Elevator.hh:107-109 | the voltage lands in [−nominal, nominal]; unchanged inside, the nearer bound outside |
| States.SaturatedIdempotent | common/include/Elevator.hh:107-109 | saturating twice is saturating once |
| AffineSimulation.AffineSystemSim.constructor | common/src/AffineSystemSim.cc:9-30 | state (0, 0), input 0 V, bounds ∓∞, the discretised pair, Bc⁺ and d = Bd·Bc⁺·c |
| AffineSimulation.AffineSystemSim.ForElevator | common/src/AffineSystemSim.cc:32-36 | the elevator's Ac and Bc and c = [0; g] |
| AffineSimulation.AffineSystemSim.StabilizingInput | common/src/AffineSystemSim.cc:38-40 | Bd·u + d = 0 whatever Ad and Bd are |
| AffineSimulation.AffineSystemSim.Step | common/src/AffineSystemSim.cc:42-47 | the velocity of the affine step is kept, and with the constructors' infinite bounds the step is the pure affine step |
| AffineSimulation.AffineSystemSim.Update | common/src/AffineSystemSim.cc:42-47 | the state becomes the clamped affine step; the input is not modified |
| AffineSimulation.StabilizedStep | common/src/AffineSystemSim.cc:27-47 | under the stabilising input a step is Ad·x alone |
| AffineSimulation.StabilizingInputCancelsContinuousConstant | common/src/AffineSystemSim.cc:27-40 | for Bc = [0; b], c = [0; g]: Bc·u + c = 0 |
| ElevatorSimulation.ElevatorSim.constructor | src/Elevator.cc:69-90 | state (0, 0), input 0 V, Ac = [[0, 1], [0, cv]], Bc = [0; cu], discrete gravity Bd·Bc⁺·[0; g] |
| ElevatorSimulation.ElevatorSim.SetPosition | src/Elevator.hh:48-49 | Position() then returns p and the velocity is unchanged |
| ElevatorSimulation.ElevatorSim.OpposingGravity | src/Elevator.cc:92-94 | −Bc⁺·[0; g] equals OpposingVoltage(g), and Bd·u + discrete gravity = 0 |
| ElevatorSimulation.ElevatorSim.Saturate | src/Elevator.hh:56-59 | the voltage lands in [−nominal, nominal], unchanged inside, as Input.Saturated does |
| ElevatorSimulation.ElevatorSim.CurrentLimit | src/Elevator.hh:60-62 | LimitVoltage at the current velocity of the saturated request; it equals the clamping limiter and never draws more than maxCurrent |
| ElevatorSimulation.ElevatorSim.CurrentLimited | common/include/Elevator.hh:116-120 | the same limit on an input, reading the current state's velocity |
| ElevatorSimulation.ElevatorSim.Step | src/Elevator.cc:96-100 | velocity kept; the position ends in [0, maxTravel]; an in-range affine step is unchanged |
| ElevatorSimulation.ElevatorSim.Update | src/Elevator.cc:96-100 | the state becomes the clamped step under the current input; the input is untouched |
| ElevatorSimulation.ElevatorSim.UpdateWithVoltage | src/Elevator.hh:64 | the voltage becomes the input and the state advances one step under it |
| ElevatorSimulation.GravityCompensatedStep | src/Elevator.cc:87-100 | under OpposingGravity a step is the clamp of Ad·x alone |
| ElevatorSimulation.OpposingGravityHoldsAtRest | src/Elevator.cc:35-37 | at rest the opposing-gravity voltage produces exactly −g |
| ElevatorSimulation.SaturateIdempotent | src/Elevator.hh:56-59 | Saturate is idempotent |
| Trajectories.TrapezoidTrajectory.Calculate | common/src/trajectory.cc:5-68 | mirror a goal behind the start, run Forward, mirror back; CalculateIsOdd, CalculateFlipsBackwardMotion and GoalHeldAfterPhases state what it returns (likewise calculate in sim/main.cc:21-81) |
| Trajectories.TrapezoidTrajectory.Forward | common/src/trajectory.cc:15-61 | the forward-frame algorithm: cap the start velocity, plan the phases, evaluate at t; StartsAtStart, CruiseMeetsDeceleration and DecelerationEndsAtGoal state its continuity |
| Trajectories.TrapezoidTrajectory.Evaluate | common/src/trajectory.cc:39-61 | the four phases: ramp from the start, cruise at the maximum velocity, ramp into the goal, then hold the goal (EvaluateAfterPhases, StartsAtStart, DecelerationEndsAtGoal, CruiseMeetsDeceleration) |
| Trajectories.TrapezoidTrajectory.CapVelocity | common/src/trajectory.cc:15-17 | a start above the maximum velocity is set to it; anything else, including velocities below −maximum, is unchanged (likewise in sim/main.cc) |
| Trajectories.TrapezoidTrajectory.Plan | common/src/trajectory.cc:31-34 | the cruise distance is never negative |
| Trajectories.CalculateIsOdd | common/src/trajectory.cc:9-13 | for distinct start and goal positions, negating both negates the result |
| Trajectories.CalculateFlipsBackwardMotion | common/src/trajectory.cc:63-65 | for a goal behind the start, Calculate(t, s, g) = −Calculate(t, −s, −g) (likewise in sim/main.cc) |
| Trajectories.EvaluateAfterPhases | common/src/trajectory.cc:59-61 | once every phase is over the result is the goal |
| Trajectories.GoalHeldAfterPhases | common/src/trajectory.cc:59-65 | after the phases, Calculate returns exactly the original goal in either direction (likewise in sim/main.cc) |
| Trajectories.CruiseFollowsAcceleration | common/src/trajectory.cc:35-36 | with a positive maximum velocity the cruise never ends before the acceleration |
| Trajectories.FallbackArgumentNonNegative | common/src/trajectory.cc:19-32 | after the flip the distance is non-negative, so the square root's argument is too (likewise in sim/main.cc) |
| Trajectories.TriangularProfile | common/src/trajectory.cc:31-36 | a negative cruise distance gives cruise 0, endCruise = endAcceleration and acceleration time sqrt(distance/a) (likewise in sim/main.cc) |
| Trajectories.TriangularPeakReportsMaximumVelocity | common/src/trajectory.cc:46-52 | in the triangular case t = endAcceleration reports the maximum velocity, while the acceleration phase only approaches a strictly smaller peak |
| Trajectories.AccelerationBelowMaximum | common/src/trajectory.cc:41-45 | in a full trapezoid the acceleration phase stays below the maximum velocity and ends exactly on it |
| Trajectories.StartsAtStart | common/src/trajectory.cc:41-45 | at t = 0 inside the acceleration phase the result is the start state |
| Trajectories.DecelerationEndsAtGoal | common/src/trajectory.cc:53-58 | at t = endDeceleration the deceleration formula gives exactly the goal |
| Trajectories.CruiseMeetsDeceleration | common/src/trajectory.cc:46-58 | in a full trapezoid the cruise and deceleration formulas agree at endCruise, in position and velocity |
| Trajectories.TriangularPositionContinuous | common/src/trajectory.cc:41-58 | in a triangular profile with a true square root the position is continuous where acceleration turns into deceleration |
| ControlLoop.SimElevator | sim/main.cc:84-92 | two Kraken X60 FOC motors, ratio 5, 1.273 in drum, 30 lb, 120 A: a physical elevator |
| ControlLoop.GoalAt | sim/main.cc:129-134 | the goal is at rest, at the top or at the bottom |
| ControlLoop.GoalRepeats | sim/main.cc:129-134 | the goal schedule repeats every 6 s |
| ControlLoop.GoalSchedule | sim/main.cc:129-134 | the top for the first 3 s of a period, the bottom for the rest |
| ControlLoop.Command | sim/main.cc:138-140 | K·(reference − state) plus the gravity-holding input; CommandOnReference and CommandFollowsPositionError state its two terms |
| ControlLoop.CommandOnReference | sim/main.cc:138-140 | on the reference only the gravity-holding input is commanded |
| ControlLoop.CommandFollowsPositionError | sim/main.cc:109-115 | one more metre of position error adds kP = 191.2215 V |
| ControlLoop.TrajectoryFor | sim/main.cc:118-119 | the loop's profile: vmax 4 m/s and amax = MaximumAccelerationUnsaturated, the src/Elevator.cc version that sim::Elevator links against; both non-zero |
| ControlLoop.ClosedLoop.constructor | sim/main.cc:102-120 | simulator at rest, reference = simulator state, first goal at the top, the profile of TrajectoryFor (amax from the non-clamping src/Elevator.cc:18-22), step 2.5 ms, g = −9.81 |
| ControlLoop.ClosedLoop.AppliedInput | sim/main.cc:138-141 | the input set on the simulator is LimitVoltage at the present velocity of Command for the new reference, and draws at most maxCurrent |
| ControlLoop.ClosedLoop.Tick | sim/main.cc:128-153 | goal by schedule, reference one step along the profile, applied input = limited K·(reference − state) + OpposingGravity drawing at most maxCurrent, one simulator step, clock + 2.5 ms |
| ServerLoop.ServerElevator | apps/server/main.cc:15-19 | two Kraken X60 motors, ratio 5, 1.273 in drum, 30 lb, 120 A: a physical elevator |
| ServerLoop.SetpointAt | apps/server/main.cc:35-44 | the setpoint is 0, 1.25 m or the total travel |
| ServerLoop.SetpointRepeats | apps/server/main.cc:37 | the setpoint schedule repeats every 6 s |
| ServerLoop.SetpointSchedule | apps/server/main.cc:35-44 | 0 up to and including 2 s, 1.25 m from 4 s on, the total travel strictly between |
| ServerLoop.VoltageCommand | apps/server/main.cc:46-48 | kP·(setpoint − position) plus the gravity-holding voltage; CommandAtSetpoint and CommandPushesTowardSetpoint state its behaviour |
| ServerLoop.CommandAtSetpoint | apps/server/main.cc:46-48 | at the setpoint only the gravity-holding voltage is commanded |
| ServerLoop.CommandPushesTowardSetpoint | apps/server/main.cc:46-48 | below the setpoint the command exceeds the holding voltage, above it falls short |
| ServerLoop.Server.constructor | apps/server/main.cc:27-30 | simulator at rest, step 1 ms, g = −9.81, clock 0 |
| ServerLoop.Server.LimitedCommand | apps/server/main.cc:46-49 | CurrentLimit of the command for the scheduled setpoint at the present position; it draws at most maxCurrent at the present velocity |
| ServerLoop.Server.Tick | apps/server/main.cc:34-53 | the voltage passed to Update is CurrentLimit of kP·(setpoint − position) + OpposingGravity and draws at most maxCurrent; clock + 1 ms |
| Points.Map | points/main.cc:31-34 | the result lies on the line through (inMin, outMin) and (inMax, outMax): (y − outMin)·(inMax − inMin) = (x − inMin)·(outMax − outMin) |
| Points.MapEndpoints | points/main.cc:31-34 | map sends inMin to outMin and inMax to outMax |
| Points.MapIsAffine | points/main.cc:31-34 | map preserves weighted means |
| Points.MapIncreasing | points/main.cc:31-34 | with both intervals increasing, map is strictly increasing |
| Points.MapWithin | points/main.cc:31-34 | on the input interval map stays in [outMin, outMax]; it is outMin exactly at inMin and outMax exactly at inMax, strictly inside otherwise |
| Points.Hue | points/main.cc:36-42 | negative voltages give hues in [180, 210), −12 V and below 180; the others [0, 30], 12 V and above 30 |
| Points.HueOrdersNegativeVoltages | points/main.cc:36-38 | between −12 V and 0 V a lower voltage gives a lower hue |
| Points.Pushed | points/main.cc:53-61 | the deque after push; PushKeepsBound, PushAppendsInOrder and PushBelowCapacityKeepsAll state its contents |
| Points.PushKeepsBound | points/main.cc:53-61 | push keeps size ≤ capacity: a full buffer stays full, any other grows by one |
| Points.PushAppendsInOrder | points/main.cc:56-60 | after push the new point is last and the retained points are the old ones in order, minus at most the oldest |
| Points.PushBelowCapacityKeepsAll | points/main.cc:53-60 | below capacity no element is dropped |
| Points.PointBuffer.Push | points/main.cc:53-61 | pop_front when full, then push_back; the capacity bound is preserved |
| Points.TickIndex | points/main.cc:91 | the stamp lies in [0, capacity) and equals the tick before the first wrap |
| Points.TickIndexSteps | points/main.cc:91 | consecutive frames get consecutive stamps, except at the wrap where the stamp returns to 0 |
| Points.Viewer.Receive | points/main.cc:88-93 | the sample is stamped with tick mod capacity and pushed; the tick counter advances by one |
| Points.Joined | points/main.cc:122-126 | a pair is drawn when the later stamp is exactly one more |
| Points.ConsecutiveFramesJoined | points/main.cc:88-126 | samples stamped on consecutive frames are joined exactly when the earlier stamp is not the last before the wrap |
| Points.DrawnSegments | points/main.cc:119-126 | exactly the neighbouring pairs whose stamps differ by 1 are drawn, in order |
| Points.WrapAroundNotJoined | points/main.cc:119-126 | the pair across a wrap (stamps 1999 then 0) is never drawn |

## Left out

- The matrix exponential has no closed form here. `Discretize` takes it as a parameter, and every simulator property holds whatever it returns.
- The square root of the triangular fallback is a parameter. The lemmas that need a true square root assume it only at the one argument they use.
- IEEE double behaviour: rounding, NaN and infinities are not modelled. The ±∞ position bounds of `AffineSystemSim` are the `Unbounded` bound.
- Fixed dimensions: the model is written for 2 states and 1 input. The template shape checks (States > Inputs) and the `Dimension` constants are therefore not modelled separately.
- The `au` unit library is not modelled: quantities are plain SI reals. The `MotorSystem` C++ concepts become the `MotorSystem` datatype over an elevator or an arm.
- Value-semantics setters: `SetPosition`, `SetVelocity`, `SetVoltage`, `operator=` and `+=` mutate a struct's vector in place. Since the structs are copied by value, they are modelled as functions returning the updated value.
- ElevatorSimulation.ElevatorSim.UpdateWithVoltage: the body of `Update(voltage)` in src/Elevator.hh is not in the repository. It is modelled as setting the input and then running `Update`.
- The `ElevatorSim` of src/Elevator.hh and the `sim::ElevatorSim` of common/include/Elevator.hh / src/Elevator.cc are one class here. It offers both the field interface (`state`, `input`, `CurrentLimited`) and the accessor interface (`Position`, `SetPosition`, `Saturate`, `CurrentLimit`).
- Division by zero: drum radius, mass, R, Kv, maximum velocity and maximum acceleration are never checked in the source. They are preconditions here.
- Networking, publishing, CSV output and real-time pacing in sim/main.cc and apps/server/main.cc are not modelled. The loops are one `Tick` each. The infinite `while (true)` is not modelled, since the model is the body.
- Rendering, the camera, and the float conversion in `Point::Position` are not modelled. The segment loop's geometry is left out too: only which pairs are drawn is modelled.
- Points.PointBuffer.Push: the source pops from an empty deque when the capacity is 0, which is undefined behaviour. The model requires a non-empty buffer whenever it is full.
- Points.DrawnSegments: the source loop takes `std::next` of `cbegin()` and is undefined on an empty deque. It only runs right after a push. The model returns no segments for an empty sequence.
- Points.Viewer.Receive: the frame counter is an `int` that would overflow after 2³¹ frames. The model uses an unbounded natural number.
- Geometry constants (common/include/robot.hh, apps/robot.hh): the total travel is a parameter.
- src/main.cc and src/Eigen.cc are earlier drafts and are not part of this model. src/main.cc calls an `ElevatorConstants` type and `limited_voltage` / `update` members that src/Elevator.hh does not declare. src/Eigen.cc names the alias templates `SystemMatrix` and `InputMatrix` of src/Eigen.hh:12,17 outside namespace `sim` and without template arguments, and copies a 2×2 input block into a 4×4 matrix. The model's `Discretize` follows the templated versions in src/Eigen.hh and common/include/Eigen.hh.
- Gain synthesis: LQR appears only as a TODO, so K is the constant [191.2215, 4.811].
