/** The trapezoidal motion profile (common/src/trajectory.cc, with the fields
    of common/include/trajectory.hh; sim/main.cc's calculate is the same
    algorithm with the limits passed as arguments). Motion is planned for a
    goal ahead of the start: a goal behind is handled by negating both
    states, planning, and negating the result. The plan accelerates at the
    maximum rate to the maximum velocity, cruises, and decelerates onto the
    goal; when the distance is too short to reach the maximum velocity the
    acceleration time comes from a square root instead (a triangular
    profile). The square root is a parameter; lemmas that need it to be one
    say so for the argument they use. The source has no guard against a zero
    maximum velocity or acceleration, so both are preconditions here. */
module Trajectories {

  import opened Numeric
  import opened Matrices
  import opened States

  /** The times and distances one plan is built from, in the frame where
      the goal lies ahead. */
  datatype Profile = Profile(startTime: real, endTime: real, distance: real,
                             accelerationTime: real, cruiseDistance: real,
                             endAcceleration: real, endCruise: real, endDeceleration: real,
                             triangular: bool)

  datatype TrapezoidTrajectory = TrapezoidTrajectory(maxVelocity: real, maxAcceleration: real)
  {
    predicate Defined()
    {
      maxVelocity != 0.0 && maxAcceleration != 0.0
    }

    /** Calculate: the reference state time t after the start. */
    function Calculate(t: real, state: State, goal: State, sqrt: real -> real): State
      requires Defined()
    {
      if goal.Position() < state.Position() then
        Forward(t, state.Negated(), goal.Negated(), sqrt).Negated()
      else
        Forward(t, state, goal, sqrt)
    }

    /** The algorithm in the frame where the goal lies ahead. */
    function Forward(t: real, state: State, goal: State, sqrt: real -> real): State
      requires Defined()
    {
      var start := CapVelocity(state);
      Evaluate(t, start, goal, Plan(start, goal, sqrt))
    }

    /** The plan in the frame Calculate uses for this start and goal. */
    function FramePlan(state: State, goal: State, sqrt: real -> real): Profile
      requires Defined()
    {
      if goal.Position() < state.Position() then
        Plan(CapVelocity(state.Negated()), goal.Negated(), sqrt)
      else
        Plan(CapVelocity(state), goal, sqrt)
    }

    /** A start faster than the maximum velocity is slowed to it; no other
        start changes, so a start below −maxVelocity is not raised. */
    function CapVelocity(s: State): (c: State)
      ensures c.Position() == s.Position()
      ensures c.Velocity() <= maxVelocity
      ensures s.Velocity() <= maxVelocity ==> c == s
      ensures s.Velocity() > maxVelocity ==> c.Velocity() == maxVelocity
    {
      if s.Velocity() > maxVelocity then s.SetVelocity(maxVelocity) else s
    }

    /** The phase boundaries. The distance counts the start and end
        velocities as the distance ramps from and to rest would cover. */
    function Plan(s: State, g: State, sqrt: real -> real): (p: Profile)
      requires Defined()
      ensures p.cruiseDistance >= 0.0
    {
      var a := maxAcceleration;
      var startTime := s.Velocity() / a;
      var startDistance := 0.5 * startTime * startTime * a;
      var endTime := g.Velocity() / a;
      var endDistance := 0.5 * endTime * endTime * a;
      var distance := startDistance + (g.Position() - s.Position()) + endDistance;
      var fullAccelerationTime := maxVelocity / a;
      var fullCruiseDistance := distance - (fullAccelerationTime * fullAccelerationTime * a);
      var triangular := fullCruiseDistance < 0.0;
      var accelerationTime := if triangular then sqrt(distance / a) else fullAccelerationTime;
      var cruiseDistance := if triangular then 0.0 else fullCruiseDistance;
      var endAcceleration := accelerationTime - startTime;
      var endCruise := endAcceleration + cruiseDistance / maxVelocity;
      var endDeceleration := endCruise + accelerationTime - endTime;
      Profile(startTime, endTime, distance, accelerationTime, cruiseDistance,
              endAcceleration, endCruise, endDeceleration, triangular)
    }

    /** The reference at time t: accelerate, cruise, decelerate, or hold the goal. */
    function Evaluate(t: real, s: State, g: State, p: Profile): State
    {
      var a := maxAcceleration;
      if t < p.endAcceleration then
        NewState(s.Position() + (s.Velocity() + 0.5 * t * a) * t, s.Velocity() + t * a)
      else if t <= p.endCruise then
        NewState(s.Position() + (s.Velocity() + 0.5 * p.endAcceleration * a) * p.endAcceleration
                 + maxVelocity * (t - p.endAcceleration),
                 maxVelocity)
      else if t <= p.endDeceleration then
        var timeLeft := p.endDeceleration - t;
        NewState(g.Position() - timeLeft * (g.Velocity() + 0.5 * timeLeft * a),
                 g.Velocity() + timeLeft * a)
      else
        g
    }
  }

  lemma NegatedTwice(s: State)
    ensures s.Negated().Negated() == s
  {
  }

  /** Planning is odd in the states: negating start and goal negates the
      reference, whenever start and goal positions differ. */
  lemma {:induction false} CalculateIsOdd(tr: TrapezoidTrajectory, t: real, s: State, g: State, sqrt: real -> real)
    requires tr.Defined() && g.Position() != s.Position()
    ensures tr.Calculate(t, s.Negated(), g.Negated(), sqrt) == tr.Calculate(t, s, g, sqrt).Negated()
  {
    NegatedTwice(s);
    NegatedTwice(g);
    NegatedTwice(tr.Forward(t, s.Negated(), g.Negated(), sqrt));
  }

  /** A goal behind the start is planned as the mirrored motion. */
  lemma {:induction false} CalculateFlipsBackwardMotion(tr: TrapezoidTrajectory, t: real, s: State, g: State, sqrt: real -> real)
    requires tr.Defined() && g.Position() < s.Position()
    ensures tr.Calculate(t, s, g, sqrt) == tr.Calculate(t, s.Negated(), g.Negated(), sqrt).Negated()
  {
    CalculateIsOdd(tr, t, s, g, sqrt);
    NegatedTwice(tr.Calculate(t, s, g, sqrt));
  }

  /** Once every phase is over the reference is exactly the goal. */
  lemma {:induction false} EvaluateAfterPhases(tr: TrapezoidTrajectory, t: real, s: State, g: State, p: Profile)
    requires t >= p.endAcceleration && t > p.endCruise && t > p.endDeceleration
    ensures tr.Evaluate(t, s, g, p) == g
  {
  }

  /** After its phases end, Calculate holds the goal exactly, in either
      direction of motion. */
  lemma {:induction false} GoalHeldAfterPhases(tr: TrapezoidTrajectory, t: real, s: State, g: State, sqrt: real -> real)
    requires tr.Defined()
    requires t >= tr.FramePlan(s, g, sqrt).endAcceleration
    requires t > tr.FramePlan(s, g, sqrt).endCruise && t > tr.FramePlan(s, g, sqrt).endDeceleration
    ensures tr.Calculate(t, s, g, sqrt) == g
  {
    var p := tr.FramePlan(s, g, sqrt);
    if g.Position() < s.Position() {
      EvaluateAfterPhases(tr, t, tr.CapVelocity(s.Negated()), g.Negated(), p);
      NegatedTwice(g);
    } else {
      EvaluateAfterPhases(tr, t, tr.CapVelocity(s), g, p);
    }
  }

  /** With a positive maximum velocity the cruise never ends before the
      acceleration does. */
  lemma {:induction false} CruiseFollowsAcceleration(tr: TrapezoidTrajectory, s: State, g: State, sqrt: real -> real)
    requires tr.maxVelocity > 0.0 && tr.maxAcceleration != 0.0
    ensures tr.Plan(s, g, sqrt).endAcceleration <= tr.Plan(s, g, sqrt).endCruise
  {
    var p := tr.Plan(s, g, sqrt);
    if p.cruiseDistance > 0.0 {
      QuotientSign(p.cruiseDistance, tr.maxVelocity);
    }
  }

  /** The square root's argument is never negative: after the flip the goal
      lies ahead, and the ramp distances are non-negative for a positive
      acceleration. */
  lemma {:induction false} FallbackArgumentNonNegative(tr: TrapezoidTrajectory, s: State, g: State, sqrt: real -> real)
    requires tr.Defined() && tr.maxAcceleration > 0.0
    ensures tr.FramePlan(s, g, sqrt).distance >= 0.0
    ensures tr.FramePlan(s, g, sqrt).distance / tr.maxAcceleration >= 0.0
  {
    var a := tr.maxAcceleration;
    var start := if g.Position() < s.Position() then tr.CapVelocity(s.Negated()) else tr.CapVelocity(s);
    var goal := if g.Position() < s.Position() then g.Negated() else g;
    assert goal.Position() >= start.Position();
    RampDistanceNonNegative(start.Velocity(), a);
    RampDistanceNonNegative(goal.Velocity(), a);
    var d := tr.FramePlan(s, g, sqrt).distance;
    assert d >= 0.0;
    if d > 0.0 {
      assert d / a > 0.0;
    }
  }

  lemma RampDistanceNonNegative(v: real, a: real)
    requires a > 0.0
    ensures 0.5 * (v / a) * (v / a) * a >= 0.0
  {
    var x := v / a;
    assert x * x >= 0.0;
    assert 0.5 * x * x * a == 0.5 * (x * x) * a;
  }

  /** When the maximum velocity cannot be reached the cruise shrinks to
      nothing: the cruise phase is empty and the acceleration time is the
      square root of distance over acceleration. */
  lemma {:induction false} TriangularProfile(tr: TrapezoidTrajectory, s: State, g: State, sqrt: real -> real)
    requires tr.Defined()
    requires tr.Plan(s, g, sqrt).triangular
    ensures tr.Plan(s, g, sqrt).cruiseDistance == 0.0
    ensures tr.Plan(s, g, sqrt).endCruise == tr.Plan(s, g, sqrt).endAcceleration
    ensures tr.Plan(s, g, sqrt).accelerationTime == sqrt(tr.Plan(s, g, sqrt).distance / tr.maxAcceleration)
  {
    var p := tr.Plan(s, g, sqrt);
    assert 0.0 / tr.maxVelocity == 0.0;
  }

  /** At the boundary of a triangular profile the reference jumps to the
      maximum velocity, although the acceleration phase only approaches
      start velocity + a·endAcceleration, which lies strictly below it. */
  lemma {:induction false} TriangularPeakReportsMaximumVelocity(tr: TrapezoidTrajectory, s: State, g: State, sqrt: real -> real)
    requires tr.maxVelocity > 0.0 && tr.maxAcceleration > 0.0
    requires g.Position() >= s.Position()
    requires tr.Plan(s, g, sqrt).triangular
    requires sqrt(tr.Plan(s, g, sqrt).distance / tr.maxAcceleration) >= 0.0
    requires sqrt(tr.Plan(s, g, sqrt).distance / tr.maxAcceleration)
             * sqrt(tr.Plan(s, g, sqrt).distance / tr.maxAcceleration)
             == tr.Plan(s, g, sqrt).distance / tr.maxAcceleration
    ensures tr.Evaluate(tr.Plan(s, g, sqrt).endAcceleration, s, g, tr.Plan(s, g, sqrt)).Velocity() == tr.maxVelocity
    ensures s.Velocity() + tr.maxAcceleration * tr.Plan(s, g, sqrt).endAcceleration < tr.maxVelocity
  {
    var p := tr.Plan(s, g, sqrt);
    var a := tr.maxAcceleration;
    var vmax := tr.maxVelocity;
    TriangularProfile(tr, s, g, sqrt);
    var r := p.accelerationTime;
    var full := vmax / a;
    assert p.distance - full * full * a < 0.0;
    assert r * r == p.distance / a;
    BelowFullAccelerationTime(p.distance, a, full, r);
    assert s.Velocity() + a * p.endAcceleration == a * r by {
      assert p.startTime * a == s.Velocity();
      assert a * p.endAcceleration == a * r - a * p.startTime;
    }
    ScaledBelow(r, full, a);
    assert a * full == vmax;
  }

  lemma BelowFullAccelerationTime(d: real, a: real, full: real, r: real)
    requires a > 0.0 && full > 0.0 && r >= 0.0
    requires d - full * full * a < 0.0 && r * r == d / a
    ensures r < full
  {
    assert (r * r) * a == d;
    CancelLess(full * full, r * r, a);
    assert r * (full + r) < full * (full + r);
    CancelLess(full, r, full + r);
  }

  lemma ScaledBelow(r: real, full: real, a: real)
    requires r < full && a > 0.0
    ensures a * r < a * full
  {
    assert a * (full - r) > 0.0;
  }

  /** In a full trapezoid the acceleration phase stays below the maximum
      velocity, which it reaches exactly when the phase ends. */
  lemma {:induction false} AccelerationBelowMaximum(tr: TrapezoidTrajectory, t: real, s: State, g: State, sqrt: real -> real)
    requires tr.maxVelocity > 0.0 && tr.maxAcceleration > 0.0
    requires !tr.Plan(s, g, sqrt).triangular && t < tr.Plan(s, g, sqrt).endAcceleration
    ensures tr.Evaluate(t, s, g, tr.Plan(s, g, sqrt)).Velocity() < tr.maxVelocity
    ensures s.Velocity() + tr.Plan(s, g, sqrt).endAcceleration * tr.maxAcceleration == tr.maxVelocity
  {
    var p := tr.Plan(s, g, sqrt);
    var a := tr.maxAcceleration;
    assert p.endAcceleration * a == tr.maxVelocity - s.Velocity();
    ScaledBelow(t, p.endAcceleration, a);
  }

  /** The reference starts at the (capped) start state. */
  lemma {:induction false} StartsAtStart(tr: TrapezoidTrajectory, s: State, g: State, p: Profile)
    requires p.endAcceleration > 0.0
    ensures tr.Evaluate(0.0, s, g, p) == s
  {
    StateRoundTrip(s);
  }

  /** The deceleration phase ends exactly on the goal. */
  lemma {:induction false} DecelerationEndsAtGoal(tr: TrapezoidTrajectory, s: State, g: State, p: Profile)
    requires p.endAcceleration <= p.endCruise < p.endDeceleration
    ensures tr.Evaluate(p.endDeceleration, s, g, p) == g
  {
    StateRoundTrip(g);
  }

  /** In a full trapezoid the cruise and deceleration formulas meet: at the
      end of the cruise both give the same position and the maximum
      velocity, so the reference is continuous there. */
  lemma {:induction false} CruiseMeetsDeceleration(tr: TrapezoidTrajectory, s: State, g: State, sqrt: real -> real)
    requires tr.maxVelocity > 0.0 && tr.maxAcceleration != 0.0 && !tr.Plan(s, g, sqrt).triangular
    ensures tr.Plan(s, g, sqrt).endCruise <= tr.Plan(s, g, sqrt).endDeceleration
            ==> tr.Evaluate(tr.Plan(s, g, sqrt).endCruise, s, g, tr.Plan(s, g, sqrt)) == DecelerationAt(tr, g, tr.Plan(s, g, sqrt), tr.Plan(s, g, sqrt).endCruise)
  {
    var p := tr.Plan(s, g, sqrt);
    var a := tr.maxAcceleration;
    var v := tr.maxVelocity;
    CruiseFollowsAcceleration(tr, s, g, sqrt);
    CruiseEndPosition(s.Position(), s.Velocity(), g.Position(), g.Velocity(), a, v,
                      p.startTime, p.endTime, p.distance, p.accelerationTime, p.cruiseDistance,
                      p.endAcceleration, p.endCruise, p.endDeceleration);
  }

  /** The deceleration formula at time t. */
  function DecelerationAt(tr: TrapezoidTrajectory, g: State, p: Profile, t: real): State
  {
    var timeLeft := p.endDeceleration - t;
    NewState(g.Position() - timeLeft * (g.Velocity() + 0.5 * timeLeft * tr.maxAcceleration),
             g.Velocity() + timeLeft * tr.maxAcceleration)
  }

  lemma CruiseEndPosition(sp: real, sv: real, gp: real, gv: real, a: real, v: real,
                          ts: real, te: real, d: real, at: real, c: real,
                          ea: real, ec: real, ed: real)
    requires a != 0.0 && v != 0.0
    requires ts == sv / a && te == gv / a
    requires d == 0.5 * ts * ts * a + (gp - sp) + 0.5 * te * te * a
    requires at == v / a && c == d - at * at * a
    requires ea == at - ts && ec == ea + c / v && ed == ec + at - te
    ensures sp + (sv + 0.5 * ea * a) * ea + v * (ec - ea)
            == gp - (ed - ec) * (gv + 0.5 * (ed - ec) * a)
    ensures v == gv + (ed - ec) * a
  {
    assert ed - ec == at - te;
    assert a * at == v && a * ts == sv && a * te == gv;
    assert v * (ec - ea) == c;
    assert (sv + 0.5 * ea * a) * ea == 0.5 * (v + sv) * ea;
    assert ea * a == v - sv;
    assert (at - te) * a == v - gv;
    assert 0.5 * (v + sv) * ea * a == 0.5 * (v * v - sv * sv);
    assert 0.5 * ts * ts * a * a == 0.5 * sv * sv;
    assert 0.5 * te * te * a * a == 0.5 * gv * gv;
    assert at * at * a * a == v * v;
    assert (gv + 0.5 * (at - te) * a) * (at - te) * a == 0.5 * (v * v - gv * gv);
  }
  /** In a triangular profile (with a true square root) the position is still
      continuous where acceleration turns into deceleration; only the
      velocity jumps, to the maximum velocity. */
  lemma {:induction false} TriangularPositionContinuous(tr: TrapezoidTrajectory, s: State, g: State, sqrt: real -> real)
    requires tr.maxVelocity > 0.0 && tr.maxAcceleration != 0.0
    requires tr.Plan(s, g, sqrt).triangular
    requires sqrt(tr.Plan(s, g, sqrt).distance / tr.maxAcceleration)
             * sqrt(tr.Plan(s, g, sqrt).distance / tr.maxAcceleration)
             == tr.Plan(s, g, sqrt).distance / tr.maxAcceleration
    ensures tr.Evaluate(tr.Plan(s, g, sqrt).endCruise, s, g, tr.Plan(s, g, sqrt)).Position()
            == DecelerationAt(tr, g, tr.Plan(s, g, sqrt), tr.Plan(s, g, sqrt).endCruise).Position()
  {
    var p := tr.Plan(s, g, sqrt);
    TriangularProfile(tr, s, g, sqrt);
    TriangularPeakPosition(s.Position(), s.Velocity(), g.Position(), g.Velocity(), tr.maxAcceleration,
                           p.startTime, p.endTime, p.distance, p.accelerationTime,
                           p.endAcceleration, p.endDeceleration);
  }

  lemma TriangularPeakPosition(sp: real, sv: real, gp: real, gv: real, a: real,
                               ts: real, te: real, d: real, r: real, ea: real, ed: real)
    requires a != 0.0
    requires ts == sv / a && te == gv / a
    requires d == 0.5 * ts * ts * a + (gp - sp) + 0.5 * te * te * a
    requires r * r == d / a && ea == r - ts && ed == ea + r - te
    ensures sp + (sv + 0.5 * ea * a) * ea == gp - (ed - ea) * (gv + 0.5 * (ed - ea) * a)
  {
    assert ed - ea == r - te;
    assert a * ts == sv && a * te == gv;
    assert r * r * a == d;
    assert 0.5 * ts * ts * a * a == 0.5 * sv * sv;
    assert 0.5 * te * te * a * a == 0.5 * gv * gv;
    assert (sv + 0.5 * ea * a) * ea * a == 0.5 * (r * r * a * a - sv * sv);
    assert (gv + 0.5 * (r - te) * a) * (r - te) * a == 0.5 * (r * r * a * a - gv * gv);
    Cancel((sv + 0.5 * ea * a) * ea, (gp - sp) - (gv + 0.5 * (r - te) * a) * (r - te), a);
  }
}
