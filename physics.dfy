/** Per-vehicle logic of the reducer: kinematic parameters at spawn,
    validation, the stop-line and junction overrides of the car-following
    acceleration, and the speed/status/wait-time update. The car-following
    acceleration itself, the leader search and the trigonometry are inputs. */
module Physics {
  import opened Base
  import opened Constants
  import opened Model
  import opened Layout

  /** What the car-following model sees of an obstacle ahead. */
  datatype Gap = Gap(leaderSpeed: real, distancePx: real)

  /** The leader found among nearby vehicles, with its distance in pixels. */
  datatype Leader = Leader(vehicle: Vehicle, distancePx: real)

  /** The floating-point collaborators of a tick, taken as given functions:
      `heading` is atan2 from a position towards a waypoint, `displacement`
      turns a heading and a distance into (cos, sin) offsets, `findLeader`
      picks the leader among candidate vehicles, and `idm` is the
      Intelligent Driver Model acceleration against an optional gap. */
  datatype Env = Env(
    heading: (Point, Point) -> real,
    displacement: (real, real) -> Point,
    findLeader: (Vehicle, seq<Vehicle>) -> Option<Leader>,
    idm: (Vehicle, Option<Gap>) -> real
  )

  /** The leader search only ever returns one of the candidates it was given. */
  ghost predicate LeaderAmongCandidates(env: Env) {
    forall v, ns :: env.findLeader(v, ns).Some? ==> env.findLeader(v, ns).value.vehicle in ns
  }

  // ---------------------------------------------------------------- spawn-time parameters

  datatype VehicleConfig = VehicleConfig(
    length: real, accelerationBase: real, accelerationRange: real,
    brakingBase: real, brakingRange: real, speedMultiplier: real)

  function ConfigOf(t: VehicleType): VehicleConfig {
    match t
    case Motorcycle => VehicleConfig(MOTO_LENGTH_M, 3.0, 1.0, 4.0, 1.0, 1.0)
    case Car => VehicleConfig(CAR_LENGTH_M, 2.0, 1.5, 3.0, 2.0, 1.0)
  }

  datatype Kinematics = Kinematics(aggression: real, maxSpeed: real, acceleration: real, braking: real)

  /** createVehiclePhysics: aggression scales top speed by +-10 % around the
      speed limit and raises acceleration and braking within the class range. */
  function CreateVehiclePhysics(t: VehicleType, aggression: real): (k: Kinematics)
    ensures k.aggression == aggression
  {
    var c := ConfigOf(t);
    Kinematics(
      aggression,
      MAX_SPEED_MPS * (1.0 + (aggression - 0.5) * 0.2) * c.speedMultiplier,
      c.accelerationBase + aggression * c.accelerationRange,
      c.brakingBase + aggression * c.brakingRange)
  }

  /** For an aggression drawn from [0, 1): top speed within 10 % of the
      limit, acceleration and braking within the class's ranges (so braking
      is positive), and motorcycles accelerate and brake harder than cars. */
  lemma KinematicsBounds(t: VehicleType, aggression: real)
    requires 0.0 <= aggression < 1.0
    ensures var k := CreateVehiclePhysics(t, aggression); var c := ConfigOf(t);
      && 0.9 * MAX_SPEED_MPS <= k.maxSpeed < 1.1 * MAX_SPEED_MPS
      && c.accelerationBase <= k.acceleration < c.accelerationBase + c.accelerationRange
      && c.brakingBase <= k.braking < c.brakingBase + c.brakingRange
      && k.braking >= 3.0 && k.maxSpeed > 0.0
    ensures CreateVehiclePhysics(Motorcycle, aggression).braking > CreateVehiclePhysics(Car, aggression).braking
    ensures CreateVehiclePhysics(Motorcycle, aggression).acceleration > CreateVehiclePhysics(Car, aggression).acceleration
  {
  }

  /** A more aggressive driver of the same class is faster, accelerates harder and brakes harder. */
  lemma KinematicsMonotone(t: VehicleType, a1: real, a2: real)
    requires a1 <= a2
    ensures var k1 := CreateVehiclePhysics(t, a1); var k2 := CreateVehiclePhysics(t, a2);
      k1.maxSpeed <= k2.maxSpeed && k1.acceleration <= k2.acceleration && k1.braking <= k2.braking
  {
    var c := ConfigOf(t);
    assert c.accelerationRange >= 0.0 && c.brakingRange >= 0.0;
    assert a1 * c.accelerationRange <= a2 * c.accelerationRange;
    assert a1 * c.brakingRange <= a2 * c.brakingRange;
  }

  // ---------------------------------------------------------------- validation

  /** validateVehicle: numeric coordinates and a speed in [0, 2 * speed limit]. */
  predicate IsValidVehicle(v: Vehicle) {
    HasCoords(v) && !(v.speed < 0.0 || v.speed > MAX_SPEED_MPS * 2.0)
  }

  // ---------------------------------------------------------------- stop lines and the junction

  /** `speed ** 2 / (2 * braking) > distance` with the source's division:
      with zero braking the quotient is infinite unless the speed is zero too. */
  predicate StoppingDistanceExceeds(speed: real, braking: real, distanceM: real) {
    if braking == 0.0 then speed != 0.0 else speed * speed / (2.0 * braking) > distanceM
  }

  /** The light-interaction zone: up to 100 m before the stop line and one car length past it. */
  predicate InInteractionZone(distancePx: real) {
    distancePx < 100.0 * PIXELS_PER_METER && distancePx > -(CAR_LENGTH_M * PIXELS_PER_METER)
  }

  /** shouldStopForRed: always on red, never on green; on yellow only a driver
      with aggression below 0.8 stops, and only when it cannot stop before the
      line or is within half a car length of it. */
  predicate ShouldStop(light: Color, v: Vehicle, distancePx: real) {
    match light
    case Red => true
    case Green => false
    case Yellow =>
      var distanceM := distancePx / PIXELS_PER_METER;
      (StoppingDistanceExceeds(v.speed, v.braking, distanceM) || distanceM < CAR_LENGTH_M / 2.0)
      && v.aggression < 0.8
  }

  /** As written, the aggression test guards both reasons to stop: a driver
      with aggression 0.8 or more never stops on yellow, not even at the line. */
  lemma AggressiveNeverStopsOnYellow(v: Vehicle, distancePx: real)
    requires v.aggression >= 0.8
    ensures !ShouldStop(Yellow, v, distancePx)
  {
  }

  /** A driver below the aggression threshold stops on yellow within half a car length of the line. */
  lemma CautiousStopsNearLine(v: Vehicle, distancePx: real)
    requires v.aggression < 0.8 && distancePx < CAR_LENGTH_M / 2.0 * PIXELS_PER_METER
    ensures ShouldStop(Yellow, v, distancePx)
  {
    assert distancePx / PIXELS_PER_METER < CAR_LENGTH_M / 2.0;
  }

  /** Farther out, with positive braking, a cautious driver stops on yellow
      exactly when its braking distance v^2 / 2b overshoots the line. */
  lemma YellowStopByBrakingDistance(v: Vehicle, distancePx: real)
    requires v.aggression < 0.8 && v.braking > 0.0
    requires distancePx >= CAR_LENGTH_M / 2.0 * PIXELS_PER_METER
    ensures ShouldStop(Yellow, v, distancePx) <==>
            v.speed * v.speed > 2.0 * v.braking * (distancePx / PIXELS_PER_METER)
  {
    var dm := distancePx / PIXELS_PER_METER;
    var b2 := 2.0 * v.braking;
    var q := v.speed * v.speed / b2;
    assert q * b2 == v.speed * v.speed;
    if q > dm {
      assert q * b2 > dm * b2;
    } else {
      assert q * b2 <= dm * b2;
    }
  }

  /** handleIntersectionAndLights: in the interaction zone a light that says
      stop puts a stopped virtual leader at the stop line (less a buffer);
      otherwise, inside the junction box, a turning vehicle above the turn
      limit brakes at full braking; otherwise the car-following value stands.
      A vehicle without numeric coordinates is in neither region. */
  function IntersectionAcceleration(v: Vehicle, acc: real, lights: Lights, env: Env): real {
    match (v.x, v.y)
    case (Num(x), Num(y)) =>
      var d := DistanceToStopLine(v.approach, x, y);
      if InInteractionZone(d) && ShouldStop(LightOf(lights, v.approach), v, d) then
        env.idm(v, Some(Gap(0.0, Max(0.0, d - STOP_LINE_BUFFER))))
      else if IsInIntersection(x, y) && v.destination != Straight && v.speed > TURN_SPEED_LIMIT_MPS then
        -v.braking
      else
        acc
    case _ => acc
  }

  predicate NeedsVirtualLeader(v: Vehicle, lights: Lights) {
    HasCoords(v) &&
    var d := DistanceToStopLine(v.approach, v.x.value, v.y.value);
    InInteractionZone(d) && ShouldStop(LightOf(lights, v.approach), v, d)
  }

  /** On red inside the zone the acceleration is the car-following response
      to a stopped obstacle at the stop line, whatever the manoeuvre. */
  lemma RedLightStopsAtLine(v: Vehicle, acc: real, lights: Lights, env: Env)
    requires HasCoords(v) && LightOf(lights, v.approach) == Red
    requires InInteractionZone(DistanceToStopLine(v.approach, v.x.value, v.y.value))
    ensures var d := DistanceToStopLine(v.approach, v.x.value, v.y.value);
      IntersectionAcceleration(v, acc, lights, env) == env.idm(v, Some(Gap(0.0, Max(0.0, d - STOP_LINE_BUFFER))))
  {
  }

  /** Without a virtual leader, a turning vehicle inside the box above the
      turn limit gets exactly minus its braking, overriding car-following. */
  lemma TurnSpeedOverride(v: Vehicle, acc: real, lights: Lights, env: Env)
    requires HasCoords(v) && !NeedsVirtualLeader(v, lights)
    requires IsInIntersection(v.x.value, v.y.value)
    requires v.destination != Straight && v.speed > TURN_SPEED_LIMIT_MPS
    ensures IntersectionAcceleration(v, acc, lights, env) == -v.braking
  {
  }

  /** An aggressive driver sees a yellow light exactly as a green one. */
  lemma AggressiveTreatsYellowAsGreen(v: Vehicle, acc: real, lights: Lights, env: Env)
    requires v.aggression >= 0.8 && LightOf(lights, v.approach) == Yellow
    ensures IntersectionAcceleration(v, acc, lights, env)
         == IntersectionAcceleration(v, acc, SetLight(lights, v.approach, Green), env)
  {
  }

  /** On green the controller never stops the vehicle: the result is the
      car-following value or, for a fast turn in the box, full braking. */
  lemma GreenNeverInjectsLeader(v: Vehicle, acc: real, lights: Lights, env: Env)
    requires LightOf(lights, v.approach) == Green
    ensures var r := IntersectionAcceleration(v, acc, lights, env);
      r == acc || (r == -v.braking && v.destination != Straight && v.speed > TURN_SPEED_LIMIT_MPS)
  {
  }

  // ---------------------------------------------------------------- integration step

  /** Distance to a leader below which the vehicle may not be faster than it. */
  const LEADER_CAP_DISTANCE_PX: real := IDM_MIN_SPACING_M * PIXELS_PER_METER * STOPPING_DISTANCE_MULTIPLIER
  /** Below this speed a vehicle counts as waiting. */
  const WAITING_SPEED: real := MIN_SPEED_MPS + 0.05
  /** Accelerations below this light the brake lamps. */
  const BRAKING_DISPLAY_THRESHOLD: real := -0.5

  function Shift(c: Coord, delta: real): Coord {
    match c
    case Num(r) => Num(r + delta)
    case NonNumeric => NonNumeric
  }

  function ClampSpeed(s: real, maxSpeed: real): real {
    Max(MIN_SPEED_MPS, Min(s, maxSpeed))
  }

  predicate LeaderTooClose(leader: Option<Leader>) {
    leader.Some? && leader.value.distancePx < LEADER_CAP_DISTANCE_PX
  }

  function LeaderCap(s: real, leader: Option<Leader>): real {
    if LeaderTooClose(leader) then Min(s, leader.value.vehicle.speed) else s
  }

  /** The offset `(cos(angle) * distance, sin(angle) * distance)`. */
  function Displace(env: Env, angle: real, distance: real): Point {
    env.displacement(angle, distance)
  }

  /** The position after moving at speed s for dt seconds along the heading;
      a vehicle that is not moving keeps its position. */
  function Moved(v: Vehicle, s: real, dt: real, env: Env): (Coord, Coord) {
    if s > MIN_SPEED_MPS then
      var d := Displace(env, v.angle, s * PIXELS_PER_METER * dt);
      (Shift(v.x, d.x), Shift(v.y, d.y))
    else (v.x, v.y)
  }

  /** updatePhysics as a function of the vehicle before the step. */
  function PhysicsStep(v: Vehicle, acc: real, dt: real, leader: Option<Leader>, env: Env): Vehicle {
    var s := LeaderCap(ClampSpeed(v.speed + acc * dt, v.maxSpeed), leader);
    var moved := Moved(v, s, dt, env);
    var waiting := s < WAITING_SPEED;
    v.(speed := s,
       x := moved.0,
       y := moved.1,
       status := if waiting then Waiting else Moving,
       waitTime := if waiting then v.waitTime + dt else v.waitTime,
       isBraking := acc < BRAKING_DISPLAY_THRESHOLD)
  }

  /** Speed after the step: clamped into [0, maxSpeed] (when maxSpeed is not
      negative); a close leader can only lower it, to at most the leader's speed. */
  lemma PhysicsSpeedBounds(v: Vehicle, acc: real, dt: real, leader: Option<Leader>, env: Env)
    ensures var r := PhysicsStep(v, acc, dt, leader, env); var clamped := ClampSpeed(v.speed + acc * dt, v.maxSpeed);
      && 0.0 <= clamped
      && (v.maxSpeed >= 0.0 ==> clamped <= v.maxSpeed)
      && r.speed <= clamped
      && (LeaderTooClose(leader) ==> r.speed <= leader.value.vehicle.speed)
      && (!LeaderTooClose(leader) ==> r.speed == clamped)
      && (leader.None? || leader.value.vehicle.speed >= 0.0 ==> r.speed >= 0.0)
  {
  }

  /** Status and wait time: waiting iff slower than 0.05 m/s; the wait grows
      by the tick length while waiting and is untouched while moving. A
      stopped vehicle does not move. */
  lemma PhysicsStatusAndWait(v: Vehicle, acc: real, dt: real, leader: Option<Leader>, env: Env)
    ensures var r := PhysicsStep(v, acc, dt, leader, env);
      && (r.status == Waiting <==> r.speed < 0.05)
      && (r.status == Waiting ==> r.waitTime == v.waitTime + dt)
      && (r.status == Moving ==> r.waitTime == v.waitTime)
      && (r.speed <= 0.0 ==> r.x == v.x && r.y == v.y)
      && (r.isBraking <==> acc < -0.5)
  {
  }

  /** The step touches only speed, position, status, wait time and the brake lamp. */
  lemma PhysicsKeepsIdentity(v: Vehicle, acc: real, dt: real, leader: Option<Leader>, env: Env)
    ensures var r := PhysicsStep(v, acc, dt, leader, env);
      r == v.(speed := r.speed, x := r.x, y := r.y, status := r.status, waitTime := r.waitTime, isBraking := r.isBraking)
      && (HasCoords(v) <==> HasCoords(r))
  {
  }

  /** The moving case of Moved, spelled out for the step-by-step method. */
  lemma MovedWhenMoving(v: Vehicle, s: real, dt: real, env: Env)
    requires s > MIN_SPEED_MPS
    ensures var d := Displace(env, v.angle, s * PIXELS_PER_METER * dt);
      Moved(v, s, dt, env) == (Shift(v.x, d.x), Shift(v.y, d.y))
  {
  }

  /** updatePhysics, step by step on the vehicle copy. */
  method UpdatePhysics(v: Vehicle, acc: real, dt: real, leader: Option<Leader>, env: Env) returns (r: Vehicle)
    ensures r == PhysicsStep(v, acc, dt, leader, env)
  {
    r := v;
    r := r.(speed := r.speed + acc * dt);
    r := r.(speed := Max(MIN_SPEED_MPS, Min(r.speed, r.maxSpeed)));
    if leader.Some? && leader.value.distancePx < LEADER_CAP_DISTANCE_PX {
      r := r.(speed := Min(r.speed, leader.value.vehicle.speed));
    }
    ghost var s := r.speed;
    assert s == LeaderCap(ClampSpeed(v.speed + acc * dt, v.maxSpeed), leader);
    assert r == v.(speed := s);
    var distanceToMove := r.speed * PIXELS_PER_METER * dt;
    if r.speed > MIN_SPEED_MPS {
      var d := Displace(env, r.angle, distanceToMove);
      assert r.angle == v.angle && distanceToMove == s * PIXELS_PER_METER * dt;
      MovedWhenMoving(v, s, dt, env);
      r := r.(x := Shift(r.x, d.x), y := Shift(r.y, d.y));
    }
    assert (r.x, r.y) == Moved(v, s, dt, env);
    assert r == v.(speed := s, x := r.x, y := r.y);
    r := r.(status := if r.speed < WAITING_SPEED then Waiting else Moving);
    if r.status == Waiting {
      r := r.(waitTime := r.waitTime + dt);
    }
    r := r.(isBraking := acc < BRAKING_DISPLAY_THRESHOLD);
  }
}
