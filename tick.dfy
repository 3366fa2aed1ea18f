/** The TICK action as a function: the countdown and light controller, the
    sweep over the vehicles (drop, retire or step each one), one spawn
    attempt, and the statistics; plus the invariant a tick preserves. */
module Tick {
  import opened Base
  import opened Constants
  import opened Model
  import opened TrafficLights
  import opened Layout
  import opened Physics
  import opened Grid
  import opened Statistics
  import opened Spawn

  /** `if (!deltaTime || deltaTime > 0.5) return state`: a missing or zero
      step, or one above half a second, is ignored. A negative step passes. */
  predicate Accepted(dt: Option<real>) {
    dt.Some? && dt.value != 0.0 && !(dt.value > MAX_DELTA_TIME)
  }

  /** `Math.sqrt(dx * dx + dy * dy) < APPROACH_THRESHOLD`, compared squared. */
  predicate ReachedWaypoint(p: Point, t: Point) {
    (t.x - p.x) * (t.x - p.x) + (t.y - p.y) * (t.y - p.y) < APPROACH_THRESHOLD * APPROACH_THRESHOLD
  }

  /** Head for the current waypoint and advance to the next one once within 10 pixels of it. */
  function Steer(v: Vehicle, env: Env): Vehicle
    requires HasCoords(v) && v.pathIndex < |v.path|
  {
    var p := Point(v.x.value, v.y.value);
    var t := v.path[v.pathIndex];
    v.(angle := env.heading(p, t),
       pathIndex := if ReachedWaypoint(p, t) then v.pathIndex + 1 else v.pathIndex)
  }

  /** What one iteration of updateVehicles does with a vehicle. */
  datatype StepOutcome = Dropped | Arrived(trip: Trip) | Kept(vehicle: Vehicle)

  /** The leader as the car-following model sees it; no leader is an infinite gap. */
  function GapOf(leader: Option<Leader>): Option<Gap> {
    match leader
    case None => None
    case Some(l) => Some(Gap(l.vehicle.speed, l.distancePx))
  }

  /** One iteration of updateVehicles: an invalid vehicle is dropped, one past
      the end of its path becomes a completed trip, any other is steered,
      given the car-following acceleration against the leader among its grid
      neighbours, overridden by the junction logic, and integrated. */
  function StepVehicle(v: Vehicle, lights: Lights, grid: SpatialGrid, dt: real, env: Env): StepOutcome {
    if !IsValidVehicle(v) then Dropped
    else if v.pathIndex >= |v.path| then Arrived(Trip(v.id, v.waitTime))
    else
      var u := Steer(v, env);
      var leader := env.findLeader(u, Nearby(grid, u));
      var acc := IntersectionAcceleration(u, env.idm(u, GapOf(leader)), lights, env);
      Kept(PhysicsStep(u, acc, dt, leader, env))
  }

  /** The vehicles that stay and the trips recorded, in input order. */
  datatype Sweep = Sweep(vehicles: seq<Vehicle>, trips: seq<Trip>)

  /** The loop of updateVehicles over the vehicles in order. */
  function UpdateAll(vs: seq<Vehicle>, lights: Lights, grid: SpatialGrid, dt: real, env: Env): Sweep
    decreases |vs|
  {
    if vs == [] then Sweep([], [])
    else
      var p := UpdateAll(vs[..|vs| - 1], lights, grid, dt, env);
      match StepVehicle(vs[|vs| - 1], lights, grid, dt, env)
      case Dropped => p
      case Arrived(t) => p.(trips := p.trips + [t])
      case Kept(u) => p.(vehicles := p.vehicles + [u])
  }

  /** One more iteration of the sweep. */
  lemma UpdateAllStep(vs: seq<Vehicle>, i: nat, lights: Lights, grid: SpatialGrid, dt: real, env: Env)
    requires i < |vs|
    ensures var p := UpdateAll(vs[..i], lights, grid, dt, env);
      UpdateAll(vs[..i + 1], lights, grid, dt, env) ==
        match StepVehicle(vs[i], lights, grid, dt, env)
        case Dropped => p
        case Arrived(t) => p.(trips := p.trips + [t])
        case Kept(u) => p.(vehicles := p.vehicles + [u])
  {
    assert vs[..i + 1][..i] == vs[..i];
  }

  /** Number of vehicles that fail validation. */
  function InvalidCount(vs: seq<Vehicle>): nat
    decreases |vs|
  {
    if vs == [] then 0 else InvalidCount(vs[..|vs| - 1]) + (if IsValidVehicle(vs[|vs| - 1]) then 0 else 1)
  }

  /** The state after the vehicle sweep and the next vehicle id after the spawn attempt. */
  datatype TickResult = TickResult(state: State, nextId: int)

  /** The TICK case: lights, vehicles (against the grid of the vehicles as
      they were before the tick), spawn, then statistics. */
  function TickSpec(s: State, dt: Option<real>, env: Env, d: Draws, nextId: int): TickResult
    requires ValidDraws(d)
  {
    if !Accepted(dt) then TickResult(s, nextId)
    else
      var lights := LightsTick(s.lights, s.config, dt.value);
      var sweep := UpdateAll(s.vehicles, lights, BuildGrid(s.vehicles), dt.value, env);
      var moved := s.(lights := lights, vehicles := sweep.vehicles,
                      stats := s.stats.(completedTrips := s.stats.completedTrips + sweep.trips));
      var spawned := SpawnSpec(moved, d, nextId);
      TickResult(spawned.(stats := StatsOf(spawned.vehicles, spawned.stats.completedTrips)),
                 if SpawnFires(moved, d) then nextId + 1 else nextId)
  }

  // ---------------------------------------------------------------- one vehicle

  /** The three outcomes: dropped exactly when invalid; a valid vehicle past
      the end of its path becomes the trip (id, accumulated wait); any other
      keeps its identity, route and driver, moves at most one waypoint on,
      and has its status and wait updated from its new speed. */
  lemma StepVehicleOutcome(v: Vehicle, lights: Lights, grid: SpatialGrid, dt: real, env: Env)
    ensures StepVehicle(v, lights, grid, dt, env).Dropped? <==> !IsValidVehicle(v)
    ensures StepVehicle(v, lights, grid, dt, env).Arrived? <==> IsValidVehicle(v) && v.pathIndex >= |v.path|
    ensures StepVehicle(v, lights, grid, dt, env).Arrived? ==>
      StepVehicle(v, lights, grid, dt, env).trip == Trip(v.id, v.waitTime)
    ensures StepVehicle(v, lights, grid, dt, env).Kept? ==>
      var u := StepVehicle(v, lights, grid, dt, env).vehicle;
      && u.id == v.id && u.vehicleType == v.vehicleType && u.approach == v.approach
      && u.lane == v.lane && u.destination == v.destination && u.path == v.path
      && u.aggression == v.aggression && u.maxSpeed == v.maxSpeed
      && u.acceleration == v.acceleration && u.braking == v.braking
      && (u.pathIndex == v.pathIndex || u.pathIndex == v.pathIndex + 1) && u.pathIndex <= |u.path|
      && HasCoords(u)
      && (u.status == Waiting <==> u.speed < 0.05)
      && u.waitTime == (if u.status == Waiting then v.waitTime + dt else v.waitTime)
  {
    if IsValidVehicle(v) && v.pathIndex < |v.path| {
      var u := Steer(v, env);
      var leader := env.findLeader(u, Nearby(grid, u));
      var acc := IntersectionAcceleration(u, env.idm(u, GapOf(leader)), lights, env);
      PhysicsKeepsIdentity(u, acc, dt, leader, env);
      PhysicsStatusAndWait(u, acc, dt, leader, env);
    }
  }

  /** A vehicle that is well formed for the next tick: valid, with its speed
      in [0, maxSpeed], a top speed no more than twice the limit, a path
      index at most the path length and one of the two lanes. */
  predicate WellFormed(v: Vehicle) {
    IsValidVehicle(v) && 0.0 <= v.speed <= v.maxSpeed <= 2.0 * MAX_SPEED_MPS
    && v.pathIndex <= |v.path| && v.lane < 2
  }

  /** A kept vehicle is well formed again, provided the leader comes from the
      grid of vehicles that all have non-negative speeds. */
  lemma {:induction false} StepVehicleKeepsWellFormed(v: Vehicle, all: seq<Vehicle>, lights: Lights, dt: real, env: Env)
    requires WellFormed(v) && LeaderAmongCandidates(env)
    requires forall i :: 0 <= i < |all| ==> all[i].speed >= 0.0
    ensures StepVehicle(v, lights, BuildGrid(all), dt, env).Kept? ==>
      WellFormed(StepVehicle(v, lights, BuildGrid(all), dt, env).vehicle)
  {
    var grid := BuildGrid(all);
    if v.pathIndex < |v.path| {
      var u := Steer(v, env);
      var ns := Nearby(grid, u);
      var leader := env.findLeader(u, ns);
      var acc := IntersectionAcceleration(u, env.idm(u, GapOf(leader)), lights, env);
      if leader.Some? {
        assert leader.value.vehicle in ns;
        NearbyMembers(all, u, leader.value.vehicle);
      }
      PhysicsSpeedBounds(u, acc, dt, leader, env);
      PhysicsKeepsIdentity(u, acc, dt, leader, env);
      StepVehicleOutcome(v, lights, grid, dt, env);
    }
  }

  // ---------------------------------------------------------------- the sweep

  /** Every vehicle is accounted for exactly once: kept, retired as a trip or dropped. */
  lemma {:induction false} UpdateAllCounts(vs: seq<Vehicle>, lights: Lights, grid: SpatialGrid, dt: real, env: Env)
    ensures var w := UpdateAll(vs, lights, grid, dt, env);
      |w.vehicles| + |w.trips| + InvalidCount(vs) == |vs|
    decreases |vs|
  {
    if vs != [] {
      UpdateAllCounts(vs[..|vs| - 1], lights, grid, dt, env);
      StepVehicleOutcome(vs[|vs| - 1], lights, grid, dt, env);
    }
  }

  /** The sweep of a prefix is a prefix of the sweep, for kept vehicles and trips. */
  lemma UpdateAllGrows(vs: seq<Vehicle>, lights: Lights, grid: SpatialGrid, dt: real, env: Env)
    requires vs != []
    ensures var q := UpdateAll(vs[..|vs| - 1], lights, grid, dt, env); var w := UpdateAll(vs, lights, grid, dt, env);
      q.vehicles <= w.vehicles && q.trips <= w.trips
  {
  }

  /** Every vehicle whose step keeps it is in the sweep's result. */
  lemma {:induction false} UpdateAllKeepsEach(vs: seq<Vehicle>, i: nat, lights: Lights, grid: SpatialGrid, dt: real, env: Env)
    requires i < |vs| && StepVehicle(vs[i], lights, grid, dt, env).Kept?
    ensures StepVehicle(vs[i], lights, grid, dt, env).vehicle in UpdateAll(vs, lights, grid, dt, env).vehicles
    decreases |vs|
  {
    var p := vs[..|vs| - 1];
    UpdateAllGrows(vs, lights, grid, dt, env);
    if i < |p| {
      assert vs[i] == p[i];
      UpdateAllKeepsEach(p, i, lights, grid, dt, env);
    } else {
      var k := StepVehicle(vs[i], lights, grid, dt, env).vehicle;
      assert UpdateAll(vs, lights, grid, dt, env).vehicles == UpdateAll(p, lights, grid, dt, env).vehicles + [k];
    }
  }

  /** Every vehicle of the sweep's result is the kept outcome of some input vehicle. */
  lemma {:induction false} UpdateAllKeptFrom(vs: seq<Vehicle>, lights: Lights, grid: SpatialGrid, dt: real, env: Env, u: Vehicle)
    requires u in UpdateAll(vs, lights, grid, dt, env).vehicles
    ensures exists i :: 0 <= i < |vs| && StepVehicle(vs[i], lights, grid, dt, env) == Kept(u)
    decreases |vs|
  {
    var p := vs[..|vs| - 1];
    var q := UpdateAll(p, lights, grid, dt, env).vehicles;
    var w := UpdateAll(vs, lights, grid, dt, env).vehicles;
    match StepVehicle(vs[|vs| - 1], lights, grid, dt, env)
    case Kept(k) =>
      assert w == q + [k];
      if u in q {
        UpdateAllKeptFrom(p, lights, grid, dt, env, u);
        var i :| 0 <= i < |p| && StepVehicle(p[i], lights, grid, dt, env) == Kept(u);
        assert vs[i] == p[i];
      } else {
        assert u == k;
      }
    case _ =>
      assert w == q;
      UpdateAllKeptFrom(p, lights, grid, dt, env, u);
      var i :| 0 <= i < |p| && StepVehicle(p[i], lights, grid, dt, env) == Kept(u);
      assert vs[i] == p[i];
  }

  /** A trip is recorded exactly when some input vehicle's step records it. */
  lemma {:induction false} UpdateAllArrived(vs: seq<Vehicle>, lights: Lights, grid: SpatialGrid, dt: real, env: Env, t: Trip)
    ensures t in UpdateAll(vs, lights, grid, dt, env).trips <==>
      exists i :: 0 <= i < |vs| && StepVehicle(vs[i], lights, grid, dt, env) == Arrived(t)
    decreases |vs|
  {
    if vs != [] {
      var p := vs[..|vs| - 1];
      UpdateAllArrived(p, lights, grid, dt, env, t);
      var q := UpdateAll(p, lights, grid, dt, env).trips;
      match StepVehicle(vs[|vs| - 1], lights, grid, dt, env)
      case Arrived(a) =>
        assert UpdateAll(vs, lights, grid, dt, env).trips == q + [a];
      case _ =>
        assert UpdateAll(vs, lights, grid, dt, env).trips == q;
      if t in q {
        var i :| 0 <= i < |p| && StepVehicle(p[i], lights, grid, dt, env) == Arrived(t);
        assert vs[i] == p[i];
      }
      if exists i :: 0 <= i < |vs| && StepVehicle(vs[i], lights, grid, dt, env) == Arrived(t) {
        var i :| 0 <= i < |vs| && StepVehicle(vs[i], lights, grid, dt, env) == Arrived(t);
        if i < |p| {
          assert vs[i] == p[i];
        }
      }
    }
  }

  predicate IdsIncreasing(vs: seq<Vehicle>) {
    forall i, j :: 0 <= i < j < |vs| ==> vs[i].id < vs[j].id
  }

  /** The sweep keeps the vehicles in order: ids that increase along the
      input increase along the output, and each kept vehicle carries the id
      of an input vehicle. */
  lemma {:induction false} UpdateAllKeepsIds(vs: seq<Vehicle>, lights: Lights, grid: SpatialGrid, dt: real, env: Env)
    requires IdsIncreasing(vs)
    ensures var w := UpdateAll(vs, lights, grid, dt, env);
      && IdsIncreasing(w.vehicles)
      && (forall i :: 0 <= i < |w.vehicles| ==> exists j :: 0 <= j < |vs| && w.vehicles[i].id == vs[j].id)
    decreases |vs|
  {
    if vs != [] {
      var p := vs[..|vs| - 1];
      var last := vs[|vs| - 1];
      UpdateAllKeepsIds(p, lights, grid, dt, env);
      var q := UpdateAll(p, lights, grid, dt, env).vehicles;
      var o := StepVehicle(last, lights, grid, dt, env);
      StepVehicleOutcome(last, lights, grid, dt, env);
      var w := UpdateAll(vs, lights, grid, dt, env).vehicles;
      assert w == q + (if o.Kept? then [o.vehicle] else []);
      forall i | 0 <= i < |q|
        ensures q[i].id < last.id
        ensures exists j :: 0 <= j < |vs| && q[i].id == vs[j].id
      {
        var j :| 0 <= j < |p| && q[i].id == p[j].id;
        assert vs[j] == p[j];
      }
      if o.Kept? {
        assert w[|w| - 1].id == vs[|vs| - 1].id;
      }
    }
  }

  predicate AllWellFormed(vs: seq<Vehicle>) {
    forall i :: 0 <= i < |vs| ==> WellFormed(vs[i])
  }

  /** The sweep over a grid of vehicles that never move backwards keeps
      well-formed vehicles well formed. */
  lemma {:induction false} UpdateAllKeepsWellFormed(vs: seq<Vehicle>, all: seq<Vehicle>, lights: Lights, dt: real, env: Env)
    requires LeaderAmongCandidates(env) && AllWellFormed(vs)
    requires forall i :: 0 <= i < |all| ==> all[i].speed >= 0.0
    ensures AllWellFormed(UpdateAll(vs, lights, BuildGrid(all), dt, env).vehicles)
    decreases |vs|
  {
    if vs != [] {
      var p := vs[..|vs| - 1];
      var last := vs[|vs| - 1];
      var grid := BuildGrid(all);
      UpdateAllKeepsWellFormed(p, all, lights, dt, env);
      StepVehicleKeepsWellFormed(last, all, lights, dt, env);
      var q := UpdateAll(p, lights, grid, dt, env);
      match StepVehicle(last, lights, grid, dt, env)
      case Kept(u) =>
        assert UpdateAll(vs, lights, grid, dt, env).vehicles == q.vehicles + [u];
      case _ =>
        assert UpdateAll(vs, lights, grid, dt, env).vehicles == q.vehicles;
    }
  }

  // ---------------------------------------------------------------- the whole tick

  /** The reducer-wide invariant: every vehicle well formed with an id below
      the next one, ids strictly increasing along the list (so distinct), at
      most 50 vehicles, and at most one light that is not red. */
  predicate Invariant(s: State, nextId: int) {
    && (forall i :: 0 <= i < |s.vehicles| ==> WellFormed(s.vehicles[i]) && s.vehicles[i].id < nextId)
    && IdsIncreasing(s.vehicles)
    && |s.vehicles| <= MAX_VEHICLES
    && MutuallyExclusive(s.lights)
  }

  /** A tick preserves the invariant, and with it drops no vehicle: each one
      is either kept or retired as a completed trip. The earlier trips stay
      a prefix of the new ones and throughput counts them all. */
  lemma TickKeepsInvariant(s: State, dt: Option<real>, env: Env, d: Draws, nextId: int)
    requires ValidDraws(d) && LeaderAmongCandidates(env) && Invariant(s, nextId)
    ensures var r := TickSpec(s, dt, env, d, nextId); Invariant(r.state, r.nextId)
    ensures Accepted(dt) ==>
      var w := UpdateAll(s.vehicles, LightsTick(s.lights, s.config, dt.value), BuildGrid(s.vehicles), dt.value, env);
      |w.vehicles| + |w.trips| == |s.vehicles|
    ensures var r := TickSpec(s, dt, env, d, nextId);
      && nextId <= r.nextId <= nextId + 1
      && s.stats.completedTrips <= r.state.stats.completedTrips
      && (Accepted(dt) ==> r.state.stats.totalThroughput == |r.state.stats.completedTrips|)
  {
    if Accepted(dt) {
      var lights := LightsTick(s.lights, s.config, dt.value);
      var grid := BuildGrid(s.vehicles);
      var w := UpdateAll(s.vehicles, lights, grid, dt.value, env);
      LightsTickPreservesExclusion(s.lights, s.config, dt.value);
      UpdateAllKeepsIds(s.vehicles, lights, grid, dt.value, env);
      UpdateAllKeepsWellFormed(s.vehicles, s.vehicles, lights, dt.value, env);
      UpdateAllCounts(s.vehicles, lights, grid, dt.value, env);
      NoneInvalid(s.vehicles);
      var moved := s.(lights := lights, vehicles := w.vehicles,
                      stats := s.stats.(completedTrips := s.stats.completedTrips + w.trips));
      forall i | 0 <= i < |w.vehicles| ensures w.vehicles[i].id < nextId {
        var j :| 0 <= j < |s.vehicles| && w.vehicles[i].id == s.vehicles[j].id;
      }
      assert Invariant(moved, nextId);
      SpawnKeepsInvariant(moved, d, nextId);
    }
  }

  /** A spawn keeps the invariant against the advanced next id: the new
      vehicle is well formed and carries the largest id so far. */
  lemma SpawnKeepsInvariant(s: State, d: Draws, nextId: int)
    requires ValidDraws(d) && Invariant(s, nextId)
    ensures Invariant(SpawnSpec(s, d, nextId), if SpawnFires(s, d) then nextId + 1 else nextId)
  {
    SpawnAppendsAtMostOne(s, d, nextId);
    if SpawnFires(s, d) {
      var nv := NewVehicle(s.config, d, nextId);
      NewVehicleFresh(s.config, d, nextId);
      KinematicsBounds(nv.vehicleType, d.aggression);
      var vs := SpawnSpec(s, d, nextId).vehicles;
      assert vs == s.vehicles + [nv];
      assert WellFormed(nv);
    }
  }

  /** Under the invariant every vehicle is valid, so none is dropped. */
  lemma {:induction false} NoneInvalid(vs: seq<Vehicle>)
    requires forall i :: 0 <= i < |vs| ==> WellFormed(vs[i])
    ensures InvalidCount(vs) == 0
    decreases |vs|
  {
    if vs != [] {
      NoneInvalid(vs[..|vs| - 1]);
    }
  }

  /** A rejected tick changes nothing, not even the next vehicle id. */
  lemma RejectedTickIsIdentity(s: State, dt: Option<real>, env: Env, d: Draws, nextId: int)
    requires ValidDraws(d) && !Accepted(dt)
    ensures TickSpec(s, dt, env, d, nextId) == TickResult(s, nextId)
  {
  }

  /** A tick leaves the run flag, the configuration and the advisory text alone. */
  lemma TickKeepsControls(s: State, dt: Option<real>, env: Env, d: Draws, nextId: int)
    requires ValidDraws(d)
    ensures var r := TickSpec(s, dt, env, d, nextId).state;
      r.simulation == s.simulation && r.config == s.config && r.ai == s.ai
  {
  }
}
