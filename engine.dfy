/** The module-level mutable state of the reducer and the procedures that
    work on it step by step: the pool of cleared vehicle records, the spatial
    grid rebuilt every tick, the path cache and the vehicle id counter. Each
    method is proved against the function of the same name in the modules
    that specify it. */
module Reducer {
  import opened Base
  import opened Constants
  import opened Model
  import opened TrafficLights
  import opened Layout
  import opened Physics
  import opened Grid
  import opened Statistics
  import opened Spawn
  import opened Tick
  import Commands

  /** The path cache key `${approach}-${destination}-${lane}`. */
  datatype PathKey = PathKey(approach: Direction, destination: Maneuver, lane: nat)

  /** The keys of a vehicle record, which returning it to the pool deletes. */
  const VEHICLE_KEYS: set<string> := {
    "id", "type", "x", "y", "speed_mps", "angle", "reactionTimer", "isBraking",
    "approach", "lane", "destination", "status", "waitTime", "path", "pathIndex",
    "aggression", "maxSpeed_mps", "acceleration_mps2", "braking_mps2"
  }

  /** `n` cleared records. */
  function Cleared(n: nat): (r: seq<set<string>>)
    ensures |r| == n && forall i :: 0 <= i < n ==> r[i] == {}
  {
    seq(n, _ => {})
  }

  class Engine {
    /** vehiclePool: a record is modelled by the set of keys it still holds. */
    var pool: seq<set<string>>
    /** spatialGrid */
    var grid: SpatialGrid
    /** pathCache */
    var pathCache: map<PathKey, seq<Point>>
    /** nextVehicleId */
    var nextVehicleId: int

    /** Pooled records are empty, and every cached path is the one generated
        for its key from the start of its lane. */
    ghost predicate Valid()
      reads this
    {
      && (forall i :: 0 <= i < |pool| ==> pool[i] == {})
      && (forall k :: k in pathCache ==>
            k.lane < 2 && pathCache[k] == GenerateSmoothPath(k.approach, k.destination, LaneStart(k.approach, k.lane)))
    }

    /** Module load: an empty pool, grid and cache, and ids from 1. */
    constructor ()
      ensures Valid()
      ensures pool == [] && grid == map[] && pathCache == map[] && nextVehicleId == 1
    {
      pool := [];
      grid := map[];
      pathCache := map[];
      nextVehicleId := 1;
    }

    /** getVehicleFromPool: pop the last record, or a fresh empty one. */
    method GetVehicleFromPool() returns (record: set<string>)
      modifies this
      ensures |old(pool)| > 0 ==> record == old(pool)[|old(pool)| - 1] && pool == old(pool)[..|old(pool)| - 1]
      ensures |old(pool)| == 0 ==> record == {} && pool == []
      ensures grid == old(grid) && pathCache == old(pathCache) && nextVehicleId == old(nextVehicleId)
      ensures old(Valid()) ==> Valid() && record == {}
    {
      if |pool| > 0 {
        record := pool[|pool| - 1];
        pool := pool[..|pool| - 1];
      } else {
        record := {};
      }
    }

    /** returnVehicleToPool: delete every key of the record, then push it. */
    method ReturnVehicleToPool(keys: set<string>)
      modifies this
      ensures pool == old(pool) + [{}]
      ensures grid == old(grid) && pathCache == old(pathCache) && nextVehicleId == old(nextVehicleId)
      ensures old(Valid()) ==> Valid()
    {
      var record := keys;
      ghost var deleted: set<string> := {};
      while record != {}
        invariant deleted <= keys && record == keys - deleted
        decreases |record|
      {
        var k :| k in record;
        record := record - {k};
        deleted := deleted + {k};
      }
      assert deleted == keys;
      pool := pool + [record];
    }

    /** updateSpatialGrid: clear the grid, then append each vehicle to the
        bucket of its cell, creating the bucket on first use. */
    method UpdateSpatialGrid(vehicles: seq<Vehicle>)
      modifies this
      ensures grid == BuildGrid(vehicles)
      ensures pool == old(pool) && pathCache == old(pathCache) && nextVehicleId == old(nextVehicleId)
      ensures old(Valid()) ==> Valid()
    {
      grid := map[];
      for i := 0 to |vehicles|
        invariant grid == BuildGrid(vehicles[..i])
        invariant pool == old(pool) && pathCache == old(pathCache) && nextVehicleId == old(nextVehicleId)
      {
        var vehicle := vehicles[i];
        assert vehicles[..i + 1][..i] == vehicles[..i] && vehicles[..i + 1][i] == vehicle;
        var gridKey := (AxisOf(vehicle.x), AxisOf(vehicle.y));
        if gridKey !in grid {
          grid := grid[gridKey := []];
        }
        grid := grid[gridKey := grid[gridKey] + [vehicle]];
      }
      assert vehicles[..|vehicles|] == vehicles;
    }

    /** The nested loops of getNearbyVehicles: the buckets of the nine
        cells around `centre`, dx outer and dy inner. */
    method GatherNeighbours(centre: Key) returns (all: seq<Vehicle>)
      ensures all == Gather(grid, NeighbourKeys(centre))
    {
      ghost var ks := NeighbourKeys(centre);
      all := [];
      for dx := -1 to 2
        invariant all == Gather(grid, ks[..3 * (dx + 1)])
      {
        for dy := -1 to 2
          invariant all == Gather(grid, ks[..3 * (dx + 1) + (dy + 1)])
        {
          var gridKey := (ShiftAxis(centre.0, dx), ShiftAxis(centre.1, dy));
          NeighbourKeyAt(centre, dx, dy);
          GatherStep(grid, ks, 3 * (dx + 1) + (dy + 1));
          if gridKey in grid {
            all := all + grid[gridKey];
          }
        }
      }
      assert ks[..9] == ks;
    }

    /** getNearbyVehicles: the buckets of the nine cells around the
        vehicle's cell, without the vehicle's own id. */
    method GetNearbyVehicles(vehicle: Vehicle) returns (nearby: seq<Vehicle>)
      ensures nearby == Nearby(grid, vehicle)
      ensures forall w :: w in nearby <==> w.id != vehicle.id && InNeighbourCell(grid, vehicle, w)
    {
      var all := GatherNeighbours((AxisOf(vehicle.x), AxisOf(vehicle.y)));
      nearby := WithoutId(all, vehicle.id);
      forall w ensures w in nearby <==> w.id != vehicle.id && InNeighbourCell(grid, vehicle, w) {
        NearbyInNeighbourCells(grid, vehicle, w);
      }
    }

    /** getCachedPath: the cached path of the key, generating and storing it
        on a miss. A hit ignores the start position it is given. */
    method GetCachedPath(approach: Direction, destination: Maneuver, lane: nat, start: Point) returns (path: seq<Point>)
      modifies this
      ensures var key := PathKey(approach, destination, lane);
        && (key in old(pathCache) ==> path == old(pathCache)[key] && pathCache == old(pathCache))
        && (key !in old(pathCache) ==>
              path == GenerateSmoothPath(approach, destination, start) && pathCache == old(pathCache)[key := path])
      ensures pool == old(pool) && grid == old(grid) && nextVehicleId == old(nextVehicleId)
      ensures old(Valid()) && lane < 2 && start == LaneStart(approach, lane) ==>
        Valid() && path == GenerateSmoothPath(approach, destination, start)
    {
      var key := PathKey(approach, destination, lane);
      if key !in pathCache {
        pathCache := pathCache[key := GenerateSmoothPath(approach, destination, start)];
      }
      path := pathCache[key];
    }

    /** The body of updateVehicles for a valid vehicle still on its path:
        head for the current waypoint (moving on to the next one within 10
        pixels), take the car-following acceleration against the leader
        among the grid neighbours, let the junction logic override it, and
        integrate. */
    method MoveVehicle(v: Vehicle, lights: Lights, dt: real, env: Env) returns (vehicle: Vehicle)
      requires IsValidVehicle(v) && v.pathIndex < |v.path|
      ensures StepVehicle(v, lights, grid, dt, env) == Kept(vehicle)
    {
      vehicle := v;
      var here := Point(vehicle.x.value, vehicle.y.value);
      var targetPoint := vehicle.path[vehicle.pathIndex];
      vehicle := vehicle.(angle := env.heading(here, targetPoint));
      var dx := targetPoint.x - here.x;
      var dy := targetPoint.y - here.y;
      if dx * dx + dy * dy < APPROACH_THRESHOLD * APPROACH_THRESHOLD {
        vehicle := vehicle.(pathIndex := vehicle.pathIndex + 1);
      }
      assert vehicle == Steer(v, env);
      var nearby := GetNearbyVehicles(vehicle);
      var leader := env.findLeader(vehicle, nearby);
      var acceleration := env.idm(vehicle, GapOf(leader));
      acceleration := IntersectionAcceleration(vehicle, acceleration, lights, env);
      vehicle := UpdatePhysics(vehicle, acceleration, dt, leader, env);
    }

    /** updateVehicles: drop the vehicles that fail validation, retire those
        past the end of their path as completed trips (returning their record
        to the pool), and steer, follow and integrate the others, each
        against the neighbours the grid gives it. */
    method UpdateVehicles(s: State, dt: real, env: Env) returns (r: State)
      modifies this
      ensures var w := UpdateAll(s.vehicles, s.lights, grid, dt, env);
        && r == s.(vehicles := w.vehicles, stats := s.stats.(completedTrips := s.stats.completedTrips + w.trips))
        && pool == old(pool) + Cleared(|w.trips|)
      ensures grid == old(grid) && pathCache == old(pathCache) && nextVehicleId == old(nextVehicleId)
      ensures old(Valid()) ==> Valid()
    {
      var vehicles := s.vehicles;
      var newVehicles: seq<Vehicle> := [];
      var trips := s.stats.completedTrips;
      for i := 0 to |vehicles|
        invariant newVehicles == UpdateAll(vehicles[..i], s.lights, grid, dt, env).vehicles
        invariant trips == s.stats.completedTrips + UpdateAll(vehicles[..i], s.lights, grid, dt, env).trips
        invariant pool == old(pool) + Cleared(|UpdateAll(vehicles[..i], s.lights, grid, dt, env).trips|)
        invariant grid == old(grid) && pathCache == old(pathCache) && nextVehicleId == old(nextVehicleId)
      {
        var v := vehicles[i];
        ghost var p := UpdateAll(vehicles[..i], s.lights, grid, dt, env);
        UpdateAllStep(vehicles, i, s.lights, grid, dt, env);
        if !IsValidVehicle(v) {
          // validateVehicle throws: the vehicle is skipped
        } else if v.pathIndex >= |v.path| {
          trips := trips + [Trip(v.id, v.waitTime)];
          ReturnVehicleToPool(VEHICLE_KEYS);
          assert Cleared(|p.trips|) + [{}] == Cleared(|p.trips| + 1);
        } else {
          var vehicle := MoveVehicle(v, s.lights, dt, env);
          newVehicles := newVehicles + [vehicle];
        }
      }
      assert vehicles[..|vehicles|] == vehicles;
      r := s.(vehicles := newVehicles, stats := s.stats.(completedTrips := trips));
    }

    /** The drawn approach, route and lane of a spawn, falling back to the
        first lane when no lane allows the route. */
    method ChooseRoute(c: Config, d: Draws) returns (approach: Direction, destination: Maneuver, lane: LaneSpec)
      requires ValidDraws(d)
      ensures approach == Choose(StartApproaches(c), d.approach)
      ensures destination == Choose(Destinations(c, approach), d.destination)
      ensures lane == Choose(AllowedLanes(destination), d.lane) && lane in LANES
    {
      var availableStarts := StartApproaches(c);
      approach := availableStarts[Index(d.approach, |availableStarts|)];
      var possibleDestinations := Destinations(c, approach);
      destination := possibleDestinations[Index(d.destination, |possibleDestinations|)];
      var allowedLanes := LanesAllowing(LANES, destination);
      if |allowedLanes| == 0 {
        allowedLanes := allowedLanes + [LANES[0]];
      }
      assert allowedLanes == AllowedLanes(destination);
      lane := allowedLanes[Index(d.lane, |allowedLanes|)];
    }

    /** The body of a spawn that fires: a drawn approach, route and lane,
        the cached path from the lane's start, the drawn driver, the next
        id, a pooled record. */
    method CreateVehicle(c: Config, d: Draws) returns (v: Vehicle)
      requires ValidDraws(d) && Valid()
      modifies this
      ensures v == NewVehicle(c, d, old(nextVehicleId)) && nextVehicleId == old(nextVehicleId) + 1
      ensures pool == (if |old(pool)| > 0 then old(pool)[..|old(pool)| - 1] else [])
      ensures grid == old(grid) && Valid() && old(pathCache).Keys <= pathCache.Keys
    {
      var startApproach, destination, startLane := ChooseRoute(c, d);
      assert startLane.id < 2;
      var start := LaneStart(startApproach, startLane.id);
      var paths := GetCachedPath(startApproach, destination, startLane.id, start);
      assert paths == GenerateSmoothPath(startApproach, destination, start);
      var vehicleType := if d.vehicleType < c.motorcycleRatio then Motorcycle else Car;
      var k := CreateVehiclePhysics(vehicleType, d.aggression);
      var record := GetVehicleFromPool();
      assert record == {};
      v := Vehicle(nextVehicleId, vehicleType, Num(start.x), Num(start.y), 0.0, 0.0, false,
                   startApproach, startLane.id, destination, Moving, 0.0, paths, 0,
                   k.aggression, k.maxSpeed, k.acceleration, k.braking);
      nextVehicleId := nextVehicleId + 1;
    }

    /** spawnVehicles: below the cap and when the spawn draw is under
        density / 1000, one new vehicle is appended. */
    method SpawnVehicles(s: State, d: Draws) returns (r: State)
      requires ValidDraws(d) && Valid()
      modifies this
      ensures r == SpawnSpec(s, d, old(nextVehicleId))
      ensures nextVehicleId == old(nextVehicleId) + (if SpawnFires(s, d) then 1 else 0)
      ensures SpawnFires(s, d) ==> pool == (if |old(pool)| > 0 then old(pool)[..|old(pool)| - 1] else [])
      ensures !SpawnFires(s, d) ==> pool == old(pool)
      ensures grid == old(grid) && Valid() && old(pathCache).Keys <= pathCache.Keys
    {
      if |s.vehicles| >= MAX_VEHICLES {
        return s;
      }
      var spawnChance := s.config.density / SPAWN_PROBABILITY_BASE;
      if d.spawn < spawnChance {
        var newVehicle := CreateVehicle(s.config, d);
        r := s.(vehicles := s.vehicles + [newVehicle]);
      } else {
        r := s;
      }
    }

    /** The first half of an accepted tick: the grid is rebuilt from the
        vehicles as they are, the lights advance by the step, and every
        vehicle is stepped against the new lights and that grid. */
    method MoveAll(s: State, dt: real, env: Env) returns (r: State)
      requires Valid()
      modifies this
      ensures var lights := LightsTick(s.lights, s.config, dt);
        var sweep := UpdateAll(s.vehicles, lights, BuildGrid(s.vehicles), dt, env);
        r == s.(lights := lights, vehicles := sweep.vehicles,
                stats := s.stats.(completedTrips := s.stats.completedTrips + sweep.trips))
      ensures grid == BuildGrid(s.vehicles) && Valid()
      ensures pathCache == old(pathCache) && nextVehicleId == old(nextVehicleId)
    {
      UpdateSpatialGrid(s.vehicles);
      var lights := TickLights(s.lights, s.config, dt);
      r := UpdateVehicles(s.(lights := lights), dt, env);
    }

    /** The TICK case: ignore a missing, zero or over-long step; otherwise
        rebuild the grid from the vehicles as they are, feed the step into
        the countdown, run the light controller, update the vehicles, try one
        spawn and recompute the statistics. */
    method Tick(s: State, deltaTime: Option<real>, env: Env, d: Draws) returns (r: State)
      requires ValidDraws(d) && Valid()
      modifies this
      ensures var t := TickSpec(s, deltaTime, env, d, old(nextVehicleId));
        r == t.state && nextVehicleId == t.nextId
      ensures !Accepted(deltaTime) ==> grid == old(grid) && pool == old(pool)
      ensures Accepted(deltaTime) ==> grid == BuildGrid(s.vehicles)
      ensures old(pathCache).Keys <= pathCache.Keys && Valid()
    {
      if deltaTime.None? || deltaTime.value == 0.0 || deltaTime.value > MAX_DELTA_TIME {
        return s;
      }
      var moved := MoveAll(s, deltaTime.value, env);
      var spawned := SpawnVehicles(moved, d);
      r := CalculateStats(spawned);
    }

    /** simulationReducer, with the module state of this engine. */
    method Reduce(s: State, action: Action, env: Env, d: Draws) returns (r: Result<State>)
      requires ValidDraws(d) && Valid()
      modifies this
      ensures match Commands.ReduceSpec(s, action, env, d, old(nextVehicleId))
        case Ok(t) => r == Ok(t.state) && nextVehicleId == t.nextId
        case Thrown(m) => r == Thrown(m) && nextVehicleId == old(nextVehicleId)
      ensures !action.Tick? ==> pool == old(pool) && grid == old(grid) && pathCache == old(pathCache)
      ensures Valid()
    {
      match action
      case StartSim => r := Ok(Commands.Start(s));
      case PauseSim => r := Ok(Commands.Pause(s));
      case ResetSim => r := Ok(Commands.Reset(s));
      case UpdateConfig(p) => r := Ok(Commands.UpdateConfig(s, p));
      case AiThinking => r := Ok(Commands.AiThinking(s));
      case SetAiDecision(p) => r := Ok(Commands.SetAiDecision(s, p));
      case Tick(dt) =>
        var next := Tick(s, dt, env, d);
        r := Ok(next);
      case Unhandled(t) => r := Thrown("Unhandled action type: " + t);
    }
  }

  /** A tick of the engine from a state that satisfies the reducer invariant
      against the engine's next id gives a state that satisfies it against
      the new next id, which never goes down; the engine stays valid. */
  method TickUnderInvariant(e: Engine, s: State, dt: Option<real>, env: Env, d: Draws) returns (r: State)
    requires e.Valid() && ValidDraws(d) && LeaderAmongCandidates(env) && Invariant(s, e.nextVehicleId)
    modifies e
    ensures r == TickSpec(s, dt, env, d, old(e.nextVehicleId)).state
    ensures e.Valid() && Invariant(r, e.nextVehicleId) && old(e.nextVehicleId) <= e.nextVehicleId
  {
    TickKeepsInvariant(s, dt, env, d, e.nextVehicleId);
    r := e.Tick(s, dt, env, d);
  }
}
