/** spawnVehicles as a function of the state and of the random draws it
    consumes: at most one new vehicle per tick, on a legal approach, lane and
    route for the configured junction. */
module Spawn {
  import opened Constants
  import opened Model
  import opened Layout
  import opened Physics

  /** The `Math.random()` values one spawn attempt uses, in the order the
      source draws them: the spawn test, the approach, the destination, the
      lane, the vehicle type and the aggression. */
  datatype Draws = Draws(spawn: real, approach: real, destination: real, lane: real, vehicleType: real, aggression: real)

  predicate InUnit(r: real) {
    0.0 <= r < 1.0
  }

  /** `Math.random()` returns values in [0, 1). */
  predicate ValidDraws(d: Draws) {
    InUnit(d.spawn) && InUnit(d.approach) && InUnit(d.destination)
    && InUnit(d.lane) && InUnit(d.vehicleType) && InUnit(d.aggression)
  }

  /** `Math.floor(r * n)`: an index into a list of length n. */
  function Index(r: real, n: nat): (i: nat)
    requires InUnit(r) && n > 0
    ensures i < n
    ensures i as real <= r * n as real < i as real + 1.0
  {
    assert 0.0 <= r * n as real < n as real by {
      assert r * n as real < 1.0 * n as real;
    }
    (r * n as real).Floor as nat
  }

  /** `list[Math.floor(Math.random() * list.length)]` */
  function Choose<T>(xs: seq<T>, r: real): (x: T)
    requires InUnit(r) && |xs| > 0
    ensures x in xs
  {
    xs[Index(r, |xs|)]
  }

  /** The start positions in source order; a T-junction has no southern arm. */
  function StartApproaches(c: Config): seq<Direction> {
    if c.intersectionType == T_JUNCTION then [North, West, East] else [North, South, West, East]
  }

  /** The manoeuvres offered on an approach. */
  function Destinations(c: Config, a: Direction): seq<Maneuver> {
    if c.intersectionType != T_JUNCTION then [Straight, Left, Right]
    else
      match a
      case North => [Left, Right]
      case East => [Straight, Left]
      case West => [Straight, Right]
      case South => [Straight, Left, Right]
  }

  /** `lanes.filter(lane => lane.allowed.includes(m))` */
  function LanesAllowing(lanes: seq<LaneSpec>, m: Maneuver): (r: seq<LaneSpec>)
    ensures forall l :: l in r <==> l in lanes && m in l.allowed
    decreases |lanes|
  {
    if lanes == [] then []
    else
      assert lanes == lanes[..|lanes| - 1] + [lanes[|lanes| - 1]];
      var last := lanes[|lanes| - 1];
      LanesAllowing(lanes[..|lanes| - 1], m) + (if m in last.allowed then [last] else [])
  }

  /** The lanes that admit the destination, or lane 0 when none does. */
  function AllowedLanes(m: Maneuver): (r: seq<LaneSpec>)
    ensures |r| > 0 && forall l :: l in r ==> l in LANES
  {
    var f := LanesAllowing(LANES, m);
    if |f| == 0 then [LANES[0]] else f
  }

  /** The attempt goes ahead below the vehicle cap and when the first draw is under density / 1000. */
  predicate SpawnFires(s: State, d: Draws) {
    |s.vehicles| < MAX_VEHICLES && d.spawn < s.config.density / SPAWN_PROBABILITY_BASE
  }

  /** The vehicle an attempt creates with id `id`: at the start of its lane,
      at rest, moving, with the path for its approach, destination and lane. */
  function NewVehicle(c: Config, d: Draws, id: int): Vehicle
    requires ValidDraws(d)
  {
    var approach := Choose(StartApproaches(c), d.approach);
    var destination := Choose(Destinations(c, approach), d.destination);
    var lane := Choose(AllowedLanes(destination), d.lane);
    assert lane.id < 2;
    var start := LaneStart(approach, lane.id);
    var t := if d.vehicleType < c.motorcycleRatio then Motorcycle else Car;
    var k := CreateVehiclePhysics(t, d.aggression);
    Vehicle(id, t, Num(start.x), Num(start.y), 0.0, 0.0, false, approach, lane.id, destination,
            Moving, 0.0, GenerateSmoothPath(approach, destination, start), 0,
            k.aggression, k.maxSpeed, k.acceleration, k.braking)
  }

  /** spawnVehicles: the state with the new vehicle appended, or unchanged. */
  function SpawnSpec(s: State, d: Draws, id: int): State
    requires ValidDraws(d)
  {
    if SpawnFires(s, d) then s.(vehicles := s.vehicles + [NewVehicle(s.config, d, id)]) else s
  }

  /** Spawning appends at most one vehicle, keeps the others in place, never
      crosses the cap of 50, and touches nothing but the vehicle list. */
  lemma SpawnAppendsAtMostOne(s: State, d: Draws, id: int)
    requires ValidDraws(d)
    ensures var r := SpawnSpec(s, d, id);
      && r == s.(vehicles := r.vehicles)
      && |r.vehicles| == |s.vehicles| + (if SpawnFires(s, d) then 1 else 0)
      && r.vehicles[..|s.vehicles|] == s.vehicles
      && (SpawnFires(s, d) ==> r.vehicles[|s.vehicles|] == NewVehicle(s.config, d, id))
      && (|s.vehicles| <= MAX_VEHICLES ==> |r.vehicles| <= MAX_VEHICLES)
  {
    var r := SpawnSpec(s, d, id);
    assert r.vehicles[..|s.vehicles|] == s.vehicles;
  }

  /** At the cap, or with a density of zero or less, nothing spawns. */
  lemma NoSpawnAtCapOrZeroDensity(s: State, d: Draws, id: int)
    requires ValidDraws(d)
    requires |s.vehicles| >= MAX_VEHICLES || s.config.density <= 0.0
    ensures SpawnSpec(s, d, id) == s
  {
    if s.config.density <= 0.0 {
      assert s.config.density / SPAWN_PROBABILITY_BASE <= 0.0;
    }
  }

  /** A new vehicle is valid, at rest, moving, unwaited, at the start of its
      path, at the start position of its lane just off the canvas, and its
      path is the one generated for its approach, destination and lane. */
  lemma NewVehicleFresh(c: Config, d: Draws, id: int)
    requires ValidDraws(d)
    ensures var v := NewVehicle(c, d, id);
      && v.id == id && IsValidVehicle(v)
      && v.speed == 0.0 && v.angle == 0.0 && !v.isBraking
      && v.status == Moving && v.waitTime == 0.0 && v.pathIndex == 0 && |v.path| >= 1
      && v.lane < 2 && v.approach in StartApproaches(c) && v.destination in Destinations(c, v.approach)
      && Point(v.x.value, v.y.value) == LaneStart(v.approach, v.lane)
      && OffCanvas(LaneStart(v.approach, v.lane))
      && v.path == GenerateSmoothPath(v.approach, v.destination, LaneStart(v.approach, v.lane))
      && v.aggression == d.aggression
  {
    var v := NewVehicle(c, d, id);
    assert 0.0 < MAX_SPEED_MPS;
  }

  /** Lane discipline: the chosen lane admits the destination (the fallback
      never fires); a left turn always starts in lane 0 and a right turn in lane 1. */
  lemma NewVehicleLane(c: Config, d: Draws, id: int)
    requires ValidDraws(d)
    ensures var v := NewVehicle(c, d, id);
      && v.destination in LANES[v.lane].allowed
      && (v.destination == Left ==> v.lane == 0)
      && (v.destination == Right ==> v.lane == 1)
  {
    var v := NewVehicle(c, d, id);
    var f := LanesAllowing(LANES, v.destination);
    assert LANES[0] in LANES && LANES[1] in LANES;
    if v.destination == Right {
      assert LANES[1] in f;
    } else {
      assert LANES[0] in f;
    }
  }

  /** On a T-junction nothing enters from the south, and the routes are the
      junction's: no straight from the north, no right from the east, no left from the west. */
  lemma TJunctionRoutes(c: Config, d: Draws, id: int)
    requires ValidDraws(d) && c.intersectionType == T_JUNCTION
    ensures var v := NewVehicle(c, d, id);
      && v.approach != South
      && (v.approach == North ==> v.destination != Straight)
      && (v.approach == East ==> v.destination != Right)
      && (v.approach == West ==> v.destination != Left)
  {
  }

  /** The type draw: with a ratio of 0 or less only cars appear, with 1 or more only motorcycles. */
  lemma MotorcycleRatioExtremes(c: Config, d: Draws, id: int)
    requires ValidDraws(d)
    ensures c.motorcycleRatio <= 0.0 ==> NewVehicle(c, d, id).vehicleType == Car
    ensures c.motorcycleRatio >= 1.0 ==> NewVehicle(c, d, id).vehicleType == Motorcycle
  {
  }
}
