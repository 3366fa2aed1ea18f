/** The fixed geometry of the canvas: lane entry points, the waypoint path of
    every (approach, manoeuvre) pair, the junction box and the stop lines. */
module Layout {
  import opened Constants
  import opened Model

  const HALF_W: real := SIMULATION_WIDTH / 2.0
  const HALF_H: real := SIMULATION_HEIGHT / 2.0
  /** Half the road width (35 px). */
  const HALF_ROAD: real := ROAD_WIDTH / 2.0
  /** Centre of the inner lane and of the outer lane, from the road's axis. */
  const L1: real := LANE_WIDTH_PX / 2.0
  const L2: real := LANE_WIDTH_PX + L1

  /** A lane of an approach and the manoeuvres it admits. */
  datatype LaneSpec = LaneSpec(id: nat, allowed: seq<Maneuver>)

  /** Every approach has the same two lanes: 0 for left or straight, 1 for right or straight. */
  const LANES: seq<LaneSpec> := [LaneSpec(0, [Left, Straight]), LaneSpec(1, [Right, Straight])]

  /** Where a vehicle entering on `approach` in `lane` appears, just off the canvas. */
  function LaneStart(approach: Direction, lane: nat): (p: Point)
    requires lane < 2
    ensures p.x < 0.0 || p.x > SIMULATION_WIDTH || p.y < 0.0 || p.y > SIMULATION_HEIGHT
  {
    var offset := if lane == 0 then L1 else L2;
    match approach
    case North => Point(HALF_W - offset, -CAR_LENGTH)
    case South => Point(HALF_W + offset, SIMULATION_HEIGHT + CAR_LENGTH)
    case West => Point(-CAR_LENGTH, HALF_H + offset)
    case East => Point(SIMULATION_WIDTH + CAR_LENGTH, HALF_H - offset)
  }

  predicate OffCanvas(p: Point) {
    p.x < 0.0 || p.x > SIMULATION_WIDTH || p.y < 0.0 || p.y > SIMULATION_HEIGHT
  }

  /** The junction box, widened by a quarter of the road width on each side. */
  predicate IsInIntersection(x: real, y: real) {
    var margin := ROAD_WIDTH * INTERSECTION_MARGIN_RATIO;
    && x > HALF_W - HALF_ROAD - margin && x < HALF_W + HALF_ROAD + margin
    && y > HALF_H - HALF_ROAD - margin && y < HALF_H + HALF_ROAD + margin
  }

  /** The waypoints from the lane entry to the exit: one far point for
      straight on, a pivot inside the junction and a far point for a turn. */
  function GenerateSmoothPath(approach: Direction, destination: Maneuver, start: Point): (path: seq<Point>)
    ensures |path| == if destination == Straight then 1 else 2
  {
    var w, h := SIMULATION_WIDTH, SIMULATION_HEIGHT;
    match approach
    case North =>
      (match destination
       case Straight => [Point(start.x, h + CAR_LENGTH)]
       case Left => [Point(HALF_W - L2, HALF_H + L1), Point(w + CAR_LENGTH, HALF_H + L1)]
       case Right => [Point(HALF_W - L1, HALF_H - L2), Point(-CAR_LENGTH, HALF_H - L2)])
    case South =>
      (match destination
       case Straight => [Point(start.x, -CAR_LENGTH)]
       case Left => [Point(HALF_W + L2, HALF_H - L1), Point(-CAR_LENGTH, HALF_H - L1)]
       case Right => [Point(HALF_W + L1, HALF_H + L2), Point(w + CAR_LENGTH, HALF_H + L2)])
    case East =>
      (match destination
       case Straight => [Point(-CAR_LENGTH, start.y)]
       case Left => [Point(HALF_W - L1, HALF_H - L2), Point(HALF_W - L1, h + CAR_LENGTH)]
       case Right => [Point(HALF_W + L2, HALF_H - L1), Point(HALF_W + L2, -CAR_LENGTH)])
    case West =>
      (match destination
       case Straight => [Point(w + CAR_LENGTH, start.y)]
       case Left => [Point(HALF_W + L2, HALF_H + L1), Point(HALF_W + L2, -CAR_LENGTH)]
       case Right => [Point(HALF_W - L1, HALF_H + L2), Point(HALF_W - L1, h + CAR_LENGTH)])
  }

  lemma LayoutValues()
    ensures HALF_W == 300.0 && HALF_H == 300.0 && HALF_ROAD == 35.0
    ensures L1 == 8.75 && L2 == 26.25 && CAR_LENGTH == 22.5
    ensures SIMULATION_WIDTH == 600.0 && SIMULATION_HEIGHT == 600.0
    ensures ROAD_WIDTH * INTERSECTION_MARGIN_RATIO == 17.5
  {
  }

  /** Every path ends off the canvas; a straight path keeps its lane's
      coordinate; a turn pivots inside the junction box. */
  lemma PathShape(approach: Direction, destination: Maneuver, start: Point)
    ensures var path := GenerateSmoothPath(approach, destination, start);
      && OffCanvas(path[|path| - 1])
      && (destination == Straight && (approach == North || approach == South) ==> path[0].x == start.x)
      && (destination == Straight && (approach == East || approach == West) ==> path[0].y == start.y)
      && (destination != Straight ==> IsInIntersection(path[0].x, path[0].y))
  {
    LayoutValues();
    var path := GenerateSmoothPath(approach, destination, start);
    match approach
    case North => {}
    case South => {}
    case East => {}
    case West => {}
  }

  /** Signed distance in pixels from the vehicle to its approach's stop line,
      positive while the line is still ahead. */
  function DistanceToStopLine(approach: Direction, x: real, y: real): (d: real)
    ensures approach == North ==> (d > 0.0 <==> y < HALF_H - HALF_ROAD)
    ensures approach == South ==> (d > 0.0 <==> y > HALF_H + HALF_ROAD)
    ensures approach == East ==> (d > 0.0 <==> x > HALF_W + HALF_ROAD)
    ensures approach == West ==> (d > 0.0 <==> x < HALF_W - HALF_ROAD)
  {
    match approach
    case North => HALF_H - HALF_ROAD - y
    case South => y - (HALF_H + HALF_ROAD)
    case East => x - (HALF_W + HALF_ROAD)
    case West => HALF_W - HALF_ROAD - x
  }
}
