/** The simulation constants of src/constants.js, in pixels, metres and seconds. */
module Constants {

  const PIXELS_PER_METER: real := 5.0

  const CAR_LENGTH_M: real := 4.5
  const MOTO_LENGTH_M: real := 2.2
  /** Car length in pixels (22.5). */
  const CAR_LENGTH: real := CAR_LENGTH_M * PIXELS_PER_METER

  const ROAD_LANE_WIDTH_M: real := 3.5
  const NUM_LANES_PER_DIRECTION: real := 2.0
  const INTERSECTION_SIZE_M: real := 120.0

  /** 17.5 px */
  const LANE_WIDTH_PX: real := ROAD_LANE_WIDTH_M * PIXELS_PER_METER
  /** 70 px: two lanes each way. */
  const ROAD_WIDTH: real := ROAD_LANE_WIDTH_M * NUM_LANES_PER_DIRECTION * 2.0 * PIXELS_PER_METER
  /** 600 px square canvas. */
  const SIMULATION_WIDTH: real := INTERSECTION_SIZE_M * PIXELS_PER_METER
  const SIMULATION_HEIGHT: real := INTERSECTION_SIZE_M * PIXELS_PER_METER
  const STOP_LINE_BUFFER: real := 5.0 * PIXELS_PER_METER

  /** A waypoint counts as reached closer than this many pixels. */
  const APPROACH_THRESHOLD: real := 2.0 * PIXELS_PER_METER
  const MAX_VEHICLES: nat := 50

  /** The reducer overrides the exported 0.1 with 0 so that vehicles can stop. */
  const MIN_SPEED_MPS: real := 0.0

  const MAX_SPEED_MPS: real := 50.0 / 3.6
  const TURN_SPEED_LIMIT_MPS: real := 20.0 / 3.6

  const IDM_MIN_SPACING_M: real := 2.0

  const GRID_CELL_SIZE: real := 100.0
  const STOPPING_DISTANCE_MULTIPLIER: real := 1.5
  const SPAWN_PROBABILITY_BASE: real := 1000.0
  const INTERSECTION_MARGIN_RATIO: real := 0.25

  /** Ticks longer than this are rejected by the reducer. */
  const MAX_DELTA_TIME: real := 0.5
}
