/** The data model of the simulation kernel: the snapshot the reducer maps to
    a new snapshot, and the actions it accepts. */
module Model {
  import opened Base

  datatype Direction = North | South | East | West
  datatype Color = Red | Yellow | Green
  datatype Maneuver = Straight | Left | Right
  datatype VehicleType = Car | Motorcycle
  datatype Status = Moving | Waiting

  /** A coordinate as found in a vehicle record: a finite number, or a value
      whose type is not number and which divides to NaN (undefined, an object,
      a non-numeric string), which validation rejects. A NaN or infinite
      number, and a null, boolean, empty-string or array coordinate (which
      divide to a number), have no counterpart here. */
  datatype Coord = Num(value: real) | NonNumeric

  datatype Point = Point(x: real, y: real)

  datatype Vehicle = Vehicle(
    id: int,
    vehicleType: VehicleType,
    x: Coord,
    y: Coord,
    speed: real,            // speed_mps
    angle: real,            // heading, radians
    isBraking: bool,
    approach: Direction,
    lane: nat,
    destination: Maneuver,
    status: Status,
    waitTime: real,
    path: seq<Point>,
    pathIndex: nat,
    aggression: real,
    maxSpeed: real,         // maxSpeed_mps
    acceleration: real,     // acceleration_mps2
    braking: real           // braking_mps2
  )

  predicate HasCoords(v: Vehicle) {
    v.x.Num? && v.y.Num?
  }

  /** The light record: one colour per approach plus the controller's timers.
      `nextGreenDirection` is a string because the reducer stores whatever
      direction name an advisory decision carries. */
  datatype Lights = Lights(
    north: Color,
    south: Color,
    east: Color,
    west: Color,
    countdown: real,        // countdownSeconds
    accumulator: real,      // timeAccumulator
    cycleStep: nat,
    nextGreenDuration: real,
    nextGreenDirection: string
  )

  function LightOf(l: Lights, d: Direction): Color {
    match d
    case North => l.north
    case South => l.south
    case East => l.east
    case West => l.west
  }

  function SetLight(l: Lights, d: Direction, c: Color): (r: Lights)
    ensures LightOf(r, d) == c
    ensures forall e :: e != d ==> LightOf(r, e) == LightOf(l, e)
    ensures r.countdown == l.countdown && r.accumulator == l.accumulator
    ensures r.cycleStep == l.cycleStep
    ensures r.nextGreenDuration == l.nextGreenDuration && r.nextGreenDirection == l.nextGreenDirection
  {
    match d
    case North => l.(north := c)
    case South => l.(south := c)
    case East => l.(east := c)
    case West => l.(west := c)
  }

  /** At most one approach shows something other than red. */
  predicate MutuallyExclusive(l: Lights) {
    forall d, e :: d != e && LightOf(l, d) != Red ==> LightOf(l, e) == Red
  }

  /** Direction names as the source spells them. */
  function DirectionName(d: Direction): string {
    match d
    case North => "north"
    case South => "south"
    case East => "east"
    case West => "west"
  }

  function DirectionNamed(s: string): (r: Option<Direction>)
    ensures r.Some? ==> DirectionName(r.value) == s
    ensures r.None? ==> forall d :: DirectionName(d) != s
  {
    if s == "north" then Some(North)
    else if s == "south" then Some(South)
    else if s == "east" then Some(East)
    else if s == "west" then Some(West)
    else None
  }

  datatype Config = Config(
    intersectionType: string,   // "cross" | "t-junction"
    lightMode: string,          // "traditional" | "reason"
    density: real,
    motorcycleRatio: real,
    traditionalGreenDuration: real
  )

  const TRADITIONAL: string := "traditional"
  const REASON: string := "reason"
  const T_JUNCTION: string := "t-junction"

  /** A partial configuration merged by UPDATE_CONFIG; `None` is an absent key. */
  datatype ConfigPatch = ConfigPatch(
    intersectionType: Option<string>,
    lightMode: Option<string>,
    density: Option<real>,
    motorcycleRatio: Option<real>,
    traditionalGreenDuration: Option<real>
  )

  /** One value per approach (queue lengths, longest waits). */
  datatype PerDirection<T> = PerDirection(north: T, south: T, east: T, west: T) {
    function Get(d: Direction): T {
      match d
      case North => north
      case South => south
      case East => east
      case West => west
    }
  }

  datatype Trip = Trip(id: int, waitTime: real)

  datatype Stats = Stats(
    totalThroughput: nat,
    averageWaitTime: real,
    queueLengths: PerDirection<nat>,
    longestWait: PerDirection<real>,
    completedTrips: seq<Trip>
  )

  datatype Simulation = Simulation(isRunning: bool, time: real, needsAIDecision: bool)

  datatype Ai = Ai(reasoning: string, isThinking: bool)

  datatype State = State(
    simulation: Simulation,
    config: Config,
    lights: Lights,
    vehicles: seq<Vehicle>,
    stats: Stats,
    ai: Ai
  )

  /** The payload of SET_AI_DECISION; `None` is an absent (or null) field. */
  datatype DecisionPayload = DecisionPayload(
    nextGreenDirection: Option<string>,
    greenLightDuration: Option<real>,
    reasoning: Option<string>
  )

  /** A reducer action. `Unhandled` is an action whose type is none of the
      seven names the switch handles (START_SIM, PAUSE_SIM, RESET_SIM,
      UPDATE_CONFIG, AI_THINKING, SET_AI_DECISION, TICK): an action with one
      of those names is the matching constructor, never `Unhandled`. */
  datatype Action =
    | StartSim
    | PauseSim
    | ResetSim
    | UpdateConfig(patch: ConfigPatch)
    | AiThinking
    | SetAiDecision(payload: DecisionPayload)
    | Tick(deltaTime: Option<real>)
    | Unhandled(actionType: string)

  const INITIAL_LIGHTS: Lights := Lights(Green, Red, Red, Red, 30.0, 0.0, 0, 30.0, "east")

  const INITIAL_CONFIG: Config := Config("cross", TRADITIONAL, 40.0, 0.6, 30.0)

  const EMPTY_STATS: Stats :=
    Stats(0, 0.0, PerDirection(0, 0, 0, 0), PerDirection(0.0, 0.0, 0.0, 0.0), [])

  const INITIAL_STATE: State := State(
    Simulation(false, 0.0, false),
    INITIAL_CONFIG,
    INITIAL_LIGHTS,
    [],
    EMPTY_STATS,
    Ai("AI is waiting for its turn.", false)
  )
}
