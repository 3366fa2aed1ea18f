# Traffic intersection simulation kernel, modelled in Dafny

This project models the simulation kernel of a four-way (or T-junction)
traffic intersection simulator. The kernel is one reducer, `simulationReducer`,
that maps a state snapshot and an action to a new snapshot:

- **Commands** start, pause, reset, merge configuration, mark the advisory
  service busy and apply an advisory decision.
- **A tick** does the following in order:
  - rebuilds a spatial grid of the vehicles;
  - advances the traffic-light controller, either the fixed 12-step cycle or
    the externally advised yellow/green/idle machine;
  - steps every vehicle;
  - retires the vehicles that reached the end of their path into the
    completed-trip log, returning their record to a pool;
  - tries one random spawn;
  - recomputes the queue and wait statistics.

The second, smaller part models the decoder of the advisory service's reply.
It cuts the JSON object out of the reply text and normalises its fields into a
decision with a valid direction and defaults, or falls back to a fixed safe
decision.

Layout:

| file | module | contents |
|---|---|---|
| base.dfy | `Base` | `Option`, `Result` (a value or the message of a thrown error), `Max`, `Min` |
| constants.dfy | `Constants` | the constants of `src/constants.js` |
| model.dfy | `Model` | vehicles, lights, configuration, statistics, the state and the actions |
| lights.dfy | `TrafficLights` | `updateTrafficLights` and the countdown step of TICK |
| layout.dfy | `Layout` | lane start positions, `generateSmoothPath`, the junction box, stop-line distance |
| physics.dfy | `Physics` | `createVehiclePhysics`, `validateVehicle`, the yellow-stop rule, `handleIntersectionAndLights`, `updatePhysics` |
| grid.dfy | `Grid` | the spatial grid and the 3×3 neighbourhood query, as functions |
| stats.dfy | `Statistics` | `calculateStats` |
| spawn.dfy | `Spawn` | `spawnVehicles` as a function of the random draws |
| tick.dfy | `Tick` | the TICK case as a function, and the invariant it keeps |
| commands.dfy | `Commands` | the other cases, and the whole reducer as a function |
| engine.dfy | `Reducer` | class `Engine`: the module-level pool, grid, path cache and id counter, and the step-by-step procedures on them |
| gemini.dfy | `Decoder` | the reply decoder of `getAITrafficDecision` |

How the model is built:

- **Values.** Vehicles, lights and the whole state are datatype values. The
  source copies the state, the light record, the vehicle list and every vehicle
  before it changes them. A value update is therefore the same as the source's
  copy and mutate. The input snapshot is never changed, by construction.
- **The engine class.** The module-level mutable state belongs to class
  `Reducer.Engine`: the pool, the grid, the path cache and `nextVehicleId`.
  Its methods change that state in place with loops, as the source does. Each
  method is proved equal to the specification function of its module:
  - `UpdateSpatialGrid` to `Grid.BuildGrid`;
  - `GetNearbyVehicles` to `Grid.Nearby`;
  - `UpdateVehicles` to `Tick.UpdateAll`;
  - `SpawnVehicles` to `Spawn.SpawnSpec`;
  - `Tick` to `Tick.TickSpec`;
  - `Reduce` to `Commands.ReduceSpec`.
- **Collaborators as inputs.** These parts of a tick are floating-point
  functions, so they are inputs, held in the `Physics.Env` datatype:
  - the car-following acceleration (the Intelligent Driver Model);
  - the leader search;
  - `atan2` for the heading;
  - `cos`/`sin` for the displacement.

  The six `Math.random()` draws of a spawn attempt are inputs too, held in the
  `Spawn.Draws` record; each is in [0, 1).
- **Numbers.** Numbers are `real`. `Coord.NonNumeric` stands for a
  coordinate that is undefined, an object or a non-numeric string: validation
  drops it, and the grid files it under a "NaN" cell. NaN and ±Infinity coordinates,
  and missing or NaN speeds, pass validation in the source and are not
  modelled (see "## Left out").

Behaviour taken from the code where its own comments say otherwise:

- **Yellow lights.** The yellow-light rule tests `aggression < 0.8` against
  both reasons to stop. A driver with aggression 0.8 or more therefore never
  stops on yellow, not even within half a car length of the line
  (`Physics.AggressiveNeverStopsOnYellow`). The comment at
  src/logic/simulationReducer.js:626 says that near the line even aggressive
  drivers stop.
- **Tick guard.** The guard `!deltaTime || deltaTime > 0.5` accepts a negative
  step, and the model does too.
- **An advisory `{}` reply.** Such a reply is not the fallback decision. The
  decoder turns it into north, 15 s and "Reasoning not provided by AI."
  (`Decoder.EmptyObjectIsNotFallback`). A SET_AI_DECISION with an empty
  payload uses a third text, "AI made a decision"
  (`Commands.EmptyDecisionDefaults`).
- **Decisions the reducer does not check.** The reducer stores whatever
  direction string a decision carries. A string that names no approach leaves
  every light red. In advised mode, a `nextGreenDirection` equal to `"green"`
  counts as "some value is green", because the check runs over all values of
  the light record (`TrafficLights.SomeValueGreen`).
- **No exit-gap check.** There is no exit-queue check on green: only red and
  yellow lights inject a virtual leader (`Physics.GreenNeverInjectsLeader`).
- **Stale grid.** The grid is built from the vehicles as they were before the
  tick, including vehicles that validation will drop. A leader can therefore
  be such a vehicle.
- **The id counter.** `nextVehicleId` starts at 1 and survives RESET.

## Model

| member | source | states |
|---|---|---|
| Model.SetLight | src/logic/simulationReducer.js:364-366 | `trafficLights[direction] = light` changes that approach's colour and nothing else in the record |
| Model.DirectionNamed | src/logic/simulationReducer.js:212-220 | a direction string names an approach exactly when it is one of the four names; otherwise no approach has that name |
| TrafficLights.CountdownStep | src/logic/simulationReducer.js:253-257 | the countdown drops by exactly 1 iff the accumulator plus the step reaches 1.0; otherwise it is unchanged; the accumulator keeps the remainder; nothing else changes |
| TrafficLights.Cycle | src/logic/simulationReducer.js:325-354 | the fixed cycle has twelve phases |
| TrafficLights.CycleShape | src/logic/simulationReducer.js:325-354 | phase s lights approach [N,S,E,W][s/3], green, yellow or nothing (all red) by s % 3; its duration is the green time, 3 s or 1 s |
| TrafficLights.AllRed | src/logic/simulationReducer.js:359-362 | every approach red |
| TrafficLights.FirstWith | src/logic/simulationReducer.js:379-386 | the first approach in N, S, E, W order showing a colour, or none when no approach shows it |
| TrafficLights.Advance | src/logic/simulationReducer.js:319-419 | while the countdown is positive, and for an unknown light mode, the lights are unchanged |
| TrafficLights.UpdateTrafficLights | src/logic/simulationReducer.js:319-419 | the field-by-field update equals `Advance` |
| TrafficLights.TickLights | src/logic/simulationReducer.js:253-258 | feeding the step into the accumulator, taking a whole second off the countdown and running the controller equals `LightsTick` |
| TrafficLights.TraditionalAdvance | src/logic/simulationReducer.js:356-369 | fixed cycle, countdown ≤ 0: step (s+1) % 12; only that phase's approach may be lit, in that phase's colour; countdown from the phase; accumulator 0; the advised fields kept |
| TrafficLights.ReasonYellowToGreen | src/logic/simulationReducer.js:373-395 | advised mode: the first yellow approach turns green and all others red, for nextGreenDuration seconds, accumulator 0; the step and the stored decision are kept |
| TrafficLights.ReasonGreenToYellow | src/logic/simulationReducer.js:396-410 | advised mode, nothing yellow: the first green approach turns yellow for 3 s; the other approaches keep their colour, and the step and the stored decision are kept |
| TrafficLights.ReasonIdle | src/logic/simulationReducer.js:411-413 | advised mode, nothing lit: only the countdown is re-armed to 1 s and the accumulator zeroed |
| TrafficLights.ReasonStrayGreenLightsWest | src/logic/simulationReducer.js:396-410 | advised mode, every approach red but the stored decision is the string "green": the value scan finds it, and the fallback west turns yellow for 3 s |
| TrafficLights.AdvancePreservesExclusion | src/logic/simulationReducer.js:319-419 | at most one approach non-red before the phase change implies the same after it, in every mode |
| TrafficLights.LightsTickPreservesExclusion | src/logic/simulationReducer.js:252-258 | the light part of a tick keeps mutual exclusion |
| TrafficLights.LightsAfterSplit | src/logic/simulationReducer.js:252-258 | n + m ticks of the lights are n ticks followed by m more |
| TrafficLights.HalfSecondHold | src/logic/simulationReducer.js:252-258 | with half-second ticks from a fresh k-second countdown, after j < 2k ticks the countdown has lost j/2 whole seconds, the accumulator holds the odd half second, and nothing else has changed |
| TrafficLights.HalfSecondEnd | src/logic/simulationReducer.js:252-258 | the 2k-th half-second tick of a fresh k-second countdown fires the phase change |
| TrafficLights.HalfSecondCountdown | src/logic/simulationReducer.js:252-258 | with half-second ticks, a fresh countdown of k seconds keeps every colour and the cycle step on each of the first 2k - 1 ticks, and the 2k-th tick fires the phase change |
| TrafficLights.HalfSecondPhase | src/logic/simulationReducer.js:252-369 | fixed cycle, half-second ticks: after 2k ticks of a k-second phase the controller is in the next phase |
| TrafficLights.CycleNorthYellow | src/logic/simulationReducer.js:147-168 | from the initial lights with a g-second green, after g seconds north is yellow (the only lit approach) for 3 s at step 1 |
| TrafficLights.CycleAllRed | src/logic/simulationReducer.js:325-369 | fixed cycle: from step 1 with a fresh 3 s countdown, six half-second ticks later every light is red for 1 s at step 2 |
| TrafficLights.CycleSouthGreen | src/logic/simulationReducer.js:325-369 | fixed cycle: from the 1 s clearance at step 2, two half-second ticks later south alone is green for the configured green time at step 3 |
| TrafficLights.ShortTickKeepsCountdown | src/logic/simulationReducer.js:253-257 | one 0.016 s tick from a 30 s countdown only feeds the accumulator; countdown and colours stay |
| Layout.LaneStart | src/logic/simulationReducer.js:714-748 | the start position of every lane lies off the canvas |
| Layout.GenerateSmoothPath | src/logic/simulationReducer.js:825-887 | a straight path has one waypoint, a turn two |
| Layout.PathShape | src/logic/simulationReducer.js:825-887 | every path ends off the canvas; a straight path keeps the lane's coordinate; a turn's first waypoint lies inside the junction box |
| Layout.DistanceToStopLine | src/logic/simulationReducer.js:584-597 | the signed distance is positive exactly while the vehicle is before its approach's stop line |
| Layout.LayoutValues | src/constants.js:4-29 | the derived geometry: half-canvas 300 px, half-road 35 px, lane offsets 8.75 and 26.25 px, car length 22.5 px |
| Physics.CreateVehiclePhysics | src/logic/simulationReducer.js:110-120 | the drawn aggression is stored unchanged |
| Physics.KinematicsBounds | src/logic/simulationReducer.js:91-120 | for aggression in [0, 1): top speed within 10 % of the speed limit; acceleration and braking within the class's ranges; motorcycles accelerate and brake harder than cars |
| Physics.KinematicsMonotone | src/logic/simulationReducer.js:110-120 | more aggression never lowers top speed, acceleration or braking |
| Physics.AggressiveNeverStopsOnYellow | src/logic/simulationReducer.js:613-631 | as written, aggression ≥ 0.8 never stops on yellow, at any distance |
| Physics.CautiousStopsNearLine | src/logic/simulationReducer.js:613-631 | aggression < 0.8 stops on yellow within half a car length of the line |
| Physics.YellowStopByBrakingDistance | src/logic/simulationReducer.js:613-631 | otherwise a cautious driver with positive braking stops on yellow iff v² > 2·b·distance |
| Physics.RedLightStopsAtLine | src/logic/simulationReducer.js:604-646 | on red within the interaction zone, the acceleration is the car-following response to a stopped leader at the stop line less the 25 px buffer |
| Physics.TurnSpeedOverride | src/logic/simulationReducer.js:643-657 | with no virtual leader, a turning vehicle inside the box above the turn limit gets exactly −braking |
| Physics.AggressiveTreatsYellowAsGreen | src/logic/simulationReducer.js:575-661 | for aggression ≥ 0.8 the junction logic gives the same result on yellow as on green |
| Physics.GreenNeverInjectsLeader | src/logic/simulationReducer.js:575-661 | on green the result is the car-following value, or −braking for a fast turn; no virtual leader is injected |
| Physics.PhysicsSpeedBounds | src/logic/simulationReducer.js:671-684 | the clamped speed lies in [0, maxSpeed]; the leader cap only lowers it, to at most the leader's speed, and applies only when the leader is close |
| Physics.PhysicsStatusAndWait | src/logic/simulationReducer.js:686-700 | waiting iff speed < 0.05; the wait grows by dt iff waiting, else it is unchanged; a stopped vehicle does not move; the brake lamp is lit iff acceleration < −0.5 |
| Physics.PhysicsKeepsIdentity | src/logic/simulationReducer.js:664-701 | the step changes only speed, position, status, wait time and the brake lamp; numeric coordinates stay numeric |
| Physics.UpdatePhysics | src/logic/simulationReducer.js:664-701 | the statement-by-statement update equals `PhysicsStep` |
| Grid.InCell | src/logic/simulationReducer.js:45-58 | the vehicles of a given cell, in order |
| Grid.BuildGridBuckets | src/logic/simulationReducer.js:45-58 | each bucket of the rebuilt grid holds exactly the vehicles of its cell, in input order; a key is present iff its cell is occupied |
| Grid.Gather | src/logic/simulationReducer.js:64-72 | a vehicle is gathered iff it is in the bucket of one of the visited keys |
| Grid.WithoutId | src/logic/simulationReducer.js:75 | the filter keeps exactly the vehicles with a different id, and never grows the list |
| Grid.NeighbourKeysAdjacent | src/logic/simulationReducer.js:64-72 | the nine visited keys are exactly the keys adjacent to the centre on both axes (a NaN axis is adjacent only to NaN) |
| Grid.NearbyInNeighbourCells | src/logic/simulationReducer.js:60-76 | on any grid, the query returns exactly the vehicles with another id held by a bucket adjacent to the query's cell on both axes |
| Grid.NearbyMembers | src/logic/simulationReducer.js:45-76 | a vehicle is returned iff it is one of the gridded vehicles, its id differs from the query's, and its cell is adjacent to the query's |
| Grid.CloseCoordinatesAdjacent | src/logic/simulationReducer.js:48-49 | coordinates less than one cell apart land in adjacent cells |
| Grid.NearbyFindsClose | src/logic/simulationReducer.js:60-76 | the query never misses another vehicle within 100 px on both axes |
| Grid.NaNCentreSeesOnlyNaN | src/logic/simulationReducer.js:60-76 | a query from a vehicle with a non-numeric x sees only vehicles with a non-numeric x |
| Statistics.QueueLength | src/logic/simulationReducer.js:894-896 | a queue never counts more vehicles than there are |
| Statistics.CalculateStats | src/logic/simulationReducer.js:889-922 | the loops compute exactly `StatsOf`: queues and longest waits of the waiting vehicles, throughput and mean wait of the trips; the trips and every other field are kept |
| Statistics.LongestWaitIsMaximum | src/logic/simulationReducer.js:894-901 | the longest wait on an approach is ≥ 0, bounds every waiting vehicle's wait there, and is 0 or one of those waits |
| Statistics.QueuesCountWaiting | src/logic/simulationReducer.js:894-901 | the four queues add up to the number of waiting vehicles |
| Statistics.NoWaitingNoQueues | src/logic/simulationReducer.js:894-901 | with no waiting vehicle every queue and longest wait is 0 |
| Statistics.AverageTimesCount | src/logic/simulationReducer.js:903-911 | mean × count = total wait; with no trips the mean is 0 |
| Statistics.TotalWaitBounds | src/logic/simulationReducer.js:903-906 | trip waits all in [lo, hi] put the total in [n·lo, n·hi] |
| Statistics.AverageWaitBounds | src/logic/simulationReducer.js:908-911 | trip waits all in [lo, hi] put the mean in [lo, hi] |
| Spawn.Index | src/logic/simulationReducer.js:755-756 | `Math.floor(r * n)` for r in [0, 1) is a valid index, the floor of r·n |
| Spawn.Choose | src/logic/simulationReducer.js:768-771 | the pick is an element of the list |
| Spawn.LanesAllowing | src/logic/simulationReducer.js:773-775 | the kept lanes are exactly those whose allowed set holds the destination |
| Spawn.AllowedLanes | src/logic/simulationReducer.js:773-781 | the lane list is never empty, and every entry is one of the approach's two lanes |
| Spawn.SpawnAppendsAtMostOne | src/logic/simulationReducer.js:703-823 | at most one vehicle is appended, the others stay in place, only the vehicle list changes, and the cap of 50 is never crossed |
| Spawn.NoSpawnAtCapOrZeroDensity | src/logic/simulationReducer.js:706-709 | at 50 vehicles, or with density ≤ 0, nothing spawns |
| Spawn.NewVehicleFresh | src/logic/simulationReducer.js:800-818 | the new vehicle has the given id and is valid; it is at rest, moving, unwaited, at path index 0 on its lane's off-canvas start; its path is the generated one and its aggression is the drawn one |
| Spawn.NewVehicleLane | src/logic/simulationReducer.js:773-784 | the chosen lane allows the destination (the fallback never fires); a left turn starts in lane 0 and a right turn in lane 1 |
| Spawn.TJunctionRoutes | src/logic/simulationReducer.js:751-766 | a T-junction never spawns from the south, never straight from the north, never right from the east, never left from the west |
| Spawn.MotorcycleRatioExtremes | src/logic/simulationReducer.js:797 | ratio ≤ 0 gives only cars and ratio ≥ 1 only motorcycles |
| Tick.StepVehicleOutcome | src/logic/simulationReducer.js:425-479 | a vehicle is dropped iff invalid; retired iff valid and past the end of its path, as exactly (id, waitTime); otherwise kept with its identity, route and driver, its path index up by 0 or 1, and its status and wait updated |
| Tick.StepVehicleKeepsWellFormed | src/logic/simulationReducer.js:425-479 | a kept vehicle is valid again, with speed in [0, maxSpeed], when its leader comes from the grid |
| Tick.UpdateAllCounts | src/logic/simulationReducer.js:421-487 | kept + retired + invalid = input vehicles: each vehicle is accounted for exactly once |
| Tick.UpdateAllKeepsEach | src/logic/simulationReducer.js:421-487 | every vehicle whose step keeps it is in the sweep's result |
| Tick.UpdateAllKeptFrom | src/logic/simulationReducer.js:421-487 | every vehicle of the sweep's result is the kept outcome of some input vehicle |
| Tick.UpdateAllArrived | src/logic/simulationReducer.js:421-487 | a trip is recorded iff some input vehicle's step retires it as that trip |
| Tick.UpdateAllKeepsIds | src/logic/simulationReducer.js:421-487 | ids increasing along the input stay increasing along the kept vehicles, and each kept id is an input id |
| Tick.UpdateAllKeepsWellFormed | src/logic/simulationReducer.js:421-487 | on the grid of the pre-tick vehicles, the sweep keeps well-formed vehicles well formed |
| Tick.SpawnKeepsInvariant | src/logic/simulationReducer.js:703-823 | a spawn keeps the invariant against the next id, advanced by one when a vehicle spawns |
| Tick.TickKeepsInvariant | src/logic/simulationReducer.js:232-313 | a tick keeps the invariant: all vehicles well formed, ids increasing and below the next id, at most 50 vehicles, at most one lit approach. No vehicle is lost; the next id grows by at most 1; old trips stay a prefix; throughput counts all trips |
| Tick.NoneInvalid | src/logic/simulationReducer.js:123-135 | under the invariant no vehicle fails validation |
| Tick.RejectedTickIsIdentity | src/logic/simulationReducer.js:233 | a missing, zero or over-0.5 s step returns the state and the id counter unchanged |
| Tick.TickKeepsControls | src/logic/simulationReducer.js:232-313 | a tick leaves the run flag, the configuration and the advisory text alone |
| Commands.RunFlag | src/logic/simulationReducer.js:186-192 | START sets and PAUSE clears the run flag; each is idempotent and the last one wins; PAUSE after START restores the state iff it was stopped |
| Commands.ResetForgetsAllButConfig | src/logic/simulationReducer.js:193-194 | RESET keeps only the configuration, gives a stopped, empty state at the first phase, and is idempotent |
| Commands.MergeConfigLaws | src/logic/simulationReducer.js:195-196 | for each of the five keys, an absent key keeps its value and a present key takes the patch's; the empty patch is the identity; merging twice is merging once |
| Commands.AiThinkingEffect | src/logic/simulationReducer.js:197-202 | AI_THINKING sets the busy flag and fixed text and clears the request flag; the run flag, the simulation time, lights, vehicles, statistics and configuration are unchanged |
| Commands.DecisionLightsEffect | src/logic/simulationReducer.js:204-224 | a decision lights exactly its named approach yellow (none for an unknown name), with countdown 3, accumulator 0 and the decision stored |
| Commands.EmptyDecisionDefaults | src/logic/simulationReducer.js:204-229 | an empty payload turns north alone yellow (for the usual 3 s yellow) and stores north with a 15 s next green, with "AI made a decision", not thinking |
| Commands.DecisionThenGreen | src/logic/simulationReducer.js:204-392 | in advised mode a decision for approach d turns d green, and only d, for the decided duration once its yellow ends |
| Commands.DecodedDecisionLightsOneYellow | src/services/geminiService.js:79-90 | any decoded direction names an approach, so the decision built from it lights exactly that approach yellow |
| Commands.ReducePreservesInvariant | src/logic/simulationReducer.js:184-317 | every handled action keeps the invariant without lowering the next id; an unhandled action throws |
| Commands.InitialInvariant | src/logic/simulationReducer.js:147-182 | the initial state satisfies the invariant |
| Reducer.Engine.constructor | src/logic/simulationReducer.js:33-182 | module load: empty pool, grid and cache, the first id is 1 |
| Reducer.Engine.GetVehicleFromPool | src/logic/simulationReducer.js:34-36 | pops the last pooled record, or gives a fresh one; a pooled record holds no field |
| Reducer.Engine.ReturnVehicleToPool | src/logic/simulationReducer.js:38-41 | every key is deleted before the record is pushed, so exactly one empty record is added |
| Reducer.Engine.UpdateSpatialGrid | src/logic/simulationReducer.js:45-58 | the cleared and refilled grid equals `BuildGrid` of the vehicles |
| Reducer.Engine.GatherNeighbours | src/logic/simulationReducer.js:64-72 | the nested dx/dy loops concatenate the buckets of the nine neighbour keys in order, as `Gather` |
| Reducer.Engine.GetNearbyVehicles | src/logic/simulationReducer.js:60-76 | the result equals `Nearby`, and holds exactly the vehicles with another id in a bucket adjacent on both axes |
| Reducer.Engine.GetCachedPath | src/logic/simulationReducer.js:78-89 | a hit returns the cached path and leaves the cache alone; a miss generates and stores the path; a cached path is always the one for its lane's start |
| Reducer.Engine.MoveVehicle | src/logic/simulationReducer.js:441-475 | steering, leader, junction override and physics on the copy give the kept vehicle of `StepVehicle` |
| Reducer.Engine.UpdateVehicles | src/logic/simulationReducer.js:421-487 | the loop equals `UpdateAll`: kept vehicles replace the list and the trips are appended; one cleared record is pooled per retired vehicle |
| Reducer.Engine.ChooseRoute | src/logic/simulationReducer.js:750-784 | the drawn approach, route and lane are the ones `Choose` picks from the allowed lists, with the first-lane fallback; the lane is one of the approach's lanes |
| Reducer.Engine.CreateVehicle | src/logic/simulationReducer.js:786-818 | the new vehicle equals `NewVehicle` with the current id, which then grows by 1; one pooled record is used; the cache only grows and stays consistent |
| Reducer.Engine.SpawnVehicles | src/logic/simulationReducer.js:703-823 | equals `SpawnSpec` with the current id; the id counter grows by 1 iff a vehicle spawns; one pooled record is used then |
| Reducer.Engine.MoveAll | src/logic/simulationReducer.js:238-270 | rebuilding the grid, advancing the lights and updating the vehicles give the moved state of `TickSpec`; the grid is that of the pre-tick vehicles |
| Reducer.Engine.Tick | src/logic/simulationReducer.js:232-313 | equals `TickSpec` in state and next id; a rejected step leaves grid and pool alone; an accepted one leaves the grid of the pre-tick vehicles |
| Reducer.Engine.Reduce | src/logic/simulationReducer.js:184-317 | equals `ReduceSpec`: the same state or the same "Unhandled action type: …" error; only TICK touches pool, grid and cache |
| Reducer.TickUnderInvariant | src/logic/simulationReducer.js:232-313 | a tick of the engine keeps the reducer invariant against the engine's id counter |
| Decoder.Or | src/services/geminiService.js:79-82 | `a \|\| b \|\| fallback`: the result is a truthy operand or the fallback; a truthy first operand wins, else a truthy second one; the result is truthy whenever any operand is |
| Decoder.IndexOf | src/services/geminiService.js:71 | −1 iff the character is absent; otherwise its first position |
| Decoder.LastIndexOf | src/services/geminiService.js:72 | −1 iff the character is absent; otherwise its last position |
| Decoder.ExtractFindsObject | src/services/geminiService.js:71-76 | an object is extracted iff some '{' comes before some '}' |
| Decoder.ExtractShape | src/services/geminiService.js:71-76 | the extracted string begins with '{' and ends with '}'; it sits between a prefix without '{' and a suffix without '}' |
| Decoder.ExtractWrapped | src/services/geminiService.js:71-76 | conversely, an object between such a prefix and suffix is extracted exactly |
| Decoder.ToLower | src/services/geminiService.js:85-90 | the length is kept, no ASCII capital is left, other characters are kept, and each capital becomes its lower-case letter |
| Decoder.ToLowerLaws | src/services/geminiService.js:85-90 | lowercasing is idempotent, and a string without capitals is unchanged |
| Decoder.DirectionAlwaysValid | src/services/geminiService.js:55-107 | whatever the reply, the decided direction is one of north, south, east, west |
| Decoder.FallbackCases | src/services/geminiService.js:55-75 | a failed call, a blocked prompt, an empty text or a text without '{' before '}' give the fallback decision |
| Decoder.DirectionPrecedence | src/services/geminiService.js:79-90 | snake-case key, then camel-case key, then "north"; a valid lowercased string is kept, any other string becomes "north", a non-string truthy value gives the fallback |
| Decoder.DirectionCaseInsensitive | src/services/geminiService.js:84-90 | any capitalisation of one of the four names under the snake-case key decides that name |
| Decoder.FieldDefaults | src/services/geminiService.js:89-94 | a truthy `green_light_duration` is kept; otherwise a truthy `durationSeconds` is kept; otherwise the duration is 15; a truthy reasoning is kept, a falsy one becomes "Reasoning not provided by AI." |
| Decoder.EmptyObjectIsNotFallback | src/services/geminiService.js:79-94 | an empty object decodes to north, 15, "Reasoning not provided by AI.", which differs from the fallback |
| Decoder.WellFormedReplyDecodes | src/services/geminiService.js:63-98 | a reply holding a well-formed object decodes to exactly its direction, duration and reasoning |

## Left out

- `calculateIDMAcceleration` and the distance/angle maths of `findLeader` (src/logic/simulationReducer.js:489-557) use `Math.pow`, `Math.sqrt` and `atan2`, so they are inputs (`Env.idm`, `Env.findLeader`). The only assumption about the leader search is that it returns one of its candidates.
- The heading (`atan2`) and the displacement (`cos`/`sin`) of a vehicle are inputs (`Env.heading`, `Env.displacement`). The waypoint test compares the squared distance with 10², which is the same test as `Math.sqrt(...) < 10` over reals.
- `Math.random()` is replaced by the `Spawn.Draws` record of the six values a spawn attempt reads.
- Floating point is modelled as exact reals, with no NaN and no ±Infinity. `Coord.NonNumeric` is a coordinate of another type than number, which validation drops. In the source a NaN or ±Infinity coordinate passes `typeof x === "number"` (src/logic/simulationReducer.js:126-127), is filed under a "NaN" or "Infinity" grid cell and is stepped; the model has no such vehicle. Likewise a missing or NaN `speed_mps` passes the range test at line 131 (both comparisons are false); the model's speed is always a real. Overflow and rounding are not modelled. A null, boolean, empty-string or array coordinate divides to a number in the source (null/100, false/100, ""/100 and []/100 are 0, true/100 is 0.01), so the grid files it under a numeric cell such as "0,…" even though validation drops it, and it can be a leader candidate for valid vehicles near that cell; the model does not tell these apart from the NaN-dividing non-numbers and files every `NonNumeric` under the "NaN" cell. A numeric string coordinate is not distinguished from any other non-number, and `null` entries in the vehicle list are not modelled.
- `reactionTimer` is set at spawn and never read, so the vehicle datatype has no such field. It appears only among the keys the pool deletes.
- The DEBUG_MODE branches (performance marks, `performanceMetrics`, `vehicleHistory`) and the `debug` part of the state are not modelled. The flag is off.
- `simulation.time` is never updated by the reducer, and the model keeps it as a field that nothing changes.
- The network call, prompt building, `JSON.parse` and logging of `getAITrafficDecision` are not modelled. The model call's outcome is the `Decoder.Reply` value, and `JSON.parse` is a parameter returning an optional object.
- Decoder.ToLower: lowercases ASCII letters only, not the full Unicode `toLowerCase`. Validity is unaffected, since only ASCII strings can lower to the four names.
- The reducer's SET_AI_DECISION payload carries a numeric duration. A non-numeric duration passed through from the decoder is not modelled, and neither is a direction string that names another field of the light record (such as `"countdownSeconds"`).
- The unreachable `return []` at the end of `generateSmoothPath` is not modelled: every approach and destination returns a path.
- `completedTrips.push` mutates the array of the snapshot copy in place. The model appends to the value, so aliasing between snapshots is not captured; the source copies that array first anyway.
- The React components, the App's advisory-request effect and the `requestAnimationFrame` loop hook are presentation and scheduling, and are not part of this model.
