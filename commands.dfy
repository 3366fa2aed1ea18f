/** The reducer's actions other than TICK, and the whole reducer as a
    function of the state, the action and the tick's inputs. */
module Commands {
  import opened Base
  import opened Model
  import opened TrafficLights
  import opened Spawn
  import opened Tick
  import Physics
  import Decoder

  /** START_SIM */
  function Start(s: State): State {
    s.(simulation := s.simulation.(isRunning := true))
  }

  /** PAUSE_SIM */
  function Pause(s: State): State {
    s.(simulation := s.simulation.(isRunning := false))
  }

  /** RESET_SIM: the initial state, keeping the current configuration. */
  function Reset(s: State): State {
    INITIAL_STATE.(config := s.config)
  }

  /** `{ ...config, ...payload }`: every key present in the patch wins. */
  function MergeConfig(c: Config, p: ConfigPatch): Config {
    Config(
      if p.intersectionType.Some? then p.intersectionType.value else c.intersectionType,
      if p.lightMode.Some? then p.lightMode.value else c.lightMode,
      if p.density.Some? then p.density.value else c.density,
      if p.motorcycleRatio.Some? then p.motorcycleRatio.value else c.motorcycleRatio,
      if p.traditionalGreenDuration.Some? then p.traditionalGreenDuration.value else c.traditionalGreenDuration)
  }

  /** UPDATE_CONFIG */
  function UpdateConfig(s: State, p: ConfigPatch): State {
    s.(config := MergeConfig(s.config, p))
  }

  const THINKING_TEXT: string := "AI is analyzing..."

  /** AI_THINKING: the advisor is busy and the request flag is cleared. */
  function AiThinking(s: State): State {
    s.(ai := Ai(THINKING_TEXT, true), simulation := s.simulation.(needsAIDecision := false))
  }

  const DEFAULT_DIRECTION: string := "north"
  const DEFAULT_DURATION: real := 15.0
  const DEFAULT_REASONING: string := "AI made a decision"

  /** `x ?? fallback` for an absent or null field. */
  function OrElse<T>(x: Option<T>, fallback: T): T {
    if x.Some? then x.value else fallback
  }

  /** The light record after a decision: all red, the named direction (when
      it names an approach) yellow, a three-second countdown from a fresh
      accumulator, and the decision remembered for the next green. */
  function DecisionLights(l: Lights, p: DecisionPayload): Lights {
    var dir := OrElse(p.nextGreenDirection, DEFAULT_DIRECTION);
    var red := AllRed(l);
    var lit := match DirectionNamed(dir) case Some(d) => SetLight(red, d, Yellow) case None => red;
    lit.(countdown := YELLOW_SECONDS, accumulator := 0.0,
         nextGreenDirection := dir, nextGreenDuration := OrElse(p.greenLightDuration, DEFAULT_DURATION))
  }

  /** SET_AI_DECISION */
  function SetAiDecision(s: State, p: DecisionPayload): State {
    s.(lights := DecisionLights(s.lights, p), ai := Ai(OrElse(p.reasoning, DEFAULT_REASONING), false))
  }

  /** The reducer: the new state and next vehicle id, or the error it throws. */
  function ReduceSpec(s: State, a: Action, env: Physics.Env, d: Draws, nextId: int): Result<TickResult>
    requires ValidDraws(d)
  {
    match a
    case StartSim => Ok(TickResult(Start(s), nextId))
    case PauseSim => Ok(TickResult(Pause(s), nextId))
    case ResetSim => Ok(TickResult(Reset(s), nextId))
    case UpdateConfig(p) => Ok(TickResult(UpdateConfig(s, p), nextId))
    case AiThinking => Ok(TickResult(AiThinking(s), nextId))
    case SetAiDecision(p) => Ok(TickResult(SetAiDecision(s, p), nextId))
    case Tick(dt) => Ok(TickSpec(s, dt, env, d, nextId))
    case Unhandled(t) => Thrown("Unhandled action type: " + t)
  }

  // ---------------------------------------------------------------- run control

  /** Start and pause only set the run flag: each is idempotent, and the last one wins. */
  lemma RunFlag(s: State)
    ensures Start(s).simulation.isRunning && !Pause(s).simulation.isRunning
    ensures Start(Start(s)) == Start(s) && Pause(Pause(s)) == Pause(s)
    ensures Start(Pause(s)) == Start(s) && Pause(Start(s)) == Pause(s)
    ensures Pause(Start(s)) == s <==> !s.simulation.isRunning
  {
  }

  /** Reset keeps only the configuration: two states with the same
      configuration reset to the same state, which is stopped, empty and
      back at the first signal phase; resetting twice is resetting once. */
  lemma ResetForgetsAllButConfig(s: State, t: State)
    ensures Reset(s).config == s.config
    ensures s.config == t.config ==> Reset(s) == Reset(t)
    ensures Reset(Reset(s)) == Reset(s)
    ensures var r := Reset(s);
      !r.simulation.isRunning && r.vehicles == [] && r.stats == EMPTY_STATS && r.lights == INITIAL_LIGHTS
  {
  }

  /** Keys absent from a patch keep their value, present keys take the
      patch's value; the empty patch changes nothing and applying a patch
      twice is applying it once. */
  lemma MergeConfigLaws(c: Config, p: ConfigPatch)
    ensures p.intersectionType.None? ==> MergeConfig(c, p).intersectionType == c.intersectionType
    ensures p.intersectionType.Some? ==> MergeConfig(c, p).intersectionType == p.intersectionType.value
    ensures p.lightMode.None? ==> MergeConfig(c, p).lightMode == c.lightMode
    ensures p.lightMode.Some? ==> MergeConfig(c, p).lightMode == p.lightMode.value
    ensures p.density.None? ==> MergeConfig(c, p).density == c.density
    ensures p.density.Some? ==> MergeConfig(c, p).density == p.density.value
    ensures p.motorcycleRatio.None? ==> MergeConfig(c, p).motorcycleRatio == c.motorcycleRatio
    ensures p.motorcycleRatio.Some? ==> MergeConfig(c, p).motorcycleRatio == p.motorcycleRatio.value
    ensures p.traditionalGreenDuration.None? ==> MergeConfig(c, p).traditionalGreenDuration == c.traditionalGreenDuration
    ensures p.traditionalGreenDuration.Some? ==> MergeConfig(c, p).traditionalGreenDuration == p.traditionalGreenDuration.value
    ensures MergeConfig(c, ConfigPatch(None, None, None, None, None)) == c
    ensures MergeConfig(MergeConfig(c, p), p) == MergeConfig(c, p)
  {
  }

  /** AI_THINKING marks the advisor busy with the fixed text and clears the
      request flag, leaving lights, vehicles, statistics and configuration alone. */
  lemma AiThinkingEffect(s: State)
    ensures var r := AiThinking(s);
      && r.ai.isThinking && r.ai.reasoning == THINKING_TEXT && !r.simulation.needsAIDecision
      && r.simulation.isRunning == s.simulation.isRunning && r.simulation.time == s.simulation.time
      && r.lights == s.lights && r.vehicles == s.vehicles && r.stats == s.stats && r.config == s.config
  {
  }

  // ---------------------------------------------------------------- advisory decisions

  /** A decision naming an approach makes it the only yellow light; one that
      names nothing recognisable leaves every light red. Either way the
      countdown is three seconds and the decision is stored. */
  lemma DecisionLightsEffect(l: Lights, p: DecisionPayload)
    ensures var r := DecisionLights(l, p); var dir := OrElse(p.nextGreenDirection, "north");
      && MutuallyExclusive(r)
      && (forall d :: LightOf(r, d) == (if DirectionNamed(dir) == Some(d) then Yellow else Red))
      && r.countdown == 3.0 && r.accumulator == 0.0 && r.cycleStep == l.cycleStep
      && r.nextGreenDirection == dir
      && r.nextGreenDuration == OrElse(p.greenLightDuration, 15.0)
  {
  }

  /** The empty payload is read as "north for 15 seconds", with the reducer's own default text. */
  lemma EmptyDecisionDefaults(s: State)
    ensures var r := SetAiDecision(s, DecisionPayload(None, None, None));
      && r.lights.north == Yellow && r.lights.south == Red && r.lights.east == Red && r.lights.west == Red
      && r.lights.nextGreenDirection == "north" && r.lights.nextGreenDuration == 15.0
      && r.ai == Ai("AI made a decision", false)
  {
  }

  /** In advisory mode a decision for approach d turns d green for the
      decided duration once its yellow has run out, and all others stay red. */
  lemma DecisionThenGreen(l: Lights, p: DecisionPayload, c: Config, d: Direction)
    requires c.lightMode == REASON
    requires DirectionNamed(OrElse(p.nextGreenDirection, "north")) == Some(d)
    ensures var r := Advance(DecisionLights(l, p).(countdown := 0.0), c);
      && LightOf(r, d) == Green && (forall e :: e != d ==> LightOf(r, e) == Red)
      && r.countdown == OrElse(p.greenLightDuration, 15.0)
  {
    var y := DecisionLights(l, p).(countdown := 0.0);
    DecisionLightsEffect(l, p);
    assert LightOf(y, d) == Yellow;
    assert FirstWith(y, Yellow) == Some(d) by {
      assert forall e :: e != d ==> LightOf(y, e) == Red;
    }
    ReasonYellowToGreen(y, c, d);
  }

  /** The advisor's decoded direction always names an approach, so the
      decision built from it lights exactly that approach yellow. */
  lemma DecodedDecisionLightsOneYellow(l: Lights, reply: Decoder.Reply,
                                       parse: string -> Option<map<string, Decoder.Json>>, p: DecisionPayload)
    requires p.nextGreenDirection == Some(Decoder.GetAITrafficDecision(reply, parse).direction)
    ensures exists d ::
      && DirectionName(d) == p.nextGreenDirection.value
      && LightOf(DecisionLights(l, p), d) == Yellow
      && (forall e :: e != d ==> LightOf(DecisionLights(l, p), e) == Red)
  {
    Decoder.DirectionAlwaysValid(reply, parse);
    DecisionLightsEffect(l, p);
    var dir := p.nextGreenDirection.value;
    assert DirectionName(North) == "north" && DirectionName(South) == "south";
    assert DirectionName(East) == "east" && DirectionName(West) == "west";
    var d := DirectionNamed(dir).value;
    assert LightOf(DecisionLights(l, p), d) == Yellow;
  }

  // ---------------------------------------------------------------- the whole reducer

  /** Every action the reducer handles keeps the invariant of the tick
      module; an unhandled one throws instead of returning a state. */
  lemma ReducePreservesInvariant(s: State, a: Action, env: Physics.Env, d: Draws, nextId: int)
    requires ValidDraws(d) && Physics.LeaderAmongCandidates(env) && Invariant(s, nextId)
    ensures ReduceSpec(s, a, env, d, nextId).Ok? <==> !a.Unhandled?
    ensures ReduceSpec(s, a, env, d, nextId).Ok? ==>
      var r := ReduceSpec(s, a, env, d, nextId).value; Invariant(r.state, r.nextId) && r.nextId >= nextId
  {
    match a
    case SetAiDecision(p) =>
      DecisionLightsEffect(s.lights, p);
    case ResetSim =>
      assert MutuallyExclusive(INITIAL_LIGHTS) by {
        assert forall e :: e != North ==> LightOf(INITIAL_LIGHTS, e) == Red;
      }
    case Tick(dt) =>
      TickKeepsInvariant(s, dt, env, d, nextId);
    case _ =>
  }

  /** The initial state satisfies the invariant for any next id. */
  lemma InitialInvariant(nextId: int)
    ensures Invariant(INITIAL_STATE, nextId)
  {
    assert forall e :: e != North ==> LightOf(INITIAL_LIGHTS, e) == Red;
  }
}
