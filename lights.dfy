/** The traffic-light controller of the reducer: the seconds accumulator that
    drives the countdown, and the phase change that fires when the countdown
    runs out, in fixed-cycle ("traditional") or advised ("reason") mode. */
module TrafficLights {
  import opened Base
  import opened Model

  /** The approaches in the order the controller scans them. */
  const APPROACH_ORDER: seq<Direction> := [North, South, East, West]

  const YELLOW_SECONDS: real := 3.0
  const ALL_RED_SECONDS: real := 1.0
  /** The advised mode re-arms its countdown by this much while it waits. */
  const REARM_SECONDS: real := 1.0

  /** The part of a tick that feeds elapsed time into the countdown. */
  function CountdownStep(l: Lights, dt: real): (r: Lights)
    ensures (l.accumulator + dt >= 1.0) <==> r.countdown == l.countdown - 1.0
    ensures r.countdown == l.countdown || r.countdown == l.countdown - 1.0
    ensures r.accumulator == l.accumulator + dt - (l.countdown - r.countdown)
    ensures r == l.(countdown := r.countdown, accumulator := r.accumulator)
  {
    var acc := l.accumulator + dt;
    if acc >= 1.0 then l.(accumulator := acc - 1.0, countdown := l.countdown - 1.0)
    else l.(accumulator := acc)
  }

  /** One entry of the fixed cycle: `direction` None lights nothing (all red). */
  datatype Phase = Phase(direction: Option<Direction>, light: Color, duration: real)

  /** The twelve-step fixed cycle, in the order the source lists it. */
  function Cycle(green: real): (c: seq<Phase>)
    ensures |c| == 12
  {
    [ Phase(Some(North), Green, green), Phase(Some(North), Yellow, 3.0), Phase(None, Red, 1.0),
      Phase(Some(South), Green, green), Phase(Some(South), Yellow, 3.0), Phase(None, Red, 1.0),
      Phase(Some(East), Green, green), Phase(Some(East), Yellow, 3.0), Phase(None, Red, 1.0),
      Phase(Some(West), Green, green), Phase(Some(West), Yellow, 3.0), Phase(None, Red, 1.0) ]
  }

  /** The colour step `s` of the cycle shows on its direction. */
  function StepColor(s: nat): Color {
    if s % 3 == 0 then Green else if s % 3 == 1 then Yellow else Red
  }

  function StepDuration(s: nat, green: real): real {
    if s % 3 == 0 then green else if s % 3 == 1 then YELLOW_SECONDS else ALL_RED_SECONDS
  }

  /** The cycle table is regular: step s lights direction [N,S,E,W][s/3],
      green, yellow or nothing according to s % 3. */
  lemma CycleShape(green: real, s: nat)
    requires s < 12
    ensures Cycle(green)[s].duration == StepDuration(s, green)
    ensures Cycle(green)[s].direction == if s % 3 == 2 then None else Some(APPROACH_ORDER[s / 3])
    ensures Cycle(green)[s].direction.Some? ==> Cycle(green)[s].light == StepColor(s)
  {
    var c := Cycle(green);
    if s < 3 {
      assert s / 3 == 0;
    } else if s < 6 {
      assert s / 3 == 1 && s % 3 == s - 3;
    } else if s < 9 {
      assert s / 3 == 2 && s % 3 == s - 6;
    } else {
      assert s / 3 == 3 && s % 3 == s - 9;
    }
  }

  function AllRed(l: Lights): (r: Lights)
    ensures forall d :: LightOf(r, d) == Red
  {
    l.(north := Red, south := Red, east := Red, west := Red)
  }

  /** The first approach, in N, S, E, W order, showing colour c. */
  function FirstWith(l: Lights, c: Color): (r: Option<Direction>)
    ensures r.None? ==> forall d :: LightOf(l, d) != c
    ensures r.Some? ==> LightOf(l, r.value) == c
    ensures r.Some? ==> forall i :: 0 <= i < |APPROACH_ORDER| && APPROACH_ORDER[i] == r.value ==>
                          forall j :: 0 <= j < i ==> LightOf(l, APPROACH_ORDER[j]) != c
  {
    if l.north == c then Some(North)
    else if l.south == c then Some(South)
    else if l.east == c then Some(East)
    else if l.west == c then Some(West)
    else None
  }

  /** `Object.values(trafficLights).some(v => v === "green")`: besides the
      four colours, the record's only string value is nextGreenDirection. */
  predicate SomeValueGreen(l: Lights) {
    FirstWith(l, Green).Some? || l.nextGreenDirection == "green"
  }

  function TraditionalStep(l: Lights, green: real): Lights {
    var s := (l.cycleStep + 1) % 12;
    var phase := Cycle(green)[s];
    var lit := if phase.direction.Some? then SetLight(AllRed(l), phase.direction.value, phase.light) else AllRed(l);
    lit.(cycleStep := s, countdown := phase.duration, accumulator := 0.0)
  }

  function ReasonStep(l: Lights): Lights {
    match FirstWith(l, Yellow)
    case Some(d) =>
      SetLight(AllRed(l), d, Green).(countdown := l.nextGreenDuration, accumulator := 0.0)
    case None =>
      if SomeValueGreen(l) then
        var d := match FirstWith(l, Green) case Some(g) => g case None => West;
        SetLight(l, d, Yellow).(countdown := YELLOW_SECONDS, accumulator := 0.0)
      else
        l.(countdown := REARM_SECONDS, accumulator := 0.0)
  }

  /** The phase change of updateTrafficLights; an unknown light mode changes nothing. */
  function Advance(l: Lights, c: Config): (r: Lights)
    ensures l.countdown > 0.0 ==> r == l
    ensures c.lightMode != TRADITIONAL && c.lightMode != REASON ==> r == l
  {
    if l.countdown > 0.0 then l
    else if c.lightMode == TRADITIONAL then TraditionalStep(l, c.traditionalGreenDuration)
    else if c.lightMode == REASON then ReasonStep(l)
    else l
  }

  /** updateTrafficLights, assigning the fields of the copied light record
      one by one as the source does. */
  method UpdateTrafficLights(l: Lights, c: Config) returns (r: Lights)
    ensures r == Advance(l, c)
  {
    r := l;
    if r.countdown > 0.0 {
      return;
    }
    if c.lightMode == TRADITIONAL {
      var cycle := Cycle(c.traditionalGreenDuration);
      r := r.(cycleStep := (r.cycleStep + 1) % |cycle|);
      var currentPhase := cycle[r.cycleStep];
      r := r.(north := Red, south := Red, east := Red, west := Red);
      if currentPhase.direction.Some? {
        r := SetLight(r, currentPhase.direction.value, currentPhase.light);
      }
      r := r.(countdown := currentPhase.duration, accumulator := 0.0);
    } else if c.lightMode == REASON {
      if r.north == Yellow || r.south == Yellow || r.east == Yellow || r.west == Yellow {
        var yellowDirection :=
          if r.north == Yellow then North else if r.south == Yellow then South
          else if r.east == Yellow then East else West;
        r := r.(north := Red, south := Red, east := Red, west := Red);
        r := SetLight(r, yellowDirection, Green);
        r := r.(countdown := r.nextGreenDuration, accumulator := 0.0);
      } else if SomeValueGreen(r) {
        var greenDirection :=
          if r.north == Green then North else if r.south == Green then South
          else if r.east == Green then East else West;
        r := SetLight(r, greenDirection, Yellow);
        r := r.(countdown := YELLOW_SECONDS, accumulator := 0.0);
      } else {
        r := r.(countdown := REARM_SECONDS, accumulator := 0.0);
      }
    }
  }

  /** The light part of one accepted tick. */
  function LightsTick(l: Lights, c: Config, dt: real): Lights {
    Advance(CountdownStep(l, dt), c)
  }

  /** The light part of one accepted tick, as the reducer performs it: the
      step is added to the accumulator, a whole second is taken off the
      countdown, and then the controller runs. */
  method TickLights(l: Lights, c: Config, dt: real) returns (r: Lights)
    ensures r == LightsTick(l, c, dt)
  {
    r := l.(accumulator := l.accumulator + dt);
    if r.accumulator >= 1.0 {
      r := r.(accumulator := r.accumulator - 1.0, countdown := r.countdown - 1.0);
    }
    assert r == CountdownStep(l, dt);
    r := UpdateTrafficLights(r, c);
  }

  /** Fixed-cycle mode, countdown expired: the step advances modulo 12, the
      direction [N,S,E,W][step/3] alone shows green, yellow or (every third
      step) nothing, and the countdown is reloaded from the phase. */
  lemma TraditionalAdvance(l: Lights, c: Config)
    requires l.countdown <= 0.0 && c.lightMode == TRADITIONAL
    ensures var r := Advance(l, c); var s := (l.cycleStep + 1) % 12;
      && r.cycleStep == s
      && r.accumulator == 0.0
      && r.countdown == StepDuration(s, c.traditionalGreenDuration)
      && (forall d :: LightOf(r, d) == if s % 3 != 2 && d == APPROACH_ORDER[s / 3] then StepColor(s) else Red)
      && MutuallyExclusive(r)
      && r.nextGreenDuration == l.nextGreenDuration && r.nextGreenDirection == l.nextGreenDirection
  {
    var s := (l.cycleStep + 1) % 12;
    CycleShape(c.traditionalGreenDuration, s);
  }

  /** Advised mode, countdown expired, some approach yellow: the first yellow
      turns green, every other approach red, for nextGreenDuration seconds. */
  lemma ReasonYellowToGreen(l: Lights, c: Config, d: Direction)
    requires l.countdown <= 0.0 && c.lightMode == REASON
    requires FirstWith(l, Yellow) == Some(d)
    ensures var r := Advance(l, c);
      && LightOf(r, d) == Green
      && (forall e :: e != d ==> LightOf(r, e) == Red)
      && r.countdown == l.nextGreenDuration && r.accumulator == 0.0
      && r.cycleStep == l.cycleStep
      && r.nextGreenDirection == l.nextGreenDirection && r.nextGreenDuration == l.nextGreenDuration
  {
  }

  /** Advised mode, countdown expired, nothing yellow but some approach green:
      the first green turns yellow for three seconds, the rest is unchanged. */
  lemma ReasonGreenToYellow(l: Lights, c: Config, d: Direction)
    requires l.countdown <= 0.0 && c.lightMode == REASON
    requires FirstWith(l, Yellow).None? && FirstWith(l, Green) == Some(d)
    ensures var r := Advance(l, c);
      && LightOf(r, d) == Yellow
      && (forall e :: e != d ==> LightOf(r, e) == LightOf(l, e))
      && r.countdown == YELLOW_SECONDS && r.accumulator == 0.0 && r.cycleStep == l.cycleStep
      && r.nextGreenDirection == l.nextGreenDirection && r.nextGreenDuration == l.nextGreenDuration
  {
  }

  /** Advised mode, countdown expired, nothing yellow and nothing green: the
      controller waits for a decision, re-arming a one-second countdown. */
  lemma ReasonIdle(l: Lights, c: Config)
    requires l.countdown <= 0.0 && c.lightMode == REASON
    requires forall d :: LightOf(l, d) == Red
    requires l.nextGreenDirection != "green"
    ensures Advance(l, c) == l.(countdown := REARM_SECONDS, accumulator := 0.0)
  {
    assert FirstWith(l, Yellow).None? && FirstWith(l, Green).None?;
  }

  /** Advised mode, countdown expired, every approach red, but the stored
      decision is the string "green": the scan over all values of the light
      record finds that string, no approach is green, so the fallback west
      turns yellow for three seconds. */
  lemma ReasonStrayGreenLightsWest(l: Lights, c: Config)
    requires l.countdown <= 0.0 && c.lightMode == REASON
    requires forall d :: LightOf(l, d) == Red
    requires l.nextGreenDirection == "green"
    ensures var r := Advance(l, c);
      && r.west == Yellow && r.north == Red && r.south == Red && r.east == Red
      && r.countdown == YELLOW_SECONDS && r.accumulator == 0.0
  {
    assert FirstWith(l, Yellow).None? && FirstWith(l, Green).None?;
  }

  /** The phase change keeps at most one approach non-red, in every mode. */
  lemma AdvancePreservesExclusion(l: Lights, c: Config)
    requires MutuallyExclusive(l)
    ensures MutuallyExclusive(Advance(l, c))
  {
    if l.countdown > 0.0 {
    } else if c.lightMode == TRADITIONAL {
      TraditionalAdvance(l, c);
    } else if c.lightMode == REASON {
      var r := Advance(l, c);
      match FirstWith(l, Yellow)
      case Some(d) =>
        ReasonYellowToGreen(l, c, d);
      case None =>
        if FirstWith(l, Green).Some? {
          ReasonGreenToYellow(l, c, FirstWith(l, Green).value);
        } else if l.nextGreenDirection == "green" {
          assert forall e :: LightOf(l, e) == Red;
          assert forall e :: e != West ==> LightOf(r, e) == Red;
        }
    }
  }

  /** A one-tick step of the controller keeps mutual exclusion. */
  lemma LightsTickPreservesExclusion(l: Lights, c: Config, dt: real)
    requires MutuallyExclusive(l)
    ensures MutuallyExclusive(LightsTick(l, c, dt))
  {
    var m := CountdownStep(l, dt);
    assert forall d :: LightOf(m, d) == LightOf(l, d);
    AdvancePreservesExclusion(m, c);
  }

  /** `f` applied n times. */
  function Iterate<T>(f: T -> T, x: T, n: nat): T
    decreases n
  {
    if n == 0 then x else Iterate(f, f(x), n - 1)
  }

  /** Applying n + m times is applying n times and then m times. */
  lemma {:induction false} IterateSplit<T>(f: T -> T, x: T, n: nat, m: nat)
    ensures Iterate(f, x, n + m) == Iterate(f, Iterate(f, x, n), m)
    decreases n
  {
    if n > 0 {
      IterateSplit(f, f(x), n - 1, m);
    }
  }

  /** The controller after n ticks of dt seconds each. */
  function LightsAfter(l: Lights, c: Config, dt: real, n: nat): Lights {
    Iterate(x => LightsTick(x, c, dt), l, n)
  }

  /** Running n + m ticks is running n ticks and then m more. */
  lemma LightsAfterSplit(l: Lights, c: Config, dt: real, n: nat, m: nat)
    ensures LightsAfter(l, c, dt, n + m) == LightsAfter(LightsAfter(l, c, dt, n), c, dt, m)
  {
    IterateSplit(x => LightsTick(x, c, dt), l, n, m);
  }

  /** Two more ticks are two applications of the tick. */
  lemma LightsAfterTwo(l: Lights, c: Config, dt: real, n: nat)
    requires n >= 2
    ensures LightsAfter(l, c, dt, n) == LightsAfter(LightsTick(LightsTick(l, c, dt), c, dt), c, dt, n - 2)
  {
    var f := x => LightsTick(x, c, dt);
    assert Iterate(f, l, n) == Iterate(f, f(l), n - 1);
    assert Iterate(f, f(l), n - 1) == Iterate(f, f(f(l)), n - 2);
  }

  /** With half-second ticks and an empty accumulator, each of the first 2k
      ticks of a k-second countdown only moves the clock: after j ticks the
      countdown has lost j/2 whole seconds and the accumulator holds the odd
      half second, and every colour and the cycle step are as they were. */
  lemma {:induction false} HalfSecondHold(l: Lights, c: Config, k: nat, j: nat)
    requires k >= 1 && l.accumulator == 0.0 && l.countdown == k as real && j < 2 * k
    ensures LightsAfter(l, c, 0.5, j)
         == l.(countdown := (k - j / 2) as real, accumulator := if j % 2 == 0 then 0.0 else 0.5)
    decreases j
  {
    var f := x => LightsTick(x, c, 0.5);
    var t1 := LightsTick(l, c, 0.5);
    assert t1 == l.(accumulator := 0.5);
    if j == 0 {
      assert LightsAfter(l, c, 0.5, 0) == l;
    } else if j == 1 {
      assert Iterate(f, l, 1) == Iterate(f, t1, 0) == t1;
    } else {
      var t2 := LightsTick(t1, c, 0.5);
      assert CountdownStep(t1, 0.5) == l.(countdown := (k - 1) as real);
      assert t2 == l.(countdown := (k - 1) as real);
      LightsAfterTwo(l, c, 0.5, j);
      HalfSecondHold(t2, c, k - 1, j - 2);
      assert (j - 2) / 2 == j / 2 - 1 && (j - 2) % 2 == j % 2;
    }
  }

  /** With half-second ticks and an empty accumulator, a countdown of k whole
      seconds holds the lights for 2k ticks and then fires the phase change. */
  lemma {:induction false} HalfSecondCountdown(l: Lights, c: Config, k: nat)
    requires k >= 1 && l.accumulator == 0.0 && l.countdown == k as real
    ensures forall j :: 0 <= j < 2 * k ==>
      LightsAfter(l, c, 0.5, j).cycleStep == l.cycleStep
      && forall d :: LightOf(LightsAfter(l, c, 0.5, j), d) == LightOf(l, d)
    ensures LightsAfter(l, c, 0.5, 2 * k) == Advance(l.(countdown := 0.0), c)
    decreases k
  {
    forall j | 0 <= j < 2 * k
      ensures LightsAfter(l, c, 0.5, j).cycleStep == l.cycleStep
      ensures forall d :: LightOf(LightsAfter(l, c, 0.5, j), d) == LightOf(l, d)
    {
      HalfSecondHold(l, c, k, j);
    }
    HalfSecondEnd(l, c, k);
  }

  /** The 2k-th half-second tick of a k-second countdown fires the phase change. */
  lemma {:induction false} HalfSecondEnd(l: Lights, c: Config, k: nat)
    requires k >= 1 && l.accumulator == 0.0 && l.countdown == k as real
    ensures LightsAfter(l, c, 0.5, 2 * k) == Advance(l.(countdown := 0.0), c)
    decreases k
  {
    var t1 := LightsTick(l, c, 0.5);
    assert t1 == l.(accumulator := 0.5);
    var t2 := LightsTick(t1, c, 0.5);
    assert CountdownStep(t1, 0.5) == l.(countdown := (k - 1) as real);
    LightsAfterTwo(l, c, 0.5, 2 * k);
    if k == 1 {
      assert t2 == Advance(l.(countdown := 0.0), c);
      assert LightsAfter(t2, c, 0.5, 0) == t2;
    } else {
      assert t2 == l.(countdown := (k - 1) as real);
      HalfSecondEnd(t2, c, k - 1);
      assert t2.(countdown := 0.0) == l.(countdown := 0.0);
    }
  }

  /** Fixed cycle, ticked every half second from a fresh k-second phase at
      step s: after 2k ticks the controller has moved to step s + 1. */
  lemma {:induction false} HalfSecondPhase(l: Lights, c: Config, k: nat)
    requires c.lightMode == TRADITIONAL && k >= 1
    requires l.accumulator == 0.0 && l.countdown == k as real
    ensures var r := LightsAfter(l, c, 0.5, 2 * k); var s := (l.cycleStep + 1) % 12;
      && r.cycleStep == s && r.accumulator == 0.0
      && r.countdown == StepDuration(s, c.traditionalGreenDuration)
      && (forall d :: LightOf(r, d) == if s % 3 != 2 && d == APPROACH_ORDER[s / 3] then StepColor(s) else Red)
  {
    HalfSecondCountdown(l, c, k);
    TraditionalAdvance(l.(countdown := 0.0), c);
  }

  /** Fixed cycle with a g-second green, ticked every half second from the
      initial north-green phase: after g seconds north turns yellow for 3 s. */
  lemma {:induction false} CycleNorthYellow(c: Config, g: nat)
    requires c.lightMode == TRADITIONAL && g >= 1 && c.traditionalGreenDuration == g as real
    ensures var l1 := LightsAfter(INITIAL_LIGHTS.(countdown := g as real), c, 0.5, 2 * g);
      && l1.north == Yellow && l1.south == Red && l1.east == Red && l1.west == Red
      && l1.cycleStep == 1 && l1.countdown == 3.0 && l1.accumulator == 0.0
  {
    var l0 := INITIAL_LIGHTS.(countdown := g as real);
    HalfSecondPhase(l0, c, g);
    var l1 := LightsAfter(l0, c, 0.5, 2 * g);
    assert (0 + 1) % 12 == 1 && 1 % 3 == 1 && 1 / 3 == 0;
    assert LightOf(l1, North) == Yellow && LightOf(l1, South) == Red;
    assert LightOf(l1, East) == Red && LightOf(l1, West) == Red;
  }

  /** Three seconds after an approach turns yellow at step 1 every light is
      red for 1 s at step 2. */
  lemma {:induction false} CycleAllRed(l: Lights, c: Config)
    requires c.lightMode == TRADITIONAL
    requires l.cycleStep == 1 && l.countdown == 3.0 && l.accumulator == 0.0
    ensures var r := LightsAfter(l, c, 0.5, 6);
      && (forall d :: LightOf(r, d) == Red) && r.cycleStep == 2
      && r.countdown == 1.0 && r.accumulator == 0.0
  {
    HalfSecondPhase(l, c, 3);
    assert (1 + 1) % 12 == 2 && 2 % 3 == 2;
  }

  /** One second after the clearance at step 2, south alone is green for
      the configured green time at step 3. */
  lemma {:induction false} CycleSouthGreen(l: Lights, c: Config)
    requires c.lightMode == TRADITIONAL
    requires l.cycleStep == 2 && l.countdown == 1.0 && l.accumulator == 0.0
    ensures var r := LightsAfter(l, c, 0.5, 2);
      && r.south == Green && r.north == Red && r.east == Red && r.west == Red
      && r.cycleStep == 3 && r.countdown == c.traditionalGreenDuration
  {
    HalfSecondPhase(l, c, 1);
    var r := LightsAfter(l, c, 0.5, 2);
    assert (2 + 1) % 12 == 3 && 3 % 3 == 0 && 3 / 3 == 1;
    assert LightOf(r, South) == Green && LightOf(r, North) == Red;
    assert LightOf(r, East) == Red && LightOf(r, West) == Red;
  }

  /** Scenario: one 16 ms tick from a full 30 s countdown only feeds the
      accumulator; the countdown and every colour stay as they were. */
  lemma ShortTickKeepsCountdown(l: Lights, c: Config)
    requires l.countdown == 30.0 && l.accumulator == 0.0
    ensures var r := LightsTick(l, c, 0.016);
      r.countdown == 30.0 && r.accumulator == 0.016 && forall d :: LightOf(r, d) == LightOf(l, d)
  {
  }
}
