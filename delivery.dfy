/**
 * The delivery state machine of robot_project.c as functions of the hardware
 * state: one colourDecisions call (Decide), the inner loop of main that repeats
 * decisions and obstacle checks until a dropoff (Round), and the outer loop
 * that counts deliveries (Mission).
 */
module Delivery {
  import opened Wrappers
  import opened Hardware
  import opened Config
  import opened Motion

  /** Which branch of colourDecisions ran. */
  datatype Action = Corrected | PickedUp | DroppedOff | Ignored

  /** What colourDecisions leaves behind: the hardware, the by-reference occupancy flag, its result, its branch. */
  datatype Decision = Decision(hw: Hw, objectInGripper: bool, delivered: bool, action: Action)

  /** Lines 110-114: pick up with the gripper empty. The line sensor is not read. */
  function PickUp(h: Hw): (r: Option<Decision>)
    ensures r.Some? ==> r.value.action == PickedUp && r.value.objectInGripper && !r.value.delivered
    ensures r.Some? ==> r.value.hw.colours == h.colours && r.value.hw.sonar == h.sonar && r.value.hw.touch == h.touch
    ensures r.Some? ==> r.value.hw.log == h.log + ManipulationScript(PICKUP)
  {
    var h1 :- Manipulate(h, PICKUP);
    Some(Decision(h1, true, false, PickedUp))
  }

  /** Lines 115-126: a fresh poll; drop off when it is Red and the gripper is occupied, otherwise do nothing. */
  function DropTest(h: Hw, objectInGripper: bool): (r: Option<Decision>)
    ensures r.Some? ==> r.value.action in {DroppedOff, Ignored}
    ensures r.Some? ==> (r.value.delivered <==> r.value.action == DroppedOff)
    ensures r.Some? ==> h.colours != [] && r.value.hw.colours == h.colours[1..]
    ensures r.Some? ==> (r.value.action == DroppedOff <==> objectInGripper && h.colours[0] == Red)
    ensures r.Some? ==> r.value.objectInGripper == (objectInGripper && r.value.action == Ignored)
    ensures r.Some? ==> r.value.hw.sonar == h.sonar && r.value.hw.touch == h.touch
    ensures r.Some? && r.value.action == Ignored ==> r.value.hw == h.(colours := h.colours[1..])
    ensures r.Some? && r.value.action == DroppedOff ==> r.value.hw.log == h.log + ManipulationScript(DROPOFF)
  {
    var c4 :- PollColour(h);
    if c4.value == Red && objectInGripper then
      var h4 :- Manipulate(c4.hw, DROPOFF);
      Some(Decision(h4, false, true, DroppedOff))
    else
      Some(Decision(c4.hw, objectInGripper, false, Ignored))
  }

  /**
   * Lines 110-126, after the path-correction test has failed: a fresh poll for
   * the pickup test and, unless it picks up, another for the dropoff test.
   */
  function Markers(h: Hw, objectInGripper: bool): (r: Option<Decision>)
    ensures r.Some? ==> r.value.action != Corrected
    ensures r.Some? ==> (r.value.delivered <==> r.value.action == DroppedOff)
    ensures r.Some? ==> h.colours != [] && (r.value.action == PickedUp <==> h.colours[0] == Blue && !objectInGripper)
    ensures r.Some? && !(h.colours[0] == Blue && !objectInGripper) ==>
              |h.colours| >= 2 && (r.value.action == DroppedOff <==> h.colours[1] == Red && objectInGripper)
    ensures r.Some? ==> |r.value.hw.colours| < |h.colours| && r.value.hw.sonar == h.sonar && r.value.hw.touch == h.touch
    ensures r.Some? && r.value.action == PickedUp ==>
              !objectInGripper && r.value.objectInGripper && h.colours[0] == Blue && r.value.hw.colours == h.colours[1..]
    ensures r.Some? && r.value.action == DroppedOff ==>
              objectInGripper && !r.value.objectInGripper && |h.colours| >= 2 && h.colours[1] == Red &&
              r.value.hw.colours == h.colours[2..]
    ensures r.Some? && r.value.action == Ignored ==>
              r.value.objectInGripper == objectInGripper && |h.colours| >= 2 && r.value.hw == h.(colours := h.colours[2..])
    ensures r.Some? && r.value.action == PickedUp ==> r.value.hw.log == h.log + ManipulationScript(PICKUP)
    ensures r.Some? && r.value.action == DroppedOff ==> r.value.hw.log == h.log + ManipulationScript(DROPOFF)
  {
    var c3 :- PollColour(h);
    if c3.value == Blue && !objectInGripper then
      PickUp(c3.hw)
    else
      assert c3.hw.colours != [] ==> c3.hw.colours[1..] == h.colours[2..] by {
        if c3.hw.colours != [] { DropDrop(h.colours, 1, 1); }
      }
      DropTest(c3.hw, objectInGripper)
  }

  /**
   * colourDecisions(objectInGripper): drive forward, wait out the Black run,
   * then test the colour with a fresh poll per comparison. The test at line 105
   * polls a second time only when the first reading is not Blue.
   */
  function Decide(h: Hw, objectInGripper: bool): (r: Option<Decision>)
    ensures r.Some? ==> (r.value.delivered <==> r.value.action == DroppedOff)
    ensures r.Some? && r.value.action == PickedUp ==> !objectInGripper && r.value.objectInGripper
    ensures r.Some? && r.value.action == DroppedOff ==> objectInGripper && !r.value.objectInGripper
    ensures r.Some? && r.value.action in {Corrected, Ignored} ==> r.value.objectInGripper == objectInGripper
    ensures r.Some? ==> |r.value.hw.colours| < |h.colours|
    ensures r.Some? ==> r.value.hw.sonar == h.sonar && r.value.hw.touch == h.touch
  {
    var h0 :- SkipColour(Write(h, [Wheels(MOTORPOWER, MOTORPOWER)]), Black);
    var c1 :- PollColour(h0);
    if c1.value != Blue then
      var c2 :- PollColour(c1.hw);
      if c2.value != Red then
        var h2 :- GreenLoop(c2.hw);
        Some(Decision(h2, objectInGripper, false, Corrected))
      else
        Markers(c2.hw, objectInGripper)
    else
      Markers(c1.hw, objectInGripper)
  }

  /** The branch colourDecisions takes when every reading it looks at is `c`. */
  function Expected(c: Colour, objectInGripper: bool): Action
  {
    if c == Blue then (if objectInGripper then Ignored else PickedUp)
    else if c == Red then (if objectInGripper then DroppedOff else Ignored)
    else Corrected
  }

  /**
   * When every reading colourDecisions looks at (the one that ends the Black
   * run and the up to four after it) is the same colour c, the branch taken is
   * Expected(c, objectInGripper): Blue picks up only with the gripper empty, Red
   * drops off only with it occupied, any other colour corrects the path, and
   * Blue while occupied or Red while empty does nothing.
   */
  lemma DecideOnSteadyColour(h: Hw, objectInGripper: bool, c: Colour)
    requires Decide(h, objectInGripper).Some?
    requires var n := RunLength(h.colours, Black);
             n + 4 < |h.colours| && forall j :: n <= j <= n + 4 ==> h.colours[j] == c
    ensures Decide(h, objectInGripper).value.action == Expected(c, objectInGripper)
  {
    var n := RunLength(h.colours, Black);
    var h0 := DecideCases(h, objectInGripper);
    assert h0.colours[0] == h.colours[n + 1] && h0.colours[1] == h.colours[n + 2] && h0.colours[2] == h.colours[n + 3];
    if c == Blue {
      MarkersOnSteadyColour(h0.(colours := h0.colours[1..]), objectInGripper, c);
    } else if c == Red {
      MarkersOnSteadyColour(h0.(colours := h0.colours[2..]), objectInGripper, c);
    }
  }

  /**
   * The three ways colourDecisions can go once the Black run is over, in terms
   * of the hardware h0 right after the reading that ends the run.
   */
  lemma DecideCases(h: Hw, objectInGripper: bool) returns (h0: Hw)
    requires Decide(h, objectInGripper).Some?
    ensures h0.colours == h.colours[RunLength(h.colours, Black) + 1..] && h0.colours != []
    ensures h0.colours[0] == Blue ==> Decide(h, objectInGripper) == Markers(h0.(colours := h0.colours[1..]), objectInGripper)
    ensures h0.colours[0] != Blue ==> |h0.colours| >= 2
    ensures h0.colours[0] != Blue && h0.colours[1] == Red ==>
              Decide(h, objectInGripper) == Markers(h0.(colours := h0.colours[2..]), objectInGripper)
    ensures h0.colours[0] != Blue && h0.colours[1] != Red ==> Decide(h, objectInGripper).value.action == Corrected
  {
    h0 := SkipColour(Write(h, [Wheels(MOTORPOWER, MOTORPOWER)]), Black).value;
    if h0.colours[0] != Blue {
      DropDrop(h0.colours, 1, 1);
    }
  }

  /**
   * Which branch colourDecisions takes, in terms of the readings `cs` that
   * follow the one ending the Black run. The test at line 105 consumes `p`
   * of them (one when the first is Blue, two otherwise); it corrects the path
   * exactly when the first is not Blue and the second not Red. Otherwise the
   * pickup test reads cs[p] and, unless it picks up, the dropoff test reads
   * cs[p + 1]: it picks up exactly when cs[p] is Blue with the gripper empty
   * and drops off exactly when cs[p + 1] is Red with the gripper occupied.
   */
  lemma DecideByReadings(h: Hw, objectInGripper: bool) returns (cs: seq<Colour>, p: nat)
    requires Decide(h, objectInGripper).Some?
    ensures cs == h.colours[RunLength(h.colours, Black) + 1..]
    ensures p == (if cs[0] == Blue then 1 else 2) && p <= |cs|
    ensures var a := Decide(h, objectInGripper).value.action;
            (a == Corrected <==> cs[0] != Blue && cs[1] != Red) &&
            (a != Corrected ==> p < |cs| && (a == PickedUp <==> cs[p] == Blue && !objectInGripper)) &&
            (a != Corrected && !(cs[p] == Blue && !objectInGripper) ==>
               p + 1 < |cs| && (a == DroppedOff <==> cs[p + 1] == Red && objectInGripper))
  {
    var h0 := DecideCases(h, objectInGripper);
    cs := h0.colours;
    p := if cs[0] == Blue then 1 else 2;
    if cs[0] == Blue || cs[1] == Red {
      var m := h0.(colours := cs[p..]);
      assert Decide(h, objectInGripper) == Markers(m, objectInGripper);
      assert m.colours[0] == cs[p];
      if !(cs[p] == Blue && !objectInGripper) {
        assert m.colours[1] == cs[p + 1];
      }
    }
  }

  /** The pickup and dropoff tests on two equal readings of Blue or Red take the Expected branch. */
  lemma MarkersOnSteadyColour(h: Hw, objectInGripper: bool, c: Colour)
    requires Markers(h, objectInGripper).Some?
    requires c == Blue || c == Red
    requires |h.colours| >= 2 && h.colours[0] == c && h.colours[1] == c
    ensures Markers(h, objectInGripper).value.action == Expected(c, objectInGripper)
  {
  }

  /**
   * What one decision writes: the forward drive, then nothing more when it
   * does nothing, and the manipulation script of its mode when it picks up or
   * drops off.
   */
  lemma DecideWrites(h: Hw, objectInGripper: bool)
    requires Decide(h, objectInGripper).Some?
    ensures var d := Decide(h, objectInGripper).value;
            var start := h.log + [Wheels(MOTORPOWER, MOTORPOWER)];
            (d.action == Ignored ==> d.hw == h.(colours := d.hw.colours, log := start)) &&
            (d.action == PickedUp ==> d.hw.log == start + ManipulationScript(PICKUP)) &&
            (d.action == DroppedOff ==> d.hw.log == start + ManipulationScript(DROPOFF))
  {
    var start := h.log + [Wheels(MOTORPOWER, MOTORPOWER)];
    var h0 := SkipColour(Write(h, [Wheels(MOTORPOWER, MOTORPOWER)]), Black).value;
    var c1 := PollColour(h0).value;
    assert c1.hw == h.(colours := c1.hw.colours, log := start);
    if c1.value != Blue {
      var c2 := PollColour(c1.hw).value;
      assert c2.hw == h.(colours := c2.hw.colours, log := start);
      if c2.value == Red {
        assert Decide(h, objectInGripper) == Markers(c2.hw, objectInGripper);
      }
    } else {
      assert Decide(h, objectInGripper) == Markers(c1.hw, objectInGripper);
    }
  }

  /** A path correction writes the forward drive, whole +3 degree turns, then whole -3 degree turns. */
  lemma CorrectionWrites(h: Hw, objectInGripper: bool)
    requires Decide(h, objectInGripper).Some? && Decide(h, objectInGripper).value.action == Corrected
    ensures exists g: nat, y: nat :: Decide(h, objectInGripper).value.hw.log
              == h.log + [Wheels(MOTORPOWER, MOTORPOWER)] + Repeat(TurnScript(3, MOTORPOWER), g) + Repeat(TurnScript(-3, MOTORPOWER), y)
  {
    var h0 := SkipColour(Write(h, [Wheels(MOTORPOWER, MOTORPOWER)]), Black).value;
    var c1 := PollColour(h0).value;
    var c2 := PollColour(c1.hw).value;
    var r := GreenLoop(c2.hw).value;
    assert Decide(h, objectInGripper).value.hw == r;
    assert c2.hw.log == h.log + [Wheels(MOTORPOWER, MOTORPOWER)];
    var g, y := GreenLoopTurns(c2.hw);
  }

  /** One pass of the inner loop of main: what colourDecisions decided, and the hardware after the obstacleCheck that follows it. */
  datatype Tick = Tick(decision: Decision, guarded: Hw)

  /** `t` is one pass from hardware `h`: colourDecisions, then obstacleCheck(SAFE_ULTRASONIC_DISTANCE) on what it left. */
  predicate TickFrom(h: Hw, objectInGripper: bool, t: Tick)
  {
    Decide(h, objectInGripper) == Some(t.decision) &&
    GuardObstacle(t.decision.hw, SAFE_ULTRASONIC_DISTANCE) == Some(t.guarded)
  }

  /** Each pass starts from the hardware the previous obstacleCheck left, with the occupancy the previous decision left. */
  predicate Chained(ticks: seq<Tick>)
  {
    forall i :: 0 < i < |ticks| ==> TickFrom(ticks[i - 1].guarded, ticks[i - 1].decision.objectInGripper, ticks[i])
  }

  /** The branch each pass took, in order. */
  function Actions(ticks: seq<Tick>): (r: seq<Action>)
    ensures |r| == |ticks| && forall i :: 0 <= i < |ticks| ==> r[i] == ticks[i].decision.action
  {
    seq(|ticks|, i requires 0 <= i < |ticks| => ticks[i].decision.action)
  }

  /** The hardware after a stretch of the mission, and its passes in order. */
  datatype Run = Run(hw: Hw, ticks: seq<Tick>)

  /**
   * A Round's passes: at least one, the last reports the delivery and leaves
   * the gripper empty, none before it does, and `hw` is what the last
   * obstacleCheck left. There is one dropoff, and one pickup exactly when the
   * Round starts with the gripper empty.
   */
  predicate DeliversOnce(run: Run, objectInGripper: bool)
  {
    var ts := run.ticks;
    ts != [] && run.hw == ts[|ts| - 1].guarded && ts[|ts| - 1].decision.delivered && !ts[|ts| - 1].decision.objectInGripper &&
    (forall i :: 0 <= i < |ts| - 1 ==> !ts[i].decision.delivered) &&
    multiset(Actions(ts))[DroppedOff] == 1 &&
    multiset(Actions(ts))[PickedUp] == if objectInGripper then 0 else 1
  }

  /**
   * The inner loop of main: colourDecisions then obstacleCheck, repeated until
   * colourDecisions reports a delivery. Every decision, the delivering one
   * included, is followed by an obstacleCheck, and the next decision starts
   * where that check left off (RoundChains). The loop ends on its one
   * dropoff, with the gripper empty, and it picks up exactly once when it
   * starts with the gripper empty, never when it starts occupied.
   */
  function Round(h: Hw, objectInGripper: bool): (r: Option<Run>)
    decreases |h.colours|
    ensures r.Some? ==> DeliversOnce(r.value, objectInGripper)
  {
    var d :- Decide(h, objectInGripper);
    var g :- GuardObstacle(d.hw, SAFE_ULTRASONIC_DISTANCE);
    if d.delivered then
      var run := Run(g, [Tick(d, g)]);
      assert DeliversOnce(run, objectInGripper) by { assert Actions(run.ticks) == [d.action]; }
      Some(run)
    else
      var rest :- Round(g, d.objectInGripper);
      var run := Run(rest.hw, [Tick(d, g)] + rest.ticks);
      assert DeliversOnce(run, objectInGripper) by { PrependPass(Tick(d, g), objectInGripper, rest); }
      Some(run)
  }

  /** A pass that does not deliver, put in front of a Round that starts with the occupancy it leaves. */
  lemma PrependPass(t: Tick, objectInGripper: bool, rest: Run)
    requires !t.decision.delivered && t.decision.action != DroppedOff
    requires t.decision.action == PickedUp ==> !objectInGripper && t.decision.objectInGripper
    requires t.decision.action in {Corrected, Ignored} ==> t.decision.objectInGripper == objectInGripper
    requires DeliversOnce(rest, t.decision.objectInGripper)
    ensures DeliversOnce(Run(rest.hw, [t] + rest.ticks), objectInGripper)
  {
    var ts := [t] + rest.ticks;
    assert Actions(ts) == [t.decision.action] + Actions(rest.ticks);
    assert forall i :: 0 <= i < |ts| - 1 ==> !ts[i].decision.delivered by {
      forall i | 0 <= i < |ts| - 1 ensures !ts[i].decision.delivered {
        if i > 0 { assert ts[i] == rest.ticks[i - 1]; }
      }
    }
  }

  /** How a Round unfolds: one pass, then either the end of the Round or the Round from where the pass left off. */
  lemma RoundStep(h: Hw, objectInGripper: bool)
    requires Round(h, objectInGripper).Some?
    ensures Decide(h, objectInGripper).Some?
    ensures var d := Decide(h, objectInGripper).value;
            GuardObstacle(d.hw, SAFE_ULTRASONIC_DISTANCE).Some? &&
            var g := GuardObstacle(d.hw, SAFE_ULTRASONIC_DISTANCE).value;
            (d.delivered ==> Round(h, objectInGripper).value.hw == g) &&
            (!d.delivered ==> Round(g, d.objectInGripper).Some? && Round(g, d.objectInGripper).value.hw == Round(h, objectInGripper).value.hw)
  {
  }

  /**
   * Every pass of a Round is colourDecisions followed by
   * obstacleCheck(SAFE_ULTRASONIC_DISTANCE), the first from `h`, each later
   * one from the hardware and occupancy the previous pass left.
   */
  lemma {:induction false} RoundChains(h: Hw, objectInGripper: bool)
    requires Round(h, objectInGripper).Some?
    decreases |h.colours|
    ensures var ts := Round(h, objectInGripper).value.ticks; TickFrom(h, objectInGripper, ts[0]) && Chained(ts)
  {
    var d := Decide(h, objectInGripper).value;
    var g := GuardObstacle(d.hw, SAFE_ULTRASONIC_DISTANCE).value;
    if !d.delivered {
      var rest := Round(g, d.objectInGripper).value;
      RoundChains(g, d.objectInGripper);
      ChainCons(Tick(d, g), rest.ticks);
    }
  }

  /** A pass in front of a chain of passes that starts where it leaves off is a chain. */
  lemma ChainCons(t: Tick, ts: seq<Tick>)
    requires ts != [] && TickFrom(t.guarded, t.decision.objectInGripper, ts[0]) && Chained(ts)
    ensures Chained([t] + ts)
  {
    var us := [t] + ts;
    forall i | 0 < i < |us| ensures TickFrom(us[i - 1].guarded, us[i - 1].decision.objectInGripper, us[i]) {
      if i > 1 { assert us[i - 1] == ts[i - 2] && us[i] == ts[i - 1]; }
    }
  }

  /**
   * The outer loop of main from `made` deliveries on: each iteration runs a
   * Round that starts with the gripper empty, up to TOTAL_DELIVERIES. All the
   * passes chain, and there are TOTAL_DELIVERIES - made pickups and as many
   * dropoffs, the last pass being a dropoff.
   */
  function Mission(h: Hw, made: nat): (r: Option<Run>)
    decreases TOTAL_DELIVERIES - made
    ensures r.Some? && made >= TOTAL_DELIVERIES ==> r.value == Run(h, [])
    ensures r.Some? && made < TOTAL_DELIVERIES ==> var ts := r.value.ticks;
            ts != [] && r.value.hw == ts[|ts| - 1].guarded && ts[|ts| - 1].decision.delivered
    ensures r.Some? ==> multiset(Actions(r.value.ticks))[DroppedOff] == if made < TOTAL_DELIVERIES then TOTAL_DELIVERIES - made else 0
    ensures r.Some? ==> multiset(Actions(r.value.ticks))[PickedUp] == if made < TOTAL_DELIVERIES then TOTAL_DELIVERIES - made else 0
  {
    if made >= TOTAL_DELIVERIES then
      Some(Run(h, []))
    else
      var round :- Round(h, false);
      var rest :- Mission(round.hw, made + 1);
      var run := Run(rest.hw, round.ticks + rest.ticks);
      assert multiset(Actions(run.ticks)) == multiset(Actions(round.ticks)) + multiset(Actions(rest.ticks)) by {
        assert Actions(run.ticks) == Actions(round.ticks) + Actions(rest.ticks);
      }
      Some(run)
  }

  /** How the outer loop unfolds: done at TOTAL_DELIVERIES, otherwise one Round and the Mission from where it left off. */
  lemma MissionStep(h: Hw, made: nat)
    requires Mission(h, made).Some?
    ensures made >= TOTAL_DELIVERIES ==> Mission(h, made).value.hw == h
    ensures made < TOTAL_DELIVERIES ==>
              Round(h, false).Some? && Mission(Round(h, false).value.hw, made + 1).Some? &&
              Mission(Round(h, false).value.hw, made + 1).value.hw == Mission(h, made).value.hw
  {
  }

  /**
   * Every pass of the mission is colourDecisions followed by
   * obstacleCheck(SAFE_ULTRASONIC_DISTANCE) from where the previous pass left
   * off, across Rounds too: each Round after the first starts from the last
   * obstacleCheck of the one before, with the gripper empty.
   */
  lemma {:induction false} MissionChains(h: Hw, made: nat)
    requires Mission(h, made).Some?
    decreases TOTAL_DELIVERIES - made
    ensures var ts := Mission(h, made).value.ticks; Chained(ts) && (made < TOTAL_DELIVERIES ==> TickFrom(h, false, ts[0]))
  {
    if made < TOTAL_DELIVERIES {
      var round := Round(h, false).value;
      var rest := Mission(round.hw, made + 1).value;
      RoundChains(h, false);
      MissionChains(round.hw, made + 1);
      ChainAppend(round.ticks, rest.ticks);
      assert Mission(h, made).value.ticks == round.ticks + rest.ticks;
    }
  }

  /** Two chains of passes, the second starting empty-handed where the first's last pass left off, form one chain. */
  lemma ChainAppend(ts: seq<Tick>, us: seq<Tick>)
    requires ts != [] && Chained(ts) && Chained(us)
    requires us != [] ==> TickFrom(ts[|ts| - 1].guarded, ts[|ts| - 1].decision.objectInGripper, us[0])
    ensures Chained(ts + us) && (ts + us)[0] == ts[0]
  {
    var vs := ts + us;
    forall i | 0 < i < |vs| ensures TickFrom(vs[i - 1].guarded, vs[i - 1].decision.objectInGripper, vs[i]) {
      if i < |ts| {
        assert vs[i - 1] == ts[i - 1] && vs[i] == ts[i];
      } else if i == |ts| {
        assert vs[i - 1] == ts[|ts| - 1] && vs[i] == us[0];
      } else {
        assert vs[i - 1] == us[i - 1 - |ts|] && vs[i] == us[i - |ts|];
      }
    }
  }
}
