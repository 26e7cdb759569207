/**
 * The motion components of robot_project.c as functions of the hardware state:
 * the two-stage gyro turn (smartRotateAngle), the colour-driven path corrector
 * (pathCorrection), the obstacle interlock (obstacleCheck) and the pickup/dropoff
 * manipulation sequence (gripperPickUp). `None` means a busy-wait would still be
 * polling when the given readings run out.
 */
module Motion {
  import opened Wrappers
  import opened Hardware
  import opened Config

  /** `n` copies of `s`, one after the other. */
  function Repeat<T>(s: seq<T>, n: nat): seq<T>
  {
    if n == 0 then [] else s + Repeat(s, n - 1)
  }

  lemma {:induction false} RepeatAdd<T>(s: seq<T>, m: nat, n: nat)
    ensures Repeat(s, m) + Repeat(s, n) == Repeat(s, m + n)
    decreases m
  {
    if m > 0 {
      RepeatAdd(s, m - 1, n);
      assert Repeat(s, m) + Repeat(s, n) == s + (Repeat(s, m - 1) + Repeat(s, n));
    }
  }

  /** A log that already ends in `m` copies of `s`, extended by `n` more. */
  lemma AppendRepeats<T>(pre: seq<T>, s: seq<T>, m: nat, n: nat)
    ensures (pre + Repeat(s, m)) + Repeat(s, n) == pre + Repeat(s, m + n)
  {
    RepeatAdd(s, m, n);
    assert (pre + Repeat(s, m)) + Repeat(s, n) == pre + (Repeat(s, m) + Repeat(s, n));
  }

  /* ---------- TurnController: smartRotateAngle ---------- */

  /** `int slowMotorPower = motorPower * 0.4;`: 0.4 * p truncated toward zero. */
  function SlowPower(p: int): (r: int)
    ensures 0 <= p ==> 0 <= r <= p && 10 * r <= 4 * p < 10 * r + 10
    ensures p < 0 ==> p <= r <= 0 && 10 * r - 10 < 4 * p <= 10 * r
  {
    if p >= 0 then p * 4 / 10 else -((-p) * 4 / 10)
  }

  /**
   * The wheel command that pivots for `angle` at power `q`: the wheels turn
   * opposite ways, motorD forward for a positive angle, motorA forward otherwise
   * (an angle of 0 included).
   */
  function Spin(angle: int, q: int): (c: Cmd)
    ensures c.Wheels? && c.a == -c.d
    ensures angle > 0 ==> c.d == q
    ensures angle <= 0 ==> c.a == q
  {
    if angle > 0 then Wheels(-q, q) else Wheels(q, -q)
  }

  /** Every command one turn writes: gyro reset, full-power pivot, 40% pivot, stop. */
  function TurnScript(angle: int, power: int): (r: seq<Cmd>)
    ensures |r| == 4 && r[0] == ResetGyro && r[3] == Wheels(0, 0)
    ensures forall i :: 1 <= i < 3 ==> r[i].Wheels? && r[i].a == -r[i].d
    ensures angle > 0 ==> r[1].d == power && r[2].d == SlowPower(power)
    ensures angle <= 0 ==> r[1].a == power && r[2].a == SlowPower(power)
    ensures forall i :: 0 <= i < |r| ==> !r[i].Gripper? && !r[i].ResetEncoder?
  {
    [ResetGyro, Spin(angle, power), Spin(angle, SlowPower(power)), Wheels(0, 0)]
  }

  /** The coarse phase ends once |gyro| >= 0.3 * |angle|, i.e. 10 * |gyro| >= 3 * |angle|. */
  function CoarseTenths(angle: int): int
  {
    3 * Abs(angle)
  }

  /** The fine phase ends once |gyro| >= |angle| - 3. */
  function FineTenths(angle: int): int
  {
    10 * (Abs(angle) - 3)
  }

  /**
   * How many gyro readings one turn consumes: the coarse wait stops at the first
   * reading i with |g| >= 0.3 * |angle|, the fine wait at the first later reading
   * with |g| >= |angle| - 3; None when either wait would not stop.
   */
  function TurnPolls(gs: seq<int>, angle: int): (r: Option<nat>)
    ensures r.Some? ==> 2 <= r.value <= |gs| && Abs(gs[r.value - 1]) >= Abs(angle) - 3
  {
    var i :- FirstMet(gs, GyroAtLeast(CoarseTenths(angle)));
    var j :- FirstMet(gs[i + 1..], GyroAtLeast(FineTenths(angle)));
    Some(i + j + 2)
  }

  /**
   * The two waits of a turn, in terms of the readings: the coarse wait stops at
   * the first reading i with 10 * |g| >= 3 * |angle|, and the turn ends at the
   * first later reading with |g| >= |angle| - 3.
   */
  lemma TurnWaits(gs: seq<int>, angle: int)
    requires TurnPolls(gs, angle).Some?
    ensures var k := TurnPolls(gs, angle).value;
            exists i :: 0 <= i < k - 1 &&
              (forall j :: 0 <= j < i ==> 10 * Abs(gs[j]) < 3 * Abs(angle)) &&
              10 * Abs(gs[i]) >= 3 * Abs(angle) &&
              (forall j :: i < j < k - 1 ==> Abs(gs[j]) < Abs(angle) - 3) &&
              Abs(gs[k - 1]) >= Abs(angle) - 3
  {
    var k := TurnPolls(gs, angle).value;
    var i := FirstMet(gs, GyroAtLeast(CoarseTenths(angle))).value;
    var rest := gs[i + 1..];
    var m := FirstMet(rest, GyroAtLeast(FineTenths(angle))).value;
    assert k == i + m + 2;
    forall j | i < j < k - 1
      ensures Abs(gs[j]) < Abs(angle) - 3
    {
      assert gs[j] == rest[j - i - 1];
    }
  }

  /**
   * smartRotateAngle(angle, power): writes the turn's four commands and reads
   * only the gyro, as many readings as TurnPolls says.
   */
  function Rotate(h: Hw, angle: int, power: int): (r: Option<Hw>)
    ensures r.Some? <==> TurnPolls(h.gyroIn, angle).Some?
    ensures r.Some? ==> r.value == h.(gyroIn := h.gyroIn[TurnPolls(h.gyroIn, angle).value..],
                                      log := h.log + TurnScript(angle, power))
  {
    var k :- TurnPolls(h.gyroIn, angle);
    Some(h.(gyroIn := h.gyroIn[k..], log := h.log + TurnScript(angle, power)))
  }

  /** A turn from the stopping points of its two waits: what it consumes and what it writes. */
  lemma RotateAfter(h: Hw, angle: int, power: int, i: nat, j: nat)
    requires FirstMet(h.gyroIn, GyroAtLeast(CoarseTenths(angle))) == Some(i)
    requires i + 1 <= |h.gyroIn| && FirstMet(h.gyroIn[i + 1..], GyroAtLeast(FineTenths(angle))) == Some(j)
    ensures Rotate(h, angle, power) == Some(h.(gyroIn := h.gyroIn[i + j + 2..], log := h.log + TurnScript(angle, power)))
  {
  }

  /** For |angle| <= 3 the fine wait ends on its first poll, whatever that reading is. */
  lemma SmallTurnFinePhaseOnePoll(gs: seq<int>, angle: int, i: nat)
    requires Abs(angle) <= 3
    requires FirstMet(gs, GyroAtLeast(CoarseTenths(angle))) == Some(i) && i + 1 < |gs|
    ensures TurnPolls(gs, angle) == Some(i + 2)
  {
    var rest := gs[i + 1..];
    assert Met(GyroAtLeast(FineTenths(angle)), rest[0]);
    assert FirstMet(rest, GyroAtLeast(FineTenths(angle))) == Some(0);
  }

  /**
   * smartRotateAngle(0, p) has no guard: it ends after exactly two gyro polls,
   * yet drives the wheels at p and then at the slow power.
   */
  lemma ZeroTurnStillDrives(h: Hw, power: int)
    requires |h.gyroIn| >= 2
    ensures Rotate(h, 0, power)
         == Some(h.(gyroIn := h.gyroIn[2..],
                    log := h.log + [ResetGyro, Wheels(power, -power),
                                    Wheels(SlowPower(power), -SlowPower(power)), Wheels(0, 0)]))
  {
    assert FirstMet(h.gyroIn, GyroAtLeast(CoarseTenths(0))) == Some(0);
    SmallTurnFinePhaseOnePoll(h.gyroIn, 0, 0);
  }

  /** A turn leaves both wheels stopped and the gripper register as it was. */
  lemma TurnStopsWheels(m: Motors, angle: int, power: int)
    ensures Replay(m, TurnScript(angle, power)) == m.(a := 0, d := 0)
  {
    var s := TurnScript(angle, power);
    ReplayAppend(m, s[..3], [Wheels(0, 0)]);
    assert s == s[..3] + [Wheels(0, 0)];
    var m3 := Replay(m, s[..3]);
    ReplayKeepsGripper(m, s[..3]);
    assert Replay(m3, [Wheels(0, 0)]) == Replay(m3.(a := 0, d := 0), []);
  }

  /* ---------- PathCorrector: pathCorrection ---------- */

  /** The first loop of pathCorrection: a +3 degree turn per Green reading, then the second loop. */
  function GreenLoop(h: Hw): (r: Option<Hw>)
    decreases |h.colours|
    ensures r.Some? ==> |r.value.colours| + 2 <= |h.colours| && r.value.colours == h.colours[|h.colours| - |r.value.colours|..]
    ensures r.Some? ==> r.value == h.(colours := r.value.colours, gyroIn := r.value.gyroIn, log := r.value.log)
  {
    var c :- PollColour(h);
    if c.value == Green then
      var h1 :- Rotate(c.hw, 3, MOTORPOWER);
      GreenLoop(h1)
    else
      YellowLoop(c.hw)
  }

  /** The second loop of pathCorrection: a -3 degree turn per Yellow reading. */
  function YellowLoop(h: Hw): (r: Option<Hw>)
    decreases |h.colours|
    ensures r.Some? ==> |r.value.colours| + 1 <= |h.colours| && r.value.colours == h.colours[|h.colours| - |r.value.colours|..]
    ensures r.Some? ==> r.value == h.(colours := r.value.colours, gyroIn := r.value.gyroIn, log := r.value.log)
  {
    var c :- PollColour(h);
    if c.value == Yellow then
      var h1 :- Rotate(c.hw, -3, MOTORPOWER);
      YellowLoop(h1)
    else
      Some(c.hw)
  }

  /** One Yellow reading: one left turn, then the loop again; any other reading ends the loop. */
  lemma YellowLoopStep(h: Hw)
    requires h.colours != []
    ensures h.colours[0] == Yellow && YellowLoop(h).Some? ==>
              Rotate(h.(colours := h.colours[1..]), -3, MOTORPOWER).Some? &&
              YellowLoop(h) == YellowLoop(Rotate(h.(colours := h.colours[1..]), -3, MOTORPOWER).value)
    ensures h.colours[0] != Yellow ==> YellowLoop(h) == Some(h.(colours := h.colours[1..]))
  {
  }

  /** Prepending one more turn script to a run of them. */
  lemma RepeatCons<T>(pre: seq<T>, s: seq<T>, n: nat)
    ensures pre + Repeat(s, n + 1) == (pre + s) + Repeat(s, n)
  {
    assert Repeat(s, n + 1) == s + Repeat(s, n);
  }

  /** The inductive step of YellowLoopTurns: one more Yellow reading, one more left turn in front. */
  lemma YellowRunShift(h: Hw, h1: Hw, r: Hw, y1: nat)
    requires h.colours != [] && h.colours[0] == Yellow
    requires h1.colours == h.colours[1..] && h1.log == h.log + TurnScript(-3, MOTORPOWER)
    requires y1 == RunLength(h1.colours, Yellow) && y1 < |h1.colours|
    requires r.colours == h1.colours[y1 + 1..] && r.log == h1.log + Repeat(TurnScript(-3, MOTORPOWER), y1)
    ensures y1 + 1 == RunLength(h.colours, Yellow) && y1 + 1 < |h.colours|
    ensures r.colours == h.colours[(y1 + 1) + 1..]
    ensures r.log == h.log + Repeat(TurnScript(-3, MOTORPOWER), y1 + 1)
  {
    DropDrop(h.colours, 1, y1 + 1);
    RepeatCons(h.log, TurnScript(-3, MOTORPOWER), y1);
  }

  /**
   * The second loop turns left once per reading of the Yellow run it meets and
   * stops at the first reading that is not Yellow, which it consumes.
   */
  lemma {:induction false} YellowLoopTurns(h: Hw) returns (y: nat)
    requires YellowLoop(h).Some?
    ensures y == RunLength(h.colours, Yellow) && y < |h.colours|
    ensures YellowLoop(h).value.colours == h.colours[y + 1..]
    ensures YellowLoop(h).value.log == h.log + Repeat(TurnScript(-3, MOTORPOWER), y)
    decreases |h.colours|
  {
    YellowLoopStep(h);
    if h.colours[0] == Yellow {
      var h1 := Rotate(h.(colours := h.colours[1..]), -3, MOTORPOWER).value;
      var y1 := YellowLoopTurns(h1);
      YellowRunShift(h, h1, YellowLoop(h1).value, y1);
      y := y1 + 1;
    } else {
      assert Repeat(TurnScript(-3, MOTORPOWER), 0) == [];
      y := 0;
    }
  }

  /** One Green reading: one right turn, then the first loop again. */
  lemma GreenLoopStep(h: Hw)
    requires h.colours != []
    ensures h.colours[0] == Green && GreenLoop(h).Some? ==>
              Rotate(h.(colours := h.colours[1..]), 3, MOTORPOWER).Some? &&
              GreenLoop(h) == GreenLoop(Rotate(h.(colours := h.colours[1..]), 3, MOTORPOWER).value)
    ensures h.colours[0] != Green ==> GreenLoop(h) == YellowLoop(h.(colours := h.colours[1..]))
  {
  }

  /**
   * pathCorrection turns right once per reading of the leading Green run, then
   * left once per reading of the Yellow run that follows the reading ending the
   * Green run, and stops after the first reading that is not Yellow: every right
   * turn comes before every left turn, and Green is never checked again.
   */
  lemma {:induction false} GreenLoopTurns(h: Hw) returns (g: nat, y: nat)
    requires GreenLoop(h).Some?
    ensures g == RunLength(h.colours, Green) && g < |h.colours|
    ensures y == RunLength(h.colours[g + 1..], Yellow) && y < |h.colours[g + 1..]|
    ensures GreenLoop(h).value.colours == h.colours[g + 1..][y + 1..]
    ensures GreenLoop(h).value.log == h.log + Repeat(TurnScript(3, MOTORPOWER), g) + Repeat(TurnScript(-3, MOTORPOWER), y)
    decreases |h.colours|
  {
    GreenLoopStep(h);
    if h.colours[0] == Green {
      var h1 := Rotate(h.(colours := h.colours[1..]), 3, MOTORPOWER).value;
      var g1, y1 := GreenLoopTurns(h1);
      GreenRunShift(h, h1, GreenLoop(h1).value, g1, y1);
      g, y := g1 + 1, y1;
    } else {
      var h1 := h.(colours := h.colours[1..]);
      y := YellowLoopTurns(h1);
      GreenRunEmpty(h, h1, YellowLoop(h1).value, y);
      g := 0;
    }
  }

  /** The base case of GreenLoopTurns: no Green reading, no right turn. */
  lemma GreenRunEmpty(h: Hw, h1: Hw, r: Hw, y: nat)
    requires h.colours != [] && h.colours[0] != Green
    requires h1.colours == h.colours[1..] && h1.log == h.log
    requires y == RunLength(h1.colours, Yellow) && y < |h1.colours|
    requires r.colours == h1.colours[y + 1..] && r.log == h1.log + Repeat(TurnScript(-3, MOTORPOWER), y)
    ensures 0 == RunLength(h.colours, Green) && 0 < |h.colours|
    ensures y == RunLength(h.colours[0 + 1..], Yellow) && y < |h.colours[0 + 1..]|
    ensures r.colours == h.colours[0 + 1..][y + 1..]
    ensures r.log == h.log + Repeat(TurnScript(3, MOTORPOWER), 0) + Repeat(TurnScript(-3, MOTORPOWER), y)
  {
    assert Repeat(TurnScript(3, MOTORPOWER), 0) == [];
  }

  /** The inductive step of GreenLoopTurns: one more Green reading, one more right turn in front. */
  lemma GreenRunShift(h: Hw, h1: Hw, r: Hw, g1: nat, y1: nat)
    requires h.colours != [] && h.colours[0] == Green
    requires h1.colours == h.colours[1..] && h1.log == h.log + TurnScript(3, MOTORPOWER)
    requires g1 == RunLength(h1.colours, Green) && g1 < |h1.colours|
    requires y1 == RunLength(h1.colours[g1 + 1..], Yellow) && y1 < |h1.colours[g1 + 1..]|
    requires r.colours == h1.colours[g1 + 1..][y1 + 1..]
    requires r.log == h1.log + Repeat(TurnScript(3, MOTORPOWER), g1) + Repeat(TurnScript(-3, MOTORPOWER), y1)
    ensures g1 + 1 == RunLength(h.colours, Green) && g1 + 1 < |h.colours|
    ensures h.colours[(g1 + 1) + 1..] == h1.colours[g1 + 1..]
    ensures y1 == RunLength(h.colours[(g1 + 1) + 1..], Yellow) && y1 < |h.colours[(g1 + 1) + 1..]|
    ensures r.colours == h.colours[(g1 + 1) + 1..][y1 + 1..]
    ensures r.log == h.log + Repeat(TurnScript(3, MOTORPOWER), g1 + 1) + Repeat(TurnScript(-3, MOTORPOWER), y1)
  {
    DropDrop(h.colours, 1, g1 + 1);
    RepeatCons(h.log, TurnScript(3, MOTORPOWER), g1);
  }

  /* ---------- ObstacleGuard: obstacleCheck ---------- */

  /** Back away: wheels at -15 for one second, then stop. */
  function ReverseScript(): (r: seq<Cmd>)
    ensures |r| == 3 && r[0].Wheels? && r[0].a == r[0].d < 0 && r[1] == Sleep(REVERSE_MS) && r[2] == Wheels(0, 0)
    ensures forall i :: 0 <= i < |r| ==> !r[i].Gripper? && !r[i].ResetGyro? && !r[i].ResetEncoder?
  {
    [Wheels(REVERSE_POWER, REVERSE_POWER), Sleep(REVERSE_MS), Wheels(0, 0)]
  }

  /** The first `if` of obstacleCheck: the touch sensor is polled only when the ultrasonic reading is clear. */
  function BackOff(h: Hw, maxSafeDistance: int): (r: Option<Hw>)
    ensures r.Some? ==> |h.sonar| >= 1 && r.value == h.(sonar := h.sonar[1..], touch := r.value.touch, log := r.value.log)
    ensures r.Some? ==> r.value.log == h.log || r.value.log == h.log + ReverseScript()
    ensures r.Some? && h.sonar[0] < maxSafeDistance ==> r.value == h.(sonar := h.sonar[1..], log := h.log + ReverseScript())
    ensures r.Some? && h.sonar[0] >= maxSafeDistance ==>
              h.touch != [] && r.value.touch == h.touch[1..] && (r.value.log == h.log + ReverseScript() <==> h.touch[0])
  {
    var u :- PollSonar(h);
    if u.value < maxSafeDistance then
      Some(Write(u.hw, ReverseScript()))
    else
      var t :- PollTouch(u.hw);
      if t.value then Some(Write(t.hw, ReverseScript())) else Some(t.hw)
  }

  /**
   * obstacleCheck(maxSafeDistance), its tail recursion (which passes
   * SAFE_ULTRASONIC_DISTANCE, not its own argument) read as a loop. It reads
   * only the ultrasonic and touch sensors, consumes at least two ultrasonic
   * readings and only appends to the log. Its first pass backs away when the
   * first ultrasonic reading is below the threshold or, that reading being
   * clear, the touch sensor is pressed; when nothing is sensed and the second
   * reading is clear it writes nothing at all.
   */
  function GuardObstacle(h: Hw, maxSafeDistance: int): (r: Option<Hw>)
    decreases |h.sonar|
    ensures r.Some? ==> r.value == h.(sonar := r.value.sonar, touch := r.value.touch, log := r.value.log)
    ensures r.Some? ==> |r.value.sonar| + 2 <= |h.sonar| && h.log <= r.value.log
    ensures r.Some? ==> var sensed := h.sonar[0] < maxSafeDistance || (h.touch != [] && h.touch[0]);
            (sensed ==> h.log + ReverseScript() <= r.value.log) &&
            (!sensed && h.sonar[1] >= maxSafeDistance ==> r.value.log == h.log)
  {
    var h1 :- BackOff(h, maxSafeDistance);
    var u :- PollSonar(h1);
    if u.value < maxSafeDistance then
      var r := GuardObstacle(u.hw, SAFE_ULTRASONIC_DISTANCE);
      assert r.Some? ==> h.log <= r.value.log && (h1.log == h.log + ReverseScript() ==> h.log + ReverseScript() <= r.value.log) by {
        if r.Some? {
          PrefixTrans(h.log, h1.log, r.value.log);
        }
      }
      r
    else Some(u.hw)
  }

  /** Extending a prefix: a prefix of a prefix is a prefix. */
  lemma PrefixTrans<T>(a: seq<T>, b: seq<T>, c: seq<T>)
    requires a <= b && b <= c
    ensures a <= c
  {
    assert c[..|a|] == c[..|b|][..|a|];
  }

  /** One pass of obstacleCheck: BackOff, one more ultrasonic poll, and a retry only below the threshold. */
  lemma GuardStep(h: Hw, maxSafeDistance: int)
    requires GuardObstacle(h, maxSafeDistance).Some?
    ensures BackOff(h, maxSafeDistance).Some?
    ensures var h1 := BackOff(h, maxSafeDistance).value;
            h1.sonar != [] && h1.sonar == h.sonar[1..] &&
            GuardObstacle(h, maxSafeDistance)
            == if h1.sonar[0] < maxSafeDistance then GuardObstacle(h1.(sonar := h1.sonar[1..]), SAFE_ULTRASONIC_DISTANCE)
               else Some(h1.(sonar := h1.sonar[1..]))
  {
  }

  /**
   * Each pass consumes exactly two ultrasonic readings; obstacleCheck returns
   * only after the second reading of a pass is at least that pass's threshold
   * (the caller's on the first pass, SAFE_ULTRASONIC_DISTANCE after), and it
   * retries only after a second reading below the caller's threshold.
   */
  lemma {:induction false} GuardReturnsWhenClear(h: Hw, maxSafeDistance: int) returns (k: nat)
    requires GuardObstacle(h, maxSafeDistance).Some?
    ensures 2 <= k <= |h.sonar| && k % 2 == 0 && GuardObstacle(h, maxSafeDistance).value.sonar == h.sonar[k..]
    ensures h.sonar[k - 1] >= (if k == 2 then maxSafeDistance else SAFE_ULTRASONIC_DISTANCE)
    ensures k > 2 ==> h.sonar[1] < maxSafeDistance
    ensures forall j :: 1 <= j < k - 1 && j % 2 == 1 ==>
              h.sonar[j] < (if j == 1 then maxSafeDistance else SAFE_ULTRASONIC_DISTANCE)
    decreases |h.sonar|
  {
    GuardStep(h, maxSafeDistance);
    var h1 := BackOff(h, maxSafeDistance).value;
    var h2 := h1.(sonar := h1.sonar[1..]);
    DropDrop(h.sonar, 1, 1);
    if h1.sonar[0] < maxSafeDistance {
      var k2 := GuardReturnsWhenClear(h2, SAFE_ULTRASONIC_DISTANCE);
      RetryShift(h.sonar, h2.sonar, GuardObstacle(h2, SAFE_ULTRASONIC_DISTANCE).value.sonar, k2, maxSafeDistance);
      k := k2 + 2;
    } else {
      k := 2;
    }
  }

  /** The readings of a retry, seen from the pass before it: every earlier pass ended on a close reading. */
  lemma RetryShift(s: seq<int>, s2: seq<int>, rest: seq<int>, k2: nat, maxSafeDistance: int)
    requires |s| >= 2 && s2 == s[2..] && s[1] < maxSafeDistance
    requires 2 <= k2 <= |s2| && k2 % 2 == 0 && rest == s2[k2..] && s2[k2 - 1] >= SAFE_ULTRASONIC_DISTANCE
    requires forall j :: 1 <= j < k2 - 1 && j % 2 == 1 ==> s2[j] < SAFE_ULTRASONIC_DISTANCE
    ensures 2 < k2 + 2 <= |s| && (k2 + 2) % 2 == 0 && rest == s[k2 + 2..]
    ensures s[k2 + 2 - 1] >= SAFE_ULTRASONIC_DISTANCE
    ensures forall j :: 1 <= j < (k2 + 2) - 1 && j % 2 == 1 ==>
              s[j] < (if j == 1 then maxSafeDistance else SAFE_ULTRASONIC_DISTANCE)
  {
    DropDrop(s, 2, k2);
    forall j | 1 <= j < (k2 + 2) - 1 && j % 2 == 1
      ensures s[j] < (if j == 1 then maxSafeDistance else SAFE_ULTRASONIC_DISTANCE)
    {
      if j > 1 {
        assert s[j] == s2[j - 2];
      }
    }
  }

  /** Whatever the readings, obstacleCheck writes nothing but whole reverse manoeuvres. */
  lemma {:induction false} GuardOnlyReverses(h: Hw, maxSafeDistance: int)
    requires GuardObstacle(h, maxSafeDistance).Some?
    ensures exists n: nat :: GuardObstacle(h, maxSafeDistance).value.log == h.log + Repeat(ReverseScript(), n)
    decreases |h.sonar|
  {
    GuardStep(h, maxSafeDistance);
    var h1 := BackOff(h, maxSafeDistance).value;
    var n1: nat := if h1.log == h.log then 0 else 1;
    assert h1.log == h.log + Repeat(ReverseScript(), n1);
    var h2 := h1.(sonar := h1.sonar[1..]);
    if h1.sonar[0] < maxSafeDistance {
      GuardOnlyReverses(h2, SAFE_ULTRASONIC_DISTANCE);
      var n2: nat :| GuardObstacle(h2, SAFE_ULTRASONIC_DISTANCE).value.log == h2.log + Repeat(ReverseScript(), n2);
      AppendRepeats(h.log, ReverseScript(), n1, n2);
      assert GuardObstacle(h, maxSafeDistance).value.log == h.log + Repeat(ReverseScript(), n1 + n2);
    } else {
      assert GuardObstacle(h, maxSafeDistance).value.log == h.log + Repeat(ReverseScript(), n1);
    }
  }

  /** After any number of reverse manoeuvres the wheels are as before (none) or stopped, never left at -15. */
  lemma {:induction false} ReversesLeaveWheels(m: Motors, n: nat)
    ensures Replay(m, Repeat(ReverseScript(), n)) == if n == 0 then m else m.(a := 0, d := 0)
    decreases n
  {
    if n > 0 {
      ReplayAppend(m, ReverseScript(), Repeat(ReverseScript(), n - 1));
      var s := ReverseScript();
      ReplayAppend(m, s[..2], [Wheels(0, 0)]);
      assert s == s[..2] + [Wheels(0, 0)];
      var m2 := Replay(m, s[..2]);
      ReplayKeepsGripper(m, s[..2]);
      assert Replay(m2, [Wheels(0, 0)]) == Replay(m2.(a := 0, d := 0), []);
      ReversesLeaveWheels(m.(a := 0, d := 0), n - 1);
    }
  }

  /** A touch with the ultrasonic reading clear on both polls: exactly one reverse, no retry. */
  lemma TouchReversesOnce(h: Hw, maxSafeDistance: int)
    requires |h.sonar| >= 2 && h.touch != []
    requires h.sonar[0] >= maxSafeDistance && h.touch[0] && h.sonar[1] >= maxSafeDistance
    ensures GuardObstacle(h, maxSafeDistance)
         == Some(h.(sonar := h.sonar[2..], touch := h.touch[1..], log := h.log + ReverseScript()))
  {
  }

  /** Nothing sensed on either poll: nothing is written, so the wheels keep their command. */
  lemma ClearPathWritesNothing(h: Hw, maxSafeDistance: int)
    requires |h.sonar| >= 2 && h.touch != []
    requires h.sonar[0] >= maxSafeDistance && !h.touch[0] && h.sonar[1] >= maxSafeDistance
    ensures GuardObstacle(h, maxSafeDistance) == Some(h.(sonar := h.sonar[2..], touch := h.touch[1..]))
  {
  }

  /* ---------- ManipulationSequencer: gripperPickUp ---------- */

  /** One timed gripper actuation: power on, five seconds, power off. */
  function ActuateScript(power: int): (r: seq<Cmd>)
    ensures |r| == 3 && r[0] == Gripper(power) && r[1] == Sleep(GRIP_MS) && r[2] == Gripper(0)
    ensures forall i :: 0 <= i < |r| ==> !r[i].Wheels?
  {
    [Gripper(power), Sleep(GRIP_MS), Gripper(0)]
  }

  /** Lines 194-207: reset the gyro and the encoder, stop, and open first when picking up. */
  function PrepareScript(mode: int): (r: seq<Cmd>)
    ensures |r| >= 5 && r[0] == ResetGyro && r[3] == ResetEncoder && r[4] == Wheels(0, 0)
    ensures (exists i :: 0 <= i < |r| && r[i].Gripper?) <==> mode == PICKUP
    ensures mode == PICKUP ==> r[5..] == ActuateScript(GRIP_OPEN)
  {
    var r := [ResetGyro, Sleep(SETTLE_MS), Sleep(SETTLE_MS), ResetEncoder, Wheels(0, 0)]
             + (if mode == PICKUP then ActuateScript(GRIP_OPEN) else []);
    assert mode == PICKUP ==> r[5].Gripper?;
    r
  }

  /** Lines 209-227: turn out, drive to the encoder limit, stop, then open (dropoff) or close (pickup). */
  function OutboundScript(mode: int): (r: seq<Cmd>)
    ensures |r| >= 6 && r[..4] == TurnScript(ROTATEANGLE, MOTORPOWER) && r[4] == Wheels(MOTORPOWER, MOTORPOWER) && r[5] == Wheels(0, 0)
    ensures mode == DROPOFF ==> r[6..] == ActuateScript(GRIP_OPEN)
    ensures mode == PICKUP ==> r[6..] == ActuateScript(GRIP_CLOSE)
    ensures mode != DROPOFF && mode != PICKUP ==> |r| == 6
  {
    TurnScript(ROTATEANGLE, MOTORPOWER)
    + [Wheels(MOTORPOWER, MOTORPOWER), Wheels(0, 0)]
    + (if mode == DROPOFF then ActuateScript(GRIP_OPEN) else [])
    + (if mode == PICKUP then ActuateScript(GRIP_CLOSE) else [])
  }

  /** Lines 229-242: reset the encoder, reverse to minus the limit, stop, close (dropoff), turn back. */
  function ReturnScript(mode: int): (r: seq<Cmd>)
    ensures |r| >= 7 && r[0] == ResetEncoder && r[1] == Wheels(-MOTORPOWER, -MOTORPOWER) && r[2] == Wheels(0, 0)
    ensures r[|r| - 4..] == TurnScript(-ROTATEANGLE, MOTORPOWER)
    ensures (exists i :: 0 <= i < |r| && r[i].Gripper?) <==> mode == DROPOFF
    ensures mode == DROPOFF ==> r[3..6] == ActuateScript(GRIP_CLOSE)
  {
    var r := [ResetEncoder, Wheels(-MOTORPOWER, -MOTORPOWER), Wheels(0, 0)]
             + (if mode == DROPOFF then ActuateScript(GRIP_CLOSE) else [])
             + TurnScript(-ROTATEANGLE, MOTORPOWER);
    assert mode == DROPOFF ==> r[3].Gripper?;
    r
  }

  /** The outbound commands written one piece at a time. */
  lemma OutboundLog(xs: seq<Cmd>, mode: int)
    ensures xs + TurnScript(ROTATEANGLE, MOTORPOWER) + [Wheels(MOTORPOWER, MOTORPOWER)] + [Wheels(0, 0)]
            + (if mode == DROPOFF then ActuateScript(GRIP_OPEN) else [])
            + (if mode == PICKUP then ActuateScript(GRIP_CLOSE) else [])
         == xs + OutboundScript(mode)
  {
  }

  /** The return commands written one piece at a time. */
  lemma ReturnLog(xs: seq<Cmd>, mode: int)
    ensures xs + [ResetEncoder] + [Wheels(-MOTORPOWER, -MOTORPOWER)] + [Wheels(0, 0)]
            + (if mode == DROPOFF then ActuateScript(GRIP_CLOSE) else [])
            + TurnScript(-ROTATEANGLE, MOTORPOWER)
         == xs + ReturnScript(mode)
  {
  }

  function ManipulationScript(mode: int): seq<Cmd>
  {
    PrepareScript(mode) + OutboundScript(mode) + ReturnScript(mode)
  }

  /**
   * Lines 209-227 on the readings: the +90 degree turn, then the forward leg,
   * which stops at the first encoder reading >= ENC_LIMIT.
   */
  function Outward(h: Hw, mode: int): (r: Option<Hw>)
    ensures r.Some? ==> r.value == h.(gyroIn := r.value.gyroIn, encoderIn := r.value.encoderIn, log := h.log + OutboundScript(mode))
    ensures r.Some? ==> |r.value.gyroIn| + 2 <= |h.gyroIn| && |r.value.encoderIn| + 1 <= |h.encoderIn|
  {
    var t :- TurnPolls(h.gyroIn, ROTATEANGLE);
    var i :- FirstMet(h.encoderIn, EncoderAtLeast(ENC_LIMIT));
    Some(h.(gyroIn := h.gyroIn[t..], encoderIn := h.encoderIn[i + 1..], log := h.log + OutboundScript(mode)))
  }

  /**
   * Lines 229-242 on the readings: the reverse leg, which stops at the first
   * encoder reading <= -ENC_LIMIT, then the -90 degree turn.
   */
  function Homeward(h: Hw, mode: int): (r: Option<Hw>)
    ensures r.Some? ==> r.value == h.(gyroIn := r.value.gyroIn, encoderIn := r.value.encoderIn, log := h.log + ReturnScript(mode))
    ensures r.Some? ==> |r.value.gyroIn| + 2 <= |h.gyroIn| && |r.value.encoderIn| + 1 <= |h.encoderIn|
  {
    var i :- FirstMet(h.encoderIn, EncoderAtMost(-ENC_LIMIT));
    var t :- TurnPolls(h.gyroIn, -ROTATEANGLE);
    Some(h.(gyroIn := h.gyroIn[t..], encoderIn := h.encoderIn[i + 1..], log := h.log + ReturnScript(mode)))
  }

  /**
   * gripperPickUp(mode): writes exactly ManipulationScript(mode), reads neither
   * the line nor the obstacle sensors, reads the gyro for the +90 degree turn and
   * then for the -90 degree turn, and reads the encoder for the two legs.
   */
  function Manipulate(h: Hw, mode: int): (r: Option<Hw>)
    ensures r.Some? ==> r.value == h.(gyroIn := r.value.gyroIn, encoderIn := r.value.encoderIn,
                                      log := h.log + ManipulationScript(mode))
    ensures r.Some? ==> |r.value.gyroIn| + 4 <= |h.gyroIn| && |r.value.encoderIn| + 2 <= |h.encoderIn|
  {
    var h2 :- Outward(Write(h, PrepareScript(mode)), mode);
    assert h.log + PrepareScript(mode) + OutboundScript(mode) + ReturnScript(mode) == h.log + ManipulationScript(mode) by {
      AppendThree(h.log, PrepareScript(mode), OutboundScript(mode), ReturnScript(mode));
    }
    Homeward(h2, mode)
  }

  /**
   * The forward leg stops at the first encoder reading >= ENC_LIMIT, which it
   * consumes. Its count runs from the reset of the preparation part, before the
   * +90 degree turn.
   */
  lemma ForwardLegStops(h: Hw, mode: int)
    requires Outward(h, mode).Some?
    ensures var k := |h.encoderIn| - |Outward(h, mode).value.encoderIn|;
            1 <= k && Outward(h, mode).value.encoderIn == h.encoderIn[k..] && h.encoderIn[k - 1] >= ENC_LIMIT &&
            forall j :: 0 <= j < k - 1 ==> h.encoderIn[j] < ENC_LIMIT
  {
  }

  /**
   * The reverse leg starts from its own encoder reset and stops at the first
   * reading <= -ENC_LIMIT, which it consumes.
   */
  lemma ReverseLegStops(h: Hw, mode: int)
    requires Homeward(h, mode).Some?
    ensures var k := |h.encoderIn| - |Homeward(h, mode).value.encoderIn|;
            1 <= k && Homeward(h, mode).value.encoderIn == h.encoderIn[k..] && h.encoderIn[k - 1] <= -ENC_LIMIT &&
            forall j :: 0 <= j < k - 1 ==> h.encoderIn[j] > -ENC_LIMIT
  {
  }

  /** The gripper register is 0 after a timed actuation, whatever it held before. */
  lemma ActuateEndsOff(m: Motors, q: int)
    ensures Replay(m, ActuateScript(q)) == m.(b := 0)
  {
    var s := ActuateScript(q);
    assert s[1..] == [Sleep(GRIP_MS), Gripper(0)];
    assert Replay(m, s) == Replay(m.(b := q), [Sleep(GRIP_MS), Gripper(0)]);
    assert [Sleep(GRIP_MS), Gripper(0)][1..] == [Gripper(0)];
    assert Replay(m.(b := q), [Sleep(GRIP_MS), Gripper(0)]) == Replay(m.(b := q), [Gripper(0)]);
    assert [Gripper(0)][1..] == [];
    assert Replay(m.(b := q), [Gripper(0)]) == Replay(m.(b := 0), []);
  }

  /**
   * A script that ends with a timed actuation, then commands that leave the
   * gripper alone, then a turn, leaves every motor stopped.
   */
  lemma ActuateThenTurnStops(m: Motors, xs: seq<Cmd>, q: int, ys: seq<Cmd>, angle: int, power: int)
    requires forall i :: 0 <= i < |ys| ==> !ys[i].Gripper?
    ensures Replay(m, xs + ActuateScript(q) + ys + TurnScript(angle, power)) == Stopped
  {
    var m1 := Replay(m, xs);
    ReplayAppend(m, xs, ActuateScript(q));
    ActuateEndsOff(m1, q);
    var m2 := Replay(m, xs + ActuateScript(q));
    ReplayAppend(m, xs + ActuateScript(q), ys);
    ReplayKeepsGripper(m2, ys);
    var m3 := Replay(m, xs + ActuateScript(q) + ys);
    ReplayAppend(m, xs + ActuateScript(q) + ys, TurnScript(angle, power));
    TurnStopsWheels(m3, angle, power);
  }

  /** gripperPickUp, in either mode, returns with both wheels and the gripper stopped. */
  lemma ManipulationStops(m: Motors, mode: int)
    requires mode == PICKUP || mode == DROPOFF
    ensures Replay(m, ManipulationScript(mode)) == Stopped
  {
    var pre := [ResetGyro, Sleep(SETTLE_MS), Sleep(SETTLE_MS), ResetEncoder, Wheels(0, 0)];
    var turnOut := TurnScript(ROTATEANGLE, MOTORPOWER);
    var fwd := [Wheels(MOTORPOWER, MOTORPOWER), Wheels(0, 0)];
    var back := [ResetEncoder, Wheels(-MOTORPOWER, -MOTORPOWER), Wheels(0, 0)];
    var turnBack := TurnScript(-ROTATEANGLE, MOTORPOWER);
    if mode == PICKUP {
      var xs := pre + ActuateScript(GRIP_OPEN) + turnOut + fwd;
      assert PrepareScript(mode) == pre + ActuateScript(GRIP_OPEN) && OutboundScript(mode) == turnOut + fwd + ActuateScript(GRIP_CLOSE);
      assert ReturnScript(mode) == back + turnBack;
      assert ManipulationScript(mode) == xs + ActuateScript(GRIP_CLOSE) + back + turnBack;
      ActuateThenTurnStops(m, xs, GRIP_CLOSE, back, -ROTATEANGLE, MOTORPOWER);
    } else {
      var xs := pre + turnOut + fwd + ActuateScript(GRIP_OPEN) + back;
      assert PrepareScript(mode) == pre && OutboundScript(mode) == turnOut + fwd + ActuateScript(GRIP_OPEN);
      assert ReturnScript(mode) == back + ActuateScript(GRIP_CLOSE) + turnBack;
      assert ManipulationScript(mode) == xs + ActuateScript(GRIP_CLOSE) + [] + turnBack;
      ActuateThenTurnStops(m, xs, GRIP_CLOSE, [], -ROTATEANGLE, MOTORPOWER);
    }
  }

  /**
   * What a command does to the chassis, the gripper or the encoder, as far as
   * the manipulation order is concerned; gyro resets and waits have no step.
   */
  datatype Step = Open | Close | Release | PivotRight | PivotLeft | Forward | Backward | Halt | ZeroEncoder

  function StepOf(c: Cmd): Option<Step>
  {
    match c
    case Gripper(p) => if p > 0 then Some(Open) else if p < 0 then Some(Close) else Some(Release)
    case Wheels(a, d) =>
      if a < 0 < d then Some(PivotRight)
      else if d < 0 < a then Some(PivotLeft)
      else if a == d && a > 0 then Some(Forward)
      else if a == d && a < 0 then Some(Backward)
      else if a == 0 && d == 0 then Some(Halt)
      else None
    case ResetEncoder => Some(ZeroEncoder)
    case _ => None
  }

  /** The step a single command performs, as a sequence of at most one. */
  function StepList(c: Cmd): seq<Step>
  {
    match StepOf(c)
    case Some(s) => [s]
    case None => []
  }

  /** The steps a command sequence performs, in order; stops, resets and waits are dropped. */
  function Steps(cmds: seq<Cmd>): seq<Step>
    decreases |cmds|
  {
    if cmds == [] then [] else StepList(cmds[0]) + Steps(cmds[1..])
  }

  lemma {:induction false} StepsAppend(xs: seq<Cmd>, ys: seq<Cmd>)
    ensures Steps(xs + ys) == Steps(xs) + Steps(ys)
    decreases |xs|
  {
    if xs == [] {
      assert xs + ys == ys;
    } else {
      assert (xs + ys)[0] == xs[0] && (xs + ys)[1..] == xs[1..] + ys;
      StepsAppend(xs[1..], ys);
    }
  }

  lemma Steps2(a: Cmd, b: Cmd)
    ensures Steps([a, b]) == StepList(a) + StepList(b)
  {
    assert [a, b][1..] == [b];
    assert [b][1..] == [];
    assert Steps([b]) == StepList(b) + Steps([]);
    assert StepList(b) + [] == StepList(b);
  }

  lemma Steps3(a: Cmd, b: Cmd, c: Cmd)
    ensures Steps([a, b, c]) == StepList(a) + StepList(b) + StepList(c)
  {
    assert [a, b, c][1..] == [b, c];
    Steps2(b, c);
  }

  /** A turn at positive power pivots twice (coarse, then fine) in the direction of its angle's sign, then halts. */
  lemma TurnSteps(angle: int)
    ensures Steps(TurnScript(angle, MOTORPOWER))
         == if angle > 0 then [PivotRight, PivotRight, Halt] else [PivotLeft, PivotLeft, Halt]
  {
    var s := TurnScript(angle, MOTORPOWER);
    assert SlowPower(MOTORPOWER) == 16;
    assert s == [s[0]] + [s[1], s[2], s[3]];
    StepsAppend([s[0]], [s[1], s[2], s[3]]);
    assert [s[0]][1..] == [];
    Steps3(s[1], s[2], s[3]);
  }

  /** The steps of the fixed pieces of gripperPickUp. */
  lemma PieceSteps()
    ensures Steps([ResetGyro, Sleep(SETTLE_MS), Sleep(SETTLE_MS), ResetEncoder, Wheels(0, 0)]) == [ZeroEncoder, Halt]
    ensures Steps(ActuateScript(GRIP_OPEN)) == [Open, Release]
    ensures Steps(ActuateScript(GRIP_CLOSE)) == [Close, Release]
    ensures Steps([Wheels(MOTORPOWER, MOTORPOWER), Wheels(0, 0)]) == [Forward, Halt]
    ensures Steps([ResetEncoder, Wheels(-MOTORPOWER, -MOTORPOWER), Wheels(0, 0)]) == [ZeroEncoder, Backward, Halt]
  {
    SettleSteps();
    ActuateSteps(GRIP_OPEN);
    ActuateSteps(GRIP_CLOSE);
    Steps2(Wheels(MOTORPOWER, MOTORPOWER), Wheels(0, 0));
    Steps3(ResetEncoder, Wheels(-MOTORPOWER, -MOTORPOWER), Wheels(0, 0));
  }

  lemma SettleSteps()
    ensures Steps([ResetGyro, Sleep(SETTLE_MS), Sleep(SETTLE_MS), ResetEncoder, Wheels(0, 0)]) == [ZeroEncoder, Halt]
  {
    var pre := [ResetGyro, Sleep(SETTLE_MS), Sleep(SETTLE_MS), ResetEncoder, Wheels(0, 0)];
    assert pre == [ResetGyro, Sleep(SETTLE_MS), Sleep(SETTLE_MS)] + [ResetEncoder, Wheels(0, 0)];
    StepsAppend([ResetGyro, Sleep(SETTLE_MS), Sleep(SETTLE_MS)], [ResetEncoder, Wheels(0, 0)]);
    Steps3(ResetGyro, Sleep(SETTLE_MS), Sleep(SETTLE_MS));
    Steps2(ResetEncoder, Wheels(0, 0));
  }

  lemma ActuateSteps(q: int)
    ensures Steps(ActuateScript(q)) == StepList(Gripper(q)) + [Release]
  {
    Steps3(Gripper(q), Sleep(GRIP_MS), Gripper(0));
  }

  /** The steps of each third of gripperPickUp, for any value of the discriminator. */
  lemma ThirdsSteps(mode: int)
    ensures Steps(PrepareScript(mode)) == [ZeroEncoder, Halt] + (if mode == PICKUP then [Open, Release] else [])
    ensures Steps(OutboundScript(mode))
         == [PivotRight, PivotRight, Halt, Forward, Halt]
            + (if mode == DROPOFF then [Open, Release] else []) + (if mode == PICKUP then [Close, Release] else [])
    ensures Steps(ReturnScript(mode))
         == [ZeroEncoder, Backward, Halt] + (if mode == DROPOFF then [Close, Release] else []) + [PivotLeft, PivotLeft, Halt]
  {
    PieceSteps();
    PrepareSteps(mode);
    OutboundSteps(mode);
    ReturnSteps(mode);
  }

  lemma PrepareSteps(mode: int)
    requires Steps([ResetGyro, Sleep(SETTLE_MS), Sleep(SETTLE_MS), ResetEncoder, Wheels(0, 0)]) == [ZeroEncoder, Halt]
    requires Steps(ActuateScript(GRIP_OPEN)) == [Open, Release]
    ensures Steps(PrepareScript(mode)) == [ZeroEncoder, Halt] + (if mode == PICKUP then [Open, Release] else [])
  {
    var pre := [ResetGyro, Sleep(SETTLE_MS), Sleep(SETTLE_MS), ResetEncoder, Wheels(0, 0)];
    StepsAppend(pre, if mode == PICKUP then ActuateScript(GRIP_OPEN) else []);
  }

  lemma OutboundSteps(mode: int)
    requires Steps([Wheels(MOTORPOWER, MOTORPOWER), Wheels(0, 0)]) == [Forward, Halt]
    requires Steps(ActuateScript(GRIP_OPEN)) == [Open, Release] && Steps(ActuateScript(GRIP_CLOSE)) == [Close, Release]
    ensures Steps(OutboundScript(mode))
         == [PivotRight, PivotRight, Halt, Forward, Halt]
            + (if mode == DROPOFF then [Open, Release] else []) + (if mode == PICKUP then [Close, Release] else [])
  {
    var turnOut := TurnScript(ROTATEANGLE, MOTORPOWER);
    var fwd := [Wheels(MOTORPOWER, MOTORPOWER), Wheels(0, 0)];
    var dropOpen := if mode == DROPOFF then ActuateScript(GRIP_OPEN) else [];
    var pickClose := if mode == PICKUP then ActuateScript(GRIP_CLOSE) else [];
    var grip := dropOpen + pickClose;
    assert Steps(grip) == (if mode == DROPOFF then [Open, Release] else []) + (if mode == PICKUP then [Close, Release] else []) by {
      StepsAppend(dropOpen, pickClose);
    }
    assert OutboundScript(mode) == turnOut + fwd + grip;
    TurnSteps(ROTATEANGLE);
    StepsAppend(turnOut, fwd);
    StepsAppend(turnOut + fwd, grip);
  }

  lemma ReturnSteps(mode: int)
    requires Steps([ResetEncoder, Wheels(-MOTORPOWER, -MOTORPOWER), Wheels(0, 0)]) == [ZeroEncoder, Backward, Halt]
    requires Steps(ActuateScript(GRIP_CLOSE)) == [Close, Release]
    ensures Steps(ReturnScript(mode))
         == [ZeroEncoder, Backward, Halt] + (if mode == DROPOFF then [Close, Release] else []) + [PivotLeft, PivotLeft, Halt]
  {
    var back := [ResetEncoder, Wheels(-MOTORPOWER, -MOTORPOWER), Wheels(0, 0)];
    var dropClose := if mode == DROPOFF then ActuateScript(GRIP_CLOSE) else [];
    TurnSteps(-ROTATEANGLE);
    StepsAppend(back, dropClose);
    StepsAppend(back + dropClose, TurnScript(-ROTATEANGLE, MOTORPOWER));
  }

  /** The steps of the whole sequence are the steps of its three parts, in order. */
  lemma ThirdsInOrder(mode: int)
    ensures Steps(ManipulationScript(mode)) == Steps(PrepareScript(mode)) + Steps(OutboundScript(mode)) + Steps(ReturnScript(mode))
  {
    StepsAppend(PrepareScript(mode), OutboundScript(mode));
    StepsAppend(PrepareScript(mode) + OutboundScript(mode), ReturnScript(mode));
  }

  /**
   * Pickup: open, turn right, drive out, close, back up, turn left. The gripper
   * opens before the +90 degree turn and closes after the forward leg; every
   * actuation is followed by a release and every leg by a halt. The reverse leg
   * starts from an encoder reset; the forward leg counts from the reset before
   * the turn, so the two right pivots lie between its reset and its drive.
   */
  lemma PickupOrder()
    ensures Steps(ManipulationScript(PICKUP))
         == [ZeroEncoder, Halt, Open, Release]
            + [PivotRight, PivotRight, Halt, Forward, Halt, Close, Release]
            + [ZeroEncoder, Backward, Halt, PivotLeft, PivotLeft, Halt]
  {
    ThirdsSteps(PICKUP);
    ThirdsInOrder(PICKUP);
    assert Steps(PrepareScript(PICKUP)) == [ZeroEncoder, Halt, Open, Release];
    assert Steps(OutboundScript(PICKUP)) == [PivotRight, PivotRight, Halt, Forward, Halt, Close, Release];
    assert Steps(ReturnScript(PICKUP)) == [ZeroEncoder, Backward, Halt, PivotLeft, PivotLeft, Halt];
  }

  /**
   * Dropoff: turn right, drive out, open, back up, close, turn left. The gripper
   * opens after the forward leg and closes after the reverse leg.
   */
  lemma DropoffOrder()
    ensures Steps(ManipulationScript(DROPOFF))
         == [ZeroEncoder, Halt]
            + [PivotRight, PivotRight, Halt, Forward, Halt, Open, Release]
            + [ZeroEncoder, Backward, Halt, Close, Release, PivotLeft, PivotLeft, Halt]
  {
    ThirdsSteps(DROPOFF);
    ThirdsInOrder(DROPOFF);
    assert Steps(PrepareScript(DROPOFF)) == [ZeroEncoder, Halt];
    assert Steps(OutboundScript(DROPOFF)) == [PivotRight, PivotRight, Halt, Forward, Halt, Open, Release];
    assert Steps(ReturnScript(DROPOFF)) == [ZeroEncoder, Backward, Halt, Close, Release, PivotLeft, PivotLeft, Halt];
  }
}
