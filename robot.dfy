/**
 * The controller of robot_project.c as it runs: an object holding the motor
 * power registers, the readings each sensor has still to report, and the log of
 * every command written. Each method follows its C function statement by
 * statement (every busy-wait a `while` loop) and is proved to leave the object in
 * the state the reference functions of Motion and Delivery compute.
 */
module Controller {
  import opened Wrappers
  import opened Hardware
  import opened Config
  import opened Motion
  import opened Delivery

  class Robot {
    /** motor[motorA], motor[motorD] (the wheels) and motor[motorB] (the gripper). */
    var motorA: int
    var motorD: int
    var motorB: int

    /** The readings each sensor will report from now on, one per poll. */
    var colours: seq<Colour>
    var sonar: seq<int>
    var touch: seq<bool>
    var gyroIn: seq<int>
    var encoderIn: seq<int>

    /** Every command written so far, in order. */
    var log: seq<Cmd>

    /** Everything but the registers, as the reference functions see it. */
    function State(): Hw
      reads this
    {
      Hw(colours, sonar, touch, gyroIn, encoderIn, log)
    }

    function Registers(): Motors
      reads this
    {
      Motors(motorA, motorD, motorB)
    }

    /** The registers hold what the log last wrote to them, starting from all off. */
    ghost predicate Valid()
      reads this
    {
      Registers() == Replay(Stopped, log)
    }

    /** A robot at power-on: every motor off, nothing written yet. */
    constructor (colours: seq<Colour>, sonar: seq<int>, touch: seq<bool>, gyroIn: seq<int>, encoderIn: seq<int>)
      ensures Valid() && Registers() == Stopped
      ensures State() == Hw(colours, sonar, touch, gyroIn, encoderIn, [])
    {
      motorA, motorD, motorB := 0, 0, 0;
      this.colours := colours;
      this.sonar := sonar;
      this.touch := touch;
      this.gyroIn := gyroIn;
      this.encoderIn := encoderIn;
      log := [];
    }

    /* ---------- hardware access ---------- */

    /** One write to a motor register, the encoder or the gyro, or a wait. */
    method Emit(c: Cmd)
      requires Valid()
      modifies this
      ensures Valid() && Registers() == Apply(old(Registers()), c)
      ensures State() == Write(old(State()), [c])
    {
      match c {
        case Wheels(a, d) => motorA, motorD := a, d;
        case Gripper(p) => motorB := p;
        case _ =>
      }
      ReplaySnoc(Stopped, log, c);
      log := log + [c];
    }

    /** SensorValue(COLOUR_SENSOR). */
    method ReadColour() returns (c: Colour)
      requires colours != []
      modifies this
      ensures c == old(colours)[0] && Registers() == old(Registers())
      ensures State() == old(State()).(colours := old(colours)[1..])
    {
      c := colours[0];
      colours := colours[1..];
    }

    /** SensorValue(ULTRASONIC_SENSOR). */
    method ReadSonar() returns (u: int)
      requires sonar != []
      modifies this
      ensures u == old(sonar)[0] && Registers() == old(Registers())
      ensures State() == old(State()).(sonar := old(sonar)[1..])
    {
      u := sonar[0];
      sonar := sonar[1..];
    }

    /** SensorValue(TOUCH_SENSOR) == 1. */
    method ReadTouch() returns (t: bool)
      requires touch != []
      modifies this
      ensures t == old(touch)[0] && Registers() == old(Registers())
      ensures State() == old(State()).(touch := old(touch)[1..])
    {
      t := touch[0];
      touch := touch[1..];
    }

    /** getGyroDegrees(GYRO_SENSOR). */
    method ReadGyro() returns (g: int)
      requires gyroIn != []
      modifies this
      ensures g == old(gyroIn)[0] && Registers() == old(Registers())
      ensures State() == old(State()).(gyroIn := old(gyroIn)[1..])
    {
      g := gyroIn[0];
      gyroIn := gyroIn[1..];
    }

    /** nMotorEncoder[motorA]. */
    method ReadEncoder() returns (e: int)
      requires encoderIn != []
      modifies this
      ensures e == old(encoderIn)[0] && Registers() == old(Registers())
      ensures State() == old(State()).(encoderIn := old(encoderIn)[1..])
    {
      e := encoderIn[0];
      encoderIn := encoderIn[1..];
    }

    /* ---------- busy-waits ---------- */

    /** `while (SensorValue(COLOUR_SENSOR) == c) {}`: stops on, and consumes, the first other reading. */
    method SkipWhileColour(c: Colour)
      requires SkipColour(State(), c).Some?
      modifies this
      ensures Registers() == old(Registers()) && State() == SkipColour(old(State()), c).value
    {
      ghost var cs := colours;
      ghost var n := RunLength(cs, c);
      RunLengthRun(cs, c);
      ghost var i := 0;
      var r := ReadColour();
      while r == c
        invariant i <= n < |cs| && r == cs[i] && colours == cs[i + 1..]
        invariant Registers() == old(Registers()) && State() == old(State()).(colours := colours)
        decreases n - i
      {
        i := i + 1;
        r := ReadColour();
      }
    }

    /** A gyro busy-wait: polls until a reading meets `u`; the reading that does is consumed. */
    method AwaitGyro(u: Until)
      requires FirstMet(gyroIn, u).Some?
      modifies this
      ensures Registers() == old(Registers())
      ensures State() == old(State()).(gyroIn := old(gyroIn)[FirstMet(old(gyroIn), u).value + 1..])
    {
      ghost var gs := gyroIn;
      ghost var k := FirstMet(gs, u).value;
      ghost var i := 0;
      var g := ReadGyro();
      while !Met(u, g)
        invariant i <= k && g == gs[i] && gyroIn == gs[i + 1..]
        invariant Registers() == old(Registers()) && State() == old(State()).(gyroIn := gyroIn)
        decreases k - i
      {
        i := i + 1;
        g := ReadGyro();
      }
    }

    /** An encoder busy-wait: polls until a reading meets `u`; the reading that does is consumed. */
    method AwaitEncoder(u: Until)
      requires FirstMet(encoderIn, u).Some?
      modifies this
      ensures Registers() == old(Registers())
      ensures State() == old(State()).(encoderIn := old(encoderIn)[FirstMet(old(encoderIn), u).value + 1..])
    {
      ghost var es := encoderIn;
      ghost var k := FirstMet(es, u).value;
      ghost var i := 0;
      var e := ReadEncoder();
      while !Met(u, e)
        invariant i <= k && e == es[i] && encoderIn == es[i + 1..]
        invariant Registers() == old(Registers()) && State() == old(State()).(encoderIn := encoderIn)
        decreases k - i
      {
        i := i + 1;
        e := ReadEncoder();
      }
    }

    /* ---------- smartRotateAngle, pathCorrection, obstacleCheck ---------- */

    /**
     * One phase of a turn: pivot at power q (motorD forward for a positive
     * angle, motorA forward otherwise) and wait until a gyro reading meets `u`.
     */
    method PivotUntil(angle: int, q: int, u: Until)
      requires Valid() && FirstMet(gyroIn, u).Some?
      modifies this
      ensures Valid()
      ensures State() == old(State()).(gyroIn := old(gyroIn)[FirstMet(old(gyroIn), u).value + 1..], log := old(log) + [Spin(angle, q)])
      ensures angle > 0 ==> motorA == -q && motorD == q
      ensures angle <= 0 ==> motorA == q && motorD == -q
      ensures motorB == old(motorB)
    {
      if angle > 0 {
        Emit(Wheels(-q, q));
      } else {
        Emit(Wheels(q, -q));
      }
      AwaitGyro(u);
    }

    /**
     * smartRotateAngle(angle, power): reset the gyro, pivot at full power until
     * 10 * |gyro| >= 3 * |angle|, at the truncated 40% power until
     * |gyro| >= |angle| - 3, then stop both wheels.
     */
    method SmartRotateAngle(angle: int, power: int)
      requires Valid() && TurnPolls(gyroIn, angle).Some?
      modifies this
      ensures Valid() && State() == Rotate(old(State()), angle, power).value
      ensures motorA == 0 && motorD == 0 && motorB == old(motorB)
    {
      ghost var h := State();
      Emit(ResetGyro);
      ghost var i := FirstMet(gyroIn, GyroAtLeast(CoarseTenths(angle))).value;
      PivotUntil(angle, power, GyroAtLeast(CoarseTenths(angle)));
      ghost var rest := gyroIn;
      assert rest == h.gyroIn[i + 1..];
      var slowMotorPower := SlowPower(power);
      ghost var j := FirstMet(rest, GyroAtLeast(FineTenths(angle))).value;
      PivotUntil(angle, slowMotorPower, GyroAtLeast(FineTenths(angle)));
      Emit(Wheels(0, 0));
      assert log == h.log + [ResetGyro] + [Spin(angle, power)] + [Spin(angle, slowMotorPower)] + [Wheels(0, 0)];
      AppendFour(h.log, ResetGyro, Spin(angle, power), Spin(angle, slowMotorPower), Wheels(0, 0));
      DropDrop(h.gyroIn, i + 1, j + 1);
      RotateAfter(h, angle, power, i, j);
      assert State() == h.(gyroIn := h.gyroIn[i + j + 2..], log := h.log + TurnScript(angle, power));
    }

    /**
     * pathCorrection: a +3 degree turn per Green reading, then a -3 degree turn
     * per Yellow reading; each loop test is a fresh poll.
     */
    method PathCorrection()
      requires Valid() && GreenLoop(State()).Some?
      modifies this
      ensures Valid() && State() == GreenLoop(old(State())).value
    {
      ghost var target := GreenLoop(State());
      GreenLoopStep(State());
      var c := ReadColour();
      while c == Green
        invariant Valid()
        invariant c == Green ==> Rotate(State(), 3, MOTORPOWER).Some? && GreenLoop(Rotate(State(), 3, MOTORPOWER).value) == target
        invariant c != Green ==> YellowLoop(State()) == target
        decreases |colours|
      {
        SmartRotateAngle(3, MOTORPOWER);
        GreenLoopStep(State());
        c := ReadColour();
      }
      YellowLoopStep(State());
      c := ReadColour();
      while c == Yellow
        invariant Valid()
        invariant c == Yellow ==> Rotate(State(), -3, MOTORPOWER).Some? && YellowLoop(Rotate(State(), -3, MOTORPOWER).value) == target
        invariant c != Yellow ==> Some(State()) == target
        decreases |colours|
      {
        SmartRotateAngle(-3, MOTORPOWER);
        YellowLoopStep(State());
        c := ReadColour();
      }
    }

    /** The first `if` of obstacleCheck: back away when the ultrasonic reading is close or, failing that, on a touch. */
    method BackOffIfSensed(maxSafeDistance: int)
      requires Valid() && BackOff(State(), maxSafeDistance).Some?
      modifies this
      ensures Valid() && State() == BackOff(old(State()), maxSafeDistance).value
      ensures motorB == old(motorB)
      ensures (log == old(log) && motorA == old(motorA) && motorD == old(motorD)) || (motorA == 0 && motorD == 0)
      ensures old(sonar)[0] < maxSafeDistance ==> log == old(log) + ReverseScript() && touch == old(touch) && motorA == 0 && motorD == 0
      ensures old(sonar)[0] >= maxSafeDistance ==>
                old(touch) != [] && touch == old(touch)[1..] && (log == old(log) + ReverseScript() <==> old(touch)[0])
    {
      var u := ReadSonar();
      var sensed := true;
      if u >= maxSafeDistance {
        sensed := ReadTouch();
      }
      if sensed {
        Emit(Wheels(REVERSE_POWER, REVERSE_POWER));
        Emit(Sleep(REVERSE_MS));
        Emit(Wheels(0, 0));
      }
    }

    /**
     * obstacleCheck(maxSafeDistance), its tail call read as a loop: after each
     * pass a fresh ultrasonic poll below the pass's threshold starts another
     * pass, with SAFE_ULTRASONIC_DISTANCE as the threshold.
     */
    method ObstacleCheck(maxSafeDistance: int)
      requires Valid() && GuardObstacle(State(), maxSafeDistance).Some?
      modifies this
      ensures Valid() && State() == GuardObstacle(old(State()), maxSafeDistance).value
      ensures motorB == old(motorB)
      ensures (motorA == old(motorA) && motorD == old(motorD)) || (motorA == 0 && motorD == 0)
    {
      ghost var target := GuardObstacle(State(), maxSafeDistance);
      var threshold := maxSafeDistance;
      var retry := true;
      while retry
        invariant Valid() && motorB == old(motorB)
        invariant (motorA == old(motorA) && motorD == old(motorD)) || (motorA == 0 && motorD == 0)
        invariant retry ==> GuardObstacle(State(), threshold) == target
        invariant !retry ==> Some(State()) == target
        decreases |sonar|
      {
        GuardStep(State(), threshold);
        BackOffIfSensed(threshold);
        var u := ReadSonar();
        retry := u < threshold;
        threshold := SAFE_ULTRASONIC_DISTANCE;
      }
    }

    /* ---------- gripperPickUp ---------- */

    /** A timed gripper actuation: motorB at `power`, a five-second wait, motorB off. */
    method Actuate(power: int)
      requires Valid()
      modifies this
      ensures Valid() && State() == Write(old(State()), ActuateScript(power))
      ensures motorA == old(motorA) && motorD == old(motorD) && motorB == 0
    {
      ghost var h := State();
      Emit(Gripper(power));
      Emit(Sleep(GRIP_MS));
      Emit(Gripper(0));
      assert log == h.log + [Gripper(power)] + [Sleep(GRIP_MS)] + [Gripper(0)];
      assert log == h.log + ActuateScript(power);
    }

    /** Lines 194-207: reset the gyro, settle, zero the encoder, stop the wheels, and open first when picking up. */
    method Prepare(mode: int)
      requires Valid()
      modifies this
      ensures Valid() && State() == Write(old(State()), PrepareScript(mode))
      ensures motorA == 0 && motorD == 0 && motorB == if mode == PICKUP then 0 else old(motorB)
    {
      ghost var h := State();
      Emit(ResetGyro);
      Emit(Sleep(SETTLE_MS));
      Emit(Sleep(SETTLE_MS));
      Emit(ResetEncoder);
      AppendFour(h.log, ResetGyro, Sleep(SETTLE_MS), Sleep(SETTLE_MS), ResetEncoder);
      Emit(Wheels(0, 0));
      assert log == h.log + [ResetGyro, Sleep(SETTLE_MS), Sleep(SETTLE_MS), ResetEncoder] + [Wheels(0, 0)];
      ghost var h1 := State();
      if mode == PICKUP {
        Actuate(GRIP_OPEN);
      }
      assert log == h1.log + if mode == PICKUP then ActuateScript(GRIP_OPEN) else [];
    }

    /**
     * Lines 209-227: turn +90 degrees, drive until the encoder reaches
     * ENC_LIMIT, stop, then open (dropoff) or close (pickup) the gripper.
     */
    method Outbound(mode: int)
      requires Valid() && Outward(State(), mode).Some?
      modifies this
      ensures Valid() && State() == Outward(old(State()), mode).value
      ensures motorA == 0 && motorD == 0 && motorB == if mode == PICKUP || mode == DROPOFF then 0 else old(motorB)
    {
      ghost var h := State();
      ghost var t := TurnPolls(h.gyroIn, ROTATEANGLE).value;
      ghost var i := FirstMet(h.encoderIn, EncoderAtLeast(ENC_LIMIT)).value;
      SmartRotateAngle(ROTATEANGLE, MOTORPOWER);
      assert State() == h.(gyroIn := h.gyroIn[t..], log := h.log + TurnScript(ROTATEANGLE, MOTORPOWER));
      Emit(Wheels(MOTORPOWER, MOTORPOWER));
      AwaitEncoder(EncoderAtLeast(ENC_LIMIT));
      Emit(Wheels(0, 0));
      ghost var h1 := State();
      assert h1.log == h.log + TurnScript(ROTATEANGLE, MOTORPOWER) + [Wheels(MOTORPOWER, MOTORPOWER)] + [Wheels(0, 0)];
      assert h1 == h.(gyroIn := h.gyroIn[t..], encoderIn := h.encoderIn[i + 1..], log := h1.log);
      if mode == DROPOFF {
        Actuate(GRIP_OPEN);
      }
      ghost var h2 := State();
      if mode == PICKUP {
        Actuate(GRIP_CLOSE);
      }
      assert h2 == h1.(log := h1.log + if mode == DROPOFF then ActuateScript(GRIP_OPEN) else []);
      assert State() == h2.(log := h2.log + if mode == PICKUP then ActuateScript(GRIP_CLOSE) else []);
      OutboundLog(h.log, mode);
      assert State() == h.(gyroIn := h.gyroIn[t..], encoderIn := h.encoderIn[i + 1..], log := h.log + OutboundScript(mode));
      assert Outward(h, mode) == Some(State());
    }

    /**
     * Lines 229-242: zero the encoder, reverse until it reads -ENC_LIMIT or less,
     * stop, close the gripper when dropping off, and turn -90 degrees.
     */
    method Return(mode: int)
      requires Valid() && Homeward(State(), mode).Some?
      modifies this
      ensures Valid() && State() == Homeward(old(State()), mode).value
      ensures motorA == 0 && motorD == 0 && motorB == if mode == DROPOFF then 0 else old(motorB)
    {
      ghost var h := State();
      ghost var i := FirstMet(h.encoderIn, EncoderAtMost(-ENC_LIMIT)).value;
      ghost var t := TurnPolls(h.gyroIn, -ROTATEANGLE).value;
      Emit(ResetEncoder);
      Emit(Wheels(-MOTORPOWER, -MOTORPOWER));
      AwaitEncoder(EncoderAtMost(-ENC_LIMIT));
      Emit(Wheels(0, 0));
      ghost var h1 := State();
      assert h1.log == h.log + [ResetEncoder] + [Wheels(-MOTORPOWER, -MOTORPOWER)] + [Wheels(0, 0)];
      assert h1 == h.(encoderIn := h.encoderIn[i + 1..], log := h1.log);
      if mode == DROPOFF {
        Actuate(GRIP_CLOSE);
      }
      ghost var h2 := State();
      assert h2 == h1.(log := h1.log + if mode == DROPOFF then ActuateScript(GRIP_CLOSE) else []);
      SmartRotateAngle(-ROTATEANGLE, MOTORPOWER);
      assert State() == h2.(gyroIn := h.gyroIn[t..], log := h2.log + TurnScript(-ROTATEANGLE, MOTORPOWER));
      ReturnLog(h.log, mode);
      assert State() == h.(gyroIn := h.gyroIn[t..], encoderIn := h.encoderIn[i + 1..], log := h.log + ReturnScript(mode));
      assert Homeward(h, mode) == Some(State());
    }

    /**
     * gripperPickUp(pickupOrDropoff): the three parts in order. It ends with
     * both wheels and, for either defined mode, the gripper off.
     */
    method GripperPickUp(pickupOrDropoff: int)
      requires Valid() && Manipulate(State(), pickupOrDropoff).Some?
      modifies this
      ensures Valid() && State() == Manipulate(old(State()), pickupOrDropoff).value
      ensures motorA == 0 && motorD == 0
      ensures pickupOrDropoff == PICKUP || pickupOrDropoff == DROPOFF ==> motorB == 0
    {
      ghost var h := State();
      Prepare(pickupOrDropoff);
      assert State() == Write(h, PrepareScript(pickupOrDropoff));
      Outbound(pickupOrDropoff);
      Return(pickupOrDropoff);
    }

    /* ---------- colourDecisions and main ---------- */

    /**
     * Lines 110-126, once the path-correction test has failed: a fresh poll
     * for the pickup test and, unless it picks up, another for the dropoff test.
     */
    method MarkerTests(objectInGripper: bool) returns (delivered: bool, objectAfter: bool)
      requires Valid() && Markers(State(), objectInGripper).Some?
      modifies this
      ensures Valid()
      ensures var d := Markers(old(State()), objectInGripper).value;
              State() == d.hw && delivered == d.delivered && objectAfter == d.objectInGripper
    {
      ghost var h := State();
      var c3 := ReadColour();
      if c3 == Blue && !objectInGripper {
        GripperPickUp(PICKUP);
        objectAfter, delivered := true, false;
      } else {
        var c4 := ReadColour();
        assert State() == PollColour(PollColour(h).value.hw).value.hw;
        if c4 == Red && objectInGripper {
          GripperPickUp(DROPOFF);
          objectAfter, delivered := false, true;
        } else {
          objectAfter, delivered := objectInGripper, false;
        }
      }
    }

    /**
     * colourDecisions(objectInGripper): drive forward, wait out the Black
     * run, then correct the path unless a fresh poll reads Blue or the next
     * reads Red. The by-reference flag is passed in and handed back.
     */
    method ColourDecisions(objectInGripper: bool) returns (delivered: bool, objectAfter: bool)
      requires Valid() && Decide(State(), objectInGripper).Some?
      modifies this
      ensures Valid()
      ensures var d := Decide(old(State()), objectInGripper).value;
              State() == d.hw && delivered == d.delivered && objectAfter == d.objectInGripper
    {
      ghost var h := State();
      Emit(Wheels(MOTORPOWER, MOTORPOWER));
      SkipWhileColour(Black);
      var c1 := ReadColour();
      var pathOff := c1 != Blue;
      if pathOff {
        var c2 := ReadColour();
        pathOff := c2 != Red;
      }
      if pathOff {
        PathCorrection();
        objectAfter, delivered := objectInGripper, false;
      } else {
        delivered, objectAfter := MarkerTests(objectInGripper);
      }
    }

    /**
     * One iteration of main's outer loop: with the gripper empty, repeat
     * colourDecisions and obstacleCheck(SAFE_ULTRASONIC_DISTANCE) until a
     * delivery is reported. Returns the occupancy the last decision left.
     */
    method DeliveryRound() returns (objectInGripper: bool)
      requires Valid() && Round(State(), false).Some?
      modifies this
      ensures Valid() && State() == Round(old(State()), false).value.hw
      ensures !objectInGripper
    {
      ghost var roundEnd := Round(State(), false).value.hw;
      var deliveredStatus := false;
      objectInGripper := false;
      while !deliveredStatus
        invariant Valid()
        invariant !deliveredStatus ==> Round(State(), objectInGripper).Some? && Round(State(), objectInGripper).value.hw == roundEnd
        invariant deliveredStatus ==> State() == roundEnd && !objectInGripper
        decreases |colours| + if deliveredStatus then 0 else 1
      {
        RoundStep(State(), objectInGripper);
        ghost var d := Decide(State(), objectInGripper).value;
        deliveredStatus, objectInGripper := ColourDecisions(objectInGripper);
        ObstacleCheck(SAFE_ULTRASONIC_DISTANCE);
        assert State() == GuardObstacle(d.hw, SAFE_ULTRASONIC_DISTANCE).value;
      }
    }

    /**
     * main without the preparation and parking: TOTAL_DELIVERIES rounds, each
     * starting with the gripper empty and repeating colourDecisions and
     * obstacleCheck(SAFE_ULTRASONIC_DISTANCE) until a delivery is reported.
     */
    method DeliveryMission() returns (deliveriesMade: nat)
      requires Valid() && Mission(State(), 0).Some?
      modifies this
      ensures Valid() && deliveriesMade == TOTAL_DELIVERIES
      ensures State() == Mission(old(State()), 0).value.hw
    {
      ghost var target := Mission(State(), 0).value.hw;
      deliveriesMade := 0;
      while deliveriesMade < TOTAL_DELIVERIES
        invariant Valid() && deliveriesMade <= TOTAL_DELIVERIES
        invariant Mission(State(), deliveriesMade).Some? && Mission(State(), deliveriesMade).value.hw == target
        decreases TOTAL_DELIVERIES - deliveriesMade
      {
        MissionStep(State(), deliveriesMade);
        var objectInGripper := DeliveryRound();
        deliveriesMade := deliveriesMade + 1;
      }
      MissionStep(State(), deliveriesMade);
    }
  }
}
