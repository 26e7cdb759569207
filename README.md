# Delivery robot controller

A Dafny model of the control core of `robot_project.c`. This is a RobotC program for an EV3 robot that follows a black line around a loop course. It picks up an object at a Blue marker, drops it off at a Red marker, corrects its course on Green and Yellow, and backs away from obstacles.

The hardware is replaced by values:

- **Sensors.** Each sensor (colour, ultrasonic, touch, gyro, drive encoder) is the finite sequence of readings it will report. Every poll consumes one reading.
- **Motors.** The three motor registers are fields: `motorA` and `motorD` for the wheels, `motorB` for the gripper.
- **Command log.** An append-only log records every command written: wheel powers, gripper power, gyro reset, encoder reset and timed waits.

Two layers are proved to agree:

- **Reference functions.** Modules `Motion` and `Delivery` describe each C function as a function of the hardware state (`Hw`). The result is `None` when a busy-wait would still be polling once the given readings run out.
- **Class `Controller.Robot`.** Its methods follow the C functions statement by statement, with every busy-wait a `while` loop. Each method requires that the readings it waits for exist. Each is proved to leave the object in the state the reference function computes.
  - The invariant `Valid()` says the registers hold what the log last wrote to them.

Lemmas about the reference functions state what the program promises:

- the branch `colourDecisions` takes for given readings;
- the turn counts of `pathCorrection`;
- the exit condition and the wheel state after `obstacleCheck`;
- the command order of `gripperPickUp` in each mode;
- that wheels and gripper are stopped after a turn and after a manipulation;
- that each round of `main` ends with exactly one dropoff;
- that every decision of `main`, the delivering one included, is followed by an `obstacleCheck`, and the next decision starts where that check left off.

Modules:

| module | file | contents |
|---|---|---|
| `Wrappers` | wrappers.dfy | `Option` |
| `Config` | config.dfy | the program's constants |
| `Hardware` | hardware.dfy | commands, readings, registers, busy-wait exit conditions |
| `Motion` | motion.dfy | smartRotateAngle, pathCorrection, obstacleCheck, gripperPickUp as functions |
| `Delivery` | delivery.dfy | colourDecisions, the inner and outer loops of main as functions |
| `Controller` | robot.dfy | class `Robot`: the same operations as methods over fields |

### Behaviour worth noting

Four places where the code does something its comments (lines 96, 179 and 231) or a first reading would not suggest. The model follows the code.

- **Fresh colour polls.** Each `SensorValue(COLOUR_SENSOR)` comparison in `colourDecisions` (lines 105, 110, 116) is a fresh poll.
  - The test at line 105 polls twice unless the first reading is Blue.
  - The pickup and dropoff tests each poll again.
  - So the branch depends on up to four readings after the one that ends the Black run, not on one colour (`Delivery.DecideByReadings`).
- **No zero-angle guard.** `smartRotateAngle(0, p)` still drives the wheels, for two gyro polls (`Motion.ZeroTurnStillDrives`).
- **Forward-leg encoder reset.** The forward leg of `gripperPickUp` counts from the encoder reset at line 198. That reset comes before the +90 degree turn, so the two pivots of the turn lie between the reset and the drive (`Motion.PickupOrder`, `Motion.DropoffOrder`). The reverse leg has its own reset at line 229.
- **Retry threshold.** `obstacleCheck` retries with `SAFE_ULTRASONIC_DISTANCE`, not with its own argument (line 187).

## Model

| member | source | states |
|---|---|---|
| Hardware.SkipColour | robot_project.c:102 | the Black busy-wait consumes the leading run of that colour and the reading that ends it, nothing else; `None` exactly when every reading is that colour |
| Hardware.FirstMet | robot_project.c:158 | a busy-wait stops at the first reading that meets its exit condition; every earlier reading fails it; `None` when no reading meets it |
| Motion.SlowPower | robot_project.c:161 | `motorPower * 0.4` truncated toward zero: within one unit of 0.4·p, same sign, magnitude at most abs(p) |
| Motion.Spin | robot_project.c:149-155 | the pivot command: opposite wheel powers, motorD forward for angle > 0, motorA forward for angle <= 0 (0 included) |
| Motion.TurnPolls | robot_project.c:156-175 | a turn consumes at least two gyro readings and ends on one with abs(g) >= abs(angle) - 3 |
| Motion.TurnWaits | robot_project.c:156-175 | coarse wait ends at the first reading with 10·abs(g) >= 3·abs(angle); the turn ends at the first later reading with abs(g) >= abs(angle) - 3; every reading in between is below it |
| Motion.Rotate | robot_project.c:145-177 | smartRotateAngle writes reset, full-power pivot, slow pivot, stop; reads only the gyro; defined exactly when both waits stop |
| Motion.SmallTurnFinePhaseOnePoll | robot_project.c:173-175 | for abs(angle) <= 3 the fine wait ends on its first poll |
| Motion.ZeroTurnStillDrives | robot_project.c:148-176 | smartRotateAngle(0, p) drives at p and at the slow power for exactly two gyro polls |
| Motion.TurnStopsWheels | robot_project.c:176 | after a turn both wheels are 0 and the gripper register is unchanged |
| Motion.GreenLoop | robot_project.c:133-136 | the first loop reads only colours and the gyro, consumes at least two colour readings, changes nothing but colours, gyro and log |
| Motion.YellowLoop | robot_project.c:137-140 | the second loop consumes at least one colour reading and changes nothing but colours, gyro and log |
| Motion.YellowLoopTurns | robot_project.c:137-140 | one -3 degree turn per reading of the leading Yellow run; stops after consuming the first non-Yellow reading |
| Motion.GreenLoopTurns | robot_project.c:131-142 | right turns equal the leading Green run, then left turns equal the Yellow run after it; every right turn precedes every left turn; Green is never rechecked |
| Motion.BackOff | robot_project.c:181-185 | one ultrasonic poll; a close reading writes one reverse manoeuvre and leaves touch unread; a clear reading polls touch once and writes the reverse manoeuvre exactly when it is pressed |
| Motion.GuardObstacle | robot_project.c:180-189 | obstacleCheck reads only ultrasonic and touch, consumes at least two ultrasonic readings, changes nothing else but the log, which it only extends; a close first reading or a pressed touch puts a reverse manoeuvre in the log; nothing sensed and a clear second reading writes nothing |
| Motion.GuardReturnsWhenClear | robot_project.c:186-187 | two ultrasonic polls per pass; returns only after a pass's second reading is at least its threshold; every earlier pass ended on a second reading below its threshold (the caller's on the first pass, SAFE_ULTRASONIC_DISTANCE after) |
| Motion.GuardOnlyReverses | robot_project.c:180-189 | obstacleCheck writes nothing but whole reverse manoeuvres |
| Motion.ReversesLeaveWheels | robot_project.c:182-184 | after n reverse manoeuvres the wheels are unchanged (n = 0) or 0, never left at -15 |
| Motion.TouchReversesOnce | robot_project.c:181-187 | a touch with a clear ultrasonic reading gives exactly one reverse and no retry |
| Motion.ClearPathWritesNothing | robot_project.c:181-187 | nothing sensed: no command written, one touch and two ultrasonic readings consumed |
| Motion.Outward | robot_project.c:209-227 | the outbound part writes its script and reads only gyro and encoder, at least two gyro readings and one encoder reading |
| Motion.Homeward | robot_project.c:229-242 | the return part writes its script and reads only gyro and encoder, at least two gyro readings and one encoder reading |
| Motion.Manipulate | robot_project.c:192-243 | gripperPickUp writes exactly its mode's script; reads neither line nor obstacle sensors; consumes at least four gyro and two encoder readings |
| Motion.ForwardLegStops | robot_project.c:211-214 | the forward leg stops at, and consumes, the first encoder reading >= ENC_LIMIT |
| Motion.ReverseLegStops | robot_project.c:229-234 | the reverse leg stops at, and consumes, the first encoder reading <= -ENC_LIMIT |
| Motion.TurnScript | robot_project.c:148-176 | a turn resets the gyro first, pivots twice with opposite wheel powers (motorD at the given power, then at the slow power, for angle > 0; motorA for angle <= 0), ends with both wheels 0, and never addresses the gripper or the encoder |
| Motion.ReverseScript | robot_project.c:182-184 | the reverse manoeuvre drives both wheels backwards at one power, waits REVERSE_MS, stops; no gripper or sensor reset |
| Motion.ActuateScript | robot_project.c:204-206 | a timed actuation powers the gripper, waits GRIP_MS, turns it off; never addresses the wheels |
| Motion.PrepareScript | robot_project.c:194-207 | the first part resets gyro then encoder and stops the wheels; it addresses the gripper exactly when picking up, and then with an opening actuation |
| Motion.OutboundScript | robot_project.c:209-227 | the second part turns +90 degrees, drives forward and stops, then opens (dropoff) or closes (pickup); nothing more for any other mode |
| Motion.ReturnScript | robot_project.c:229-242 | the third part resets the encoder, drives backwards, stops, and ends with a -90 degree turn; it addresses the gripper exactly on dropoff, with a closing actuation |
| Motion.ActuateEndsOff | robot_project.c:204-206 | after a timed actuation the gripper register is 0 |
| Motion.ManipulationStops | robot_project.c:192-243 | in either mode gripperPickUp returns with both wheels and the gripper at 0 |
| Motion.ThirdsSteps | robot_project.c:192-243 | the steps of each part for any discriminator value: open only on pickup in the first part, open or close after the forward leg by mode, close after the reverse leg only on dropoff |
| Motion.PickupOrder | robot_project.c:194-242 | pickup: open, release, right turn, forward, halt, close, release, encoder reset, backward, halt, left turn |
| Motion.DropoffOrder | robot_project.c:194-242 | dropoff: right turn, forward, halt, open, release, encoder reset, backward, halt, close, release, left turn; one open before one close |
| Delivery.PickUp | robot_project.c:110-114 | pickup branch: occupancy becomes true, no delivery, the pickup script written, line sensor not read |
| Delivery.DropTest | robot_project.c:116-126 | one fresh poll; dropoff exactly when it is Red and the gripper is occupied; otherwise nothing but the poll happens and occupancy is unchanged |
| Delivery.Markers | robot_project.c:110-126 | pickup exactly when the first poll is Blue with the gripper empty; otherwise dropoff exactly when the next is Red with it occupied; the delivered flag is exactly the dropoff |
| Delivery.Decide | robot_project.c:97-127 | returns true only on dropoff; occupancy false to true only on pickup, true to false only on dropoff, unchanged otherwise; consumes colour readings; leaves ultrasonic and touch alone |
| Delivery.DecideByReadings | robot_project.c:101-126 | the branch as a function of the readings after the Black run, each comparison a fresh poll, in both directions for each branch |
| Delivery.DecideOnSteadyColour | robot_project.c:105-126 | on a steady colour: Blue picks up only when empty, Red drops off only when occupied, other colours correct the path, otherwise nothing |
| Delivery.DecideWrites | robot_project.c:101-126 | a decision writes the forward drive, then nothing more when it ignores the marker, or its mode's manipulation script |
| Delivery.CorrectionWrites | robot_project.c:105-108 | a correction writes the forward drive, then only +3 degree turns, then only -3 degree turns |
| Delivery.Round | robot_project.c:45-50 | the inner loop records one pass per iteration; only its last pass reports a delivery, and that pass leaves the gripper empty; it ends where the last obstacleCheck left off; one dropoff, and one pickup exactly when started empty |
| Delivery.RoundChains | robot_project.c:47-50 | every pass of the inner loop is colourDecisions followed by obstacleCheck(SAFE_ULTRASONIC_DISTANCE), the first from the loop's start, each later one from the hardware and occupancy the previous pass left |
| Delivery.Mission | robot_project.c:44-53 | from `made` deliveries on, the outer loop performs TOTAL_DELIVERIES - made pickups and as many dropoffs, its last pass delivering and its end state that of the last obstacleCheck; no passes when nothing is left to deliver |
| Delivery.MissionChains | robot_project.c:44-53 | every pass of the mission, across rounds, is colourDecisions then obstacleCheck from where the previous pass left off; each round starts with the gripper empty |
| Controller.Robot.SkipWhileColour | robot_project.c:102 | the Black busy-wait consumes the run and the reading that ends it, and nothing else changes |
| Controller.Robot.AwaitGyro | robot_project.c:158 | a gyro busy-wait consumes readings up to and including the first that meets its condition; registers unchanged |
| Controller.Robot.AwaitEncoder | robot_project.c:212 | an encoder busy-wait consumes readings up to and including the first that meets its condition; registers unchanged |
| Controller.Robot.PivotUntil | robot_project.c:149-158 | wheel signs by the sign of angle, gripper untouched, gyro consumed to the first reading meeting the wait |
| Controller.Robot.SmartRotateAngle | robot_project.c:145-177 | the method reaches the state Rotate computes; both wheels 0 on return; gripper unchanged |
| Controller.Robot.PathCorrection | robot_project.c:131-142 | the two polling loops reach the state GreenLoop computes |
| Controller.Robot.BackOffIfSensed | robot_project.c:181-185 | reaches the state BackOff computes; a close ultrasonic reading writes the reverse manoeuvre, stops the wheels and leaves touch unread; a clear one polls touch once and writes the reverse manoeuvre exactly when it is pressed; gripper unchanged |
| Controller.Robot.ObstacleCheck | robot_project.c:180-189 | the retry loop reaches the state GuardObstacle computes; wheels untouched or 0, never -15; gripper unchanged |
| Controller.Robot.Actuate | robot_project.c:204-206 | writes one timed actuation; wheels unchanged; gripper 0 |
| Controller.Robot.Prepare | robot_project.c:194-207 | writes the first part of the script; wheels 0; gripper 0 after a pickup opening |
| Controller.Robot.Outbound | robot_project.c:209-227 | reaches the state Outward computes; wheels 0; gripper 0 in either mode |
| Controller.Robot.Return | robot_project.c:229-242 | reaches the state Homeward computes; wheels 0; gripper 0 after a dropoff closing |
| Controller.Robot.GripperPickUp | robot_project.c:192-243 | reaches the state Manipulate computes; wheels 0; gripper 0 in either mode |
| Controller.Robot.MarkerTests | robot_project.c:110-126 | hardware, delivered flag and occupancy as Markers computes them |
| Controller.Robot.ColourDecisions | robot_project.c:97-127 | hardware, return value and by-reference occupancy as Decide computes them |
| Controller.Robot.DeliveryRound | robot_project.c:45-50 | the inner loop reaches the state Round computes and ends with the gripper empty |
| Controller.Robot.DeliveryMission | robot_project.c:42-53 | the nested loops reach the state Mission computes; deliveriesMade ends equal to TOTAL_DELIVERIES |

## Left out

- `preparationSequence` (lines 61-94) is not part of this model. It is sensor configuration plus a timed gyro calibration using floats; the model starts from a robot whose registers are all 0.
- `parkRobot` (lines 246-257) and the timer `time1[T1]` (line 40) are not part of this model. They are a timer read, float division and LCD output.
- Real time is not modelled. `wait1Msec(ms)` is a `Sleep(ms)` entry in the log with no other effect.
- The physical outcome is not modelled: whether the chassis really turns or the object is really held. Sensor readings are arbitrary inputs.
- Busy-wait progress is not modelled. Every method requires that the reading its wait stops on exists in the given sequences; this is a precondition `F(State()).Some?`. Nothing is proved about whether real hardware delivers such a reading.
- `ENC_LIMIT` is the constant 208, the value of `10*180/(PI*2.75)` (208.35) after conversion to int; the float derivation itself is left out.
- Motion.CoarseTenths: the float factor 0.3 is exact rational arithmetic here (`10*abs(g) >= 3*abs(angle)`). The source's single-precision float can differ at exact boundaries. With a single-precision 0.3, `90 * 0.3` rounds to 27.000002, so a gyro reading of exactly 27 would not end the coarse wait.
- Motion.SlowPower: `motorPower * 0.4` is modelled as exact 4p/10 truncated toward zero. Float rounding of 0.4 is not modelled; it gives 16 for the only power used, 40.
- The `motor[motorA]=motor[motorD]=x` statement pairs are one `Wheels` command. The two writes in `smartRotateAngle` (lines 150-151, 165-166 and their else branches) are also one command; nothing reads the registers between them.
- Controller.Robot.ObstacleCheck: the tail recursion at line 187 is a loop. Stack depth is not modelled.
- Motion.PickupOrder, Motion.DropoffOrder: the step view drops gyro resets and waits. Those are stated instead by the command scripts that Motion.Manipulate's contract names.
- Motion.PickupOrder: the zero net rotation is stated as a +90 degree turn followed by a -90 degree turn in the script. Actual heading is physical and not modelled.
- Controller.Robot.ColourDecisions: the by-reference parameter `objectInGripper` is an input and a second result.
