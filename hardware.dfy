/**
 * The hardware the controller drives, as values: the readings each sensor will
 * report from now on (one reading consumed per poll) and the log of every
 * command written so far. The motor registers are whatever the log last wrote
 * to them (Replay).
 */
module Hardware {
  import opened Wrappers

  /** Colour classes reported by the line sensor. */
  datatype Colour = Black | White | Blue | Red | Green | Yellow | Other

  /** One write to the hardware, in program order. */
  datatype Cmd =
    | Wheels(a: int, d: int)   // motor[motorA] and motor[motorD], written by one source statement pair
    | Gripper(power: int)      // motor[motorB]
    | ResetGyro                // resetGyro(GYRO_SENSOR)
    | ResetEncoder             // nMotorEncoder[motorA] = 0
    | Sleep(ms: nat)           // wait1Msec(ms): no effect on any register

  /**
   * The readings still to come from each sensor, and the command log. Gyro and
   * encoder readings are relative to the last ResetGyro / ResetEncoder.
   */
  datatype Hw = Hw(
    colours: seq<Colour>,
    sonar: seq<int>,
    touch: seq<bool>,
    gyroIn: seq<int>,
    encoderIn: seq<int>,
    log: seq<Cmd>)

  /** A sensor reading together with the hardware after the poll that produced it. */
  datatype Read<T> = Read(value: T, hw: Hw)

  /** The three motor power registers: the wheels motorA and motorD, the gripper motorB. */
  datatype Motors = Motors(a: int, d: int, b: int)

  const Stopped := Motors(0, 0, 0)

  function Apply(m: Motors, c: Cmd): Motors
  {
    match c
    case Wheels(a, d) => m.(a := a, d := d)
    case Gripper(p) => m.(b := p)
    case _ => m
  }

  /** The registers after writing `cmds`, in order, to registers holding `m`. */
  function Replay(m: Motors, cmds: seq<Cmd>): Motors
    decreases |cmds|
  {
    if cmds == [] then m else Replay(Apply(m, cmds[0]), cmds[1..])
  }

  /** Replaying a log in two pieces is replaying it whole. */
  lemma {:induction false} ReplayAppend(m: Motors, xs: seq<Cmd>, ys: seq<Cmd>)
    ensures Replay(m, xs + ys) == Replay(Replay(m, xs), ys)
    decreases |xs|
  {
    if xs == [] {
      assert xs + ys == ys;
    } else {
      assert (xs + ys)[0] == xs[0] && (xs + ys)[1..] == xs[1..] + ys;
      ReplayAppend(Apply(m, xs[0]), xs[1..], ys);
    }
  }

  /** Writing one more command applies it to the registers the log had produced. */
  lemma ReplaySnoc(m: Motors, xs: seq<Cmd>, c: Cmd)
    ensures Replay(m, xs + [c]) == Apply(Replay(m, xs), c)
  {
    ReplayAppend(m, xs, [c]);
    assert [c][1..] == [];
  }

  /** Four single writes in a row extend the log by the four of them. */
  lemma AppendFour<T>(xs: seq<T>, a: T, b: T, c: T, d: T)
    ensures xs + [a] + [b] + [c] + [d] == xs + [a, b, c, d]
  {
  }

  /** Appending three pieces one after another is appending their concatenation. */
  lemma AppendThree<T>(xs: seq<T>, p: seq<T>, q: seq<T>, r: seq<T>)
    ensures xs + p + q + r == xs + (p + q + r)
  {
  }

  /** Commands that never address the gripper leave its register alone. */
  lemma {:induction false} ReplayKeepsGripper(m: Motors, cmds: seq<Cmd>)
    requires forall i :: 0 <= i < |cmds| ==> !cmds[i].Gripper?
    ensures Replay(m, cmds).b == m.b
    decreases |cmds|
  {
    if cmds != [] {
      ReplayKeepsGripper(Apply(m, cmds[0]), cmds[1..]);
    }
  }

  /** Dropping `a` elements and then `b` more is dropping `a + b`. */
  lemma DropDrop<T>(s: seq<T>, a: nat, b: nat)
    requires a + b <= |s|
    ensures s[a..][b..] == s[a + b..]
  {
  }

  /** Writing `cmds`: the log grows by them and no sensor is read. */
  function Write(h: Hw, cmds: seq<Cmd>): Hw
  {
    h.(log := h.log + cmds)
  }

  function PollColour(h: Hw): Option<Read<Colour>>
  {
    if h.colours == [] then None else Some(Read(h.colours[0], h.(colours := h.colours[1..])))
  }

  function PollSonar(h: Hw): Option<Read<int>>
  {
    if h.sonar == [] then None else Some(Read(h.sonar[0], h.(sonar := h.sonar[1..])))
  }

  function PollTouch(h: Hw): Option<Read<bool>>
  {
    if h.touch == [] then None else Some(Read(h.touch[0], h.(touch := h.touch[1..])))
  }

  function Abs(x: int): nat
  {
    if x < 0 then -x else x
  }

  /** The exit condition of a busy-wait on a numeric sensor. */
  datatype Until =
    | GyroAtLeast(tenths: int)   // ten times the gyro magnitude reaches `tenths`
    | EncoderAtLeast(limit: int)
    | EncoderAtMost(limit: int)

  predicate Met(u: Until, x: int)
  {
    match u
    case GyroAtLeast(t) => 10 * Abs(x) >= t
    case EncoderAtLeast(l) => x >= l
    case EncoderAtMost(l) => x <= l
  }

  /** The poll at which a busy-wait on `u` stops: the first reading that meets `u`, if any does. */
  function FirstMet(rs: seq<int>, u: Until): (r: Option<nat>)
    ensures r.Some? ==> r.value < |rs| && Met(u, rs[r.value])
    ensures r.Some? ==> forall i :: 0 <= i < r.value ==> !Met(u, rs[i])
    ensures r.None? ==> forall i :: 0 <= i < |rs| ==> !Met(u, rs[i])
  {
    if rs == [] then None
    else if Met(u, rs[0]) then Some(0)
    else match FirstMet(rs[1..], u)
      case None => None
      case Some(k) => Some(k + 1)
  }

  /** The length of the run of `c` readings at the head of `cs`. */
  function RunLength(cs: seq<Colour>, c: Colour): (n: nat)
    ensures n <= |cs|
    ensures n < |cs| ==> cs[n] != c
  {
    if cs == [] || cs[0] != c then 0 else 1 + RunLength(cs[1..], c)
  }

  /** Every reading before the end of the run is `c`. */
  lemma {:induction false} RunLengthRun(cs: seq<Colour>, c: Colour)
    ensures forall i :: 0 <= i < RunLength(cs, c) ==> cs[i] == c
    decreases |cs|
  {
    if cs != [] && cs[0] == c {
      RunLengthRun(cs[1..], c);
    }
  }

  /** `while (SensorValue(COLOUR_SENSOR) == c) {}`: consumes the run of `c` and the reading that ends it. */
  function SkipColour(h: Hw, c: Colour): (r: Option<Hw>)
    ensures r.None? <==> forall i :: 0 <= i < |h.colours| ==> h.colours[i] == c
    ensures r.Some? ==> var n := |h.colours| - |r.value.colours| - 1;
            0 <= n < |h.colours| && h.colours[n] != c && (forall i :: 0 <= i < n ==> h.colours[i] == c) &&
            r.value == h.(colours := h.colours[n + 1..])
  {
    var n := RunLength(h.colours, c);
    assert forall i :: 0 <= i < n ==> h.colours[i] == c by { RunLengthRun(h.colours, c); }
    if n == |h.colours| then None else Some(h.(colours := h.colours[n + 1..]))
  }
}
