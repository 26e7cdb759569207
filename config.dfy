/** The controller's compile-time constants. */
module Config {

  const MOTORPOWER: int := 40
  const ROTATEANGLE: int := 90

  /**
   * Encoder degrees for a 10 cm leg on a 2.75 cm wheel: DISTANCE*180/(PI*RADIUS)
   * is 208.35, which the int constant truncates to 208.
   */
  const ENC_LIMIT: int := 208

  const SAFE_ULTRASONIC_DISTANCE: int := 40
  const TOTAL_DELIVERIES: nat := 1

  /** Wheel power while backing away from an obstacle, and how long (ms). */
  const REVERSE_POWER: int := -15
  const REVERSE_MS: nat := 1000

  /** Gripper motor power to open and to close, and how long each actuation lasts (ms). */
  const GRIP_OPEN: int := 5
  const GRIP_CLOSE: int := -5
  const GRIP_MS: nat := 5000

  /** The two settling delays at the start of the manipulation sequence (ms). */
  const SETTLE_MS: nat := 50

  /** gripperPickUp's discriminator: 1 picks up, 0 drops off. */
  const PICKUP: int := 1
  const DROPOFF: int := 0
}
