/** What one tick reads from the hardware, the joystick and the dashboard. */
module Inputs {

  import opened Options

  /** A tick's readings. Each field is a value a collaborator returns:
      `rangeMM` from the ultrasonic sensor, `gyroAngle` (degrees) from the
      gyro, the two cumulative encoder distances, `elapsed` (seconds) from
      the run timer, joystick axes 1 and 3 and buttons 3 and 4, what the
      chooser widget returns, and the "Auto Selector" dashboard string,
      None when that key was never published. */
  datatype Readings = Readings(
    rangeMM: real,
    gyroAngle: real,
    leftDistance: real,
    rightDistance: real,
    elapsed: real,
    axis1: real,
    axis3: real,
    button3: bool,
    button4: bool,
    chooser: string,
    autoSelector: Option<string>)

  /** The joystick reports its axes in [-1, 1]. */
  predicate AxesInRange(r: Readings)
  {
    -1.0 <= r.axis1 <= 1.0 && -1.0 <= r.axis3 <= 1.0
  }
}
