/** The original robot program: a time-limited autonomous drive that every
    name except "My Auto" falls through to, and a teleop tank drive with a
    solenoid on button 3 and a front-left override on buttons 3 and 4. It
    has no range sensor, and its robotPeriodic does nothing. */
module AssignmentRobot {

  import opened Options
  import opened Commands
  import opened Inputs
  import opened Selection
  import opened Scheduler

  const LeftSpeed: real := 0.5
  const RightSpeed: real := 0.5
  const SquareInputs: bool := true
  /** The Default program drives while the run timer reads at most this. */
  const DriveSeconds: real := 4.0
  /** Speed of the front-left override. */
  const OverrideSpeed: real := 1.0

  /** The program's fields that change: the host's last mode and the
      latched selection (null until the first autonomous entry). */
  datatype Robot = Robot(lastMode: Option<Mode>, autoSelected: Option<string>)

  predicate Valid(s: Robot)
  {
    s.lastMode == Some(Autonomous) ==> s.autoSelected.Some?
  }

  type ValidRobot = s: Robot | Valid(s) witness Robot(None, None)

  /** autonomousInit: latch the selection, start the run timer without
      resetting it, and turn off the drive's motor-safety watchdog. */
  function AutonomousInit(s: Robot, r: Readings): (o: Outcome<Robot>)
    ensures o.state.autoSelected == Some(if r.autoSelector.Some? then r.autoSelector.value else DefaultAuto)
    ensures o.state.lastMode == s.lastMode
    ensures LastWrite(o.commands, RunTimer) == Some(StartTimer)
    ensures LastWrite(o.commands, DriveWatchdog) == Some(SafetyEnabled(false))
    ensures Inert(o.commands)
  {
    var selected := Latch(r.chooser, r.autoSelector);
    Outcome(s.(autoSelected := Some(selected)), [StartTimer, SafetyEnabled(false)])
  }

  /** The Default program: drive at 0.5 while the timer reads at most four
      seconds, then command a stop. */
  function TimedDrive(elapsed: real): (cmds: seq<Command>)
    ensures |cmds| == 1 && cmds[0].TankDrive? && cmds[0].squareInputs == Given(true)
    ensures Actuates(cmds[0]) <==> elapsed <= 4.0
    ensures elapsed <= 4.0 ==> cmds[0].left == 0.5 && cmds[0].right == 0.5
    ensures elapsed > 4.0 ==> cmds[0].left == 0.0 && cmds[0].right == 0.0
    ensures AllInRange(cmds)
  {
    if elapsed <= DriveSeconds then [TankDrive(LeftSpeed, RightSpeed, Given(SquareInputs))]
    else [TankDrive(0.0, 0.0, Given(SquareInputs))]
  }

  /** autonomousPeriodic: "My Auto" issues nothing; "Default" and every
      name the switch does not know run the timed drive. */
  function AutonomousPeriodic(selected: string, r: Readings): (cmds: seq<Command>)
    ensures selected == CustomAuto <==> cmds == []
    ensures selected != CustomAuto ==> |cmds| == 1 && cmds[0].TankDrive?
    ensures cmds == [TankDrive(0.5, 0.5, Given(true))] <==> selected != CustomAuto && r.elapsed <= 4.0
    ensures cmds == [TankDrive(0.0, 0.0, Given(true))] <==> selected != CustomAuto && r.elapsed > 4.0
  {
    match Classify(selected)
    case CustomProgram => []
    case DefaultProgram => TimedDrive(r.elapsed)
    case Unrecognized(_) => TimedDrive(r.elapsed)
  }

  /** teleopInit: turn the motor-safety watchdog back on. */
  function TeleopInit(): (cmds: seq<Command>)
    ensures LastWrite(cmds, DriveWatchdog) == Some(SafetyEnabled(true))
    ensures Inert(cmds)
  {
    [SafetyEnabled(true)]
  }

  /** teleopPeriodic: tank drive from axes 1 and 3 first, on every tick;
      then the solenoid follows button 3; with buttons 3 and 4 both held
      the front-left Spark is set to full speed after the group drive
      wrote it, so the override is what that motor keeps. */
  function TeleopPeriodic(r: Readings): (cmds: seq<Command>)
    ensures |cmds| >= 2 && cmds[0] == TankDrive(r.axis1, r.axis3, Omitted)
    ensures FrontLeft(1.0) in cmds <==> r.button3 && r.button4
    ensures AxesInRange(r) ==> AllInRange(cmds)
  {
    var drive := [TankDrive(r.axis1, r.axis3, Omitted)];
    if r.button3 then
      drive + [Solenoid(true)] + (if r.button4 then [FrontLeft(OverrideSpeed)] else [])
    else
      drive + [Solenoid(false)]
  }

  /** What each device holds after a teleop tick: the solenoid is written
      exactly once, with button 3; the front-left Spark keeps the override
      when buttons 3 and 4 are held and the group drive otherwise; the other
      three drive Sparks always keep the group drive. */
  lemma TeleopLastWrites(r: Readings)
    ensures |WritesTo(TeleopPeriodic(r), SolenoidValve)| == 1
    ensures LastWrite(TeleopPeriodic(r), SolenoidValve) == Some(Solenoid(r.button3))
    ensures LastWrite(TeleopPeriodic(r), FrontLeftMotor) ==
      if r.button3 && r.button4 then Some(FrontLeft(1.0)) else Some(TankDrive(r.axis1, r.axis3, Omitted))
    ensures forall d :: d in DriveMotors && d != FrontLeftMotor ==>
      LastWrite(TeleopPeriodic(r), d) == Some(TankDrive(r.axis1, r.axis3, Omitted))
  {
    TeleopSolenoidWrittenOnce(r);
    TeleopWritesOf(r, SolenoidValve);
    TeleopWritesOf(r, FrontLeftMotor);
    forall d | d in DriveMotors && d != FrontLeftMotor
      ensures LastWrite(TeleopPeriodic(r), d) == Some(TankDrive(r.axis1, r.axis3, Omitted))
    {
      TeleopWritesOf(r, d);
    }
  }

  /** The last write one teleop tick makes to a single device. */
  lemma TeleopWritesOf(r: Readings, d: Device)
    requires d in DriveMotors || d == SolenoidValve
    ensures LastWrite(TeleopPeriodic(r), d) ==
      if d == SolenoidValve then Some(Solenoid(r.button3))
      else if d == FrontLeftMotor && r.button3 && r.button4 then Some(FrontLeft(1.0))
      else Some(TankDrive(r.axis1, r.axis3, Omitted))
  {
    var head := [TankDrive(r.axis1, r.axis3, Omitted), Solenoid(r.button3)];
    var extra: seq<Command> := if r.button3 && r.button4 then [FrontLeft(1.0)] else [];
    assert TeleopPeriodic(r) == head + extra;
    DriveThenSolenoidWrites(r.axis1, r.axis3, r.button3, d);
    LastWriteConcat(head, extra, d);
    if r.button3 && r.button4 {
      OneCallWrites(FrontLeft(1.0), d);
    } else {
      assert head + extra == head;
    }
  }

  /** Everything a teleop tick writes, device by device: each drive Spark
      gets exactly one `TankDrive(axis1, axis3)`, the solenoid exactly one
      `Solenoid(button3)`, the front-left Spark then `FrontLeft(1)` when
      buttons 3 and 4 are held, and every other device nothing. */
  lemma TeleopWritesTo(r: Readings, d: Device)
    ensures WritesTo(TeleopPeriodic(r), d) ==
      (if d in DriveMotors then [TankDrive(r.axis1, r.axis3, Omitted)] else []) +
      (if d == SolenoidValve then [Solenoid(r.button3)] else []) +
      (if d == FrontLeftMotor && r.button3 && r.button4 then [FrontLeft(1.0)] else [])
  {
    var head := [TankDrive(r.axis1, r.axis3, Omitted), Solenoid(r.button3)];
    var extra: seq<Command> := if r.button3 && r.button4 then [FrontLeft(1.0)] else [];
    assert TeleopPeriodic(r) == head + extra;
    DriveThenSolenoidWrites(r.axis1, r.axis3, r.button3, d);
    WritesToConcat(head, extra, d);
    OneCallWrites(FrontLeft(1.0), d);
    assert WritesTo(extra, d) == if d == FrontLeftMotor && r.button3 && r.button4 then [FrontLeft(1.0)] else [];
  }

  /** A teleop tick writes the solenoid exactly once, with button 3. */
  lemma TeleopSolenoidWrittenOnce(r: Readings)
    ensures WritesTo(TeleopPeriodic(r), SolenoidValve) == [Solenoid(r.button3)]
  {
    TeleopWritesTo(r, SolenoidValve);
  }

  /** The first two calls of a teleop tick: the group drive, then the solenoid. */
  lemma DriveThenSolenoidWrites(left: real, right: real, engaged: bool, d: Device)
    ensures WritesTo([TankDrive(left, right, Omitted), Solenoid(engaged)], d) ==
      (if d in DriveMotors then [TankDrive(left, right, Omitted)] else []) +
      (if d == SolenoidValve then [Solenoid(engaged)] else [])
    ensures LastWrite([TankDrive(left, right, Omitted), Solenoid(engaged)], d) ==
      if d == SolenoidValve then Some(Solenoid(engaged))
      else if d in DriveMotors then Some(TankDrive(left, right, Omitted))
      else None
  {
    var drive := TankDrive(left, right, Omitted);
    var solenoid := Solenoid(engaged);
    OneCallWrites(drive, d);
    OneCallWrites(solenoid, d);
    assert [drive, solenoid] == [drive] + [solenoid];
    LastWriteConcat([drive], [solenoid], d);
    WritesToConcat([drive], [solenoid], d);
  }

  /** The initializer of a mode. Disabled and test do nothing. */
  function ModeInit(mode: Mode, s: Robot, r: Readings): (o: Outcome<Robot>)
    ensures mode != Autonomous ==> o.state == s
    ensures mode == Disabled || mode == Test ==> o.commands == []
  {
    match mode
    case Disabled => Outcome(s, [])
    case Autonomous => AutonomousInit(s, r)
    case Teleop => Outcome(s, TeleopInit())
    case Test => Outcome(s, [])
  }

  /** The periodic handler of a mode. Disabled and test do nothing. */
  function ModePeriodic(mode: Mode, s: Robot, r: Readings): (cmds: seq<Command>)
    requires mode == Autonomous ==> s.autoSelected.Some?
    ensures mode == Disabled || mode == Test ==> cmds == []
  {
    match mode
    case Disabled => []
    case Autonomous => AutonomousPeriodic(s.autoSelected.value, r)
    case Teleop => TeleopPeriodic(r)
    case Test => []
  }

  /** One host tick: the mode's initializer on entry, then its periodic
      handler (robotPeriodic is empty). */
  function Step(s: ValidRobot, t: HostTick): (o: Outcome<ValidRobot>)
    ensures o.state.lastMode == Some(t.mode)
    ensures o.state.autoSelected ==
      if t.mode == Autonomous && Entering(s.lastMode, t.mode) then Some(Latch(t.readings.chooser, t.readings.autoSelector))
      else s.autoSelected
    ensures t.mode == Disabled || t.mode == Test ==> o.commands == []
    ensures t.mode == Autonomous ==>
      o.commands == (if Entering(s.lastMode, t.mode) then [StartTimer, SafetyEnabled(false)] else []) +
                    AutonomousPeriodic(o.state.autoSelected.value, t.readings)
    ensures t.mode == Teleop ==>
      o.commands == (if Entering(s.lastMode, t.mode) then [SafetyEnabled(true)] else []) +
                    TeleopPeriodic(t.readings)
  {
    var r := t.readings;
    var init := if Entering(s.lastMode, t.mode) then ModeInit(t.mode, s, r) else Outcome(s, []);
    Outcome(init.state.(lastMode := Some(t.mode)), init.commands + ModePeriodic(t.mode, init.state.(lastMode := Some(t.mode)), r))
  }

  /** Button 4 alone does nothing: without button 3 the tick is the same
      whether or not button 4 is held. */
  lemma Button4AloneIsIgnored(r: Readings)
    requires !r.button3
    ensures TeleopPeriodic(r.(button4 := true)) == TeleopPeriodic(r.(button4 := false))
  {
  }

  /** There is no range gate: teleop issues the same calls whatever the
      range reading, so an obstacle at any distance still lets the axes drive. */
  lemma TeleopIgnoresRange(r: Readings, rangeMM: real)
    ensures TeleopPeriodic(r.(rangeMM := rangeMM)) == TeleopPeriodic(r)
    ensures LastWrite(TeleopPeriodic(r.(rangeMM := rangeMM)), RearLeftMotor) == Some(TankDrive(r.axis1, r.axis3, Omitted))
  {
  }
}
