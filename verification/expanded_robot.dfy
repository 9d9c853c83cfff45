/** The expanded robot program: odometry inputs and an ultrasonic safety
    flag refreshed on every tick, a distance-limited autonomous drive gated
    by that flag, and a gated tank drive plus redline motor in teleop. */
module ExpandedRobot {

  import opened Options
  import opened Commands
  import opened Inputs
  import opened Selection
  import opened Scheduler

  const LeftSpeed: real := 0.8
  const RightSpeed: real := 0.8
  const SquareInputs: bool := true
  /** Distance (encoder units, meters here) the Default program drives. */
  const TargetDistance: real := 5.0
  /** A range strictly above this many millimeters counts as safe. */
  const MinRangeMM: real := 100.0
  const RedlineSpeed: real := 0.65

  /** The arguments of one odometry update: heading in degrees and the two
      cumulative encoder distances. The pose the library derives from the
      sequence of these calls is not modelled. */
  datatype OdometryUpdate = OdometryUpdate(headingDegrees: real, leftDistance: real, rightDistance: real)

  /** The program's fields that change: the host's last mode, the latched
      selection (null until the first autonomous entry), the safety flag,
      and every odometry update issued so far. */
  datatype Robot = Robot(
    lastMode: Option<Mode>,
    autoSelected: Option<string>,
    ultrasonicOK: bool,
    odometry: seq<OdometryUpdate>)

  /** Autonomous never runs on a null selection: once the host has been in
      autonomous, the selection is latched. */
  predicate Valid(s: Robot)
  {
    s.lastMode == Some(Autonomous) ==> s.autoSelected.Some?
  }

  type ValidRobot = s: Robot | Valid(s) witness Robot(None, None, true, [])

  /** State at power-on: the flag field is initialised to true. */
  const PowerOn: ValidRobot := Robot(None, None, true, [])

  /** The odometry call a tick's readings produce: the gyro angle is negated. */
  function OdometryInput(r: Readings): (u: OdometryUpdate)
    ensures u.headingDegrees == -r.gyroAngle
    ensures u.leftDistance == r.leftDistance && u.rightDistance == r.rightDistance
  {
    OdometryUpdate(-r.gyroAngle, r.leftDistance, r.rightDistance)
  }

  /** robotPeriodic: feed odometry and recompute the flag from this tick's
      range alone, whatever the flag was. */
  function RobotPeriodic(s: Robot, r: Readings): (s': Robot)
    ensures s'.ultrasonicOK <==> r.rangeMM > MinRangeMM
    ensures |s'.odometry| == |s.odometry| + 1
    ensures s'.odometry[..|s.odometry|] == s.odometry
    ensures s'.odometry[|s.odometry|] == OdometryInput(r)
    ensures s'.lastMode == s.lastMode && s'.autoSelected == s.autoSelected
  {
    s.(odometry := s.odometry + [OdometryInput(r)], ultrasonicOK := r.rangeMM > MinRangeMM)
  }

  /** autonomousInit: latch the selection, start the run timer (it is
      never reset) and turn off the drive's motor-safety watchdog. */
  function AutonomousInit(s: Robot, r: Readings): (o: Outcome<Robot>)
    ensures o.state.autoSelected == Some(if r.autoSelector.Some? then r.autoSelector.value else DefaultAuto)
    ensures o.state.lastMode == s.lastMode && o.state.ultrasonicOK == s.ultrasonicOK
    ensures o.state.odometry == s.odometry
    ensures LastWrite(o.commands, RunTimer) == Some(StartTimer)
    ensures LastWrite(o.commands, DriveWatchdog) == Some(SafetyEnabled(false))
    ensures Inert(o.commands)
  {
    var selected := Latch(r.chooser, r.autoSelector);
    Outcome(s.(autoSelected := Some(selected)), [StartTimer, SafetyEnabled(false)])
  }

  /** autonomousPeriodic. Default drives at 0.8 while the average encoder
      distance is at most the target and the flag is safe, and otherwise
      commands a stop; "My Auto" and every other name issue nothing. */
  function AutonomousPeriodic(selected: string, safe: bool, r: Readings): (cmds: seq<Command>)
    ensures selected != DefaultAuto ==> cmds == []
    ensures cmds == [TankDrive(0.8, 0.8, Given(true))] <==>
      selected == DefaultAuto && (r.leftDistance + r.rightDistance) / 2.0 <= 5.0 && safe
    ensures cmds == [TankDrive(0.0, 0.0, Given(true))] <==>
      selected == DefaultAuto && !((r.leftDistance + r.rightDistance) / 2.0 <= 5.0 && safe)
    ensures !safe ==> Inert(cmds)
    ensures AllInRange(cmds)
  {
    match Classify(selected)
    case CustomProgram => []
    case DefaultProgram =>
      var travelled := (r.leftDistance + r.rightDistance) / 2.0;
      if travelled <= TargetDistance && safe then [TankDrive(LeftSpeed, RightSpeed, Given(SquareInputs))]
      else [TankDrive(0.0, 0.0, Given(SquareInputs))]
    case Unrecognized(_) => []
  }

  /** teleopInit: turn the motor-safety watchdog back on. */
  function TeleopInit(): (cmds: seq<Command>)
    ensures LastWrite(cmds, DriveWatchdog) == Some(SafetyEnabled(true))
    ensures Inert(cmds)
  {
    [SafetyEnabled(true)]
  }

  /** teleopPeriodic. When safe, tank drive from axes 1 and 3; when unsafe,
      no drive call at all (not a zero one). The redline is written on
      every tick: 0.65 while button 3 is held and the flag is safe, else 0. */
  function TeleopPeriodic(safe: bool, r: Readings): (cmds: seq<Command>)
    ensures safe ==> forall d :: d in DriveMotors ==> LastWrite(cmds, d) == Some(TankDrive(r.axis1, r.axis3, Omitted))
    ensures !safe ==> forall i :: 0 <= i < |cmds| ==> !cmds[i].TankDrive?
    ensures |WritesTo(cmds, RedlineMotor)| == 1
    ensures LastWrite(cmds, RedlineMotor) == Some(Redline(if r.button3 && safe then 0.65 else 0.0))
    ensures !safe ==> Inert(cmds)
    ensures AxesInRange(r) ==> AllInRange(cmds)
  {
    var drive := if safe then [TankDrive(r.axis1, r.axis3, Omitted)] else [];
    var redline := if r.button3 && safe then Redline(RedlineSpeed) else Redline(0.0);
    drive + [redline]
  }

  /** Everything a teleop tick writes, device by device: each drive Spark
      gets exactly one `TankDrive(axis1, axis3)` when safe and nothing when
      unsafe, the redline exactly one speed, and every other device nothing. */
  lemma TeleopWritesTo(safe: bool, r: Readings, d: Device)
    ensures WritesTo(TeleopPeriodic(safe, r), d) ==
      (if safe && d in DriveMotors then [TankDrive(r.axis1, r.axis3, Omitted)] else []) +
      (if d == RedlineMotor then [Redline(if r.button3 && safe then 0.65 else 0.0)] else [])
  {
    var drive: seq<Command> := if safe then [TankDrive(r.axis1, r.axis3, Omitted)] else [];
    var redline := Redline(if r.button3 && safe then 0.65 else 0.0);
    assert TeleopPeriodic(safe, r) == drive + [redline];
    WritesToConcat(drive, [redline], d);
    OneCallWrites(redline, d);
    OneCallWrites(TankDrive(r.axis1, r.axis3, Omitted), d);
  }

  /** The initializer of a mode. Disabled and test do nothing. */
  function ModeInit(mode: Mode, s: Robot, r: Readings): (o: Outcome<Robot>)
    ensures mode != Autonomous ==> o.state == s
    ensures mode == Disabled || mode == Test ==> o.commands == []
  {
    match mode
    case Disabled => Outcome(s, [])
    case Autonomous => AutonomousInit(s, r)
    case Teleop => Outcome(s, TeleopInit())
    case Test => Outcome(s, [])
  }

  /** The periodic handler of a mode. Disabled and test do nothing. */
  function ModePeriodic(mode: Mode, s: Robot, r: Readings): (cmds: seq<Command>)
    requires mode == Autonomous ==> s.autoSelected.Some?
    ensures mode == Disabled || mode == Test ==> cmds == []
  {
    match mode
    case Disabled => []
    case Autonomous => AutonomousPeriodic(s.autoSelected.value, s.ultrasonicOK, r)
    case Teleop => TeleopPeriodic(s.ultrasonicOK, r)
    case Test => []
  }

  /** One host tick: the mode's initializer on entry, its periodic handler,
      then robotPeriodic. The handlers therefore see the flag left by the
      previous tick's range reading. */
  function Step(s: ValidRobot, t: HostTick): (o: Outcome<ValidRobot>)
    ensures o.state.lastMode == Some(t.mode)
    ensures o.state.ultrasonicOK <==> t.readings.rangeMM > MinRangeMM
    ensures o.state.odometry == s.odometry + [OdometryInput(t.readings)]
    ensures o.state.autoSelected ==
      if t.mode == Autonomous && Entering(s.lastMode, t.mode) then Some(Latch(t.readings.chooser, t.readings.autoSelector))
      else s.autoSelected
    ensures t.mode == Disabled || t.mode == Test ==> o.commands == []
    ensures t.mode == Autonomous ==>
      o.commands == (if Entering(s.lastMode, t.mode) then [StartTimer, SafetyEnabled(false)] else []) +
                    AutonomousPeriodic(o.state.autoSelected.value, s.ultrasonicOK, t.readings)
    ensures t.mode == Teleop ==>
      o.commands == (if Entering(s.lastMode, t.mode) then [SafetyEnabled(true)] else []) +
                    TeleopPeriodic(s.ultrasonicOK, t.readings)
  {
    var r := t.readings;
    var init := if Entering(s.lastMode, t.mode) then ModeInit(t.mode, s, r) else Outcome(s, []);
    var s1 := init.state.(lastMode := Some(t.mode));
    Outcome(RobotPeriodic(s1, r), init.commands + ModePeriodic(t.mode, s1, r))
  }

  /** The interlock across a tick: in autonomous and teleop, a tick that
      starts with the flag unsafe makes nothing move, initializer included. */
  lemma StepInterlock(s: ValidRobot, t: HostTick)
    requires t.mode == Autonomous || t.mode == Teleop
    requires !s.ultrasonicOK
    ensures Inert(Step(s, t).commands)
  {
  }

  /** Initializers run exactly on entry: the timer is started only on the
      tick autonomous is entered, and the watchdog re-enabled only on the
      tick teleop is entered. */
  lemma StepInitializesOnEntry(s: ValidRobot, t: HostTick)
    ensures StartTimer in Step(s, t).commands <==> t.mode == Autonomous && Entering(s.lastMode, t.mode)
    ensures SafetyEnabled(true) in Step(s, t).commands <==> t.mode == Teleop && Entering(s.lastMode, t.mode)
  {
  }
}
