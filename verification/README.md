# Per-tick decision layer of two WPILib timed robots

This project models, in Dafny, the logic the two `Robot` classes of the
repository write themselves. Both are WPILib `TimedRobot` programs for a
differential-drive robot:

- the **expanded** program (`timed_robot_assignment_expanded/...`) has these parts:
  - `robotPeriodic` feeds odometry and recomputes an ultrasonic safety flag on every tick;
  - autonomous drives at 0.8 until the average encoder distance passes 5.0, gated by the flag;
  - teleop tank-drives from joystick axes 1 and 3 and runs a redline motor on button 3, both gated by the flag;
- the **original** program (`timed_robot_assignment/...`) has these parts:
  - autonomous drives at 0.5 while the run timer reads at most 4 s;
  - every selection except "My Auto" falls through to that drive;
  - teleop tank-drives unconditionally;
  - button 3 sets a solenoid;
  - buttons 3 and 4 together override the front-left Spark at full speed.

Every handler is a pure function. It takes the tick's `Readings`: range, gyro
angle, encoder distances, timer, joystick axes and buttons, and dashboard
strings. It returns the collaborator calls it makes, as a `seq<Command>` in
issue order. The sequence tells "no call" apart from "a zero call", and it
makes "which call wrote a motor last" checkable. `Commands.LastWrite` answers
that question.

The host is modelled in `Scheduler`. Each program's `Step` runs one tick:
- first the mode's initializer, when the mode differs from the previous tick's;
- then the mode's periodic handler;
- then `robotPeriodic`, in WPILib's order (the comment at
  `timed_robot_assignment/src/main/java/frc/robot/Robot.java:75-76` says so).

`Scheduler.Run` folds `Step` over a sequence of host ticks. `Mode` and the
autonomous `Program` are closed datatypes, and both are dispatched by
exhaustive `match`.

Files:
- `options.dfy`: the `Option` type.
- `commands.dfy`: the `Command` type, the devices each call writes, and last-write reasoning.
- `inputs.dfy`: the tick's `Readings`.
- `selection.dfy`: program names, the selection latch, and classification.
- `scheduler.dfy`: modes, host ticks, and runs.
- `expanded_robot.dfy`, `expanded_runs.dfy`: the expanded program.
- `assignment_robot.dfy`, `assignment_runs.dfy`: the original program.

Behaviour the model keeps exactly as the code has it, though a reader might expect otherwise:
- With an unsafe flag, expanded teleop issues **no** drive call. It does not issue a zero drive, so the drive Sparks keep the previous tick's values (`UnsafeTeleopKeepsLastDrive`). Only the library's motor-safety watchdog, which is not modelled, stops them once the drive goes unfed.
- Autonomous entry only **starts** the timer. It never resets it, so `elapsed` is whatever the timer reads.
- The handlers use the flag the **previous** tick's `robotPeriodic` left, because `robotPeriodic` runs after the mode's periodic handler. The flag is initialised to `true` (expanded `Robot.java:84`), so the first tick after power-on trusts the drive (`PowerOnTrustsFirstTick`).
- The Default program stops once the average distance is strictly greater than 5.0. An average of exactly 5.0 still drives.
- Teleop passes the joystick axes through without clamping. Calls stay in [-1, 1] only when the axes do (`AxesInRange`).
- No reading is treated as missing. A range at or below 100 mm is simply unsafe.

## Model

| member | source | states |
|---|---|---|
| ExpandedRobot.RobotPeriodic | timed_robot_assignment_expanded/timed_robot_assignment_expanded/src/main/java/frc/robot/Robot.java:104-112 | the new flag is `rangeMM > 100` whatever the old flag was; exactly one odometry update is appended, with the gyro angle negated; mode and selection are untouched |
| ExpandedRobot.OdometryInput | timed_robot_assignment_expanded/timed_robot_assignment_expanded/src/main/java/frc/robot/Robot.java:106-107 | the heading handed to odometry is the negated gyro angle, and the distances are the raw encoder readings |
| Selection.Latch | timed_robot_assignment_expanded/timed_robot_assignment_expanded/src/main/java/frc/robot/Robot.java:116-117 | the latched name is the "Auto Selector" string when published and "Default" otherwise; the chooser's answer never survives |
| Selection.Classify | timed_robot_assignment/src/main/java/frc/robot/Robot.java:107-111 | a name is the Default program iff it equals "Default", the custom one iff it equals "My Auto", and unrecognized otherwise |
| ExpandedRobot.AutonomousInit | timed_robot_assignment_expanded/timed_robot_assignment_expanded/src/main/java/frc/robot/Robot.java:114-121 | latches the dashboard selection (default "Default"), starts the timer, leaves the watchdog disabled, and issues no call that actuates |
| ExpandedRobot.AutonomousPeriodic | timed_robot_assignment_expanded/timed_robot_assignment_expanded/src/main/java/frc/robot/Robot.java:123-147 | "Default" issues exactly `TankDrive(0.8, 0.8, true)` iff the average distance is ≤ 5.0 and the flag is safe, and exactly the zero drive otherwise; any other name issues nothing; with an unsafe flag no call actuates (at most the zero drive) |
| ExpandedRobot.TeleopInit | timed_robot_assignment_expanded/timed_robot_assignment_expanded/src/main/java/frc/robot/Robot.java:149-152 | the watchdog is left enabled, and no call actuates |
| ExpandedRobot.TeleopPeriodic | timed_robot_assignment_expanded/timed_robot_assignment_expanded/src/main/java/frc/robot/Robot.java:154-164 | safe: all four drive Sparks end on `TankDrive(axis1, axis3)`; unsafe: no drive call at all and no call that actuates; the redline is written exactly once, 0.65 iff button 3 and safe, else 0 |
| ExpandedRobot.TeleopWritesTo | timed_robot_assignment_expanded/timed_robot_assignment_expanded/src/main/java/frc/robot/Robot.java:154-164 | the calls a teleop tick makes to each device are exactly: the joystick `TankDrive` to each drive Spark when safe and none otherwise, one redline write to the redline, and nothing to any other device |
| ExpandedRobot.ModeInit | timed_robot_assignment_expanded/timed_robot_assignment_expanded/src/main/java/frc/robot/Robot.java:166-180 | disabled and test initializers issue nothing, and only autonomous entry changes the state |
| ExpandedRobot.ModePeriodic | timed_robot_assignment_expanded/timed_robot_assignment_expanded/src/main/java/frc/robot/Robot.java:166-180 | disabled and test periodic handlers issue nothing |
| ExpandedRobot.Step | timed_robot_assignment_expanded/timed_robot_assignment_expanded/src/main/java/frc/robot/Robot.java:104-164 | after any tick the flag reflects that tick's range and odometry has one more update; the selection changes only on autonomous entry; disabled/test ticks issue nothing; autonomous/teleop ticks are the initializer (on entry only) followed by the handler run on the previous flag |
| ExpandedRobot.StepInterlock | timed_robot_assignment_expanded/timed_robot_assignment_expanded/src/main/java/frc/robot/Robot.java:138-163 | an autonomous or teleop tick that starts with the flag unsafe issues no call that actuates, initializer included |
| ExpandedRobot.StepInitializesOnEntry | timed_robot_assignment_expanded/timed_robot_assignment_expanded/src/main/java/frc/robot/Robot.java:114-152 | the timer is started iff the tick enters autonomous, and the watchdog is re-enabled iff it enters teleop |
| ExpandedRuns.FlagFollowsPreviousTick | timed_robot_assignment_expanded/timed_robot_assignment_expanded/src/main/java/frc/robot/Robot.java:110-111 | after k ticks of any modes the flag is the threshold test on tick k-1's range, with no memory of older readings |
| ExpandedRuns.InterlockOverRun | timed_robot_assignment_expanded/timed_robot_assignment_expanded/src/main/java/frc/robot/Robot.java:138-163 | in a run, any autonomous or teleop tick that follows a range ≤ 100 mm issues no call that actuates |
| ExpandedRuns.OdometryFedEveryTick | timed_robot_assignment_expanded/timed_robot_assignment_expanded/src/main/java/frc/robot/Robot.java:105-107 | over a run, odometry receives exactly one update per tick, in tick order and in every mode, each with the negated gyro angle |
| ExpandedRuns.SelectionHeldThroughAutonomous | timed_robot_assignment_expanded/timed_robot_assignment_expanded/src/main/java/frc/robot/Robot.java:116-117 | while the host stays in autonomous, the latched selection never changes |
| ExpandedRuns.AutonomousTickFollowsLatch | timed_robot_assignment_expanded/timed_robot_assignment_expanded/src/main/java/frc/robot/Robot.java:124-146 | every tick of an autonomous run runs the latched program on that tick's distances and the previous tick's flag |
| ExpandedRuns.NonDefaultSelectionIssuesNothing | timed_robot_assignment_expanded/timed_robot_assignment_expanded/src/main/java/frc/robot/Robot.java:125-145 | with "My Auto" or an unrecognized name latched, no tick of the autonomous run issues any call |
| ExpandedRuns.StopIsNotLatched | timed_robot_assignment_expanded/timed_robot_assignment_expanded/src/main/java/frc/robot/Robot.java:138-141 | a stop caused by an unsafe flag is followed by driving at 0.8 once the range clears and the average distance is ≤ 5.0 |
| ExpandedRuns.EnteringAutonomousRun | timed_robot_assignment_expanded/timed_robot_assignment_expanded/src/main/java/frc/robot/Robot.java:114-147 | in a run that enters autonomous, tick 0 starts the timer and disables the watchdog before the handler, and every tick k runs the program named by tick 0's dashboard on tick k's distances and the flag tick k-1 left |
| ExpandedRuns.PowerOnTrustsFirstTick | timed_robot_assignment_expanded/timed_robot_assignment_expanded/src/main/java/frc/robot/Robot.java:84 | from power-on the flag starts true, so a first autonomous tick with "Default" latched and average distance ≤ 5.0 drives at 0.8 whatever its own range reading |
| ExpandedRuns.UnsafeTeleopKeepsLastDrive | timed_robot_assignment_expanded/timed_robot_assignment_expanded/src/main/java/frc/robot/Robot.java:157-158 | after a safe teleop tick, an unsafe one issues only the redline write, so over the two ticks each drive Spark's last write is still the first tick's joystick drive |
| AssignmentRobot.AutonomousInit | timed_robot_assignment/src/main/java/frc/robot/Robot.java:93-100 | latches the dashboard selection (default "Default"), starts the timer without a reset, disables the watchdog, and issues no call that actuates |
| AssignmentRobot.TimedDrive | timed_robot_assignment/src/main/java/frc/robot/Robot.java:112-116 | exactly one squared tank drive: 0.5/0.5 while elapsed ≤ 4 s (inclusive), and 0/0 after |
| AssignmentRobot.AutonomousPeriodic | timed_robot_assignment/src/main/java/frc/robot/Robot.java:105-119 | no call iff "My Auto"; every other name, unrecognized ones included, gets `TankDrive(0.5, 0.5, true)` iff elapsed ≤ 4 and `TankDrive(0, 0, true)` iff elapsed > 4 |
| AssignmentRobot.TeleopInit | timed_robot_assignment/src/main/java/frc/robot/Robot.java:124-127 | the watchdog is left enabled, and no call actuates |
| AssignmentRobot.TeleopPeriodic | timed_robot_assignment/src/main/java/frc/robot/Robot.java:132-145 | the first call is always `TankDrive(axis1, axis3)`; `FrontLeft(1)` is issued iff buttons 3 and 4 are both held |
| AssignmentRobot.TeleopLastWrites | timed_robot_assignment/src/main/java/frc/robot/Robot.java:135-144 | the solenoid is written once, with button 3; the front-left Spark ends on the override iff buttons 3 and 4 are held, and on the group drive otherwise; the other three drive Sparks always end on the group drive |
| AssignmentRobot.TeleopWritesTo | timed_robot_assignment/src/main/java/frc/robot/Robot.java:132-145 | the calls a teleop tick makes to each device are exactly: one joystick `TankDrive` to each drive Spark, one `Solenoid(button3)` to the solenoid, the `FrontLeft(1)` override to the front-left Spark iff buttons 3 and 4 are held, and nothing to any other device |
| AssignmentRobot.TeleopSolenoidWrittenOnce | timed_robot_assignment/src/main/java/frc/robot/Robot.java:137-144 | the only solenoid write of a teleop tick is `Solenoid(button3)` |
| AssignmentRobot.Button4AloneIsIgnored | timed_robot_assignment/src/main/java/frc/robot/Robot.java:137-144 | without button 3, holding button 4 changes nothing |
| AssignmentRobot.TeleopIgnoresRange | timed_robot_assignment/src/main/java/frc/robot/Robot.java:133-135 | teleop has no range gate: the calls do not depend on the range reading, and the rear-left Spark ends on the joystick drive |
| AssignmentRobot.ModeInit | timed_robot_assignment/src/main/java/frc/robot/Robot.java:147-166 | disabled and test initializers issue nothing, and only autonomous entry changes the state |
| AssignmentRobot.ModePeriodic | timed_robot_assignment/src/main/java/frc/robot/Robot.java:154-173 | disabled and test periodic handlers issue nothing |
| AssignmentRobot.Step | timed_robot_assignment/src/main/java/frc/robot/Robot.java:78-145 | the selection changes only on autonomous entry; disabled/test ticks issue nothing; autonomous/teleop ticks are the initializer (on entry only) followed by the handler |
| AssignmentRuns.SelectionHeldThroughAutonomous | timed_robot_assignment/src/main/java/frc/robot/Robot.java:94-96 | while the host stays in autonomous, the latched selection never changes |
| AssignmentRuns.AutonomousTickFollowsLatch | timed_robot_assignment/src/main/java/frc/robot/Robot.java:106-118 | every tick of an autonomous run runs the latched program on that tick's timer reading |
| AssignmentRuns.TimedDriveStopsForGood | timed_robot_assignment/src/main/java/frc/robot/Robot.java:113-116 | with a non-decreasing timer, once a tick reads more than 4 s, every later tick of the run issues exactly the zero drive (any program but "My Auto") |
| AssignmentRuns.CustomSelectionIssuesNothing | timed_robot_assignment/src/main/java/frc/robot/Robot.java:108-109 | with "My Auto" latched, no tick of the autonomous run issues any call |
| AssignmentRuns.EnteringAutonomousRun | timed_robot_assignment/src/main/java/frc/robot/Robot.java:93-119 | in a run that enters autonomous, tick 0 starts the timer and disables the watchdog before the handler, and every tick k runs the program named by tick 0's dashboard on tick k's timer reading |

## Left out

- Odometry pose arithmetic: `DifferentialDriveOdometry.update` is library code that uses floating-point trigonometry. The model records only the arguments of each update call (`OdometryUpdate`), not the pose the library derives from them.
- `DifferentialDrive` internals: input squaring, `setMaxOutput(0.7)`, `setExpiration(0.1)`, the motor-safety watchdog's timeout (the only thing that stops the drive Sparks after an unsafe teleop tick), and what the two-argument `tankDrive` overload defaults `squareInputs` to. `SquareArg.Omitted` marks the overload.
- `robotInit`: it only configures the drive, the chooser and the ultrasonic sensor's automatic mode, so it issues no modelled call.
- Sensor and actuator drivers (`Ultrasonic`, gyro, encoders, Sparks, speed-controller groups, `Solenoid`): their readings are fields of `Readings`, and their outputs are `Command`s.
- `Timer` accumulation is library behaviour. Elapsed seconds are a per-tick input, and `TimedDriveStopsForGood` assumes the host's readings do not decrease.
- Dashboard and logging: `SmartDashboard`, `SendableChooser` and `System.out.println` are I/O. The dashboard string and the chooser answer are inputs, and the log line is dropped.
- The host loop's timing and tick period are host-side. `Scheduler.Run` models only the order of the calls.
- IEEE doubles are modelled as `real`.
- A null selection reaching `autonomousPeriodic` (a `NullPointerException` in Java) cannot occur, because the host always runs `autonomousInit` first. The `ValidRobot` subset type rules that state out.
