/** Properties of the expanded robot program over runs of host ticks. */
module ExpandedRuns {

  import opened Options
  import opened Commands
  import opened Inputs
  import opened Selection
  import opened Scheduler
  import opened ExpandedRobot

  /** The flag the handlers of tick k consume: the one left by the previous
      tick's range reading, or the starting state's for the first tick. */
  function FlagBefore(s: ValidRobot, ts: seq<HostTick>, k: nat): bool
    requires k <= |ts|
  {
    if k == 0 then s.ultrasonicOK else ts[k - 1].readings.rangeMM > MinRangeMM
  }

  /** After k ticks the flag is the threshold test on tick k - 1's range,
      whatever the modes were and whatever the flag was before. */
  lemma FlagFollowsPreviousTick(s: ValidRobot, ts: seq<HostTick>, k: nat)
    requires k <= |ts|
    ensures Run(Step, s, ts[..k]).final.ultrasonicOK == FlagBefore(s, ts, k)
  {
  }

  /** The interlock over a run: an autonomous or teleop tick that follows
      a range reading of at most 100 mm issues nothing that moves. */
  lemma InterlockOverRun(s: ValidRobot, ts: seq<HostTick>, k: nat)
    requires k < |ts|
    requires ts[k].mode == Autonomous || ts[k].mode == Teleop
    requires !FlagBefore(s, ts, k)
    ensures Inert(Run(Step, s, ts).log[k])
  {
    RunLogIsStepwise(Step, s, ts, k);
    FlagFollowsPreviousTick(s, ts, k);
    StepInterlock(Run(Step, s, ts[..k]).final, ts[k]);
  }

  /** Odometry is fed once per tick, in every mode, in tick order, with
      the negated gyro angle and the two encoder distances. */
  lemma {:induction false} OdometryFedEveryTick(s: ValidRobot, ts: seq<HostTick>)
    ensures |Run(Step, s, ts).final.odometry| == |s.odometry| + |ts|
    ensures Run(Step, s, ts).final.odometry[..|s.odometry|] == s.odometry
    ensures forall k :: 0 <= k < |ts| ==>
      Run(Step, s, ts).final.odometry[|s.odometry| + k] == OdometryInput(ts[k].readings)
    decreases |ts|
  {
    if |ts| > 0 {
      var n := |ts| - 1;
      var m := |s.odometry|;
      OdometryFedEveryTick(s, ts[..n]);
      RunExtends(Step, s, ts, n);
      assert ts[..n + 1] == ts;
      var before := Run(Step, s, ts[..n]).final.odometry;
      var after := Run(Step, s, ts).final.odometry;
      assert after == before + [OdometryInput(ts[n].readings)];
      forall k | 0 <= k < |ts|
        ensures after[m + k] == OdometryInput(ts[k].readings)
      {
        if k < n {
          assert after[m + k] == before[m + k];
          assert ts[..n][k] == ts[k];
        }
      }
    }
  }

  /** While the host stays in autonomous, the latched selection does not
      change: it is read once, at entry. */
  lemma {:induction false} SelectionHeldThroughAutonomous(s: ValidRobot, ts: seq<HostTick>)
    requires s.lastMode == Some(Autonomous)
    requires forall k :: 0 <= k < |ts| ==> ts[k].mode == Autonomous
    ensures Run(Step, s, ts).final.autoSelected == s.autoSelected
    ensures Run(Step, s, ts).final.lastMode == Some(Autonomous)
    decreases |ts|
  {
    if |ts| > 0 {
      var n := |ts| - 1;
      SelectionHeldThroughAutonomous(s, ts[..n]);
      RunExtends(Step, s, ts, n);
      assert ts[..n + 1] == ts;
    }
  }

  /** Every tick of an autonomous run runs the latched program on that
      tick's encoder distances and the flag the previous tick left; the
      decision is made afresh each tick. */
  lemma AutonomousTickFollowsLatch(s: ValidRobot, ts: seq<HostTick>, k: nat)
    requires s.lastMode == Some(Autonomous)
    requires forall i :: 0 <= i < |ts| ==> ts[i].mode == Autonomous
    requires k < |ts|
    ensures Run(Step, s, ts).log[k] == AutonomousPeriodic(s.autoSelected.value, FlagBefore(s, ts, k), ts[k].readings)
  {
    RunLogIsStepwise(Step, s, ts, k);
    SelectionHeldThroughAutonomous(s, ts[..k]);
    FlagFollowsPreviousTick(s, ts, k);
  }

  /** "My Auto" and any unrecognized name keep the robot idle for the whole
      autonomous run: no call at all on any tick. */
  lemma NonDefaultSelectionIssuesNothing(s: ValidRobot, ts: seq<HostTick>, k: nat)
    requires s.lastMode == Some(Autonomous) && s.autoSelected.Some? && s.autoSelected.value != DefaultAuto
    requires forall i :: 0 <= i < |ts| ==> ts[i].mode == Autonomous
    requires k < |ts|
    ensures Run(Step, s, ts).log[k] == []
  {
    AutonomousTickFollowsLatch(s, ts, k);
  }

  /** The stop is not latched: a tick stopped by an unsafe flag is followed
      by driving again once the range clears and the target is not reached. */
  lemma StopIsNotLatched(s: ValidRobot, t1: HostTick, t2: HostTick)
    requires s.lastMode == Some(Autonomous) && s.autoSelected == Some(DefaultAuto)
    requires !s.ultrasonicOK
    requires t1.mode == Autonomous && t2.mode == Autonomous
    requires t1.readings.rangeMM > 100.0
    requires (t2.readings.leftDistance + t2.readings.rightDistance) / 2.0 <= 5.0
    ensures Run(Step, s, [t1, t2]).log == [[TankDrive(0.0, 0.0, Given(true))], [TankDrive(0.8, 0.8, Given(true))]]
  {
    var ts := [t1, t2];
    AutonomousTickFollowsLatch(s, ts, 0);
    AutonomousTickFollowsLatch(s, ts, 1);
  }

  /** A run that enters autonomous: tick 0 starts the timer and disables
      the watchdog before running the handler, and every tick runs the
      program named by the dashboard at tick 0, on its own distances and
      the flag the previous tick left. */
  lemma EnteringAutonomousRun(s: ValidRobot, ts: seq<HostTick>, k: nat)
    requires s.lastMode != Some(Autonomous)
    requires forall i :: 0 <= i < |ts| ==> ts[i].mode == Autonomous
    requires k < |ts|
    ensures Run(Step, s, ts).log[k] ==
      (if k == 0 then [StartTimer, SafetyEnabled(false)] else []) +
      AutonomousPeriodic(Latch(ts[0].readings.chooser, ts[0].readings.autoSelector), FlagBefore(s, ts, k), ts[k].readings)
  {
    if k == 0 {
      EnteringTickOfRun(s, ts);
    } else {
      EnteredRunLaterTick(s, ts, k);
      assert [] + AutonomousPeriodic(Latch(ts[0].readings.chooser, ts[0].readings.autoSelector), FlagBefore(s, ts, k), ts[k].readings)
        == AutonomousPeriodic(Latch(ts[0].readings.chooser, ts[0].readings.autoSelector), FlagBefore(s, ts, k), ts[k].readings);
    }
  }

  /** Every later tick of a run that enters autonomous runs the program
      latched at tick 0. */
  lemma EnteredRunLaterTick(s: ValidRobot, ts: seq<HostTick>, k: nat)
    requires s.lastMode != Some(Autonomous)
    requires forall i :: 0 <= i < |ts| ==> ts[i].mode == Autonomous
    requires 0 < k < |ts|
    ensures Run(Step, s, ts).log[k] ==
      AutonomousPeriodic(Latch(ts[0].readings.chooser, ts[0].readings.autoSelector), FlagBefore(s, ts, k), ts[k].readings)
  {
    EnteringAutonomousStep(s, ts[0]);
    RunFrontTick(Step, s, ts, k);
    LaterTickOfEnteredRun(s, Step(s, ts[0]).state, ts, k);
  }

  /** Tick 0 of a run that enters autonomous is the entering step itself. */
  lemma EnteringTickOfRun(s: ValidRobot, ts: seq<HostTick>)
    requires s.lastMode != Some(Autonomous)
    requires |ts| > 0 && ts[0].mode == Autonomous
    ensures Run(Step, s, ts).log[0] ==
      [StartTimer, SafetyEnabled(false)] +
      AutonomousPeriodic(Latch(ts[0].readings.chooser, ts[0].readings.autoSelector), s.ultrasonicOK, ts[0].readings)
  {
    RunLogIsStepwise(Step, s, ts, 0);
    assert ts[..0] == [];
    EnteringAutonomousStep(s, ts[0]);
  }

  /** The tick that enters autonomous latches the name, then runs the
      initializer and the handler on the flag the tick started with. */
  lemma EnteringAutonomousStep(s: ValidRobot, t: HostTick)
    requires s.lastMode != Some(Autonomous) && t.mode == Autonomous
    ensures Step(s, t).state.lastMode == Some(Autonomous)
    ensures Step(s, t).state.autoSelected == Some(Latch(t.readings.chooser, t.readings.autoSelector))
    ensures Step(s, t).state.ultrasonicOK == (t.readings.rangeMM > MinRangeMM)
    ensures Step(s, t).commands ==
      [StartTimer, SafetyEnabled(false)] +
      AutonomousPeriodic(Latch(t.readings.chooser, t.readings.autoSelector), s.ultrasonicOK, t.readings)
  {
  }

  /** Tick k > 0 of a run entered at tick 0 is tick k - 1 of the run that
      starts inside autonomous with the name latched at tick 0. */
  lemma LaterTickOfEnteredRun(s: ValidRobot, s1: ValidRobot, ts: seq<HostTick>, k: nat)
    requires forall i :: 0 <= i < |ts| ==> ts[i].mode == Autonomous
    requires 0 < k < |ts|
    requires s1.lastMode == Some(Autonomous)
    requires s1.ultrasonicOK == (ts[0].readings.rangeMM > MinRangeMM)
    ensures Run(Step, s1, ts[1..]).log[k - 1] ==
      AutonomousPeriodic(s1.autoSelected.value, FlagBefore(s, ts, k), ts[k].readings)
  {
    var rest := ts[1..];
    AutonomousTickFollowsLatch(s1, rest, k - 1);
    FlagBeforeShift(s, s1, ts, k);
  }

  /** Dropping the first tick shifts the flag by one: the flag before tick
      k is the one before tick k - 1 of the rest, once the state carries
      tick 0's range test. */
  lemma FlagBeforeShift(s: ValidRobot, s1: ValidRobot, ts: seq<HostTick>, k: nat)
    requires 0 < k <= |ts|
    requires s1.ultrasonicOK == (ts[0].readings.rangeMM > MinRangeMM)
    ensures FlagBefore(s1, ts[1..], k - 1) == FlagBefore(s, ts, k)
  {
    if k > 1 {
      assert ts[1..][k - 2] == ts[k - 1];
    }
  }

  /** The flag starts out true, so an autonomous tick straight after power-on
      with "Default" latched drives whatever that tick's range reads. */
  lemma PowerOnTrustsFirstTick(t: HostTick)
    requires t.mode == Autonomous
    requires t.readings.autoSelector == None || t.readings.autoSelector == Some(DefaultAuto)
    requires (t.readings.leftDistance + t.readings.rightDistance) / 2.0 <= 5.0
    ensures Run(Step, PowerOn, [t]).log[0] == [StartTimer, SafetyEnabled(false), TankDrive(0.8, 0.8, Given(true))]
  {
    EnteringAutonomousRun(PowerOn, [t], 0);
  }

  /** An unsafe teleop tick issues no drive call, so the drive Sparks keep
      the previous tick's joystick values: over the two ticks, the last
      drive write is still the first tick's. Only the library's
      motor-safety watchdog, outside this model, would stop them. */
  lemma UnsafeTeleopKeepsLastDrive(s: ValidRobot, t1: HostTick, t2: HostTick, d: Device)
    requires s.lastMode == Some(Teleop) && s.ultrasonicOK
    requires t1.mode == Teleop && t2.mode == Teleop
    requires t1.readings.rangeMM <= 100.0
    requires d in DriveMotors
    ensures Run(Step, s, [t1, t2]).log[1] == TeleopPeriodic(false, t2.readings)
    ensures LastWrite(Run(Step, s, [t1, t2]).log[0] + Run(Step, s, [t1, t2]).log[1], d) ==
      Some(TankDrive(t1.readings.axis1, t1.readings.axis3, Omitted))
  {
    var o1 := Step(s, t1);
    TwoTickRun(Step, s, t1, t2);
    TeleopStep(s, t1);
    TeleopStep(o1.state, t2);
    TeleopWritesTo(false, t2.readings, d);
    LastWriteConcat(o1.commands, TeleopPeriodic(false, t2.readings), d);
  }

  /** A tick that stays in teleop runs the teleop handler on the flag the
      previous tick left, and leaves this tick's range test behind. */
  lemma TeleopStep(s: ValidRobot, t: HostTick)
    requires s.lastMode == Some(Teleop) && t.mode == Teleop
    ensures Step(s, t).commands == TeleopPeriodic(s.ultrasonicOK, t.readings)
    ensures Step(s, t).state.lastMode == Some(Teleop)
    ensures Step(s, t).state.ultrasonicOK == (t.readings.rangeMM > MinRangeMM)
  {
  }
}
