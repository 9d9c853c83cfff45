/** Properties of the original robot program over runs of host ticks. */
module AssignmentRuns {

  import opened Options
  import opened Commands
  import opened Inputs
  import opened Selection
  import opened Scheduler
  import opened AssignmentRobot

  /** The host's timer readings never go backwards from one tick to the next. */
  predicate ElapsedNonDecreasing(ts: seq<HostTick>)
  {
    forall k :: 0 < k < |ts| ==> ts[k - 1].readings.elapsed <= ts[k].readings.elapsed
  }

  /** Tick-to-tick monotonicity gives monotonicity across any gap. */
  lemma {:induction false} ElapsedMonotone(ts: seq<HostTick>, i: nat, j: nat)
    requires ElapsedNonDecreasing(ts)
    requires i <= j < |ts|
    ensures ts[i].readings.elapsed <= ts[j].readings.elapsed
    decreases j - i
  {
    if i < j {
      ElapsedMonotone(ts, i, j - 1);
    }
  }

  /** While the host stays in autonomous, the latched selection does not change. */
  lemma {:induction false} SelectionHeldThroughAutonomous(s: ValidRobot, ts: seq<HostTick>)
    requires s.lastMode == Some(Autonomous)
    requires forall k :: 0 <= k < |ts| ==> ts[k].mode == Autonomous
    ensures Run(Step, s, ts).final.autoSelected == s.autoSelected
    ensures Run(Step, s, ts).final.lastMode == Some(Autonomous)
    decreases |ts|
  {
    if |ts| > 0 {
      var n := |ts| - 1;
      SelectionHeldThroughAutonomous(s, ts[..n]);
      RunExtends(Step, s, ts, n);
      assert ts[..n + 1] == ts;
    }
  }

  /** Every tick of an autonomous run runs the latched program on that
      tick's timer reading. */
  lemma AutonomousTickFollowsLatch(s: ValidRobot, ts: seq<HostTick>, k: nat)
    requires s.lastMode == Some(Autonomous)
    requires forall i :: 0 <= i < |ts| ==> ts[i].mode == Autonomous
    requires k < |ts|
    ensures Run(Step, s, ts).log[k] == AutonomousPeriodic(s.autoSelected.value, ts[k].readings)
  {
    RunLogIsStepwise(Step, s, ts, k);
    SelectionHeldThroughAutonomous(s, ts[..k]);
  }

  /** Once the timer has passed four seconds in an autonomous run of any
      program but "My Auto", every later tick commands the stop. */
  lemma TimedDriveStopsForGood(s: ValidRobot, ts: seq<HostTick>, i: nat, j: nat)
    requires s.lastMode == Some(Autonomous) && s.autoSelected.Some? && s.autoSelected.value != CustomAuto
    requires forall k :: 0 <= k < |ts| ==> ts[k].mode == Autonomous
    requires ElapsedNonDecreasing(ts)
    requires i <= j < |ts|
    requires ts[i].readings.elapsed > 4.0
    ensures Run(Step, s, ts).log[j] == [TankDrive(0.0, 0.0, Given(true))]
  {
    ElapsedMonotone(ts, i, j);
    AutonomousTickFollowsLatch(s, ts, j);
  }

  /** "My Auto" keeps the robot idle for the whole autonomous run. */
  lemma CustomSelectionIssuesNothing(s: ValidRobot, ts: seq<HostTick>, k: nat)
    requires s.lastMode == Some(Autonomous) && s.autoSelected == Some(CustomAuto)
    requires forall i :: 0 <= i < |ts| ==> ts[i].mode == Autonomous
    requires k < |ts|
    ensures Run(Step, s, ts).log[k] == []
  {
    AutonomousTickFollowsLatch(s, ts, k);
  }

  /** A run that enters autonomous: tick 0 starts the timer and disables
      the watchdog before running the handler, and every tick runs the
      program named by the dashboard at tick 0 on its own timer reading. */
  lemma EnteringAutonomousRun(s: ValidRobot, ts: seq<HostTick>, k: nat)
    requires s.lastMode != Some(Autonomous)
    requires forall i :: 0 <= i < |ts| ==> ts[i].mode == Autonomous
    requires k < |ts|
    ensures Run(Step, s, ts).log[k] ==
      (if k == 0 then [StartTimer, SafetyEnabled(false)] else []) +
      AutonomousPeriodic(Latch(ts[0].readings.chooser, ts[0].readings.autoSelector), ts[k].readings)
  {
    if k == 0 {
      EnteringTickOfRun(s, ts);
    } else {
      EnteredRunLaterTick(s, ts, k);
      assert [] + AutonomousPeriodic(Latch(ts[0].readings.chooser, ts[0].readings.autoSelector), ts[k].readings)
        == AutonomousPeriodic(Latch(ts[0].readings.chooser, ts[0].readings.autoSelector), ts[k].readings);
    }
  }

  /** The tick that enters autonomous latches the name, then runs the
      initializer and the handler. */
  lemma EnteringAutonomousStep(s: ValidRobot, t: HostTick)
    requires s.lastMode != Some(Autonomous) && t.mode == Autonomous
    ensures Step(s, t).state.lastMode == Some(Autonomous)
    ensures Step(s, t).state.autoSelected == Some(Latch(t.readings.chooser, t.readings.autoSelector))
    ensures Step(s, t).commands ==
      [StartTimer, SafetyEnabled(false)] + AutonomousPeriodic(Latch(t.readings.chooser, t.readings.autoSelector), t.readings)
  {
  }

  /** Tick 0 of a run that enters autonomous is the entering step itself. */
  lemma EnteringTickOfRun(s: ValidRobot, ts: seq<HostTick>)
    requires s.lastMode != Some(Autonomous)
    requires |ts| > 0 && ts[0].mode == Autonomous
    ensures Run(Step, s, ts).log[0] ==
      [StartTimer, SafetyEnabled(false)] + AutonomousPeriodic(Latch(ts[0].readings.chooser, ts[0].readings.autoSelector), ts[0].readings)
  {
    RunLogIsStepwise(Step, s, ts, 0);
    assert ts[..0] == [];
    EnteringAutonomousStep(s, ts[0]);
  }

  /** Every later tick of a run that enters autonomous runs the program
      latched at tick 0. */
  lemma EnteredRunLaterTick(s: ValidRobot, ts: seq<HostTick>, k: nat)
    requires s.lastMode != Some(Autonomous)
    requires forall i :: 0 <= i < |ts| ==> ts[i].mode == Autonomous
    requires 0 < k < |ts|
    ensures Run(Step, s, ts).log[k] ==
      AutonomousPeriodic(Latch(ts[0].readings.chooser, ts[0].readings.autoSelector), ts[k].readings)
  {
    EnteringAutonomousStep(s, ts[0]);
    RunFrontTick(Step, s, ts, k);
    LaterTickOfEnteredRun(Step(s, ts[0]).state, ts, k);
  }

  /** Tick k > 0 of a run entered at tick 0 is tick k - 1 of the run that
      starts inside autonomous with the name latched at tick 0. */
  lemma LaterTickOfEnteredRun(s1: ValidRobot, ts: seq<HostTick>, k: nat)
    requires forall i :: 0 <= i < |ts| ==> ts[i].mode == Autonomous
    requires 0 < k < |ts|
    requires s1.lastMode == Some(Autonomous)
    ensures Run(Step, s1, ts[1..]).log[k - 1] == AutonomousPeriodic(s1.autoSelected.value, ts[k].readings)
  {
    AutonomousTickFollowsLatch(s1, ts[1..], k - 1);
    assert ts[1..][k - 1] == ts[k];
  }
}
