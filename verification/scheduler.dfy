/** The host side of a timed robot: the four modes, the tick the host
    delivers, and a run of ticks folded through a robot program's step
    function. On each tick the host calls the mode's initializer when the
    mode differs from the previous tick's, then the mode's periodic
    handler, then `robotPeriodic`; each robot program's `Step` encodes that
    order, and `Run` applies it tick after tick. */
module Scheduler {

  import opened Options
  import opened Commands
  import opened Inputs

  datatype Mode = Disabled | Autonomous | Teleop | Test

  /** One host tick: the active mode and what is read during the tick. */
  datatype HostTick = HostTick(mode: Mode, readings: Readings)

  /** A handler's effect: the program's next state and the calls it issued. */
  datatype Outcome<S> = Outcome(state: S, commands: seq<Command>)

  /** A run: the state after the last tick and each tick's calls. */
  datatype Trace<S> = Trace(final: S, log: seq<seq<Command>>)

  /** The initializer runs when the mode differs from the previous tick's
      (the host's last mode is None before the first tick). */
  predicate Entering(last: Option<Mode>, mode: Mode)
  {
    last != Some(mode)
  }

  /** Folds `step` over the ticks, from the first one on. */
  function Run<S>(step: (S, HostTick) -> Outcome<S>, s: S, ts: seq<HostTick>): (tr: Trace<S>)
    ensures |tr.log| == |ts|
    decreases |ts|
  {
    if |ts| == 0 then Trace(s, [])
    else
      var before := Run(step, s, ts[..|ts| - 1]);
      var o := step(before.final, ts[|ts| - 1]);
      Trace(o.state, before.log + [o.commands])
  }

  /** The state after k + 1 ticks is one step from the state after k. */
  lemma RunExtends<S>(step: (S, HostTick) -> Outcome<S>, s: S, ts: seq<HostTick>, k: nat)
    requires k < |ts|
    ensures Run(step, s, ts[..k + 1]).final == step(Run(step, s, ts[..k]).final, ts[k]).state
  {
    assert ts[..k + 1][..k] == ts[..k];
  }

  /** Tick k of a run issues what one step issues from the state the first
      k ticks left behind: the log holds each tick's calls, in order. */
  lemma {:induction false} RunLogIsStepwise<S>(step: (S, HostTick) -> Outcome<S>, s: S, ts: seq<HostTick>, k: nat)
    requires k < |ts|
    ensures Run(step, s, ts).log[k] == step(Run(step, s, ts[..k]).final, ts[k]).commands
    decreases |ts|
  {
    var n := |ts| - 1;
    if k < n {
      var front := ts[..n];
      RunLogIsStepwise(step, s, front, k);
      assert front[..k] == ts[..k];
    } else {
      assert ts[..n] == ts[..k];
    }
  }

  /** A run split at its first tick: one step from `s`, then the rest of
      the run from the state that step left. */
  lemma {:induction false} RunFront<S>(step: (S, HostTick) -> Outcome<S>, s: S, ts: seq<HostTick>)
    requires |ts| > 0
    ensures Run(step, s, ts).final == Run(step, step(s, ts[0]).state, ts[1..]).final
    ensures Run(step, s, ts).log == [step(s, ts[0]).commands] + Run(step, step(s, ts[0]).state, ts[1..]).log
    decreases |ts|
  {
    var n := |ts| - 1;
    var s1 := step(s, ts[0]).state;
    if n > 0 {
      RunFront(step, s, ts[..n]);
      assert ts[..n][1..] == ts[1..][..n - 1];
      assert ts[1..][n - 1] == ts[n];
    } else {
      assert ts[..n] == [];
      assert ts[1..] == [];
    }
  }

  /** Tick k > 0 of a run is tick k - 1 of the run that starts from the
      state the first tick left. */
  lemma RunFrontTick<S>(step: (S, HostTick) -> Outcome<S>, s: S, ts: seq<HostTick>, k: nat)
    requires 0 < k < |ts|
    ensures Run(step, s, ts).log[k] == Run(step, step(s, ts[0]).state, ts[1..]).log[k - 1]
  {
    RunFront(step, s, ts);
  }

  /** A two-tick run logs the first step's calls, then the calls of the
      step taken from the state the first one left. */
  lemma TwoTickRun<S>(step: (S, HostTick) -> Outcome<S>, s: S, t1: HostTick, t2: HostTick)
    ensures Run(step, s, [t1, t2]).log == [step(s, t1).commands, step(step(s, t1).state, t2).commands]
  {
    var s1 := step(s, t1).state;
    RunFront(step, s, [t1, t2]);
    assert [t1, t2][1..] == [t2];
    RunFront(step, s1, [t2]);
    assert [t2][1..] == [];
  }
}
