/** The calls a handler makes on its collaborators during one tick, and
    queries over a tick's sequence of calls: which device each call
    writes, and which call is the last to write a device. */
module Commands {

  import opened Options

  /** How `squareInputs` reached `tankDrive`: passed explicitly, or left
      to the two-argument overload of the drive library. */
  datatype SquareArg = Given(square: bool) | Omitted

  /** One collaborator call, in the order the handler issues it. */
  datatype Command =
    | TankDrive(left: real, right: real, squareInputs: SquareArg)  // m_drive.tankDrive
    | Redline(speed: real)                                           // m_redline.setSpeed
    | Solenoid(engaged: bool)                                        // m_solenoid_1.set
    | FrontLeft(speed: real)                                         // m_frontLeft.set
    | SafetyEnabled(enabled: bool)                                   // m_drive.setSafetyEnabled
    | StartTimer                                                     // m_timer.start

  /** The physical devices (and the two library objects) a call can write. */
  datatype Device =
    | FrontLeftMotor | RearLeftMotor | FrontRightMotor | RearRightMotor
    | RedlineMotor | SolenoidValve | DriveWatchdog | RunTimer

  /** The four Sparks behind the two speed-controller groups of the drive. */
  const DriveMotors: set<Device> := {FrontLeftMotor, RearLeftMotor, FrontRightMotor, RearRightMotor}

  /** Whether call `c` writes device `d`. A tank-drive call writes both
      groups, so it writes the front-left Spark as well as the others. */
  predicate Targets(c: Command, d: Device)
  {
    match c
    case TankDrive(_, _, _) => d in DriveMotors
    case Redline(_) => d == RedlineMotor
    case Solenoid(_) => d == SolenoidValve
    case FrontLeft(_) => d == FrontLeftMotor
    case SafetyEnabled(_) => d == DriveWatchdog
    case StartTimer => d == RunTimer
  }

  /** Whether call `c` makes something move or switch on. */
  predicate Actuates(c: Command)
  {
    match c
    case TankDrive(l, r, _) => l != 0.0 || r != 0.0
    case Redline(s) => s != 0.0
    case Solenoid(e) => e
    case FrontLeft(s) => s != 0.0
    case SafetyEnabled(_) => false
    case StartTimer => false
  }

  /** No call of the tick moves or switches on anything. */
  predicate Inert(cmds: seq<Command>)
  {
    forall i :: 0 <= i < |cmds| ==> !Actuates(cmds[i])
  }

  /** Every speed the call carries lies in the motor range [-1, 1]. */
  predicate InRange(c: Command)
  {
    match c
    case TankDrive(l, r, _) => -1.0 <= l <= 1.0 && -1.0 <= r <= 1.0
    case Redline(s) => -1.0 <= s <= 1.0
    case FrontLeft(s) => -1.0 <= s <= 1.0
    case Solenoid(_) => true
    case SafetyEnabled(_) => true
    case StartTimer => true
  }

  predicate AllInRange(cmds: seq<Command>)
  {
    forall i :: 0 <= i < |cmds| ==> InRange(cmds[i])
  }

  /** The calls of `cmds` that write `d`, in issue order. */
  function WritesTo(cmds: seq<Command>, d: Device): (ws: seq<Command>)
    ensures |ws| <= |cmds|
    ensures forall i :: 0 <= i < |ws| ==> Targets(ws[i], d) && ws[i] in cmds
    ensures forall i :: 0 <= i < |cmds| && Targets(cmds[i], d) ==> cmds[i] in ws
    decreases |cmds|
  {
    if |cmds| == 0 then []
    else (if Targets(cmds[0], d) then [cmds[0]] else []) + WritesTo(cmds[1..], d)
  }

  /** The call whose value `d` holds once the tick is over: the last one
      that writes it, or None when the tick leaves `d` alone. */
  function LastWrite(cmds: seq<Command>, d: Device): (w: Option<Command>)
    ensures w.None? <==> forall i :: 0 <= i < |cmds| ==> !Targets(cmds[i], d)
    ensures w.Some? ==> w.value in cmds && Targets(w.value, d)
    decreases |cmds|
  {
    if |cmds| == 0 then None
    else if Targets(cmds[|cmds| - 1], d) then Some(cmds[|cmds| - 1])
    else LastWrite(cmds[..|cmds| - 1], d)
  }

  /** The last write is last: it sits at some index of the tick, and no
      later call of the tick writes the same device. */
  lemma {:induction false} LastWriteIsLast(cmds: seq<Command>, d: Device)
    requires LastWrite(cmds, d).Some?
    ensures exists i :: 0 <= i < |cmds| && cmds[i] == LastWrite(cmds, d).value &&
                        (forall j :: i < j < |cmds| ==> !Targets(cmds[j], d))
    decreases |cmds|
  {
    var n := |cmds| - 1;
    if !Targets(cmds[n], d) {
      var front := cmds[..n];
      LastWriteIsLast(front, d);
      var i :| 0 <= i < |front| && front[i] == LastWrite(front, d).value &&
        forall j :: i < j < |front| ==> !Targets(front[j], d);
      assert cmds[i] == LastWrite(cmds, d).value;
      assert forall j :: i < j < |cmds| ==> !Targets(cmds[j], d) by {
        forall j | i < j < |cmds| ensures !Targets(cmds[j], d) {
          if j < n { assert cmds[j] == front[j]; }
        }
      }
    } else {
      assert cmds[n] == LastWrite(cmds, d).value;
    }
  }

  /** Writes of a concatenation are the writes of each part, in order. */
  lemma {:induction false} WritesToConcat(a: seq<Command>, b: seq<Command>, d: Device)
    ensures WritesTo(a + b, d) == WritesTo(a, d) + WritesTo(b, d)
    decreases |a|
  {
    if |a| == 0 {
      assert a + b == b;
    } else {
      assert (a + b)[1..] == a[1..] + b;
      WritesToConcat(a[1..], b, d);
    }
  }

  /** A later write overrides an earlier one: the value left in `d` after
      `a` then `b` is the one `b` wrote, if it wrote any. */
  lemma {:induction false} LastWriteConcat(a: seq<Command>, b: seq<Command>, d: Device)
    ensures LastWrite(a + b, d) == if LastWrite(b, d).Some? then LastWrite(b, d) else LastWrite(a, d)
    decreases |b|
  {
    if |b| == 0 {
      assert a + b == a;
    } else {
      assert (a + b)[..|a + b| - 1] == a + b[..|b| - 1];
      assert (a + b)[|a + b| - 1] == b[|b| - 1];
      LastWriteConcat(a, b[..|b| - 1], d);
    }
  }

  /** A single call writes `d` exactly when it targets it. */
  lemma OneCallWrites(c: Command, d: Device)
    ensures WritesTo([c], d) == if Targets(c, d) then [c] else []
    ensures LastWrite([c], d) == if Targets(c, d) then Some(c) else None
  {
  }
}
